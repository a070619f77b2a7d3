/**
 * What every run of the master keeps: the sporadic law, conservation of raises, and the bounded drain of priorities.
 */
module MasterRun {
  import opened Lin
  import opened Master
  import Exchange
  import LdfGrammar
  import Signals

  // ---------- The law of each slot ----------

  function Begin(s: Sporadics): Progress {
    Progress(s, [], [], false)
  }

  lemma {:induction false} RunSplits(
    table: seq<ScheduleEntry>, cb: Callbacks, p: Progress, k: nat, visits: seq<Visit>, m: nat)
    requires |table| > 0 && m <= |visits|
    ensures RunFrom(table, cb, p, k, visits) ==
            RunFrom(table, cb, RunFrom(table, cb, p, k, visits[..m]), k + m, visits[m..])
    decreases m
  {
    if m == 0 {
      assert visits[0..] == visits;
    } else {
      RunSplits(table, cb, Step(table, cb, p, k, visits[0]), k + 1, visits[1..], m - 1);
      assert visits[1..][..m - 1] == visits[..m][1..];
      assert visits[1..][m - 1..] == visits[m..];
    }
  }

  lemma OneVisit(table: seq<ScheduleEntry>, cb: Callbacks, p: Progress, k: nat, visits: seq<Visit>)
    requires |table| > 0 && k < |visits|
    ensures RunFrom(table, cb, p, k, visits[k..]) ==
            RunFrom(table, cb, Step(table, cb, p, k, visits[k]), k + 1, visits[k + 1..])
  {
    assert visits[k..][1..] == visits[k + 1..];
  }

  lemma {:induction false} StoppedStays(
    table: seq<ScheduleEntry>, cb: Callbacks, p: Progress, k: nat, visits: seq<Visit>)
    requires |table| > 0 && p.stopped
    ensures RunFrom(table, cb, p, k, visits) == p
    decreases |visits|
  {
    if |visits| > 0 {
      StoppedStays(table, cb, p, k + 1, visits[1..]);
    }
  }

  lemma {:induction false} RunExtends(table: seq<ScheduleEntry>, cb: Callbacks, p: Progress, k: nat, visits: seq<Visit>)
    requires |table| > 0
    ensures var p' := RunFrom(table, cb, p, k, visits);
            && p.resolved <= p'.resolved && |p'.resolved| <= |p.resolved| + |visits|
            && (!p'.stopped ==> |p'.resolved| == |p.resolved| + |visits|)
    decreases |visits|
  {
    if p.stopped {
      StoppedStays(table, cb, p, k, visits);
    } else if |visits| > 0 {
      RunExtends(table, cb, Step(table, cb, p, k, visits[0]), k + 1, visits[1..]);
      if visits[0].cancelledBefore {
        StoppedStays(table, cb, Step(table, cb, p, k, visits[0]), k + 1, visits[1..]);
      }
    }
  }

  /** The state slot i is resolved in: what the run left so far, after the calls made just before the slot. */
  function StateAt(table: seq<ScheduleEntry>, cb: Callbacks, start: Sporadics, visits: seq<Visit>, i: nat): Sporadics
    requires |table| > 0 && i < |visits|
  {
    ApplyAll(RunFrom(table, cb, Begin(start), 0, visits[..i]).sporadics, visits[i].ops)
  }

  /** The i-th slot of the run is the i-th of the cyclic schedule, resolved by priority among what is pending then. */
  predicate ObeysPriority(s: Sporadics, slot: uint8, r: Resolution) {
    match r
    case Ordinary(id) => id == slot && slot !in s.groups
    case Chosen(id) =>
      slot in s.groups && id in s.pending &&
      exists j :: 0 <= j < |s.groups[slot]| && s.groups[slot][j] == id &&
                  forall l :: 0 <= l < j ==> s.groups[slot][l] !in s.pending
    case Skipped =>
      slot in s.groups && forall l :: 0 <= l < |s.groups[slot]| ==> s.groups[slot][l] !in s.pending
  }

  lemma ResolveObeysPriority(s: Sporadics, slot: uint8)
    ensures ObeysPriority(s, slot, Resolve(s, slot))
  {
    if slot in s.groups {
      var i := FirstPending(s.groups[slot], s.pending);
    }
  }

  lemma RunLaw(table: seq<ScheduleEntry>, cb: Callbacks, start: Sporadics, visits: seq<Visit>, i: nat)
    requires |table| > 0 && i < |RunFrom(table, cb, Begin(start), 0, visits).resolved|
    ensures i < |visits|
    ensures ObeysPriority(StateAt(table, cb, start, visits, i), table[i % |table|].id,
                          RunFrom(table, cb, Begin(start), 0, visits).resolved[i])
  {
    var p := RunFrom(table, cb, Begin(start), 0, visits);
    RunExtends(table, cb, Begin(start), 0, visits);
    var q := RunFrom(table, cb, Begin(start), 0, visits[..i]);
    RunSplits(table, cb, Begin(start), 0, visits, i);
    RunExtends(table, cb, Begin(start), 0, visits[..i]);
    if q.stopped {
      StoppedStays(table, cb, q, i, visits[i..]);
    } else {
      var q' := Step(table, cb, q, i, visits[i]);
      OneVisit(table, cb, q, i, visits);
      RunExtends(table, cb, q', i + 1, visits[i + 1..]);
      if visits[i].cancelledBefore {
        StoppedStays(table, cb, q', i + 1, visits[i + 1..]);
      }
      ResolveObeysPriority(StateAt(table, cb, start, visits, i), Slot(table, i).id);
    }
  }

  // ---------- What the surroundings observe ----------

  /** The identifiers that were resolved to something. */
  function Attempts(resolved: seq<Resolution>): seq<uint8> {
    if |resolved| == 0 then []
    else Attempts(resolved[..|resolved| - 1])
         + (match resolved[|resolved| - 1] case Skipped => [] case Ordinary(id) => [id] case Chosen(id) => [id])
  }

  /** The events of the slots resolved so far, slot by slot. */
  function Trace(cb: Callbacks, resolved: seq<Resolution>, visits: seq<Visit>): seq<Event>
    requires |resolved| <= |visits|
  {
    if |resolved| == 0 then []
    else
      var n := |resolved| - 1;
      Trace(cb, resolved[..n], visits) + VisitEvents(cb, resolved[n], visits[n].reply)
  }

  lemma {:induction false} HeadersOfTrace(cb: Callbacks, resolved: seq<Resolution>, visits: seq<Visit>)
    requires |resolved| <= |visits|
    ensures HeadersOf(Trace(cb, resolved, visits)) == Attempts(resolved)
  {
    if |resolved| > 0 {
      var n := |resolved| - 1;
      var seen := VisitEvents(cb, resolved[n], visits[n].reply);
      HeadersOfTrace(cb, resolved[..n], visits);
      HeadersOfAppend(Trace(cb, resolved[..n], visits), seen);
      HeadersOfVisit(cb, resolved[n], visits[n].reply);
    }
  }

  lemma {:induction false} EventsAreTheTrace(
    table: seq<ScheduleEntry>, cb: Callbacks, start: Sporadics, visits: seq<Visit>)
    requires |table| > 0
    ensures var p := RunFrom(table, cb, Begin(start), 0, visits);
            |p.resolved| <= |visits| && p.events == Trace(cb, p.resolved, visits)
    decreases |visits|
  {
    RunExtends(table, cb, Begin(start), 0, visits);
    if |visits| > 0 {
      var n := |visits| - 1;
      var q := RunFrom(table, cb, Begin(start), 0, visits[..n]);
      EventsAreTheTrace(table, cb, start, visits[..n]);
      RunExtends(table, cb, Begin(start), 0, visits[..n]);
      RunSplits(table, cb, Begin(start), 0, visits, n);
      OneVisit(table, cb, q, n, visits);
      TraceOfPrefix(cb, q.resolved, visits[..n], visits);
      var p := RunFrom(table, cb, Begin(start), 0, visits);
      assert p == Step(table, cb, q, n, visits[n]);
      assert |p.resolved| > |q.resolved| ==> p.resolved[..n] == q.resolved;
    }
  }

  lemma {:induction false} TraceOfPrefix(cb: Callbacks, resolved: seq<Resolution>, a: seq<Visit>, b: seq<Visit>)
    requires |resolved| <= |a| && a <= b
    ensures Trace(cb, resolved, a) == Trace(cb, resolved, b)
  {
    if |resolved| > 0 {
      TraceOfPrefix(cb, resolved[..|resolved| - 1], a, b);
    }
  }

  /** The headers on the bus are the resolved slots in order; a skipped slot leaves no header and calls nobody back. */
  lemma RunObserved(table: seq<ScheduleEntry>, cb: Callbacks, start: Sporadics, visits: seq<Visit>)
    requires |table| > 0
    ensures var p := RunFrom(table, cb, Begin(start), 0, visits);
            && |p.resolved| <= |visits| && p.events == Trace(cb, p.resolved, visits)
            && HeadersOf(p.events) == Attempts(p.resolved)
            && (!p.stopped ==> |p.resolved| == |visits|)
  {
    EventsAreTheTrace(table, cb, start, visits);
    RunExtends(table, cb, Begin(start), 0, visits);
    HeadersOfTrace(cb, RunFrom(table, cb, Begin(start), 0, visits).resolved, visits);
  }

  // ---------- Cancellation ----------

  /** The visit ends the run: before its slot, or in the delay behind it if there is one. */
  predicate Cancels(table: seq<ScheduleEntry>, k: nat, v: Visit)
    requires |table| > 0
  {
    v.cancelledBefore || (table[k % |table|].delayMs > 0 && v.cancelledInDelay)
  }

  lemma {:induction false} UncancelledRuns(
    table: seq<ScheduleEntry>, cb: Callbacks, p: Progress, k: nat, visits: seq<Visit>)
    requires |table| > 0 && !p.stopped
    requires forall i :: 0 <= i < |visits| ==> !Cancels(table, k + i, visits[i])
    ensures var p' := RunFrom(table, cb, p, k, visits);
            !p'.stopped && |p'.resolved| == |p.resolved| + |visits|
    decreases |visits|
  {
    if |visits| > 0 {
      assert !Cancels(table, k + 0, visits[0]);
      forall i | 0 <= i < |visits[1..]| ensures !Cancels(table, k + 1 + i, visits[1..][i]) {
        assert !Cancels(table, k + (i + 1), visits[i + 1]);
      }
      UncancelledRuns(table, cb, Step(table, cb, p, k, visits[0]), k + 1, visits[1..]);
    }
  }

  lemma CancelledStep(table: seq<ScheduleEntry>, cb: Callbacks, q: Progress, k: nat, v: Visit)
    requires |table| > 0 && !q.stopped && Cancels(table, k, v)
    ensures var p := Step(table, cb, q, k, v);
            && p.stopped
            && (v.cancelledBefore ==>
                  |p.resolved| == |q.resolved| && p.events == q.events && p.sporadics == ApplyAll(q.sporadics, v.ops))
            && (!v.cancelledBefore ==> |p.resolved| == |q.resolved| + 1)
  {
  }

  lemma StoppedWithin(table: seq<ScheduleEntry>, cb: Callbacks, p: Progress, visits: seq<Visit>, m: nat)
    requires |table| > 0 && m <= |visits| && RunFrom(table, cb, p, 0, visits[..m]).stopped
    ensures RunFrom(table, cb, p, 0, visits) == RunFrom(table, cb, p, 0, visits[..m])
  {
    RunSplits(table, cb, p, 0, visits, m);
    StoppedStays(table, cb, RunFrom(table, cb, p, 0, visits[..m]), m, visits[m..]);
  }

  /**
   * The first cancellation ends the run for good: in the delay its slot has been served, before the slot it has not,
   * and only the calls made by others still count. Nothing that would have come later has any effect.
   */
  lemma CancellationStops(table: seq<ScheduleEntry>, cb: Callbacks, start: Sporadics, visits: seq<Visit>, i: nat)
    requires |table| > 0 && i < |visits| && Cancels(table, i, visits[i])
    requires forall j :: 0 <= j < i ==> !Cancels(table, j, visits[j])
    ensures var p := RunFrom(table, cb, Begin(start), 0, visits);
            var q := RunFrom(table, cb, Begin(start), 0, visits[..i]);
            && p.stopped && p == RunFrom(table, cb, Begin(start), 0, visits[..i + 1])
            && (visits[i].cancelledBefore ==>
                  && |p.resolved| == i && p.events == q.events
                  && p.sporadics == ApplyAll(q.sporadics, visits[i].ops))
            && (!visits[i].cancelledBefore ==> |p.resolved| == i + 1)
  {
    UncancelledRuns(table, cb, Begin(start), 0, visits[..i]);
    CancelledStep(table, cb, RunFrom(table, cb, Begin(start), 0, visits[..i]), i, visits[i]);
    LastVisit(table, cb, Begin(start), visits, i + 1);
    StoppedWithin(table, cb, Begin(start), visits, i + 1);
  }

  lemma FirstCancellation(table: seq<ScheduleEntry>, visits: seq<Visit>, i: nat) returns (first: nat)
    requires |table| > 0 && i < |visits| && Cancels(table, i, visits[i])
    ensures first <= i && Cancels(table, first, visits[first])
    ensures forall j :: 0 <= j < first ==> !Cancels(table, j, visits[j])
  {
    first := 0;
    while !Cancels(table, first, visits[first])
      invariant first <= i && forall j :: 0 <= j < first ==> !Cancels(table, j, visits[j])
      decreases i - first
    {
      first := first + 1;
    }
  }

  /** A run is stopped exactly when one of its visits cancels it. */
  lemma RunStops(table: seq<ScheduleEntry>, cb: Callbacks, start: Sporadics, visits: seq<Visit>)
    requires |table| > 0
    ensures RunFrom(table, cb, Begin(start), 0, visits).stopped <==>
            exists i :: 0 <= i < |visits| && Cancels(table, i, visits[i])
  {
    if i :| 0 <= i < |visits| && Cancels(table, i, visits[i]) {
      var first := FirstCancellation(table, visits, i);
      CancellationStops(table, cb, start, visits, first);
    } else {
      UncancelledRuns(table, cb, Begin(start), 0, visits);
    }
  }

  // ---------- Calls made by others ----------

  predicate InRange(slot: uint8, candidates: seq<uint8>) {
    slot <= 0x3F && forall i :: 0 <= i < |candidates| ==> candidates[i] <= 0x3F
  }

  /** A call of SetSporadicGroup for this slot that is accepted. */
  predicate Groups(op: Op, slot: uint8) {
    op.Group? && op.slot == slot && InRange(slot, op.candidates)
  }

  /** The last accepted call decides what a slot's group is: its list, or none at all if the list is empty. */
  lemma {:induction false} LastGroupCounts(s: Sporadics, ops: seq<Op>, i: nat, slot: uint8)
    requires i < |ops| && Groups(ops[i], slot)
    requires forall j :: i < j < |ops| ==> !Groups(ops[j], slot)
    ensures var groups := ApplyAll(s, ops).groups;
            && (slot in groups <==> |ops[i].candidates| > 0)
            && (slot in groups ==> groups[slot] == ops[i].candidates)
  {
    var n := |ops| - 1;
    if i < n {
      LastGroupCounts(s, ops[..n], i, slot);
    }
  }

  /** Without one the group stays as it was; in particular a call with an identifier out of range changes nothing. */
  lemma {:induction false} GroupStays(s: Sporadics, ops: seq<Op>, slot: uint8)
    requires forall j :: 0 <= j < |ops| ==> !Groups(ops[j], slot)
    ensures var groups := ApplyAll(s, ops).groups;
            && (slot in groups <==> slot in s.groups)
            && (slot in groups ==> groups[slot] == s.groups[slot])
  {
    if |ops| > 0 {
      GroupStays(s, ops[..|ops| - 1], slot);
    }
  }

  /** Raising is the only thing that sets a flag, and none of these calls clears one. */
  lemma {:induction false} RaisedIsPending(s: Sporadics, ops: seq<Op>, id: uint8)
    ensures id in ApplyAll(s, ops).pending <==> id in s.pending || Raise(id) in ops
  {
    if |ops| > 0 {
      RaisedIsPending(s, ops[..|ops| - 1], id);
      assert ops == ops[..|ops| - 1] + [ops[|ops| - 1]];
    }
  }

  // ---------- Runs on a bus ----------

  /** The visits the plans amount to when the bus gives the answers. */
  function VisitsOf(table: seq<ScheduleEntry>, cb: Callbacks, start: OnBus, plans: seq<Plan>): seq<Visit>
    requires |table| > 0
  {
    seq(|plans|, i requires 0 <= i < |plans| =>
      var o := RunOnBus(table, cb, start, plans, i);
      VisitOf(o.bus, o.progress.sporadics, Slot(table, i).id, plans[i]))
  }

  lemma {:induction false} RunByIsARun(
    step: (OnBus, ScheduleEntry, Plan) -> OnBus, slots: nat -> ScheduleEntry, start: OnBus, plans: seq<Plan>,
    table: seq<ScheduleEntry>, cb: Callbacks, visits: seq<Visit>, k: nat)
    requires |table| > 0 && |visits| == |plans| && k <= |plans|
    requires forall i :: 0 <= i < |plans| ==>
               var o := RunBy(step, slots, start, plans, i);
               step(o, slots(i), plans[i]).progress == Step(table, cb, o.progress, i, visits[i])
    ensures RunBy(step, slots, start, plans, k).progress == RunFrom(table, cb, start.progress, 0, visits[..k])
  {
    if k > 0 {
      RunByIsARun(step, slots, start, plans, table, cb, visits, k - 1);
      LastVisit(table, cb, start.progress, visits, k);
      var o := RunBy(step, slots, start, plans, k - 1);
      assert step(o, slots(k - 1), plans[k - 1]).progress == Step(table, cb, o.progress, k - 1, visits[k - 1]);
    }
  }

  lemma StepIsAVisit(table: seq<ScheduleEntry>, cb: Callbacks, o: OnBus, plan: Plan, k: nat)
    requires |table| > 0
    ensures Stepper(cb)(o, Slots(table)(k), plan).progress ==
            Step(table, cb, o.progress, k, VisitOf(o.bus, o.progress.sporadics, Slot(table, k).id, plan))
  {
  }

  /** Every run on a bus is a run with these visits, so that whatever holds of all runs holds of it. */
  lemma RunOnBusIsARun(table: seq<ScheduleEntry>, cb: Callbacks, start: OnBus, plans: seq<Plan>, k: nat)
    requires |table| > 0 && k <= |plans|
    ensures RunOnBus(table, cb, start, plans, k).progress ==
            RunFrom(table, cb, start.progress, 0, VisitsOf(table, cb, start, plans)[..k])
  {
    var step, slots, visits := Stepper(cb), Slots(table), VisitsOf(table, cb, start, plans);
    forall i | 0 <= i < |plans|
      ensures var o := RunBy(step, slots, start, plans, i);
              step(o, slots(i), plans[i]).progress == Step(table, cb, o.progress, i, visits[i])
    {
      StepIsAVisit(table, cb, RunBy(step, slots, start, plans, i), plans[i], i);
    }
    RunByIsARun(step, slots, start, plans, table, cb, visits, k);
  }

  lemma LastVisit(table: seq<ScheduleEntry>, cb: Callbacks, p: Progress, visits: seq<Visit>, k: nat)
    requires |table| > 0 && 0 < k <= |visits|
    ensures RunFrom(table, cb, p, 0, visits[..k]) ==
            Step(table, cb, RunFrom(table, cb, p, 0, visits[..k - 1]), k - 1, visits[k - 1])
  {
    RunSplits(table, cb, p, 0, visits[..k], k - 1);
    assert visits[..k][..k - 1] == visits[..k - 1] && visits[..k][k - 1..] == [visits[k - 1]];
    OneVisit(table, cb, RunFrom(table, cb, p, 0, visits[..k - 1]), k - 1, visits[..k]);
  }

  /** For instance, the headers the bus saw are those of the resolved slots. */
  lemma RunOnBusObserved(table: seq<ScheduleEntry>, cb: Callbacks, start: OnBus, plans: seq<Plan>)
    requires |table| > 0 && start.progress == Begin(start.progress.sporadics)
    ensures var p := RunOnBus(table, cb, start, plans, |plans|).progress;
            var visits := VisitsOf(table, cb, start, plans);
            && p == RunFrom(table, cb, start.progress, 0, visits)
            && |p.resolved| <= |plans| == |visits| && p.events == Trace(cb, p.resolved, visits)
            && HeadersOf(p.events) == Attempts(p.resolved)
  {
    var visits := VisitsOf(table, cb, start, plans);
    RunOnBusIsARun(table, cb, start, plans, |plans|);
    assert visits[..|plans|] == visits;
    RunObserved(table, cb, start.progress.sporadics, visits);
  }

  predicate PlanCancels(table: seq<ScheduleEntry>, k: nat, plan: Plan)
    requires |table| > 0
  {
    plan.cancelledBefore || (table[k % |table|].delayMs > 0 && plan.cancelledInDelay)
  }

  lemma PlannedCancellation(table: seq<ScheduleEntry>, cb: Callbacks, start: OnBus, plans: seq<Plan>, i: nat)
    requires |table| > 0 && i < |plans|
    ensures Cancels(table, i, VisitsOf(table, cb, start, plans)[i]) == PlanCancels(table, i, plans[i])
  {
  }

  /** The node's run on a bus is stopped exactly when one of its plans cancels it. */
  lemma BusRunStops(table: seq<ScheduleEntry>, cb: Callbacks, start: OnBus, plans: seq<Plan>)
    requires |table| > 0 && start.progress == Begin(start.progress.sporadics)
    ensures RunOnBus(table, cb, start, plans, |plans|).progress.stopped <==>
            exists i :: 0 <= i < |plans| && PlanCancels(table, i, plans[i])
  {
    forall i | 0 <= i < |plans|
      ensures Cancels(table, i, VisitsOf(table, cb, start, plans)[i]) == PlanCancels(table, i, plans[i])
    {
      PlannedCancellation(table, cb, start, plans, i);
    }
    RunStops(table, cb, start.progress.sporadics, VisitsOf(table, cb, start, plans));
    RunOnBusObserved(table, cb, start, plans);
  }

  /** The header of one slot, if it sends one. */
  function OwnHeader(o: OnBus, slot: ScheduleEntry, plan: Plan): seq<uint8> {
    if o.progress.stopped || plan.cancelledBefore then []
    else
      var r := Resolve(ApplyAll(o.progress.sporadics, plan.ops), slot.id);
      if r.Skipped? then [] else [r.id]
  }

  /** The headers on the bus in one slot: those of others before it, then the node's own. */
  function SlotHeaders(o: OnBus, slot: ScheduleEntry, plan: Plan): seq<uint8> {
    (if o.progress.stopped then [] else Exchange.HeadersIn(plan.busOps)) + OwnHeader(o, slot, plan)
  }

  lemma StepBusHeaders(cb: Callbacks, o: OnBus, slot: ScheduleEntry, plan: Plan)
    ensures StepOnBus(cb, o, slot, plan).bus.headers == o.bus.headers + SlotHeaders(o, slot, plan)
  {
    Exchange.PerformedHeaders(o.bus, plan.busOps);
  }

  lemma StepEventHeaders(cb: Callbacks, p: Progress, slot: ScheduleEntry, v: Visit)
    ensures var p' := SlotStep(cb, p, slot, v);
            var r := Resolve(ApplyAll(p.sporadics, v.ops), slot.id);
            HeadersOf(p'.events) ==
            HeadersOf(p.events) + (if p.stopped || v.cancelledBefore || r.Skipped? then [] else [r.id])
  {
    var r := Resolve(ApplyAll(p.sporadics, v.ops), slot.id);
    HeadersOfVisit(cb, r, v.reply);
    HeadersOfAppend(p.events, VisitEvents(cb, r, v.reply));
  }

  lemma StepOwnHeader(cb: Callbacks, o: OnBus, slot: ScheduleEntry, plan: Plan)
    ensures HeadersOf(StepOnBus(cb, o, slot, plan).progress.events) ==
            HeadersOf(o.progress.events) + OwnHeader(o, slot, plan)
  {
    StepEventHeaders(cb, o.progress, slot, VisitOf(o.bus, o.progress.sporadics, slot.id, plan));
  }

  /** What the first k slots add to a log, when every slot adds more(o, slot, plan). */
  function LogBy(step: (OnBus, ScheduleEntry, Plan) -> OnBus, slots: nat -> ScheduleEntry, start: OnBus,
                 plans: seq<Plan>, more: (OnBus, ScheduleEntry, Plan) -> seq<uint8>, k: nat): seq<uint8>
    requires k <= |plans|
  {
    if k == 0 then []
    else
      LogBy(step, slots, start, plans, more, k - 1)
      + more(RunBy(step, slots, start, plans, k - 1), slots(k - 1), plans[k - 1])
  }

  lemma {:induction false} LogGrows(
    step: (OnBus, ScheduleEntry, Plan) -> OnBus, slots: nat -> ScheduleEntry, start: OnBus, plans: seq<Plan>,
    log: OnBus -> seq<uint8>, more: (OnBus, ScheduleEntry, Plan) -> seq<uint8>, k: nat)
    requires k <= |plans|
    requires forall o, slot, plan :: log(step(o, slot, plan)) == log(o) + more(o, slot, plan)
    ensures log(RunBy(step, slots, start, plans, k)) == log(start) + LogBy(step, slots, start, plans, more, k)
  {
    if k > 0 {
      LogGrows(step, slots, start, plans, log, more, k - 1);
    }
  }

  lemma {:induction false} SameLog(
    step: (OnBus, ScheduleEntry, Plan) -> OnBus, slots: nat -> ScheduleEntry, start: OnBus, plans: seq<Plan>,
    more: (OnBus, ScheduleEntry, Plan) -> seq<uint8>, less: (OnBus, ScheduleEntry, Plan) -> seq<uint8>, k: nat)
    requires k <= |plans|
    requires forall i, o, slot :: 0 <= i < |plans| ==> more(o, slot, plans[i]) == less(o, slot, plans[i])
    ensures LogBy(step, slots, start, plans, more, k) == LogBy(step, slots, start, plans, less, k)
  {
    if k > 0 {
      SameLog(step, slots, start, plans, more, less, k - 1);
    }
  }

  function EveryHeader(): (OnBus, ScheduleEntry, Plan) -> seq<uint8> {
    (o, slot, plan) => SlotHeaders(o, slot, plan)
  }

  function OwnHeaders(): (OnBus, ScheduleEntry, Plan) -> seq<uint8> {
    (o, slot, plan) => OwnHeader(o, slot, plan)
  }

  /** The headers of the whole run, slot by slot. */
  function HeaderLog(table: seq<ScheduleEntry>, cb: Callbacks, start: OnBus, plans: seq<Plan>): seq<uint8>
    requires |table| > 0
  {
    LogBy(Stepper(cb), Slots(table), start, plans, EveryHeader(), |plans|)
  }

  function BusHeaders(): OnBus -> seq<uint8> {
    (o: OnBus) => o.bus.headers
  }

  function EventHeaders(): OnBus -> seq<uint8> {
    (o: OnBus) => HeadersOf(o.progress.events)
  }

  lemma EveryHeaderGrows(cb: Callbacks)
    ensures forall o, slot, plan ::
              BusHeaders()(Stepper(cb)(o, slot, plan)) == BusHeaders()(o) + EveryHeader()(o, slot, plan)
  {
    forall o, slot, plan
      ensures BusHeaders()(Stepper(cb)(o, slot, plan)) == BusHeaders()(o) + EveryHeader()(o, slot, plan)
    {
      StepBusHeaders(cb, o, slot, plan);
    }
  }

  lemma OwnHeadersGrow(cb: Callbacks)
    ensures forall o, slot, plan ::
              EventHeaders()(Stepper(cb)(o, slot, plan)) == EventHeaders()(o) + OwnHeaders()(o, slot, plan)
  {
    forall o, slot, plan
      ensures EventHeaders()(Stepper(cb)(o, slot, plan)) == EventHeaders()(o) + OwnHeaders()(o, slot, plan)
    {
      StepOwnHeader(cb, o, slot, plan);
    }
  }

  /** The headers on the bus after a run are exactly these. */
  lemma RunHeaders(table: seq<ScheduleEntry>, cb: Callbacks, start: OnBus, plans: seq<Plan>)
    requires |table| > 0
    ensures RunOnBus(table, cb, start, plans, |plans|).bus.headers ==
            start.bus.headers + HeaderLog(table, cb, start, plans)
  {
    EveryHeaderGrows(cb);
    LogGrows(Stepper(cb), Slots(table), start, plans, BusHeaders(), EveryHeader(), |plans|);
  }

  /** Two logs that grow alike from here. */
  lemma QuietLogs(
    step: (OnBus, ScheduleEntry, Plan) -> OnBus, slots: nat -> ScheduleEntry, start: OnBus, plans: seq<Plan>,
    log: OnBus -> seq<uint8>, own: OnBus -> seq<uint8>)
    requires forall i :: 0 <= i < |plans| ==> Exchange.HeadersIn(plans[i].busOps) == []
    requires forall o, slot, plan :: log(step(o, slot, plan)) == log(o) + EveryHeader()(o, slot, plan)
    requires forall o, slot, plan :: own(step(o, slot, plan)) == own(o) + OwnHeaders()(o, slot, plan)
    requires own(start) == []
    ensures var end := RunBy(step, slots, start, plans, |plans|); log(end) == log(start) + own(end)
  {
    LogGrows(step, slots, start, plans, log, EveryHeader(), |plans|);
    LogGrows(step, slots, start, plans, own, OwnHeaders(), |plans|);
    SameLog(step, slots, start, plans, EveryHeader(), OwnHeaders(), |plans|);
  }

  /** When nobody else sends headers, they are the headers among the run's events. */
  lemma QuietRunHeaders(table: seq<ScheduleEntry>, cb: Callbacks, start: OnBus, plans: seq<Plan>)
    requires |table| > 0 && start.progress.events == []
    requires forall i :: 0 <= i < |plans| ==> Exchange.HeadersIn(plans[i].busOps) == []
    ensures var o := RunOnBus(table, cb, start, plans, |plans|);
            o.bus.headers == start.bus.headers + HeadersOf(o.progress.events)
  {
    EveryHeaderGrows(cb);
    OwnHeadersGrow(cb);
    QuietLogs(Stepper(cb), Slots(table), start, plans, BusHeaders(), EventHeaders());
  }

  // ---------- Every raise is sent once or still pending ----------

  function Flag(s: Sporadics, id: uint8): nat {
    if id in s.pending then 1 else 0
  }

  /** How often the calls turn id's flag from clear to set. */
  function Raises(s: Sporadics, ops: seq<Op>, id: uint8): nat {
    if |ops| == 0 then 0
    else
      var n := |ops| - 1;
      Raises(s, ops[..n], id) + (if ops[n] == Raise(id) && id !in ApplyAll(s, ops[..n]).pending then 1 else 0)
  }

  function RunRaises(table: seq<ScheduleEntry>, cb: Callbacks, p: Progress, k: nat, visits: seq<Visit>, id: uint8): nat
    requires |table| > 0
    decreases |visits|
  {
    if |visits| == 0 then 0
    else (if p.stopped then 0 else Raises(p.sporadics, visits[0].ops, id))
         + RunRaises(table, cb, Step(table, cb, p, k, visits[0]), k + 1, visits[1..], id)
  }

  function TimesChosen(resolved: seq<Resolution>, id: uint8): nat {
    if |resolved| == 0 then 0
    else TimesChosen(resolved[..|resolved| - 1], id) + (if resolved[|resolved| - 1] == Chosen(id) then 1 else 0)
  }

  lemma {:induction false} OpsConserve(s: Sporadics, ops: seq<Op>, id: uint8)
    ensures Flag(s, id) + Raises(s, ops, id) == Flag(ApplyAll(s, ops), id)
  {
    if |ops| > 0 {
      OpsConserve(s, ops[..|ops| - 1], id);
    }
  }

  lemma StepConserves(table: seq<ScheduleEntry>, cb: Callbacks, p: Progress, k: nat, v: Visit, id: uint8)
    requires |table| > 0
    ensures var p' := Step(table, cb, p, k, v);
            TimesChosen(p.resolved, id) + Flag(p.sporadics, id)
            + (if p.stopped then 0 else Raises(p.sporadics, v.ops, id))
            == TimesChosen(p'.resolved, id) + Flag(p'.sporadics, id)
  {
    OpsConserve(p.sporadics, v.ops, id);
    var p' := Step(table, cb, p, k, v);
    if !p.stopped && !v.cancelledBefore {
      assert p'.resolved[..|p.resolved|] == p.resolved;
    }
  }

  lemma {:induction false} RunConserves(
    table: seq<ScheduleEntry>, cb: Callbacks, p: Progress, k: nat, visits: seq<Visit>, id: uint8)
    requires |table| > 0
    ensures var p' := RunFrom(table, cb, p, k, visits);
            TimesChosen(p.resolved, id) + Flag(p.sporadics, id) + RunRaises(table, cb, p, k, visits, id)
            == TimesChosen(p'.resolved, id) + Flag(p'.sporadics, id)
    decreases |visits|
  {
    if |visits| > 0 {
      StepConserves(table, cb, p, k, visits[0], id);
      RunConserves(table, cb, Step(table, cb, p, k, visits[0]), k + 1, visits[1..], id);
    }
  }

  /** From a fresh node, the raises of an identifier are its sporadic transmissions, plus one if it is still pending. */
  lemma RaisesAreSentOrPending(
    table: seq<ScheduleEntry>, cb: Callbacks, groups: map<uint8, seq<uint8>>, visits: seq<Visit>, id: uint8)
    requires |table| > 0
    ensures var start := Begin(Sporadics({}, groups));
            var p := RunFrom(table, cb, start, 0, visits);
            RunRaises(table, cb, start, 0, visits, id)
            == TimesChosen(p.resolved, id) + (if id in p.sporadics.pending then 1 else 0)
  {
    RunConserves(table, cb, Begin(Sporadics({}, groups)), 0, visits, id);
  }

  // ---------- Bounded drain ----------

  /** The candidates ahead of position j that are pending. */
  function Ahead(pending: set<uint8>, c: seq<uint8>, j: nat): set<uint8>
    requires j <= |c|
  {
    set i | 0 <= i < j && c[i] in pending :: c[i]
  }

  /** No candidate ahead of position j is raised, and the slot's group stays as it is. */
  predicate Calm(ops: seq<Op>, slot: uint8, c: seq<uint8>, j: nat)
    requires j <= |c|
  {
    forall i :: 0 <= i < |ops| ==>
      match ops[i]
      case Raise(id) => id !in c[..j]
      case Group(s, _) => s != slot
  }

  predicate Undisturbed(table: seq<ScheduleEntry>, k: nat, visits: seq<Visit>, slot: uint8, c: seq<uint8>, j: nat)
    requires |table| > 0 && j <= |c|
  {
    forall i :: 0 <= i < |visits| ==>
      && Calm(visits[i].ops, slot, c, j) && !visits[i].cancelledBefore
      && !(Slot(table, k + i).delayMs > 0 && visits[i].cancelledInDelay)
  }

  /** How many of the n visits from k on are to the slot. */
  function SlotVisits(table: seq<ScheduleEntry>, k: nat, n: nat, slot: uint8): nat
    requires |table| > 0
    decreases n
  {
    if n == 0 then 0
    else (if Slot(table, k).id == slot then 1 else 0) + SlotVisits(table, k + 1, n - 1, slot)
  }

  lemma {:induction false} CalmOpsKeep(s: Sporadics, ops: seq<Op>, slot: uint8, c: seq<uint8>, j: nat)
    requires j < |c| && Calm(ops, slot, c, j)
    requires slot in s.groups && s.groups[slot] == c && c[j] in s.pending
    ensures var s' := ApplyAll(s, ops);
            && slot in s'.groups && s'.groups[slot] == c && c[j] in s'.pending
            && Ahead(s'.pending, c, j) <= Ahead(s.pending, c, j)
  {
    if |ops| > 0 {
      var n := |ops| - 1;
      CalmOpsKeep(s, ops[..n], slot, c, j);
      var s1 := ApplyAll(s, ops[..n]);
      assert Calm([ops[n]], slot, c, j);
      match ops[n]
      case Raise(id) =>
        forall x | x in Ahead(Apply(s1, ops[n]).pending, c, j) ensures x in Ahead(s1.pending, c, j) {
          var i :| 0 <= i < j && c[i] == x && c[i] in Apply(s1, ops[n]).pending;
          assert c[i] in c[..j];
        }
      case Group(_, _) =>
    }
  }

  /** One visit sends candidate j, or leaves it pending; a visit to its own slot then shortens the queue ahead of it. */
  lemma VisitDrains(s: Sporadics, at: uint8, slot: uint8, c: seq<uint8>, j: nat)
    requires j < |c| && slot in s.groups && s.groups[slot] == c && c[j] in s.pending
    requires Resolve(s, at) != Chosen(c[j])
    ensures var s' := AfterResolve(s, at);
            && s'.groups == s.groups && c[j] in s'.pending
            && Ahead(s'.pending, c, j) <= Ahead(s.pending, c, j)
            && (at == slot ==> |Ahead(s'.pending, c, j)| < |Ahead(s.pending, c, j)|)
  {
    var s' := AfterResolve(s, at);
    forall x | x in Ahead(s'.pending, c, j) ensures x in Ahead(s.pending, c, j) {
      var i :| 0 <= i < j && c[i] == x && c[i] in s'.pending;
    }
    if at == slot {
      var i := FirstPending(c, s.pending).value;
      assert i < j;
      assert c[i] in Ahead(s.pending, c, j) && c[i] !in Ahead(s'.pending, c, j);
      assert Ahead(s'.pending, c, j) <= Ahead(s.pending, c, j) - {c[i]};
      Smaller(Ahead(s'.pending, c, j), Ahead(s.pending, c, j) - {c[i]});
    }
  }

  lemma {:induction false} Smaller(a: set<uint8>, b: set<uint8>)
    requires a <= b
    ensures |a| <= |b|
  {
    if a != {} {
      var x :| x in a;
      Smaller(a - {x}, b - {x});
    }
  }

  /** Some slot from position m of the resolutions on sends id. */
  predicate SentFrom(resolved: seq<Resolution>, m: nat, id: uint8) {
    exists i :: m <= i < |resolved| && resolved[i] == Chosen(id)
  }

  lemma {:induction false} Drain(
    table: seq<ScheduleEntry>, cb: Callbacks, p: Progress, k: nat, visits: seq<Visit>, slot: uint8, c: seq<uint8>,
    j: nat)
    requires |table| > 0 && !p.stopped && j < |c| && Undisturbed(table, k, visits, slot, c, j)
    requires slot in p.sporadics.groups && p.sporadics.groups[slot] == c && c[j] in p.sporadics.pending
    requires SlotVisits(table, k, |visits|, slot) > |Ahead(p.sporadics.pending, c, j)|
    ensures SentFrom(RunFrom(table, cb, p, k, visits).resolved, |p.resolved|, c[j])
    decreases |visits|
  {
    var v := visits[0];
    var before := ApplyAll(p.sporadics, v.ops);
    var at := Slot(table, k).id;
    var p' := Step(table, cb, p, k, v);
    var end := RunFrom(table, cb, p, k, visits);
    CalmOpsKeep(p.sporadics, v.ops, slot, c, j);
    Smaller(Ahead(before.pending, c, j), Ahead(p.sporadics.pending, c, j));
    RunExtends(table, cb, p', k + 1, visits[1..]);
    if Resolve(before, at) == Chosen(c[j]) {
      assert end.resolved[|p.resolved|] == Chosen(c[j]);
    } else {
      VisitDrains(before, at, slot, c, j);
      Smaller(Ahead(p'.sporadics.pending, c, j), Ahead(before.pending, c, j));
      LaterUndisturbed(table, k, visits, slot, c, j);
      Drain(table, cb, p', k + 1, visits[1..], slot, c, j);
    }
  }

  lemma LaterUndisturbed(table: seq<ScheduleEntry>, k: nat, visits: seq<Visit>, slot: uint8, c: seq<uint8>, j: nat)
    requires |table| > 0 && |visits| > 0 && j <= |c| && Undisturbed(table, k, visits, slot, c, j)
    ensures Undisturbed(table, k + 1, visits[1..], slot, c, j)
  {
    forall i | 0 <= i < |visits[1..]|
      ensures && Calm(visits[1..][i].ops, slot, c, j) && !visits[1..][i].cancelledBefore
              && !(Slot(table, k + 1 + i).delayMs > 0 && visits[1..][i].cancelledInDelay)
    {
      assert visits[1..][i] == visits[i + 1];
    }
  }

  lemma {:induction false} AheadIsShort(pending: set<uint8>, c: seq<uint8>, j: nat)
    requires j <= |c|
    ensures |Ahead(pending, c, j)| <= j
  {
    if j > 0 {
      AheadIsShort(pending, c, j - 1);
      assert Ahead(pending, c, j) <= Ahead(pending, c, j - 1) + {c[j - 1]};
      Smaller(Ahead(pending, c, j), Ahead(pending, c, j - 1) + {c[j - 1]});
    }
  }

  /** Candidate j of a slot is sent within the next j + 1 visits to that slot, whatever else the schedule does. */
  lemma DrainedWithinVisits(
    table: seq<ScheduleEntry>, cb: Callbacks, p: Progress, k: nat, visits: seq<Visit>, slot: uint8, c: seq<uint8>,
    j: nat)
    requires |table| > 0 && !p.stopped && j < |c| && Undisturbed(table, k, visits, slot, c, j)
    requires slot in p.sporadics.groups && p.sporadics.groups[slot] == c && c[j] in p.sporadics.pending
    requires SlotVisits(table, k, |visits|, slot) >= j + 1
    ensures SentFrom(RunFrom(table, cb, p, k, visits).resolved, |p.resolved|, c[j])
  {
    AheadIsShort(p.sporadics.pending, c, j);
    Drain(table, cb, p, k, visits, slot, c, j);
  }

  lemma {:induction false} SlotVisitsAdd(table: seq<ScheduleEntry>, k: nat, n: nat, m: nat, slot: uint8)
    requires |table| > 0
    ensures SlotVisits(table, k, n + m, slot) == SlotVisits(table, k, n, slot) + SlotVisits(table, k + n, m, slot)
    decreases n
  {
    if n > 0 {
      SlotVisitsAdd(table, k + 1, n - 1, m, slot);
    }
  }

  /** Every full cycle visits every slot of the schedule. */
  lemma {:induction false} EachCycleVisits(table: seq<ScheduleEntry>, k: nat, at: nat, cycles: nat)
    requires at < |table|
    ensures SlotVisits(table, k, cycles * |table|, table[at].id) >= cycles
    decreases cycles
  {
    if cycles > 0 {
      var n := |table|;
      EachCycleVisits(table, k + n, at, cycles - 1);
      assert cycles * n == n + (cycles - 1) * n;
      SlotVisitsAdd(table, k, n, (cycles - 1) * n, table[at].id);
      var d := (at + n - k % n) % n;
      NextOccurrence(k, at, n);
      SlotVisitsAdd(table, k, d, n - d, table[at].id);
      assert Slot(table, k + d).id == table[at].id;
    }
  }

  lemma NextOccurrence(k: nat, at: nat, n: nat)
    requires at < n
    ensures var d := (at + n - k % n) % n; d < n && (k + d) % n == at
  {
    var r := k % n;
    var q := k / n;
    assert k == q * n + r;
    if at >= r {
      Signals.ModuloUnique(at + n - r, n, 1, at - r);
      Signals.ModuloUnique(k + (at - r), n, q, at);
    } else {
      Signals.ModuloUnique(at + n - r, n, 0, at + n - r);
      Signals.ModuloUnique(k + (at + n - r), n, q + 1, at);
    }
  }

  /** So j + 1 cycles of the schedule always suffice. */
  lemma DrainedWithinCycles(
    table: seq<ScheduleEntry>, cb: Callbacks, p: Progress, k: nat, visits: seq<Visit>, at: nat, c: seq<uint8>, j: nat)
    requires at < |table| && !p.stopped && j < |c| && Undisturbed(table, k, visits, table[at].id, c, j)
    requires table[at].id in p.sporadics.groups && p.sporadics.groups[table[at].id] == c && c[j] in p.sporadics.pending
    requires |visits| == (j + 1) * |table|
    ensures SentFrom(RunFrom(table, cb, p, k, visits).resolved, |p.resolved|, c[j])
  {
    EachCycleVisits(table, k, at, j + 1);
    DrainedWithinVisits(table, cb, p, k, visits, table[at].id, c, j);
  }

  // ---------- Schedules from a description file ----------

  /** Every schedule table of a parsed description file is accepted by SetSchedule. */
  lemma ParsedSchedulesAreValid(lex: LdfGrammar.Lexicon, lines: seq<string>, name: string)
    requires LdfGrammar.Parse(lex, lines).Some? && name in LdfGrammar.Parse(lex, lines).value.schedules
    ensures ValidSchedule(LdfGrammar.Parse(lex, lines).value.schedules[name])
  {
    LdfGrammar.ParsedIsSound(lex, lines);
  }
}
