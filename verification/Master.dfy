/** The master node: schedule, sporadic slots, the run loop and the diagnostic exchange. */
module Master {
  import opened Lin
  import opened Options
  import Diagnostic
  import Exchange
  import Signals
  import VirtualBus

  // ---------- Sporadic slots ----------

  /** Which candidates have pending updates, and which slots are sporadic. */
  datatype Sporadics = Sporadics(pending: set<uint8>, groups: map<uint8, seq<uint8>>)

  datatype Resolution = Ordinary(id: uint8) | Chosen(id: uint8) | Skipped

  /** The position of the first pending candidate. */
  function FirstPending(candidates: seq<uint8>, pending: set<uint8>): (i: Option<nat>)
    ensures i.Some? ==> i.value < |candidates| && candidates[i.value] in pending
    ensures i.Some? ==> forall j :: 0 <= j < i.value ==> candidates[j] !in pending
    ensures i.None? ==> forall j :: 0 <= j < |candidates| ==> candidates[j] !in pending
  {
    if |candidates| == 0 then
      None
    else
      match FirstPending(candidates[..|candidates| - 1], pending)
      case Some(i) => Some(i)
      case None => if candidates[|candidates| - 1] in pending then Some(|candidates| - 1) else None
  }

  function Resolve(s: Sporadics, slot: uint8): Resolution {
    if slot !in s.groups then Ordinary(slot)
    else
      match FirstPending(s.groups[slot], s.pending)
      case Some(i) => Chosen(s.groups[slot][i])
      case None => Skipped
  }

  function AfterResolve(s: Sporadics, slot: uint8): Sporadics {
    match Resolve(s, slot)
    case Chosen(id) => s.(pending := s.pending - {id})
    case _ => s
  }

  predicate ValidSchedule(entries: seq<ScheduleEntry>) {
    forall i :: 0 <= i < |entries| ==> entries[i].id <= MAX_ID
  }

  // ---------- What happens around a run ----------

  /** Calls other goroutines make while the schedule runs. */
  datatype Op = Raise(id: uint8) | Group(slot: uint8, candidates: seq<uint8>)

  predicate GroupAccepted(slot: uint8, candidates: seq<uint8>) {
    slot <= MAX_ID && forall i :: 0 <= i < |candidates| ==> candidates[i] <= MAX_ID
  }

  function Apply(s: Sporadics, op: Op): Sporadics {
    match op
    case Raise(id) => s.(pending := s.pending + {id})
    case Group(slot, candidates) =>
      if !GroupAccepted(slot, candidates) then s
      else if |candidates| == 0 then s.(groups := s.groups - {slot})
      else s.(groups := s.groups[slot := candidates])
  }

  function ApplyAll(s: Sporadics, ops: seq<Op>): Sporadics {
    if |ops| == 0 then s else Apply(ApplyAll(s, ops[..|ops| - 1]), ops[|ops| - 1])
  }

  /** One slot of the schedule as the surroundings shape it: calls before it, cancellation, the bus's answer. */
  datatype Visit = Visit(ops: seq<Op>, cancelledBefore: bool, reply: Result<Frame>, cancelledInDelay: bool)

  datatype Event = Header(id: uint8) | FrameSeen(frame: Frame) | ErrorSeen(id: uint8, error: Error)

  datatype Callbacks = Callbacks(onFrame: bool, onError: bool)

  function VisitEvents(cb: Callbacks, r: Resolution, reply: Result<Frame>): seq<Event> {
    match r
    case Skipped => []
    case _ =>
      match reply
      case Ok(f) => [Header(r.id)] + (if cb.onFrame then [FrameSeen(f)] else [])
      case Err(e) => [Header(r.id)] + (if cb.onError then [ErrorSeen(r.id, e)] else [])
  }

  /** A run in progress: the slots resolved so far and everything observed. */
  datatype Progress = Progress(sporadics: Sporadics, resolved: seq<Resolution>, events: seq<Event>, stopped: bool)

  function Slot(table: seq<ScheduleEntry>, k: nat): ScheduleEntry
    requires |table| > 0
  {
    table[k % |table|]
  }

  /** One slot: what others did before it, its resolution, and what comes of that. */
  function SlotStep(cb: Callbacks, p: Progress, slot: ScheduleEntry, v: Visit): Progress {
    if p.stopped then
      p
    else
      var before := ApplyAll(p.sporadics, v.ops);
      if v.cancelledBefore then
        p.(sporadics := before, stopped := true)
      else
        var r := Resolve(before, slot.id);
        Progress(AfterResolve(before, slot.id), p.resolved + [r], p.events + VisitEvents(cb, r, v.reply),
                 slot.delayMs > 0 && v.cancelledInDelay)
  }

  /** The k-th slot of the run. */
  function Step(table: seq<ScheduleEntry>, cb: Callbacks, p: Progress, k: nat, v: Visit): Progress
    requires |table| > 0
  {
    SlotStep(cb, p, Slot(table, k), v)
  }

  function RunFrom(table: seq<ScheduleEntry>, cb: Callbacks, p: Progress, k: nat, visits: seq<Visit>): Progress
    requires |table| > 0
    decreases |visits|
  {
    if |visits| == 0 then p else RunFrom(table, cb, Step(table, cb, p, k, visits[0]), k + 1, visits[1..])
  }

  /** The headers among the events. */
  function HeadersOf(events: seq<Event>): seq<uint8> {
    if |events| == 0 then []
    else HeadersOf(events[..|events| - 1]) + (match events[|events| - 1] case Header(id) => [id] case _ => [])
  }

  lemma {:induction false} HeadersOfAppend(a: seq<Event>, b: seq<Event>)
    ensures HeadersOf(a + b) == HeadersOf(a) + HeadersOf(b)
  {
    if |b| == 0 {
      assert a + b == a;
    } else {
      HeadersOfAppend(a, b[..|b| - 1]);
      assert (a + b)[..|a + b| - 1] == a + b[..|b| - 1];
    }
  }

  lemma HeadersOfVisit(cb: Callbacks, r: Resolution, reply: Result<Frame>)
    ensures HeadersOf(VisitEvents(cb, r, reply)) == if r.Skipped? then [] else [r.id]
  {
    var seen := VisitEvents(cb, r, reply);
    assert |seen| == 2 ==> seen[..1] == [seen[0]];
    assert |seen| >= 1 ==> [seen[0]][..0] == [];
    assert |seen| >= 1 ==> HeadersOf([seen[0]]) == [r.id];
  }

  // ---------- The same run on a virtual bus ----------

  /** One slot as the surroundings plan it, calls to node and bus included; the answer is left to the bus. */
  datatype Plan = Plan(ops: seq<Op>, busOps: seq<Exchange.Op>, cancelledBefore: bool, cancelledInDelay: bool)

  datatype OnBus = OnBus(progress: Progress, bus: Exchange.BusView)

  /** A skipped slot asks the bus nothing; the error stands for an answer nobody looks at. */
  function Answer(b: Exchange.BusView, r: Resolution): Result<Frame> {
    if r.Skipped? then Err(Error.NoResponse) else Exchange.Reply(b, r.id)
  }

  function Asked(b: Exchange.BusView, r: Resolution): Exchange.BusView {
    if r.Skipped? then b else Exchange.Sent(b, r.id)
  }

  function VisitOf(b: Exchange.BusView, s: Sporadics, slot: uint8, plan: Plan): Visit {
    var r := Resolve(ApplyAll(s, plan.ops), slot);
    Visit(plan.ops, plan.cancelledBefore, Answer(Exchange.PerformedAll(b, plan.busOps), r), plan.cancelledInDelay)
  }

  function BusAfter(b: Exchange.BusView, s: Sporadics, slot: uint8, plan: Plan): Exchange.BusView {
    var b' := Exchange.PerformedAll(b, plan.busOps);
    if plan.cancelledBefore then b' else Asked(b', Resolve(ApplyAll(s, plan.ops), slot))
  }

  function StepOnBus(cb: Callbacks, o: OnBus, slot: ScheduleEntry, plan: Plan): OnBus {
    if o.progress.stopped then
      o
    else
      var s := o.progress.sporadics;
      OnBus(SlotStep(cb, o.progress, slot, VisitOf(o.bus, s, slot.id, plan)), BusAfter(o.bus, s, slot.id, plan))
  }

  /** The first k slots of a run with the given slots, each proceeding by the given function. */
  function RunBy(step: (OnBus, ScheduleEntry, Plan) -> OnBus, slots: nat -> ScheduleEntry, start: OnBus,
                 plans: seq<Plan>, k: nat): OnBus
    requires k <= |plans|
  {
    if k == 0 then start else step(RunBy(step, slots, start, plans, k - 1), slots(k - 1), plans[k - 1])
  }

  function Stepper(cb: Callbacks): (OnBus, ScheduleEntry, Plan) -> OnBus {
    (o, slot, plan) => StepOnBus(cb, o, slot, plan)
  }

  function Slots(table: seq<ScheduleEntry>): nat -> ScheduleEntry
    requires |table| > 0
  {
    (k: nat) => Slot(table, k)
  }

  function RunOnBus(table: seq<ScheduleEntry>, cb: Callbacks, start: OnBus, plans: seq<Plan>, k: nat): OnBus
    requires |table| > 0 && k <= |plans|
  {
    RunBy(Stepper(cb), Slots(table), start, plans, k)
  }

  /** A pass over the table starts here. */
  ghost predicate CycleAt(slots: nat -> ScheduleEntry, table: seq<ScheduleEntry>, first: nat) {
    forall j :: 0 <= j < |table| ==> slots(first + j) == table[j]
  }

  ghost predicate Cyclic(slots: nat -> ScheduleEntry, table: seq<ScheduleEntry>) {
    CycleAt(slots, table, 0) && forall k: nat :: slots(k + |table|) == slots(k)
  }

  /** The function is the step of this node. */
  ghost predicate Follows(step: (OnBus, ScheduleEntry, Plan) -> OnBus, cb: Callbacks) {
    forall o: OnBus, slot: ScheduleEntry, plan: Plan {:trigger StepOnBus(cb, o, slot, plan)} ::
      step(o, slot, plan) == StepOnBus(cb, o, slot, plan)
  }

  /** How a run proceeds and where it started. */
  datatype Log = Log(step: (OnBus, ScheduleEntry, Plan) -> OnBus, slots: nat -> ScheduleEntry, start: OnBus)

  datatype Outcome = Empty | Cancelled | StillRunning

  class Node {
    const bus: VirtualBus.Bus
    var schedule: seq<ScheduleEntry>
    var callbacks: Callbacks
    var pending: set<uint8>
    var groups: map<uint8, seq<uint8>>

    constructor (bus: VirtualBus.Bus)
      ensures this.bus == bus && schedule == [] && callbacks == Callbacks(false, false)
      ensures State() == Sporadics({}, map[])
    {
      this.bus := bus;
      schedule, callbacks, pending, groups := [], Callbacks(false, false), {}, map[];
    }

    function State(): Sporadics
      reads this`pending, this`groups
    {
      Sporadics(pending, groups)
    }

    /** A schedule is installed exactly when every identifier is in range; an empty one is fine. */
    method SetSchedule(entries: seq<ScheduleEntry>) returns (ok: bool)
      modifies `schedule
      ensures ok == ValidSchedule(entries)
      ensures ok <==> forall i :: 0 <= i < |entries| ==> entries[i].id <= 0x3F
      ensures schedule == if ok then entries else old(schedule)
    {
      for i := 0 to |entries|
        invariant forall j :: 0 <= j < i ==> entries[j].id <= MAX_ID
      {
        if entries[i].id > MAX_ID {
          return false;
        }
      }
      schedule := entries;
      ok := true;
    }

    method SetPending(id: uint8)
      modifies `pending
      ensures State() == Apply(old(State()), Raise(id))
    {
      pending := pending + {id};
    }

    method SetSporadicGroup(slot: uint8, candidates: seq<uint8>) returns (ok: bool)
      modifies `groups
      ensures ok == GroupAccepted(slot, candidates)
      ensures ok <==> slot <= 0x3F && forall i :: 0 <= i < |candidates| ==> candidates[i] <= 0x3F
      ensures State() == Apply(old(State()), Group(slot, candidates))
    {
      if slot > MAX_ID {
        return false;
      }
      for i := 0 to |candidates|
        invariant forall j :: 0 <= j < i ==> candidates[j] <= MAX_ID
      {
        if candidates[i] > MAX_ID {
          return false;
        }
      }
      if |candidates| == 0 {
        groups := groups - {slot};
      } else {
        groups := groups[slot := candidates];
      }
      ok := true;
    }

    method SelectSporadic(slot: uint8) returns (r: Resolution)
      modifies `pending
      ensures r == Resolve(old(State()), slot) && State() == AfterResolve(old(State()), slot)
    {
      if slot !in groups {
        return Ordinary(slot);
      }
      var candidates := groups[slot];
      for i := 0 to |candidates|
        invariant pending == old(pending)
        invariant forall j :: 0 <= j < i ==> candidates[j] !in pending
      {
        if candidates[i] in pending {
          pending := pending - {candidates[i]};
          return Chosen(candidates[i]);
        }
      }
      return Skipped;
    }

    method Surroundings(ops: seq<Op>)
      modifies `pending, `groups
      ensures State() == ApplyAll(old(State()), ops)
    {
      for i := 0 to |ops|
        invariant State() == ApplyAll(old(State()), ops[..i])
      {
        assert ops[..i + 1][..i] == ops[..i];
        match ops[i]
        case Raise(id) => SetPending(id);
        case Group(slot, candidates) =>
          var _ := SetSporadicGroup(slot, candidates);
      }
      assert ops[..|ops|] == ops;
    }

    /** The exchange of one slot with its callbacks; a skipped slot does nothing. */
    method TransmitSlot(r: Resolution) returns (events: seq<Event>)
      requires bus.Valid()
      modifies bus, bus.subs
      ensures bus.Valid()
      ensures forall i :: 0 <= i < |bus.subs| ==> bus.subs[i] in old(bus.subs) || fresh(bus.subs[i])
      ensures events == VisitEvents(callbacks, r, Answer(old(Exchange.ViewOf(bus)), r))
      ensures Exchange.ViewOf(bus) == Asked(old(Exchange.ViewOf(bus)), r)
    {
      events := [];
      if r.Skipped? {
        return;
      }
      var reply := Exchange.Send(bus, r.id);
      events := [Header(r.id)];
      if reply.Err? {
        if callbacks.onError {
          events := events + [ErrorSeen(r.id, reply.error)];
        }
      } else {
        if callbacks.onFrame {
          events := events + [FrameSeen(reply.value)];
        }
      }
    }

    /** The run has come this far. */
    ghost function Here(resolved: seq<Resolution>, events: seq<Event>, stopped: bool): OnBus
      reads this`pending, this`groups, bus, bus.subs
    {
      OnBus(Progress(State(), resolved, events, stopped), Exchange.ViewOf(bus))
    }

    /** What happens before a slot. */
    method Prepare(plan: Plan)
      requires bus.Valid()
      modifies `pending, `groups, bus, bus.subs
      ensures bus.Valid()
      ensures forall i :: 0 <= i < |bus.subs| ==> bus.subs[i] in old(bus.subs) || fresh(bus.subs[i])
      ensures State() == ApplyAll(old(State()), plan.ops)
      ensures Exchange.ViewOf(bus) == Exchange.PerformedAll(old(Exchange.ViewOf(bus)), plan.busOps)
    {
      Surroundings(plan.ops);
      Exchange.Perform(bus, plan.busOps);
    }

    /** Resolve, transmit unless skipped, report. */
    method ServeSlot(slot: uint8) returns (r: Resolution, seen: seq<Event>)
      requires bus.Valid()
      modifies `pending, bus, bus.subs
      ensures bus.Valid()
      ensures forall i :: 0 <= i < |bus.subs| ==> bus.subs[i] in old(bus.subs) || fresh(bus.subs[i])
      ensures r == Resolve(old(State()), slot) && State() == AfterResolve(old(State()), slot)
      ensures seen == VisitEvents(callbacks, r, Answer(old(Exchange.ViewOf(bus)), r))
      ensures Exchange.ViewOf(bus) == Asked(old(Exchange.ViewOf(bus)), r)
    {
      r := SelectSporadic(slot);
      seen := TransmitSlot(r);
    }

    /** The slot body of Run. */
    method RunSlot(slot: ScheduleEntry, plan: Plan, resolved: seq<Resolution>, events: seq<Event>)
      returns (resolved': seq<Resolution>, seen: seq<Event>, stop: bool)
      requires bus.Valid()
      modifies `pending, `groups, bus, bus.subs
      ensures bus.Valid()
      ensures forall i :: 0 <= i < |bus.subs| ==> bus.subs[i] in old(bus.subs) || fresh(bus.subs[i])
      ensures Here(resolved', events + seen, stop) ==
              StepOnBus(callbacks, old(Here(resolved, events, false)), slot, plan)
    {
      Prepare(plan);
      if plan.cancelledBefore {
        return resolved, [], true;
      }
      var r;
      r, seen := ServeSlot(slot.id);
      resolved' := resolved + [r];
      stop := slot.delayMs > 0 && plan.cancelledInDelay;
    }

    /** The same in terms of the run's step function. */
    method StepSlot(slot: ScheduleEntry, plan: Plan, resolved: seq<Resolution>, events: seq<Event>,
                    ghost step: (OnBus, ScheduleEntry, Plan) -> OnBus)
      returns (resolved': seq<Resolution>, events': seq<Event>, stop: bool)
      requires bus.Valid() && Follows(step, callbacks)
      modifies `pending, `groups, bus, bus.subs
      ensures bus.Valid()
      ensures forall i :: 0 <= i < |bus.subs| ==> bus.subs[i] in old(bus.subs) || fresh(bus.subs[i])
      ensures Here(resolved', events', stop) == step(old(Here(resolved, events, false)), slot, plan)
    {
      var seen;
      resolved', seen, stop := RunSlot(slot, plan, resolved, events);
      events' := events + seen;
    }

    /** After k slots the run has come this far. */
    ghost predicate Reached(g: Log, plans: seq<Plan>, k: nat, resolved: seq<Resolution>, events: seq<Event>, stop: bool)
      requires k <= |plans|
      reads this`pending, this`groups, bus, bus.subs, bus.stored
    {
      bus.Valid() && Here(resolved, events, stop) == RunBy(g.step, g.slots, g.start, plans, k)
    }

    /** A slot of the schedule as slot k of the run. */
    method OneSlot(plans: seq<Plan>, k: nat, slot: ScheduleEntry, resolved: seq<Resolution>, events: seq<Event>,
                   ghost g: Log)
      returns (resolved': seq<Resolution>, events': seq<Event>, stop: bool)
      requires k < |plans| && slot == g.slots(k) && Follows(g.step, callbacks)
      requires Reached(g, plans, k, resolved, events, false)
      modifies `pending, `groups, bus, bus.subs
      ensures forall i :: 0 <= i < |bus.subs| ==> bus.subs[i] in old(bus.subs) || fresh(bus.subs[i])
      ensures Reached(g, plans, k + 1, resolved', events', stop)
    {
      resolved', events', stop := StepSlot(slot, plans[k], resolved, events, g.step);
    }

    /** One pass over the schedule, or what is left of the plans. */
    method OneCycle(plans: seq<Plan>, first: nat, resolved: seq<Resolution>, events: seq<Event>, ghost g: Log)
      returns (k: nat, resolved': seq<Resolution>, events': seq<Event>, stop: bool)
      requires |schedule| > 0 && first < |plans| && CycleAt(g.slots, schedule, first) && Follows(g.step, callbacks)
      requires Reached(g, plans, first, resolved, events, false)
      modifies `pending, `groups, bus, bus.subs
      ensures forall i :: 0 <= i < |bus.subs| ==> bus.subs[i] in old(bus.subs) || fresh(bus.subs[i])
      ensures first < k <= |plans| && Reached(g, plans, k, resolved', events', stop)
      ensures !stop && k < |plans| ==> k == first + |schedule|
    {
      k, resolved', events', stop := first, resolved, events, false;
      for j := 0 to |schedule|
        invariant forall i :: 0 <= i < |bus.subs| ==> bus.subs[i] in old(bus.subs) || fresh(bus.subs[i])
        invariant k == first + j <= |plans|
        invariant Reached(g, plans, k, resolved', events', false)
      {
        if k == |plans| {
          return k, resolved', events', false;
        }
        resolved', events', stop := OneSlot(plans, k, schedule[j], resolved', events', g);
        k := k + 1;
        if stop {
          return;
        }
      }
      stop := false;
    }

    /** Cycle after cycle, until cancelled or out of plans. */
    method Cycles(plans: seq<Plan>, ghost g: Log)
      returns (k: nat, resolved: seq<Resolution>, events: seq<Event>, stop: bool)
      requires |schedule| > 0 && Cyclic(g.slots, schedule) && Follows(g.step, callbacks)
      requires Reached(g, plans, 0, [], [], false)
      modifies `pending, `groups, bus, bus.subs
      ensures k <= |plans| && (!stop ==> k == |plans|)
      ensures Reached(g, plans, k, resolved, events, stop)
    {
      k, resolved, events, stop := 0, [], [], false;
      while k < |plans|
        invariant forall i :: 0 <= i < |bus.subs| ==> bus.subs[i] in old(bus.subs) || fresh(bus.subs[i])
        invariant k <= |plans| && (k < |plans| ==> CycleAt(g.slots, schedule, k))
        invariant Reached(g, plans, k, resolved, events, false)
        decreases |plans| - k
      {
        NextCycle(g.slots, schedule, k);
        k, resolved, events, stop := OneCycle(plans, k, resolved, events, g);
        if stop {
          return;
        }
      }
      stop := false;
    }

    /**
     * The cyclic schedule. The plans are what the surroundings do slot by slot; the run is followed for as long as they
     * reach, or until it is cancelled.
     */
    method Run(plans: seq<Plan>) returns (outcome: Outcome, resolved: seq<Resolution>, events: seq<Event>)
      requires bus.Valid()
      modifies `pending, `groups, bus, bus.subs
      ensures bus.Valid()
      ensures |schedule| == 0 ==>
                outcome == Empty && resolved == [] && events == [] && Here([], [], false) == old(Here([], [], false))
      ensures |schedule| > 0 ==>
                && outcome != Empty
                && Here(resolved, events, outcome == Cancelled) ==
                   RunOnBus(schedule, callbacks, old(Here([], [], false)), plans, |plans|)
    {
      if |schedule| == 0 {
        return Empty, [], [];
      }
      ghost var g := Log(Stepper(callbacks), Slots(schedule), Here([], [], false));
      SlotsAreCyclic(schedule);
      var k, stop;
      k, resolved, events, stop := Cycles(plans, g);
      if stop {
        StoppedOnBus(schedule, callbacks, g.start, plans, k, |plans|);
      }
      outcome := if stop then Cancelled else StillRunning;
    }

    /** One diagnostic exchange: what other nodes do before each of the two headers is given by first and second. */
    method Diagnostics(req: Diagnostic.Request, first: seq<Exchange.Op>, second: seq<Exchange.Op>)
      returns (r: Result<Diagnostic.SlaveResponse>)
      requires bus.Valid()
      modifies bus, bus.subs
      ensures bus.Valid()
      ensures var d := Exchange.Exchanged(old(Exchange.ViewOf(bus)), req, first, second);
              r == d.result && Exchange.ViewOf(bus) == d.bus
    {
      var payload := Diagnostic.PackDiag(req.nad, req.sid, req.data);
      if payload == null {
        return Err(InvalidFrame);
      }
      assert payload[..] == Diagnostic.RequestFrame(req).value.data;
      r := Exchange.Converse(bus, payload, first, second);
    }
  }

  lemma SlotsAreCyclic(table: seq<ScheduleEntry>)
    requires |table| > 0
    ensures Cyclic(Slots(table), table)
  {
    var n := |table|;
    forall k: nat ensures Slots(table)(k + n) == Slots(table)(k) {
      Signals.ModuloUnique(k + n, n, k / n + 1, k % n);
    }
    forall j | 0 <= j < n ensures Slots(table)(0 + j) == table[j] {
      Signals.ModuloUnique(j, n, 0, j);
    }
  }

  lemma NextCycle(slots: nat -> ScheduleEntry, table: seq<ScheduleEntry>, first: nat)
    requires Cyclic(slots, table) && CycleAt(slots, table, first)
    ensures CycleAt(slots, table, first + |table|)
  {
    forall j | 0 <= j < |table| ensures slots(first + |table| + j) == table[j] {
      assert slots((first + j) + |table|) == slots(first + j);
    }
  }

  lemma {:induction false} StoppedOnBus(
    table: seq<ScheduleEntry>, cb: Callbacks, start: OnBus, plans: seq<Plan>, k: nat, n: nat)
    requires |table| > 0 && k <= n <= |plans| && RunOnBus(table, cb, start, plans, k).progress.stopped
    ensures RunOnBus(table, cb, start, plans, n) == RunOnBus(table, cb, start, plans, k)
  {
    if k < n {
      StoppedOnBus(table, cb, start, plans, k, n - 1);
    }
  }
}
