/** Over every interleaving: which publication a frame stems from, and the order in the queues. */
module BusHistory {
  import opened Options
  import opened Lin
  import opened BusModel
  import opened BusMachine
  import opened BusSafety
  import opened BusDelivery

  // ---------- Publications ----------

  /** This step registers a response for the identifier, or removes it. */
  predicate Publishes(s: State, a: Action, id: uint8) {
    a.Publish? && a.id == id && !s.closed
  }

  lemma PublicationSets(s: State, a: Action, id: uint8)
    requires SafetyInv(s) && Enabled(s, a) && Publishes(s, a, id)
    ensures TableSays(Next(s, a).responses, id, a.data, a.checksumType)
  {
  }

  predicate SameEntry(r: map<uint8, Response>, r': map<uint8, Response>, id: uint8) {
    (id in r' <==> id in r) && (id in r ==> r'[id] == r[id])
  }

  lemma OthersKeepTable(s: State, a: Action, id: uint8)
    requires SafetyInv(s) && Enabled(s, a) && !Publishes(s, a, id)
    ensures SameEntry(s.responses, Next(s, a).responses, id)
  {
    if !a.Publish? {
      TableOnlyChangesByPublish(s, a);
    }
  }

  /** What one step means for the entry of an identifier. */
  predicate EntryStep(s: State, a: Action, s': State, id: uint8) {
    if Publishes(s, a, id) then TableSays(s'.responses, id, a.data, a.checksumType)
    else SameEntry(s.responses, s'.responses, id)
  }

  ghost predicate EntrySteps(states: seq<State>, actions: seq<Action>, id: uint8)
    requires |states| == |actions| + 1
  {
    forall n :: 0 <= n < |actions| ==> EntryStep(states[n], actions[n], states[n + 1], id)
  }

  lemma RunEntrySteps(states: seq<State>, actions: seq<Action>, id: uint8)
    requires IsRun(states, actions)
    ensures EntrySteps(states, actions, id)
  {
    forall n | 0 <= n < |actions| ensures EntryStep(states[n], actions[n], states[n + 1], id) {
      RunKeepsInv(states, actions, n);
      OneEntryStep(states[n], actions[n], states[n + 1], id);
    }
  }

  lemma OneEntryStep(s: State, a: Action, s': State, id: uint8)
    requires SafetyInv(s) && Enabled(s, a) && s' == Next(s, a)
    ensures EntryStep(s, a, s', id)
  {
    if Publishes(s, a, id) {
      PublicationSets(s, a, id);
    } else {
      OthersKeepTable(s, a, id);
    }
  }

  lemma {:induction false} EntryLasts(states: seq<State>, actions: seq<Action>, i: nat, p: nat, id: uint8)
    requires |states| == |actions| + 1 && EntrySteps(states, actions, id)
    requires p < i < |states| && Publishes(states[p], actions[p], id)
    requires forall n :: p < n < i ==> !Publishes(states[n], actions[n], id)
    ensures TableSays(states[i].responses, id, actions[p].data, actions[p].checksumType)
  {
    assert EntryStep(states[i - 1], actions[i - 1], states[i], id);
    if p < i - 1 {
      EntryLasts(states, actions, i - 1, p, id);
    }
  }

  /** From a publication to the next one for the same identifier the table says what was published. */
  lemma LastPublicationHolds(states: seq<State>, actions: seq<Action>, i: nat, p: nat, id: uint8)
    requires IsRun(states, actions) && p < i < |states| && Publishes(states[p], actions[p], id)
    requires forall n :: p < n < i ==> !Publishes(states[n], actions[n], id)
    ensures TableSays(states[i].responses, id, actions[p].data, actions[p].checksumType)
  {
    RunEntrySteps(states, actions, id);
    EntryLasts(states, actions, i, p, id);
  }

  lemma {:induction false} SomeStepPublished(states: seq<State>, actions: seq<Action>, i: nat, id: uint8)
    returns (p: nat)
    requires |states| == |actions| + 1 && EntrySteps(states, actions, id)
    requires i < |states| && id !in states[0].responses && id in states[i].responses
    ensures p < i && Publishes(states[p], actions[p], id)
    ensures forall n :: p < n < i ==> !Publishes(states[n], actions[n], id)
  {
    p := i - 1;
    assert EntryStep(states[p], actions[p], states[i], id);
    if !Publishes(states[p], actions[p], id) {
      p := SomeStepPublished(states, actions, i - 1, id);
    }
  }

  /** Whatever is in the table was published. */
  lemma PublicationOf(states: seq<State>, actions: seq<Action>, i: nat, id: uint8) returns (p: nat)
    requires IsRun(states, actions) && i < |states| && id in states[i].responses
    ensures p < i && Publishes(states[p], actions[p], id)
    ensures forall n :: p < n < i ==> !Publishes(states[n], actions[n], id)
  {
    RunEntrySteps(states, actions, id);
    p := SomeStepPublished(states, actions, i, id);
  }

  // ---------- Where frames come from ----------

  /** Call k was started for this identifier. */
  predicate StartedFor(states: seq<State>, actions: seq<Action>, m: nat, k: nat, id: uint8) {
    m < |actions| && m < |states| && actions[m] == StartSend(id) && |states[m].calls| == k
  }

  /** A call that looks up was looking up before or has just been started. */
  predicate LookingStep(s: State, a: Action, s': State, k: nat) {
    k < |s'.calls| && s'.calls[k].Looking? ==>
      var id := s'.calls[k].id;
      if k < |s.calls| then s.calls[k] == Looking(id) else k == |s.calls| && a == StartSend(id) && id <= 0x3F
  }

  lemma StepLooks(s: State, k: nat, n: nat)
    requires SafetyInv(s) && Enabled(s, Step(n))
    ensures LookingStep(s, Step(n), StepCall(s, n), k)
  {
    if IsPlain(s, n) {
      PlainStepMoves(s, n);
    }
  }

  lemma OneLookingStep(s: State, a: Action, k: nat)
    requires SafetyInv(s) && Enabled(s, a)
    ensures LookingStep(s, a, Next(s, a), k)
  {
    if a.Step? {
      StepLooks(s, k, a.call);
    }
  }

  lemma RunLookingSteps(states: seq<State>, actions: seq<Action>, n: nat, k: nat)
    requires IsRun(states, actions) && n < |actions|
    ensures LookingStep(states[n], actions[n], states[n + 1], k)
  {
    RunKeepsInv(states, actions, n);
    OneLookingStep(states[n], actions[n], k);
  }

  lemma {:induction false} SomeStepStarted(states: seq<State>, actions: seq<Action>, i: nat, k: nat) returns (m: nat)
    requires |states| == |actions| + 1 && i < |states| && states[0].calls == []
    requires forall n :: 0 <= n < |actions| ==> LookingStep(states[n], actions[n], states[n + 1], k)
    requires k < |states[i].calls| && states[i].calls[k].Looking?
    ensures m < i && StartedFor(states, actions, m, k, states[i].calls[k].id)
  {
    m := i - 1;
    assert LookingStep(states[m], actions[m], states[m + 1], k);
    if k < |states[m].calls| {
      m := SomeStepStarted(states, actions, i - 1, k);
    }
  }

  lemma LookingWasStarted(states: seq<State>, actions: seq<Action>, i: nat, k: nat) returns (m: nat)
    requires IsRun(states, actions) && i < |states| && k < |states[i].calls| && states[i].calls[k].Looking?
    ensures m < i && StartedFor(states, actions, m, k, states[i].calls[k].id)
  {
    forall n | 0 <= n < |actions| ensures LookingStep(states[n], actions[n], states[n + 1], k) {
      RunLookingSteps(states, actions, n, k);
    }
    m := SomeStepStarted(states, actions, i, k);
  }

  /**
   * The frame of a call is the last publication for the identifier it was started with, before the moment j at which
   * the call looked it up; a later publication makes no difference to it any more.
   */
  lemma FrameIsLastPublication(states: seq<State>, actions: seq<Action>, i: nat, k: nat)
    returns (m: nat, p: nat, j: nat)
    requires IsRun(states, actions) && i < |states| && k < |states[i].calls| && HasFrame(states[i].calls[k])
    ensures var f := states[i].calls[k].frame;
            && m < j < i && p < j && actions[j] == Step(k) && !states[j].closed
            && StartedFor(states, actions, m, k, f.id)
            && Publishes(states[p], actions[p], f.id) && actions[p].data.Some?
            && (forall n :: p < n < j ==> !Publishes(states[n], actions[n], f.id))
            && Carries(f, f.id, actions[p].data.value, actions[p].checksumType)
  {
    var f := states[i].calls[k].frame;
    j := FrameProvenance(states, actions, i, k);
    m := LookingWasStarted(states, actions, j, k);
    p := PublicationOf(states, actions, j, f.id);
    LastPublicationHolds(states, actions, j, p, f.id);
    YieldedFrameCarries(states[j].responses, f.id, actions[p].data, actions[p].checksumType, f);
  }

  // ---------- Where errors come from ----------

  /** In this step call k fails: for its identifier at once, or in its lookup for the closed bus or the empty entry. */
  predicate FailsAt(s: State, a: Action, k: nat, e: Error) {
    || (k == |s.calls| && a.StartSend? && a.id > 0x3F && e == IdOutOfRange)
    || (k < |s.calls| && a == Step(k) && s.calls[k].Looking? && s.closed && e == Closed)
    || (k < |s.calls| && a == Step(k) && s.calls[k].Looking? && !s.closed
        && s.calls[k].id !in s.responses && e == Error.NoResponse)
  }

  predicate FailureStep(s: State, a: Action, s': State, k: nat) {
    k < |s'.calls| && s'.calls[k].Failed? ==>
      || (k < |s.calls| && s.calls[k] == s'.calls[k])
      || FailsAt(s, a, k, s'.calls[k].error)
  }

  lemma StepFails(s: State, k: nat, n: nat)
    requires SafetyInv(s) && Enabled(s, Step(n))
    ensures FailureStep(s, Step(n), StepCall(s, n), k)
  {
    if IsPlain(s, n) {
      PlainStepMoves(s, n);
    }
  }

  lemma OneFailureStep(s: State, a: Action, k: nat)
    requires SafetyInv(s) && Enabled(s, a)
    ensures FailureStep(s, a, Next(s, a), k)
  {
    if a.Step? {
      StepFails(s, k, a.call);
    }
  }

  lemma RunFailureSteps(states: seq<State>, actions: seq<Action>, n: nat, k: nat)
    requires IsRun(states, actions) && n < |actions|
    ensures FailureStep(states[n], actions[n], states[n + 1], k)
  {
    RunKeepsInv(states, actions, n);
    OneFailureStep(states[n], actions[n], k);
  }

  lemma {:induction false} SomeStepFailed(states: seq<State>, actions: seq<Action>, i: nat, k: nat) returns (j: nat)
    requires |states| == |actions| + 1 && i < |states| && states[0].calls == []
    requires forall n :: 0 <= n < |actions| ==> FailureStep(states[n], actions[n], states[n + 1], k)
    requires k < |states[i].calls| && states[i].calls[k].Failed?
    ensures j < i && FailsAt(states[j], actions[j], k, states[i].calls[k].error)
  {
    j := i - 1;
    assert FailureStep(states[j], actions[j], states[j + 1], k);
    if !FailsAt(states[j], actions[j], k, states[i].calls[k].error) {
      j := SomeStepFailed(states, actions, j, k);
    }
  }

  /** Every failed call failed for the reason its error names, at that moment. */
  lemma FailureOrigin(states: seq<State>, actions: seq<Action>, i: nat, k: nat) returns (j: nat)
    requires IsRun(states, actions) && i < |states| && k < |states[i].calls| && states[i].calls[k].Failed?
    ensures j < i && FailsAt(states[j], actions[j], k, states[i].calls[k].error)
  {
    forall n | 0 <= n < |actions| ensures FailureStep(states[n], actions[n], states[n + 1], k) {
      RunFailureSteps(states, actions, n, k);
    }
    j := SomeStepFailed(states, actions, i, k);
  }

  // ---------- Order in the queues ----------

  /** The channel only grows at the ends of its queue and of what was received. */
  predicate Appends(s: State, s': State, c: nat)
    requires c < |s.channels|
  {
    && c < |s'.channels| && s'.channels[c].filters == s.channels[c].filters
    && s.channels[c].Entered() <= s'.channels[c].Entered()
    && s.channels[c].received <= s'.channels[c].received
  }

  lemma StepAppends(s: State, k: nat, c: nat)
    requires SafetyInv(s) && Enabled(s, Step(k)) && c < |s.channels|
    ensures Appends(s, StepCall(s, k), c)
  {
    if IsPlain(s, k) {
      PlainStepMoves(s, k);
    }
  }

  lemma NextAppends(s: State, a: Action, c: nat)
    requires SafetyInv(s) && Enabled(s, a) && c < |s.channels|
    ensures Appends(s, Next(s, a), c)
  {
    if a.Receive? {
      ReceiveSameAccounts(s.channels[a.channel]);
    } else if a.Step? {
      StepAppends(s, a.call, c);
    }
  }

  lemma RunAppends(states: seq<State>, actions: seq<Action>, n: nat, c: nat)
    requires IsRun(states, actions) && n < |actions| && c < |states[n].channels|
    ensures Appends(states[n], states[n + 1], c)
  {
    RunKeepsInv(states, actions, n);
    NextAppends(states[n], actions[n], c);
  }

  lemma {:induction false} AppendsAdd(states: seq<State>, i: nat, j: nat, c: nat)
    requires i <= j < |states| && c < |states[i].channels|
    requires forall n :: i <= n < j && c < |states[n].channels| ==> Appends(states[n], states[n + 1], c)
    ensures Appends(states[i], states[j], c)
    decreases j
  {
    if i < j {
      AppendsAdd(states, i, j - 1, c);
      assert Appends(states[j - 1], states[j], c);
    }
  }

  /** Queues are first in, first out: what entered and what was received only ever grow at their ends. */
  lemma QueuesAreFifo(states: seq<State>, actions: seq<Action>, i: nat, j: nat, c: nat)
    requires IsRun(states, actions) && i <= j < |states| && c < |states[i].channels|
    ensures Appends(states[i], states[j], c)
  {
    forall n | i <= n < j && c < |states[n].channels| ensures Appends(states[n], states[n + 1], c) {
      RunAppends(states, actions, n, c);
    }
    AppendsAdd(states, i, j, c);
  }
}
