/** What writeCount, bytesWritten and errorCount say, at every moment of every interleaving. */
module BusAccounts {
  import opened BusModel
  import opened BusMachine
  import opened BusSafety
  import opened BusDelivery
  import opened BusConservation
  import Lin

  /** A call that has synthesised its frame has counted it as written, one step later its bytes too. */
  function Wrote(c: Call): nat {
    if HasFrame(c) then 1 else 0
  }

  function WroteBytes(c: Call): nat {
    if HasFrame(c) && !c.Synthesised? then |c.frame.data| else 0
  }

  function Erred(c: Call): nat {
    if c == Failed(Lin.Closed) || c == Failed(Lin.Error.NoResponse) then 1 else 0
  }

  /** A registration or subscription refused by a closed bus. */
  function RefusedBy(s: State, a: Action): nat {
    if (a.Publish? || a.Subscribe?) && s.closed then 1 else 0
  }

  function RefusedCalls(states: seq<State>, actions: seq<Action>, i: nat): nat
    requires i <= |actions| && i <= |states|
  {
    if i == 0 then 0 else RefusedCalls(states, actions, i - 1) + RefusedBy(states[i - 1], actions[i - 1])
  }

  ghost predicate Accounted(s: State, refused: nat) {
    && Agree(s.counters.written, 0, Sum(s.calls, Wrote))
    && Agree(s.counters.bytesWritten, 0, Sum(s.calls, WroteBytes))
    && Agree(s.counters.errors, 0, Sum(s.calls, Erred) + refused)
  }

  lemma AgreeMore(counter: nat, n: nat, total: nat)
    requires Agree(counter, 0, total)
    ensures Agree(Bump(counter, n), 0, total + n)
  {
    Owe(counter, n, 0, total);
    Pay(counter, n, n, 0, total + n);
  }

  predicate Counted(before: nat, after: nat, n: nat) {
    after == Bump(before, n) || (n == 0 && after == before)
  }

  /** What one step of call k adds. */
  predicate Adds(s: State, s': State, k: nat, frames: nat, bytes: nat, errors: nat) {
    && k < |s.calls| && |s'.calls| == |s.calls| && s'.calls == s.calls[k := s'.calls[k]]
    && Wrote(s'.calls[k]) == Wrote(s.calls[k]) + frames
    && WroteBytes(s'.calls[k]) == WroteBytes(s.calls[k]) + bytes
    && Erred(s'.calls[k]) == Erred(s.calls[k]) + errors
    && Counted(s.counters.written, s'.counters.written, frames)
    && Counted(s.counters.bytesWritten, s'.counters.bytesWritten, bytes)
    && Counted(s.counters.errors, s'.counters.errors, errors)
  }

  lemma AddsAreAccounted(s: State, s': State, k: nat, frames: nat, bytes: nat, errors: nat, refused: nat)
    requires Accounted(s, refused) && Adds(s, s', k, frames, bytes, errors)
    ensures Accounted(s', refused)
  {
    SumUpdate(s.calls, k, s'.calls[k], Wrote);
    SumUpdate(s.calls, k, s'.calls[k], WroteBytes);
    SumUpdate(s.calls, k, s'.calls[k], Erred);
    AgreeMore(s.counters.written, frames, Sum(s.calls, Wrote));
    AgreeMore(s.counters.bytesWritten, bytes, Sum(s.calls, WroteBytes));
    AgreeMore(s.counters.errors, errors, Sum(s.calls, Erred) + refused);
  }

  /** The lookup may fail, then one addition counts the frame and the next its bytes; no other step counts any of it. */
  lemma LookingAdds(s: State, k: nat)
    requires InRange(s) && k < |s.calls| && s.calls[k].Looking?
    ensures var s' := StepCall(s, k);
            k < |s'.calls| && Adds(s, s', k, 0, 0, if s'.calls[k].Failed? then 1 else 0)
  {
  }

  lemma SynthesisAdds(s: State, k: nat)
    requires InRange(s) && k < |s.calls| && s.calls[k].LookedUp?
    ensures Adds(s, StepCall(s, k), k, 1, 0, 0)
  {
  }

  lemma AnnouncementAdds(s: State, k: nat)
    requires InRange(s) && k < |s.calls| && s.calls[k].Synthesised?
    ensures Adds(s, StepCall(s, k), k, 0, |s.calls[k].frame.data|, 0)
  {
  }

  predicate SameAccount(c: Call, c': Call) {
    Wrote(c') == Wrote(c) && WroteBytes(c') == WroteBytes(c) && Erred(c') == Erred(c)
  }

  predicate SameReadings(n: Counters, n': Counters) {
    n'.written == n.written && n'.bytesWritten == n.bytesWritten && n'.errors == n.errors
  }

  /** A step of call k that none of the three counters is about. */
  predicate Quiet(s: State, s': State, k: nat) {
    && k < |s.calls| && |s'.calls| == |s.calls| && s'.calls == s.calls[k := s'.calls[k]]
    && SameAccount(s.calls[k], s'.calls[k]) && SameReadings(s.counters, s'.counters)
  }

  lemma QuietIsAccounted(s: State, s': State, k: nat, refused: nat)
    requires Accounted(s, refused) && Quiet(s, s', k)
    ensures Accounted(s', refused)
  {
    SumUpdate(s.calls, k, s'.calls[k], Wrote);
    SumUpdate(s.calls, k, s'.calls[k], WroteBytes);
    SumUpdate(s.calls, k, s'.calls[k], Erred);
  }

  lemma OfferIsQuiet(s: State, k: nat)
    requires SafetyInv(s) && k < |s.calls| && s.calls[k].Offering? && s.calls[k].next < |s.subs|
    ensures Quiet(s, Offer(s, k, s.calls[k].frame, s.calls[k].next), k)
  {
  }

  lemma CloseIsQuiet(s: State, k: nat)
    requires SafetyInv(s) && Enabled(s, Step(k)) && (s.calls[k].AboutToClose? || s.calls[k].Closing?)
    ensures Quiet(s, StepCall(s, k), k)
  {
  }

  lemma OtherStepIsQuiet(s: State, k: nat)
    requires SafetyInv(s) && Enabled(s, Step(k)) && IsPlain(s, k)
    requires var c := s.calls[k]; !c.Looking? && !c.LookedUp? && !c.Synthesised?
    ensures Quiet(s, StepCall(s, k), k)
  {
  }

  lemma StepIsAccounted(s: State, k: nat, refused: nat)
    requires SafetyInv(s) && Enabled(s, Step(k)) && Accounted(s, refused)
    ensures Accounted(StepCall(s, k), refused)
  {
    var c, s' := s.calls[k], StepCall(s, k);
    if c.Looking? {
      LookingAdds(s, k);
      AddsAreAccounted(s, s', k, 0, 0, if s'.calls[k].Failed? then 1 else 0, refused);
    } else if c.LookedUp? {
      SynthesisAdds(s, k);
      AddsAreAccounted(s, s', k, 1, 0, 0, refused);
    } else if c.Synthesised? {
      AnnouncementAdds(s, k);
      AddsAreAccounted(s, s', k, 0, |c.frame.data|, 0, refused);
    } else {
      if c.Offering? && c.next < |s.subs| {
        OfferIsQuiet(s, k);
      } else if c.AboutToClose? || c.Closing? {
        CloseIsQuiet(s, k);
      } else {
        OtherStepIsQuiet(s, k);
      }
      QuietIsAccounted(s, s', k, refused);
    }
  }

  lemma NewCallIsAccounted(s: State, s': State, c: Call, refused: nat)
    requires Accounted(s, refused) && s'.calls == s.calls + [c] && s'.counters == s.counters
    requires !HasFrame(c) && Erred(c) == 0
    ensures Accounted(s', refused)
  {
    SumSnoc(s.calls, c, Wrote);
    SumSnoc(s.calls, c, WroteBytes);
    SumSnoc(s.calls, c, Erred);
  }

  lemma RefusalIsAccounted(s: State, s': State, refused: nat)
    requires Accounted(s, refused) && s'.calls == s.calls
    requires s'.counters == s.counters.(errors := Bump(s.counters.errors, 1))
    ensures Accounted(s', refused + 1)
  {
    AgreeMore(s.counters.errors, 1, Sum(s.calls, Erred) + refused);
  }

  lemma SameIsAccounted(s: State, s': State, refused: nat)
    requires Accounted(s, refused) && s'.calls == s.calls && s'.counters == s.counters
    ensures Accounted(s', refused)
  {
  }

  lemma NextIsAccounted(s: State, a: Action, refused: nat)
    requires SafetyInv(s) && Enabled(s, a) && Accounted(s, refused)
    ensures Accounted(Next(s, a), refused + RefusedBy(s, a))
  {
    var s' := Next(s, a);
    if a.Step? {
      StepIsAccounted(s, a.call, refused);
    } else if a.TimeOut? {
      QuietIsAccounted(s, s', a.call, refused);
    } else if a.StartSend? || a.StartClose? || a.StartDrain? {
      StartsAdd(s, a);
      NewCallIsAccounted(s, s', s'.calls[|s.calls|], refused);
    } else if RefusedBy(s, a) == 1 {
      RefusalIsAccounted(s, s', refused);
    } else {
      SameIsAccounted(s, s', refused);
    }
  }

  lemma StartsAdd(s: State, a: Action)
    requires InRange(s) && (a.StartSend? || a.StartClose? || a.StartDrain?)
    ensures var s' := Next(s, a);
            && |s'.calls| == |s.calls| + 1 && s'.calls == s.calls + [s'.calls[|s.calls|]] && s'.counters == s.counters
            && !HasFrame(s'.calls[|s.calls|]) && Erred(s'.calls[|s.calls|]) == 0
  {
  }

  /** One step keeps the account. */
  ghost predicate AccountStep(s: State, a: Action, s': State) {
    forall refused: nat :: Accounted(s, refused) ==> Accounted(s', refused + RefusedBy(s, a))
  }

  lemma RunStepIsAccounted(states: seq<State>, actions: seq<Action>, n: nat)
    requires IsRun(states, actions) && n < |actions|
    ensures AccountStep(states[n], actions[n], states[n + 1])
  {
    RunKeepsInv(states, actions, n);
    forall refused: nat | Accounted(states[n], refused)
      ensures Accounted(states[n + 1], refused + RefusedBy(states[n], actions[n]))
    {
      NextIsAccounted(states[n], actions[n], refused);
    }
  }

  lemma NothingYet()
    ensures Accounted(INITIAL, 0)
  {
    assert Laps(0, 0, 0, 0);
  }

  lemma {:induction false} StepsAreAccounted(states: seq<State>, actions: seq<Action>, i: nat)
    requires |states| == |actions| + 1 && i < |states| && Accounted(states[0], 0)
    requires forall n :: 0 <= n < |actions| ==> AccountStep(states[n], actions[n], states[n + 1])
    ensures Accounted(states[i], RefusedCalls(states, actions, i))
  {
    if i > 0 {
      StepsAreAccounted(states, actions, i - 1);
      assert AccountStep(states[i - 1], actions[i - 1], states[i]);
    }
  }

  lemma RunIsAccounted(states: seq<State>, actions: seq<Action>, i: nat)
    requires IsRun(states, actions) && i < |states|
    ensures Accounted(states[i], RefusedCalls(states, actions, i))
  {
    forall n | 0 <= n < |actions| ensures AccountStep(states[n], actions[n], states[n + 1]) {
      RunStepIsAccounted(states, actions, n);
    }
    NothingYet();
    StepsAreAccounted(states, actions, i);
  }

  /**
   * 64-bit wrap-around included, writeCount is the number of calls that have synthesised their frame, bytesWritten the
   * sum of their lengths one addition later, and errorCount the number of headers without an answer or on a closed bus,
   * plus the registrations and subscriptions a closed bus refused.
   */
  predicate Shows(s: State, refused: nat) {
    && s.counters.written == Sum(s.calls, Wrote) % WRAP
    && s.counters.bytesWritten == Sum(s.calls, WroteBytes) % WRAP
    && s.counters.errors == (Sum(s.calls, Erred) + refused) % WRAP
  }

  lemma AccountedShows(s: State, refused: nat)
    requires Accounted(s, refused)
    ensures Shows(s, refused)
  {
    Paid(s.counters.written, Sum(s.calls, Wrote));
    Paid(s.counters.bytesWritten, Sum(s.calls, WroteBytes));
    Paid(s.counters.errors, Sum(s.calls, Erred) + refused);
  }

  /** At every moment of every interleaving. */
  lemma WritesAndErrors(states: seq<State>, actions: seq<Action>, i: nat)
    requires IsRun(states, actions) && i < |states|
    ensures Shows(states[i], RefusedCalls(states, actions, i))
  {
    RunIsAccounted(states, actions, i);
    AccountedShows(states[i], RefusedCalls(states, actions, i));
  }
}
