/** Left alone, the steps of a SendHeader call of the state machine add up to one SendHeader of the bus object. */
module BusRefinement {
  import opened Options
  import opened Lin
  import opened BusModel
  import opened BusMachine
  import VirtualBus

  function Frames(items: seq<Item>): seq<Frame> {
    seq(|items|, i requires 0 <= i < |items| => items[i].frame)
  }

  function View(ch: Channel): VirtualBus.Subscriber {
    VirtualBus.Subscriber(ch.filters, Frames(ch.queue))
  }

  function Views(s: State): seq<VirtualBus.Subscriber>
    requires InRange(s)
  {
    seq(|s.subs|, i requires 0 <= i < |s.subs| => View(s.channels[s.subs[i]]))
  }

  /** An open bus nobody else holds: subscriptions are distinct and their channels open. */
  predicate Ready(s: State, k: nat) {
    && InRange(s) && k < |s.calls| && s.writer.None?
    && (forall i, j :: 0 <= i < j < |s.subs| ==> s.subs[i] != s.subs[j])
    && (forall i :: 0 <= i < |s.subs| ==> !s.channels[s.subs[i]].closed)
  }

  /** From a to b in m steps. */
  ghost predicate Reaches<T(!new)>(step: (T, T) -> bool, a: T, b: T, m: nat) {
    if m == 0 then a == b else exists x :: step(a, x) && Reaches(step, x, b, m - 1)
  }

  lemma {:induction false} ReachesOn<T(!new)>(step: (T, T) -> bool, a: T, b: T, c: T, m: nat, n: nat)
    requires Reaches(step, a, b, m) && Reaches(step, b, c, n)
    ensures Reaches(step, a, c, m + n)
  {
    if m > 0 {
      var x :| step(a, x) && Reaches(step, x, b, m - 1);
      ReachesOn(step, x, b, c, m - 1, n);
    }
  }

  /** A step of call k. */
  predicate Moves(s: State, k: nat, s': State) {
    InRange(s) && Enabled(s, Step(k)) && s' == Next(s, Step(k))
  }

  /** Every step of call k is a step of the relation. */
  ghost predicate Covers(step: (State, State) -> bool, k: nat) {
    forall s, s' :: Moves(s, k, s') ==> step(s, s')
  }

  lemma Moved(step: (State, State) -> bool, k: nat, s: State, s': State)
    requires Covers(step, k) && Moves(s, k, s')
    ensures Reaches(step, s, s', 1)
  {
    assert step(s, s') && Reaches(step, s', s', 0);
  }

  /** What the calls of one SendHeader leave untouched. */
  predicate SameBus(s: State, s': State) {
    s'.subs == s.subs && s'.responses == s.responses && s'.closed == s.closed && s'.panicked == s.panicked
  }

  /** The first n subscribers have been offered f, the rest are as they were. */
  predicate Offered(s: State, k: nat, v: seq<VirtualBus.Subscriber>, c: Counters, f: Frame, n: nat) {
    && Ready(s, k) && s.calls[k] == Offering(f, n) && n <= |s.subs| == |v|
    && s.counters == VirtualBus.AfterOffers(c, v[..n], f)
    && forall i :: 0 <= i < |v| ==> View(s.channels[s.subs[i]]) == if i < n then VirtualBus.Offered(v[i], f) else v[i]
  }

  lemma QueueGrows(ch: Channel, item: Item)
    ensures View(ch.(queue := ch.queue + [item])) == View(ch).(queue := View(ch).queue + [item.frame])
  {
  }

  lemma TurnSkips(step: (State, State) -> bool, s: State, k: nat, f: Frame, n: nat) returns (s': State)
    requires Covers(step, k) && Ready(s, k) && s.calls[k] == Offering(f, n) && n < |s.subs|
    requires !MatchesAny(s.channels[s.subs[n]].filters, f)
    ensures Reaches(step, s, s', 1) && s' == SetCall(s, k, Offering(f, n + 1))
  {
    s' := SetCall(s, k, Offering(f, n + 1));
    Moved(step, k, s, s');
  }

  lemma TurnRefuses(step: (State, State) -> bool, s: State, k: nat, f: Frame, n: nat) returns (s': State)
    requires Covers(step, k) && Ready(s, k) && s.calls[k] == Offering(f, n) && n < |s.subs|
    requires MatchesAny(s.channels[s.subs[n]].filters, f) && |s.channels[s.subs[n]].queue| >= QUEUE_SIZE
    ensures Reaches(step, s, s', 2)
    ensures var c := s.subs[n];
            var ch := s.channels[c];
            s' == s.(calls := s.calls[k := Offering(f, n + 1)],
                     channels := s.channels[c := ch.(refused := ch.refused + [Item(k, f)])],
                     counters := s.counters.(dropped := Bump(s.counters.dropped, 1)))
  {
    var s1 := Next(s, Step(k));
    Moved(step, k, s, s1);
    s' := Next(s1, Step(k));
    Moved(step, k, s1, s');
    ReachesOn(step, s, s1, s', 1, 1);
    assert s'.calls == s.calls[k := Offering(f, n + 1)];
  }

  lemma TurnSends(step: (State, State) -> bool, s: State, k: nat, f: Frame, n: nat) returns (s': State)
    requires Covers(step, k) && Ready(s, k) && s.calls[k] == Offering(f, n) && n < |s.subs|
    requires MatchesAny(s.channels[s.subs[n]].filters, f) && |s.channels[s.subs[n]].queue| < QUEUE_SIZE
    ensures Reaches(step, s, s', 1)
    ensures var c := s.subs[n];
            var ch := s.channels[c];
            s' == s.(calls := s.calls[k := Sent(f, n)],
                     channels := s.channels[c := ch.(queue := ch.queue + [Item(k, f)])])
  {
    s' := Next(s, Step(k));
    Moved(step, k, s, s');
  }

  lemma TurnCounts(step: (State, State) -> bool, s: State, k: nat, f: Frame, n: nat) returns (s': State)
    requires Covers(step, k) && InRange(s) && k < |s.calls| && s.calls[k] == Sent(f, n)
    ensures Reaches(step, s, s', 2)
    ensures var c := s.counters;
            s' == s.(calls := s.calls[k := Offering(f, n + 1)],
                     counters := c.(delivered := Bump(c.delivered, 1),
                                    bytesDelivered := Bump(c.bytesDelivered, |f.data|)))
  {
    var s1 := Next(s, Step(k));
    Moved(step, k, s, s1);
    s' := Next(s1, Step(k));
    Moved(step, k, s1, s');
    ReachesOn(step, s, s1, s', 1, 1);
    assert s'.calls == s.calls[k := Offering(f, n + 1)];
  }

  /** Replacing the channel of the n-th subscriber by one that has been offered the frame moves the loop on. */
  lemma Advances(
    s: State, s': State, k: nat, v: seq<VirtualBus.Subscriber>, c: Counters, f: Frame, n: nat, ch: Channel)
    requires Offered(s, k, v, c, f, n) && n < |s.subs|
    requires s'.calls == s.calls[k := Offering(f, n + 1)] && s'.channels == s.channels[s.subs[n] := ch]
    requires s'.subs == s.subs && s'.writer == s.writer && s'.lookups == s.lookups
    requires View(ch) == VirtualBus.Offered(v[n], f) && !ch.closed
    requires s'.counters == VirtualBus.AfterOffer(s.counters, v[n], f)
    ensures Offered(s', k, v, c, f, n + 1)
  {
    assert v[..n + 1][..n] == v[..n];
  }

  /** One turn of the loop takes one step for a mismatch, two for a full queue, three for a delivery. */
  lemma Turn(
    step: (State, State) -> bool, s: State, k: nat, v: seq<VirtualBus.Subscriber>, c: Counters, f: Frame, n: nat)
    returns (s': State, m: nat)
    requires Covers(step, k) && Offered(s, k, v, c, f, n) && n < |s.subs|
    ensures Reaches(step, s, s', m) && Offered(s', k, v, c, f, n + 1) && SameBus(s, s')
  {
    var ch := s.channels[s.subs[n]];
    assert View(ch) == v[n];
    if !MatchesAny(ch.filters, f) {
      s' := TurnSkips(step, s, k, f, n);
      m := 1;
    } else if |ch.queue| < QUEUE_SIZE {
      QueueGrows(ch, Item(k, f));
      var s1 := TurnSends(step, s, k, f, n);
      s' := TurnCounts(step, s1, k, f, n);
      ReachesOn(step, s, s1, s', 1, 2);
      m := 3;
    } else {
      s' := TurnRefuses(step, s, k, f, n);
      m := 2;
    }
    Advances(s, s', k, v, c, f, n, s'.channels[s.subs[n]]);
  }

  lemma {:induction false} LoopAlone(
    step: (State, State) -> bool, s: State, k: nat, v: seq<VirtualBus.Subscriber>, c: Counters, f: Frame, n: nat)
    returns (s': State, m: nat)
    requires Covers(step, k) && Offered(s, k, v, c, f, n)
    ensures Reaches(step, s, s', m) && Offered(s', k, v, c, f, |v|) && SameBus(s, s')
    decreases |v| - n
  {
    if n == |v| {
      s', m := s, 0;
    } else {
      var s1, a := Turn(step, s, k, v, c, f, n);
      var b;
      s', b := LoopAlone(step, s1, k, v, c, f, n + 1);
      ReachesOn(step, s, s1, s', a, b);
      m := a + b;
    }
  }

  lemma LookUpAlone(step: (State, State) -> bool, s: State, k: nat, id: uint8) returns (s': State)
    requires Covers(step, k) && Ready(s, k) && s.calls[k] == Looking(id) && !s.closed && id in s.responses
    ensures Reaches(step, s, s', 4)
    ensures var f := ResponseFrame(id, s.responses[id]);
            var n := s.counters;
            s' == s.(calls := s.calls[k := Offering(f, 0)], lookups := s.lookups[k := Some(Lookup(id, s.responses))],
                     counters := n.(written := Bump(n.written, 1), bytesWritten := Bump(n.bytesWritten, |f.data|)))
  {
    var s1 := Next(s, Step(k));
    Moved(step, k, s, s1);
    var s2 := Next(s1, Step(k));
    Moved(step, k, s1, s2);
    ReachesOn(step, s, s1, s2, 1, 1);
    var s3 := Next(s2, Step(k));
    Moved(step, k, s2, s3);
    ReachesOn(step, s, s2, s3, 2, 1);
    s' := Next(s3, Step(k));
    Moved(step, k, s3, s');
    ReachesOn(step, s, s3, s', 3, 1);
    assert s'.calls == s.calls[k := Offering(ResponseFrame(id, s.responses[id]), 0)];
  }

  lemma BroadcastEnds(step: (State, State) -> bool, s: State, k: nat, f: Frame) returns (s': State)
    requires Covers(step, k) && InRange(s) && k < |s.calls| && s.calls[k] == Offering(f, |s.subs|)
    ensures Reaches(step, s, s', 1) && s' == SetCall(s, k, Done(f, |s.subs|))
  {
    s' := SetCall(s, k, Done(f, |s.subs|));
    Moved(step, k, s, s');
  }

  /** The broadcast loop from its first turn to the return. */
  lemma BroadcastAlone(step: (State, State) -> bool, s: State, k: nat, f: Frame) returns (s': State, m: nat)
    requires Covers(step, k) && Ready(s, k) && s.calls[k] == Offering(f, 0)
    ensures Reaches(step, s, s', m) && SameBus(s, s') && Ready(s', k)
    ensures s'.calls[k] == Done(f, |s.subs|) && Views(s') == VirtualBus.OfferedAll(Views(s), f)
    ensures s'.counters == VirtualBus.AfterOffers(s.counters, Views(s), f)
  {
    var v := Views(s);
    var s1, loop := LoopAlone(step, s, k, v, s.counters, f, 0);
    s' := BroadcastEnds(step, s1, k, f);
    ReachesOn(step, s, s1, s', loop, 1);
    m := loop + 1;
    assert v[..|v|] == v;
    assert Views(s') == VirtualBus.OfferedAll(v, f);
  }

  /** The whole call: same frame, same queues, same counters as the sequential bus. */
  lemma SendHeaderAlone(step: (State, State) -> bool, s: State, k: nat, id: uint8) returns (s': State, m: nat)
    requires Covers(step, k) && Ready(s, k) && s.calls[k] == Looking(id) && !s.closed && id in s.responses
    ensures Reaches(step, s, s', m) && SameBus(s, s') && Ready(s', k)
    ensures var f := ResponseFrame(id, s.responses[id]);
            && s'.calls[k] == Done(f, |s.subs|)
            && Views(s') == VirtualBus.OfferedAll(Views(s), f)
            && s'.counters == VirtualBus.AfterBroadcast(s.counters, Views(s), f)
  {
    var s1 := LookUpAlone(step, s, k, id);
    var rest;
    s', rest := BroadcastAlone(step, s1, k, ResponseFrame(id, s.responses[id]));
    ReachesOn(step, s, s1, s', 4, rest);
    m := 4 + rest;
    assert Views(s1) == Views(s);
  }

  /** A lookup that fails, as in the sequential bus. */
  lemma FailedSendAlone(step: (State, State) -> bool, s: State, k: nat, id: uint8)
    requires Covers(step, k) && Ready(s, k) && s.calls[k] == Looking(id) && (s.closed || id !in s.responses)
    ensures var error := if s.closed then Closed else Error.NoResponse;
            var s' := SetCall(s, k, Failed(error)).(counters := VirtualBus.AfterError(s.counters, Some(error)));
            Reaches(step, s, s', 1)
  {
    Moved(step, k, s, Next(s, Step(k)));
  }

  // ---------- Close ----------

  /** The first n subscriptions have been closed; nothing else has changed. */
  predicate ClosedFirst(s: State, s': State, k: nat, n: nat) {
    && k < |s.calls| && n <= |s.subs| && InRange(s) && |s'.channels| == |s.channels|
    && s' == s.(calls := s.calls[k := Closing(n)], channels := s'.channels, closed := true, writer := Some(k))
    && (forall c :: 0 <= c < |s.channels| && c !in s.subs ==> s'.channels[c] == s.channels[c])
    && (forall i :: 0 <= i < |s.subs| ==> s'.channels[s.subs[i]] == s.channels[s.subs[i]].(closed := i < n))
  }

  lemma CloseStep(step: (State, State) -> bool, s: State, t: State, k: nat, n: nat) returns (t': State)
    requires Covers(step, k) && Ready(s, k) && ClosedFirst(s, t, k, n) && n < |s.subs|
    ensures Reaches(step, t, t', 1) && ClosedFirst(s, t', k, n + 1)
  {
    t' := CloseOne(t, k, n);
    assert t'.calls == s.calls[k := Closing(n + 1)];
    Moved(step, k, t, t');
  }

  lemma {:induction false} CloseLoop(step: (State, State) -> bool, s: State, t: State, k: nat, n: nat)
    returns (t': State, m: nat)
    requires Covers(step, k) && Ready(s, k) && ClosedFirst(s, t, k, n)
    ensures Reaches(step, t, t', m) && ClosedFirst(s, t', k, |s.subs|)
    decreases |s.subs| - n
  {
    if n == |s.subs| {
      t', m := t, 0;
    } else {
      var t1 := CloseStep(step, s, t, k, n);
      var rest;
      t', rest := CloseLoop(step, s, t1, k, n + 1);
      ReachesOn(step, t, t1, t', 1, rest);
      m := 1 + rest;
    }
  }

  lemma CloseBegins(step: (State, State) -> bool, s: State, k: nat) returns (t: State)
    requires Covers(step, k) && Ready(s, k) && NoReaders(s) && s.calls[k] == AboutToClose && !s.closed
    ensures Reaches(step, s, t, 1) && ClosedFirst(s, t, k, 0)
  {
    t := Next(s, Step(k));
    Moved(step, k, s, t);
  }

  lemma CloseEnds(step: (State, State) -> bool, s: State, t: State, k: nat) returns (s': State)
    requires Covers(step, k) && ClosedFirst(s, t, k, |s.subs|)
    ensures Reaches(step, t, s', 1)
    ensures s' == s.(calls := s.calls[k := Finished], channels := t.channels, closed := true, subs := [],
                     writer := None)
  {
    s' := Next(t, Step(k));
    assert s'.calls == s.calls[k := Finished];
    Moved(step, k, t, s');
  }

  /**
   * Close, undisturbed: every subscription closed with its queue intact, none left; the second time nothing happens.
   */
  lemma CloseAlone(step: (State, State) -> bool, s: State, k: nat) returns (s': State, m: nat)
    requires Covers(step, k) && Ready(s, k) && NoReaders(s) && s.calls[k] == AboutToClose
    ensures Reaches(step, s, s', m) && |s'.channels| == |s.channels|
    ensures s' == s.(calls := s.calls[k := Finished], channels := s'.channels, closed := true,
                     subs := if s.closed then s.subs else [])
    ensures forall i :: 0 <= i < |s.subs| ==>
              s'.channels[s.subs[i]] == s.channels[s.subs[i]].(closed := !s.closed)
    ensures forall c :: 0 <= c < |s.channels| && c !in s.subs ==> s'.channels[c] == s.channels[c]
  {
    if s.closed {
      s', m := Next(s, Step(k)), 1;
      Moved(step, k, s, s');
    } else {
      var t := CloseBegins(step, s, k);
      var t', loop := CloseLoop(step, s, t, k, 0);
      s' := CloseEnds(step, s, t', k);
      ReachesOn(step, s, t, t', 1, loop);
      ReachesOn(step, s, t', s', 1 + loop, 1);
      m := 1 + loop + 1;
    }
  }

  // ---------- A drain that times out ----------

  /** The first n queues have been measured; nothing has changed. */
  predicate SampledFirst(s: State, t: State, k: nat, n: nat) {
    && InRange(s) && k < |s.calls| && n <= |s.subs|
    && t == SetCall(s, k, Sampling(n, VirtualBus.QueuedFrames(Views(s)[..n])))
  }

  lemma SampleStep(step: (State, State) -> bool, s: State, t: State, k: nat, n: nat) returns (t': State)
    requires Covers(step, k) && SampledFirst(s, t, k, n) && n < |s.subs|
    ensures Reaches(step, t, t', 1) && SampledFirst(s, t', k, n + 1)
  {
    t' := SetCall(s, k, Sampling(n + 1, VirtualBus.QueuedFrames(Views(s)[..n + 1])));
    assert Views(s)[..n + 1][..n] == Views(s)[..n];
    assert |Views(s)[n].queue| == |t.channels[t.subs[n]].queue|;
    assert t'.calls == t.calls[k := t'.calls[k]];
    Moved(step, k, t, t');
  }

  lemma {:induction false} SampleLoop(step: (State, State) -> bool, s: State, t: State, k: nat, n: nat)
    returns (t': State, m: nat)
    requires Covers(step, k) && SampledFirst(s, t, k, n)
    ensures Reaches(step, t, t', m) && SampledFirst(s, t', k, |s.subs|)
    decreases |s.subs| - n
  {
    if n == |s.subs| {
      t', m := t, 0;
    } else {
      var t1 := SampleStep(step, s, t, k, n);
      var rest;
      t', rest := SampleLoop(step, s, t1, k, n + 1);
      ReachesOn(step, t, t1, t', 1, rest);
      m := 1 + rest;
    }
  }

  /** Everything still buffered is counted as dropped. */
  lemma SampleEnds(step: (State, State) -> bool, s: State, t: State, k: nat) returns (t': State)
    requires Covers(step, k) && SampledFirst(s, t, k, |s.subs|)
    ensures Reaches(step, t, t', 2)
    ensures var total := VirtualBus.QueuedFrames(Views(s));
            t' == SetCall(s, k, AboutToClose).(counters := s.counters.(dropped := Bump(s.counters.dropped, total)),
                                               drained := s.drained + total)
  {
    assert Views(s)[..|s.subs|] == Views(s);
    var t1 := Next(t, Step(k));
    Moved(step, k, t, t1);
    t' := Next(t1, Step(k));
    Moved(step, k, t1, t');
    ReachesOn(step, t, t1, t', 1, 1);
    assert t'.calls == s.calls[k := AboutToClose];
  }

  lemma SampleAlone(step: (State, State) -> bool, s: State, k: nat) returns (t: State, m: nat)
    requires Covers(step, k) && Ready(s, k) && s.calls[k] == Draining
    ensures Reaches(step, Next(s, TimeOut(k)), t, m)
    ensures var total := VirtualBus.QueuedFrames(Views(s));
            t == SetCall(s, k, AboutToClose).(counters := s.counters.(dropped := Bump(s.counters.dropped, total)),
                                              drained := s.drained + total)
  {
    var first := Next(s, TimeOut(k));
    assert Views(s)[..0] == [];
    var t1, loop := SampleLoop(step, s, first, k, 0);
    t := SampleEnds(step, s, t1, k);
    ReachesOn(step, first, t1, t, loop, 2);
    m := loop + 2;
  }

  /** A CloseWithDrain that times out, undisturbed: the buffered frames count as dropped, then the bus is closed. */
  lemma DrainAlone(step: (State, State) -> bool, s: State, k: nat) returns (s': State, m: nat)
    requires Covers(step, k) && Ready(s, k) && NoReaders(s) && s.calls[k] == Draining && !s.closed
    ensures Reaches(step, Next(s, TimeOut(k)), s', m)
    ensures s'.closed && s'.subs == [] && s'.writer.None? && s'.calls == s.calls[k := Finished]
    ensures s'.counters == s.counters.(dropped := Bump(s.counters.dropped, VirtualBus.QueuedFrames(Views(s))))
    ensures |s'.channels| == |s.channels|
    ensures forall i :: 0 <= i < |s.subs| ==> s'.channels[s.subs[i]] == s.channels[s.subs[i]].(closed := true)
  {
    var t, first := SampleAlone(step, s, k);
    var rest;
    s', rest := CloseAlone(step, t, k);
    ReachesOn(step, Next(s, TimeOut(k)), t, s', first, rest);
    m := first + rest;
  }
}
