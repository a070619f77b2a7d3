/** The receiver over whole streams of inputs, and the sender that feeds it. */
module E2EStream {
  import opened Bytes
  import opened E2E

  const FRESH := ReceiverState(0, true)

  function Arrivals(cfg: Config, stream: seq<seq<byte>>): seq<Arrival> {
    seq(|stream|, i requires 0 <= i < |stream| => Screen(cfg, stream[i]))
  }

  /** The receiver after a stream of arrivals, and its outcome for every one of them. */
  function Run(st: ReceiverState, arrivals: seq<Arrival>): (r: (ReceiverState, seq<Outcome>))
    ensures |r.1| == |arrivals|
  {
    if |arrivals| == 0 then
      (st, [])
    else
      var n := |arrivals| - 1;
      var before := Run(st, arrivals[..n]);
      var (st', outcome) := Advance(before.0, arrivals[n]);
      (st', before.1 + [outcome])
  }

  lemma RunSnoc(st: ReceiverState, before: seq<Arrival>, a: Arrival)
    ensures var r := Run(st, before);
            var (st', outcome) := Advance(r.0, a);
            Run(st, before + [a]) == (st', r.1 + [outcome])
  {
    assert (before + [a])[..|before|] == before;
  }

  function GoodOnes(arrivals: seq<Arrival>): (r: seq<Arrival>)
    ensures forall i :: 0 <= i < |r| ==> r[i].Good?
  {
    if |arrivals| == 0 then
      []
    else
      var n := |arrivals| - 1;
      GoodOnes(arrivals[..n]) + (if arrivals[n].Good? then [arrivals[n]] else [])
  }

  /** After any stream the receiver remembers exactly the counter of the last good arrival. */
  lemma {:induction false} StateIsLastGood(arrivals: seq<Arrival>)
    ensures var good := GoodOnes(arrivals);
            Run(FRESH, arrivals).0 ==
            if |good| == 0 then FRESH else ReceiverState(good[|good| - 1].counter, false)
  {
    if |arrivals| > 0 {
      StateIsLastGood(arrivals[..|arrivals| - 1]);
    }
  }

  /** A good arrival is due when it is the first or continues the last one, accepted or not. */
  predicate Due(before: seq<Arrival>, counter: bv32) {
    Continues(GoodOnes(before), counter)
  }

  /** The counter comes next after these frames. */
  predicate Continues(good: seq<Arrival>, counter: bv32)
    requires forall i :: 0 <= i < |good| ==> good[i].Good?
  {
    |good| == 0 || counter == good[|good| - 1].counter + 1
  }

  lemma {:induction false} OutcomeAt(st: ReceiverState, arrivals: seq<Arrival>, i: nat)
    requires i < |arrivals|
    ensures Run(st, arrivals).1[i] == Advance(Run(st, arrivals[..i]).0, arrivals[i]).1
  {
    var n := |arrivals| - 1;
    if i < n {
      OutcomeAt(st, arrivals[..n], i);
      assert arrivals[..n][..i] == arrivals[..i];
    }
  }

  lemma StateAfter(st: ReceiverState, arrivals: seq<Arrival>, i: nat)
    requires i < |arrivals|
    ensures Run(st, arrivals[..i + 1]).0 == Advance(Run(st, arrivals[..i]).0, arrivals[i]).0
  {
    assert arrivals[..i + 1][..i] == arrivals[..i];
  }

  /** The outcome a fresh receiver owes to arrival a after the given ones. */
  function Owed(before: seq<Arrival>, a: Arrival): Outcome {
    match a
    case Bad(kind, counter) => Rejected(kind, counter)
    case Good(counter, payload) =>
      if Due(before, counter) then Accepted(payload) else Rejected(SequenceGap, counter)
  }

  lemma NextOutcome(before: seq<Arrival>, a: Arrival)
    ensures Advance(Run(FRESH, before).0, a).1 == Owed(before, a)
  {
    StateIsLastGood(before);
  }

  lemma ArrivalExact(arrivals: seq<Arrival>, i: nat)
    requires i < |arrivals|
    ensures Run(FRESH, arrivals).1[i] == Owed(arrivals[..i], arrivals[i])
    ensures arrivals[i].Bad? ==> Run(FRESH, arrivals[..i + 1]).0 == Run(FRESH, arrivals[..i]).0
  {
    OutcomeAt(FRESH, arrivals, i);
    NextOutcome(arrivals[..i], arrivals[i]);
    StateAfter(FRESH, arrivals, i);
  }

  /**
   * The whole behaviour of a fresh receiver on any stream of inputs: an input that fails a check is reported and
   * changes nothing; a passing frame is accepted with its payload if and only if it is due, and is a gap otherwise.
   */
  lemma ReceiverExact(cfg: Config, stream: seq<seq<byte>>, i: nat)
    requires i < |stream|
    ensures var arrivals := Arrivals(cfg, stream);
            var outcome := Run(FRESH, arrivals).1[i];
            && arrivals[i] == Screen(cfg, stream[i])
            && (arrivals[i].Good? <==> Passes(cfg, stream[i]))
            && (arrivals[i].Bad? ==>
                  && outcome == Rejected(arrivals[i].kind, arrivals[i].badCounter) && !IsGap(outcome)
                  && Run(FRESH, arrivals[..i + 1]).0 == Run(FRESH, arrivals[..i]).0)
            && (arrivals[i].Good? ==>
                  outcome == if Due(arrivals[..i], arrivals[i].counter)
                             then Accepted(arrivals[i].payload)
                             else Rejected(SequenceGap, arrivals[i].counter))
  {
    ArrivalExact(Arrivals(cfg, stream), i);
    GoodMeansPasses(cfg, stream[i]);
  }

  lemma NeverScreenedAsGap(cfg: Config, data: seq<byte>)
    ensures Screen(cfg, data).Bad? ==> Screen(cfg, data).kind != SequenceGap
  {
    GoodMeansPasses(cfg, data);
  }

  // ---------- Counting gaps ----------

  predicate IsGap(o: Outcome) {
    o.Rejected? && o.kind == SequenceGap
  }

  function Gaps(outcomes: seq<Outcome>): nat {
    if |outcomes| == 0 then 0
    else Gaps(outcomes[..|outcomes| - 1]) + (if IsGap(outcomes[|outcomes| - 1]) then 1 else 0)
  }

  /** Neighbours whose counters are not consecutive modulo 2^32. */
  function Breaks(good: seq<Arrival>): nat
    requires forall i :: 0 <= i < |good| ==> good[i].Good?
  {
    if |good| < 2 then
      0
    else
      var n := |good| - 1;
      Breaks(good[..n]) + (if Continues(good[..n], good[n].counter) then 0 else 1)
  }

  lemma BreaksSnoc(good: seq<Arrival>, last: Arrival)
    requires last.Good? && forall i :: 0 <= i < |good| ==> good[i].Good?
    ensures Breaks(good + [last]) ==
            Breaks(good) + if Continues(good, last.counter) then 0 else 1
  {
    assert (good + [last])[..|good|] == good;
  }

  lemma GapsSnoc(before: seq<Arrival>, a: Arrival)
    ensures Gaps(Run(FRESH, before + [a]).1) == Gaps(Run(FRESH, before).1) + if IsGap(Owed(before, a)) then 1 else 0
  {
    RunSnoc(FRESH, before, a);
    NextOutcome(before, a);
    var outcomes := Run(FRESH, before).1;
    assert (outcomes + [Owed(before, a)])[..|outcomes|] == outcomes;
  }

  lemma GoodSnoc(before: seq<Arrival>, a: Arrival)
    ensures GoodOnes(before + [a]) == GoodOnes(before) + if a.Good? then [a] else []
  {
    assert (before + [a])[..|before|] == before;
  }

  lemma GapMeansNotDue(before: seq<Arrival>, a: Arrival)
    requires a.Bad? ==> a.kind != SequenceGap
    ensures IsGap(Owed(before, a)) <==> a.Good? && !Due(before, a.counter)
  {
  }

  lemma GoodBreakStep(before: seq<Arrival>, a: Arrival)
    requires a.Good?
    ensures Breaks(GoodOnes(before) + [a]) == Breaks(GoodOnes(before)) + if Due(before, a.counter) then 0 else 1
  {
    BreaksSnoc(GoodOnes(before), a);
  }

  lemma BreakStep(before: seq<Arrival>, a: Arrival)
    requires a.Bad? ==> a.kind != SequenceGap
    ensures Breaks(GoodOnes(before + [a])) == Breaks(GoodOnes(before)) + if IsGap(Owed(before, a)) then 1 else 0
  {
    GoodSnoc(before, a);
    GapMeansNotDue(before, a);
    if a.Good? {
      GoodBreakStep(before, a);
    } else {
      assert GoodOnes(before + [a]) == GoodOnes(before);
    }
  }

  lemma {:induction false} GapsAreBreaksOf(arrivals: seq<Arrival>)
    requires forall i :: 0 <= i < |arrivals| && arrivals[i].Bad? ==> arrivals[i].kind != SequenceGap
    ensures Gaps(Run(FRESH, arrivals).1) == Breaks(GoodOnes(arrivals))
  {
    if |arrivals| > 0 {
      var n := |arrivals| - 1;
      GapsAreBreaksOf(arrivals[..n]);
      GapsSnoc(arrivals[..n], arrivals[n]);
      BreakStep(arrivals[..n], arrivals[n]);
      assert arrivals == arrivals[..n] + [arrivals[n]];
    }
  }

  /** The receiver reports as many gaps as there are breaks between neighbouring passing frames. */
  lemma GapsAreBreaks(cfg: Config, stream: seq<seq<byte>>)
    ensures Gaps(Run(FRESH, Arrivals(cfg, stream)).1) == Breaks(GoodOnes(Arrivals(cfg, stream)))
  {
    var arrivals := Arrivals(cfg, stream);
    forall i | 0 <= i < |arrivals| && arrivals[i].Bad? ensures arrivals[i].kind != SequenceGap {
      NeverScreenedAsGap(cfg, stream[i]);
    }
    GapsAreBreaksOf(arrivals);
  }

  // ---------- What gets through ----------

  function AcceptedPayloads(outcomes: seq<Outcome>): seq<seq<byte>> {
    if |outcomes| == 0 then
      []
    else
      var n := |outcomes| - 1;
      AcceptedPayloads(outcomes[..n]) + (if outcomes[n].Accepted? then [outcomes[n].payload] else [])
  }

  lemma AcceptedSnoc(st: ReceiverState, before: seq<Arrival>, a: Arrival, arrivals: seq<Arrival>)
    requires arrivals == before + [a]
    ensures var (st', outcome) := Advance(Run(st, before).0, a);
            && Run(st, arrivals).0 == st'
            && AcceptedPayloads(Run(st, arrivals).1) ==
               AcceptedPayloads(Run(st, before).1) + (if outcome.Accepted? then [outcome.payload] else [])
  {
    RunSnoc(st, before, a);
    assert Run(st, arrivals).1[..|before|] == Run(st, before).1;
  }

  /** Inputs that fail a check make no difference to what is accepted. */
  lemma {:induction false} OnlyGoodOnesMatter(st: ReceiverState, arrivals: seq<Arrival>)
    ensures var good := GoodOnes(arrivals);
            && Run(st, arrivals).0 == Run(st, good).0
            && AcceptedPayloads(Run(st, arrivals).1) == AcceptedPayloads(Run(st, good).1)
  {
    if |arrivals| > 0 {
      var n := |arrivals| - 1;
      OnlyGoodOnesMatter(st, arrivals[..n]);
      AcceptedSnoc(st, arrivals[..n], arrivals[n], arrivals);
      if arrivals[n].Good? {
        AcceptedSnoc(st, GoodOnes(arrivals[..n]), arrivals[n], GoodOnes(arrivals));
      } else {
        assert GoodOnes(arrivals) == GoodOnes(arrivals[..n]);
      }
    }
  }

  // ---------- In-order delivery ----------

  /** The sender's counter after n further calls; it wraps modulo 2^32. */
  function CounterAfter(start: bv32, n: nat): bv32 {
    if n == 0 then start else CounterAfter(start, n - 1) + 1
  }

  /** The frames a sender produces for consecutive Protect calls. */
  function Sent(cfg: Config, start: bv32, payloads: seq<seq<byte>>): seq<seq<byte>> {
    seq(|payloads|, i requires 0 <= i < |payloads| => Protected(cfg, CounterAfter(start, i), payloads[i]))
  }

  function SentArrival(start: bv32, n: nat, payload: seq<byte>): Arrival {
    Good(CounterAfter(start, n), payload)
  }

  function SentArrivals(start: bv32, payloads: seq<seq<byte>>): seq<Arrival> {
    seq(|payloads|, i requires 0 <= i < |payloads| => SentArrival(start, i, payloads[i]))
  }

  lemma SentArrive(cfg: Config, start: bv32, payloads: seq<seq<byte>>)
    ensures Arrivals(cfg, Sent(cfg, start, payloads)) == SentArrivals(start, payloads)
  {
    forall i | 0 <= i < |payloads|
      ensures Arrivals(cfg, Sent(cfg, start, payloads))[i] == SentArrivals(start, payloads)[i]
    {
      ProtectedIsGood(cfg, CounterAfter(start, i), payloads[i]);
    }
  }

  /** The receiver that has accepted the first n frames of a sender. */
  function InStep(start: bv32, n: nat): ReceiverState {
    if n == 0 then FRESH else ReceiverState(CounterAfter(start, n - 1), false)
  }

  lemma NextIsAccepted(start: bv32, n: nat, payload: seq<byte>)
    ensures Advance(InStep(start, n), SentArrival(start, n, payload)) == (InStep(start, n + 1), Accepted(payload))
  {
  }

  lemma SentSnoc(start: bv32, payloads: seq<seq<byte>>, n: nat)
    requires |payloads| == n + 1
    ensures SentArrivals(start, payloads) ==
            SentArrivals(start, payloads[..n]) + [SentArrival(start, n, payloads[n])]
  {
  }

  lemma AcceptedOne(before: seq<Arrival>, st: ReceiverState, a: Arrival, st': ReceiverState, p: seq<byte>)
    requires Run(FRESH, before).0 == st && Advance(st, a) == (st', Accepted(p))
    ensures var r, r' := Run(FRESH, before), Run(FRESH, before + [a]);
            r'.0 == st' && AcceptedPayloads(r'.1) == AcceptedPayloads(r.1) + [p]
  {
    AcceptedSnoc(FRESH, before, a, before + [a]);
  }

  lemma SentStep(start: bv32, sent: seq<Arrival>, n: nat, payload: seq<byte>)
    requires Run(FRESH, sent).0 == InStep(start, n)
    ensures var r, r' := Run(FRESH, sent), Run(FRESH, sent + [SentArrival(start, n, payload)]);
            r'.0 == InStep(start, n + 1) && AcceptedPayloads(r'.1) == AcceptedPayloads(r.1) + [payload]
  {
    NextIsAccepted(start, n, payload);
    AcceptedOne(sent, InStep(start, n), SentArrival(start, n, payload), InStep(start, n + 1), payload);
  }

  lemma {:induction false} RunOfSent(start: bv32, payloads: seq<seq<byte>>)
    ensures var r := Run(FRESH, SentArrivals(start, payloads));
            AcceptedPayloads(r.1) == payloads && r.0 == InStep(start, |payloads|)
  {
    if |payloads| > 0 {
      var n := |payloads| - 1;
      RunOfSent(start, payloads[..n]);
      SentSnoc(start, payloads, n);
      SentStep(start, SentArrivals(start, payloads[..n]), n, payloads[n]);
      assert payloads == payloads[..n] + [payloads[n]];
    }
  }

  /**
   * Lossless in-order delivery, from any starting counter and across wrap-around: if the frames that pass are
   * those of one run of Protect calls, the accepted payloads are the original ones, whatever else arrived between.
   */
  lemma LosslessDelivery(cfg: Config, start: bv32, payloads: seq<seq<byte>>, stream: seq<seq<byte>>)
    requires GoodOnes(Arrivals(cfg, stream)) == Arrivals(cfg, Sent(cfg, start, payloads))
    ensures AcceptedPayloads(Run(FRESH, Arrivals(cfg, stream)).1) == payloads
  {
    OnlyGoodOnesMatter(FRESH, Arrivals(cfg, stream));
    SentArrive(cfg, start, payloads);
    RunOfSent(start, payloads);
  }

  /** A gap reseeds the counter, so replaying two consecutive frames gets the second one accepted again. */
  lemma ReplayedPairIsAccepted(cfg: Config, c: bv32, p: seq<byte>, q: seq<byte>)
    ensures var f, g := Protected(cfg, c, p), Protected(cfg, c + 1, q);
            Run(FRESH, Arrivals(cfg, [f, g, f, g])).1 ==
            [Accepted(p), Accepted(q), Rejected(SequenceGap, c), Accepted(q)]
  {
    var f, g := Protected(cfg, c, p), Protected(cfg, c + 1, q);
    ProtectedIsGood(cfg, c, p);
    ProtectedIsGood(cfg, c + 1, q);
    var a, b := Good(c, p), Good(c + 1, q);
    assert Arrivals(cfg, [f, g, f, g]) == [a, b, a, b];
    ReplayedArrivals(c, p, q);
  }

  lemma ReplayedArrivals(c: bv32, p: seq<byte>, q: seq<byte>)
    ensures var a, b := Good(c, p), Good(c + 1, q);
            Run(FRESH, [a, b, a, b]).1 == [Accepted(p), Accepted(q), Rejected(SequenceGap, c), Accepted(q)]
  {
    var a, b := Good(c, p), Good(c + 1, q);
    var s, t := ReceiverState(c, false), ReceiverState(c + 1, false);
    NotItsOwnSuccessor(c);
    FourSteps(a, b, a, b, s, t, s, t, Accepted(p), Accepted(q), Rejected(SequenceGap, c), Accepted(q));
  }

  lemma NotItsOwnSuccessor(c: bv32)
    ensures c != c + 1 + 1
  {
  }

  lemma FourSteps(a: Arrival, b: Arrival, c: Arrival, d: Arrival,
                  s1: ReceiverState, s2: ReceiverState, s3: ReceiverState, s4: ReceiverState,
                  o1: Outcome, o2: Outcome, o3: Outcome, o4: Outcome)
    requires Advance(FRESH, a) == (s1, o1) && Advance(s1, b) == (s2, o2)
    requires Advance(s2, c) == (s3, o3) && Advance(s3, d) == (s4, o4)
    ensures Run(FRESH, [a, b, c, d]).1 == [o1, o2, o3, o4]
  {
    OneMore([], FRESH, [], a, s1, o1);
    assert [] + [a] == [a] && [] + [o1] == [o1];
    OneMore([a], s1, [o1], b, s2, o2);
    assert [a] + [b] == [a, b] && [o1] + [o2] == [o1, o2];
    OneMore([a, b], s2, [o1, o2], c, s3, o3);
    assert [a, b] + [c] == [a, b, c] && [o1, o2] + [o3] == [o1, o2, o3];
    OneMore([a, b, c], s3, [o1, o2, o3], d, s4, o4);
    assert [a, b, c] + [d] == [a, b, c, d] && [o1, o2, o3] + [o4] == [o1, o2, o3, o4];
  }

  lemma OneMore(before: seq<Arrival>, mid: ReceiverState, outcomes: seq<Outcome>,
                a: Arrival, last: ReceiverState, outcome: Outcome)
    requires Run(FRESH, before) == (mid, outcomes) && Advance(mid, a) == (last, outcome)
    ensures Run(FRESH, before + [a]) == (last, outcomes + [outcome])
  {
    RunSnoc(FRESH, before, a);
  }
}
