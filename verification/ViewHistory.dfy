/** What a header is answered with, and what a subscriber's queue holds, after any calls on the bus. */
module ViewHistory {
  import opened Options
  import opened Bytes
  import opened Lin
  import opened Exchange
  import BusModel
  import VirtualBus

  // ---------- Registrations ----------

  predicate Registers(op: Op, id: uint8) {
    op.Publishing? && op.id == id && BusModel.Acceptable(id, op.data)
  }

  predicate NoClosing(ops: seq<Op>) {
    forall i :: 0 <= i < |ops| ==> !ops[i].Closing?
  }

  /** A header is answered by this registration: its frame, or no response when it is a removal. */
  predicate AnsweredBy(reply: Result<Frame>, id: uint8, data: Option<seq<byte>>, ct: ChecksumType) {
    match data
    case None => reply == Err(Error.NoResponse)
    case Some(bytes) => reply.Ok? && BusModel.Carries(reply.value, id, bytes, ct)
  }

  lemma RegistrationAnswers(b: BusView, op: Op, id: uint8)
    requires !b.closed && Registers(op, id)
    ensures AnsweredBy(Reply(Performed(b, op), id), id, op.data, op.ct)
  {
    if op.data.Some? {
      BusModel.YieldedFrameCarries(Performed(b, op).table, id, op.data, op.ct, Reply(Performed(b, op), id).value);
    }
  }

  lemma OthersKeepAnswer(b: BusView, op: Op, id: uint8)
    requires !op.Closing? && !Registers(op, id)
    ensures Performed(b, op).closed == b.closed && Reply(Performed(b, op), id) == Reply(b, id)
  {
  }

  lemma {:induction false} StaysOpen(b: BusView, ops: seq<Op>)
    requires NoClosing(ops)
    ensures PerformedAll(b, ops).closed == b.closed
  {
    if |ops| > 0 {
      StaysOpen(b, ops[..|ops| - 1]);
    }
  }

  /** While the bus is open a header is answered by the last accepted registration of its identifier. */
  lemma {:induction false} LastRegistrationAnswers(b: BusView, ops: seq<Op>, i: nat, id: uint8)
    requires !b.closed && NoClosing(ops) && i < |ops| && Registers(ops[i], id)
    requires forall j :: i < j < |ops| ==> !Registers(ops[j], id)
    ensures AnsweredBy(Reply(PerformedAll(b, ops), id), id, ops[i].data, ops[i].ct)
  {
    var n := |ops| - 1;
    StaysOpen(b, ops[..n]);
    if i < n {
      LastRegistrationAnswers(b, ops[..n], i, id);
      OthersKeepAnswer(PerformedAll(b, ops[..n]), ops[n], id);
    } else {
      RegistrationAnswers(PerformedAll(b, ops[..n]), ops[n], id);
    }
  }

  /** Without one the answer stays as it was: refused registrations and all other calls make no difference. */
  lemma {:induction false} AnswerStays(b: BusView, ops: seq<Op>, id: uint8)
    requires NoClosing(ops) && forall j :: 0 <= j < |ops| ==> !Registers(ops[j], id)
    ensures Reply(PerformedAll(b, ops), id) == Reply(b, id)
  {
    if |ops| > 0 {
      var n := |ops| - 1;
      AnswerStays(b, ops[..n], id);
      OthersKeepAnswer(PerformedAll(b, ops[..n]), ops[n], id);
    }
  }

  /** A closed bus stays closed and answers nothing; identifiers out of range are refused in any case. */
  lemma {:induction false} ClosedAnswersNothing(b: BusView, ops: seq<Op>, id: uint8)
    requires b.closed || exists i :: 0 <= i < |ops| && ops[i].Closing?
    ensures PerformedAll(b, ops).closed
    ensures Reply(PerformedAll(b, ops), id) == Err(if id > 0x3F then IdOutOfRange else Closed)
  {
    if |ops| > 0 {
      var n := |ops| - 1;
      if b.closed || exists i :: 0 <= i < n && ops[..n][i].Closing? {
        ClosedAnswersNothing(b, ops[..n], id);
      }
    }
  }

  // ---------- Subscriptions ----------

  /** The frames that answer the headers among the calls. */
  function Answers(b: BusView, ops: seq<Op>): seq<Frame> {
    if |ops| == 0 then []
    else
      var n := |ops| - 1;
      Answers(b, ops[..n]) + (if ops[n].Heading? then AnswerOf(Reply(PerformedAll(b, ops[..n]), ops[n].id)) else [])
  }

  function AnswerOf(reply: Result<Frame>): seq<Frame> {
    match reply case Ok(f) => [f] case Err(_) => []
  }

  /** Those with one of the wanted identifiers, or all of them. */
  function Wanted(frames: seq<Frame>, filters: seq<Filter>): seq<Frame> {
    if |frames| == 0 then []
    else
      var f := frames[|frames| - 1];
      Wanted(frames[..|frames| - 1], filters) +
      (if |filters| == 0 || exists i :: 0 <= i < |filters| && (filters[i].all || filters[i].id == f.id) then [f]
       else [])
  }

  function FirstOf(frames: seq<Frame>, n: nat): seq<Frame> {
    if |frames| <= n then frames else frames[..n]
  }

  /** Nobody takes frames from subscription k. */
  predicate Unread(ops: seq<Op>, k: nat) {
    forall i :: 0 <= i < |ops| ==> !(ops[i].Receiving? && ops[i].at == k)
  }

  /** The queue is what it was, followed by the wanted answers, as far as there is room for 64. */
  predicate Holds(s: VirtualBus.Subscriber, before: VirtualBus.Subscriber, frames: seq<Frame>) {
    s.filters == before.filters && s.queue == FirstOf(before.queue + Wanted(frames, before.filters), 64)
  }

  lemma OfferedOne(s: VirtualBus.Subscriber, before: VirtualBus.Subscriber, frames: seq<Frame>, f: Frame)
    requires |before.queue| <= 64 && Holds(s, before, frames)
    ensures Holds(VirtualBus.Offered(s, f), before, frames + [f])
  {
    assert (frames + [f])[..|frames|] == frames;
    var wanted := before.queue + Wanted(frames, before.filters);
    if MatchesAny(s.filters, f) {
      assert Wanted(frames + [f], before.filters) == Wanted(frames, before.filters) + [f];
      assert before.queue + Wanted(frames + [f], before.filters) == wanted + [f];
    } else {
      assert Wanted(frames + [f], before.filters) == Wanted(frames, before.filters) + [];
    }
  }

  /** A subscriber that does not read holds the oldest 64 of everything it wanted, in the order of the headers. */
  lemma {:induction false} QueueHoldsTheOldest(b: BusView, ops: seq<Op>, k: nat)
    requires k < |b.subscribers| && |b.subscribers[k].queue| <= 64 && NoClosing(ops) && Unread(ops, k)
    ensures var b' := PerformedAll(b, ops);
            k < |b'.subscribers| && Holds(b'.subscribers[k], b.subscribers[k], Answers(b, ops))
  {
    if |ops| == 0 {
      assert b.subscribers[k].queue + [] == b.subscribers[k].queue;
    } else {
      var n := |ops| - 1;
      var mid := PerformedAll(b, ops[..n]);
      QueueHoldsTheOldest(b, ops[..n], k);
      OneCallOnQueue(mid, ops[n], k);
      if ops[n].Heading? && Reply(mid, ops[n].id).Ok? {
        OfferedOne(mid.subscribers[k], b.subscribers[k], Answers(b, ops[..n]), Reply(mid, ops[n].id).value);
      } else {
        assert Answers(b, ops[..n]) + [] == Answers(b, ops[..n]);
      }
    }
  }

  lemma OneCallOnQueue(b: BusView, op: Op, k: nat)
    requires k < |b.subscribers| && !op.Closing? && !(op.Receiving? && op.at == k)
    ensures var b' := Performed(b, op);
            && k < |b'.subscribers|
            && b'.subscribers[k] == if op.Heading? && Reply(b, op.id).Ok?
                                    then VirtualBus.Offered(b.subscribers[k], Reply(b, op.id).value)
                                    else b.subscribers[k]
  {
  }
}
