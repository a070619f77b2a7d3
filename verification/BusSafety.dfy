/** What every run of the bus keeps: lock discipline, channel safety and who received what. */
module BusSafety {
  import opened Options
  import opened Lin
  import opened BusModel
  import opened BusMachine

  // ---------- Lock discipline and channel safety ----------

  /** Channels below this position have been closed. */
  function ClosedBelow(s: State): nat {
    if !s.closed then 0
    else if s.writer.Some? && s.writer.value < |s.calls| && s.calls[s.writer.value].Closing? then
      s.calls[s.writer.value].next
    else |s.channels|
  }

  predicate InBounds(c: Call, subs: nat, channels: nat) {
    match c
    case Offering(_, next) => next <= subs
    case Sent(_, at) => at < subs
    case Delivered(_, at) => at < subs
    case Refused(_, at) => at < subs
    case Sampling(next, _) => next <= subs
    case Closing(next) => next <= subs
    case Done(_, covered) => covered <= channels
    case _ => true
  }

  predicate LockInv(s: State) {
    && |s.lookups| == |s.calls|
    && (forall k :: 0 <= k < |s.calls| ==> (s.calls[k].Closing? <==> s.writer == Some(k)))
    && (s.writer.Some? ==> s.writer.value < |s.calls| && NoReaders(s))
    && (forall k :: 0 <= k < |s.calls| ==> InBounds(s.calls[k], |s.subs|, |s.channels|))
  }

  predicate ChannelInv(s: State) {
    && |s.subs| <= |s.channels|
    && (forall i :: 0 <= i < |s.subs| ==> s.subs[i] == i)
    && (!s.closed || s.writer.Some? ==> |s.subs| == |s.channels|)
    && (s.closed && s.writer.None? ==> s.subs == [])
    && (s.writer.Some? ==> s.closed)
    && (forall c :: 0 <= c < |s.channels| ==> (s.channels[c].closed <==> c < ClosedBelow(s)))
    && (forall c :: 0 <= c < |s.channels| ==> |s.channels[c].queue| <= QUEUE_SIZE)
    && !s.panicked
  }

  predicate SafetyInv(s: State) {
    LockInv(s) && ChannelInv(s)
  }

  /** A step that only moves call k, not touching lock or channels. */
  predicate MovesCall(s: State, s': State, k: nat, c: Call) {
    && k < |s.calls| && s'.calls == s.calls[k := c] && |s'.lookups| == |s.lookups|
    && s'.channels == s.channels && s'.subs == s.subs && s'.closed == s.closed && s'.writer == s.writer
    && s'.panicked == s.panicked
  }

  lemma MoveKeepsSafety(s: State, s': State, k: nat, c: Call)
    requires SafetyInv(s) && MovesCall(s, s', k, c)
    requires !s.calls[k].Closing? && !c.Closing?
    requires Reads(c) ==> s.writer.None?
    requires InBounds(c, |s.subs|, |s.channels|)
    ensures SafetyInv(s')
  {
  }

  lemma NewCallKeepsSafety(s: State, c: Call)
    requires SafetyInv(s) && !Reads(c) && !c.Closing? && !c.Done?
    ensures SafetyInv(NewCall(s, c))
  {
    var s' := NewCall(s, c);
    assert forall k :: 0 <= k < |s.calls| ==> s'.calls[k] == s.calls[k];
  }

  lemma SubscribeKeepsSafety(s: State, a: Action)
    requires SafetyInv(s) && a.Subscribe? && Enabled(s, a)
    ensures SafetyInv(Next(s, a))
  {
  }

  lemma ReceiveKeepsSafety(s: State, a: Action)
    requires SafetyInv(s) && a.Receive? && Enabled(s, a)
    ensures SafetyInv(Next(s, a))
  {
  }

  /** While a broadcast holds the read lock no subscribed channel is closed, so a send cannot hit a closed channel. */
  lemma OfferKeepsSafety(s: State, k: nat)
    requires SafetyInv(s) && k < |s.calls| && s.calls[k].Offering? && s.calls[k].next < |s.subs|
    ensures SafetyInv(Offer(s, k, s.calls[k].frame, s.calls[k].next))
  {
    assert Reads(s.calls[k]);
    assert s.writer.None? && !s.closed;
  }

  lemma CloseOneKeepsSafety(s: State, k: nat)
    requires SafetyInv(s) && k < |s.calls| && s.calls[k].Closing? && s.calls[k].next < |s.subs|
    ensures SafetyInv(CloseOne(s, k, s.calls[k].next))
  {
  }

  lemma CloseStartKeepsSafety(s: State, k: nat)
    requires SafetyInv(s) && k < |s.calls| && s.calls[k].AboutToClose? && LockFree(s) && !s.closed
    ensures SafetyInv(StepCall(s, k))
  {
  }

  lemma CloseEndKeepsSafety(s: State, k: nat)
    requires SafetyInv(s) && k < |s.calls| && s.calls[k].Closing? && s.calls[k].next >= |s.subs|
    ensures SafetyInv(StepCall(s, k))
  {
  }

  /** The steps of a call that touch neither the lock nor a channel. */
  predicate IsPlain(s: State, k: nat)
    requires k < |s.calls|
  {
    var c := s.calls[k];
    !c.AboutToClose? && !c.Closing? && !(c.Offering? && c.next < |s.subs|)
  }

  lemma PlainStepMoves(s: State, k: nat)
    requires SafetyInv(s) && Enabled(s, Step(k)) && IsPlain(s, k)
    ensures MovesCall(s, StepCall(s, k), k, StepCall(s, k).calls[k])
  {
  }

  lemma PlainStepBounds(s: State, k: nat)
    requires SafetyInv(s) && Enabled(s, Step(k)) && IsPlain(s, k)
    ensures InBounds(StepCall(s, k).calls[k], |s.subs|, |s.channels|)
    ensures !StepCall(s, k).calls[k].Closing?
    ensures Reads(StepCall(s, k).calls[k]) ==> s.writer.None?
  {
    assert InBounds(s.calls[k], |s.subs|, |s.channels|);
  }

  lemma StepKeepsSafety(s: State, k: nat)
    requires SafetyInv(s) && Enabled(s, Step(k))
    ensures SafetyInv(StepCall(s, k))
  {
    var c := s.calls[k];
    if IsPlain(s, k) {
      PlainStepMoves(s, k);
      PlainStepBounds(s, k);
      MoveKeepsSafety(s, StepCall(s, k), k, StepCall(s, k).calls[k]);
    } else if c.Offering? {
      OfferKeepsSafety(s, k);
    } else if c.AboutToClose? {
      if s.closed {
        MoveKeepsSafety(s, StepCall(s, k), k, Finished);
      } else {
        CloseStartKeepsSafety(s, k);
      }
    } else if c.next < |s.subs| {
      CloseOneKeepsSafety(s, k);
    } else {
      CloseEndKeepsSafety(s, k);
    }
  }

  /** No action breaks the lock discipline or makes a channel operation panic. */
  lemma NextKeepsSafety(s: State, a: Action)
    requires SafetyInv(s) && Enabled(s, a)
    ensures InRange(s) && SafetyInv(Next(s, a))
  {
    match a
    case Publish(_, _, _) =>
    case Subscribe(_) => SubscribeKeepsSafety(s, a);
    case Receive(_) => ReceiveKeepsSafety(s, a);
    case StartSend(id) => NewCallKeepsSafety(s, if id > MAX_ID then Failed(IdOutOfRange) else Looking(id));
    case StartClose => NewCallKeepsSafety(s, AboutToClose);
    case StartDrain => NewCallKeepsSafety(s, Draining);
    case TimeOut(k) => MoveKeepsSafety(s, Next(s, a), k, Sampling(0, 0));
    case Step(k) => StepKeepsSafety(s, k);
  }
}
