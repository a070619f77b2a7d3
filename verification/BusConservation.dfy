/** The bus counters agree with what is in the channels, in every state of every run. */
module BusConservation {
  import opened Lin
  import opened BusModel
  import opened BusMachine
  import opened BusSafety
  import opened BusDelivery

  // ---------- Sums ----------

  function Sum<T>(xs: seq<T>, w: T -> nat): nat {
    if |xs| == 0 then 0 else Sum(xs[..|xs| - 1], w) + w(xs[|xs| - 1])
  }

  lemma SumSnoc<T>(xs: seq<T>, x: T, w: T -> nat)
    ensures Sum(xs + [x], w) == Sum(xs, w) + w(x)
  {
    assert (xs + [x])[..|xs|] == xs;
  }

  lemma {:induction false} SumUpdate<T>(xs: seq<T>, i: nat, x: T, w: T -> nat)
    requires i < |xs|
    ensures Sum(xs[i := x], w) + w(xs[i]) == Sum(xs, w) + w(x)
  {
    var n := |xs| - 1;
    if i < n {
      SumUpdate(xs[..n], i, x, w);
      assert xs[i := x][..n] == xs[..n][i := x];
    } else {
      assert xs[i := x][..n] == xs[..n];
    }
  }

  lemma {:induction false} SumSame<T>(xs: seq<T>, ys: seq<T>, w: T -> nat)
    requires |xs| == |ys| && forall i :: 0 <= i < |xs| ==> w(xs[i]) == w(ys[i])
    ensures Sum(xs, w) == Sum(ys, w)
  {
    if |xs| > 0 {
      SumSame(xs[..|xs| - 1], ys[..|ys| - 1], w);
    }
  }

  lemma {:induction false} SumZero<T>(xs: seq<T>, w: T -> nat)
    requires forall i :: 0 <= i < |xs| ==> w(xs[i]) == 0
    ensures Sum(xs, w) == 0
  {
    if |xs| > 0 {
      SumZero(xs[..|xs| - 1], w);
    }
  }

  lemma {:induction false} SumPlus<T>(xs: seq<T>, v: T -> nat, w: T -> nat, vw: T -> nat)
    requires forall i :: 0 <= i < |xs| ==> vw(xs[i]) == v(xs[i]) + w(xs[i])
    ensures Sum(xs, vw) == Sum(xs, v) + Sum(xs, w)
  {
    if |xs| > 0 {
      SumPlus(xs[..|xs| - 1], v, w, vw);
    }
  }

  // ---------- What is counted ----------

  function Bytes(items: seq<Item>): nat {
    if |items| == 0 then 0 else Bytes(items[..|items| - 1]) + |items[|items| - 1].frame.data|
  }

  function EnteredCount(ch: Channel): nat { |ch.Entered()| }

  function EnteredBytes(ch: Channel): nat { Bytes(ch.Entered()) }

  function RefusedCount(ch: Channel): nat { |ch.refused| }

  /** Additions a call has still to make to each counter. */
  function OwesDelivered(c: Call): nat {
    if c.Sent? then 1 else 0
  }

  function OwesBytes(c: Call): nat {
    if c.Sent? || c.Delivered? then |c.frame.data| else 0
  }

  function OwesDropped(c: Call): nat {
    if c.Refused? then 1 else 0
  }

  /** The counter shows the total less what is still owed, having wrapped around this many times. */
  predicate Laps(counter: nat, owed: nat, total: nat, laps: nat) {
    counter < WRAP && total == counter + owed + WRAP * laps
  }

  ghost predicate Agree(counter: nat, owed: nat, total: nat) {
    exists laps: nat :: Laps(counter, owed, total, laps)
  }

  ghost predicate Balanced(s: State) {
    && Agree(s.counters.delivered, Sum(s.calls, OwesDelivered), Sum(s.channels, EnteredCount))
    && Agree(s.counters.bytesDelivered, Sum(s.calls, OwesBytes), Sum(s.channels, EnteredBytes))
    && Agree(s.counters.dropped, Sum(s.calls, OwesDropped), Sum(s.channels, RefusedCount) + s.drained)
  }

  // ---------- Arithmetic ----------

  lemma AddInside(a: nat, b: nat)
    ensures (a % WRAP + b) % WRAP == (a + b) % WRAP
  {
    var q := a / WRAP;
    assert a == WRAP * q + a % WRAP;
    MultipleVanishes(a % WRAP + b, q);
  }

  lemma {:induction false} MultipleVanishes(x: nat, q: nat)
    ensures (x + WRAP * q) % WRAP == x % WRAP
  {
    if q > 0 {
      MultipleVanishes(x, q - 1);
      var y := x + WRAP * (q - 1);
      assert (y + WRAP) % WRAP == y % WRAP;
    }
  }

  /** Paying an addition to the counter. */
  lemma Pay(counter: nat, n: nat, owed: nat, owed': nat, total: nat)
    requires Agree(counter, owed, total) && owed == owed' + n
    ensures Agree(Bump(counter, n), owed', total)
  {
    var laps: nat :| Laps(counter, owed, total, laps);
    assert Laps(Bump(counter, n), owed', total, laps + (counter + n) / WRAP);
  }

  /** Incurring a debt together with the event it stands for. */
  lemma Owe(counter: nat, n: nat, owed: nat, total: nat)
    requires Agree(counter, owed, total)
    ensures Agree(counter, owed + n, total + n)
  {
    var laps: nat :| Laps(counter, owed, total, laps);
    assert Laps(counter, owed + n, total + n, laps);
  }

  /** With nothing owed the counter is the total modulo its width. */
  lemma Paid(counter: nat, total: nat)
    requires Agree(counter, 0, total)
    ensures counter == total % WRAP
  {
    var laps: nat :| Laps(counter, 0, total, laps);
    MultipleVanishes(counter, laps);
  }

  // ---------- Steps ----------

  predicate SameWeight(c: Call, c': Call) {
    OwesDelivered(c') == OwesDelivered(c) && OwesBytes(c') == OwesBytes(c) && OwesDropped(c') == OwesDropped(c)
  }

  lemma CallSums(s: State, k: nat, c: Call)
    requires k < |s.calls|
    ensures Sum(s.calls[k := c], OwesDelivered) + OwesDelivered(s.calls[k]) ==
            Sum(s.calls, OwesDelivered) + OwesDelivered(c)
    ensures Sum(s.calls[k := c], OwesBytes) + OwesBytes(s.calls[k]) == Sum(s.calls, OwesBytes) + OwesBytes(c)
    ensures Sum(s.calls[k := c], OwesDropped) + OwesDropped(s.calls[k]) == Sum(s.calls, OwesDropped) + OwesDropped(c)
  {
    SumUpdate(s.calls, k, c, OwesDelivered);
    SumUpdate(s.calls, k, c, OwesBytes);
    SumUpdate(s.calls, k, c, OwesDropped);
  }

  lemma SameDebts(s: State, k: nat, c: Call)
    requires k < |s.calls| && SameWeight(s.calls[k], c)
    ensures Sum(s.calls[k := c], OwesDelivered) == Sum(s.calls, OwesDelivered)
    ensures Sum(s.calls[k := c], OwesBytes) == Sum(s.calls, OwesBytes)
    ensures Sum(s.calls[k := c], OwesDropped) == Sum(s.calls, OwesDropped)
  {
    CallSums(s, k, c);
  }

  predicate SameCounts(s: State, s': State) {
    && s'.counters.delivered == s.counters.delivered && s'.counters.bytesDelivered == s.counters.bytesDelivered
    && s'.counters.dropped == s.counters.dropped && s'.drained == s.drained
  }

  /** Neither the accounts of the channels nor the debts of the calls change. */
  lemma NothingCounted(s: State, s': State)
    requires Balanced(s) && SameCounts(s, s')
    requires |s'.calls| == |s.calls| && forall k :: 0 <= k < |s.calls| ==> SameWeight(s.calls[k], s'.calls[k])
    requires |s'.channels| == |s.channels|
    requires forall c :: 0 <= c < |s.channels| ==> SameAccounts(s.channels[c], s'.channels[c])
    ensures Balanced(s')
  {
    forall c | 0 <= c < |s.channels|
      ensures EnteredCount(s'.channels[c]) == EnteredCount(s.channels[c])
      ensures EnteredBytes(s'.channels[c]) == EnteredBytes(s.channels[c])
      ensures RefusedCount(s'.channels[c]) == RefusedCount(s.channels[c])
    {
      assert SameAccounts(s.channels[c], s'.channels[c]);
    }
    forall k | 0 <= k < |s.calls|
      ensures OwesDelivered(s'.calls[k]) == OwesDelivered(s.calls[k])
      ensures OwesBytes(s'.calls[k]) == OwesBytes(s.calls[k])
      ensures OwesDropped(s'.calls[k]) == OwesDropped(s.calls[k])
    {
      assert SameWeight(s.calls[k], s'.calls[k]);
    }
    SumSame(s'.channels, s.channels, EnteredCount);
    SumSame(s'.channels, s.channels, EnteredBytes);
    SumSame(s'.channels, s.channels, RefusedCount);
    SumSame(s'.calls, s.calls, OwesDelivered);
    SumSame(s'.calls, s.calls, OwesBytes);
    SumSame(s'.calls, s.calls, OwesDropped);
  }

  lemma CallAdded(s: State, s': State, c: Call)
    requires Balanced(s) && SameCounts(s, s') && s'.calls == s.calls + [c] && s'.channels == s.channels
    requires SameWeight(Finished, c)
    ensures Balanced(s')
  {
    SumSnoc(s.calls, c, OwesDelivered);
    SumSnoc(s.calls, c, OwesBytes);
    SumSnoc(s.calls, c, OwesDropped);
  }

  lemma ChannelAdded(s: State, s': State, filters: seq<Filter>)
    requires Balanced(s) && SameCounts(s, s') && s'.calls == s.calls
    requires s'.channels == s.channels + [Channel(filters, [], [], [], false)]
    ensures Balanced(s')
  {
    var ch := Channel(filters, [], [], [], false);
    SumSnoc(s.channels, ch, EnteredCount);
    SumSnoc(s.channels, ch, EnteredBytes);
    SumSnoc(s.channels, ch, RefusedCount);
  }

  lemma ChannelSums(channels: seq<Channel>, at: nat, ch: Channel)
    requires at < |channels|
    ensures Sum(channels[at := ch], EnteredCount) + EnteredCount(channels[at]) ==
            Sum(channels, EnteredCount) + EnteredCount(ch)
    ensures Sum(channels[at := ch], EnteredBytes) + EnteredBytes(channels[at]) ==
            Sum(channels, EnteredBytes) + EnteredBytes(ch)
    ensures Sum(channels[at := ch], RefusedCount) + RefusedCount(channels[at]) ==
            Sum(channels, RefusedCount) + RefusedCount(ch)
  {
    SumUpdate(channels, at, ch, EnteredCount);
    SumUpdate(channels, at, ch, EnteredBytes);
    SumUpdate(channels, at, ch, RefusedCount);
  }

  lemma EnteredOneMore(ch: Channel, x: Item)
    ensures var ch' := ch.(queue := ch.queue + [x]);
            && EnteredCount(ch') == EnteredCount(ch) + 1
            && EnteredBytes(ch') == EnteredBytes(ch) + |x.frame.data|
            && RefusedCount(ch') == RefusedCount(ch)
  {
    assert ch.received + (ch.queue + [x]) == ch.Entered() + [x];
    assert (ch.Entered() + [x])[..|ch.Entered()|] == ch.Entered();
  }

  predicate Sends(s: State, s': State, k: nat, f: Frame, at: nat) {
    && k < |s.calls| && s.calls[k].Offering? && at < |s.channels|
    && s'.calls == s.calls[k := Sent(f, at)]
    && var ch := s.channels[at]; s'.channels == s.channels[at := ch.(queue := ch.queue + [Item(k, f)])]
  }

  lemma SendSums(s: State, s': State, k: nat, f: Frame, at: nat)
    requires Sends(s, s', k, f, at)
    ensures Sum(s'.calls, OwesDelivered) == Sum(s.calls, OwesDelivered) + 1
    ensures Sum(s'.calls, OwesBytes) == Sum(s.calls, OwesBytes) + |f.data|
    ensures Sum(s'.calls, OwesDropped) == Sum(s.calls, OwesDropped)
    ensures Sum(s'.channels, EnteredCount) == Sum(s.channels, EnteredCount) + 1
    ensures Sum(s'.channels, EnteredBytes) == Sum(s.channels, EnteredBytes) + |f.data|
    ensures Sum(s'.channels, RefusedCount) == Sum(s.channels, RefusedCount)
  {
    CallSums(s, k, Sent(f, at));
    EnteredOneMore(s.channels[at], Item(k, f));
    ChannelSums(s.channels, at, s'.channels[at]);
  }

  lemma SendBalanced(s: State, s': State, k: nat, f: Frame, at: nat)
    requires Balanced(s) && SameCounts(s, s') && Sends(s, s', k, f, at)
    ensures Balanced(s')
  {
    SendSums(s, s', k, f, at);
    Owe(s.counters.delivered, 1, Sum(s.calls, OwesDelivered), Sum(s.channels, EnteredCount));
    Owe(s.counters.bytesDelivered, |f.data|, Sum(s.calls, OwesBytes), Sum(s.channels, EnteredBytes));
  }

  lemma RefuseBalanced(s: State, s': State, k: nat, f: Frame, at: nat)
    requires Balanced(s) && SameCounts(s, s') && k < |s.calls| && s.calls[k].Offering? && at < |s.channels|
    requires s'.calls == s.calls[k := Refused(f, at)]
    requires var ch := s.channels[at]; s'.channels == s.channels[at := ch.(refused := ch.refused + [Item(k, f)])]
    ensures Balanced(s')
  {
    var ch := s.channels[at];
    var ch' := ch.(refused := ch.refused + [Item(k, f)]);
    CallSums(s, k, Refused(f, at));
    ChannelSums(s.channels, at, ch');
    Owe(s.counters.dropped, 1, Sum(s.calls, OwesDropped), Sum(s.channels, RefusedCount) + s.drained);
  }

  lemma OfferBalanced(s: State, k: nat)
    requires SafetyInv(s) && Balanced(s) && k < |s.calls| && s.calls[k].Offering? && s.calls[k].next < |s.subs|
    ensures Balanced(Offer(s, k, s.calls[k].frame, s.calls[k].next))
  {
    var f, at := s.calls[k].frame, s.calls[k].next;
    var s' := Offer(s, k, f, at);
    assert s.subs[at] == at && Reads(s.calls[k]) && !s.channels[at].closed;
    if !MatchesAny(s.channels[at].filters, f) {
      NothingCounted(s, s');
    } else if |s.channels[at].queue| < QUEUE_SIZE {
      SendBalanced(s, s', k, f, at);
    } else {
      RefuseBalanced(s, s', k, f, at);
    }
  }

  lemma DeliveredBalanced(s: State, k: nat)
    requires InRange(s) && Balanced(s) && k < |s.calls| && s.calls[k].Sent?
    ensures Balanced(StepCall(s, k))
  {
    var calls := StepCall(s, k).calls;
    CallSums(s, k, calls[k]);
    Pay(s.counters.delivered, 1, Sum(s.calls, OwesDelivered), Sum(calls, OwesDelivered), Sum(s.channels, EnteredCount));
  }

  lemma BytesBalanced(s: State, k: nat)
    requires InRange(s) && Balanced(s) && k < |s.calls| && s.calls[k].Delivered?
    ensures Balanced(StepCall(s, k))
  {
    var calls := StepCall(s, k).calls;
    CallSums(s, k, calls[k]);
    Pay(s.counters.bytesDelivered, |s.calls[k].frame.data|, Sum(s.calls, OwesBytes), Sum(calls, OwesBytes),
        Sum(s.channels, EnteredBytes));
  }

  lemma DroppedBalanced(s: State, k: nat)
    requires InRange(s) && Balanced(s) && k < |s.calls| && s.calls[k].Refused?
    ensures Balanced(StepCall(s, k))
  {
    var calls := StepCall(s, k).calls;
    CallSums(s, k, calls[k]);
    Pay(s.counters.dropped, 1, Sum(s.calls, OwesDropped), Sum(calls, OwesDropped),
        Sum(s.channels, RefusedCount) + s.drained);
  }

  lemma SampleBalanced(s: State, k: nat)
    requires InRange(s) && Balanced(s) && k < |s.calls| && s.calls[k].Sampled?
    ensures Balanced(StepCall(s, k))
  {
    var total := s.calls[k].total;
    var owed, all := Sum(s.calls, OwesDropped), Sum(s.channels, RefusedCount) + s.drained;
    SameDebts(s, k, AboutToClose);
    Owe(s.counters.dropped, total, owed, all);
    Pay(s.counters.dropped, total, owed + total, owed, all + total);
  }

  lemma PlainBalanced(s: State, k: nat)
    requires SafetyInv(s) && Balanced(s) && Enabled(s, Step(k)) && IsPlain(s, k)
    requires var c := s.calls[k]; !c.Sent? && !c.Delivered? && !c.Refused? && !c.Sampled?
    ensures Balanced(StepCall(s, k))
  {
    PlainStepMoves(s, k);
    PlainCounts(s, k);
    NothingCounted(s, StepCall(s, k));
  }

  lemma PlainCounts(s: State, k: nat)
    requires InRange(s) && Enabled(s, Step(k)) && IsPlain(s, k)
    requires var c := s.calls[k]; !c.Sent? && !c.Delivered? && !c.Refused? && !c.Sampled?
    ensures SameCounts(s, StepCall(s, k))
    ensures |StepCall(s, k).calls| == |s.calls| && SameWeight(s.calls[k], StepCall(s, k).calls[k])
  {
  }

  lemma CloseBalanced(s: State, k: nat)
    requires SafetyInv(s) && Balanced(s) && Enabled(s, Step(k)) && (s.calls[k].AboutToClose? || s.calls[k].Closing?)
    ensures Balanced(StepCall(s, k))
  {
    NothingCounted(s, StepCall(s, k));
  }

  lemma StepKeepsBalance(s: State, k: nat)
    requires SafetyInv(s) && Balanced(s) && Enabled(s, Step(k))
    ensures Balanced(StepCall(s, k))
  {
    var c := s.calls[k];
    if c.Offering? && c.next < |s.subs| {
      OfferBalanced(s, k);
    } else if c.Sent? {
      DeliveredBalanced(s, k);
    } else if c.Delivered? {
      BytesBalanced(s, k);
    } else if c.Refused? {
      DroppedBalanced(s, k);
    } else if c.Sampled? {
      SampleBalanced(s, k);
    } else if c.AboutToClose? || c.Closing? {
      CloseBalanced(s, k);
    } else {
      PlainBalanced(s, k);
    }
  }

  lemma NextKeepsBalance(s: State, a: Action)
    requires SafetyInv(s) && Balanced(s) && Enabled(s, a)
    ensures Balanced(Next(s, a))
  {
    var s' := Next(s, a);
    match a
    case Publish(_, _, _) => NothingCounted(s, s');
    case Subscribe(filters) =>
      if s.closed {
        NothingCounted(s, s');
      } else {
        ChannelAdded(s, s', filters);
      }
    case Receive(c) =>
      ReceiveSameAccounts(s.channels[c]);
      NothingCounted(s, s');
    case StartSend(id) => CallAdded(s, s', if id > MAX_ID then Failed(IdOutOfRange) else Looking(id));
    case StartClose => CallAdded(s, s', AboutToClose);
    case StartDrain => CallAdded(s, s', Draining);
    case TimeOut(_) => NothingCounted(s, s');
    case Step(k) => StepKeepsBalance(s, k);
  }

  lemma {:induction false} RunKeepsBalance(states: seq<State>, actions: seq<Action>, i: nat)
    requires IsRun(states, actions) && i < |states|
    ensures Balanced(states[i])
  {
    if i == 0 {
      assert Laps(0, 0, 0, 0);
    } else {
      RunKeepsBalance(states, actions, i - 1);
      RunKeepsInv(states, actions, i - 1);
      NextKeepsBalance(states[i - 1], actions[i - 1]);
      assert states[i] == Next(states[i - 1], actions[i - 1]);
    }
  }

  // ---------- Quiescent states ----------

  /** No call is between a channel operation and the addition that counts it. */
  predicate Quiescent(s: State) {
    forall k :: 0 <= k < |s.calls| ==> !s.calls[k].Sent? && !s.calls[k].Delivered? && !s.calls[k].Refused?
  }

  function ReceivedCount(ch: Channel): nat { |ch.received| }

  function QueuedCount(ch: Channel): nat { |ch.queue| }

  function ReceivedBytes(ch: Channel): nat { Bytes(ch.received) }

  function QueuedBytes(ch: Channel): nat { Bytes(ch.queue) }

  lemma {:induction false} BytesConcat(a: seq<Item>, b: seq<Item>)
    ensures Bytes(a + b) == Bytes(a) + Bytes(b)
  {
    if |b| == 0 {
      assert a + b == a;
    } else {
      assert (a + b)[..|a + b| - 1] == a + b[..|b| - 1];
      BytesConcat(a, b[..|b| - 1]);
    }
  }

  /**
   * Conservation. When no call is mid-count, deliverCount is the number of frames received plus the number still
   * buffered over all subscriptions ever made, bytesDelivered is the sum of their lengths, and dropCount is the number
   * of frames refused by full queues plus the samples added by timed-out drains; all modulo the 64 bits of the
   * counters.
   */
  lemma Conservation(states: seq<State>, actions: seq<Action>, i: nat)
    requires IsRun(states, actions) && i < |states| && Quiescent(states[i])
    ensures var s := states[i];
            && s.counters.delivered == (Sum(s.channels, ReceivedCount) + Sum(s.channels, QueuedCount)) % WRAP
            && s.counters.bytesDelivered == (Sum(s.channels, ReceivedBytes) + Sum(s.channels, QueuedBytes)) % WRAP
            && s.counters.dropped == (Sum(s.channels, RefusedCount) + s.drained) % WRAP
  {
    RunKeepsBalance(states, actions, i);
    NothingOwed(states[i]);
    EnteredSplit(states[i]);
    var s := states[i];
    Paid(s.counters.delivered, Sum(s.channels, EnteredCount));
    Paid(s.counters.bytesDelivered, Sum(s.channels, EnteredBytes));
    Paid(s.counters.dropped, Sum(s.channels, RefusedCount) + s.drained);
  }

  lemma NothingOwed(s: State)
    requires Quiescent(s)
    ensures Sum(s.calls, OwesDelivered) == 0 && Sum(s.calls, OwesBytes) == 0 && Sum(s.calls, OwesDropped) == 0
  {
    SumZero(s.calls, OwesDelivered);
    SumZero(s.calls, OwesBytes);
    SumZero(s.calls, OwesDropped);
  }

  lemma EnteredSplit(s: State)
    ensures Sum(s.channels, EnteredCount) == Sum(s.channels, ReceivedCount) + Sum(s.channels, QueuedCount)
    ensures Sum(s.channels, EnteredBytes) == Sum(s.channels, ReceivedBytes) + Sum(s.channels, QueuedBytes)
  {
    forall c | 0 <= c < |s.channels|
      ensures EnteredBytes(s.channels[c]) == ReceivedBytes(s.channels[c]) + QueuedBytes(s.channels[c])
    {
      BytesConcat(s.channels[c].received, s.channels[c].queue);
    }
    SumPlus(s.channels, ReceivedCount, QueuedCount, EnteredCount);
    SumPlus(s.channels, ReceivedBytes, QueuedBytes, EnteredBytes);
  }

  // ---------- Matched offers ----------

  /** The calls among the first n that have passed the channel at this position with matching filters. */
  function OffersTo(calls: seq<Call>, ch: Channel, at: nat, n: nat): nat
    requires n <= |calls|
  {
    if n == 0 then 0 else OffersTo(calls, ch, at, n - 1) + Expected(calls[n - 1], ch, at)
  }

  /** Items of the first n calls. */
  function CountBelow(items: seq<Item>, n: nat): nat {
    if n == 0 then 0 else CountBelow(items, n - 1) + CountCall(items, n - 1)
  }

  lemma {:induction false} CountBelowSnoc(items: seq<Item>, x: Item, n: nat)
    ensures CountBelow(items + [x], n) == CountBelow(items, n) + if x.call < n then 1 else 0
  {
    if n > 0 {
      CountBelowSnoc(items, x, n - 1);
      CountCallSnoc(items, x, n - 1);
    }
  }

  lemma {:induction false} CountBelowNone(n: nat)
    ensures CountBelow([], n) == 0
  {
    if n > 0 {
      CountBelowNone(n - 1);
    }
  }

  lemma {:induction false} EveryItemHasACall(items: seq<Item>, n: nat)
    requires forall i :: 0 <= i < |items| ==> items[i].call < n
    ensures CountBelow(items, n) == |items|
  {
    if |items| == 0 {
      CountBelowNone(n);
    } else {
      var m := |items| - 1;
      EveryItemHasACall(items[..m], n);
      CountBelowSnoc(items[..m], items[m], n);
      assert items == items[..m] + [items[m]];
    }
  }

  lemma {:induction false} OffersAreCounted(s: State, at: nat, n: nat)
    requires ExactlyOnce(s) && at < |s.channels| && n <= |s.calls|
    ensures OffersTo(s.calls, s.channels[at], at, n) ==
            CountBelow(s.channels[at].Entered(), n) + CountBelow(s.channels[at].refused, n)
  {
    if n > 0 {
      OffersAreCounted(s, at, n - 1);
      assert Times(s.channels[at], n - 1) == Expected(CallAt(s, n - 1), s.channels[at], at);
    }
  }

  /** In every subscription the matched offers are exactly the frames enqueued plus those refused by a full queue. */
  lemma MatchedOffers(states: seq<State>, actions: seq<Action>, i: nat, at: nat)
    requires IsRun(states, actions) && i < |states| && at < |states[i].channels|
    ensures var s := states[i];
            var ch := s.channels[at];
            OffersTo(s.calls, ch, at, |s.calls|) == |ch.received| + |ch.queue| + |ch.refused|
  {
    RunKeepsInv(states, actions, i);
    var s := states[i];
    var ch := s.channels[at];
    OffersAreCounted(s, at, |s.calls|);
    forall j | 0 <= j < |ch.Entered()| ensures ch.Entered()[j].call < |s.calls| {
      assert FromItsCall(s, ch.Entered()[j]);
    }
    forall j | 0 <= j < |ch.refused| ensures ch.refused[j].call < |s.calls| {
      assert FromItsCall(s, ch.refused[j]);
    }
    EveryItemHasACall(ch.Entered(), |s.calls|);
    EveryItemHasACall(ch.refused, |s.calls|);
  }

  /** Matched offers over the first n subscriptions. */
  function TotalOffers(s: State, n: nat): nat
    requires n <= |s.channels|
  {
    if n == 0 then 0 else TotalOffers(s, n - 1) + OffersTo(s.calls, s.channels[n - 1], n - 1, |s.calls|)
  }

  lemma {:induction false} TotalOffersSplit(s: State, n: nat)
    requires n <= |s.channels|
    requires forall at :: 0 <= at < n ==>
               OffersTo(s.calls, s.channels[at], at, |s.calls|) ==
               EnteredCount(s.channels[at]) + RefusedCount(s.channels[at])
    ensures TotalOffers(s, n) == Sum(s.channels[..n], EnteredCount) + Sum(s.channels[..n], RefusedCount)
  {
    if n > 0 {
      TotalOffersSplit(s, n - 1);
      assert s.channels[..n] == s.channels[..n - 1] + [s.channels[n - 1]];
      SumSnoc(s.channels[..n - 1], s.channels[n - 1], EnteredCount);
      SumSnoc(s.channels[..n - 1], s.channels[n - 1], RefusedCount);
    }
  }

  lemma PaidTogether(a: nat, total: nat, b: nat, total': nat)
    requires Agree(a, 0, total) && Agree(b, 0, total')
    ensures (a + b) % WRAP == (total + total') % WRAP
  {
    var laps: nat :| Laps(a, 0, total, laps);
    var laps': nat :| Laps(b, 0, total', laps');
    MultipleVanishes(a + b, laps + laps');
  }

  /** At quiescence deliverCount and dropCount together are the matched offers plus the samples of timed-out drains. */
  lemma AllOffersAreCounted(states: seq<State>, actions: seq<Action>, i: nat)
    requires IsRun(states, actions) && i < |states| && Quiescent(states[i])
    ensures var s := states[i];
            (s.counters.delivered + s.counters.dropped) % WRAP == (TotalOffers(s, |s.channels|) + s.drained) % WRAP
  {
    var s := states[i];
    RunKeepsBalance(states, actions, i);
    NothingOwed(s);
    forall at | 0 <= at < |s.channels|
      ensures OffersTo(s.calls, s.channels[at], at, |s.calls|) ==
              EnteredCount(s.channels[at]) + RefusedCount(s.channels[at])
    {
      MatchedOffers(states, actions, i, at);
    }
    TotalOffersSplit(s, |s.channels|);
    assert s.channels[..|s.channels|] == s.channels;
    PaidTogether(s.counters.delivered, Sum(s.channels, EnteredCount),
                 s.counters.dropped, Sum(s.channels, RefusedCount) + s.drained);
  }
}
