/** Who received what: every run keeps an exact account of each call's frame in each channel. */
module BusDelivery {
  import opened Options
  import opened Lin
  import opened BusModel
  import opened BusMachine
  import opened BusSafety

  // ---------- Items of a call in a channel ----------

  function CountCall(items: seq<Item>, k: nat): nat {
    if |items| == 0 then 0
    else CountCall(items[..|items| - 1], k) + (if items[|items| - 1].call == k then 1 else 0)
  }

  lemma CountCallSnoc(items: seq<Item>, x: Item, k: nat)
    ensures CountCall(items + [x], k) == CountCall(items, k) + if x.call == k then 1 else 0
  {
    assert (items + [x])[..|items|] == items;
  }

  /** How often call k's frame is accounted for in a channel, enqueued or refused. */
  function Times(ch: Channel, k: nat): nat {
    CountCall(ch.Entered(), k) + CountCall(ch.refused, k)
  }

  // ---------- How far a call has got ----------

  /** The number of subscriptions a call has already offered its frame to. */
  function Progress(c: Call): nat {
    match c
    case Offering(_, next) => next
    case Sent(_, at) => at + 1
    case Delivered(_, at) => at + 1
    case Refused(_, at) => at + 1
    case Done(_, covered) => covered
    case _ => 0
  }

  predicate HasFrame(c: Call) {
    c.Synthesised? || c.Announced? || c.Offering? || c.Sent? || c.Delivered? || c.Refused? || c.Done?
  }

  function CallAt(s: State, k: nat): Call {
    if k < |s.calls| then s.calls[k] else Finished
  }

  /** Exactly once if the call has passed the channel and its filters match, and never otherwise. */
  function Expected(c: Call, ch: Channel, at: nat): nat {
    if at < Progress(c) && HasFrame(c) && MatchesAny(ch.filters, c.frame) then 1 else 0
  }

  ghost predicate ExactlyOnce(s: State) {
    forall k: nat, c: nat :: c < |s.channels| ==> Times(s.channels[c], k) == Expected(CallAt(s, k), s.channels[c], c)
  }

  // ---------- Where frames come from ----------

  predicate Provenance(s: State, k: nat)
    requires k < |s.calls| && |s.lookups| == |s.calls|
  {
    var c := s.calls[k];
    var l := s.lookups[k];
    && (l.Some? ==> WellFormedResponses(l.value.responses))
    && (c.LookedUp? ==>
          l.Some? && l.value.id == c.id && c.id in l.value.responses && c.response == l.value.responses[c.id])
    && (HasFrame(c) ==> l.Some? && Yields(l.value.responses, l.value.id, c.frame))
  }

  predicate FromItsCall(s: State, x: Item) {
    x.call < |s.calls| && HasFrame(s.calls[x.call]) && s.calls[x.call].frame == x.frame
  }

  predicate ItemsFromCalls(s: State, items: seq<Item>) {
    forall i :: 0 <= i < |items| ==> FromItsCall(s, items[i])
  }

  predicate FramesInv(s: State) {
    && |s.lookups| == |s.calls|
    && WellFormedResponses(s.responses)
    && (forall k :: 0 <= k < |s.calls| ==> Provenance(s, k))
    && (forall c :: 0 <= c < |s.channels| ==>
          ItemsFromCalls(s, s.channels[c].Entered()) && ItemsFromCalls(s, s.channels[c].refused))
  }

  // ---------- Steps that move one call ----------

  /** Keeps ExactlyOnce: the channels are the same and the moved call has made no progress. */
  lemma MoveKeepsExactlyOnce(s: State, s': State, k: nat, c: Call)
    requires ExactlyOnce(s) && k < |s.calls|
    requires s'.calls == s.calls[k := c] && s'.channels == s.channels
    requires Progress(c) == Progress(s.calls[k])
    requires Progress(c) > 0 ==> HasFrame(c) && HasFrame(s.calls[k]) && c.frame == s.calls[k].frame
    ensures ExactlyOnce(s')
  {
    forall j: nat, at: nat | at < |s'.channels|
      ensures Times(s'.channels[at], j) == Expected(CallAt(s', j), s'.channels[at], at)
    {
      assert Times(s.channels[at], j) == Expected(CallAt(s, j), s.channels[at], at);
    }
  }

  /** Skipping a subscription whose filters do not match. */
  lemma SkipKeepsExactlyOnce(s: State, s': State, k: nat, next: nat)
    requires ExactlyOnce(s) && k < |s.calls| && s.calls[k].Offering? && s.calls[k].next == next < |s.channels|
    requires !MatchesAny(s.channels[next].filters, s.calls[k].frame)
    requires s'.calls == s.calls[k := Offering(s.calls[k].frame, next + 1)] && s'.channels == s.channels
    ensures ExactlyOnce(s')
  {
    forall j: nat, at: nat | at < |s'.channels|
      ensures Times(s'.channels[at], j) == Expected(CallAt(s', j), s'.channels[at], at)
    {
      assert Times(s.channels[at], j) == Expected(CallAt(s, j), s.channels[at], at);
    }
  }

  /** Accounting for the frame in one channel, as an enqueued or a refused item. */
  lemma AccountKeepsExactlyOnce(s: State, s': State, k: nat, at: nat, ch: Channel, c: Call)
    requires ExactlyOnce(s) && k < |s.calls| && s.calls[k].Offering? && s.calls[k].next == at < |s.channels|
    requires MatchesAny(s.channels[at].filters, s.calls[k].frame)
    requires ch.filters == s.channels[at].filters
    requires forall j: nat :: Times(ch, j) == Times(s.channels[at], j) + if j == k then 1 else 0
    requires (c.Sent? || c.Refused?) && c.frame == s.calls[k].frame && c.at == at
    requires s'.calls == s.calls[k := c] && s'.channels == s.channels[at := ch]
    ensures ExactlyOnce(s')
  {
    forall j: nat, i: nat | i < |s'.channels|
      ensures Times(s'.channels[i], j) == Expected(CallAt(s', j), s'.channels[i], i)
    {
      assert Times(s.channels[i], j) == Expected(CallAt(s, j), s.channels[i], i);
    }
  }

  lemma EnqueuedTimes(ch: Channel, k: nat, f: Frame, j: nat)
    ensures Times(ch.(queue := ch.queue + [Item(k, f)]), j) == Times(ch, j) + if j == k then 1 else 0
  {
    CountCallSnoc(ch.Entered(), Item(k, f), j);
    assert ch.received + (ch.queue + [Item(k, f)]) == ch.Entered() + [Item(k, f)];
  }

  lemma RefusedTimes(ch: Channel, k: nat, f: Frame, j: nat)
    ensures Times(ch.(refused := ch.refused + [Item(k, f)]), j) == Times(ch, j) + if j == k then 1 else 0
  {
    CountCallSnoc(ch.refused, Item(k, f), j);
  }

  lemma OfferKeepsExactlyOnce(s: State, k: nat)
    requires SafetyInv(s) && ExactlyOnce(s)
    requires k < |s.calls| && s.calls[k].Offering? && s.calls[k].next < |s.subs|
    ensures ExactlyOnce(Offer(s, k, s.calls[k].frame, s.calls[k].next))
  {
    var f, at := s.calls[k].frame, s.calls[k].next;
    var s' := Offer(s, k, f, at);
    var ch := s.channels[at];
    assert s.subs[at] == at && Reads(s.calls[k]) && !ch.closed;
    if !MatchesAny(ch.filters, f) {
      SkipKeepsExactlyOnce(s, s', k, at);
    } else if |ch.queue| < QUEUE_SIZE {
      forall j: nat ensures Times(s'.channels[at], j) == Times(ch, j) + if j == k then 1 else 0 {
        EnqueuedTimes(ch, k, f, j);
      }
      AccountKeepsExactlyOnce(s, s', k, at, s'.channels[at], Sent(f, at));
    } else {
      forall j: nat ensures Times(s'.channels[at], j) == Times(ch, j) + if j == k then 1 else 0 {
        RefusedTimes(ch, k, f, j);
      }
      AccountKeepsExactlyOnce(s, s', k, at, s'.channels[at], Refused(f, at));
    }
  }

  // ---------- Steps that leave every account alone ----------

  /** Channels may close and consumers may receive: what entered and what was refused stays the same. */
  predicate SameAccounts(ch: Channel, ch': Channel) {
    ch'.filters == ch.filters && ch'.Entered() == ch.Entered() && ch'.refused == ch.refused
  }

  lemma SameAccountsKeepExactlyOnce(s: State, s': State)
    requires ExactlyOnce(s)
    requires |s'.channels| == |s.channels|
    requires forall c :: 0 <= c < |s.channels| ==> SameAccounts(s.channels[c], s'.channels[c])
    requires forall k: nat :: Progress(CallAt(s', k)) == Progress(CallAt(s, k))
    requires forall k: nat :: Progress(CallAt(s, k)) > 0 ==> CallAt(s', k) == CallAt(s, k)
    ensures ExactlyOnce(s')
  {
    forall j: nat, at: nat | at < |s'.channels|
      ensures Times(s'.channels[at], j) == Expected(CallAt(s', j), s'.channels[at], at)
    {
      assert SameAccounts(s.channels[at], s'.channels[at]);
      assert Times(s.channels[at], j) == Expected(CallAt(s, j), s.channels[at], at);
    }
  }

  lemma ReceiveSameAccounts(ch: Channel)
    requires |ch.queue| > 0
    ensures SameAccounts(ch, ch.(received := ch.received + [ch.queue[0]], queue := ch.queue[1..]))
  {
    assert ch.received + [ch.queue[0]] + ch.queue[1..] == ch.received + ch.queue;
  }

  lemma SubscribeKeepsExactlyOnce(s: State, filters: seq<Filter>)
    requires SafetyInv(s) && ExactlyOnce(s) && !s.closed && Enabled(s, Subscribe(filters))
    ensures ExactlyOnce(Next(s, Subscribe(filters)))
  {
    var s' := Next(s, Subscribe(filters));
    forall j: nat, at: nat | at < |s'.channels|
      ensures Times(s'.channels[at], j) == Expected(CallAt(s', j), s'.channels[at], at)
    {
      if at < |s.channels| {
        assert Times(s.channels[at], j) == Expected(CallAt(s, j), s.channels[at], at);
      } else {
        assert Progress(CallAt(s, j)) <= |s.channels|;
      }
    }
  }

  lemma StepKeepsExactlyOnce(s: State, k: nat)
    requires SafetyInv(s) && ExactlyOnce(s) && Enabled(s, Step(k))
    ensures ExactlyOnce(StepCall(s, k))
  {
    var c := s.calls[k];
    if c.Offering? && c.next < |s.subs| {
      OfferKeepsExactlyOnce(s, k);
    } else if IsPlain(s, k) {
      PlainProgress(s, k);
      MoveKeepsExactlyOnce(s, StepCall(s, k), k, StepCall(s, k).calls[k]);
    } else {
      SameAccountsKeepExactlyOnce(s, StepCall(s, k));
    }
  }

  lemma PlainProgress(s: State, k: nat)
    requires SafetyInv(s) && Enabled(s, Step(k)) && IsPlain(s, k)
    ensures var c, c' := s.calls[k], StepCall(s, k).calls[k];
            && StepCall(s, k).calls == s.calls[k := c'] && StepCall(s, k).channels == s.channels
            && Progress(c') == Progress(c)
            && (Progress(c) > 0 ==> HasFrame(c) && HasFrame(c') && c'.frame == c.frame)
  {
  }

  lemma NextKeepsExactlyOnce(s: State, a: Action)
    requires SafetyInv(s) && ExactlyOnce(s) && Enabled(s, a)
    ensures ExactlyOnce(Next(s, a))
  {
    var s' := Next(s, a);
    match a
    case Subscribe(filters) =>
      if s.closed {
        SameAccountsKeepExactlyOnce(s, s');
      } else {
        SubscribeKeepsExactlyOnce(s, filters);
      }
    case Receive(c) =>
      ReceiveSameAccounts(s.channels[c]);
      SameAccountsKeepExactlyOnce(s, s');
    case Step(k) => StepKeepsExactlyOnce(s, k);
    case _ => SameAccountsKeepExactlyOnce(s, s');
  }

  // ---------- Provenance ----------

  lemma MoveKeepsFrames(s: State, s': State, k: nat, c: Call)
    requires FramesInv(s) && k < |s.calls|
    requires s'.calls == s.calls[k := c] && |s'.lookups| == |s.lookups|
    requires forall j :: 0 <= j < |s.lookups| && j != k ==> s'.lookups[j] == s.lookups[j]
    requires s'.responses == s.responses && s'.channels == s.channels
    requires Provenance(s', k)
    requires HasFrame(s.calls[k]) ==> HasFrame(c) && c.frame == s.calls[k].frame
    ensures FramesInv(s')
  {
    forall j | 0 <= j < |s'.calls| ensures Provenance(s', j) {
      assert Provenance(s, j);
    }
    ItemsStay(s, s', k, c);
  }

  lemma ItemsStay(s: State, s': State, k: nat, c: Call)
    requires k < |s.calls| && s'.calls == s.calls[k := c]
    requires HasFrame(s.calls[k]) ==> HasFrame(c) && c.frame == s.calls[k].frame
    ensures forall items :: ItemsFromCalls(s, items) ==> ItemsFromCalls(s', items)
  {
    forall items | ItemsFromCalls(s, items) ensures ItemsFromCalls(s', items) {
      forall i | 0 <= i < |items| ensures FromItsCall(s', items[i]) {
        assert FromItsCall(s, items[i]);
      }
    }
  }

  lemma PlainStepKeepsFrames(s: State, k: nat)
    requires SafetyInv(s) && FramesInv(s) && Enabled(s, Step(k)) && IsPlain(s, k)
    ensures FramesInv(StepCall(s, k))
  {
    var s' := StepCall(s, k);
    assert Provenance(s, k);
    PlainStepMoves(s, k);
    PlainTables(s, k);
    if s.calls[k].Looking? {
      LookUpProvenance(s, k);
    } else if s.calls[k].LookedUp? {
      SynthesisProvenance(s, k);
    } else {
      LaterProvenance(s, k);
    }
    MoveKeepsFrames(s, s', k, s'.calls[k]);
  }

  lemma PlainTables(s: State, k: nat)
    requires InRange(s) && Enabled(s, Step(k)) && IsPlain(s, k)
    ensures var s' := StepCall(s, k);
            && s'.responses == s.responses && |s'.lookups| == |s.lookups|
            && forall j :: 0 <= j < |s.lookups| && j != k ==> s'.lookups[j] == s.lookups[j]
  {
  }

  lemma LookUpProvenance(s: State, k: nat)
    requires InRange(s) && k < |s.calls| && s.calls[k].Looking?
    requires WellFormedResponses(s.responses) && Provenance(s, k)
    ensures Provenance(StepCall(s, k), k)
  {
  }

  lemma SynthesisProvenance(s: State, k: nat)
    requires InRange(s) && k < |s.calls| && s.calls[k].LookedUp? && Provenance(s, k)
    ensures Provenance(StepCall(s, k), k)
  {
  }

  lemma LaterProvenance(s: State, k: nat)
    requires InRange(s) && Enabled(s, Step(k)) && IsPlain(s, k) && !s.calls[k].Looking? && !s.calls[k].LookedUp?
    requires Provenance(s, k)
    ensures Provenance(StepCall(s, k), k)
    ensures var c := StepCall(s, k).calls[k]; HasFrame(s.calls[k]) ==> HasFrame(c) && c.frame == s.calls[k].frame
  {
  }

  /** Same calls and lookups; in every channel at most one item was added, by its own call. */
  lemma ChannelsKeepFrames(s: State, s': State)
    requires FramesInv(s)
    requires s'.calls == s.calls && s'.lookups == s.lookups && WellFormedResponses(s'.responses)
    requires |s'.channels| >= |s.channels|
    requires forall c :: 0 <= c < |s.channels| ==> SameAccounts(s.channels[c], s'.channels[c])
    requires forall c :: |s.channels| <= c < |s'.channels| ==> s'.channels[c].Entered() == [] == s'.channels[c].refused
    ensures FramesInv(s')
  {
    forall k | 0 <= k < |s'.calls| ensures Provenance(s', k) {
      assert Provenance(s, k);
    }
    forall c | 0 <= c < |s'.channels|
      ensures ItemsFromCalls(s', s'.channels[c].Entered()) && ItemsFromCalls(s', s'.channels[c].refused)
    {
      if c < |s.channels| {
        assert SameAccounts(s.channels[c], s'.channels[c]);
        SameCallsSameItems(s, s', s.channels[c].Entered());
        SameCallsSameItems(s, s', s.channels[c].refused);
      }
    }
  }

  lemma SameCallsSameItems(s: State, s': State, items: seq<Item>)
    requires ItemsFromCalls(s, items) && s'.calls == s.calls
    ensures ItemsFromCalls(s', items)
  {
    forall i | 0 <= i < |items| ensures FromItsCall(s', items[i]) {
      assert FromItsCall(s, items[i]);
    }
  }

  lemma NewCallKeepsFrames(s: State, c: Call)
    requires FramesInv(s) && !HasFrame(c) && !c.LookedUp?
    ensures FramesInv(NewCall(s, c))
  {
    var s' := NewCall(s, c);
    forall k | 0 <= k < |s'.calls| ensures Provenance(s', k) {
      if k < |s.calls| {
        assert Provenance(s, k);
      }
    }
    forall items | ItemsFromCalls(s, items) ensures ItemsFromCalls(s', items) {
      forall i | 0 <= i < |items| ensures FromItsCall(s', items[i]) {
        assert FromItsCall(s, items[i]);
      }
    }
  }

  lemma OfferKeepsFrames(s: State, k: nat)
    requires SafetyInv(s) && FramesInv(s)
    requires k < |s.calls| && s.calls[k].Offering? && s.calls[k].next < |s.subs|
    ensures FramesInv(Offer(s, k, s.calls[k].frame, s.calls[k].next))
  {
    var f, at := s.calls[k].frame, s.calls[k].next;
    var s' := Offer(s, k, f, at);
    assert s.subs[at] == at && Reads(s.calls[k]) && !s.channels[at].closed;
    assert Provenance(s, k);
    var moved := SetCall(s, k, s'.calls[k]);
    MoveKeepsFrames(s, moved, k, s'.calls[k]);
    AddItemKeepsFrames(moved, s', k, at);
  }

  /** Adding call k's own item to one channel. */
  lemma AddItemKeepsFrames(s: State, s': State, k: nat, at: nat)
    requires FramesInv(s) && k < |s.calls| && HasFrame(s.calls[k]) && at < |s.channels|
    requires s'.calls == s.calls && s'.lookups == s.lookups && s'.responses == s.responses
    requires |s'.channels| == |s.channels|
    requires forall c :: 0 <= c < |s.channels| && c != at ==> s'.channels[c] == s.channels[c]
    requires var ch, ch', x := s.channels[at], s'.channels[at], Item(k, s.calls[k].frame);
             ch' == ch || ch' == ch.(queue := ch.queue + [x]) || ch' == ch.(refused := ch.refused + [x])
    ensures FramesInv(s')
  {
    forall j | 0 <= j < |s'.calls| ensures Provenance(s', j) {
      assert Provenance(s, j);
    }
    forall c | 0 <= c < |s'.channels|
      ensures ItemsFromCalls(s', s'.channels[c].Entered()) && ItemsFromCalls(s', s'.channels[c].refused)
    {
      SameCallsSameItems(s, s', s.channels[c].Entered());
      SameCallsSameItems(s, s', s.channels[c].refused);
      var ch, x := s.channels[c], Item(k, s.calls[k].frame);
      assert ch.received + (ch.queue + [x]) == ch.Entered() + [x];
      assert FromItsCall(s', x);
    }
  }

  lemma CloseStepKeepsFrames(s: State, k: nat)
    requires SafetyInv(s) && FramesInv(s) && Enabled(s, Step(k)) && (s.calls[k].AboutToClose? || s.calls[k].Closing?)
    ensures FramesInv(StepCall(s, k))
  {
    var s' := StepCall(s, k);
    assert Provenance(s, k);
    var moved := SetCall(s, k, s'.calls[k]);
    MoveKeepsFrames(s, moved, k, s'.calls[k]);
    ChannelsKeepFrames(moved, s');
  }

  lemma NextKeepsFrames(s: State, a: Action)
    requires SafetyInv(s) && FramesInv(s) && Enabled(s, a)
    ensures FramesInv(Next(s, a))
  {
    var s' := Next(s, a);
    match a
    case Publish(id, data, ct) =>
      RegisterKeepsWellFormed(s.responses, id, data, RegisteredType(ct));
      ChannelsKeepFrames(s, s');
    case Subscribe(_) => ChannelsKeepFrames(s, s');
    case Receive(c) =>
      ReceiveSameAccounts(s.channels[c]);
      ChannelsKeepFrames(s, s');
    case StartSend(id) => NewCallKeepsFrames(s, if id > MAX_ID then Failed(IdOutOfRange) else Looking(id));
    case StartClose => NewCallKeepsFrames(s, AboutToClose);
    case StartDrain => NewCallKeepsFrames(s, Draining);
    case TimeOut(k) =>
      assert Provenance(s, k);
      MoveKeepsFrames(s, s', k, Sampling(0, 0));
    case Step(k) =>
      if IsPlain(s, k) {
        PlainStepKeepsFrames(s, k);
      } else if s.calls[k].Offering? {
        OfferKeepsFrames(s, k);
      } else {
        CloseStepKeepsFrames(s, k);
      }
  }

  // ---------- Whole runs ----------

  ghost predicate Inv(s: State) {
    SafetyInv(s) && ExactlyOnce(s) && FramesInv(s)
  }

  lemma InitialInv()
    ensures Inv(INITIAL)
  {
  }

  /** Every state of every run keeps all invariants. */
  lemma {:induction false} RunKeepsInv(states: seq<State>, actions: seq<Action>, i: nat)
    requires IsRun(states, actions) && i < |states|
    ensures Inv(states[i])
  {
    if i == 0 {
      InitialInv();
    } else {
      RunKeepsInv(states, actions, i - 1);
      var s, a := states[i - 1], actions[i - 1];
      NextKeepsSafety(s, a);
      NextKeepsExactlyOnce(s, a);
      NextKeepsFrames(s, a);
      assert states[i] == Next(s, a);
    }
  }

  /** Bus safety: no panic, closed means no subscribers, and queues never exceed their size. */
  lemma BusIsSafe(states: seq<State>, actions: seq<Action>, i: nat)
    requires IsRun(states, actions) && i < |states|
    ensures var s := states[i];
            && !s.panicked
            && (s.closed && s.writer.None? ==> s.subs == [])
            && (forall c :: 0 <= c < |s.channels| ==> |s.channels[c].queue| <= QUEUE_SIZE)
  {
    RunKeepsInv(states, actions, i);
  }

  /**
   * Each call's frame enters a subscriber's channel at most once, and only if the filters match; a call that has
   * returned its frame has, in every subscription it covered with matching filters, exactly one account, enqueued or
   * refused.
   */
  lemma OneFramePerSubscriber(states: seq<State>, actions: seq<Action>, i: nat, k: nat, c: nat)
    requires IsRun(states, actions) && i < |states| && k < |states[i].calls| && c < |states[i].channels|
    ensures var s := states[i];
            var ch := s.channels[c];
            && CountCall(ch.Entered(), k) + CountCall(ch.refused, k) <= 1
            && (CountCall(ch.Entered(), k) > 0 ==> HasFrame(s.calls[k]) && MatchesAny(ch.filters, s.calls[k].frame))
            && (s.calls[k].Done? ==>
                  CountCall(ch.Entered(), k) + CountCall(ch.refused, k) ==
                  if c < s.calls[k].covered && MatchesAny(ch.filters, s.calls[k].frame) then 1 else 0)
  {
    RunKeepsInv(states, actions, i);
    var s := states[i];
    assert Times(s.channels[c], k) == Expected(CallAt(s, k), s.channels[c], c);
  }

  /**
   * Provenance: every frame in a channel, and every frame a call returns, was synthesised from the response registered
   * for its identifier when the call looked it up; it is well formed, and fully valid unless a diagnostic identifier
   * was registered with another checksum type than the classic one.
   */
  lemma FrameOrigin(states: seq<State>, actions: seq<Action>, i: nat, k: nat)
    requires IsRun(states, actions) && i < |states| && k < |states[i].calls| && HasFrame(states[i].calls[k])
    ensures var s := states[i];
            var f := s.calls[k].frame;
            && |s.lookups| == |s.calls| && s.lookups[k].Some?
            && var l := s.lookups[k].value;
            && Yields(l.responses, l.id, f)
            && f.id == l.id <= MAX_ID && 1 <= |f.data| <= MAX_DATA_LEN
            && f.checksum == Checksum(Pid(f.id), f.data, f.checksumType)
            && (ValidateFrame(f).Ok? <==> (IsDiagnosticId(f.id) ==> l.responses[f.id].checksumType == CLASSIC))
  {
    RunKeepsInv(states, actions, i);
    var s := states[i];
    assert Provenance(s, k);
    var l := s.lookups[k].value;
    YieldedFrameIsValid(l.responses, l.id, s.calls[k].frame);
  }

  lemma ItemOrigin(states: seq<State>, actions: seq<Action>, i: nat, c: nat, n: nat)
    requires IsRun(states, actions) && i < |states| && c < |states[i].channels|
    requires n < |states[i].channels[c].Entered()|
    ensures FromItsCall(states[i], states[i].channels[c].Entered()[n])
  {
    RunKeepsInv(states, actions, i);
  }

  /** The lookup a call remembers is the response table at the moment of its lookup step, and it never changes after. */
  lemma LookupIsRecorded(s: State, a: Action, k: nat)
    requires SafetyInv(s) && FramesInv(s) && Enabled(s, a) && k < |s.calls|
    ensures var s' := Next(s, a);
            && (s'.lookups[k] != s.lookups[k] ==>
                  a == Step(k) && s.calls[k].Looking? && !s.closed &&
                  s'.lookups[k] == Some(Lookup(s.calls[k].id, s.responses)))
            && (HasFrame(s.calls[k]) || s.calls[k].LookedUp? ==> s'.lookups[k] == s.lookups[k])
  {
  }

  /** Call k looks up in this step, on an open bus, and remembers the table of this moment. */
  predicate LooksUp(s: State, a: Action, k: nat, l: Option<Lookup>) {
    && k < |s.calls| && a == Step(k) && s.calls[k].Looking? && !s.closed
    && l == Some(Lookup(s.calls[k].id, s.responses))
  }

  /** What is remembered after a step was remembered before it or is looked up in it. */
  predicate Remembered(s: State, a: Action, s': State, k: nat) {
    k < |s'.lookups| && s'.lookups[k].Some? ==>
      (k < |s.lookups| && s'.lookups[k] == s.lookups[k]) || LooksUp(s, a, k, s'.lookups[k])
  }

  lemma StepRemembers(states: seq<State>, actions: seq<Action>, i: nat, k: nat)
    requires IsRun(states, actions) && i < |actions|
    ensures Remembered(states[i], actions[i], states[i + 1], k)
  {
    var s, a := states[i], actions[i];
    RunKeepsInv(states, actions, i);
    assert states[i + 1] == Next(s, a);
    if k < |Next(s, a).lookups| && Next(s, a).lookups[k].Some? {
      NewCallsHaveNotLooked(s, a, k);
      LookupIsRecorded(s, a, k);
    }
  }

  lemma {:induction false} SomeStepLooksUp(states: seq<State>, actions: seq<Action>, i: nat, k: nat) returns (j: nat)
    requires |states| == |actions| + 1 && i < |states| && states[0].lookups == []
    requires forall n :: 0 <= n < |actions| ==> Remembered(states[n], actions[n], states[n + 1], k)
    requires k < |states[i].lookups| && states[i].lookups[k].Some?
    ensures j < i && LooksUp(states[j], actions[j], k, states[i].lookups[k])
  {
    j := i - 1;
    assert Remembered(states[j], actions[j], states[j + 1], k);
    if !LooksUp(states[j], actions[j], k, states[i].lookups[k]) {
      j := SomeStepLooksUp(states, actions, j, k);
    }
  }

  /** The lookup a call remembers was taken at one of its own steps, on an open bus, from the table of that moment. */
  lemma LookupPoint(states: seq<State>, actions: seq<Action>, i: nat, k: nat) returns (j: nat)
    requires IsRun(states, actions) && i < |states| && k < |states[i].lookups| && states[i].lookups[k].Some?
    ensures j < i && LooksUp(states[j], actions[j], k, states[i].lookups[k])
  {
    forall n | 0 <= n < |actions| ensures Remembered(states[n], actions[n], states[n + 1], k) {
      StepRemembers(states, actions, n, k);
    }
    j := SomeStepLooksUp(states, actions, i, k);
  }

  lemma NewCallsHaveNotLooked(s: State, a: Action, k: nat)
    requires SafetyInv(s) && Enabled(s, a) && k < |Next(s, a).lookups| && Next(s, a).lookups[k].Some?
    ensures k < |s.calls|
  {
  }

  /** The frame was made of what was registered for its identifier at that step. */
  lemma FrameProvenance(states: seq<State>, actions: seq<Action>, i: nat, k: nat) returns (j: nat)
    requires IsRun(states, actions) && i < |states| && k < |states[i].calls| && HasFrame(states[i].calls[k])
    ensures j < i && actions[j] == Step(k) && k < |states[j].calls| && states[j].calls[k].Looking? && !states[j].closed
    ensures Yields(states[j].responses, states[j].calls[k].id, states[i].calls[k].frame)
  {
    FrameOrigin(states, actions, i, k);
    j := LookupPoint(states, actions, i, k);
  }

  /** The diagnostic identifiers are registered with the classic checksum only. */
  predicate ClassicDiagnostics(actions: seq<Action>) {
    forall j :: 0 <= j < |actions| && actions[j].Publish? && IsDiagnosticId(actions[j].id) ==>
      RegisteredType(actions[j].checksumType) == CLASSIC
  }

  predicate ClassicTable(responses: map<uint8, Response>) {
    forall id: uint8 :: id in responses && IsDiagnosticId(id) ==> responses[id].checksumType == CLASSIC
  }

  lemma TableStaysClassic(s: State, a: Action)
    requires SafetyInv(s) && Enabled(s, a) && ClassicTable(s.responses)
    requires a.Publish? && IsDiagnosticId(a.id) ==> RegisteredType(a.checksumType) == CLASSIC
    ensures ClassicTable(Next(s, a).responses)
  {
    if !a.Publish? {
      TableOnlyChangesByPublish(s, a);
    }
  }

  lemma TableOnlyChangesByPublish(s: State, a: Action)
    requires SafetyInv(s) && Enabled(s, a) && !a.Publish?
    ensures Next(s, a).responses == s.responses
  {
  }

  lemma {:induction false} TablesAreClassic(states: seq<State>, actions: seq<Action>, i: nat)
    requires IsRun(states, actions) && i < |states| && ClassicDiagnostics(actions)
    ensures ClassicTable(states[i].responses)
  {
    if i > 0 {
      TablesAreClassic(states, actions, i - 1);
      RunKeepsInv(states, actions, i - 1);
      TableStaysClassic(states[i - 1], actions[i - 1]);
      assert states[i] == Next(states[i - 1], actions[i - 1]);
    }
  }

  /** Then every frame of every call, in every state of every run, passes the full validation. */
  lemma FramesAreValid(states: seq<State>, actions: seq<Action>, i: nat, k: nat)
    requires IsRun(states, actions) && i < |states| && ClassicDiagnostics(actions)
    requires k < |states[i].calls| && HasFrame(states[i].calls[k])
    ensures ValidateFrame(states[i].calls[k].frame).Ok?
  {
    var j := FrameProvenance(states, actions, i, k);
    var f := states[i].calls[k].frame;
    FrameOrigin(states, actions, i, k);
    TablesAreClassic(states, actions, j);
    RunKeepsInv(states, actions, j);
    YieldedFrameIsValid(states[j].responses, states[j].calls[k].id, f);
  }

  /** And so does every frame that ever entered a queue. */
  lemma QueuedFramesAreValid(states: seq<State>, actions: seq<Action>, i: nat, c: nat, n: nat)
    requires IsRun(states, actions) && i < |states| && ClassicDiagnostics(actions)
    requires c < |states[i].channels| && n < |states[i].channels[c].Entered()|
    ensures ValidateFrame(states[i].channels[c].Entered()[n].frame).Ok?
  {
    ItemOrigin(states, actions, i, c, n);
    FramesAreValid(states, actions, i, states[i].channels[c].Entered()[n].call);
  }

  // ---------- After Close ----------

  predicate CloseCompleted(s: State) {
    s.closed && s.writer.None?
  }

  lemma NothingEntersAfterClose(s: State, a: Action)
    requires SafetyInv(s) && CloseCompleted(s) && Enabled(s, a)
    ensures var s' := Next(s, a);
            && CloseCompleted(s') && |s'.channels| == |s.channels|
            && forall c :: 0 <= c < |s.channels| ==> s'.channels[c].Entered() == s.channels[c].Entered()
  {
    if a.Receive? {
      ReceiveSameAccounts(s.channels[a.channel]);
    }
  }

  /** Once Close has completed nothing enters any queue, for the rest of the run. */
  lemma {:induction false} ClosedForGood(states: seq<State>, actions: seq<Action>, i: nat, j: nat)
    requires IsRun(states, actions) && i <= j < |states| && CloseCompleted(states[i])
    ensures CloseCompleted(states[j]) && |states[j].channels| == |states[i].channels|
    ensures forall c :: 0 <= c < |states[i].channels| ==>
              states[j].channels[c].Entered() == states[i].channels[c].Entered()
    decreases j
  {
    if i < j {
      ClosedForGood(states, actions, i, j - 1);
      RunKeepsInv(states, actions, j - 1);
      NothingEntersAfterClose(states[j - 1], actions[j - 1]);
      assert states[j] == Next(states[j - 1], actions[j - 1]);
    }
  }
}
