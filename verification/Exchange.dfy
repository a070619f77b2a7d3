/** The diagnostic exchange as the virtual bus sees it, with other nodes at work between its three calls. */
module Exchange {
  import opened Options
  import opened Bytes
  import opened Lin
  import BusModel
  import Diagnostic
  import VirtualBus

  /** A bus as its users see it: registrations, subscriptions with their queues, and the headers sent so far. */
  datatype BusView = BusView(
    table: map<uint8, BusModel.Response>, closed: bool, subscribers: seq<VirtualBus.Subscriber>, headers: seq<uint8>)

  ghost function ViewOf(bus: VirtualBus.Bus): BusView
    reads bus, bus.subs
  {
    BusView(bus.table, bus.closed, bus.Subscribers(), bus.headers)
  }

  // ---------- One call at a time ----------

  function PublishFailure(b: BusView, id: uint8, data: Option<seq<byte>>): Option<Error> {
    var check := BusModel.PublishCheck(id, data);
    if check.Some? then check else if b.closed then Some(Closed) else None
  }

  function Published(b: BusView, id: uint8, data: Option<seq<byte>>, ct: ChecksumType): BusView {
    if PublishFailure(b, id, data).Some? then b else b.(table := BusModel.Register(b.table, id, data, ct))
  }

  function Reply(b: BusView, id: uint8): Result<Frame> {
    if id > MAX_ID then Err(IdOutOfRange)
    else if b.closed then Err(Closed)
    else if id !in b.table then Err(Error.NoResponse)
    else Ok(BusModel.ResponseFrame(id, b.table[id]))
  }

  function Sent(b: BusView, id: uint8): BusView {
    b.(headers := b.headers + [id],
       subscribers := match Reply(b, id)
                      case Ok(f) => VirtualBus.OfferedAll(b.subscribers, f)
                      case Err(_) => b.subscribers)
  }

  /** What others may do with the bus between two calls of a node. */
  datatype Op =
    | Closing
    | Publishing(id: uint8, data: Option<seq<byte>>, ct: ChecksumType)
    | Heading(id: uint8)
    | Subscribing(filters: seq<Filter>)
    | Receiving(at: nat)

  /** A consumer takes the oldest frame, if there is one. */
  function Received(s: VirtualBus.Subscriber): VirtualBus.Subscriber {
    if |s.queue| == 0 then s else s.(queue := s.queue[1..])
  }

  function Performed(b: BusView, op: Op): BusView {
    match op
    case Closing => b.(closed := true, subscribers := [])
    case Publishing(id, data, ct) => Published(b, id, data, BusModel.RegisteredType(ct))
    case Heading(id) => Sent(b, id)
    case Subscribing(filters) =>
      if b.closed then b else b.(subscribers := b.subscribers + [VirtualBus.Subscriber(filters, [])])
    case Receiving(at) =>
      if at < |b.subscribers| then b.(subscribers := b.subscribers[at := Received(b.subscribers[at])]) else b
  }

  function PerformedAll(b: BusView, ops: seq<Op>): BusView {
    if |ops| == 0 then b else Performed(PerformedAll(b, ops[..|ops| - 1]), ops[|ops| - 1])
  }

  method Perform(bus: VirtualBus.Bus, ops: seq<Op>)
    requires bus.Valid()
    modifies bus, bus.subs
    ensures bus.Valid() && ViewOf(bus) == PerformedAll(old(ViewOf(bus)), ops)
    ensures forall i :: 0 <= i < |bus.subs| ==> bus.subs[i] in old(bus.subs) || fresh(bus.subs[i])
  {
    ghost var start := ViewOf(bus);
    for i := 0 to |ops|
      invariant bus.Valid() && ViewOf(bus) == PerformedAll(start, ops[..i])
      invariant forall k :: 0 <= k < |bus.subs| ==> bus.subs[k] in old(bus.subs) || fresh(bus.subs[k])
    {
      assert ops[..i + 1][..i] == ops[..i];
      PerformOne(bus, ops[i]);
    }
    assert ops[..|ops|] == ops;
  }

  method PerformOne(bus: VirtualBus.Bus, op: Op)
    requires bus.Valid()
    modifies bus, bus.subs
    ensures bus.Valid() && ViewOf(bus) == Performed(old(ViewOf(bus)), op)
    ensures forall i :: 0 <= i < |bus.subs| ==> bus.subs[i] in old(bus.subs) || fresh(bus.subs[i])
  {
    match op
    case Closing => bus.Close();
    case Publishing(id, data, ct) => PublishBytes(bus, id, data, ct);
    case Heading(id) =>
      var _ := Send(bus, id);
    case Subscribing(filters) => AddSubscription(bus, filters);
    case Receiving(at) => Receive(bus, at);
  }

  method PublishBytes(bus: VirtualBus.Bus, id: uint8, data: Option<seq<byte>>, ct: ChecksumType)
    requires bus.Valid()
    modifies bus, bus.subs
    ensures bus.Valid() && bus.subs == old(bus.subs)
    ensures ViewOf(bus) == Published(old(ViewOf(bus)), id, data, BusModel.RegisteredType(ct))
  {
    var bytes: array?<byte> := null;
    if data.Some? {
      bytes := new byte[|data.value|](i requires 0 <= i < |data.value| => data.value[i]);
      assert bytes[..] == data.value;
    }
    var _ := bus.PublishFrame(id, bytes, ct);
  }

  method AddSubscription(bus: VirtualBus.Bus, filters: seq<Filter>)
    requires bus.Valid()
    modifies bus, bus.subs
    ensures bus.Valid() && ViewOf(bus) == Performed(old(ViewOf(bus)), Subscribing(filters))
    ensures forall i :: 0 <= i < |bus.subs| ==> bus.subs[i] in old(bus.subs) || fresh(bus.subs[i])
  {
    var _ := bus.Subscribe(filters);
    assert bus.Subscribers() == Performed(old(ViewOf(bus)), Subscribing(filters)).subscribers;
  }

  method Receive(bus: VirtualBus.Bus, at: nat)
    requires bus.Valid()
    modifies bus, bus.subs
    ensures bus.Valid() && ViewOf(bus) == Performed(old(ViewOf(bus)), Receiving(at)) && bus.subs == old(bus.subs)
  {
    if at < |bus.subs| && |bus.subs[at].queue| > 0 {
      bus.subs[at].queue := bus.subs[at].queue[1..];
    }
    assert bus.Subscribers() == Performed(old(ViewOf(bus)), Receiving(at)).subscribers;
  }

  /** The bus's own calls, told by their effect on the view. */
  method PublishRequest(bus: VirtualBus.Bus, data: array<byte>) returns (error: Option<Error>)
    requires bus.Valid() && data !in bus.stored
    modifies bus, bus.subs
    ensures bus.Valid() && bus.subs == old(bus.subs)
    ensures error == PublishFailure(old(ViewOf(bus)), DIAG_REQUEST_ID, Some(data[..]))
    ensures ViewOf(bus) == Published(old(ViewOf(bus)), DIAG_REQUEST_ID, Some(data[..]), CLASSIC)
  {
    error := bus.PublishFrame(DIAG_REQUEST_ID, data, CLASSIC);
  }

  method Send(bus: VirtualBus.Bus, id: uint8) returns (r: Result<Frame>)
    requires bus.Valid()
    modifies bus, bus.subs
    ensures bus.Valid() && bus.subs == old(bus.subs)
    ensures r == Reply(old(ViewOf(bus)), id) && ViewOf(bus) == Sent(old(ViewOf(bus)), id)
  {
    var frame, _ := bus.SendHeader(id);
    r := frame;
  }

  // ---------- The exchange ----------

  /** The answer, the headers the exchange sent, and the bus afterwards. */
  datatype Dialogue = Dialogue(result: Result<Diagnostic.SlaveResponse>, headers: seq<uint8>, bus: BusView)

  /** The second half: with the request out, the others act once more and the answer is fetched. */
  function Answered(b: BusView, second: seq<Op>): Dialogue {
    var told := PerformedAll(b, second);
    var result := match Reply(told, DIAG_RESPONSE_ID)
                  case Err(e) => Err(e)
                  case Ok(g) => Diagnostic.ParseResponse(g);
    Dialogue(result, [DIAG_RESPONSE_ID], Sent(told, DIAG_RESPONSE_ID))
  }

  /** Publish the payload, send the request header, then the response header; the others act before each header. */
  function Conversed(b: BusView, payload: seq<byte>, first: seq<Op>, second: seq<Op>): Dialogue {
    var data := Some(payload);
    var failure := PublishFailure(b, DIAG_REQUEST_ID, data);
    if failure.Some? then
      Dialogue(Err(failure.value), [], b)
    else
      var asked := PerformedAll(Published(b, DIAG_REQUEST_ID, data, CLASSIC), first);
      match Reply(asked, DIAG_REQUEST_ID)
      case Err(e) => Dialogue(Err(e), [DIAG_REQUEST_ID], Sent(asked, DIAG_REQUEST_ID))
      case Ok(_) =>
        var d := Answered(Sent(asked, DIAG_REQUEST_ID), second);
        d.(headers := [DIAG_REQUEST_ID] + d.headers)
  }

  function Exchanged(b: BusView, req: Diagnostic.Request, first: seq<Op>, second: seq<Op>): Dialogue {
    match Diagnostic.RequestFrame(req)
    case Err(e) => Dialogue(Err(e), [], b)
    case Ok(f) => Conversed(b, f.data, first, second)
  }

  method FetchAnswer(bus: VirtualBus.Bus, second: seq<Op>) returns (r: Result<Diagnostic.SlaveResponse>)
    requires bus.Valid()
    modifies bus, bus.subs
    ensures bus.Valid()
    ensures forall i :: 0 <= i < |bus.subs| ==> bus.subs[i] in old(bus.subs) || fresh(bus.subs[i])
    ensures var d := Answered(old(ViewOf(bus)), second);
            r == d.result && ViewOf(bus) == d.bus
  {
    Perform(bus, second);
    var answered := Send(bus, DIAG_RESPONSE_ID);
    r := match answered case Err(e) => Err(e) case Ok(g) => Diagnostic.ParseResponse(g);
  }

  /** Publishing a packed request and sending its header. */
  method Ask(bus: VirtualBus.Bus, data: array<byte>, first: seq<Op>) returns (failure: Option<Error>)
    requires bus.Valid() && data !in bus.stored
    modifies bus, bus.subs
    ensures bus.Valid()
    ensures forall i :: 0 <= i < |bus.subs| ==> bus.subs[i] in old(bus.subs) || fresh(bus.subs[i])
    ensures var b := old(ViewOf(bus));
            var payload := Some(old(data[..]));
            var refused := PublishFailure(b, DIAG_REQUEST_ID, payload);
            var asked := PerformedAll(Published(b, DIAG_REQUEST_ID, payload, CLASSIC), first);
            if refused.Some? then failure == refused && ViewOf(bus) == b
            else && ViewOf(bus) == Sent(asked, DIAG_REQUEST_ID)
                 && failure == match Reply(asked, DIAG_REQUEST_ID) case Err(e) => Some(e) case Ok(_) => None
  {
    failure := PublishRequest(bus, data);
    if failure.None? {
      Perform(bus, first);
      var r := Send(bus, DIAG_REQUEST_ID);
      failure := match r case Err(e) => Some(e) case Ok(_) => None;
    }
  }

  method Converse(bus: VirtualBus.Bus, data: array<byte>, first: seq<Op>, second: seq<Op>)
    returns (r: Result<Diagnostic.SlaveResponse>)
    requires bus.Valid() && data !in bus.stored
    modifies bus, bus.subs
    ensures bus.Valid()
    ensures var d := Conversed(old(ViewOf(bus)), old(data[..]), first, second);
            r == d.result && ViewOf(bus) == d.bus
  {
    var failure := Ask(bus, data, first);
    if failure.Some? {
      return Err(failure.value);
    }
    r := FetchAnswer(bus, second);
  }

  // ---------- Headers ----------

  /** The headers others send. */
  function HeadersIn(ops: seq<Op>): seq<uint8> {
    if |ops| == 0 then []
    else HeadersIn(ops[..|ops| - 1]) + (if ops[|ops| - 1].Heading? then [ops[|ops| - 1].id] else [])
  }

  lemma {:induction false} PerformedHeaders(b: BusView, ops: seq<Op>)
    ensures PerformedAll(b, ops).headers == b.headers + HeadersIn(ops)
  {
    if |ops| > 0 {
      PerformedHeaders(b, ops[..|ops| - 1]);
    }
  }

  /** The bus sees the headers of the exchange, each behind those the others sent before it, and no further ones. */
  lemma ExchangeHeaders(b: BusView, req: Diagnostic.Request, first: seq<Op>, second: seq<Op>)
    ensures var d := Exchanged(b, req, first, second);
            d.bus.headers == b.headers
              + (if |d.headers| >= 1 then HeadersIn(first) + [d.headers[0]] else [])
              + (if |d.headers| >= 2 then HeadersIn(second) + [d.headers[1]] else [])
  {
    if Diagnostic.RequestFrame(req).Ok? {
      var data := Some(Diagnostic.RequestFrame(req).value.data);
      var published := Published(b, DIAG_REQUEST_ID, data, CLASSIC);
      PerformedHeaders(published, first);
      PerformedHeaders(Sent(PerformedAll(published, first), DIAG_REQUEST_ID), second);
    }
  }

  // ---------- Undisturbed by others ----------

  /** Registrations on other identifiers. */
  predicate Unrelated(ops: seq<Op>) {
    forall i :: 0 <= i < |ops| ==>
      ops[i].Publishing? && ops[i].id != DIAG_REQUEST_ID && ops[i].id != DIAG_RESPONSE_ID
  }

  /** The diagnostic part of the bus. */
  predicate SameDiagnostics(b: BusView, b': BusView) {
    && b.closed == b'.closed && b.subscribers == b'.subscribers
    && (DIAG_REQUEST_ID in b.table <==> DIAG_REQUEST_ID in b'.table)
    && (DIAG_REQUEST_ID in b.table ==> b.table[DIAG_REQUEST_ID] == b'.table[DIAG_REQUEST_ID])
    && (DIAG_RESPONSE_ID in b.table <==> DIAG_RESPONSE_ID in b'.table)
    && (DIAG_RESPONSE_ID in b.table ==> b.table[DIAG_RESPONSE_ID] == b'.table[DIAG_RESPONSE_ID])
  }

  lemma {:induction false} UnrelatedLeaveDiagnosticsAlone(b: BusView, ops: seq<Op>)
    requires Unrelated(ops)
    ensures SameDiagnostics(b, PerformedAll(b, ops))
  {
    if |ops| > 0 {
      UnrelatedLeaveDiagnosticsAlone(b, ops[..|ops| - 1]);
    }
  }

  /**
   * On an open bus where the slave has registered its answer, every request that fits gets exactly that answer, and the
   * subscribers are offered exactly the request frame and then the response frame, both valid.
   */
  lemma AnswerArrives(
    b: BusView, req: Diagnostic.Request, answer: Diagnostic.SlaveResponse, first: seq<Op>, second: seq<Op>)
    requires !b.closed && Unrelated(first) && Unrelated(second)
    requires |req.data| <= Diagnostic.DIAG_DATA_LEN && |answer.data| <= Diagnostic.DIAG_DATA_LEN
    requires DIAG_RESPONSE_ID in b.table
    requires b.table[DIAG_RESPONSE_ID] == BusModel.Response(Diagnostic.ResponseFrame(answer).value.data, CLASSIC)
    ensures var d := Exchanged(b, req, first, second);
            var asked := Diagnostic.RequestFrame(req).value;
            var answered := Diagnostic.ResponseFrame(answer).value;
            && d.result == Ok(answer) && d.headers == [DIAG_REQUEST_ID, DIAG_RESPONSE_ID]
            && d.bus.subscribers == VirtualBus.OfferedAll(VirtualBus.OfferedAll(b.subscribers, asked), answered)
            && ValidateFrame(asked).Ok? && ValidateFrame(answered).Ok?
            && asked.checksumType == answered.checksumType == CLASSIC
            && Diagnostic.ParseRequest(asked) == Ok(req)
  {
    var f := Diagnostic.RequestFrame(req).value;
    var published := Published(b, f.id, Some(f.data), CLASSIC);
    UnrelatedLeaveDiagnosticsAlone(published, first);
    var asked := PerformedAll(published, first);
    UnrelatedLeaveDiagnosticsAlone(Sent(asked, DIAG_REQUEST_ID), second);
    Diagnostic.MessagesRoundTrip(req, answer);
  }

  /**
   * The response header is sent exactly when the request fits, the bus was open, and until the request header the bus
   * stayed open with some registration on 0x3C; otherwise the exchange fails and at most the request header was sent.
   */
  lemma ResponseIsSolicitedOnlyAfterRequest(b: BusView, req: Diagnostic.Request, first: seq<Op>, second: seq<Op>)
    ensures var d := Exchanged(b, req, first, second);
            && (DIAG_RESPONSE_ID in d.headers <==>
                && |req.data| <= Diagnostic.DIAG_DATA_LEN && !b.closed
                && var asked := PerformedAll(Published(b, DIAG_REQUEST_ID,
                     Some(Diagnostic.Packed(req.nad, req.sid, req.data)), CLASSIC), first);
                   !asked.closed && DIAG_REQUEST_ID in asked.table)
            && (DIAG_RESPONSE_ID in d.headers ==> d.headers == [DIAG_REQUEST_ID, DIAG_RESPONSE_ID])
            && (DIAG_RESPONSE_ID !in d.headers ==>
                d.result.Err? && (d.headers == [] || d.headers == [DIAG_REQUEST_ID]))
            && (d.headers == [] ==> d.bus == b)
  {
  }

  /** Until the request is out: what fails, how, and which headers have been sent then. */
  lemma RequestFailures(b: BusView, req: Diagnostic.Request, first: seq<Op>, second: seq<Op>)
    ensures var d := Exchanged(b, req, first, second);
            && (|req.data| > 5 ==> d == Dialogue(Err(InvalidFrame), [], b))
            && (|req.data| <= 5 && b.closed ==> d == Dialogue(Err(Closed), [], b))
            && (|req.data| <= 5 && !b.closed ==>
                  var asked := AskedOf(b, req, first);
                  && (asked.closed ==> d.result == Err(Closed) && d.headers == [0x3C])
                  && (!asked.closed && 0x3C !in asked.table ==>
                        d.result == Err(Error.NoResponse) && d.headers == [0x3C]))
  {
  }

  /** The bus right before the request header: request registered, the others have acted. */
  function AskedOf(b: BusView, req: Diagnostic.Request, first: seq<Op>): BusView
    requires |req.data| <= 5
  {
    PerformedAll(Published(b, 0x3C, Some(Diagnostic.Packed(req.nad, req.sid, req.data)), CLASSIC), first)
  }

  /** And once it is, the rest decides. */
  lemma RestDecides(b: BusView, req: Diagnostic.Request, first: seq<Op>, second: seq<Op>)
    requires |req.data| <= 5 && !b.closed
    requires var asked := AskedOf(b, req, first); !asked.closed && 0x3C in asked.table
    ensures Exchanged(b, req, first, second).result == Answered(Sent(AskedOf(b, req, first), 0x3C), second).result
  {
  }

  /** The answer is whatever is registered on 0x3D when its header is sent, if it reads as a message. */
  lemma AnswerIsWhatIsRegistered(b: BusView, second: seq<Op>)
    ensures var result, told := Answered(b, second).result, PerformedAll(b, second);
            && (told.closed ==> result == Err(Closed))
            && (!told.closed && 0x3D !in told.table ==> result == Err(Error.NoResponse))
            && (!told.closed && 0x3D in told.table ==> Reads(result, told.table[0x3D].data))
  {
  }

  predicate Reads(result: Result<Diagnostic.SlaveResponse>, data: seq<byte>) {
    if |data| == 8 && 1 <= Val(data[1]) <= 6
    then result == Ok(Diagnostic.SlaveResponse(data[0], data[2], data[3..2 + Val(data[1])]))
    else result == Err(InvalidFrame)
  }

  /** The registration on 0x3C is still the request. */
  predicate StillAsked(asked: BusView, req: Diagnostic.Request)
    requires |req.data| <= Diagnostic.DIAG_DATA_LEN
  {
    && DIAG_REQUEST_ID in asked.table
    && asked.table[DIAG_REQUEST_ID] == BusModel.Response(Diagnostic.Packed(req.nad, req.sid, req.data), CLASSIC)
  }

  /** What goes out as the request is the request exactly when its registration was left alone. */
  lemma RequestGoesOut(asked: BusView, req: Diagnostic.Request)
    requires |req.data| <= Diagnostic.DIAG_DATA_LEN && !asked.closed
    ensures Reply(asked, DIAG_REQUEST_ID) == Ok(Diagnostic.RequestFrame(req).value) <==> StillAsked(asked, req)
  {
  }

  /** Another node can replace it in between: the response is then solicited for a request that never went out. */
  lemma RequestCanBeReplaced(b: BusView, req: Diagnostic.Request, other: Diagnostic.Request)
    requires !b.closed && |req.data| <= Diagnostic.DIAG_DATA_LEN && |other.data| <= Diagnostic.DIAG_DATA_LEN
    ensures var f := Diagnostic.RequestFrame(other).value;
            var first := [Publishing(DIAG_REQUEST_ID, Some(f.data), CLASSIC)];
            var payload := Some(Diagnostic.Packed(req.nad, req.sid, req.data));
            && Exchanged(b, req, first, []).headers == [DIAG_REQUEST_ID, DIAG_RESPONSE_ID]
            && Reply(PerformedAll(Published(b, DIAG_REQUEST_ID, payload, CLASSIC), first), DIAG_REQUEST_ID) == Ok(f)
  {
    var data := Some(Diagnostic.RequestFrame(req).value.data);
    var op := Publishing(DIAG_REQUEST_ID, Some(Diagnostic.RequestFrame(other).value.data), CLASSIC);
    var published := Published(b, DIAG_REQUEST_ID, data, CLASSIC);
    assert [op][..0] == [];
    assert PerformedAll(published, [op]) == Performed(published, op);
  }
}
