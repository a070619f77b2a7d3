/** The virtual bus as an object, one call at a time: what it stores, copies, counts and hands out. */
module VirtualBus {
  import opened Options
  import opened Bytes
  import opened Lin
  import opened BusModel
  import BusConservation

  // ---------- What one broadcast does ----------

  /** A subscriber as the broadcast sees it. */
  datatype Subscriber = Subscriber(filters: seq<Filter>, queue: seq<Frame>)

  predicate Accepts(s: Subscriber, f: Frame) {
    MatchesAny(s.filters, f) && |s.queue| < QUEUE_SIZE
  }

  predicate Refuses(s: Subscriber, f: Frame) {
    MatchesAny(s.filters, f) && |s.queue| >= QUEUE_SIZE
  }

  function Offered(s: Subscriber, f: Frame): Subscriber {
    if Accepts(s, f) then s.(queue := s.queue + [f]) else s
  }

  function OfferedAll(subs: seq<Subscriber>, f: Frame): seq<Subscriber> {
    seq(|subs|, i requires 0 <= i < |subs| => Offered(subs[i], f))
  }

  function AfterOffer(c: Counters, s: Subscriber, f: Frame): Counters {
    if Accepts(s, f) then
      c.(delivered := Bump(c.delivered, 1), bytesDelivered := Bump(c.bytesDelivered, |f.data|))
    else if Refuses(s, f) then
      c.(dropped := Bump(c.dropped, 1))
    else
      c
  }

  function AfterOffers(c: Counters, subs: seq<Subscriber>, f: Frame): Counters {
    if |subs| == 0 then c else AfterOffer(AfterOffers(c, subs[..|subs| - 1], f), subs[|subs| - 1], f)
  }

  function AfterBroadcast(c: Counters, subs: seq<Subscriber>, f: Frame): Counters {
    AfterOffers(c.(written := Bump(c.written, 1), bytesWritten := Bump(c.bytesWritten, |f.data|)), subs, f)
  }

  /** Calls on a closed bus and headers without a response are counted as errors, refused arguments are not. */
  function AfterError(c: Counters, error: Option<Error>): Counters {
    if error == Some(Closed) || error == Some(Error.NoResponse) then c.(errors := Bump(c.errors, 1)) else c
  }

  function Accepting(subs: seq<Subscriber>, f: Frame): nat {
    if |subs| == 0 then 0
    else Accepting(subs[..|subs| - 1], f) + (if Accepts(subs[|subs| - 1], f) then 1 else 0)
  }

  function Refusing(subs: seq<Subscriber>, f: Frame): nat {
    if |subs| == 0 then 0
    else Refusing(subs[..|subs| - 1], f) + (if Refuses(subs[|subs| - 1], f) then 1 else 0)
  }

  function QueuedFrames(subs: seq<Subscriber>): nat {
    if |subs| == 0 then 0 else QueuedFrames(subs[..|subs| - 1]) + |subs[|subs| - 1].queue|
  }

  /** A broadcast counts one delivery or drop per matching subscriber. */
  lemma {:induction false} BroadcastCounts(c: Counters, subs: seq<Subscriber>, f: Frame)
    requires c.delivered < WRAP && c.dropped < WRAP && c.bytesDelivered < WRAP
    ensures var c' := AfterOffers(c, subs, f);
            && c'.delivered == (c.delivered + Accepting(subs, f)) % WRAP
            && c'.bytesDelivered == (c.bytesDelivered + |f.data| * Accepting(subs, f)) % WRAP
            && c'.dropped == (c.dropped + Refusing(subs, f)) % WRAP
  {
    if |subs| > 0 {
      var n := |subs| - 1;
      BroadcastCounts(c, subs[..n], f);
      var a := Accepting(subs[..n], f);
      OfferCounts(AfterOffers(c, subs[..n], f), subs[n], f, c.delivered + a, c.bytesDelivered + |f.data| * a,
                  c.dropped + Refusing(subs[..n], f));
      OneMoreTimes(|f.data|, a);
    }
  }

  lemma {:induction false} OffersWriteNothing(c: Counters, subs: seq<Subscriber>, f: Frame)
    ensures var c' := AfterOffers(c, subs, f);
            c'.written == c.written && c'.bytesWritten == c.bytesWritten && c'.errors == c.errors
  {
    if |subs| > 0 {
      OffersWriteNothing(c, subs[..|subs| - 1], f);
    }
  }

  /** One frame and its bytes are counted as written, whoever is listening, and no error. */
  lemma BroadcastWrites(c: Counters, subs: seq<Subscriber>, f: Frame)
    ensures var c' := AfterBroadcast(c, subs, f);
            && c'.written == (c.written + 1) % 0x1_0000_0000_0000_0000
            && c'.bytesWritten == (c.bytesWritten + |f.data|) % 0x1_0000_0000_0000_0000
            && c'.errors == c.errors
  {
    OffersWriteNothing(
      c.(written := Bump(c.written, 1), bytesWritten := Bump(c.bytesWritten, |f.data|)), subs, f);
  }

  /** A closed bus and a missing response count as one error each, everything else as none. */
  lemma ErrorsCounted(c: Counters, error: Option<Error>)
    ensures var c' := AfterError(c, error);
            && c' == c.(errors := c'.errors)
            && (error == Some(Closed) || error == Some(Error.NoResponse) ==>
                  c'.errors == (c.errors + 1) % 0x1_0000_0000_0000_0000)
            && (error != Some(Closed) && error != Some(Error.NoResponse) ==> c'.errors == c.errors)
  {
  }

  lemma OneMoreTimes(m: nat, a: nat)
    ensures m * (a + 1) == m * a + m
  {
  }

  lemma OfferCounts(c: Counters, s: Subscriber, f: Frame, delivered: nat, bytes: nat, dropped: nat)
    requires c.delivered == delivered % WRAP && c.bytesDelivered == bytes % WRAP && c.dropped == dropped % WRAP
    ensures var c' := AfterOffer(c, s, f);
            && c'.delivered == (if Accepts(s, f) then delivered + 1 else delivered) % WRAP
            && c'.bytesDelivered == (if Accepts(s, f) then bytes + |f.data| else bytes) % WRAP
            && c'.dropped == (if Refuses(s, f) then dropped + 1 else dropped) % WRAP
  {
    BumpAfter(delivered, 1);
    BumpAfter(bytes, |f.data|);
    BumpAfter(dropped, 1);
  }

  /** The queues grow by exactly the deliveries. */
  lemma {:induction false} BroadcastGrowth(subs: seq<Subscriber>, f: Frame)
    ensures QueuedFrames(OfferedAll(subs, f)) == QueuedFrames(subs) + Accepting(subs, f)
  {
    if |subs| > 0 {
      var n := |subs| - 1;
      BroadcastGrowth(subs[..n], f);
      assert OfferedAll(subs, f)[..n] == OfferedAll(subs[..n], f);
    }
  }

  lemma BumpAfter(a: nat, n: nat)
    ensures Bump(a % WRAP, n) == (a + n) % WRAP
  {
    BusConservation.AddInside(a, n);
  }

  class Subscription {
    const filters: seq<Filter>
    var queue: seq<Frame>
    var closed: bool

    constructor (filters: seq<Filter>)
      ensures this.filters == filters && queue == [] && !closed
    {
      this.filters := filters;
      queue, closed := [], false;
    }

    function View(): Subscriber
      reads this
    {
      Subscriber(filters, queue)
    }
  }

  function Views(subs: seq<Subscription>): seq<Subscriber>
    reads subs
  {
    seq(|subs|, i requires 0 <= i < |subs| reads subs => subs[i].View())
  }

  /** Halfway through a broadcast: the first n subscribers have been offered the frame. */
  ghost predicate OfferedFirst(subs: seq<Subscription>, before: seq<Subscriber>, f: Frame, n: nat)
    reads subs
  {
    |subs| == |before| &&
    forall i :: 0 <= i < |subs| ==> subs[i].View() == if i < n then Offered(before[i], f) else before[i]
  }

  datatype Entry = Entry(data: array<byte>, checksumType: ChecksumType)

  class Bus {
    var responses: map<uint8, Entry>
    var subs: seq<Subscription>
    var closed: bool
    var counters: Counters
    ghost var table: map<uint8, Response>  // the registered responses by value
    ghost var stored: set<array<byte>>     // the arrays that hold them
    ghost var exposed: set<array<byte>>    // every array that was ever passed in or handed out
    ghost var headers: seq<uint8>          // the identifiers of all SendHeader calls

    /** The response table is held in private arrays: no caller's slice and no delivered frame aliases them. */
    ghost predicate StoreValid()
      reads this`responses, this`table, this`stored, this`exposed, stored
    {
      && responses.Keys == table.Keys && WellFormedResponses(table)
      && (forall id: uint8 :: id in responses ==>
            && responses[id].data in stored
            && table[id] == Response(responses[id].data[..], responses[id].checksumType))
      && stored !! exposed
    }

    /** Subscriptions are distinct and open, their queues bounded, and a closed bus has none. */
    ghost predicate SubsValid()
      reads this`subs, this`closed, subs
    {
      && (forall i, j :: 0 <= i < j < |subs| ==> subs[i] != subs[j])
      && (forall i :: 0 <= i < |subs| ==> |subs[i].queue| <= QUEUE_SIZE && !subs[i].closed)
      && (closed ==> subs == [])
    }

    ghost predicate Valid()
      reads this, subs, stored
    {
      StoreValid() && SubsValid()
    }

    function Subscribers(): seq<Subscriber>
      reads this`subs, subs
    {
      Views(subs)
    }

    constructor ()
      ensures Valid() && !closed && table == map[] && subs == [] && headers == [] && exposed == {} && stored == {}
      ensures counters == Counters(0, 0, 0, 0, 0, 0)
    {
      responses, subs, closed := map[], [], false;
      counters := Counters(0, 0, 0, 0, 0, 0);
      table, stored, exposed, headers := map[], {}, {}, [];
    }

    static function Slice(data: array?<byte>): Option<seq<byte>>
      reads data
    {
      if data == null then None else Some(data[..])
    }

    static function Exposing(data: array?<byte>): set<array<byte>> {
      if data == null then {} else {data}
    }

    /** The outcome of a registration: the argument checks come first, then the closed bus. */
    function PublishError(id: uint8, data: Option<seq<byte>>): Option<Error>
      reads this
    {
      var check := PublishCheck(id, data);
      if check.Some? then check else if closed then Some(Closed) else None
    }

    /** Storing a copy of the caller's bytes, or forgetting the response. */
    method Store(id: uint8, data: array?<byte>, ct: ChecksumType)
      requires StoreValid() && PublishCheck(id, Slice(data)).None?
      modifies `responses, `table, `stored
      ensures StoreValid() && fresh(stored - old(stored)) && old(stored) <= stored
      ensures table == Register(old(table), id, Slice(data), ct)
    {
      if data == null {
        responses := responses - {id};
        table := table - {id};
      } else {
        var cp := new byte[data.Length](i requires 0 <= i < data.Length reads data => data[i]);
        assert cp[..] == data[..];
        responses := responses[id := Entry(cp, ct)];
        table := table[id := Response(cp[..], ct)];
        stored := stored + {cp};
      }
    }

    method Publish(id: uint8, data: array?<byte>) returns (error: Option<Error>)
      requires Valid() && Exposing(data) !! stored
      modifies `responses, `counters, `table, `stored, `exposed
      ensures Valid() && fresh(stored - old(stored)) && old(stored) <= stored
      ensures exposed == old(exposed) + Exposing(data)
      ensures error == PublishError(id, Slice(data))
      ensures table == if error.Some? then old(table) else Register(old(table), id, Slice(data), ENHANCED)
      ensures counters == AfterError(old(counters), error)
    {
      error := PublishAs(id, data, ENHANCED);
    }

    method PublishClassic(id: uint8, data: array?<byte>) returns (error: Option<Error>)
      requires Valid() && Exposing(data) !! stored
      modifies `responses, `counters, `table, `stored, `exposed
      ensures Valid() && fresh(stored - old(stored)) && old(stored) <= stored
      ensures exposed == old(exposed) + Exposing(data)
      ensures error == PublishError(id, Slice(data))
      ensures table == if error.Some? then old(table) else Register(old(table), id, Slice(data), CLASSIC)
      ensures counters == AfterError(old(counters), error)
    {
      error := PublishAs(id, data, CLASSIC);
    }

    /** The common text of Publish and PublishClassic. */
    method PublishAs(id: uint8, data: array?<byte>, ct: ChecksumType) returns (error: Option<Error>)
      requires Valid() && Exposing(data) !! stored
      modifies `responses, `counters, `table, `stored, `exposed
      ensures Valid() && fresh(stored - old(stored)) && old(stored) <= stored
      ensures exposed == old(exposed) + Exposing(data)
      ensures error == PublishError(id, Slice(data))
      ensures table == if error.Some? then old(table) else Register(old(table), id, Slice(data), ct)
      ensures counters == AfterError(old(counters), error)
    {
      exposed := exposed + Exposing(data);
      if id > MAX_ID {
        return Some(IdOutOfRange);
      }
      if data != null && data.Length == 0 {
        return Some(InvalidFrame);
      }
      if data != null && data.Length > MAX_DATA_LEN {
        return Some(PayloadTooLarge);
      }
      if closed {
        counters := counters.(errors := Bump(counters.errors, 1));
        return Some(Closed);
      }
      Store(id, data, ct);
      return None;
    }

    method PublishFrame(id: uint8, data: array?<byte>, ct: ChecksumType) returns (error: Option<Error>)
      requires Valid() && Exposing(data) !! stored
      modifies `responses, `counters, `table, `stored, `exposed
      ensures Valid() && fresh(stored - old(stored)) && old(stored) <= stored
      ensures exposed == old(exposed) + Exposing(data)
      ensures error == PublishError(id, Slice(data))
      ensures table == if error.Some? then old(table) else Register(old(table), id, Slice(data), RegisteredType(ct))
      ensures counters == AfterError(old(counters), error)
    {
      if ct == CLASSIC {
        error := PublishClassic(id, data);
      } else {
        error := Publish(id, data);
      }
    }

    /** The frame for a registered identifier, its bytes in a fresh array. */
    method Synthesise(id: uint8) returns (f: Frame, data: array<byte>)
      requires StoreValid() && id in responses
      modifies `exposed
      ensures StoreValid() && f == ResponseFrame(id, table[id])
      ensures fresh(data) && data[..] == f.data && exposed == old(exposed) + {data}
    {
      var entry := responses[id];
      data := new byte[entry.data.Length](i requires 0 <= i < entry.data.Length reads entry.data => entry.data[i]);
      assert data[..] == entry.data[..];
      exposed := exposed + {data};
      var checksum := CalcChecksum(Pid(id), data[..], entry.checksumType);
      f := Frame(id, data[..], checksum, entry.checksumType);
    }

    /** Why a header gets no frame, if it gets none. */
    function SendError(id: uint8): Option<Error>
      reads this`closed, this`responses
    {
      if id > MAX_ID then Some(IdOutOfRange)
      else if closed then Some(Closed)
      else if id !in responses then Some(Error.NoResponse)
      else None
    }

    method LookUp(id: uint8) returns (error: Option<Error>)
      modifies `counters, `headers
      ensures error == SendError(id) && headers == old(headers) + [id]
      ensures counters == AfterError(old(counters), error)
    {
      headers := headers + [id];
      if id > MAX_ID {
        return Some(IdOutOfRange);
      }
      if closed {
        counters := counters.(errors := Bump(counters.errors, 1));
        return Some(Closed);
      }
      if id !in responses {
        counters := counters.(errors := Bump(counters.errors, 1));
        return Some(Error.NoResponse);
      }
      return None;
    }

    /** One whole exchange with nobody else on the bus. */
    method SendHeader(id: uint8) returns (r: Result<Frame>, data: array?<byte>)
      requires Valid()
      modifies `counters, `exposed, `headers, subs
      ensures Valid() && headers == old(headers) + [id] && exposed == old(exposed) + Exposing(data)
      ensures SendError(id) == old(SendError(id))
      ensures match SendError(id)
              case Some(error) =>
                && r == Err(error) && data == null && Subscribers() == old(Subscribers())
                && counters == AfterError(old(counters), Some(error))
              case None =>
                && id in table && r == Ok(ResponseFrame(id, table[id]))
                && data != null && fresh(data) && data[..] == r.value.data
                && Subscribers() == OfferedAll(old(Subscribers()), r.value)
                && counters == AfterBroadcast(old(counters), old(Subscribers()), r.value)
    {
      var error := LookUp(id);
      if error.Some? {
        return Err(error.value), null;
      }
      var f: Frame;
      f, data := Transmit(id);
      r := Ok(f);
    }

    /** The second half of SendHeader, once the lookup has succeeded. */
    method Transmit(id: uint8) returns (f: Frame, data: array<byte>)
      requires Valid() && id in responses
      modifies `counters, `exposed, subs
      ensures Valid() && exposed == old(exposed) + {data}
      ensures f == ResponseFrame(id, table[id]) && fresh(data) && data[..] == f.data
      ensures Subscribers() == OfferedAll(old(Subscribers()), f)
      ensures counters == AfterBroadcast(old(counters), old(Subscribers()), f)
    {
      f, data := Synthesise(id);
      Broadcast(f);
    }

    /** Sending without blocking: a full queue drops the frame. */
    method Offer(s: Subscription, f: Frame)
      modifies s`queue, `counters
      ensures s.View() == Offered(old(s.View()), f)
      ensures counters == AfterOffer(old(counters), old(s.View()), f)
    {
      var matches := MatchesAnyScan(s.filters, f);
      if matches {
        if |s.queue| < QUEUE_SIZE {
          s.queue := s.queue + [f];
          counters := counters.(delivered := Bump(counters.delivered, 1),
                                bytesDelivered := Bump(counters.bytesDelivered, |f.data|));
        } else {
          counters := counters.(dropped := Bump(counters.dropped, 1));
        }
      }
    }

    /** The write counters and the loop of broadcast. */
    method Broadcast(f: Frame)
      requires SubsValid()
      modifies `counters, subs
      ensures SubsValid() && Subscribers() == OfferedAll(old(Subscribers()), f)
      ensures counters == AfterBroadcast(old(counters), old(Subscribers()), f)
    {
      ghost var before := Subscribers();
      counters := counters.(written := Bump(counters.written, 1),
                            bytesWritten := Bump(counters.bytesWritten, |f.data|));
      OfferToAll(f, before);
    }

    /** The broadcast has come to subscriber n. */
    ghost predicate Halfway(before: seq<Subscriber>, c: Counters, f: Frame, n: nat)
      reads this`subs, this`closed, this`counters, subs
    {
      && SubsValid() && n <= |subs| && OfferedFirst(subs, before, f, n)
      && counters == AfterOffers(c, before[..n], f)
    }

    lemma BroadcastDone(before: seq<Subscriber>, c: Counters, f: Frame)
      requires Halfway(before, c, f, |subs|)
      ensures SubsValid() && Subscribers() == OfferedAll(before, f) && counters == AfterOffers(c, before, f)
    {
      assert before[..|subs|] == before;
    }

    method OfferToAll(f: Frame, ghost before: seq<Subscriber>)
      requires SubsValid() && before == Subscribers()
      modifies `counters, subs
      ensures SubsValid() && Subscribers() == OfferedAll(before, f)
      ensures counters == AfterOffers(old(counters), before, f)
    {
      ghost var c := counters;
      for n := 0 to |subs|
        invariant Halfway(before, c, f, n)
      {
        OfferAt(n, f, before, c);
      }
      BroadcastDone(before, c, f);
    }

    /** One turn of the loop. */
    method OfferAt(n: nat, f: Frame, ghost before: seq<Subscriber>, ghost c: Counters)
      requires n < |subs| && Halfway(before, c, f, n)
      modifies `counters, subs
      ensures Halfway(before, c, f, n + 1)
    {
      assert before[..n + 1][..n] == before[..n];
      assert subs[n].View() == before[n];
      Offer(subs[n], f);
      assert forall i :: 0 <= i < |subs| && i != n ==> subs[i] != subs[n];
    }

    method Subscribe(filters: seq<Filter>) returns (r: Result<Subscription>)
      requires Valid()
      modifies `subs, `counters
      ensures Valid()
      ensures if closed then r == Err(Closed) && subs == old(subs)
              else r.Ok? && fresh(r.value) && subs == old(subs) + [r.value] && r.value.View() == Subscriber(filters, [])
      ensures counters == AfterError(old(counters), if closed then Some(Closed) else None)
    {
      if closed {
        counters := counters.(errors := Bump(counters.errors, 1));
        return Err(Closed);
      }
      var s := new Subscription(filters);
      subs := subs + [s];
      r := Ok(s);
    }

    /** Closing twice is harmless; what is buffered stays readable. */
    method Close()
      requires Valid()
      modifies `closed, `subs, subs
      ensures Valid() && closed && subs == []
      ensures forall s :: s in old(subs) ==> s.closed && s.queue == old(s.queue)
    {
      if closed {
        return;
      }
      closed := true;
      for n := 0 to |subs|
        invariant closed && subs == old(subs)
        invariant forall i, j :: 0 <= i < j < |subs| ==> subs[i] != subs[j]
        invariant forall i :: 0 <= i < |subs| ==> subs[i].closed == (i < n) && subs[i].queue == old(subs[i].queue)
      {
        subs[n].closed := true;
      }
      subs := [];
    }
  }

  /** Whoever holds an array that was passed in or handed out may go on writing to it: the registered responses stay. */
  method HolderWrites(bus: Bus, a: array<byte>, i: nat, b: byte)
    requires bus.Valid() && a in bus.exposed && i < a.Length
    modifies a
    ensures bus.Valid() && bus.table == old(bus.table)
    ensures forall id: uint8 :: id in bus.responses ==> bus.responses[id].data[..] == old(bus.responses[id].data[..])
  {
    a[i] := b;
  }
}
