/** What the registered callbacks are told over a run: every answer, every failure, each right behind its own header. */
module MasterCallbacks {
  import opened Lin
  import opened Master
  import opened MasterRun

  // ---------- What there is to tell ----------

  /** A slot whose header was sent, with the bus's answer. */
  datatype Served = Served(id: uint8, reply: Result<Frame>)

  datatype Failure = Failure(id: uint8, error: Error)

  /** The slots that were not skipped, in order. */
  function ServedSlots(resolved: seq<Resolution>, visits: seq<Visit>): seq<Served>
    requires |resolved| <= |visits|
  {
    if |resolved| == 0 then []
    else
      var n := |resolved| - 1;
      ServedSlots(resolved[..n], visits) + ServedBy(resolved[n], visits[n].reply)
  }

  function ServedBy(r: Resolution, reply: Result<Frame>): seq<Served> {
    match r
    case Skipped => []
    case Ordinary(id) => [Served(id, reply)]
    case Chosen(id) => [Served(id, reply)]
  }

  function Answers(served: seq<Served>): seq<Frame> {
    if |served| == 0 then []
    else
      Answers(served[..|served| - 1]) + (match served[|served| - 1].reply case Ok(f) => [f] case Err(_) => [])
  }

  function Failures(served: seq<Served>): seq<Failure> {
    if |served| == 0 then []
    else
      var last := served[|served| - 1];
      Failures(served[..|served| - 1]) + (match last.reply case Ok(_) => [] case Err(e) => [Failure(last.id, e)])
  }

  // ---------- What is told ----------

  function FramesSeen(events: seq<Event>): seq<Frame> {
    if |events| == 0 then []
    else FramesSeen(events[..|events| - 1]) + (match events[|events| - 1] case FrameSeen(f) => [f] case _ => [])
  }

  function ErrorsSeen(events: seq<Event>): seq<Failure> {
    if |events| == 0 then []
    else
      ErrorsSeen(events[..|events| - 1]) +
      (match events[|events| - 1] case ErrorSeen(id, e) => [Failure(id, e)] case _ => [])
  }

  lemma {:induction false} SeenAppend(a: seq<Event>, b: seq<Event>)
    ensures FramesSeen(a + b) == FramesSeen(a) + FramesSeen(b)
    ensures ErrorsSeen(a + b) == ErrorsSeen(a) + ErrorsSeen(b)
  {
    if |b| == 0 {
      assert a + b == a;
    } else {
      SeenAppend(a, b[..|b| - 1]);
      assert (a + b)[..|a + b| - 1] == a + b[..|b| - 1];
    }
  }

  lemma SeenInOne(e: Event)
    ensures FramesSeen([e]) == match e case FrameSeen(f) => [f] case _ => []
    ensures ErrorsSeen([e]) == match e case ErrorSeen(id, error) => [Failure(id, error)] case _ => []
    ensures HeadersOf([e]) == match e case Header(id) => [id] case _ => []
  {
    assert [e][..0] == [];
  }

  lemma SeenInVisit(cb: Callbacks, r: Resolution, reply: Result<Frame>)
    ensures FramesSeen(VisitEvents(cb, r, reply)) ==
            if !r.Skipped? && reply.Ok? && cb.onFrame then [reply.value] else []
    ensures ErrorsSeen(VisitEvents(cb, r, reply)) ==
            if !r.Skipped? && reply.Err? && cb.onError then [Failure(r.id, reply.error)] else []
  {
    if !r.Skipped? {
      var told := VisitEvents(cb, r, reply)[1..];
      assert VisitEvents(cb, r, reply) == [Header(r.id)] + told;
      SeenAppend([Header(r.id)], told);
      SeenInOne(Header(r.id));
      if |told| > 0 {
        assert told == [told[0]];
        SeenInOne(told[0]);
      }
    }
  }

  lemma OneMoreServed(served: seq<Served>, s: Served)
    ensures Answers(served + [s]) == Answers(served) + (match s.reply case Ok(f) => [f] case Err(_) => [])
    ensures Failures(served + [s]) ==
            Failures(served) + (match s.reply case Ok(_) => [] case Err(e) => [Failure(s.id, e)])
  {
    assert (served + [s])[..|served|] == served;
  }

  /** A callback that is registered gets everything there is, in order; one that is not gets nothing. */
  predicate Tells(cb: Callbacks, events: seq<Event>, served: seq<Served>) {
    && FramesSeen(events) == (if cb.onFrame then Answers(served) else [])
    && ErrorsSeen(events) == (if cb.onError then Failures(served) else [])
  }

  lemma TellsMore(cb: Callbacks, events: seq<Event>, served: seq<Served>, r: Resolution, reply: Result<Frame>)
    requires Tells(cb, events, served)
    ensures Tells(cb, events + VisitEvents(cb, r, reply), served + ServedBy(r, reply))
  {
    SeenAppend(events, VisitEvents(cb, r, reply));
    SeenInVisit(cb, r, reply);
    if r.Skipped? {
      assert served + [] == served;
    } else {
      OneMoreServed(served, Served(r.id, reply));
    }
  }

  lemma {:induction false} TraceTells(cb: Callbacks, resolved: seq<Resolution>, visits: seq<Visit>)
    requires |resolved| <= |visits|
    ensures Tells(cb, Trace(cb, resolved, visits), ServedSlots(resolved, visits))
  {
    if |resolved| > 0 {
      var n := |resolved| - 1;
      TraceTells(cb, resolved[..n], visits);
      TellsMore(cb, Trace(cb, resolved[..n], visits), ServedSlots(resolved[..n], visits), resolved[n], visits[n].reply);
    }
  }

  // ---------- Where it is told ----------

  /** What a callback is told at position e is the outcome of the header right before it. */
  predicate ToldAt(events: seq<Event>, served: seq<Served>, e: nat)
    requires e < |events|
  {
    var m := |HeadersOf(events[..e])|;
    match events[e]
    case Header(id) => m < |served| && served[m].id == id
    case FrameSeen(f) =>
      e > 0 && 0 < m <= |served| && events[e - 1] == Header(served[m - 1].id) && served[m - 1].reply == Ok(f)
    case ErrorSeen(id, error) =>
      e > 0 && 0 < m <= |served| && events[e - 1] == Header(id) && served[m - 1] == Served(id, Err(error))
  }

  predicate ToldInPlace(events: seq<Event>, served: seq<Served>) {
    forall e :: 0 <= e < |events| ==> ToldAt(events, served, e)
  }

  lemma ToldEarlier(events: seq<Event>, more: seq<Event>, served: seq<Served>, later: seq<Served>, e: nat)
    requires e < |events| && ToldAt(events, served, e)
    ensures ToldAt(events + more, served + later, e)
  {
    assert (events + more)[..e] == events[..e];
  }

  /** One event more, told in its place, and perhaps one slot more served. */
  lemma ToldNext(events: seq<Event>, served: seq<Served>, e: Event, later: seq<Served>)
    requires ToldInPlace(events, served)
    requires ToldAt(events + [e], served + later, |events|)
    ensures ToldInPlace(events + [e], served + later)
  {
    forall i | 0 <= i < |events| ensures ToldAt(events + [e], served + later, i) {
      ToldEarlier(events, [e], served, later, i);
    }
  }

  lemma HeaderInPlace(events: seq<Event>, served: seq<Served>, s: Served)
    requires ToldInPlace(events, served) && |HeadersOf(events)| == |served|
    ensures ToldInPlace(events + [Header(s.id)], served + [s])
    ensures |HeadersOf(events + [Header(s.id)])| == |served + [s]|
  {
    assert (events + [Header(s.id)])[..|events|] == events;
    ToldNext(events, served, Header(s.id), [s]);
    HeadersOfAppend(events, [Header(s.id)]);
    SeenInOne(Header(s.id));
  }

  /** What the callback is told, if it is registered. */
  lemma OutcomeInPlace(events: seq<Event>, served: seq<Served>, told: Event)
    requires |events| > 0 && |served| > 0 && ToldInPlace(events, served) && |HeadersOf(events)| == |served|
    requires events[|events| - 1] == Header(served[|served| - 1].id)
    requires match served[|served| - 1].reply
             case Ok(f) => told == FrameSeen(f)
             case Err(e) => told == ErrorSeen(served[|served| - 1].id, e)
    ensures ToldInPlace(events + [told], served)
    ensures |HeadersOf(events + [told])| == |served|
  {
    assert (events + [told])[..|events|] == events && served + [] == served;
    ToldNext(events, served, told, []);
    HeadersOfAppend(events, [told]);
    SeenInOne(told);
  }

  lemma VisitInPlace(cb: Callbacks, events: seq<Event>, served: seq<Served>, r: Resolution, reply: Result<Frame>)
    requires ToldInPlace(events, served) && |HeadersOf(events)| == |served|
    ensures var events', served' := events + VisitEvents(cb, r, reply), served + ServedBy(r, reply);
            ToldInPlace(events', served') && |HeadersOf(events')| == |served'|
  {
    if r.Skipped? {
      assert events + [] == events && served + [] == served;
    } else {
      var s := Served(r.id, reply);
      var all := VisitEvents(cb, r, reply);
      HeaderInPlace(events, served, s);
      if |all| > 1 {
        OutcomeInPlace(events + [Header(r.id)], served + [s], all[1]);
        assert events + all == events + [Header(r.id)] + [all[1]];
      } else {
        assert all == [Header(r.id)];
      }
    }
  }

  lemma {:induction false} TraceTellsInPlace(cb: Callbacks, resolved: seq<Resolution>, visits: seq<Visit>)
    requires |resolved| <= |visits|
    ensures var events, served := Trace(cb, resolved, visits), ServedSlots(resolved, visits);
            ToldInPlace(events, served) && |HeadersOf(events)| == |served|
  {
    if |resolved| > 0 {
      var n := |resolved| - 1;
      TraceTellsInPlace(cb, resolved[..n], visits);
      VisitInPlace(cb, Trace(cb, resolved[..n], visits), ServedSlots(resolved[..n], visits), resolved[n],
                   visits[n].reply);
    }
  }

  // ---------- Runs ----------

  /** Over every run: the right things are told, completely and in order, each right behind its own header. */
  lemma CallbacksAreExact(table: seq<ScheduleEntry>, cb: Callbacks, start: Sporadics, visits: seq<Visit>)
    requires |table| > 0
    ensures var p := RunFrom(table, cb, Begin(start), 0, visits);
            && |p.resolved| <= |visits|
            && var served := ServedSlots(p.resolved, visits);
              Tells(cb, p.events, served) && ToldInPlace(p.events, served)
  {
    var p := RunFrom(table, cb, Begin(start), 0, visits);
    RunObserved(table, cb, start, visits);
    TraceTells(cb, p.resolved, visits);
    TraceTellsInPlace(cb, p.resolved, visits);
  }

  /** The same of a run on a bus, with the bus's answers. */
  lemma BusCallbacksAreExact(table: seq<ScheduleEntry>, cb: Callbacks, start: OnBus, plans: seq<Plan>)
    requires |table| > 0 && start.progress == Begin(start.progress.sporadics)
    ensures var p := RunOnBus(table, cb, start, plans, |plans|).progress;
            var visits := VisitsOf(table, cb, start, plans);
            && |p.resolved| <= |visits|
            && var served := ServedSlots(p.resolved, visits);
              Tells(cb, p.events, served) && ToldInPlace(p.events, served)
  {
    RunOnBusObserved(table, cb, start, plans);
    CallbacksAreExact(table, cb, start.progress.sporadics, VisitsOf(table, cb, start, plans));
  }
}
