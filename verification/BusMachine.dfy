/**
 * The virtual bus under concurrency, as a state machine. Every step is one atomic action of one goroutine: a section
 * under the write lock, a channel operation, or an addition to a counter. Broadcasts hold the read lock over many
 * steps, so they interleave with each other and with consumers, but not with Subscribe, Publish or Close.
 */
module BusMachine {
  import opened Options
  import Bytes
  import opened Lin
  import opened BusModel

  /** A frame in a channel, tagged with the SendHeader call that sent it. */
  datatype Item = Item(call: nat, frame: Frame)

  /** refused records the frames that found the queue full. */
  datatype Channel = Channel(
    filters: seq<Filter>, received: seq<Item>, queue: seq<Item>, refused: seq<Item>, closed: bool) {
    /** Everything that ever entered the queue, in order. */
    function Entered(): seq<Item> {
      received + queue
    }
  }

  datatype Call =
    | Looking(id: uint8)
    | LookedUp(id: uint8, response: Response)
    | Synthesised(frame: Frame)           // writeCount added
    | Announced(frame: Frame)             // bytesWritten added; about to take the read lock
    | Offering(frame: Frame, next: nat)   // read lock held from here on
    | Sent(frame: Frame, at: nat)         // in the queue, deliverCount not yet added
    | Delivered(frame: Frame, at: nat)    // bytesDelivered not yet added
    | Refused(frame: Frame, at: nat)      // dropCount not yet added
    | Done(frame: Frame, covered: nat)    // returned the frame after offering it to the first covered subscriptions
    | Failed(error: Error)
    | Draining
    | Sampling(next: nat, total: nat)     // timed out; read lock held while the queues are measured
    | Sampled(total: nat)
    | AboutToClose
    | Closing(next: nat)                  // write lock held
    | Finished

  /** What a call saw in its lookup section. */
  datatype Lookup = Lookup(id: uint8, responses: map<uint8, Response>)

  datatype State = State(
    responses: map<uint8, Response>,
    channels: seq<Channel>,               // every subscription ever made
    subs: seq<nat>,                       // the bus's own list, as positions in channels
    closed: bool,
    writer: Option<nat>,                  // the call that holds the write lock
    calls: seq<Call>,
    lookups: seq<Option<Lookup>>,         // one entry per call
    counters: Counters,
    drained: nat,                         // total of the samples added to dropCount by timed-out drains
    panicked: bool)

  const INITIAL := State(map[], [], [], false, None, [], [], Counters(0, 0, 0, 0, 0, 0), 0, false)

  datatype Action =
    | Publish(id: uint8, data: Option<seq<Bytes.byte>>, checksumType: ChecksumType)
    | Subscribe(filters: seq<Filter>)
    | Receive(channel: nat)
    | StartSend(id: uint8)
    | StartClose
    | StartDrain
    | TimeOut(call: nat)
    | Step(call: nat)

  // ---------- The lock ----------

  predicate Reads(c: Call) {
    c.Offering? || c.Sent? || c.Delivered? || c.Refused? || c.Sampling?
  }

  predicate NoReaders(s: State) {
    forall k :: 0 <= k < |s.calls| ==> !Reads(s.calls[k])
  }

  predicate LockFree(s: State) {
    s.writer.None? && NoReaders(s)
  }

  // ---------- Steps ----------

  predicate Enabled(s: State, a: Action) {
    match a
    case Publish(id, data, _) => PublishCheck(id, data).None? && LockFree(s)
    case Subscribe(_) => LockFree(s)
    case Receive(c) => c < |s.channels| && |s.channels[c].queue| > 0
    case StartSend(_) => true
    case StartClose => true
    case StartDrain => true
    case TimeOut(k) => k < |s.calls| && s.calls[k].Draining? && s.writer.None?
    case Step(k) =>
      k < |s.calls| &&
      match s.calls[k]
      case Looking(_) => s.writer.None?
      case LookedUp(_, _) => true
      case Synthesised(_) => true
      case Announced(_) => s.writer.None?
      case Offering(_, _) => true
      case Sent(_, _) => true
      case Delivered(_, _) => true
      case Refused(_, _) => true
      case Draining => true
      case Sampling(_, _) => true
      case Sampled(_) => true
      case AboutToClose => LockFree(s)
      case Closing(_) => true
      case Done(_, _) => false
      case Failed(_) => false
      case Finished => false
  }

  function SetCall(s: State, k: nat, c: Call): State
    requires k < |s.calls|
  {
    s.(calls := s.calls[k := c])
  }

  function NewCall(s: State, c: Call): State {
    s.(calls := s.calls + [c], lookups := s.lookups + [None])
  }

  /** The section of SendHeader under the read lock. */
  function LookUp(s: State, k: nat, id: uint8): State
    requires k < |s.calls| && k < |s.lookups|
  {
    if s.closed then
      SetCall(s, k, Failed(Closed)).(counters := s.counters.(errors := Bump(s.counters.errors, 1)))
    else if id !in s.responses then
      SetCall(s, k, Failed(Error.NoResponse)).(counters := s.counters.(errors := Bump(s.counters.errors, 1)))
    else
      SetCall(s, k, LookedUp(id, s.responses[id])).(lookups := s.lookups[k := Some(Lookup(id, s.responses))])
  }

  /** One turn of the broadcast loop: skip, send without blocking, or give up on a full queue. */
  function Offer(s: State, k: nat, f: Frame, next: nat): State
    requires k < |s.calls| && next < |s.subs| && s.subs[next] < |s.channels|
  {
    var c := s.subs[next];
    var ch := s.channels[c];
    if !MatchesAny(ch.filters, f) then
      SetCall(s, k, Offering(f, next + 1))
    else if ch.closed then
      s.(panicked := true)
    else if |ch.queue| < QUEUE_SIZE then
      SetCall(s, k, Sent(f, next)).(channels := s.channels[c := ch.(queue := ch.queue + [Item(k, f)])])
    else
      SetCall(s, k, Refused(f, next)).(channels := s.channels[c := ch.(refused := ch.refused + [Item(k, f)])])
  }

  function CloseOne(s: State, k: nat, next: nat): State
    requires k < |s.calls| && next < |s.subs| && s.subs[next] < |s.channels|
  {
    var c := s.subs[next];
    var ch := s.channels[c];
    if ch.closed then s.(panicked := true)
    else SetCall(s, k, Closing(next + 1)).(channels := s.channels[c := ch.(closed := true)])
  }

  predicate InRange(s: State) {
    |s.lookups| == |s.calls| && forall i :: 0 <= i < |s.subs| ==> s.subs[i] < |s.channels|
  }

  function StepCall(s: State, k: nat): State
    requires InRange(s) && k < |s.calls|
  {
    var n := s.counters;
    match s.calls[k]
    case Looking(id) => LookUp(s, k, id)
    case LookedUp(id, r) =>
      SetCall(s, k, Synthesised(ResponseFrame(id, r))).(counters := n.(written := Bump(n.written, 1)))
    case Synthesised(f) => SetCall(s, k, Announced(f)).(counters := n.(bytesWritten := Bump(n.bytesWritten, |f.data|)))
    case Announced(f) => SetCall(s, k, Offering(f, 0))
    case Offering(f, next) => if next < |s.subs| then Offer(s, k, f, next) else SetCall(s, k, Done(f, next))
    case Sent(f, at) => SetCall(s, k, Delivered(f, at)).(counters := n.(delivered := Bump(n.delivered, 1)))
    case Delivered(f, at) =>
      SetCall(s, k, Offering(f, at + 1)).(counters := n.(bytesDelivered := Bump(n.bytesDelivered, |f.data|)))
    case Refused(f, at) => SetCall(s, k, Offering(f, at + 1)).(counters := n.(dropped := Bump(n.dropped, 1)))
    case Draining => SetCall(s, k, AboutToClose)
    case Sampling(next, total) =>
      if next < |s.subs| then SetCall(s, k, Sampling(next + 1, total + |s.channels[s.subs[next]].queue|))
      else SetCall(s, k, Sampled(total))
    case Sampled(total) =>
      SetCall(s, k, AboutToClose).(counters := n.(dropped := Bump(n.dropped, total)), drained := s.drained + total)
    case AboutToClose =>
      if s.closed then SetCall(s, k, Finished)
      else SetCall(s, k, Closing(0)).(closed := true, writer := Some(k))
    case Closing(next) =>
      if next < |s.subs| then CloseOne(s, k, next)
      else SetCall(s, k, Finished).(subs := [], writer := None)
    case _ => s
  }

  function Next(s: State, a: Action): State
    requires InRange(s) && Enabled(s, a)
  {
    match a
    case Publish(id, data, ct) =>
      if s.closed then s.(counters := s.counters.(errors := Bump(s.counters.errors, 1)))
      else s.(responses := Register(s.responses, id, data, RegisteredType(ct)))
    case Subscribe(filters) =>
      if s.closed then s.(counters := s.counters.(errors := Bump(s.counters.errors, 1)))
      else s.(channels := s.channels + [Channel(filters, [], [], [], false)], subs := s.subs + [|s.channels|])
    case Receive(c) =>
      var ch := s.channels[c];
      s.(channels := s.channels[c := ch.(received := ch.received + [ch.queue[0]], queue := ch.queue[1..])])
    case StartSend(id) => NewCall(s, if id > MAX_ID then Failed(IdOutOfRange) else Looking(id))
    case StartClose => NewCall(s, AboutToClose)
    case StartDrain => NewCall(s, Draining)
    case TimeOut(k) => SetCall(s, k, Sampling(0, 0))
    case Step(k) => StepCall(s, k)
  }

  /** The states a run goes through, starting from a fresh bus. */
  ghost predicate IsRun(states: seq<State>, actions: seq<Action>) {
    && |states| == |actions| + 1 && states[0] == INITIAL
    && forall i :: 0 <= i < |actions| ==>
         InRange(states[i]) && Enabled(states[i], actions[i]) && states[i + 1] == Next(states[i], actions[i])
  }
}
