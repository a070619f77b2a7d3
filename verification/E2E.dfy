/** End-to-end protection: the 10-byte header, the sender's counter and the receiver's checks. */
module E2E {
  import opened Bytes
  import opened Bits
  import opened Crc

  const HEADER_SIZE := 10

  datatype Config = Config(dataId: bv16, sourceId: bv16)

  datatype ErrorKind = CrcMismatch | SequenceGap | HeaderTooShort | IdMismatch

  /** What a receiver makes of one input: the payload, or an error with the counter it read. */
  datatype Outcome = Accepted(payload: seq<byte>) | Rejected(kind: ErrorKind, counter: bv32)

  datatype ReceiverState = ReceiverState(lastSeq: bv32, first: bool)

  // ---------- Little-endian fields ----------

  function Bytes16(v: bv16): seq<byte> {
    [Low(v), High(v)]
  }

  function Uint16(b: seq<byte>): bv16
    requires |b| == 2
  {
    Join(b[1], b[0])
  }

  function Bytes32(v: bv32): seq<byte> {
    [(v & 0xFF) as byte, ((v >> 8) & 0xFF) as byte, ((v >> 16) & 0xFF) as byte, ((v >> 24) & 0xFF) as byte]
  }

  function Uint32(b: seq<byte>): bv32
    requires |b| == 4
  {
    (b[0] as bv32) | ((b[1] as bv32) << 8) | ((b[2] as bv32) << 16) | ((b[3] as bv32) << 24)
  }

  lemma Uint16Inverse(v: bv16, b: seq<byte>)
    requires |b| == 2
    ensures Uint16(Bytes16(v)) == v
    ensures Bytes16(Uint16(b)) == b
  {
    JoinSplit(b[1], b[0], v);
  }

  lemma Uint32Inverse(v: bv32)
    ensures Uint32(Bytes32(v)) == v
  {
  }

  lemma Bytes32Inverse(b: seq<byte>)
    requires |b| == 4
    ensures Bytes32(Uint32(b)) == b
  {
    Split32(b[0], b[1], b[2], b[3]);
  }

  lemma Split32(b0: byte, b1: byte, b2: byte, b3: byte)
    ensures var v := (b0 as bv32) | ((b1 as bv32) << 8) | ((b2 as bv32) << 16) | ((b3 as bv32) << 24);
            && (v & 0xFF) as byte == b0
            && ((v >> 8) & 0xFF) as byte == b1
            && ((v >> 16) & 0xFF) as byte == b2
            && ((v >> 24) & 0xFF) as byte == b3
  {
  }

  // ---------- Reading a frame ----------

  predicate HasHeader(data: seq<byte>) {
    |data| >= HEADER_SIZE
  }

  function Identity(data: seq<byte>): Config
    requires HasHeader(data)
  {
    Config(Uint16(data[0..2]), Uint16(data[2..4]))
  }

  function Counter(data: seq<byte>): bv32
    requires HasHeader(data)
  {
    Uint32(data[4..8])
  }

  function WireCrc(data: seq<byte>): bv16
    requires HasHeader(data)
  {
    Uint16(data[8..10])
  }

  function Payload(data: seq<byte>): seq<byte>
    requires HasHeader(data)
  {
    data[10..]
  }

  /** The CRC covers the whole frame with its own slot zeroed. */
  function CrcInput(data: seq<byte>): seq<byte>
    requires HasHeader(data)
  {
    data[..8] + [0, 0] + data[10..]
  }

  predicate CrcMatches(data: seq<byte>)
    requires HasHeader(data)
  {
    Crc16(CrcInput(data)) == WireCrc(data)
  }

  /** The frame survives the length, CRC and identity checks, so its counter is compared. */
  predicate Passes(cfg: Config, data: seq<byte>) {
    HasHeader(data) && CrcMatches(data) && Identity(data) == cfg
  }

  /** An input as the stateless checks see it: rejected at once, or good for a counter comparison. */
  datatype Arrival = Bad(kind: ErrorKind, badCounter: bv32) | Good(counter: bv32, payload: seq<byte>)

  function Screen(cfg: Config, data: seq<byte>): Arrival {
    if !HasHeader(data) then Bad(HeaderTooShort, 0)
    else if !CrcMatches(data) then Bad(CrcMismatch, Counter(data))
    else if Identity(data) != cfg then Bad(IdMismatch, Counter(data))
    else Good(Counter(data), Payload(data))
  }

  /** The counter check: the first counter seeds the sequence, and a gap reseeds it. */
  function Advance(st: ReceiverState, a: Arrival): (ReceiverState, Outcome) {
    match a
    case Bad(kind, counter) => (st, Rejected(kind, counter))
    case Good(counter, payload) =>
      if !st.first && counter != st.lastSeq + 1 then
        (st.(lastSeq := counter), Rejected(SequenceGap, counter))
      else
        (ReceiverState(counter, false), Accepted(payload))
  }

  /** One call of Unwrap: new receiver state and outcome. */
  function Receive(cfg: Config, st: ReceiverState, data: seq<byte>): (ReceiverState, Outcome) {
    Advance(st, Screen(cfg, data))
  }

  // ---------- Writing a frame ----------

  function Fields(cfg: Config, counter: bv32): seq<byte> {
    Bytes16(cfg.dataId) + Bytes16(cfg.sourceId) + Bytes32(counter)
  }

  function Protected(cfg: Config, counter: bv32, payload: seq<byte>): seq<byte> {
    Fields(cfg, counter) + Bytes16(Crc16(Fields(cfg, counter) + [0, 0] + payload)) + payload
  }

  /** Good arrivals are exactly the frames that pass every stateless check; the rest are never sequence gaps. */
  lemma GoodMeansPasses(cfg: Config, data: seq<byte>)
    ensures Screen(cfg, data).Good? <==> Passes(cfg, data)
    ensures Screen(cfg, data).Bad? ==> Screen(cfg, data).kind != SequenceGap
  {
  }

  lemma ProtectedIsGood(cfg: Config, counter: bv32, payload: seq<byte>)
    ensures Screen(cfg, Protected(cfg, counter, payload)) == Good(counter, payload)
  {
    ProtectedPasses(cfg, counter, payload);
  }

  /** Everything Protect writes is read back by the receiver, and the frame passes every check. */
  lemma ProtectedPasses(cfg: Config, counter: bv32, payload: seq<byte>)
    ensures var d := Protected(cfg, counter, payload);
            |d| == HEADER_SIZE + |payload| && Passes(cfg, d) && Counter(d) == counter && Payload(d) == payload
  {
    var d := Protected(cfg, counter, payload);
    var crc := Crc16(Fields(cfg, counter) + [0, 0] + payload);
    assert d[0..2] == Bytes16(cfg.dataId) && d[2..4] == Bytes16(cfg.sourceId);
    assert d[4..8] == Bytes32(counter) && d[8..10] == Bytes16(crc) && d[10..] == payload;
    assert d[..8] == Fields(cfg, counter);
    Uint16Inverse(cfg.dataId, d[0..2]);
    Uint16Inverse(cfg.sourceId, d[0..2]);
    Uint16Inverse(crc, d[0..2]);
    Uint32Inverse(counter);
  }

  /** A frame that passes is exactly what a sender of that identity with that counter would have written. */
  lemma PassingIsProtected(cfg: Config, data: seq<byte>)
    requires Passes(cfg, data)
    ensures data == Protected(cfg, Counter(data), Payload(data))
  {
    Uint16Inverse(0, data[0..2]);
    Uint16Inverse(0, data[2..4]);
    Uint16Inverse(0, data[8..10]);
    Bytes32Inverse(data[4..8]);
    assert data[..8] == data[0..2] + data[2..4] + data[4..8];
    assert data == data[..8] + data[8..10] + data[10..];
  }

  /** The layout on the wire: little-endian identity and counter, the CRC behind them, then the payload. */
  lemma Layout(cfg: Config, counter: bv32, payload: seq<byte>)
    ensures var d := Protected(cfg, counter, payload);
            && |d| == 10 + |payload| && d[10..] == payload
            && d[0] == (cfg.dataId & 0xFF) as byte && d[1] == (cfg.dataId >> 8) as byte
            && d[2] == (cfg.sourceId & 0xFF) as byte && d[3] == (cfg.sourceId >> 8) as byte
            && d[4] == (counter & 0xFF) as byte && d[5] == ((counter >> 8) & 0xFF) as byte
            && d[6] == ((counter >> 16) & 0xFF) as byte && d[7] == ((counter >> 24) & 0xFF) as byte
            && var crc := Crc16(d[..8] + [0, 0] + d[10..]);
               d[8] == (crc & 0xFF) as byte && d[9] == (crc >> 8) as byte
  {
    var d := Protected(cfg, counter, payload);
    assert d[..8] == Fields(cfg, counter) && d[10..] == payload;
    assert d[0..2] == Bytes16(cfg.dataId) && d[2..4] == Bytes16(cfg.sourceId);
    assert d[4..8] == Bytes32(counter);
  }

  // ---------- Every outcome ----------

  lemma ShortIsRefused(cfg: Config, st: ReceiverState, data: seq<byte>)
    requires |data| < 10
    ensures Receive(cfg, st, data) == (st, Rejected(HeaderTooShort, 0))
  {
  }

  lemma CorruptIsRefused(cfg: Config, st: ReceiverState, data: seq<byte>)
    requires |data| >= 10 && Crc16(data[..8] + [0, 0] + data[10..]) != Uint16(data[8..10])
    ensures Receive(cfg, st, data) == (st, Rejected(CrcMismatch, Uint32(data[4..8])))
  {
  }

  /** A consistent frame of another stream is told apart from a corrupted one. */
  lemma ForeignIsRefused(cfg: Config, st: ReceiverState, data: seq<byte>)
    requires |data| >= 10 && Crc16(data[..8] + [0, 0] + data[10..]) == Uint16(data[8..10])
    requires Uint16(data[0..2]) != cfg.dataId || Uint16(data[2..4]) != cfg.sourceId
    ensures Receive(cfg, st, data) == (st, Rejected(IdMismatch, Uint32(data[4..8])))
  {
  }

  /** The frames of every other sender are refused for their identity, in whatever state the receiver is. */
  lemma ForeignSenderIsRefused(cfg: Config, st: ReceiverState, sender: Config, counter: bv32, payload: seq<byte>)
    requires sender != cfg
    ensures Receive(cfg, st, Protected(sender, counter, payload)) == (st, Rejected(IdMismatch, counter))
  {
    ProtectedPasses(sender, counter, payload);
  }

  /** A frame that passes every check is accepted if nothing came before it or it continues the sequence. */
  lemma ContinuingIsAccepted(cfg: Config, st: ReceiverState, data: seq<byte>)
    requires Passes(cfg, data) && (st.first || Counter(data) == st.lastSeq + 1)
    ensures Receive(cfg, st, data) == (ReceiverState(Counter(data), false), Accepted(data[10..]))
  {
  }

  /** Otherwise it is a gap, and becomes the new reference all the same. */
  lemma GapIsReported(cfg: Config, st: ReceiverState, data: seq<byte>)
    requires Passes(cfg, data) && !st.first && Counter(data) != st.lastSeq + 1
    ensures Receive(cfg, st, data) == (ReceiverState(Counter(data), false), Rejected(SequenceGap, Counter(data)))
  {
  }

  // ---------- The imperative form ----------

  method PutUint16(buf: array<byte>, at: nat, v: bv16)
    requires at + 2 <= buf.Length
    modifies buf
    ensures buf[..] == old(buf[..at]) + Bytes16(v) + old(buf[at + 2..])
  {
    buf[at] := Low(v);
    buf[at + 1] := High(v);
  }

  method PutUint32(buf: array<byte>, at: nat, v: bv32)
    requires at + 4 <= buf.Length
    modifies buf
    ensures buf[..] == old(buf[..at]) + Bytes32(v) + old(buf[at + 4..])
  {
    buf[at] := (v & 0xFF) as byte;
    buf[at + 1] := ((v >> 8) & 0xFF) as byte;
    buf[at + 2] := ((v >> 16) & 0xFF) as byte;
    buf[at + 3] := ((v >> 24) & 0xFF) as byte;
  }

  method BuildHeader(dataId: bv16, sourceId: bv16, counter: bv32, payload: seq<byte>) returns (hdr: array<byte>)
    ensures fresh(hdr) && hdr.Length == HEADER_SIZE
    ensures hdr[..] + payload == Protected(Config(dataId, sourceId), counter, payload)
  {
    hdr := new byte[HEADER_SIZE](_ => 0);
    ghost var h0 := hdr[..];
    PutUint16(hdr, 0, dataId);
    ghost var h1 := hdr[..];
    PutUint16(hdr, 2, sourceId);
    ghost var h2 := hdr[..];
    PutUint32(hdr, 4, counter);
    FieldsInPlace(Config(dataId, sourceId), counter, h0, h1, h2, hdr[..]);
    var crc := ComputeCrc16(hdr[..] + payload);
    ghost var h3 := hdr[..];
    PutUint16(hdr, 8, crc);
    assert hdr[..] == h3[..8] + Bytes16(crc) == Fields(Config(dataId, sourceId), counter) + Bytes16(crc);
  }

  lemma FieldsInPlace(cfg: Config, counter: bv32, h0: seq<byte>, h1: seq<byte>, h2: seq<byte>, h3: seq<byte>)
    requires |h0| == |h1| == |h2| == |h3| == HEADER_SIZE && h0[8..] == [0, 0]
    requires h1 == h0[..0] + Bytes16(cfg.dataId) + h0[2..]
    requires h2 == h1[..2] + Bytes16(cfg.sourceId) + h1[4..]
    requires h3 == h2[..4] + Bytes32(counter) + h2[8..]
    ensures h3 == Fields(cfg, counter) + [0, 0]
  {
    assert h1[..2] == Bytes16(cfg.dataId);
    assert h2[..4] == Bytes16(cfg.dataId) + Bytes16(cfg.sourceId);
    assert h2[8..] == h1[8..] == h0[8..];
  }

  method Concat(a: array<byte>, b: array<byte>) returns (out: array<byte>)
    ensures fresh(out) && out[..] == a[..] + b[..]
  {
    out := new byte[a.Length + b.Length];
    forall i | 0 <= i < a.Length {
      out[i] := a[i];
    }
    forall i | 0 <= i < b.Length {
      out[a.Length + i] := b[i];
    }
  }

  method CopyFrom(a: array<byte>, start: nat) returns (out: array<byte>)
    requires start <= a.Length
    ensures fresh(out) && out[..] == a[start..]
  {
    out := new byte[a.Length - start];
    forall i | 0 <= i < out.Length {
      out[i] := a[start + i];
    }
  }

  class Protector {
    const cfg: Config
    var seqCounter: bv32

    constructor (cfg: Config)
      ensures this.cfg == cfg && seqCounter == 0
    {
      this.cfg := cfg;
      seqCounter := 0;
    }

    /** The counter wraps at 2^32, as a 32-bit vector does. */
    method Protect(payload: array<byte>) returns (out: array<byte>)
      modifies this
      ensures fresh(out)
      ensures out[..] == Protected(cfg, old(seqCounter), payload[..])
      ensures seqCounter == old(seqCounter) + 1
    {
      var counter := seqCounter;
      seqCounter := seqCounter + 1;
      var hdr := BuildHeader(cfg.dataId, cfg.sourceId, counter, payload[..]);
      out := Concat(hdr, payload);
    }
  }

  /** The CRC comparison of Unwrap, on a scratch copy of the header with the slot zeroed. */
  method CheckCrc(data: array<byte>) returns (ok: bool)
    requires HasHeader(data[..])
    ensures ok == CrcMatches(data[..])
  {
    var tmp := new byte[HEADER_SIZE](i requires 0 <= i < HEADER_SIZE <= data.Length reads data => data[i]);
    tmp[8] := 0;
    tmp[9] := 0;
    assert tmp[..] == data[..8] + [0, 0];
    var crcCalc := ComputeCrc16(tmp[..] + data[HEADER_SIZE..]);
    assert tmp[..] + data[HEADER_SIZE..] == CrcInput(data[..]);
    ok := crcCalc == WireCrc(data[..]);
  }

  class Receiver {
    const cfg: Config
    var lastSeq: bv32
    var first: bool

    constructor (cfg: Config)
      ensures this.cfg == cfg && State() == ReceiverState(0, true)
    {
      this.cfg := cfg;
      lastSeq, first := 0, true;
    }

    function State(): ReceiverState
      reads this
    {
      ReceiverState(lastSeq, first)
    }

    /** The returned payload is a copy of its own; the input is only read. */
    method Unwrap(data: array<byte>) returns (out: array?<byte>, error: Outcome)
      modifies this
      ensures (State(), error) == Receive(cfg, old(State()), data[..])
      ensures error.Rejected? ==> out == null
      ensures error.Accepted? ==> out != null && fresh(out) && out[..] == error.payload
    {
      out := null;
      var arrival := ScreenData(data);
      error := AdvanceTo(arrival);
      if error.Accepted? {
        out := CopyFrom(data, HEADER_SIZE);
      }
    }

    method AdvanceTo(a: Arrival) returns (outcome: Outcome)
      modifies this
      ensures (State(), outcome) == Advance(old(State()), a)
    {
      if a.Bad? {
        return Rejected(a.kind, a.badCounter);
      }
      if !first && a.counter != lastSeq + 1 {
        lastSeq := a.counter;
        return Rejected(SequenceGap, a.counter);
      }
      lastSeq := a.counter;
      first := false;
      return Accepted(a.payload);
    }

    method ScreenData(data: array<byte>) returns (a: Arrival)
      ensures a == Screen(cfg, data[..])
      ensures a.Good? ==> data.Length >= HEADER_SIZE && a.payload == data[HEADER_SIZE..]
    {
      if data.Length < HEADER_SIZE {
        return Bad(HeaderTooShort, 0);
      }
      var crcOk := CheckCrc(data);
      if !crcOk {
        return Bad(CrcMismatch, Counter(data[..]));
      }
      if Identity(data[..]) != cfg {
        return Bad(IdMismatch, Counter(data[..]));
      }
      return Good(Counter(data[..]), data[HEADER_SIZE..]);
    }
  }
}
