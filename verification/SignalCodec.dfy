/** Encode and Decode: signal values to payload bits and back. */
module SignalCodec {
  import opened Bytes
  import opened Bits
  import opened Signals
  import opened LdfDatabase
  import Lin

  // ---------- Specification ----------

  /** How many bits of a signal lie inside a payload of len bytes. */
  function Span(len: nat, bitOffset: nat, bitWidth: int): nat {
    var room := if 8 * len > bitOffset then 8 * len - bitOffset else 0;
    if bitWidth <= 0 then 0 else if bitWidth < room then bitWidth else room
  }

  /** The value of the n payload bits from bitOffset on; bits from the 65th on are lost. */
  function Extracted(data: seq<byte>, bitOffset: nat, n: nat): nat
    requires n > 0 ==> bitOffset + n <= 8 * |data|
  {
    if n == 0 then 0
    else if n <= 64 && DataBit(data, bitOffset + n - 1) then SetBit(Extracted(data, bitOffset, n - 1), n - 1)
    else Extracted(data, bitOffset, n - 1)
  }

  lemma {:induction false} ExtractedBit(data: seq<byte>, bitOffset: nat, n: nat, k: nat)
    requires n > 0 ==> bitOffset + n <= 8 * |data|
    ensures ValueBit(Extracted(data, bitOffset, n), k) == (k < n && k < 64 && DataBit(data, bitOffset + k))
  {
    if n == 0 {
      ZeroHasNoBits(k);
    } else {
      ExtractedBit(data, bitOffset, n - 1, k);
      SetValueBit(Extracted(data, bitOffset, n - 1), n - 1, k);
    }
  }

  lemma {:induction false} ExtractedBound(data: seq<byte>, bitOffset: nat, n: nat)
    requires n > 0 ==> bitOffset + n <= 8 * |data|
    ensures Extracted(data, bitOffset, n) < 0x1_0000_0000_0000_0000
  {
    Pow2Of64();
    if n > 0 {
      ExtractedBound(data, bitOffset, n - 1);
      if n <= 64 {
        SetBitBound(Extracted(data, bitOffset, n - 1), n - 1, 64);
      }
    }
  }

  function SignalValue(data: seq<byte>, ref: SignalRef, sig: Signal): uint64
    requires ref.bitOffset >= 0
  {
    ExtractedBound(data, ref.bitOffset, Span(|data|, ref.bitOffset, sig.bitWidth));
    Extracted(data, ref.bitOffset, Span(|data|, ref.bitOffset, sig.bitWidth))
  }

  function Decoded(signals: map<string, Signal>, refs: seq<SignalRef>, data: seq<byte>): map<string, uint64>
    requires SoundRefs(refs)
  {
    if |refs| == 0 then
      map[]
    else
      var last := refs[|refs| - 1];
      var rest := Decoded(signals, refs[..|refs| - 1], data);
      if last.name in signals then rest[last.name := SignalValue(data, last, signals[last.name])] else rest
  }

  predicate Covers(signals: map<string, Signal>, ref: SignalRef, b: nat) {
    ref.name in signals && ref.bitOffset <= b < ref.bitOffset + signals[ref.name].bitWidth
  }

  /** The value to send for a declared signal: the given one or else its initial value. */
  function ValueFor(signals: map<string, Signal>, values: map<string, uint64>, name: string): uint64
    requires name in signals
  {
    if name in values then values[name] else signals[name].initValue
  }

  /** The bit of the last reference that covers b, and 0 if none does. */
  predicate EncodedBit(signals: map<string, Signal>, refs: seq<SignalRef>, values: map<string, uint64>, b: nat) {
    if |refs| == 0 then
      false
    else
      var last := refs[|refs| - 1];
      if Covers(signals, last, b) then ValueBit(ValueFor(signals, values, last.name), b - last.bitOffset)
      else EncodedBit(signals, refs[..|refs| - 1], values, b)
  }

  /** The bits of payload byte i, most significant first. */
  function EncodedBits(
    signals: map<string, Signal>, refs: seq<SignalRef>, values: map<string, uint64>, i: nat): seq<bool>
  {
    seq(8, k requires 0 <= k < 8 => EncodedBit(signals, refs, values, 8 * i + 7 - k))
  }

  function EncodedByte(signals: map<string, Signal>, refs: seq<SignalRef>, values: map<string, uint64>, i: nat): byte {
    Byte(EncodedBits(signals, refs, values, i))
  }

  function Encoded(len: nat, signals: map<string, Signal>, refs: seq<SignalRef>, values: map<string, uint64>): seq<byte>
  {
    seq(len, i requires 0 <= i < len => EncodedByte(signals, refs, values, i))
  }

  lemma EncodedByteBit(signals: map<string, Signal>, refs: seq<SignalRef>, values: map<string, uint64>, i: nat, j: nat)
    requires j < 8
    ensures Bit(EncodedByte(signals, refs, values, i), j) == EncodedBit(signals, refs, values, 8 * i + j)
  {
    var bits := EncodedBits(signals, refs, values, i);
    AssembledBit(bits, |bits|, j);
    assert bits[7 - j] == EncodedBit(signals, refs, values, 8 * i + 7 - (7 - j));
  }

  lemma PositionSplit(b: nat)
    ensures 8 * (b / 8) + b % 8 == b
  {
  }

  lemma EncodedPayloadBit(
    len: nat, signals: map<string, Signal>, refs: seq<SignalRef>, values: map<string, uint64>, i: nat, j: nat, b: nat)
    requires i < len && j < 8 && b == 8 * i + j
    ensures Bit(Encoded(len, signals, refs, values)[i], j) == EncodedBit(signals, refs, values, b)
  {
    EncodedByteBit(signals, refs, values, i, j);
  }

  /** Encode is bit-exact: bit b is that of the last signal reference covering it. */
  lemma EncodeIsBitExact(
    len: nat, signals: map<string, Signal>, refs: seq<SignalRef>, values: map<string, uint64>, b: nat)
    requires b < 8 * len
    ensures DataBit(Encoded(len, signals, refs, values), b) == EncodedBit(signals, refs, values, b)
  {
    PositionSplit(b);
    EncodedPayloadBit(len, signals, refs, values, b / 8, b % 8, b);
  }

  lemma SameDataBits(x: seq<byte>, y: seq<byte>)
    requires |x| == |y|
    requires forall b :: 0 <= b < 8 * |x| ==> DataBit(x, b) == DataBit(y, b)
    ensures x == y
  {
    forall i | 0 <= i < |x| ensures x[i] == y[i] {
      forall k | 0 <= k < 8 ensures Bit(x[i], k) == Bit(y[i], k) {
        assert DataBit(x, 8 * i + k) == DataBit(y, 8 * i + k);
      }
      SameBits(x[i], y[i]);
    }
  }

  // ---------- The loops ----------

  method ExtractBits(data: array<byte>, bitOffset: int, bitWidth: int) returns (val: uint64)
    requires bitOffset >= 0
    ensures val == Extracted(data[..], bitOffset, Span(data.Length, bitOffset, bitWidth))
  {
    val := 0;
    var i := 0;
    while i < bitWidth
      invariant 0 <= i && (i > 0 ==> i <= bitWidth && bitOffset + i <= 8 * data.Length)
      invariant val == Extracted(data[..], bitOffset, i)
    {
      var byteIdx, bitIdx := (bitOffset + i) / 8, (bitOffset + i) % 8;
      if byteIdx >= data.Length {
        break;
      }
      ExtractedBound(data[..], bitOffset, i + 1);
      if Bit(data[byteIdx], bitIdx) && i < 64 {
        val := SetBit(val, i);
      }
      i := i + 1;
    }
  }

  /** after is before with n bits from bitOffset on replaced by those of val. */
  predicate Packed(before: seq<byte>, after: seq<byte>, bitOffset: nat, n: int, val: uint64) {
    |after| == |before| &&
    forall b :: 0 <= b < 8 * |before| ==>
      DataBit(after, b) == if bitOffset <= b < bitOffset + n then ValueBit(val, b - bitOffset) else DataBit(before, b)
  }

  function WriteBit(b: byte, k: nat, bit: bool): byte
    requires k < 8
  {
    if bit then b | (1 << k) else b & !(1 << k)
  }

  lemma WriteBitAt(b: byte, k: nat, bit: bool, j: nat)
    requires k < 8 && j < 8
    ensures Bit(WriteBit(b, k, bit), j) == if j == k then bit else Bit(b, j)
  {
    SetBitAt(b, k, j);
    ClearBitAt(b, k, j);
  }

  lemma WrittenBit(data: seq<byte>, at: nat, bit: bool, b: nat)
    requires at < 8 * |data| && b < 8 * |data|
    ensures DataBit(data[at / 8 := WriteBit(data[at / 8], at % 8, bit)], b) == if b == at then bit else DataBit(data, b)
  {
    if b / 8 == at / 8 {
      WriteBitAt(data[at / 8], at % 8, bit, b % 8);
      SamePosition(b, at);
    }
  }

  lemma SamePosition(a: nat, b: nat)
    ensures a == b <==> a / 8 == b / 8 && a % 8 == b % 8
  {
  }

  /** One bit written, as a change of one bit of the payload. */
  predicate WrittenAt(mid: seq<byte>, after: seq<byte>, at: nat, bit: bool) {
    |after| == |mid| && forall b :: 0 <= b < 8 * |mid| ==> DataBit(after, b) == if b == at then bit else DataBit(mid, b)
  }

  lemma WriteIsWrittenAt(mid: seq<byte>, after: seq<byte>, at: nat, bit: bool)
    requires at < 8 * |mid| && after == mid[at / 8 := WriteBit(mid[at / 8], at % 8, bit)]
    ensures WrittenAt(mid, after, at, bit)
  {
    forall b | 0 <= b < 8 * |mid| ensures DataBit(after, b) == if b == at then bit else DataBit(mid, b) {
      WrittenBit(mid, at, bit, b);
    }
  }

  lemma PackOneMore(before: seq<byte>, mid: seq<byte>, after: seq<byte>, bitOffset: nat, i: nat, val: uint64)
    requires Packed(before, mid, bitOffset, i, val) && bitOffset + i < 8 * |before|
    requires WrittenAt(mid, after, bitOffset + i, ValueBit(val, i))
    ensures Packed(before, after, bitOffset, i + 1, val)
  {
  }

  /** Bits past the end of the payload are not packed. */
  lemma PackedClipped(before: seq<byte>, after: seq<byte>, bitOffset: nat, i: nat, bitWidth: int, val: uint64)
    requires Packed(before, after, bitOffset, i, val)
    requires i == bitWidth || (bitWidth <= 0 && i == 0) || (i < bitWidth && bitOffset + i >= 8 * |before|)
    ensures Packed(before, after, bitOffset, bitWidth, val)
  {
  }

  method PackBits(data: array<byte>, bitOffset: int, bitWidth: int, val: uint64)
    requires bitOffset >= 0
    modifies data
    ensures Packed(old(data[..]), data[..], bitOffset, bitWidth, val)
  {
    ghost var before := data[..];
    var i := 0;
    while i < bitWidth
      invariant 0 <= i && (i > 0 ==> i <= bitWidth)
      invariant Packed(before, data[..], bitOffset, i, val)
    {
      var byteIdx, bitIdx := (bitOffset + i) / 8, (bitOffset + i) % 8;
      if byteIdx >= data.Length {
        break;
      }
      ghost var mid := data[..];
      data[byteIdx] := WriteBit(data[byteIdx], bitIdx, ValueBit(val, i));
      WriteIsWrittenAt(mid, data[..], bitOffset + i, ValueBit(val, i));
      PackOneMore(before, mid, data[..], bitOffset, i, val);
      i := i + 1;
    }
    PackedClipped(before, data[..], bitOffset, i, bitWidth, val);
  }

  method Decode(db: Database, id: Lin.uint8, data: array<byte>) returns (found: bool, result: map<string, uint64>)
    requires Sound(db)
    ensures found == (id in db.frames)
    ensures found ==> result == Decoded(db.signals, db.frames[id].signals, data[..])
  {
    result := map[];
    if id !in db.frames {
      return false, result;
    }
    var refs := db.frames[id].signals;
    for n := 0 to |refs|
      invariant result == Decoded(db.signals, refs[..n], data[..])
    {
      assert refs[..n + 1][..n] == refs[..n];
      var ref := refs[n];
      if ref.name in db.signals {
        var v := ExtractBits(data, ref.bitOffset, db.signals[ref.name].bitWidth);
        result := result[ref.name := v];
      }
    }
    assert refs[..|refs|] == refs;
    found := true;
  }

  method Encode(db: Database, id: Lin.uint8, values: map<string, uint64>) returns (data: array?<byte>)
    requires Sound(db)
    ensures data == null <==> id !in db.frames
    ensures data != null ==> fresh(data)
    ensures data != null ==>
              data[..] == Encoded(db.frames[id].length, db.signals, db.frames[id].signals, values)
  {
    if id !in db.frames {
      return null;
    }
    var f := db.frames[id];
    var buf := new byte[f.length](_ => 0);
    NothingEncoded(buf[..], db.signals, values);
    for n := 0 to |f.signals|
      invariant buf.Length == f.length
      invariant EncodedSoFar(buf[..], db.signals, f.signals[..n], values)
    {
      var ref := f.signals[n];
      if ref.name in db.signals {
        var sig := db.signals[ref.name];
        var val := if ref.name in values then values[ref.name] else sig.initValue;
        ghost var before := buf[..];
        PackBits(buf, ref.bitOffset, sig.bitWidth, val);
        EncodeOneMore(before, buf[..], db.signals, f.signals, n, values);
      } else {
        EncodeSkip(buf[..], db.signals, f.signals, n, values);
      }
    }
    assert f.signals[..|f.signals|] == f.signals;
    EncodedComplete(buf[..], db.signals, f.signals, values);
    return buf;
  }

  predicate EncodedSoFar(
    data: seq<byte>, signals: map<string, Signal>, refs: seq<SignalRef>, values: map<string, uint64>)
  {
    forall b :: 0 <= b < 8 * |data| ==> DataBit(data, b) == EncodedBit(signals, refs, values, b)
  }

  lemma NothingEncoded(data: seq<byte>, signals: map<string, Signal>, values: map<string, uint64>)
    requires forall i :: 0 <= i < |data| ==> data[i] == 0
    ensures EncodedSoFar(data, signals, [], values)
  {
    NoBits();
  }

  lemma EncodeOneMore(before: seq<byte>, after: seq<byte>, signals: map<string, Signal>, refs: seq<SignalRef>, n: nat,
                      values: map<string, uint64>)
    requires n < |refs| && refs[n].bitOffset >= 0 && refs[n].name in signals
    requires EncodedSoFar(before, signals, refs[..n], values)
    requires Packed(before, after, refs[n].bitOffset, signals[refs[n].name].bitWidth,
                    ValueFor(signals, values, refs[n].name))
    ensures EncodedSoFar(after, signals, refs[..n + 1], values)
  {
    assert refs[..n + 1][..n] == refs[..n];
  }

  lemma EncodeSkip(data: seq<byte>, signals: map<string, Signal>, refs: seq<SignalRef>, n: nat,
                   values: map<string, uint64>)
    requires n < |refs| && refs[n].name !in signals
    requires EncodedSoFar(data, signals, refs[..n], values)
    ensures EncodedSoFar(data, signals, refs[..n + 1], values)
  {
    assert refs[..n + 1][..n] == refs[..n];
  }

  lemma EncodedComplete(
    data: seq<byte>, signals: map<string, Signal>, refs: seq<SignalRef>, values: map<string, uint64>)
    requires EncodedSoFar(data, signals, refs, values)
    ensures data == Encoded(|data|, signals, refs, values)
  {
    forall b | 0 <= b < 8 * |data|
      ensures DataBit(data, b) == DataBit(Encoded(|data|, signals, refs, values), b)
    {
      EncodeIsBitExact(|data|, signals, refs, values, b);
    }
    SameDataBits(data, Encoded(|data|, signals, refs, values));
  }
}
