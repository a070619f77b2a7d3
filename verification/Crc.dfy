/** CRC-16/CCITT-FALSE: the byte loop, its bit-serial form and the algebra both obey. */
module Crc {
  import opened Bytes
  import opened Bits

  /** The register as its 16 bits, most significant first. */
  type Register = r: seq<bool> | |r| == 16 witness Zeros(16)

  /** 0x1021: x^12 + x^5 + 1. */
  const POLY: Register := [false, false, false, true, false, false, false, false,
                           false, false, true, false, false, false, false, true]
  /** 0xFFFF. */
  const INIT: Register := [true, true, true, true, true, true, true, true,
                           true, true, true, true, true, true, true, true]

  /** One shift of the register: multiplication by x in GF(2)[x] modulo the generator. */
  function Shift(r: Register): Register {
    Feed(r, false)
  }

  /** One clock of the serial register: the top bit plus the incoming bit decides whether POLY is added. */
  function Feed(r: Register, bit: bool): Register {
    Xor(r[1..] + [false], if r[0] != bit then POLY else Zeros(16))
  }

  function Shifts(r: Register, n: nat): Register {
    if n == 0 then r else Shift(Shifts(r, n - 1))
  }

  function Serial(r: Register, bits: seq<bool>): Register {
    if |bits| == 0 then r else Feed(Serial(r, bits[..|bits| - 1]), bits[|bits| - 1])
  }

  function CrcBits(data: seq<byte>): Register {
    Serial(INIT, DataBits(data))
  }

  function Crc16(data: seq<byte>): bv16 {
    Word(CrcBits(data))
  }

  // ---------- The byte loop refines the bit-serial register ----------

  lemma ShiftRefined(s: bv16)
    ensures WordBits(if s & 0x8000 != 0 then (s << 1) ^ 0x1021 else s << 1) == Shift(WordBits(s))
  {
    if s & 0x8000 != 0 {
      XorPolyBits(s << 1);
    }
    DoubledBits(s);
    BitIsMask(High(s), 7);
    assert Masked(High(s), 7) == (s & 0x8000 != 0);
  }

  lemma DoubledBits(s: bv16)
    ensures WordBits(s << 1) == WordBits(s)[1..] + [false]
  {
    DoubledHalves(s);
    assert WordBits(s)[1..] == ByteBits(High(s))[1..] + ByteBits(Low(s));
    assert ByteBits(Low(s)) == [Bit(Low(s), 7)] + ByteBits(Low(s))[1..];
  }

  lemma DoubledHalves(s: bv16)
    ensures ByteBits(High(s << 1)) == ByteBits(High(s))[1..] + [Bit(Low(s), 7)]
    ensures ByteBits(Low(s << 1)) == ByteBits(Low(s))[1..] + [false]
  {
    forall k | 0 <= k < 8
      ensures ByteBits(High(s << 1))[k] == (ByteBits(High(s))[1..] + [Bit(Low(s), 7)])[k]
    {
      DoubledHighBit(s, 7 - k);
    }
    forall k | 0 <= k < 8
      ensures ByteBits(Low(s << 1))[k] == (ByteBits(Low(s))[1..] + [false])[k]
    {
      DoubledLowBit(s, 7 - k);
    }
  }

  lemma DoubledHighBit(s: bv16, k: nat)
    requires k < 8
    ensures Bit(High(s << 1), k) == if k > 0 then Bit(High(s), k - 1) else Bit(Low(s), 7)
  {
    if k == 0 {
      BitIsMask(Low(s), 7);
    } else {
      assert High(s << 1) >> 1 == High(s) & 0x7F;
      BitIsMask(High(s), k - 1);
      BitIsMask(High(s) & 0x7F, k - 1);
      BelowTop(High(s), k - 1);
    }
  }

  lemma BelowTop(b: byte, k: nat)
    requires k < 7
    ensures (b & 0x7F) & (1 << k) == b & (1 << k)
  {
  }

  lemma DoubledLowBit(s: bv16, k: nat)
    requires k < 8
    ensures Bit(Low(s << 1), k) == (k > 0 && Bit(Low(s), k - 1))
  {
    if k > 0 {
      assert Low(s << 1) >> 1 == Low(s) & 0x7F;
      BitIsMask(Low(s), k - 1);
      BitIsMask(Low(s) & 0x7F, k - 1);
      BelowTop(Low(s), k - 1);
    }
  }

  lemma XorPolyBits(s: bv16)
    ensures WordBits(s ^ 0x1021) == Xor(WordBits(s), POLY)
  {
    WordBitsXor(s, 0x1021);
    PolyBits();
  }

  lemma PolyBits()
    ensures WordBits(0x1021) == POLY
  {
    assert High(0x1021) == 0x10 && Low(0x1021) == 0x21;
    forall k | 0 <= k < 8 ensures Bit(0x10, k) == (k == 4) && Bit(0x21, k) == (k == 0 || k == 5) {
      BitIsMask(0x10, k);
      BitIsMask(0x21, k);
      PolyMasks(k);
    }
  }

  lemma PolyMasks(k: nat)
    requires k < 8
    ensures 0x10 & ((1 as byte) << k) != 0 <==> k == 4
    ensures 0x21 & ((1 as byte) << k) != 0 <==> k == 0 || k == 5
  {
  }

  lemma InitBits()
    ensures WordBits(0xFFFF) == INIT
  {
    assert High(0xFFFF) == 0xFF && Low(0xFFFF) == 0xFF;
    forall k | 0 <= k < 8 ensures Bit(0xFF, k) {
      BitIsMask(0xFF, k);
      AllOnes(k);
    }
  }

  lemma AllOnes(k: nat)
    requires k < 8
    ensures 0xFF & ((1 as byte) << k) != 0
  {
  }

  lemma AddByteRefined(s: bv16, b: byte)
    ensures WordBits(s ^ ((b as bv16) << 8)) == Xor(WordBits(s), TopAligned(ByteBits(b)))
  {
    WordBitsXor(s, (b as bv16) << 8);
    RaisedByte(b);
  }

  lemma RaisedByte(b: byte)
    ensures WordBits((b as bv16) << 8) == TopAligned(ByteBits(b))
  {
    assert High((b as bv16) << 8) == b && Low((b as bv16) << 8) == 0;
    NoBits();
  }

  method ComputeCrc16(data: seq<byte>) returns (crc: bv16)
    ensures crc == Crc16(data)
  {
    crc := 0xFFFF;
    InitBits();
    for n := 0 to |data|
      invariant WordBits(crc) == CrcBits(data[..n])
    {
      ghost var before := WordBits(crc);
      AddByteRefined(crc, data[n]);
      crc := crc ^ ((data[n] as bv16) << 8);
      ghost var start := WordBits(crc);
      for i := 0 to 8
        invariant WordBits(crc) == Shifts(start, i)
      {
        ShiftRefined(crc);
        if crc & 0x8000 != 0 {
          crc := (crc << 1) ^ 0x1021;
        } else {
          crc := crc << 1;
        }
      }
      WindowIsShifts(before, ByteBits(data[n]));
      CrcOfPrefix(data, n);
    }
    assert data[..|data|] == data;
    BitsOfWord(CrcBits(data));
    WordBitsInjective(crc, Crc16(data));
  }

  // ---------- Byte by byte ----------

  function Clock(s: bv16): bv16 {
    if s & 0x8000 != 0 then (s << 1) ^ 0x1021 else s << 1
  }

  /** Eight clocks. */
  function ByteClock(s: bv16): bv16 {
    Clock(Clock(Clock(Clock(Clock(Clock(Clock(Clock(s))))))))
  }

  lemma ClockRefined(s: bv16, r: Register, n: nat)
    requires WordBits(s) == Shifts(r, n)
    ensures WordBits(Clock(s)) == Shifts(r, n + 1)
  {
    ShiftRefined(s);
  }

  lemma ByteClockRefined(s: bv16)
    ensures WordBits(ByteClock(s)) == Shifts(WordBits(s), 8)
  {
    var r, c1 := WordBits(s), Clock(s);
    var c2, c3, c4 := Clock(c1), Clock(Clock(c1)), Clock(Clock(Clock(c1)));
    var c5, c6, c7 := Clock(c4), Clock(Clock(c4)), Clock(Clock(Clock(c4)));
    ClockRefined(s, r, 0);
    ClockRefined(c1, r, 1);
    ClockRefined(c2, r, 2);
    ClockRefined(c3, r, 3);
    ClockRefined(c4, r, 4);
    ClockRefined(c5, r, 5);
    ClockRefined(c6, r, 6);
    ClockRefined(c7, r, 7);
  }

  lemma ByteStepRefined(s: bv16, r: Register, b: byte)
    requires WordBits(s) == r
    ensures WordBits(ByteClock(s ^ ((b as bv16) << 8))) == Serial(r, ByteBits(b))
  {
    AddByteRefined(s, b);
    ByteClockRefined(s ^ ((b as bv16) << 8));
    WindowIsShifts(r, ByteBits(b));
  }

  lemma OneMoreByte(data: seq<byte>, b: byte)
    ensures CrcBits(data + [b]) == Serial(CrcBits(data), ByteBits(b))
  {
    var more := data + [b];
    assert more[..|data|] == data && more[..|data| + 1] == more;
    CrcOfPrefix(more, |data|);
  }

  lemma WordIs(r: Register, w: bv16)
    requires WordBits(w) == r
    ensures Word(r) == w
  {
    BitsOfWord(r);
    WordBitsInjective(Word(r), w);
  }

  /** The recurrence of the CRC on 16-bit words, byte by byte. */
  lemma CrcByByte(data: seq<byte>, b: byte)
    ensures Crc16(data + [b]) == ByteClock(Crc16(data) ^ ((b as bv16) << 8))
  {
    BitsOfWord(CrcBits(data));
    ByteStepRefined(Crc16(data), CrcBits(data), b);
    OneMoreByte(data, b);
    WordIs(CrcBits(data + [b]), ByteClock(Crc16(data) ^ ((b as bv16) << 8)));
  }

  lemma EmptyCrc()
    ensures Crc16([]) == 0xFFFF
  {
    InitBits();
    WordIs(INIT, 0xFFFF);
  }

  lemma NextByte(data: seq<byte>, n: nat, b: byte, before: bv16, after: bv16)
    requires n < |data| && data[n] == b
    requires Crc16(data[..n]) == before && ByteClock(before ^ ((b as bv16) << 8)) == after
    ensures Crc16(data[..n + 1]) == after
  {
    CrcByByte(data[..n], b);
    assert data[..n + 1] == data[..n] + [b];
  }

  /** The check value of CRC-16/CCITT-FALSE: the CRC of the nine ASCII digits 1 to 9. */
  lemma CheckValue(data: seq<byte>)
    requires data == [0x31, 0x32, 0x33, 0x34, 0x35, 0x36, 0x37, 0x38, 0x39]
    ensures Crc16(data) == 0x29B1
  {
    EmptyCrc();
    assert data[..0] == [];
    NextByte(data, 0, 0x31, 0xFFFF, 0xC782);
    NextByte(data, 1, 0x32, 0xC782, 0x3DBA);
    NextByte(data, 2, 0x33, 0x3DBA, 0x5BCE);
    NextByte(data, 3, 0x34, 0x5BCE, 0x5349);
    NextByte(data, 4, 0x35, 0x5349, 0x4560);
    NextByte(data, 5, 0x36, 0x4560, 0x2EF4);
    NextByte(data, 6, 0x37, 0x2EF4, 0x7718);
    NextByte(data, 7, 0x38, 0x7718, 0xA12B);
    NextByte(data, 8, 0x39, 0xA12B, 0x29B1);
    assert data[..9] == data;
  }

  lemma CrcOfPrefix(data: seq<byte>, n: nat)
    requires n < |data|
    ensures CrcBits(data[..n + 1]) == Serial(CrcBits(data[..n]), ByteBits(data[n]))
  {
    assert data[..n + 1][..n] == data[..n];
    SerialConcat(INIT, DataBits(data[..n]), ByteBits(data[n]));
  }

  lemma {:induction false} SerialConcat(r: Register, a: seq<bool>, b: seq<bool>)
    ensures Serial(r, a + b) == Serial(Serial(r, a), b)
  {
    if |b| == 0 {
      assert a + b == a;
    } else {
      assert (a + b)[..|a + b| - 1] == a + b[..|b| - 1];
      SerialConcat(r, a, b[..|b| - 1]);
    }
  }

  lemma SerialHead(r: Register, bits: seq<bool>)
    requires |bits| > 0
    ensures Serial(r, bits) == Serial(Feed(r, bits[0]), bits[1..])
  {
    assert bits == [bits[0]] + bits[1..];
    SerialConcat(r, [bits[0]], bits[1..]);
    assert [bits[0]][..0] == [];
  }

  lemma {:induction false} ShiftsHead(r: Register, n: nat)
    ensures Shifts(r, n + 1) == Shifts(Shift(r), n)
  {
    if n > 0 {
      ShiftsHead(r, n - 1);
    }
  }

  /** A window of at most 16 bits placed at the top of the register. */
  function TopAligned(w: seq<bool>): Register
    requires |w| <= 16
  {
    w + Zeros(16 - |w|)
  }

  /** Feeding a window of at most 16 bits is the same as adding it to the register at once and then shifting. */
  lemma {:induction false} WindowIsShifts(r: Register, w: seq<bool>)
    requires |w| <= 16
    ensures Serial(r, w) == Shifts(Xor(r, TopAligned(w)), |w|)
    decreases |w|
  {
    if |w| == 0 {
      assert Xor(r, TopAligned(w)) == r;
    } else {
      assert Shift(Xor(r, TopAligned(w))) == Xor(Feed(r, w[0]), TopAligned(w[1..]));
      WindowIsShifts(Feed(r, w[0]), w[1..]);
      SerialHead(r, w);
      ShiftsHead(Xor(r, TopAligned(w)), |w| - 1);
    }
  }

  // ---------- Linearity ----------

  lemma FeedLinear(r: Register, t: Register, x: bool, y: bool)
    ensures Feed(Xor(r, t), x != y) == Xor(Feed(r, x), Feed(t, y))
  {
  }

  lemma {:induction false} SerialLinear(r: Register, t: Register, a: seq<bool>, b: seq<bool>)
    requires |a| == |b|
    ensures Serial(Xor(r, t), Xor(a, b)) == Xor(Serial(r, a), Serial(t, b))
  {
    if |a| > 0 {
      var n := |a| - 1;
      SerialLinear(r, t, a[..n], b[..n]);
      assert Xor(a, b)[..n] == Xor(a[..n], b[..n]);
      FeedLinear(Serial(r, a[..n]), Serial(t, b[..n]), a[n], b[n]);
    }
  }

  /** The CRCs of two inputs of equal length differ by the zero-start CRC of their difference. */
  lemma CrcAffine(a: seq<byte>, b: seq<byte>)
    requires |a| == |b|
    ensures Xor(CrcBits(a), CrcBits(b)) == Serial(Zeros(16), Xor(DataBits(a), DataBits(b)))
  {
    assert Xor(INIT, INIT) == Zeros(16);
    SerialLinear(INIT, INIT, DataBits(a), DataBits(b));
  }

  // ---------- Error patterns the CRC sees ----------

  lemma {:induction false} SerialZeros(r: Register, n: nat)
    ensures Serial(r, Zeros(n)) == Shifts(r, n)
  {
    if n > 0 {
      assert Zeros(n)[..n - 1] == Zeros(n - 1);
      SerialZeros(r, n - 1);
    }
  }

  /** Shifting loses nothing: only the zero register shifts to zero. */
  lemma ShiftInjective(r: Register)
    ensures Shift(r) == Zeros(16) <==> r == Zeros(16)
  {
    if Shift(r) == Zeros(16) {
      assert Shift(r)[15] == r[0];
      forall i | 1 <= i < 16 ensures !r[i] {
        assert !Shift(r)[i - 1];
      }
    }
  }

  lemma {:induction false} ShiftsInjective(r: Register, n: nat)
    ensures Shifts(r, n) == Zeros(16) <==> r == Zeros(16)
  {
    if n > 0 {
      ShiftsInjective(r, n - 1);
      ShiftInjective(Shifts(r, n - 1));
    }
  }

  /** No error pattern confined to 16 consecutive bits leaves the register at zero, whatever follows it. */
  lemma BurstIsSeen(e: seq<bool>, from: nat, k: nat)
    requires from <= k < |e| && e[k]
    requires forall i :: 0 <= i < |e| && e[i] ==> from <= i < from + 16
    ensures Serial(Zeros(16), e) != Zeros(16)
  {
    var w, after := CutWindow(e, from, k);
    PaddedWindowIsSeen(from, w, after, k - from);
  }

  lemma PaddedWindowIsSeen(before: nat, w: seq<bool>, after: nat, k: nat)
    requires k < |w| <= 16 && w[k]
    ensures Serial(Zeros(16), Zeros(before) + w + Zeros(after)) != Zeros(16)
  {
    SerialBetweenZeros(before, w, after);
    WindowIsSeen(w, k);
    ShiftsInjective(Serial(Zeros(16), w), after);
  }

  lemma CutWindow(e: seq<bool>, from: nat, k: nat) returns (w: seq<bool>, after: nat)
    requires from <= k < |e| && e[k]
    requires forall i :: 0 <= i < |e| && e[i] ==> from <= i < from + 16
    ensures e == Zeros(from) + w + Zeros(after) && |w| <= 16
    ensures k - from < |w| && w[k - from]
  {
    var to := if from + 16 <= |e| then from + 16 else |e|;
    w, after := e[from..to], |e| - to;
  }

  lemma WindowIsSeen(w: seq<bool>, k: nat)
    requires k < |w| <= 16 && w[k]
    ensures Serial(Zeros(16), w) != Zeros(16)
  {
    WindowFromZero(w);
    TopAlignedNonzero(w, k);
    ShiftsInjective(TopAligned(w), |w|);
  }

  lemma WindowFromZero(w: seq<bool>)
    requires |w| <= 16
    ensures Serial(Zeros(16), w) == Shifts(TopAligned(w), |w|)
  {
    assert Xor(Zeros(16), TopAligned(w)) == TopAligned(w);
    WindowIsShifts(Zeros(16), w);
  }

  lemma TopAlignedNonzero(w: seq<bool>, k: nat)
    requires k < |w| <= 16 && w[k]
    ensures TopAligned(w) != Zeros(16)
  {
    assert TopAligned(w)[k] != Zeros(16)[k];
  }

  lemma SerialBetweenZeros(before: nat, w: seq<bool>, after: nat)
    ensures Serial(Zeros(16), Zeros(before) + w + Zeros(after)) == Shifts(Serial(Zeros(16), w), after)
  {
    var z := Zeros(16);
    SerialConcat(z, Zeros(before) + w, Zeros(after));
    SerialConcat(z, Zeros(before), w);
    SerialZeros(z, before);
    ShiftsInjective(z, before);
    SerialZeros(Serial(z, w), after);
  }

  // ---------- Parity ----------

  lemma PolyIsOdd()
    ensures Odd(POLY)
  {
    var a, b := Zeros(3) + [true], Zeros(6) + [true];
    assert POLY == a + b + (Zeros(4) + [true]);
    OddConcat(a + b, Zeros(4) + [true]);
    OddConcat(a, b);
    OddConcat(Zeros(3), [true]);
    OddConcat(Zeros(6), [true]);
    OddConcat(Zeros(4), [true]);
    WeightZeros(3);
    WeightZeros(4);
    WeightZeros(6);
    assert Weight([true]) == 1;
  }

  lemma InitIsEven()
    ensures !Odd(INIT)
  {
    var ones := [true, true, true, true];
    assert INIT == (ones + ones) + (ones + ones);
    OddConcat(ones + ones, ones + ones);
  }

  lemma FeedParity(r: Register, bit: bool)
    ensures Odd(Feed(r, bit)) == (Odd(r) != bit)
  {
    PolyIsOdd();
    WeightZeros(16);
    OddXor(r[1..] + [false], if r[0] != bit then POLY else Zeros(16));
    OddConcat(r[1..], [false]);
    OddConcat([r[0]], r[1..]);
    assert r == [r[0]] + r[1..];
    assert Odd([r[0]]) == r[0] && !Odd([false]);
  }

  lemma {:induction false} SerialParity(r: Register, bits: seq<bool>)
    ensures Odd(Serial(r, bits)) == (Odd(r) != Odd(bits))
  {
    if |bits| > 0 {
      var n := |bits| - 1;
      SerialParity(r, bits[..n]);
      FeedParity(Serial(r, bits[..n]), bits[n]);
    }
  }

  /** The CRC of any data has the bit parity of the data itself. */
  lemma CrcParity(data: seq<byte>)
    ensures Odd(CrcBits(data)) == Odd(DataBits(data))
  {
    SerialParity(INIT, DataBits(data));
    InitIsEven();
  }
}
