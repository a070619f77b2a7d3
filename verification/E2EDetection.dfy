/** Which corruptions of a protected frame the CRC check catches. */
module E2EDetection {
  import opened Bytes
  import opened Bits
  import opened Crc
  import CrcPolynomial
  import CrcOrder
  import opened E2E

  /** The positions, in the order the CRC consumes them, at which two frames of equal length differ. */
  function Flips(d: seq<byte>, d': seq<byte>): seq<bool>
    requires |d| == |d'|
  {
    Xor(DataBits(d), DataBits(d'))
  }

  /** Bits 64..80 of a frame are its CRC slot: low byte first, then high byte. */
  function CoveredFlips(e: seq<bool>): seq<bool>
    requires |e| >= 80
  {
    e[..64] + Zeros(16) + e[80..]
  }

  function SlotFlips(e: seq<bool>): Register
    requires |e| >= 80
  {
    e[72..80] + e[64..72]
  }

  /** What an error pattern adds to the comparison of calculated and transmitted CRC. */
  function Syndrome(e: seq<bool>): Register
    requires |e| >= 80
  {
    Xor(Serial(Zeros(16), CoveredFlips(e)), SlotFlips(e))
  }

  // ---------- The syndrome decides ----------

  lemma FrameBits(d: seq<byte>)
    requires HasHeader(d)
    ensures DataBits(CrcInput(d)) == DataBits(d)[..64] + Zeros(16) + DataBits(d)[80..]
    ensures WordBits(WireCrc(d)) == DataBits(d)[72..80] + DataBits(d)[64..72]
  {
    assert d == d[..8] + d[8..10] + d[10..];
    FramePieces(d[..8], d[8], d[9], d[10..], d);
    ZeroSlot(d[..8], d[10..]);
    JoinSplit(d[9], d[8], 0);
  }

  lemma FramePieces(front: seq<byte>, low: byte, high: byte, back: seq<byte>, d: seq<byte>)
    requires |front| == 8 && d == front + [low, high] + back
    ensures DataBits(d)[..64] == DataBits(front) && DataBits(d)[80..] == DataBits(back)
    ensures DataBits(d)[64..72] == ByteBits(low) && DataBits(d)[72..80] == ByteBits(high)
  {
    DataBitsConcat(front + [low, high], back);
    DataBitsConcat(front, [low, high]);
    assert [low, high] == [low] + [high];
    DataBitsConcat([low], [high]);
    OneByteBits(low);
    OneByteBits(high);
  }

  lemma ZeroSlot(front: seq<byte>, back: seq<byte>)
    ensures DataBits(front + [0, 0] + back) == DataBits(front) + Zeros(16) + DataBits(back)
  {
    DataBitsConcat(front + [0, 0], back);
    DataBitsConcat(front, [0, 0]);
    assert [0, 0] == [0 as byte] + [0];
    DataBitsConcat([0], [0]);
    OneByteBits(0);
    NoBits();
    assert ByteBits(0) == Zeros(8);
    assert Zeros(8) + Zeros(8) == Zeros(16);
  }

  lemma OneByteBits(b: byte)
    ensures DataBits([b]) == ByteBits(b)
  {
    assert [b][..0] == [];
  }

  lemma XorSlices(a: seq<bool>, b: seq<bool>)
    requires |a| == |b| >= 80
    ensures Xor(a[..64] + Zeros(16) + a[80..], b[..64] + Zeros(16) + b[80..]) == CoveredFlips(Xor(a, b))
    ensures Xor(a[72..80] + a[64..72], b[72..80] + b[64..72]) == SlotFlips(Xor(a, b))
  {
  }

  lemma XorSwap(a: Register, b: Register, c: Register, d: Register)
    ensures Xor(Xor(a, b), Xor(c, d)) == Xor(Xor(a, c), Xor(b, d))
  {
  }

  lemma XorIsZero(a: Register, b: Register)
    ensures Xor(a, b) == Zeros(16) <==> a == b
  {
    if Xor(a, b) == Zeros(16) {
      CrcPolynomial.XorZero(a, b);
    }
  }

  lemma MatchInBits(d: seq<byte>)
    requires HasHeader(d)
    ensures CrcMatches(d) <==> CrcBits(CrcInput(d)) == WordBits(WireCrc(d))
  {
    BitsOfWord(CrcBits(CrcInput(d)));
    if CrcBits(CrcInput(d)) == WordBits(WireCrc(d)) {
      WordBitsInjective(Crc16(CrcInput(d)), WireCrc(d));
    }
  }

  /** A corrupted frame still passes the CRC check exactly when the syndrome of the corruption is zero. */
  lemma SyndromeDecides(d: seq<byte>, d': seq<byte>)
    requires HasHeader(d) && CrcMatches(d) && |d'| == |d|
    ensures CrcMatches(d') <==> Syndrome(Flips(d, d')) == Zeros(16)
  {
    MatchInBits(d);
    MatchInBits(d');
    CrcAffine(CrcInput(d), CrcInput(d'));
    FrameBits(d);
    FrameBits(d');
    XorSlices(DataBits(d), DataBits(d'));
    var c, c' := CrcBits(CrcInput(d)), CrcBits(CrcInput(d'));
    var w, w' := WordBits(WireCrc(d)), WordBits(WireCrc(d'));
    XorSwap(c, c', w, w');
    XorIsZero(c, w);
    XorIsZero(c', w');
    assert Syndrome(Flips(d, d')) == Xor(Xor(c, w), Xor(c', w'));
    XorWithZero(Xor(c', w'));
  }

  lemma XorWithZero(a: Register)
    ensures Xor(Zeros(16), a) == a
    ensures Xor(a, Zeros(16)) == a
  {
  }

  /** In polynomial terms: the flips, with the slot moved to the end, form a multiple of the generator. */
  lemma UndetectedIsMultiple(d: seq<byte>, d': seq<byte>)
    requires HasHeader(d) && CrcMatches(d) && |d'| == |d|
    ensures var e := Flips(d, d');
            CrcMatches(d') <==>
            exists q ::
              |q| == |e| && CoveredFlips(e) + SlotFlips(e) == CrcPolynomial.Product(q, CrcPolynomial.GENERATOR)
  {
    var e := Flips(d, d');
    var covered := CoveredFlips(e);
    SyndromeDecides(d, d');
    XorIsZero(Serial(Zeros(16), covered), SlotFlips(e));
    CrcPolynomial.SerialIsRemainder(Zeros(16), covered, SlotFlips(e));
    FlipsAsPolynomial(covered, SlotFlips(e));
  }

  lemma FlipsAsPolynomial(covered: seq<bool>, slot: Register)
    ensures CrcPolynomial.Congruent(CrcPolynomial.Dividend(Zeros(16), covered), CrcPolynomial.Padded(|covered|, slot))
            <==> exists q :: |q| == |covered| && covered + slot == CrcPolynomial.Product(q, CrcPolynomial.GENERATOR)
  {
    assert Xor(CrcPolynomial.Dividend(Zeros(16), covered), CrcPolynomial.Padded(|covered|, slot)) == covered + slot;
  }

  // ---------- What the receiver does with a frame whose CRC does not match ----------

  /** A detected corruption is reported as a CRC mismatch and leaves the receiver as it was. */
  lemma DetectedIsHarmless(cfg: Config, st: ReceiverState, d: seq<byte>)
    requires HasHeader(d) && !CrcMatches(d)
    ensures Receive(cfg, st, d) == (st, Rejected(CrcMismatch, Counter(d)))
  {
  }

  // ---------- Bursts ----------

  /** Every nonzero error inside 16 consecutive bits that avoids the CRC slot is caught. */
  lemma BurstDetected(d: seq<byte>, d': seq<byte>, from: nat)
    requires HasHeader(d) && CrcMatches(d) && |d'| == |d| && d' != d
    requires forall i :: 0 <= i < 8 * |d| && Flips(d, d')[i] ==> from <= i < from + 16 && (i < 64 || i >= 80)
    ensures !CrcMatches(d')
  {
    var e := Flips(d, d');
    var k := DifferenceHasOne(d, d');
    SyndromeDecides(d, d');
    BurstSyndrome(e, from, k);
  }

  lemma BurstSyndrome(e: seq<bool>, from: nat, k: nat)
    requires |e| >= 80 && k < |e| && e[k]
    requires forall i :: 0 <= i < |e| && e[i] ==> from <= i < from + 16 && (i < 64 || i >= 80)
    ensures Syndrome(e) != Zeros(16)
  {
    assert CoveredFlips(e) == e;
    assert SlotFlips(e) == Zeros(16);
    BurstIsSeen(e, from, k);
    XorWithZero(Serial(Zeros(16), e));
  }

  /** Every change confined to the CRC slot itself is caught. */
  lemma SlotChangeDetected(d: seq<byte>, d': seq<byte>)
    requires HasHeader(d) && CrcMatches(d) && |d'| == |d| && d' != d
    requires d'[..8] == d[..8] && d'[10..] == d[10..]
    ensures !CrcMatches(d')
  {
    if WireCrc(d') == WireCrc(d) {
      Uint16Inverse(0, d[8..10]);
      Uint16Inverse(0, d'[8..10]);
    }
  }

  // ---------- Odd numbers of flipped bits ----------

  lemma SyndromeParity(e: seq<bool>)
    requires |e| >= 80
    ensures Odd(Syndrome(e)) == Odd(e)
  {
    SerialParity(Zeros(16), CoveredFlips(e));
    OddXor(Serial(Zeros(16), CoveredFlips(e)), SlotFlips(e));
    WeightZeros(16);
    OddConcat(e[..64] + Zeros(16), e[80..]);
    OddConcat(e[..64], Zeros(16));
    OddConcat(e[72..80], e[64..72]);
    assert e == e[..64] + (e[64..72] + (e[72..80] + e[80..]));
    OddConcat(e[..64], e[64..72] + (e[72..80] + e[80..]));
    OddConcat(e[64..72], e[72..80] + e[80..]);
    OddConcat(e[72..80], e[80..]);
  }

  /** Flipping an odd number of bits anywhere in the frame, slot included, is always caught. */
  lemma OddDetected(d: seq<byte>, d': seq<byte>)
    requires HasHeader(d) && CrcMatches(d) && |d'| == |d|
    requires Odd(Flips(d, d'))
    ensures !CrcMatches(d')
  {
    SyndromeDecides(d, d');
    SyndromeParity(Flips(d, d'));
    WeightZeros(16);
  }

  // ---------- Two flipped bits ----------

  function Single(n: nat, i: nat): seq<bool>
    requires i < n
  {
    Zeros(i) + [true] + Zeros(n - 1 - i)
  }

  /** The power of x that a flip of frame bit i contributes to the syndrome of an n-bit frame. */
  function Exponent(n: nat, i: nat): nat
    requires 80 <= n && i < n
  {
    if 64 <= i < 72 then 71 - i
    else if 72 <= i < 80 then 87 - i
    else n + 15 - i
  }

  lemma {:induction false} LowPower(k: nat)
    requires k <= 15
    ensures CrcOrder.Power(k) == Zeros(15 - k) + [true] + Zeros(k)
  {
    if k > 0 {
      LowPower(k - 1);
    }
  }

  lemma SerialSingle(n: nat, i: nat)
    requires i < n
    ensures Serial(Zeros(16), Single(n, i)) == CrcOrder.Power(n + 15 - i)
  {
    SerialBetweenZeros(i, [true], n - 1 - i);
    WindowFromZero([true]);
    LowPower(15);
    assert TopAligned([true]) == CrcOrder.Power(15);
    CrcOrder.ShiftsAdd(CrcOrder.ONE, 15, 1);
    CrcOrder.ShiftsAdd(CrcOrder.ONE, 16, n - 1 - i);
  }

  lemma SyndromeSingle(n: nat, i: nat)
    requires 80 <= n && i < n
    ensures Syndrome(Single(n, i)) == CrcOrder.Power(Exponent(n, i))
  {
    if 64 <= i < 80 {
      SyndromeInSlot(n, i);
    } else {
      SyndromeOutsideSlot(n, i);
    }
  }

  lemma SyndromeInSlot(n: nat, i: nat)
    requires 80 <= n && 64 <= i < 80
    ensures Syndrome(Single(n, i)) == CrcOrder.Power(Exponent(n, i))
  {
    var e := Single(n, i);
    assert CoveredFlips(e) == Zeros(n);
    SerialZeros(Zeros(16), n);
    ShiftsInjective(Zeros(16), n);
    XorWithZero(SlotFlips(e));
    SlotOfSingle(n, i);
  }

  lemma SlotOfSingle(n: nat, i: nat)
    requires 80 <= n && 64 <= i < 80
    ensures SlotFlips(Single(n, i)) == CrcOrder.Power(Exponent(n, i))
  {
    var k := Exponent(n, i);
    LowPower(k);
    assert SlotFlips(Single(n, i)) == Zeros(15 - k) + [true] + Zeros(k);
  }

  lemma SyndromeOutsideSlot(n: nat, i: nat)
    requires 80 <= n && i < n && (i < 64 || i >= 80)
    ensures Syndrome(Single(n, i)) == CrcOrder.Power(Exponent(n, i))
  {
    var e := Single(n, i);
    assert CoveredFlips(e) == e;
    assert SlotFlips(e) == Zeros(16);
    SerialSingle(n, i);
    XorWithZero(CrcOrder.Power(Exponent(n, i)));
  }

  lemma SyndromeLinear(a: seq<bool>, b: seq<bool>)
    requires |a| == |b| >= 80
    ensures Syndrome(Xor(a, b)) == Xor(Syndrome(a), Syndrome(b))
  {
    var z := Zeros(16);
    assert CoveredFlips(Xor(a, b)) == Xor(CoveredFlips(a), CoveredFlips(b));
    assert SlotFlips(Xor(a, b)) == Xor(SlotFlips(a), SlotFlips(b));
    XorWithZero(z);
    SerialLinear(z, z, CoveredFlips(a), CoveredFlips(b));
    XorSwap(Serial(z, CoveredFlips(a)), Serial(z, CoveredFlips(b)), SlotFlips(a), SlotFlips(b));
  }

  /** Two flipped bits go unnoticed exactly when their exponents differ by a multiple of 32767. */
  lemma PairSyndrome(n: nat, i: nat, j: nat)
    requires 80 <= n && i < n && j < n
    ensures Syndrome(Xor(Single(n, i), Single(n, j))) == Zeros(16) <==>
            Distance(Exponent(n, i), Exponent(n, j)) % CrcOrder.PERIOD == 0
  {
    SyndromeLinear(Single(n, i), Single(n, j));
    SyndromeSingle(n, i);
    SyndromeSingle(n, j);
    XorIsZero(CrcOrder.Power(Exponent(n, i)), CrcOrder.Power(Exponent(n, j)));
    SamePower(Exponent(n, i), Exponent(n, j));
  }

  lemma SamePower(a: nat, b: nat)
    ensures CrcOrder.Power(a) == CrcOrder.Power(b) <==> Distance(a, b) % CrcOrder.PERIOD == 0
  {
    var m := if a < b then a else b;
    CrcOrder.PowersAgree(m, Distance(a, b));
    CrcOrder.OrderOfX(Distance(a, b));
  }

  function Distance(a: nat, b: nat): nat {
    if a < b then b - a else a - b
  }

  lemma DistinctExponents(n: nat, i: nat, j: nat)
    requires 80 <= n <= 32744 && i < j < n
    ensures Distance(Exponent(n, i), Exponent(n, j)) % CrcOrder.PERIOD != 0
  {
    assert 0 < Distance(Exponent(n, i), Exponent(n, j)) < CrcOrder.PERIOD;
  }

  // ---------- Hamming distance ----------

  lemma {:induction false} SomeOne(e: seq<bool>) returns (i: nat)
    requires Weight(e) > 0
    ensures i < |e| && e[i]
    ensures Weight(e[i := false]) == Weight(e) - 1
  {
    var n := |e| - 1;
    if e[n] {
      i := n;
      assert e[i := false][..n] == e[..n];
    } else {
      i := SomeOne(e[..n]);
      assert e[i := false][..n] == e[..n][i := false];
    }
  }

  lemma {:induction false} NoOnes(e: seq<bool>)
    requires Weight(e) == 0
    ensures e == Zeros(|e|)
  {
    if |e| > 0 {
      NoOnes(e[..|e| - 1]);
    }
  }

  lemma TwoOnes(e: seq<bool>) returns (i: nat, j: nat)
    requires Weight(e) == 2
    ensures i < |e| && j < |e| && i != j && e == Xor(Single(|e|, i), Single(|e|, j))
  {
    i := SomeOne(e);
    var f := e[i := false];
    j := SomeOne(f);
    NoOnes(f[j := false]);
    forall k | 0 <= k < |e| ensures e[k] == Xor(Single(|e|, i), Single(|e|, j))[k] {
      assert k != i && k != j ==> f[j := false][k] == e[k];
    }
  }

  /** In frames of at most 4093 bytes every corruption of one, two or three bits is caught, wherever they are. */
  lemma UpToThreeFlipsDetected(d: seq<byte>, d': seq<byte>)
    requires HasHeader(d) && CrcMatches(d) && |d'| == |d| <= 4093
    requires 1 <= Weight(Flips(d, d')) <= 3
    ensures !CrcMatches(d')
  {
    var e := Flips(d, d');
    if Weight(e) == 2 {
      SyndromeDecides(d, d');
      TwoFlipsSyndrome(e);
    } else {
      OddDetected(d, d');
    }
  }

  lemma TwoFlipsSyndrome(e: seq<bool>)
    requires 80 <= |e| <= 32744 && Weight(e) == 2
    ensures Syndrome(e) != Zeros(16)
  {
    var i, j := TwoOnes(e);
    PairSyndrome(|e|, i, j);
    if i < j {
      DistinctExponents(|e|, i, j);
    } else {
      DistinctExponents(|e|, j, i);
      assert Distance(Exponent(|e|, i), Exponent(|e|, j)) == Distance(Exponent(|e|, j), Exponent(|e|, i));
    }
  }

  /** The frame with one bit of byte at flipped, counted from the most significant one. */
  function FlipBit(d: seq<byte>, at: nat, k: nat): seq<byte>
    requires at < |d| && k < 8
  {
    d[at := Byte(ByteBits(d[at])[k := !ByteBits(d[at])[k]])]
  }

  lemma FlipBitFlips(d: seq<byte>, at: nat, k: nat)
    requires at < |d| && k < 8
    ensures Flips(d, FlipBit(d, at, k)) == Single(8 * |d|, 8 * at + k)
  {
    var x := ByteBits(d[at]);
    var y := x[k := !x[k]];
    BitsOfByte(y);
    var front, back := d[..at], d[at + 1..];
    assert d == front + [d[at]] + back && FlipBit(d, at, k) == front + [Byte(y)] + back;
    ThreePieces(front, d[at], back);
    ThreePieces(front, Byte(y), back);
    OneBitOff(DataBits(front), x, DataBits(back), k);
  }

  lemma OneBitOff(front: seq<bool>, x: seq<bool>, back: seq<bool>, k: nat)
    requires k < |x|
    ensures Xor(front + x + back, front + x[k := !x[k]] + back) == Single(|front + x + back|, |front| + k)
  {
    var n := |front| + k;
    var y := x[k := !x[k]];
    assert (front + x + back)[..n] == (front + y + back)[..n];
    assert (front + x + back)[n + 1..] == (front + y + back)[n + 1..];
  }

  lemma ThreePieces(front: seq<byte>, b: byte, back: seq<byte>)
    ensures DataBits(front + [b] + back) == DataBits(front) + ByteBits(b) + DataBits(back)
  {
    DataBitsConcat(front + [b], back);
    DataBitsConcat(front, [b]);
    OneByteBits(b);
  }

  lemma FlipsChain(d: seq<byte>, e: seq<byte>, f: seq<byte>)
    requires |d| == |e| == |f|
    ensures Flips(d, f) == Xor(Flips(d, e), Flips(e, f))
  {
  }

  /**
   * The bound is tight: in every frame of 4094 bytes, flipping the first bit together with the lowest one of the CRC
   * goes unnoticed.
   */
  lemma TwoFlipsMissed(d: seq<byte>)
    requires |d| == 4094 && CrcMatches(d)
    ensures CrcMatches(FlipBit(FlipBit(d, 0, 0), 8, 7))
  {
    var e := FlipBit(d, 0, 0);
    var d' := FlipBit(e, 8, 7);
    FlipBitFlips(d, 0, 0);
    FlipBitFlips(e, 8, 7);
    FlipsChain(d, e, d');
    SyndromeDecides(d, d');
    PairSyndrome(8 * |d|, 0, 71);
  }

  /** The corruptions shown to be caught: bursts outside the slot, slot changes, odd weights, up to three flips. */
  ghost predicate Caught(d: seq<byte>, d': seq<byte>)
    requires HasHeader(d) && |d'| == |d|
  {
    var e := Flips(d, d');
    || (d' != d && exists from :: 0 <= from && OutsideSlot(e, from))
    || (d' != d && d'[..8] == d[..8] && d'[10..] == d[10..])
    || Odd(e)
    || (|d| <= 4093 && 1 <= Weight(e) <= 3)
  }

  predicate OutsideSlot(e: seq<bool>, from: nat) {
    forall i :: 0 <= i < |e| && e[i] ==> from <= i < from + 16 && (i < 64 || i >= 80)
  }

  /** Whatever the receiver's identity and state, a caught corruption of a protected frame changes nothing. */
  lemma CaughtCorruptionIsRejected(sender: Config, counter: bv32, payload: seq<byte>, d': seq<byte>,
                                   cfg: Config, st: ReceiverState)
    requires |d'| == HEADER_SIZE + |payload| == |Protected(sender, counter, payload)|
    requires Caught(Protected(sender, counter, payload), d')
    ensures Receive(cfg, st, d') == (st, Rejected(CrcMismatch, Counter(d')))
  {
    var d := Protected(sender, counter, payload);
    ProtectedPasses(sender, counter, payload);
    CaughtMismatch(d, d');
    DetectedIsHarmless(cfg, st, d');
  }

  lemma CaughtMismatch(d: seq<byte>, d': seq<byte>)
    requires HasHeader(d) && CrcMatches(d) && |d'| == |d| && Caught(d, d')
    ensures !CrcMatches(d')
  {
    var e := Flips(d, d');
    if Odd(e) {
      OddDetected(d, d');
    } else if d' != d && d'[..8] == d[..8] && d'[10..] == d[10..] {
      SlotChangeDetected(d, d');
    } else if |d| <= 4093 && 1 <= Weight(e) <= 3 {
      UpToThreeFlipsDetected(d, d');
    } else {
      var from :| 0 <= from && OutsideSlot(e, from);
      BurstDetected(d, d', from);
    }
  }

  // ---------- The limit of detection ----------

  lemma GeneratorSyndrome(n: nat, at: nat)
    requires 80 <= at && at + 17 <= n
    ensures Syndrome(Zeros(at) + CrcPolynomial.GENERATOR + Zeros(n - at - 17)) == Zeros(16)
  {
    var g := CrcPolynomial.GENERATOR;
    var e := Zeros(at) + g + Zeros(n - at - 17);
    SlotIsClear(at, g, n - at - 17);
    SerialBetweenZeros(at, g, n - at - 17);
    GeneratorVanishes();
    ShiftsInjective(Zeros(16), n - at - 17);
    XorWithZero(Serial(Zeros(16), e));
  }

  lemma SlotIsClear(at: nat, g: seq<bool>, after: nat)
    requires 80 <= at
    ensures var e := Zeros(at) + g + Zeros(after); CoveredFlips(e) == e && SlotFlips(e) == Zeros(16)
  {
  }

  /** The generator leaves no remainder when divided by itself. */
  lemma GeneratorVanishes()
    ensures Serial(Zeros(16), CrcPolynomial.GENERATOR) == Zeros(16)
  {
    SerialConcat(Zeros(16), [true], POLY);
    AfterLeadingOne();
    WindowIsShifts(POLY, POLY);
    XorIsZero(POLY, POLY);
    assert TopAligned(POLY) == POLY;
    ShiftsInjective(Zeros(16), 16);
  }

  lemma AfterLeadingOne()
    ensures Serial(Zeros(16), [true]) == POLY
  {
    assert [true][..0] == [];
    XorWithZero(POLY);
    assert Zeros(16)[1..] + [false] == Zeros(16);
  }

  /**
   * Not every multi-bit corruption is caught: this one flips four payload bits of a frame with a
   * three-byte zero payload and the receiver accepts the result as genuine.
   */
  lemma FourFlipsMissed(cfg: Config, counter: bv32)
    ensures var d := Protected(cfg, counter, [0, 0, 0]);
            var d' := d[..10] + [0x88, 0x10, 0x80];
            Weight(Flips(d, d')) == 4 && Passes(cfg, d') &&
            Receive(cfg, ReceiverState(0, true), d').1 == Accepted([0x88, 0x10, 0x80])
  {
    var d := Protected(cfg, counter, [0, 0, 0]);
    var d' := d[..10] + [0x88, 0x10, 0x80];
    ProtectedPasses(cfg, counter, [0, 0, 0]);
    FourFlips(d, d');
    SyndromeDecides(d, d');
    GeneratorSyndrome(104, 80);
    assert Identity(d') == Identity(d) by {
      assert d'[0..2] == d[0..2] && d'[2..4] == d[2..4];
    }
  }

  lemma FourFlips(d: seq<byte>, d': seq<byte>)
    requires |d| == 13 && d[10..] == [0, 0, 0] && d' == d[..10] + [0x88, 0x10, 0x80]
    ensures Flips(d, d') == Zeros(80) + CrcPolynomial.GENERATOR + Zeros(7)
    ensures Weight(Flips(d, d')) == 4
  {
    var payload: seq<byte> := [0x88, 0x10, 0x80];
    assert d == d[..10] + [0, 0, 0];
    DataBitsConcat(d[..10], [0, 0, 0]);
    DataBitsConcat(d[..10], payload);
    ThreeBytes(0, 0, 0);
    ThreeBytes(0x88, 0x10, 0x80);
    PayloadBits();
    assert Xor(DataBits([0, 0, 0]), DataBits(payload)) == DataBits(payload);
    assert Xor(DataBits(d[..10]), DataBits(d[..10])) == Zeros(80);
    XorConcat(DataBits(d[..10]), DataBits([0, 0, 0]), DataBits(d[..10]), DataBits(payload));
    GeneratorWeight();
  }

  lemma GeneratorWeight()
    ensures Weight(Zeros(80) + CrcPolynomial.GENERATOR + Zeros(7)) == 4
  {
    assert Zeros(80) + CrcPolynomial.GENERATOR + Zeros(7) ==
           ((Zeros(80) + [true]) + (Zeros(3) + [true])) + ((Zeros(6) + [true]) + (Zeros(4) + [true])) + Zeros(7);
    WeightConcat(((Zeros(80) + [true]) + (Zeros(3) + [true])) + ((Zeros(6) + [true]) + (Zeros(4) + [true])), Zeros(7));
    WeightConcat((Zeros(80) + [true]) + (Zeros(3) + [true]), (Zeros(6) + [true]) + (Zeros(4) + [true]));
    WeightConcat(Zeros(80) + [true], Zeros(3) + [true]);
    WeightConcat(Zeros(6) + [true], Zeros(4) + [true]);
    OneAfterZeros(80);
    OneAfterZeros(3);
    OneAfterZeros(6);
    OneAfterZeros(4);
    WeightZeros(7);
  }

  lemma OneAfterZeros(n: nat)
    ensures Weight(Zeros(n) + [true]) == 1
  {
    WeightZeros(n);
    assert (Zeros(n) + [true])[..n] == Zeros(n);
  }

  lemma ThreeBytes(a: byte, b: byte, c: byte)
    ensures DataBits([a, b, c]) == ByteBits(a) + ByteBits(b) + ByteBits(c)
  {
    assert [a, b, c] == [a] + [b] + [c];
    DataBitsConcat([a] + [b], [c]);
    DataBitsConcat([a], [b]);
    OneByteBits(a);
    OneByteBits(b);
    OneByteBits(c);
  }

  lemma PayloadBits()
    ensures ByteBits(0) == Zeros(8)
    ensures ByteBits(0x88) + ByteBits(0x10) + ByteBits(0x80) == CrcPolynomial.GENERATOR + Zeros(7)
  {
    NoBits();
    forall k | 0 <= k < 8
      ensures Bit(0x88, k) == (k == 7 || k == 3) && Bit(0x10, k) == (k == 4) && Bit(0x80, k) == (k == 7)
    {
      BitIsMask(0x88, k);
      BitIsMask(0x10, k);
      BitIsMask(0x80, k);
      PayloadMasks(k);
    }
  }

  lemma PayloadMasks(k: nat)
    requires k < 8
    ensures 0x88 & ((1 as byte) << k) != 0 <==> k == 7 || k == 3
    ensures 0x10 & ((1 as byte) << k) != 0 <==> k == 4
    ensures 0x80 & ((1 as byte) << k) != 0 <==> k == 7
  {
  }
}
