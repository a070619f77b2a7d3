/** Bit sequences in transmission order: every byte contributes its most significant bit first. */
module Bits {
  import opened Bytes

  function Zeros(n: nat): seq<bool> {
    seq(n, _ => false)
  }

  function Xor(a: seq<bool>, b: seq<bool>): seq<bool>
    requires |a| == |b|
  {
    seq(|a|, i requires 0 <= i < |a| => a[i] != b[i])
  }

  /** Bit k of a byte, bit 0 being the least significant. */
  predicate Bit(b: byte, k: nat)
    requires k < 8
  {
    if k == 0 then b & 1 != 0 else Bit(b >> 1, k - 1)
  }

  lemma {:induction false} BitIsMask(b: byte, k: nat)
    requires k < 8
    ensures Bit(b, k) == Masked(b, k)
  {
    if k > 0 {
      BitIsMask(b >> 1, k - 1);
      ShiftedMask(b, k);
    }
  }

  lemma ShiftedMask(b: byte, k: nat)
    requires 0 < k < 8
    ensures ((b >> 1) & (1 << (k - 1)) != 0) == (b & (1 << k) != 0)
  {
  }

  function ByteBits(b: byte): seq<bool> {
    seq(8, k requires 0 <= k < 8 => Bit(b, 7 - k))
  }

  function DataBits(data: seq<byte>): (bits: seq<bool>)
    ensures |bits| == 8 * |data|
  {
    if |data| == 0 then [] else DataBits(data[..|data| - 1]) + ByteBits(data[|data| - 1])
  }

  function High(w: bv16): byte {
    (w >> 8) as byte
  }

  function Low(w: bv16): byte {
    (w & 0xFF) as byte
  }

  function Join(high: byte, low: byte): bv16 {
    ((high as bv16) << 8) | (low as bv16)
  }

  function WordBits(w: bv16): (bits: seq<bool>)
    ensures |bits| == 16
  {
    ByteBits(High(w)) + ByteBits(Low(w))
  }

  /** The byte whose first n bits are given and whose other bits are clear. */
  function Assemble(bits: seq<bool>, n: nat): byte
    requires n <= |bits| == 8
  {
    if n == 0 then 0
    else if bits[n - 1] then Assemble(bits, n - 1) | (1 << (8 - n))
    else Assemble(bits, n - 1)
  }

  lemma {:induction false} AssembledBit(bits: seq<bool>, n: nat, j: nat)
    requires n <= |bits| == 8 && j < 8
    ensures Bit(Assemble(bits, n), j) == (7 - j < n && bits[7 - j])
  {
    if n == 0 {
      BitOfZero(j);
    } else {
      AssembledBit(bits, n - 1, j);
      SetBitAt(Assemble(bits, n - 1), 8 - n, j);
    }
  }

  lemma NoBits()
    ensures forall k :: 0 <= k < 8 ==> !Bit(0, k)
  {
    forall k | 0 <= k < 8 ensures !Bit(0, k) {
      BitOfZero(k);
    }
  }

  lemma BitOfZero(k: nat)
    requires k < 8
    ensures !Bit(0, k)
  {
    BitIsMask(0, k);
    NothingInZero(1 << k);
  }

  lemma NothingInZero(m: byte)
    ensures 0 & m == 0
  {
  }

  lemma SetBitAt(b: byte, i: nat, j: nat)
    requires i < 8 && j < 8
    ensures Bit(b | (1 << i), j) == (i == j || Bit(b, j))
  {
    BitIsMask(b | (1 << i), j);
    BitIsMask(b, j);
    SetMask(b, i, j);
  }

  lemma SetMask(b: byte, i: nat, j: nat)
    requires i < 8 && j < 8
    ensures (b | (1 << i)) & (1 << j) != 0 <==> i == j || b & (1 << j) != 0
  {
  }

  lemma ClearBitAt(b: byte, i: nat, j: nat)
    requires i < 8 && j < 8
    ensures Bit(b & !(1 << i), j) == (i != j && Bit(b, j))
  {
    BitIsMask(b & !(1 << i), j);
    BitIsMask(b, j);
    ClearMask(b, i, j);
  }

  lemma ClearMask(b: byte, i: nat, j: nat)
    requires i < 8 && j < 8
    ensures b & !(1 << i) & (1 << j) != 0 <==> i != j && b & (1 << j) != 0
  {
  }

  function Byte(bits: seq<bool>): byte
    requires |bits| == 8
  {
    Assemble(bits, |bits|)
  }

  function Word(b: seq<bool>): bv16
    requires |b| == 16
  {
    Join(Byte(b[..8]), Byte(b[8..]))
  }

  lemma JoinSplit(high: byte, low: byte, w: bv16)
    ensures High(Join(high, low)) == high && Low(Join(high, low)) == low
    ensures Join(High(w), Low(w)) == w
  {
  }

  /** A byte is determined by its bits. */
  lemma SameBits(x: byte, y: byte)
    requires forall k :: 0 <= k < 8 ==> Bit(x, k) == Bit(y, k)
    ensures x == y
  {
    forall k | 0 <= k < 8 ensures Masked(x, k) == Masked(y, k) {
      BitIsMask(x, k);
      BitIsMask(y, k);
      assert Bit(x, k) == Bit(y, k);
    }
    SameMasks(x, y);
  }

  predicate Masked(b: byte, k: nat)
    requires k < 8
  {
    b & (1 << k) != 0
  }

  lemma SameMasks(x: byte, y: byte)
    requires forall k :: 0 <= k < 8 ==> Masked(x, k) == Masked(y, k)
    ensures x == y
  {
    assert Masked(x, 0) == Masked(y, 0) && Masked(x, 1) == Masked(y, 1);
    assert Masked(x, 2) == Masked(y, 2) && Masked(x, 3) == Masked(y, 3);
    assert Masked(x, 4) == Masked(y, 4) && Masked(x, 5) == Masked(y, 5);
    assert Masked(x, 6) == Masked(y, 6) && Masked(x, 7) == Masked(y, 7);
  }

  lemma ByteBitsInjective(x: byte, y: byte)
    requires ByteBits(x) == ByteBits(y)
    ensures x == y
  {
    forall k | 0 <= k < 8 ensures Bit(x, k) == Bit(y, k) {
      assert ByteBits(x)[7 - k] == ByteBits(y)[7 - k];
    }
    SameBits(x, y);
  }

  lemma BitsOfByte(bits: seq<bool>)
    requires |bits| == 8
    ensures ByteBits(Byte(bits)) == bits
  {
    var b := Byte(bits);
    forall k | 0 <= k < 8 ensures ByteBits(b)[k] == bits[k] {
      AssembledBit(bits, |bits|, 7 - k);
    }
  }

  lemma BitsOfWord(b: seq<bool>)
    requires |b| == 16
    ensures WordBits(Word(b)) == b
  {
    BitsOfByte(b[..8]);
    BitsOfByte(b[8..]);
    JoinSplit(Byte(b[..8]), Byte(b[8..]), 0);
  }

  lemma WordBitsInjective(s: bv16, t: bv16)
    requires WordBits(s) == WordBits(t)
    ensures s == t
  {
    assert WordBits(s)[..8] == ByteBits(High(s)) && WordBits(s)[8..] == ByteBits(Low(s));
    assert WordBits(t)[..8] == ByteBits(High(t)) && WordBits(t)[8..] == ByteBits(Low(t));
    ByteBitsInjective(High(s), High(t));
    ByteBitsInjective(Low(s), Low(t));
    JoinSplit(0, 0, s);
    JoinSplit(0, 0, t);
  }

  lemma {:induction false} BitXor(x: byte, y: byte, k: nat)
    requires k < 8
    ensures Bit(x ^ y, k) == (Bit(x, k) != Bit(y, k))
  {
    if k == 0 {
      LowestXor(x, y);
    } else {
      assert (x ^ y) >> 1 == (x >> 1) ^ (y >> 1);
      BitXor(x >> 1, y >> 1, k - 1);
    }
  }

  lemma LowestXor(x: byte, y: byte)
    ensures ((x ^ y) & 1 != 0) == ((x & 1 != 0) != (y & 1 != 0))
  {
  }

  lemma ByteBitsXor(x: byte, y: byte)
    ensures ByteBits(x ^ y) == Xor(ByteBits(x), ByteBits(y))
  {
    forall k | 0 <= k < 8 ensures ByteBits(x ^ y)[k] == Xor(ByteBits(x), ByteBits(y))[k] {
      BitXor(x, y, 7 - k);
    }
  }

  lemma WordBitsXor(s: bv16, t: bv16)
    ensures WordBits(s ^ t) == Xor(WordBits(s), WordBits(t))
  {
    SplitXor(s, t);
    ByteBitsXor(High(s), High(t));
    ByteBitsXor(Low(s), Low(t));
    XorConcat(ByteBits(High(s)), ByteBits(Low(s)), ByteBits(High(t)), ByteBits(Low(t)));
  }

  lemma SplitXor(s: bv16, t: bv16)
    ensures High(s ^ t) == High(s) ^ High(t)
    ensures Low(s ^ t) == Low(s) ^ Low(t)
  {
  }

  /** The number of ones. */
  function Weight(bits: seq<bool>): nat {
    if |bits| == 0 then 0 else Weight(bits[..|bits| - 1]) + (if bits[|bits| - 1] then 1 else 0)
  }

  predicate Odd(bits: seq<bool>) {
    Weight(bits) % 2 == 1
  }

  lemma {:induction false} DataBitsConcat(a: seq<byte>, b: seq<byte>)
    ensures DataBits(a + b) == DataBits(a) + DataBits(b)
  {
    if |b| == 0 {
      assert a + b == a;
    } else {
      assert (a + b)[..|a + b| - 1] == a + b[..|b| - 1];
      DataBitsConcat(a, b[..|b| - 1]);
    }
  }

  lemma {:induction false} DataBitsInjective(a: seq<byte>, b: seq<byte>)
    requires |a| == |b| && DataBits(a) == DataBits(b)
    ensures a == b
  {
    if |a| > 0 {
      var n := |a| - 1;
      assert DataBits(a)[..8 * n] == DataBits(a[..n]) && DataBits(a)[8 * n..] == ByteBits(a[n]);
      assert DataBits(b)[..8 * n] == DataBits(b[..n]) && DataBits(b)[8 * n..] == ByteBits(b[n]);
      DataBitsInjective(a[..n], b[..n]);
      ByteBitsInjective(a[n], b[n]);
      assert a == a[..n] + [a[n]] && b == b[..n] + [b[n]];
    }
  }

  /** Different data of equal length differ in some bit. */
  lemma DifferenceHasOne(a: seq<byte>, b: seq<byte>) returns (k: nat)
    requires |a| == |b| && a != b
    ensures k < 8 * |a| && Xor(DataBits(a), DataBits(b))[k]
  {
    if forall i :: 0 <= i < 8 * |a| ==> DataBits(a)[i] == DataBits(b)[i] {
      DataBitsInjective(a, b);
      assert false;
    }
    k :| 0 <= k < 8 * |a| && DataBits(a)[k] != DataBits(b)[k];
  }

  lemma XorConcat(a: seq<bool>, b: seq<bool>, c: seq<bool>, d: seq<bool>)
    requires |a| == |c| && |b| == |d|
    ensures Xor(a + b, c + d) == Xor(a, c) + Xor(b, d)
  {
  }

  lemma {:induction false} WeightConcat(a: seq<bool>, b: seq<bool>)
    ensures Weight(a + b) == Weight(a) + Weight(b)
  {
    if |b| == 0 {
      assert a + b == a;
    } else {
      assert (a + b)[..|a + b| - 1] == a + b[..|b| - 1];
      WeightConcat(a, b[..|b| - 1]);
    }
  }

  lemma {:induction false} OddXor(a: seq<bool>, b: seq<bool>)
    requires |a| == |b|
    ensures Odd(Xor(a, b)) == (Odd(a) != Odd(b))
  {
    if |a| > 0 {
      var n := |a| - 1;
      OddXor(a[..n], b[..n]);
      assert Xor(a, b)[..n] == Xor(a[..n], b[..n]);
    }
  }

  lemma OddConcat(a: seq<bool>, b: seq<bool>)
    ensures Odd(a + b) == (Odd(a) != Odd(b))
  {
    WeightConcat(a, b);
  }

  lemma {:induction false} WeightZeros(n: nat)
    ensures Weight(Zeros(n)) == 0
  {
    if n > 0 {
      assert Zeros(n)[..n - 1] == Zeros(n - 1);
      WeightZeros(n - 1);
    }
  }
}
