/** Signal values and payload bytes as bits, least significant first. */
module Signals {
  import opened Bytes
  import opened Bits

  /** Raw signal values are 64-bit unsigned integers; their bit operations are written arithmetically. */
  type uint64 = v: nat | v < 0x1_0000_0000_0000_0000

  datatype SignalRef = SignalRef(name: string, bitOffset: int)

  datatype Signal = Signal(name: string, bitWidth: int, initValue: uint64, publisher: string, subscribers: seq<string>)

  function Pow2(n: nat): nat {
    if n == 0 then 1 else 2 * Pow2(n - 1)
  }

  /** Bit i of a value: v & (1 << i) != 0. */
  predicate ValueBit(v: nat, i: nat) {
    if i == 0 then v % 2 == 1 else ValueBit(v / 2, i - 1)
  }

  /** v | (1 << i). */
  function SetBit(v: nat, i: nat): nat {
    if i == 0 then v - v % 2 + 1 else 2 * SetBit(v / 2, i - 1) + v % 2
  }

  /** Bit b of a payload: bit b % 8 of byte b / 8. */
  predicate DataBit(data: seq<byte>, b: nat)
    requires b < 8 * |data|
  {
    Bit(data[b / 8], b % 8)
  }

  /** The bit the mask 1 << (b % 8) selects. */
  lemma DataBitIsMask(data: seq<byte>, b: nat)
    requires b < 8 * |data|
    ensures DataBit(data, b) <==> data[b / 8] & (1 << (b % 8)) != 0
  {
    BitIsMask(data[b / 8], b % 8);
  }

  lemma {:induction false} ValueBitIsShift(v: nat, i: nat)
    ensures Pow2(i) > 0
    ensures ValueBit(v, i) <==> (v / Pow2(i)) % 2 == 1
  {
    Pow2Positive(i);
    if i > 0 {
      ValueBitIsShift(v / 2, i - 1);
      DivideTwice(v, Pow2(i - 1));
    }
  }

  lemma DivideTwice(v: nat, m: nat)
    requires m > 0
    ensures v / 2 / m == v / (2 * m)
  {
    var q, r := (v / 2) / m, (v / 2) % m;
    assert v / 2 == m * q + r;
    assert v == (2 * m) * q + (2 * r + v % 2);
    QuotientIs(v, 2 * m, q, 2 * r + v % 2);
  }

  lemma QuotientIs(v: nat, m: nat, q: nat, r: nat)
    requires v == m * q + r && r < m
    ensures v / m == q
  {
    QuotientUnique(m, q, r, v / m, v % m);
  }

  lemma {:induction false} SetValueBit(v: nat, i: nat, j: nat)
    ensures ValueBit(SetBit(v, i), j) == (i == j || ValueBit(v, j))
  {
    if i > 0 && j > 0 {
      SetValueBit(v / 2, i - 1, j - 1);
    }
  }

  lemma {:induction false} SetBitBound(v: nat, i: nat, n: nat)
    requires v < Pow2(n) && i < n
    ensures SetBit(v, i) < Pow2(n)
  {
    var half := Pow2(n - 1);
    assert v < 2 * half;
    if i > 0 {
      SetBitBound(v / 2, i - 1, n - 1);
      assert SetBit(v / 2, i - 1) < half;
    }
  }

  lemma {:induction false} ZeroHasNoBits(i: nat)
    ensures !ValueBit(0, i)
  {
    if i > 0 {
      ZeroHasNoBits(i - 1);
    }
  }

  lemma Pow2Of64()
    ensures Pow2(64) == 0x1_0000_0000_0000_0000
  {
    var n := 0;
    var p := 1;
    while n < 64
      invariant n <= 64 && n % 8 == 0 && p == Pow2(n)
      invariant n == 0 ==> p == 1
      invariant n == 8 ==> p == 0x100
      invariant n == 16 ==> p == 0x1_0000
      invariant n == 24 ==> p == 0x100_0000
      invariant n == 32 ==> p == 0x1_0000_0000
      invariant n == 40 ==> p == 0x100_0000_0000
      invariant n == 48 ==> p == 0x1_0000_0000_0000
      invariant n == 56 ==> p == 0x100_0000_0000_0000
      invariant n == 64 ==> p == 0x1_0000_0000_0000_0000
    {
      Pow2Step8(n);
      n, p := n + 8, 256 * p;
    }
  }

  lemma Pow2Step8(n: nat)
    ensures Pow2(n + 8) == 256 * Pow2(n)
  {
    assert Pow2(n + 2) == 4 * Pow2(n);
    assert Pow2(n + 4) == 4 * Pow2(n + 2);
    assert Pow2(n + 6) == 4 * Pow2(n + 4);
    assert Pow2(n + 8) == 4 * Pow2(n + 6);
  }

  /** Values with the same bits are the same. */
  lemma {:induction false} SameValueBits(v: nat, w: nat)
    requires forall i: nat :: ValueBit(v, i) == ValueBit(w, i)
    ensures v == w
    decreases v + w
  {
    assert ValueBit(v, 0) == ValueBit(w, 0);
    if v + w > 0 {
      var x, y := v / 2, w / 2;
      forall i: nat ensures ValueBit(x, i) == ValueBit(y, i) {
        assert ValueBit(v, i + 1) == ValueBit(w, i + 1);
      }
      SameValueBits(x, y);
    }
  }

  lemma ModuloUnique(v: nat, m: nat, q: nat, r: nat)
    requires v == m * q + r && r < m
    ensures v % m == r
  {
    QuotientUnique(m, q, r, v / m, v % m);
  }

  lemma QuotientUnique(m: nat, q: nat, r: nat, q': nat, r': nat)
    requires m * q + r == m * q' + r' && r < m && r' < m
    ensures q == q' && r == r'
  {
    MultiplesApart(m, q, q');
    MultiplesApart(m, q', q);
  }

  lemma {:induction false} MultiplesApart(m: nat, a: nat, b: nat)
    ensures a < b ==> m * a + m <= m * b
  {
    if a < b {
      MultiplesApart(m, a, b - 1);
      assert m * b == m * (b - 1) + m;
    }
  }

  lemma ModuloHalves(v: nat, m: nat)
    requires m > 0
    ensures v % (2 * m) == 2 * ((v / 2) % m) + v % 2
  {
    var q, r := (v / 2) / m, (v / 2) % m;
    assert v / 2 == m * q + r;
    assert v == (2 * m) * q + (2 * r + v % 2);
    ModuloUnique(v, 2 * m, q, 2 * r + v % 2);
  }

  lemma {:induction false} Pow2Positive(n: nat)
    ensures Pow2(n) > 0
  {
    if n > 0 {
      Pow2Positive(n - 1);
    }
  }

  /** v mod 2^n keeps exactly the low n bits. */
  lemma {:induction false} TruncatedBit(v: nat, n: nat, j: nat)
    ensures Pow2(n) > 0
    ensures ValueBit(v % Pow2(n), j) == (j < n && ValueBit(v, j))
  {
    Pow2Positive(n);
    if n == 0 {
      ZeroHasNoBits(j);
    } else {
      Pow2Positive(n - 1);
      ModuloHalves(v, Pow2(n - 1));
      if j > 0 {
        TruncatedBit(v / 2, n - 1, j - 1);
      }
    }
  }
}
