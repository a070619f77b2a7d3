/** The CRC as polynomial arithmetic over GF(2). A bit sequence lists coefficients, highest power first. */
module CrcPolynomial {
  import opened Bytes
  import opened Bits
  import opened Crc

  /** x^16 + x^12 + x^5 + 1. */
  const GENERATOR: seq<bool> := [true] + POLY

  /** Product of two polynomials, by Horner's rule on p. */
  function Product(p: seq<bool>, g: seq<bool>): (r: seq<bool>)
    requires |g| > 0
    ensures |r| == |p| + |g| - 1
  {
    if |p| == 0 then
      Zeros(|g| - 1)
    else
      var n := |p| - 1;
      Xor(Product(p[..n], g) + [false], if p[n] then Zeros(n) + g else Zeros(n + |g|))
  }

  /** a and b leave the same remainder: their difference is a multiple of the generator. */
  ghost predicate Congruent(a: seq<bool>, b: seq<bool>)
    requires |a| == |b| >= 16
  {
    exists q :: |q| == |a| - 16 && Xor(a, b) == Product(q, GENERATOR)
  }

  /** data(x) * x^16 + start(x) * x^|data|. */
  function Dividend(start: Register, bits: seq<bool>): seq<bool> {
    Xor(bits + Zeros(16), start + Zeros(|bits|))
  }

  /** A remainder has degree below 16; as a polynomial of the dividend's length it is padded with zeros. */
  function Padded(n: nat, r: Register): seq<bool> {
    Zeros(n) + r
  }

  /** The bits fed back during the division. */
  function Quotient(start: Register, bits: seq<bool>): (q: seq<bool>)
    ensures |q| == |bits|
  {
    if |bits| == 0 then
      []
    else
      var n := |bits| - 1;
      Quotient(start, bits[..n]) + [Serial(start, bits[..n])[0] != bits[n]]
  }

  /** The division equation after the given bits: dividend = quotient * generator + register. */
  predicate Divides(start: Register, bits: seq<bool>) {
    Dividend(start, bits) == Xor(Product(Quotient(start, bits), GENERATOR), Padded(|bits|, Serial(start, bits)))
  }

  /** The register holds the remainder after every bit. */
  lemma {:induction false} Division(start: Register, bits: seq<bool>)
    ensures Divides(start, bits)
  {
    if |bits| == 0 {
      NothingToDivide(start, bits);
    } else {
      var n := |bits| - 1;
      Division(start, bits[..n]);
      DivisionStep(start, bits[..n], bits[n], bits);
    }
  }

  lemma NothingToDivide(start: Register, bits: seq<bool>)
    requires bits == []
    ensures Divides(start, bits)
  {
  }

  lemma DivisionStep(start: Register, bits: seq<bool>, b: bool, longer: seq<bool>)
    requires Divides(start, bits) && longer == bits + [b]
    ensures Divides(start, longer)
  {
    assert longer[..|bits|] == bits;
    ExtendDividend(start, bits, b);
    ExtendProduct(Product(Quotient(start, bits), GENERATOR), |bits|, Serial(start, bits), b);
    assert Quotient(start, longer)[..|bits|] == Quotient(start, bits);
  }

  lemma ExtendDividend(start: Register, bits: seq<bool>, b: bool)
    ensures Dividend(start, bits + [b]) ==
            Xor(Dividend(start, bits) + [false], Zeros(|bits|) + [b] + Zeros(16))
  {
  }

  lemma ExtendProduct(p: seq<bool>, n: nat, r: Register, b: bool)
    requires |p| == n + 16
    ensures Xor(Xor(p, Padded(n, r)) + [false], Zeros(n) + [b] + Zeros(16)) ==
            Xor(Xor(p + [false], if r[0] != b then Zeros(n) + GENERATOR else Zeros(n + 17)),
                Padded(n + 1, Feed(r, b)))
  {
    var left := Xor(Xor(p, Padded(n, r)) + [false], Zeros(n) + [b] + Zeros(16));
    var multiple := if r[0] != b then Zeros(n) + GENERATOR else Zeros(n + 17);
    var right := Xor(Xor(p + [false], multiple), Padded(n + 1, Feed(r, b)));
    forall i | 0 <= i < n + 17 ensures left[i] == right[i] {
      if i > n {
        assert multiple[i] == (r[0] != b && POLY[i - n - 1]);
        assert Feed(r, b)[i - n - 1] == ((r[1..] + [false])[i - n - 1] != multiple[i]);
      }
    }
  }

  // ---------- Uniqueness of the remainder ----------

  lemma {:induction false} ProductLinear(p: seq<bool>, q: seq<bool>, g: seq<bool>)
    requires |p| == |q| && |g| > 0
    ensures Product(Xor(p, q), g) == Xor(Product(p, g), Product(q, g))
  {
    if |p| > 0 {
      var n := |p| - 1;
      ProductLinear(p[..n], q[..n], g);
      assert Xor(p, q)[..n] == Xor(p[..n], q[..n]);
    }
  }

  /** The leading coefficient of a product with a monic factor is that of the other factor. */
  lemma {:induction false} ProductLead(p: seq<bool>, g: seq<bool>, i: nat)
    requires i < |p| && |g| > 0 && g[0]
    requires forall j :: 0 <= j < i ==> !p[j]
    ensures Product(p, g)[i] == p[i]
  {
    var n := |p| - 1;
    if i < n {
      ProductLead(p[..n], g, i);
    } else {
      ProductOfZeros(p[..n], g);
    }
  }

  lemma {:induction false} ProductOfZeros(p: seq<bool>, g: seq<bool>)
    requires |g| > 0
    requires forall j :: 0 <= j < |p| ==> !p[j]
    ensures Product(p, g) == Zeros(|p| + |g| - 1)
  {
    if |p| > 0 {
      ProductOfZeros(p[..|p| - 1], g);
    }
  }

  /** Only the zero multiple of the generator has degree below 16. */
  lemma SmallMultipleIsZero(q: seq<bool>, r: Register)
    requires Product(q, GENERATOR) == Padded(|q|, r)
    ensures r == Zeros(16)
  {
    QuotientIsZero(q, r, |q|);
    ProductOfZeros(q, GENERATOR);
    PaddedZero(|q|, r);
  }

  lemma PaddedZero(n: nat, r: Register)
    requires Padded(n, r) == Zeros(n + 16)
    ensures r == Zeros(16)
  {
    forall i | 0 <= i < 16 ensures !r[i] {
      assert !Padded(n, r)[n + i];
    }
  }

  lemma {:induction false} QuotientIsZero(q: seq<bool>, r: Register, n: nat)
    requires n <= |q| && Product(q, GENERATOR) == Padded(|q|, r)
    ensures forall j :: 0 <= j < n ==> !q[j]
  {
    if n > 0 {
      QuotientIsZero(q, r, n - 1);
      ProductLead(q, GENERATOR, n - 1);
      assert !Padded(|q|, r)[n - 1];
    }
  }

  lemma XorCancels(v: seq<bool>, a: seq<bool>, b: seq<bool>)
    requires |v| == |a| == |b|
    ensures Xor(Xor(v, a), Xor(v, b)) == Xor(a, b)
  {
  }

  lemma RemainderExists(start: Register, bits: seq<bool>)
    ensures Congruent(Dividend(start, bits), Padded(|bits|, Serial(start, bits)))
  {
    var q := Quotient(start, bits);
    var product := Product(q, GENERATOR);
    Division(start, bits);
    XorTwice(product, Padded(|bits|, Serial(start, bits)));
    assert Xor(Dividend(start, bits), Padded(|bits|, Serial(start, bits))) == product;
  }

  lemma XorTwice(a: seq<bool>, b: seq<bool>)
    requires |a| == |b|
    ensures Xor(Xor(a, b), b) == a
  {
  }

  lemma RemainderUnique(v: seq<bool>, n: nat, r: Register, s: Register)
    requires |v| == n + 16
    requires Congruent(v, Padded(n, r)) && Congruent(v, Padded(n, s))
    ensures r == s
  {
    var p :| |p| == |v| - 16 && Xor(v, Padded(n, r)) == Product(p, GENERATOR);
    var q :| |q| == |v| - 16 && Xor(v, Padded(n, s)) == Product(q, GENERATOR);
    XorCancels(v, Padded(n, r), Padded(n, s));
    ProductLinear(p, q, GENERATOR);
    XorPadded(n, r, s);
    SmallMultipleIsZero(Xor(p, q), Xor(r, s));
    XorZero(r, s);
  }

  lemma XorPadded(n: nat, r: Register, s: Register)
    ensures Xor(Padded(n, r), Padded(n, s)) == Padded(n, Xor(r, s))
  {
  }

  lemma XorZero(r: Register, s: Register)
    requires Xor(r, s) == Zeros(16)
    ensures r == s
  {
    forall i | 0 <= i < 16 ensures r[i] == s[i] {
      assert !Xor(r, s)[i];
    }
  }

  /** The serial register is congruent to the dividend, and it is the only 16-bit remainder that is. */
  lemma SerialIsRemainder(start: Register, bits: seq<bool>, r: Register)
    ensures Congruent(Dividend(start, bits), Padded(|bits|, r)) <==> r == Serial(start, bits)
  {
    RemainderExists(start, bits);
    if Congruent(Dividend(start, bits), Padded(|bits|, r)) {
      RemainderUnique(Dividend(start, bits), |bits|, r, Serial(start, bits));
    }
  }

  /** crc16 of n bytes is the remainder of data(x) * x^16 + 0xFFFF * x^(8n) modulo the generator. */
  lemma CrcIsRemainder(data: seq<byte>, w: bv16)
    ensures Congruent(Dividend(INIT, DataBits(data)), Padded(8 * |data|, WordBits(w))) <==> w == Crc16(data)
  {
    BitsOfWord(CrcBits(data));
    SerialIsRemainder(INIT, DataBits(data), WordBits(w));
    if WordBits(w) == CrcBits(data) {
      WordBitsInjective(w, Crc16(data));
    }
  }
}
