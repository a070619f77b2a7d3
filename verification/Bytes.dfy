/** Bytes as 8-bit vectors and the two directions between bytes and numbers. */
module Bytes {
  type byte = bv8

  /** The numeric value of a byte, by counting: this keeps bit-vector arithmetic out of proofs about sums. */
  function Val(b: byte): nat
    decreases b
  {
    if b == 0 then 0 else Val(b - 1) + 1
  }

  /** The byte with the given value. */
  function FromNat(x: nat): byte
    requires x <= 255
  {
    if x == 0 then 0 else FromNat(x - 1) + 1
  }

  lemma {:induction false} ValIsConversion(b: byte)
    ensures Val(b) == b as nat
    decreases b
  {
    if b != 0 {
      ValIsConversion(b - 1);
      Increment(b - 1);
    }
  }

  lemma ValBound(b: byte)
    ensures Val(b) <= 255
  {
    ValIsConversion(b);
  }

  lemma Increment(b: byte)
    requires b != 255
    ensures (b + 1) as nat == b as nat + 1
  {
  }

  lemma ValInjective(x: byte, y: byte)
    ensures Val(x) == Val(y) <==> x == y
  {
    ValIsConversion(x);
    ValIsConversion(y);
    ConversionInjective(x, y);
  }

  lemma ConversionInjective(x: byte, y: byte)
    ensures x as nat == y as nat <==> x == y
  {
  }

  lemma {:induction false} ValOfFromNat(x: nat)
    requires x <= 255
    ensures Val(FromNat(x)) == x
  {
    if x != 0 {
      ValOfFromNat(x - 1);
      ValInjective(FromNat(x - 1), 255);
      ValIsConversion(255);
    }
  }

  lemma FromNatOfVal(b: byte)
    ensures Val(b) <= 255 && FromNat(Val(b)) == b
  {
    ValIsConversion(b);
    ValOfFromNat(Val(b));
    ValInjective(FromNat(Val(b)), b);
  }

  lemma ComplementValue(b: byte)
    ensures Val(0xFF - b) == 255 - Val(b)
  {
    ValIsConversion(b);
    ValIsConversion(0xFF - b);
    ComplementConversion(b);
  }

  lemma ComplementConversion(b: byte)
    ensures (0xFF - b) as nat == 255 - b as nat
  {
  }

  lemma Extremes(b: byte)
    ensures b == 0x00 <==> Val(b) == 0
    ensures b == 0xFF <==> Val(b) == 255
  {
    ValIsConversion(0xFF);
    ValInjective(b, 0xFF);
  }
}
