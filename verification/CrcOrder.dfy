/** The order of x modulo the generator, and with it every double-bit error the CRC sees. */
module CrcOrder {
  import opened Bits
  import opened Crc
  import Signals

  /** The polynomial 1. */
  const ONE: Register := Zeros(15) + [true]

  const PERIOD := 32767

  /** Coefficients, so that a register fits on a line. */
  const O := false
  const I := true

  /** x^n modulo the generator. */
  function Power(n: nat): Register {
    Shifts(ONE, n)
  }

  /** a(x)^2 modulo the generator; squaring is linear over GF(2). */
  function Square(a: Register): Register {
    [a[2],
     ((a[8] != a[6]) != a[4]) != a[2],
     a[3],
     ((a[9] != a[7]) != a[5]) != a[3],
     (a[4] != a[2]) != a[0],
     (a[10] != a[2]) != a[0],
     (a[5] != a[3]) != a[1],
     ((a[11] != a[3]) != a[1]) != a[0],
     ((a[6] != a[4]) != a[2]) != a[0],
     (((a[12] != a[4]) != a[2]) != a[1]) != a[0],
     ((a[7] != a[5]) != a[3]) != a[1],
     ((a[13] != a[5]) != a[3]) != a[1],
     a[0],
     (((a[14] != a[6]) != a[4]) != a[2]) != a[0],
     a[1],
     (((a[15] != a[7]) != a[5]) != a[3]) != a[1]]
  }

  /** Shift, spelled out per coefficient. */
  function Shifted(r: Register): Register {
    [r[1], r[2], r[3], r[4] != r[0], r[5], r[6], r[7], r[8],
     r[9], r[10], r[11] != r[0], r[12], r[13], r[14], r[15], r[0]]
  }

  lemma ShiftIsShifted(r: Register)
    ensures Shift(r) == Shifted(r)
  {
  }

  /** Coefficient i of the square and of the shift. */
  function SquareAt(a: Register, i: nat): bool
    requires i < 16
  {
    if i == 0 then a[2]
    else if i == 1 then ((a[8] != a[6]) != a[4]) != a[2]
    else if i == 2 then a[3]
    else if i == 3 then ((a[9] != a[7]) != a[5]) != a[3]
    else if i == 4 then (a[4] != a[2]) != a[0]
    else if i == 5 then (a[10] != a[2]) != a[0]
    else if i == 6 then (a[5] != a[3]) != a[1]
    else if i == 7 then ((a[11] != a[3]) != a[1]) != a[0]
    else if i == 8 then ((a[6] != a[4]) != a[2]) != a[0]
    else if i == 9 then (((a[12] != a[4]) != a[2]) != a[1]) != a[0]
    else if i == 10 then ((a[7] != a[5]) != a[3]) != a[1]
    else if i == 11 then ((a[13] != a[5]) != a[3]) != a[1]
    else if i == 12 then a[0]
    else if i == 13 then (((a[14] != a[6]) != a[4]) != a[2]) != a[0]
    else if i == 14 then a[1]
    else (((a[15] != a[7]) != a[5]) != a[3]) != a[1]
  }

  function ShiftAt(r: Register, i: nat): bool
    requires i < 16
  {
    (i < 15 && r[i + 1]) != (r[0] && (i == 3 || i == 10 || i == 15))
  }

  lemma SquareCoefficient(a: Register, i: nat)
    requires i < 16
    ensures Square(a)[i] == SquareAt(a, i)
  {
    match i
    case 0 =>
    case 1 =>
    case 2 =>
    case 3 =>
    case 4 =>
    case 5 =>
    case 6 =>
    case 7 =>
    case 8 =>
    case 9 =>
    case 10 =>
    case 11 =>
    case 12 =>
    case 13 =>
    case 14 =>
    case _ => assert i == 15;
  }

  lemma ShiftCoefficient(r: Register, i: nat)
    requires i < 16
    ensures Shift(r)[i] == ShiftAt(r, i)
  {
  }

  lemma SquareOfShiftAt(a: Register, b: Register, q: Register, s: Register, i: nat)
    requires i < 16
    requires forall k :: 0 <= k < 16 ==> b[k] == ShiftAt(a, k)
    requires forall k :: 0 <= k < 16 ==> q[k] == SquareAt(a, k)
    requires forall k :: 0 <= k < 16 ==> s[k] == ShiftAt(q, k)
    ensures SquareAt(b, i) == ShiftAt(s, i)
  {
  }

  /** (x * a)^2 == x^2 * a^2. */
  lemma SquareOfShift(a: Register)
    ensures Square(Shift(a)) == Shift(Shift(Square(a)))
  {
    var b, q := Shift(a), Square(a);
    var s := Shift(q);
    forall k | 0 <= k < 16 ensures b[k] == ShiftAt(a, k) && q[k] == SquareAt(a, k) && s[k] == ShiftAt(q, k) {
      ShiftCoefficient(a, k);
      SquareCoefficient(a, k);
      ShiftCoefficient(q, k);
    }
    SameCoefficients(a, b, q, s);
  }

  lemma SameCoefficients(a: Register, b: Register, q: Register, s: Register)
    requires forall k :: 0 <= k < 16 ==> b[k] == ShiftAt(a, k) && q[k] == SquareAt(a, k) && s[k] == ShiftAt(q, k)
    ensures Square(b) == Shift(s)
  {
    forall i | 0 <= i < 16 ensures Square(b)[i] == Shift(s)[i] {
      SquareCoefficient(b, i);
      ShiftCoefficient(s, i);
      SquareOfShiftAt(a, b, q, s, i);
    }
  }

  lemma SquareOfOne()
    ensures Square(ONE) == ONE
  {
  }

  /** A map that fixes 1 and takes x * a to x^2 times its value at a takes x^n to x^(2n). */
  lemma {:induction false} PowerDoubleBy(square: Register -> Register, n: nat)
    requires square(ONE) == ONE && forall a: Register :: square(Shift(a)) == Shift(Shift(square(a)))
    ensures Power(2 * n) == square(Power(n))
  {
    if n > 0 {
      PowerDoubleBy(square, n - 1);
      ShiftTwice(n - 1);
    }
  }

  lemma PowerDouble(n: nat)
    ensures Power(2 * n) == Square(Power(n))
  {
    SquareOfOne();
    forall a: Register ensures Square(Shift(a)) == Shift(Shift(Square(a))) {
      SquareOfShift(a);
    }
    PowerDoubleBy(Square, n);
  }

  lemma ShiftTwice(n: nat)
    ensures Power(2 * (n + 1)) == Shift(Shift(Power(2 * n)))
  {
    assert Power(2 * n + 2) == Shift(Power(2 * n + 1));
  }

  lemma Double(n: nat, r: Register) returns (m: nat, s: Register)
    requires Power(n) == r
    ensures m == 2 * n && s == Square(r) && Power(m) == s
  {
    m, s := 2 * n, Square(r);
    PowerDouble(n);
  }

  lemma DoubleAndShift(n: nat, r: Register) returns (m: nat, s: Register)
    requires Power(n) == r
    ensures m == 2 * n + 1 && s == Shifted(Square(r)) && Power(m) == s
  {
    m, s := 2 * n + 1, Shifted(Square(r));
    PowerDouble(n);
    ShiftIsShifted(Square(r));
  }

  lemma PowerOfOne()
    ensures Power(1) == [O, O, O, O, O, O, O, O, O, O, O, O, O, O, I, O]
  {
    ShiftIsShifted(ONE);
    assert Power(0) == ONE;
  }

  lemma Power32768A(n0: nat) returns (n: nat, r: Register)
    requires n0 == 1 && Power(n0) == [O, O, O, O, O, O, O, O, O, O, O, O, O, O, I, O]
    ensures n == 16 && r == Power(n) == [O, O, O, I, O, O, O, O, O, O, I, O, O, O, O, I]
  {
    n, r := n0, Power(n0);
    n, r := Double(n, r);
    assert r == [O, O, O, O, O, O, O, O, O, O, O, O, O, I, O, O];
    n, r := Double(n, r);
    assert r == [O, O, O, O, O, O, O, O, O, O, O, I, O, O, O, O];
    n, r := Double(n, r);
    assert r == [O, O, O, O, O, O, O, I, O, O, O, O, O, O, O, O];
    n, r := Double(n, r);
    assert r == [O, O, O, I, O, O, O, O, O, O, I, O, O, O, O, I];
  }

  lemma Power32768B(n0: nat) returns (n: nat, r: Register)
    requires n0 == 16 && Power(n0) == [O, O, O, I, O, O, O, O, O, O, I, O, O, O, O, I]
    ensures n == 256 && r == Power(n) == [I, O, O, O, I, I, I, O, O, O, I, O, I, O, O, I]
  {
    n, r := n0, Power(n0);
    n, r := Double(n, r);
    assert r == [O, O, I, I, O, I, I, I, O, O, I, I, O, O, O, O];
    n, r := Double(n, r);
    assert r == [I, O, I, I, I, O, O, O, O, I, I, O, O, O, O, I];
    n, r := Double(n, r);
    assert r == [I, O, I, O, I, I, I, O, I, I, I, I, I, I, O, O];
    n, r := Double(n, r);
    assert r == [I, O, O, O, I, I, I, O, O, O, I, O, I, O, O, I];
  }

  lemma Power32768C(n0: nat) returns (n: nat, r: Register)
    requires n0 == 256 && Power(n0) == [I, O, O, O, I, I, I, O, O, O, I, O, I, O, O, I]
    ensures n == 4096 && r == Power(n) == [I, O, I, O, I, O, I, O, I, O, O, I, I, I, I, O]
  {
    n, r := n0, Power(n0);
    n, r := Double(n, r);
    assert r == [O, O, O, I, O, O, I, I, I, I, I, I, I, I, O, O];
    n, r := Double(n, r);
    assert r == [O, O, I, I, O, I, I, O, I, I, O, O, O, I, O, O];
    n, r := Double(n, r);
    assert r == [I, I, I, I, I, I, O, I, O, I, O, I, O, O, O, O];
    n, r := Double(n, r);
    assert r == [I, O, I, O, I, O, I, O, I, O, O, I, I, I, I, O];
  }

  lemma Power32768D(n0: nat) returns (n: nat, r: Register)
    requires n0 == 4096 && Power(n0) == [I, O, I, O, I, O, I, O, I, O, O, I, I, I, I, O]
    ensures n == 32768 && r == Power(n) == [O, O, O, O, O, O, O, O, O, O, O, O, O, O, I, O]
  {
    n, r := n0, Power(n0);
    n, r := Double(n, r);
    assert r == [I, O, O, O, I, O, O, O, O, O, O, I, I, I, O, O];
    n, r := Double(n, r);
    assert r == [O, I, O, O, O, I, O, O, O, I, O, I, I, O, O, O];
    n, r := Double(n, r);
    assert r == [O, O, O, O, O, O, O, O, O, O, O, O, O, O, I, O];
  }

  lemma Power32768(n: nat)
    requires n == 32768
    ensures Power(n) == Power(1)
  {
    PowerOfOne();
    var n', r := Power32768A(1);
    n', r := Power32768B(n');
    n', r := Power32768C(n');
    n', r := Power32768D(n');
    assert r == Power(1);
  }

  lemma Power4681A(n0: nat) returns (n: nat, r: Register)
    requires n0 == 1 && Power(n0) == [O, O, O, O, O, O, O, O, O, O, O, O, O, O, I, O]
    ensures n == 18 && r == Power(n) == [O, I, O, O, O, O, O, O, I, O, O, O, O, I, O, O]
  {
    n, r := n0, Power(n0);
    n, r := Double(n, r);
    assert r == [O, O, O, O, O, O, O, O, O, O, O, O, O, I, O, O];
    n, r := Double(n, r);
    assert r == [O, O, O, O, O, O, O, O, O, O, O, I, O, O, O, O];
    n, r := DoubleAndShift(n, r);
    assert r == [O, O, O, O, O, O, I, O, O, O, O, O, O, O, O, O];
    n, r := Double(n, r);
    assert r == [O, I, O, O, O, O, O, O, I, O, O, O, O, I, O, O];
  }

  lemma Power4681B(n0: nat) returns (n: nat, r: Register)
    requires n0 == 18 && Power(n0) == [O, I, O, O, O, O, O, O, I, O, O, O, O, I, O, O]
    ensures n == 292 && r == Power(n) == [O, O, O, I, O, O, I, I, I, O, O, I, O, I, I, O]
  {
    n, r := n0, Power(n0);
    n, r := Double(n, r);
    assert r == [O, I, O, O, O, O, I, I, O, I, I, O, O, O, I, I];
    n, r := DoubleAndShift(n, r);
    assert r == [I, O, O, O, I, I, I, I, I, O, I, O, O, I, I, O];
    n, r := Double(n, r);
    assert r == [O, I, O, O, O, O, I, I, I, O, O, O, I, O, O, O];
    n, r := Double(n, r);
    assert r == [O, O, O, I, O, O, I, I, I, O, O, I, O, I, I, O];
  }

  lemma Power4681C(n0: nat) returns (n: nat, r: Register)
    requires n0 == 292 && Power(n0) == [O, O, O, I, O, O, I, I, I, O, O, I, O, I, I, O]
    ensures n == 4681 && r == Power(n) == [O, O, I, O, I, I, O, O, O, I, O, O, O, O, I, O]
  {
    n, r := n0, Power(n0);
    n, r := DoubleAndShift(n, r);
    assert r == [O, I, O, O, O, I, O, I, O, O, O, O, O, O, O, O];
    n, r := Double(n, r);
    assert r == [O, O, O, O, O, O, O, I, O, I, I, O, O, O, I, I];
    n, r := Double(n, r);
    assert r == [O, O, O, O, O, I, O, O, O, O, I, O, O, I, O, O];
    n, r := DoubleAndShift(n, r);
    assert r == [O, O, I, O, I, I, O, O, O, I, O, O, O, O, I, O];
  }

  lemma Power4681(n: nat)
    requires n == 4681
    ensures Power(n) != ONE
  {
    PowerOfOne();
    var n', r := Power4681A(1);
    n', r := Power4681B(n');
    n', r := Power4681C(n');
    assert r[2] != ONE[2];
  }

  lemma Power1057B(n0: nat) returns (n: nat, r: Register)
    requires n0 == 16 && Power(n0) == [O, O, O, I, O, O, O, O, O, O, I, O, O, O, O, I]
    ensures n == 264 && r == Power(n) == [O, I, O, I, I, O, O, I, O, I, O, O, O, I, I, O]
  {
    n, r := n0, Power(n0);
    n, r := DoubleAndShift(n, r);
    assert r == [O, I, I, O, I, I, I, O, O, I, I, O, O, O, O, O];
    n, r := Double(n, r);
    assert r == [I, I, O, O, O, O, O, I, I, I, O, O, O, I, I, O];
    n, r := Double(n, r);
    assert r == [O, I, O, O, I, I, I, O, I, O, O, O, I, O, I, O];
    n, r := Double(n, r);
    assert r == [O, I, O, I, I, O, O, I, O, I, O, O, O, I, I, O];
  }

  lemma Power1057C(n0: nat) returns (n: nat, r: Register)
    requires n0 == 264 && Power(n0) == [O, I, O, I, I, O, O, I, O, I, O, O, O, I, I, O]
    ensures n == 1057 && r == Power(n) == [I, I, I, I, O, O, I, O, I, O, I, O, I, I, I, I]
  {
    n, r := n0, Power(n0);
    n, r := Double(n, r);
    assert r == [O, I, I, I, I, O, O, O, I, O, I, I, O, O, I, I];
    n, r := DoubleAndShift(n, r);
    assert r == [I, I, I, I, O, O, I, O, I, O, I, O, I, I, I, I];
  }

  lemma Power1057(n: nat)
    requires n == 1057
    ensures Power(n) != ONE
  {
    PowerOfOne();
    var n', r := Power32768A(1);
    n', r := Power1057B(n');
    n', r := Power1057C(n');
    assert r[0] != ONE[0];
  }

  lemma Power217A(n0: nat) returns (n: nat, r: Register)
    requires n0 == 1 && Power(n0) == [O, O, O, O, O, O, O, O, O, O, O, O, O, O, I, O]
    ensures n == 27 && r == Power(n) == [I, O, O, O, I, O, O, I, I, O, I, O, I, O, O, I]
  {
    n, r := n0, Power(n0);
    n, r := DoubleAndShift(n, r);
    assert r == [O, O, O, O, O, O, O, O, O, O, O, O, I, O, O, O];
    n, r := Double(n, r);
    assert r == [O, O, O, O, O, O, O, O, O, I, O, O, O, O, O, O];
    n, r := DoubleAndShift(n, r);
    assert r == [O, O, I, O, O, O, O, O, O, O, O, O, O, O, O, O];
    n, r := DoubleAndShift(n, r);
    assert r == [I, O, O, O, I, O, O, I, I, O, I, O, I, O, O, I];
  }

  lemma Power217B(n0: nat) returns (n: nat, r: Register)
    requires n0 == 27 && Power(n0) == [I, O, O, O, I, O, O, I, I, O, I, O, I, O, O, I]
    ensures n == 217 && r == Power(n) == [O, I, O, O, I, O, O, O, I, I, I, O, O, O, I, I]
  {
    n, r := n0, Power(n0);
    n, r := Double(n, r);
    assert r == [O, O, O, I, O, O, O, I, O, I, I, O, I, O, O, O];
    n, r := Double(n, r);
    assert r == [O, O, I, I, O, I, I, I, O, I, O, I, O, O, O, O];
    n, r := DoubleAndShift(n, r);
    assert r == [O, I, O, O, I, O, O, O, I, I, I, O, O, O, I, I];
  }

  lemma Power217(n: nat)
    requires n == 217
    ensures Power(n) != ONE
  {
    PowerOfOne();
    var n', r := Power217A(1);
    n', r := Power217B(n');
    assert r[1] != ONE[1];
  }

  // ---------- The exponents n with x^n = 1 ----------

  lemma ShiftCancels(a: Register, b: Register)
    requires Shift(a) == Shift(b)
    ensures a == b
  {
    FeedLinear(a, b, false, false);
    assert Xor(Shift(a), Shift(b)) == Zeros(16);
    ShiftInjective(Xor(a, b));
    forall i | 0 <= i < 16 ensures a[i] == b[i] {
      assert !Xor(a, b)[i];
    }
  }

  lemma {:induction false} ShiftsCancel(a: Register, b: Register, n: nat)
    requires Shifts(a, n) == Shifts(b, n)
    ensures a == b
  {
    if n > 0 {
      ShiftCancels(Shifts(a, n - 1), Shifts(b, n - 1));
      ShiftsCancel(a, b, n - 1);
    }
  }

  lemma {:induction false} ShiftsAdd(r: Register, m: nat, n: nat)
    ensures Shifts(r, m + n) == Shifts(Shifts(r, m), n)
  {
    if n > 0 {
      ShiftsAdd(r, m, n - 1);
    }
  }

  /** Two powers agree exactly when the difference of their exponents is an exponent of 1. */
  lemma PowersAgree(m: nat, d: nat)
    ensures Power(m + d) == Power(m) <==> Power(d) == ONE
  {
    ShiftsAdd(ONE, d, m);
    if Power(m + d) == Power(m) {
      ShiftsCancel(Power(d), ONE, m);
    }
  }

  lemma PowerPeriod()
    ensures Power(PERIOD) == ONE
  {
    Power32768(1 + PERIOD);
    PowersAgree(1, PERIOD);
  }

  lemma {:induction false} PowerModulo(n: nat)
    ensures Power(n) == Power(n % PERIOD)
    decreases n
  {
    if n >= PERIOD {
      PowerPeriod();
      PowersAgree(n - PERIOD, PERIOD);
      PowerModulo(n - PERIOD);
    }
  }

  lemma {:induction false} PowerMultiple(n: nat, k: nat)
    requires Power(n) == ONE
    ensures Power(n * k) == ONE
  {
    if k > 0 {
      PowerMultiple(n, k - 1);
      assert n * k == n * (k - 1) + n;
      PowersAgree(n * (k - 1), n);
    }
  }

  /** The exponents of 1 are closed under the subtractive Euclidean algorithm. */
  lemma CommonExponent(a: nat, b: nat) returns (g: nat, u: nat, v: nat)
    requires a > 0 && b > 0 && Power(a) == ONE && Power(b) == ONE
    ensures g > 0 && Power(g) == ONE && a == g * u && b == g * v
    decreases a + b
  {
    if a == b {
      g, u, v := a, 1, 1;
    } else if a > b {
      PowersAgree(b, a - b);
      g, u, v := CommonExponent(a - b, b);
      assert a == g * (u + v);
      u := u + v;
    } else {
      PowersAgree(a, b - a);
      g, u, v := CommonExponent(a, b - a);
      assert b == g * (u + v);
      v := u + v;
    }
  }

  // ---------- Divisors of 32767 = 7 * 31 * 151 ----------

  predicate PeriodPrime(p: nat) {
    p == 7 || p == 31 || p == 151
  }

  lemma OnlyTrivialFactors(p: nat, g: nat, u: nat)
    requires PeriodPrime(p) && g * u == p
    ensures g == 1 || g == p
  {
    if g != 1 && g != p {
      TrivialBounds(p, g, u);
      NoFactorUpTo12(p, g, u);
      NoFactorUpTo12(p, u, g);
      TwoLargeFactors(g, u);
    }
  }

  lemma TrivialBounds(p: nat, g: nat, u: nat)
    requires p > 0 && g * u == p && g != 1 && g != p
    ensures 1 < g < p && 1 < u < p
  {
    assert u != 0 && u != 1 && g != 0;
    assert g * u >= 2 * g && g * u >= 2 * u;
  }

  lemma TwoLargeFactors(g: nat, u: nat)
    requires g >= 13 && u >= 13
    ensures g * u >= 169
  {
  }

  lemma NoFactorUpTo12(p: nat, g: nat, u: nat)
    requires PeriodPrime(p) && g * u == p && g < p
    ensures !(2 <= g <= 12)
  {
    assert g != 2;
    assert g != 3;
    assert g != 4;
    assert g != 5;
    assert g != 6;
    assert g != 7;
    assert g != 8;
    assert g != 9;
    assert g != 10;
    assert g != 11;
    assert g != 12;
  }

  /** The multipliers n with p dividing g * n are closed under the Euclidean algorithm too. */
  lemma CommonMultiplier(g: nat, p: nat, a: nat, b: nat, x: int, y: int) returns (d: nat, u: nat, v: nat, z: int)
    requires a > 0 && b > 0 && g * a == p * x && g * b == p * y
    ensures d > 0 && a == d * u && b == d * v && g * d == p * z
    decreases a + b
  {
    if a == b {
      d, u, v, z := a, 1, 1, x;
    } else if a > b {
      assert g * (a - b) == p * (x - y);
      d, u, v, z := CommonMultiplier(g, p, a - b, b, x - y, y);
      assert a == d * (u + v);
      u := u + v;
    } else {
      assert g * (b - a) == p * (y - x);
      d, u, v, z := CommonMultiplier(g, p, a, b - a, x, y - x);
      assert b == d * (u + v);
      v := u + v;
    }
  }

  /** A prime that divides a product but not its second factor divides the first. */
  lemma PrimeDividesFirst(p: nat, g: nat, u: nat, m: nat) returns (k: nat)
    requires PeriodPrime(p) && g * u == p * m && m > 0
    requires u % p != 0
    ensures g == p * k
  {
    assert u > 0;
    var d, v, w, z := CommonMultiplier(g, p, p, u, g, m);
    OnlyTrivialFactors(p, d, v);
    assert d == 1;
    k := z;
  }

  lemma LargeExponent(g: nat)
    requires g == 4681 || g == 1057 || g == 217
    ensures Power(g) != ONE
  {
    if g == 4681 {
      Power4681(g);
    } else if g == 1057 {
      Power1057(g);
    } else {
      Power217(g);
    }
  }

  /** If a prime of the period divides the cofactor, the exponent divides the period over that prime. */
  lemma ExponentBelow(g: nat, u: nat, p: nat, q: nat)
    requires PeriodPrime(p) && p * q == PERIOD && g * u == PERIOD && u % p == 0 && Power(g) == ONE
    ensures Power(q) == ONE
  {
    var v := u / p;
    assert u == p * v;
    SameCofactor(g, p, v, q);
    PowerMultiple(g, v);
  }

  lemma SameCofactor(g: nat, p: nat, v: nat, q: nat)
    requires p > 0 && g * (p * v) == p * q
    ensures g * v == q
  {
    assert p * (g * v) == p * q;
    Signals.QuotientUnique(p, g * v, 0, q, 0);
  }

  /** Every proper cofactor has a prime of the period. */
  lemma SomePrime(g: nat, u: nat)
    requires g * u == PERIOD && u > 1
    ensures u % 7 == 0 || u % 31 == 0 || u % 151 == 0
  {
    if u % 7 != 0 && u % 31 != 0 && u % 151 != 0 {
      var a := PrimeDividesFirst(7, g, u, 4681);
      var b := PrimeDividesFirst(31, a, u, 151);
      OnlyTrivialFactors(151, u, b);
    }
  }

  /** No proper divisor of the period is an exponent of 1. */
  lemma ProperDivisor(g: nat, u: nat)
    requires g * u == PERIOD && u > 1
    ensures Power(g) != ONE
  {
    if Power(g) == ONE {
      SomePrime(g, u);
      var q := if u % 7 == 0 then 4681 else if u % 31 == 0 then 1057 else 217;
      ExponentBelow(g, u, PERIOD / q, q);
      LargeExponent(q);
    }
  }

  lemma Larger(g: nat, u: nat, v: nat)
    requires 0 < g * v < g * u
    ensures u > 1
  {
  }

  /** x has order 32767 modulo the generator. */
  lemma OrderOfX(n: nat)
    ensures Power(n) == ONE <==> n % PERIOD == 0
  {
    PowerModulo(n);
    var d := n % PERIOD;
    if d > 0 && Power(d) == ONE {
      PowerPeriod();
      var g, u, v := CommonExponent(PERIOD, d);
      Larger(g, u, v);
      ProperDivisor(g, u);
    }
  }
}
