/** Writing LDF lines, and how the string operations of the parser undo it. */
module LdfPrint {
  import opened Options
  import opened LdfText

  // ---------- Names and numerals ----------

  predicate IsPlain(c: char) {
    'a' <= c <= 'z' || 'A' <= c <= 'Z' || '0' <= c <= '9' || c == '_' || c == '-'
  }

  /** Free of white space and of the punctuation of the language. */
  predicate Plain(s: string) {
    forall i :: 0 <= i < |s| ==> IsPlain(s[i])
  }

  predicate Name(s: string) {
    |s| > 0 && Plain(s)
  }

  predicate Names(names: seq<string>) {
    forall i :: 0 <= i < |names| ==> Name(names[i])
  }

  function Digit(d: nat): char
    requires d < 10
  {
    '0' + d as char
  }

  function Decimal(n: nat): (s: string)
    ensures Name(s) && '0' <= s[0] <= '9'
    ensures |s| > 1 ==> s[1] != 'x' && s[1] != 'X'
  {
    if n < 10 then [Digit(n)] else Decimal(n / 10) + [Digit(n % 10)]
  }

  function Numeral(i: int): (s: string)
    ensures Name(s)
  {
    if i < 0 then "-" + Decimal(-i) else Decimal(i)
  }

  /** The names with a comma between neighbours. */
  function Joined(names: seq<string>): string {
    if |names| == 0 then ""
    else if |names| == 1 then names[0]
    else names[0] + "," + Joined(names[1..])
  }

  predicate Int64(i: int) {
    -0x8000_0000_0000_0000 <= i < 0x8000_0000_0000_0000
  }

  lemma {:induction false} DecimalDigits(n: nat)
    ensures ParseDigits(Decimal(n), 10) == Some(n)
  {
    if n < 10 {
      assert [Digit(n)][..0] == "";
      assert ParseDigits("", 10) == Some(0);
    } else {
      var s := Decimal(n);
      DecimalDigits(n / 10);
      assert s[..|s| - 1] == Decimal(n / 10) && s[|s| - 1] == Digit(n % 10);
    }
  }

  lemma NegativeReads(text: string, digits: string, v: int)
    requires text == "-" + digits && |digits| > 0 && 0 <= v <= 0x8000_0000_0000_0000
    requires ParseDigits(digits, 10) == Some(v)
    ensures ParseInt64(text, 10) == Some(-v)
  {
    assert text[1..] == digits && HasPrefix(text, "-");
  }

  lemma PositiveReads(digits: string, v: nat)
    requires |digits| > 0 && '0' <= digits[0] <= '9' && ParseDigits(digits, 10) == Some(v) && v < 0x8000_0000_0000_0000
    ensures ParseInt64(digits, 10) == Some(v)
  {
  }

  lemma NotHexadecimal(i: int)
    ensures !HasPrefix(Numeral(i), "0x") && !HasPrefix(Numeral(i), "0X")
  {
    var s := Numeral(i);
    assert i < 0 ==> s[0] == '-';
  }

  lemma ReadsAsDecimal(s: string, i: int)
    requires Plain(s) && !HasPrefix(s, "0x") && !HasPrefix(s, "0X") && ParseInt64(s, 10) == Some(i)
    ensures ParseInt(s) == Some(i)
  {
    NumeralIsBare(s);
  }

  /** Every 64-bit integer reads back from its numeral. */
  lemma NumeralParses(i: int)
    requires Int64(i)
    ensures ParseInt(Numeral(i)) == Some(i)
  {
    if i < 0 {
      DecimalDigits(-i);
      NegativeReads(Numeral(i), Decimal(-i), -i);
    } else {
      DecimalDigits(i);
      PositiveReads(Decimal(i), i);
    }
    NotHexadecimal(i);
    ReadsAsDecimal(Numeral(i), i);
  }

  lemma NumeralIsBare(s: string)
    requires Plain(s)
    ensures TrimSuffix(TrimSpace(s), ";") == s
  {
    PlainIsTight(s);
    NotASuffix(s, ';');
  }

  // ---------- Hexadecimal ----------

  /** A digit in either case. */
  function HexDigit(d: nat, upper: bool): char
    requires d < 16
  {
    if d < 10 then '0' + d as char
    else if upper then 'A' + (d - 10) as char
    else 'a' + (d - 10) as char
  }

  /** The digits of n to the base 16; upper(k) is the case of digit k, counted from the right. */
  function HexDigits(n: nat, upper: nat -> bool, k: nat): (s: string)
    ensures Name(s) && s[0] != '-' && s[0] != '+'
    decreases n
  {
    if n < 16 then [HexDigit(n, upper(k))] else HexDigits(n / 16, upper, k + 1) + [HexDigit(n % 16, upper(k))]
  }

  function Hexadecimal(n: nat, upper: nat -> bool, bigX: bool): (s: string)
    ensures Name(s) && s[0] == '0' && s[1..] == [if bigX then 'X' else 'x'] + HexDigits(n, upper, 0)
  {
    ['0', if bigX then 'X' else 'x'] + HexDigits(n, upper, 0)
  }

  lemma HexDigitReads(d: nat, upper: bool)
    requires d < 16
    ensures DigitValue(HexDigit(d, upper)) == Some(d)
  {
  }

  lemma {:induction false} HexDigitsRead(n: nat, upper: nat -> bool, k: nat)
    ensures ParseDigits(HexDigits(n, upper, k), 16) == Some(n)
    decreases n
  {
    var s := HexDigits(n, upper, k);
    HexDigitReads(n % 16, upper(k));
    if n < 16 {
      assert s[..0] == "";
      assert ParseDigits("", 16) == Some(0);
    } else {
      HexDigitsRead(n / 16, upper, k + 1);
      assert s[..|s| - 1] == HexDigits(n / 16, upper, k + 1) && s[|s| - 1] == HexDigit(n % 16, upper(k));
    }
  }

  lemma ReadsAsHexadecimal(s: string, digits: string, n: int)
    requires Plain(s) && |s| > 2 && s[0] == '0' && (s[1] == 'x' || s[1] == 'X') && s[2..] == digits
    requires ParseInt64(digits, 16) == Some(n)
    ensures ParseInt(s) == Some(n)
  {
    NumeralIsBare(s);
    assert s[..2] == [s[0], s[1]];
  }

  lemma UnsignedDigitsRead(digits: string, base: nat, v: nat)
    requires |digits| > 0 && digits[0] != '-' && digits[0] != '+'
    requires ParseDigits(digits, base) == Some(v) && v < 0x8000_0000_0000_0000
    ensures ParseInt64(digits, base) == Some(v)
  {
  }

  /** Every number below 2^63 reads back from its hexadecimal numeral, whatever the case of prefix and digits. */
  lemma HexadecimalParses(n: nat, upper: nat -> bool, bigX: bool)
    requires n < 0x8000_0000_0000_0000
    ensures ParseInt(Hexadecimal(n, upper, bigX)) == Some(n)
  {
    var s, digits := Hexadecimal(n, upper, bigX), HexDigits(n, upper, 0);
    HexDigitsRead(n, upper, 0);
    UnsignedDigitsRead(digits, 16, n);
    assert s[2..] == s[1..][1..] == digits;
    ReadsAsHexadecimal(s, digits, n);
  }

  lemma {:induction false} DigitsScan(s: string, base: nat)
    requires ParseDigits(s, base).Some? && ParseDigits(s, base).value < 0x1_0000_0000_0000_0000 && base > 0
    ensures ScanDigits(s, base) == Value(ParseDigits(s, base).value)
  {
    if |s| > 0 {
      var high := ParseDigits(s[..|s| - 1], base).value;
      AtMostScaled(high, base);
      DigitsScan(s[..|s| - 1], base);
    }
  }

  lemma AtMostScaled(a: nat, b: nat)
    requires b > 0
    ensures a <= a * b
  {
  }

  /** Unsigned numbers are read up to 2^64. */
  lemma HexadecimalScans(n: nat, upper: nat -> bool)
    requires n < 0x1_0000_0000_0000_0000
    ensures ParseUint64(HexDigits(n, upper, 0), 16) == n
  {
    HexDigitsRead(n, upper, 0);
    DigitsScan(HexDigits(n, upper, 0), 16);
  }

  lemma {:induction false} TooManyDigits(s: string, base: nat)
    requires ParseDigits(s, base).Some? && ParseDigits(s, base).value >= 0x1_0000_0000_0000_0000 && base > 0
    ensures ScanDigits(s, base) == TooLarge
  {
    if |s| > 0 {
      var front := s[..|s| - 1];
      if ParseDigits(front, base).value >= 0x1_0000_0000_0000_0000 {
        TooManyDigits(front, base);
      } else {
        DigitsScan(front, base);
      }
    }
  }

  /** Larger ones are read as the largest. */
  lemma LargeHexadecimalScans(n: nat, upper: nat -> bool)
    requires n >= 0x1_0000_0000_0000_0000
    ensures ParseUint64(HexDigits(n, upper, 0), 16) == 0xFFFF_FFFF_FFFF_FFFF
  {
    HexDigitsRead(n, upper, 0);
    TooManyDigits(HexDigits(n, upper, 0), 16);
  }

  // ---------- What is no numeral ----------

  predicate WrongDigit(c: char, base: nat) {
    DigitValue(c).None? || DigitValue(c).value >= base
  }

  lemma {:induction false} WrongDigitFails(s: string, base: nat, i: nat)
    requires i < |s| && WrongDigit(s[i], base)
    ensures ParseDigits(s, base).None?
  {
    if i < |s| - 1 {
      WrongDigitFails(s[..|s| - 1], base, i);
    }
  }

  /** A wrong character anywhere but at the front, where a sign may stand, fails. */
  lemma WrongCharacterFails(s: string, base: nat, i: nat)
    requires 0 < i < |s| && WrongDigit(s[i], base)
    ensures ParseInt64(s, base).None?
  {
    var digits := if HasPrefix(s, "-") || HasPrefix(s, "+") then s[1..] else s;
    WrongDigitFails(digits, base, if HasPrefix(s, "-") || HasPrefix(s, "+") then i - 1 else i);
  }

  lemma TooLargeFails(digits: string, base: nat)
    requires |digits| > 0 && digits[0] != '-' && digits[0] != '+'
    requires ParseDigits(digits, base).Some? && ParseDigits(digits, base).value >= 0x8000_0000_0000_0000
    ensures ParseInt64(digits, base).None?
  {
  }

  /** A decimal numeral is read exactly when its value fits into 63 bits and a sign. */
  lemma NumeralParsesExactly(i: int)
    ensures ParseInt(Numeral(i)) == if Int64(i) then Some(i) else None
  {
    if Int64(i) {
      NumeralParses(i);
    } else {
      var s := Numeral(i);
      NotHexadecimal(i);
      NumeralIsBare(s);
      DecimalDigits(if i < 0 then -i else i);
      assert i < 0 ==> HasPrefix(s, "-") && s[1..] == Decimal(-i);
    }
  }

  /** And a hexadecimal one when its value is below 2^63. */
  lemma HexadecimalParsesExactly(n: nat, upper: nat -> bool, bigX: bool)
    ensures ParseInt(Hexadecimal(n, upper, bigX)) == if n < 0x8000_0000_0000_0000 then Some(n as int) else None
  {
    if n < 0x8000_0000_0000_0000 {
      HexadecimalParses(n, upper, bigX);
    } else {
      var s, digits := Hexadecimal(n, upper, bigX), HexDigits(n, upper, 0);
      HexDigitsRead(n, upper, 0);
      TooLargeFails(digits, 16);
      assert s[2..] == s[1..][1..] == digits;
      NumeralIsBare(s);
      assert s[..2] == [s[0], s[1]];
    }
  }

  lemma TwoHexDigits(a: nat, b: nat, upper: nat -> bool)
    requires 0 < a < 16 && b < 16
    ensures HexDigits(16 * a + b, upper, 0) == [HexDigit(a, upper(1)), HexDigit(b, upper(0))]
  {
    assert (16 * a + b) / 16 == a && (16 * a + b) % 16 == b;
    assert HexDigits(a, upper, 1) == [HexDigit(a, upper(1))];
  }

  lemma ShortHexadecimal(text: string, a: nat, b: nat, upper: nat -> bool)
    requires 0 < a < 16 && b < 16
    requires |text| == 4 && text[0] == '0' && text[1] == 'x'
    requires text[2] == HexDigit(a, upper(1)) && text[3] == HexDigit(b, upper(0))
    ensures ParseInt(text) == Some(16 * a + b)
  {
    var s := Hexadecimal(16 * a + b, upper, false);
    TwoHexDigits(a, b, upper);
    assert s[1..] == text[1..] && s[0] == text[0];
    assert s == [s[0]] + s[1..] && text == [text[0]] + text[1..];
    HexadecimalParses(16 * a + b, upper, false);
  }

  /** For instance. */
  lemma HexadecimalExample(text: string)
    requires text == "0x3C"
    ensures ParseInt(text) == Some(0x3C)
  {
    ShortHexadecimal(text, 3, 12, k => true);
  }

  // ---------- Either notation ----------

  datatype Notation = InDecimal | InHexadecimal(upper: nat -> bool, bigX: bool)

  /** How each number is written; negative ones have a decimal form only. */
  type Notations = int -> Notation

  function Written(nt: Notations, i: int): (s: string)
    ensures Name(s)
  {
    if i < 0 then Numeral(i)
    else
      match nt(i)
      case InDecimal => Numeral(i)
      case InHexadecimal(upper, bigX) => Hexadecimal(i, upper, bigX)
  }

  /** Every 64-bit integer reads back, however it is written. */
  lemma WrittenParses(nt: Notations, i: int)
    requires Int64(i)
    ensures ParseInt(Written(nt, i)) == Some(i)
  {
    if i >= 0 && nt(i).InHexadecimal? {
      HexadecimalParses(i, nt(i).upper, nt(i).bigX);
    } else {
      NumeralParses(i);
    }
  }

  // ---------- Trimming ----------

  /** Neither end is white space. */
  predicate Tight(s: string) {
    |s| > 0 ==> !IsSpace(s[0]) && !IsSpace(s[|s| - 1])
  }

  lemma TightTrims(s: string)
    requires Tight(s)
    ensures TrimSpace(s) == s
  {
  }

  lemma PlainIsTight(s: string)
    requires Plain(s)
    ensures Tight(s) && TrimSpace(s) == s
  {
    TightTrims(s);
  }

  lemma NotASuffix(s: string, c: char)
    requires Plain(s) && !IsPlain(c)
    ensures TrimSuffix(s, [c]) == s && c !in s
  {
    assert |s| > 0 ==> s[|s| - 1..][0] == s[|s| - 1];
  }

  lemma DropSuffix(s: string, c: char)
    ensures TrimSuffix(s + [c], [c]) == s
  {
  }

  /** A text followed by a punctuation mark, as the parser strips it. */
  lemma Stripped(s: string, c: char)
    requires (|s| > 0 ==> !IsSpace(s[0])) && !IsSpace(c)
    ensures TrimSuffix(TrimSpace(s + [c]), [c]) == s
  {
    TightTrims(s + [c]);
    DropSuffix(s, c);
  }

  // ---------- Splitting ----------

  lemma IndexAt(a: string, c: char, b: string)
    requires c !in a
    ensures IndexOf(a + [c] + b, c) == Some(|a|)
  {
    var s := a + [c] + b;
    assert s[|a|] == c && forall k :: 0 <= k < |a| ==> s[k] == a[k];
  }

  lemma SplitAt(a: string, c: char, b: string)
    requires c !in a
    ensures Split(a + [c] + b, c) == [a] + Split(b, c)
  {
    var s := a + [c] + b;
    IndexAt(a, c, b);
    assert s[..|a|] == a && s[|a| + 1..] == b;
  }

  lemma SplitNAt(a: string, c: char, b: string, n: nat)
    requires c !in a && n > 1
    ensures SplitN(a + [c] + b, c, n) == [a] + SplitN(b, c, n - 1)
  {
    var s := a + [c] + b;
    IndexAt(a, c, b);
    assert s[..|a|] == a && s[|a| + 1..] == b;
  }

  lemma Unsplit(a: string, c: char, n: nat)
    requires c !in a && n > 0
    ensures Split(a, c) == [a] && SplitN(a, c, n) == [a]
  {
  }

  lemma PlainHasNo(s: string, c: char)
    requires Plain(s) && !IsPlain(c)
    ensures c !in s
  {
  }

  lemma {:induction false} SplitJoined(names: seq<string>)
    requires Names(names) && |names| > 0
    ensures Split(Joined(names), ',') == names
  {
    PlainHasNo(names[0], ',');
    if |names| == 1 {
      Unsplit(names[0], ',', 1);
    } else {
      SplitAt(names[0], ',', Joined(names[1..]));
      SplitJoined(names[1..]);
    }
  }

  lemma {:induction false} JoinedIsTight(names: seq<string>)
    requires Names(names) && |names| > 0
    ensures var s := Joined(names); |s| > 0 && !IsSpace(s[0]) && !IsSpace(s[|s| - 1])
  {
    if |names| > 1 {
      JoinedIsTight(names[1..]);
    }
  }

  predicate Trimmed(name: string) {
    TrimSpace(name) == name && name != ""
  }

  lemma NameTrims(name: string)
    requires Name(name)
    ensures Trimmed(name)
  {
    PlainIsTight(name);
  }

  lemma {:induction false} TrimmedStay(names: seq<string>)
    requires forall i :: 0 <= i < |names| ==> Trimmed(names[i])
    ensures NonEmptyTrimmed(names) == names
  {
    if |names| > 0 {
      var n := |names| - 1;
      TrimmedStay(names[..n]);
      assert Trimmed(names[n]);
    }
  }

  /** A list of names, empty or not, reads back from its joined form. */
  lemma NamesRead(names: seq<string>)
    requires Names(names)
    ensures NonEmptyTrimmed(Split(Joined(names), ',')) == names
  {
    if |names| == 0 {
      Unsplit("", ',', 1);
      assert [""][..0] == [];
      assert NonEmptyTrimmed([""]) == NonEmptyTrimmed([""][..0]) == [];
    } else {
      SplitJoined(names);
      forall i | 0 <= i < |names| ensures Trimmed(names[i]) {
        NameTrims(names[i]);
      }
      TrimmedStay(names);
    }
  }

  // ---------- Fields ----------

  lemma {:induction false} WordStops(w: string, rest: string)
    requires Plain(w) && (|rest| > 0 ==> IsSpace(rest[0]))
    ensures Word(w + rest) == w
  {
    if |w| > 0 {
      WordStops(w[1..], rest);
      assert (w + rest)[1..] == w[1..] + rest;
    } else {
      assert w + rest == rest;
    }
  }

  lemma FieldsAt(w: string, rest: string)
    requires Name(w)
    ensures Fields(w + " " + rest) == [w] + Fields(rest)
  {
    var s := w + (" " + rest);
    assert w + " " + rest == s;
    WordStops(w, " " + rest);
    assert TrimLeft(s) == s;
    assert s[|w|..] == " " + rest;
    SkipSpace(rest);
  }

  lemma SkipSpace(rest: string)
    ensures Fields(" " + rest) == Fields(rest)
  {
    assert (" " + rest)[1..] == rest;
  }

  lemma LastField(w: string)
    requires Name(w)
    ensures Fields(w) == [w]
  {
    WordStops(w, "");
    assert w + "" == w;
    assert TrimLeft(w) == w;
    assert w[|w|..] == "";
    assert Fields("") == [];
  }
}
