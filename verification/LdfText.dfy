/** The string operations the LDF parser is built from. */
module LdfText {
  import opened Options

  /** White space as Unicode defines it, which is what trimming removes and what separates fields. */
  predicate IsSpace(c: char) {
    || c in "\t\n\r " || c == '\U{0B}' || c == '\U{0C}' || c == '\U{85}' || c == '\U{A0}' || c == '\U{1680}'
    || '\U{2000}' <= c <= '\U{200A}'
    || c == '\U{2028}' || c == '\U{2029}' || c == '\U{202F}' || c == '\U{205F}' || c == '\U{3000}'
  }

  /** In ASCII: the blank and the characters from tab to carriage return. */
  lemma AsciiSpaces(c: char)
    requires c < '\U{80}'
    ensures IsSpace(c) <==> c == ' ' || '\t' <= c <= '\r'
  {
    assert '\n' == '\U{0A}';
  }

  function TrimLeft(s: string): string {
    if |s| > 0 && IsSpace(s[0]) then TrimLeft(s[1..]) else s
  }

  function TrimRight(s: string): string {
    if |s| > 0 && IsSpace(s[|s| - 1]) then TrimRight(s[..|s| - 1]) else s
  }

  function TrimSpace(s: string): string {
    TrimRight(TrimLeft(s))
  }

  predicate HasPrefix(s: string, p: string) {
    p <= s
  }

  predicate HasSuffix(s: string, p: string) {
    |p| <= |s| && s[|s| - |p|..] == p
  }

  function TrimPrefix(s: string, p: string): string {
    if HasPrefix(s, p) then s[|p|..] else s
  }

  function TrimSuffix(s: string, p: string): string {
    if HasSuffix(s, p) then s[..|s| - |p|] else s
  }

  /** The first position of c, if there is one. */
  function IndexOf(s: string, c: char): (i: Option<nat>)
    ensures i.Some? ==> i.value < |s| && s[i.value] == c && c !in s[..i.value]
    ensures i.None? ==> c !in s
  {
    if |s| == 0 then None
    else if s[0] == c then Some(0)
    else
      match IndexOf(s[1..], c)
      case None => None
      case Some(k) => assert s[..k + 1] == [s[0]] + s[1..][..k]; Some(k + 1)
  }

  /** The pieces between separators; there is always at least one. */
  function Split(s: string, sep: char): (parts: seq<string>)
    ensures |parts| >= 1
    decreases |s|
  {
    match IndexOf(s, sep)
    case None => [s]
    case Some(i) => [s[..i]] + Split(s[i + 1..], sep)
  }

  /** Like Split, but with at most n pieces; the last one keeps the remaining separators. */
  function SplitN(s: string, sep: char, n: nat): (parts: seq<string>)
    requires n > 0
    ensures 1 <= |parts| <= n
  {
    if n == 1 then
      [s]
    else
      match IndexOf(s, sep)
      case None => [s]
      case Some(i) => [s[..i]] + SplitN(s[i + 1..], sep, n - 1)
  }

  /** The part of s before its first white space. */
  function Word(s: string): (w: string)
    ensures |w| <= |s|
    ensures |s| > 0 && !IsSpace(s[0]) ==> |w| > 0
  {
    if |s| == 0 || IsSpace(s[0]) then "" else [s[0]] + Word(s[1..])
  }

  lemma TrimLeftShrinks(s: string)
    ensures |TrimLeft(s)| <= |s|
    ensures |TrimLeft(s)| > 0 ==> !IsSpace(TrimLeft(s)[0])
  {
  }

  /** The maximal runs of characters that are not white space. */
  function Fields(s: string): seq<string>
    decreases |s|
  {
    TrimLeftShrinks(s);
    var t := TrimLeft(s);
    if |t| == 0 then [] else [Word(t)] + Fields(t[|Word(t)|..])
  }

  function Lower(c: char): char {
    if 'A' <= c <= 'Z' then c - 'A' + 'a' else c
  }

  /** Equality up to case; the words compared here have no case variants outside ASCII. */
  predicate EqualFold(s: string, t: string) {
    |s| == |t| && forall i :: 0 <= i < |s| ==> Lower(s[i]) == Lower(t[i])
  }

  /** What lies between the first two quotation marks. */
  function ExtractQuotedValue(line: string): string {
    match IndexOf(line, '"')
    case None => ""
    case Some(start) =>
      match IndexOf(line[start + 1..], '"')
      case None => ""
      case Some(end) => line[start + 1..start + 1 + end]
  }

  // ---------- Integers ----------

  function DigitValue(c: char): Option<nat> {
    if '0' <= c <= '9' then Some((c - '0') as nat)
    else if 'a' <= c <= 'z' then Some((c - 'a') as nat + 10)
    else if 'A' <= c <= 'Z' then Some((c - 'A') as nat + 10)
    else None
  }

  function ParseDigits(s: string, base: nat): Option<nat> {
    if |s| == 0 then
      Some(0)
    else
      match (ParseDigits(s[..|s| - 1], base), DigitValue(s[|s| - 1]))
      case (Some(high), Some(d)) => if d < base then Some(high * base + d) else None
      case _ => None
  }

  /** A signed 64-bit numeral: optional sign, at least one digit, and a value in range. */
  function ParseInt64(s: string, base: nat): Option<int> {
    var negative := HasPrefix(s, "-");
    var digits := if negative || HasPrefix(s, "+") then s[1..] else s;
    if |digits| == 0 then
      None
    else
      match ParseDigits(digits, base)
      case None => None
      case Some(v) =>
        var magnitude: int := v;
        var value := if negative then -magnitude else magnitude;
        if -0x8000_0000_0000_0000 <= value < 0x8000_0000_0000_0000 then Some(value) else None
  }

  /** Decimal or 0x-prefixed hexadecimal, with one trailing semicolon ignored. */
  function ParseInt(text: string): Option<int> {
    var s := TrimSuffix(TrimSpace(text), ";");
    if HasPrefix(s, "0x") || HasPrefix(s, "0X") then ParseInt64(s[2..], 16) else ParseInt64(s, 10)
  }

  /** Reading an unsigned 64-bit numeral from the left ends at a wrong digit or when the value gets too large. */
  datatype Scan = Value(v: nat) | BadDigit | TooLarge

  function ScanDigits(s: string, base: nat): (r: Scan)
    ensures r.Value? ==> r.v < 0x1_0000_0000_0000_0000
  {
    if |s| == 0 then
      Value(0)
    else
      match ScanDigits(s[..|s| - 1], base)
      case Value(high) => ScanDigit(high, DigitValue(s[|s| - 1]), base)
      case BadDigit => BadDigit
      case TooLarge => TooLarge
  }

  function ScanDigit(high: nat, digit: Option<nat>, base: nat): (r: Scan)
    ensures r.Value? ==> r.v < 0x1_0000_0000_0000_0000
  {
    match digit
    case None => BadDigit
    case Some(d) =>
      if d >= base then BadDigit
      else if high * base + d >= 0x1_0000_0000_0000_0000 then TooLarge
      else Value(high * base + d)
  }

  /** What is left of an unsigned numeral whose error is ignored: 0 if malformed, the largest value if too large. */
  function ParseUint64(s: string, base: nat): (v: nat)
    ensures v < 0x1_0000_0000_0000_0000
  {
    match ScanDigits(s, base)
    case Value(v) => v
    case BadDigit => 0
    case TooLarge => 0xFFFF_FFFF_FFFF_FFFF
  }

  // ---------- Lists of names ----------

  function NonEmptyTrimmed(parts: seq<string>): seq<string> {
    if |parts| == 0 then
      []
    else
      var name := TrimSpace(parts[|parts| - 1]);
      NonEmptyTrimmed(parts[..|parts| - 1]) + (if name != "" then [name] else [])
  }

  method CollectNames(parts: seq<string>, before: seq<string>) returns (names: seq<string>)
    ensures names == before + NonEmptyTrimmed(parts)
  {
    names := before;
    for n := 0 to |parts|
      invariant names == before + NonEmptyTrimmed(parts[..n])
    {
      assert parts[..n + 1][..n] == parts[..n];
      var name := TrimSpace(parts[n]);
      if name != "" {
        names := names + [name];
      }
    }
    assert parts[..|parts|] == parts;
  }
}
