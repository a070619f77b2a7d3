/** White space around the separators of a description file makes no difference to what is read. */
module LdfSpacing {
  import opened Options
  import opened LdfText
  import opened LdfDatabase
  import opened LdfGrammar
  import opened LdfPrint
  import LdfRoundTrip
  import Lin

  // ---------- Trimming ----------

  lemma {:induction false} TrimLeftStops(a: string, c: char, b: string)
    requires !IsSpace(c)
    ensures TrimLeft(a + [c] + b) == TrimLeft(a) + [c] + b
  {
    if |a| > 0 && IsSpace(a[0]) {
      assert (a + [c] + b)[1..] == a[1..] + [c] + b;
      TrimLeftStops(a[1..], c, b);
    } else {
      assert |a| == 0 ==> a + [c] + b == [c] + b;
    }
  }

  lemma {:induction false} TrimRightStops(a: string, c: char, b: string)
    requires !IsSpace(c)
    ensures TrimRight(a + [c] + b) == a + [c] + TrimRight(b)
  {
    var s := a + [c] + b;
    if |b| == 0 {
      assert s == a + [c] && s[|s| - 1] == c;
    } else if IsSpace(b[|b| - 1]) {
      assert s[..|s| - 1] == a + [c] + b[..|b| - 1];
      TrimRightStops(a, c, b[..|b| - 1]);
    }
  }

  lemma {:induction false} TrimLeftTwice(s: string)
    ensures TrimLeft(TrimLeft(s)) == TrimLeft(s)
  {
    if |s| > 0 && IsSpace(s[0]) {
      TrimLeftTwice(s[1..]);
    }
  }

  lemma {:induction false} TrimRightTwice(s: string)
    ensures TrimRight(TrimRight(s)) == TrimRight(s)
  {
    if |s| > 0 && IsSpace(s[|s| - 1]) {
      TrimRightTwice(s[..|s| - 1]);
    }
  }

  lemma TrimRightBehind(c: char, b: string)
    requires !IsSpace(c)
    ensures TrimRight([c] + b) == [c] + TrimRight(b)
  {
    TrimRightStops("", c, b);
    assert "" + [c] + b == [c] + b;
  }

  /** The two ends are trimmed independently. */
  lemma {:induction false} TrimsCommute(s: string)
    ensures TrimLeft(TrimRight(s)) == TrimRight(TrimLeft(s))
  {
    if |s| > 0 {
      if IsSpace(s[0]) {
        TrimsCommute(s[1..]);
        SpaceInFront(s[0], s[1..]);
        assert s == [s[0]] + s[1..];
      } else {
        TrimRightBehind(s[0], s[1..]);
        assert s == [s[0]] + s[1..];
      }
    }
  }

  lemma {:induction false} SpaceInFront(c: char, b: string)
    requires IsSpace(c)
    ensures TrimLeft(TrimRight([c] + b)) == TrimLeft(TrimRight(b))
  {
    var s := [c] + b;
    if |b| > 0 && IsSpace(b[|b| - 1]) {
      assert s[..|s| - 1] == [c] + b[..|b| - 1];
      SpaceInFront(c, b[..|b| - 1]);
    } else if |b| == 0 {
      assert s[..0] == "";
    } else {
      assert s[1..] == b;
    }
  }

  lemma TrimAfterLeft(s: string)
    ensures TrimSpace(TrimLeft(s)) == TrimSpace(s)
  {
    TrimLeftTwice(s);
  }

  lemma TrimAfterRight(s: string)
    ensures TrimSpace(TrimRight(s)) == TrimSpace(s)
  {
    TrimsCommute(s);
    TrimsCommute(TrimRight(s));
    TrimRightTwice(s);
  }

  /** Trimming removes nothing but white space. */
  lemma {:induction false} TrimLeftKeeps(s: string, c: char)
    requires !IsSpace(c)
    ensures c in TrimLeft(s) <==> c in s
  {
    if |s| > 0 && IsSpace(s[0]) {
      TrimLeftKeeps(s[1..], c);
      assert s == [s[0]] + s[1..];
    }
  }

  lemma {:induction false} TrimRightKeeps(s: string, c: char)
    requires !IsSpace(c)
    ensures c in TrimRight(s) <==> c in s
  {
    if |s| > 0 && IsSpace(s[|s| - 1]) {
      TrimRightKeeps(s[..|s| - 1], c);
      assert s == s[..|s| - 1] + [s[|s| - 1]];
    }
  }

  // ---------- Fields ----------

  function Trims(fields: seq<string>): seq<string> {
    seq(|fields|, i requires 0 <= i < |fields| => TrimSpace(fields[i]))
  }

  predicate NoCommas(fields: seq<string>) {
    forall i :: 0 <= i < |fields| ==> ',' !in fields[i]
  }

  lemma {:induction false} SplitFields(fields: seq<string>)
    requires NoCommas(fields) && |fields| > 0
    ensures Split(Joined(fields), ',') == fields
  {
    if |fields| == 1 {
      Unsplit(fields[0], ',', 1);
    } else {
      SplitAt(fields[0], ',', Joined(fields[1..]));
      SplitFields(fields[1..]);
    }
  }

  /** At most n pieces: the fields, or all but the first n - 1 of them joined again. */
  function Cut(fields: seq<string>, n: nat): (parts: seq<string>)
    requires n > 0
    ensures |parts| == if |fields| <= n then |fields| else n
  {
    if |fields| <= n then fields else fields[..n - 1] + [Joined(fields[n - 1..])]
  }

  lemma CutHead(fields: seq<string>, n: nat)
    requires |fields| > 1 && n > 1
    ensures Cut(fields, n) == [fields[0]] + Cut(fields[1..], n - 1)
  {
    if |fields| > n {
      assert fields[1..][n - 2..] == fields[n - 1..];
      assert fields[..n - 1] == [fields[0]] + fields[1..][..n - 2];
    }
  }

  lemma SplitNHead(fields: seq<string>, n: nat)
    requires NoCommas(fields) && |fields| > 1 && n > 1
    ensures SplitN(Joined(fields), ',', n) == [fields[0]] + SplitN(Joined(fields[1..]), ',', n - 1)
  {
    SplitNAt(fields[0], ',', Joined(fields[1..]), n);
  }

  lemma OneCut(fields: seq<string>)
    requires |fields| > 0
    ensures Cut(fields, 1) == [Joined(fields)]
  {
    assert fields[0..] == fields;
  }

  lemma OneField(fields: seq<string>, n: nat)
    requires NoCommas(fields) && |fields| == 1 && n > 0
    ensures SplitN(Joined(fields), ',', n) == Cut(fields, n)
  {
    Unsplit(fields[0], ',', n);
  }

  lemma OneMoreField(fields: seq<string>, n: nat)
    requires NoCommas(fields) && |fields| > 1 && n > 1
    requires SplitN(Joined(fields[1..]), ',', n - 1) == Cut(fields[1..], n - 1)
    ensures SplitN(Joined(fields), ',', n) == Cut(fields, n)
  {
    SplitNHead(fields, n);
    CutHead(fields, n);
  }

  lemma {:induction false} SplitNFields(fields: seq<string>, n: nat)
    requires NoCommas(fields) && |fields| > 0 && n > 0
    ensures SplitN(Joined(fields), ',', n) == Cut(fields, n)
    decreases |fields|
  {
    if n == 1 {
      OneCut(fields);
    } else if |fields| == 1 {
      OneField(fields, n);
    } else {
      SplitNFields(fields[1..], n - 1);
      OneMoreField(fields, n);
    }
  }

  lemma TrimLeftJoined(fields: seq<string>)
    requires |fields| > 0
    ensures TrimLeft(Joined(fields)) == Joined(fields[0 := TrimLeft(fields[0])])
  {
    if |fields| > 1 {
      TrimLeftStops(fields[0], ',', Joined(fields[1..]));
      assert fields[0 := TrimLeft(fields[0])][1..] == fields[1..];
    }
  }

  lemma {:induction false} TrimRightJoined(fields: seq<string>)
    requires |fields| > 0
    ensures var n := |fields| - 1; TrimRight(Joined(fields)) == Joined(fields[n := TrimRight(fields[n])])
  {
    var n := |fields| - 1;
    if n > 0 {
      TrimRightStops(fields[0], ',', Joined(fields[1..]));
      TrimRightJoined(fields[1..]);
      assert fields[n := TrimRight(fields[n])][1..] == fields[1..][n - 1 := TrimRight(fields[n])];
    }
  }

  /** Trimming a list trims its outer fields. */
  lemma TrimJoined(fields: seq<string>) returns (edged: seq<string>)
    requires |fields| > 0 && NoCommas(fields)
    ensures |edged| == |fields| && NoCommas(edged) && Trims(edged) == Trims(fields)
    ensures TrimSpace(Joined(fields)) == Joined(edged)
  {
    var left := fields[0 := TrimLeft(fields[0])];
    TrimLeftJoined(fields);
    TrimAfterLeft(fields[0]);
    TrimLeftKeeps(fields[0], ',');
    var n := |fields| - 1;
    edged := left[n := TrimRight(left[n])];
    TrimRightJoined(left);
    TrimAfterRight(left[n]);
    TrimRightKeeps(left[n], ',');
    assert Trims(left) == Trims(fields);
    assert Trims(edged) == Trims(left);
  }

  lemma {:induction false} SameNames(a: seq<string>, b: seq<string>)
    requires Trims(a) == Trims(b)
    ensures NonEmptyTrimmed(a) == NonEmptyTrimmed(b)
  {
    if |a| > 0 {
      var n := |a| - 1;
      assert |Trims(a)| == |a| && |Trims(b)| == |b|;
      assert Trims(a)[n] == TrimSpace(a[n]) && Trims(b)[n] == TrimSpace(b[n]);
      assert Trims(a[..n]) == Trims(a)[..n] == Trims(b)[..n] == Trims(b[..n]);
      SameNames(a[..n], b[..n]);
    }
  }

  /** A line that ends otherwise is no closing brace. */
  lemma NotClosing(line: string, end: char)
    requires |line| > 0 && line[|line| - 1] == end && end != '}'
    ensures line != "}"
  {
  }

  // ---------- Lines of a name and fields ----------

  /** name : field, field, ... with a closing character. */
  predicate FieldLine(line: string, name: string, fields: seq<string>, end: char) {
    ':' !in name && |fields| > 0 && NoCommas(fields) && line == name + ":" + Joined(fields) + [end]
  }

  /** The same line up to white space around the separators. */
  ghost predicate RespacedFields(line': string, line: string, end: char) {
    exists name, fields, name', fields' :: SameFields(line', line, end, name, fields, name', fields')
  }

  predicate SameFields(line': string, line: string, end: char,
                       name: string, fields: seq<string>, name': string, fields': seq<string>)
  {
    && FieldLine(line, name, fields, end) && FieldLine(line', name', fields', end)
    && TrimSpace(name') == TrimSpace(name) && Trims(fields') == Trims(fields)
  }

  /** Trimming a line and stripping its closing character trims only its front. */
  lemma Stripping(text: string, end: char)
    requires !IsSpace(end)
    ensures TrimSuffix(TrimSpace(text + [end]), [end]) == TrimLeft(text)
  {
    TrimLeftStops(text, end, "");
    assert text + [end] + "" == text + [end];
    TrimRightStops(TrimLeft(text), end, "");
    assert TrimLeft(text) + [end] + "" == TrimLeft(text) + [end];
    DropSuffix(TrimLeft(text), end);
  }

  lemma Ended(name: string, sep: char, body: string, end: char)
    requires !IsSpace(sep) && !IsSpace(end)
    ensures TrimSuffix(TrimSpace(name + [sep] + body + [end]), [end]) == TrimLeft(name) + [sep] + body
  {
    Stripping(name + [sep] + body, end);
    TrimLeftStops(name, sep, body);
  }

  lemma ColonAt(name: string, body: string)
    requires ':' !in name
    ensures var text := TrimLeft(name) + ":" + body;
            && IndexOf(text, ':') == Some(|TrimLeft(name)|)
            && text[..|TrimLeft(name)|] == TrimLeft(name) && text[|TrimLeft(name)| + 1..] == body
  {
    TrimLeftKeeps(name, ':');
    IndexAt(TrimLeft(name), ':', body);
  }

  /** A signal line in terms of its trimmed fields. */
  lemma SignalFieldsOf(line: string, name: string, fields: seq<string>) returns (edged: seq<string>)
    requires FieldLine(line, name, fields, ';')
    ensures |edged| == |fields| && NoCommas(edged) && Trims(edged) == Trims(fields)
    ensures SignalFields(line) ==
            if |fields| < 3 then None
            else Some((TrimSpace(name), Cut(edged, SIGNAL_FIELDS)))
  {
    var body := Joined(fields);
    Ended(name, ':', body, ';');
    ColonAt(name, body);
    TrimAfterLeft(name);
    edged := TrimJoined(fields);
    SplitNFields(edged, SIGNAL_FIELDS);
  }

  /** The subscriber list behind the first three fields. */
  lemma SubscribersOf(fields: seq<string>)
    requires |fields| > 3 && NoCommas(fields)
    ensures Split(Cut(fields, SIGNAL_FIELDS)[3], ',') == fields[3..]
  {
    assert |fields| == 4 ==> fields[3..] == [fields[3]];
    SplitFields(fields[3..]);
  }

  lemma SignalOfFields(lex: Lexicon, name: string, a: seq<string>, b: seq<string>)
    requires |a| == |b| >= 3 && NoCommas(a) && NoCommas(b) && Trims(a) == Trims(b)
    ensures SignalOf(lex, name, Cut(a, SIGNAL_FIELDS)) == SignalOf(lex, name, Cut(b, SIGNAL_FIELDS))
  {
    assert forall i :: 0 <= i < |a| ==> TrimSpace(a[i]) == Trims(a)[i] == Trims(b)[i] == TrimSpace(b[i]);
    if |a| > 3 {
      SubscribersOf(a);
      SubscribersOf(b);
      assert Trims(a[3..]) == Trims(a)[3..] && Trims(b[3..]) == Trims(b)[3..];
      SameNames(a[3..], b[3..]);
    }
  }

  lemma SameSignalLines(
    lex: Lexicon, db: Database, line': string, line: string,
    name: string, fields: seq<string>, name': string, fields': seq<string>)
    requires SameFields(line', line, ';', name, fields, name', fields')
    ensures SignalsLine(lex, db, line') == SignalsLine(lex, db, line)
  {
    assert |Trims(fields)| == |fields| && |Trims(fields')| == |fields'|;
    var a := SignalFieldsOf(line, name, fields);
    var b := SignalFieldsOf(line', name', fields');
    if |fields| >= 3 {
      SignalOfFields(lex, TrimSpace(name), a, b);
    }
  }

  lemma RespacedSignal(lex: Lexicon, db: Database, line': string, line: string)
    requires RespacedFields(line', line, ';')
    ensures SignalsLine(lex, db, line') == SignalsLine(lex, db, line)
  {
    var name, fields, name', fields' :| SameFields(line', line, ';', name, fields, name', fields');
    SameSignalLines(lex, db, line', line, name, fields, name', fields');
  }

  lemma HeaderParts(line: string, name: string, fields: seq<string>) returns (edged: seq<string>)
    requires FieldLine(line, name, fields, '{')
    ensures |edged| == |fields| && NoCommas(edged) && Trims(edged) == Trims(fields)
    ensures ParseFrameHeader(line) == HeaderOf(TrimSpace(name), edged)
  {
    var body := Joined(fields);
    Ended(name, ':', body, '{');
    TrimLeftTwice(name);
    TrimLeftStops(TrimLeft(name), ':', body);
    TrimRightStops(TrimLeft(name), ':', body);
    ColonAt(name, TrimRight(body));
    TrimAfterLeft(name);
    TrimAfterRight(body);
    edged := TrimJoined(fields);
    SplitFields(edged);
  }

  lemma SameHeaderLines(line': string, line: string,
                        name: string, fields: seq<string>, name': string, fields': seq<string>)
    requires SameFields(line', line, '{', name, fields, name', fields')
    ensures ParseFrameHeader(line') == ParseFrameHeader(line)
  {
    var a := HeaderParts(line, name, fields);
    var b := HeaderParts(line', name', fields');
    SameHeaderOf(TrimSpace(name), a, b);
  }

  lemma RespacedHeader(line': string, line: string)
    requires RespacedFields(line', line, '{')
    ensures ParseFrameHeader(line') == ParseFrameHeader(line)
  {
    var name, fields, name', fields' :| SameFields(line', line, '{', name, fields, name', fields');
    SameHeaderLines(line', line, name, fields, name', fields');
  }

  lemma SameHeaderOf(name: string, a: seq<string>, b: seq<string>)
    requires Trims(a) == Trims(b)
    ensures HeaderOf(name, a) == HeaderOf(name, b)
  {
    assert |Trims(a)| == |a| && |Trims(b)| == |b|;
    assert forall i :: 0 <= i < |a| ==> TrimSpace(a[i]) == Trims(a)[i] == Trims(b)[i] == TrimSpace(b[i]);
  }

  // ---------- Other lines ----------

  /** A signal reference: name, offset; */
  predicate PairLine(line: string, a: string, b: string) {
    ',' !in a && line == a + "," + b + ";"
  }

  predicate SamePair(line': string, line: string, a: string, b: string, a': string, b': string) {
    PairLine(line, a, b) && PairLine(line', a', b') && TrimSpace(a') == TrimSpace(a) && TrimSpace(b') == TrimSpace(b)
  }

  ghost predicate RespacedPair(line': string, line: string) {
    exists a, b, a', b' :: SamePair(line', line, a, b, a', b')
  }

  lemma RefOf(line: string, a: string, b: string)
    requires PairLine(line, a, b)
    ensures SplitN(TrimSuffix(TrimSpace(line), ";"), ',', 2) == [TrimLeft(a), b]
    ensures TrimSpace(TrimLeft(a)) == TrimSpace(a)
  {
    Ended(a, ',', b, ';');
    TrimLeftKeeps(a, ',');
    SplitNAt(TrimLeft(a), ',', b, 2);
    TrimAfterLeft(a);
  }

  lemma SameRefs(line': string, line: string, a: string, b: string, a': string, b': string)
    requires SamePair(line', line, a, b, a', b')
    ensures ParseRef(line') == ParseRef(line)
    ensures line' != "}" && line != "}"
  {
    NotClosing(line', ';');
    NotClosing(line, ';');
    RefOf(line, a, b);
    RefOf(line', a', b');
  }

  lemma RespacedRef(line': string, line: string)
    requires RespacedPair(line', line)
    ensures ParseRef(line') == ParseRef(line)
    ensures line' != "}" && line != "}"
  {
    var a, b, a', b' :| SamePair(line', line, a, b, a', b');
    SameRefs(line', line, a, b, a', b');
  }

  /** A schedule slot: the same words. */
  predicate WordLine(line: string, text: string) {
    line == text + ";"
  }

  ghost predicate RespacedWords(line': string, line: string) {
    exists text, text' :: WordLine(line, text) && WordLine(line', text') && Fields(text') == Fields(text)
  }

  lemma {:induction false} WordPrefix(s: string, p: string)
    requires forall i :: 0 <= i < |p| ==> !IsSpace(p[i])
    ensures p <= s <==> p <= Word(s)
  {
    if |s| > 0 && |p| > 0 && !IsSpace(s[0]) {
      WordPrefix(s[1..], p[1..]);
      assert p == [p[0]] + p[1..] && s == [s[0]] + s[1..];
    }
  }

  lemma AssignmentByWord(s: string)
    requires TrimLeft(s) == s
    ensures HasPrefix(s, LdfRoundTrip.ASSIGN) <==> |Fields(s)| > 0 && HasPrefix(Fields(s)[0], LdfRoundTrip.ASSIGN)
  {
    WordPrefix(s, LdfRoundTrip.ASSIGN);
  }

  lemma SlotOf(line: string, text: string)
    requires WordLine(line, text)
    ensures var words := Fields(text);
            SlotFields(line) ==
            if |words| >= 3 && !HasPrefix(words[0], LdfRoundTrip.ASSIGN) && EqualFold(words[1], "delay")
            then Some(words) else None
  {
    Stripping(text, ';');
    TrimLeftTwice(text);
    AssignmentByWord(TrimLeft(text));
    FieldsOfTrimmed(text);
  }

  lemma FieldsOfTrimmed(text: string)
    ensures Fields(TrimLeft(text)) == Fields(text)
  {
    TrimLeftTwice(text);
  }

  lemma RespacedSlot(line': string, line: string)
    requires RespacedWords(line', line)
    ensures SlotFields(line') == SlotFields(line)
    ensures line' != "}" && line != "}"
  {
    var text, text' :| WordLine(line, text) && WordLine(line', text') && Fields(text') == Fields(text);
    NotClosing(line', ';');
    NotClosing(line, ';');
    SlotOf(line, text);
    SlotOf(line', text');
  }

  /** A table header. */
  predicate OpeningLine(line: string, name: string) {
    line == name + "{"
  }

  ghost predicate RespacedOpening(line': string, line: string) {
    exists name, name' :: OpeningLine(line, name) && OpeningLine(line', name') && TrimSpace(name') == TrimSpace(name)
  }

  lemma RespacedTable(line': string, line: string)
    requires RespacedOpening(line', line)
    ensures HasSuffix(line', "{") && HasSuffix(line, "{")
    ensures TrimSpace(TrimSuffix(line', "{")) == TrimSpace(TrimSuffix(line, "{"))
    ensures line' != "}" && line != "}"
  {
    var name, name' :| OpeningLine(line, name) && OpeningLine(line', name') && TrimSpace(name') == TrimSpace(name);
    NotClosing(line', '{');
    NotClosing(line, '{');
    DropSuffix(name, '{');
    DropSuffix(name', '{');
  }

  // ---------- Node lines ----------

  /** The master with its timing, or alone. */
  predicate MasterLine(line: string, name: string, tail: string) {
    ',' !in name && |tail| > 0 && (tail[0] == ',' || tail == ";") && line == LdfRoundTrip.MASTER + (name + tail)
  }

  ghost predicate RespacedMaster(line': string, line: string) {
    exists name, tail, name', tail' :: SameMaster(line', line, name, tail, name', tail')
  }

  predicate SameMaster(line': string, line: string, name: string, tail: string, name': string, tail': string) {
    && MasterLine(line, name, tail) && MasterLine(line', name', tail')
    && TrimSpace(name') == TrimSpace(name) && tail'[0] == tail[0]
  }

  predicate SlavesLine(line: string, fields: seq<string>) {
    |fields| > 0 && NoCommas(fields) && line == LdfRoundTrip.SLAVES + (Joined(fields) + ";")
  }

  ghost predicate RespacedSlaves(line': string, line: string) {
    exists fields, fields' ::
      SlavesLine(line, fields) && SlavesLine(line', fields') && Trims(fields') == Trims(fields)
  }

  /** What the master line names. */
  function MasterName(name: string, alone: bool): string {
    if alone then TrimSpace(name) else TrimSpace(TrimSuffix(TrimSpace(name), ";"))
  }

  lemma MasterOf(db: Database, line: string, name: string, tail: string)
    requires MasterLine(line, name, tail)
    ensures NodesLine(db, line) == db.(masterNode := MasterName(name, tail[0] == ';'))
  {
    var rest := name + tail;
    assert LdfRoundTrip.MASTER <= line && line[|LdfRoundTrip.MASTER|..] == rest;
    if tail[0] == ',' {
      assert rest == name + [','] + tail[1..];
      SplitNAt(name, ',', tail[1..], 2);
    } else {
      Unsplit(rest, ',', 2);
      Stripping(name, ';');
      TrimAfterLeft(name);
    }
  }

  lemma SlavesOf(db: Database, line: string, fields: seq<string>)
    requires SlavesLine(line, fields)
    ensures NodesLine(db, line) == db.(slaveNodes := db.slaveNodes + NonEmptyTrimmed(fields))
  {
    assert LdfRoundTrip.SLAVES <= line && line[|LdfRoundTrip.SLAVES|..] == Joined(fields) + ";";
    assert line[0] == LdfRoundTrip.SLAVES[0] && LdfRoundTrip.MASTER[0] == 'M';
    var left := fields[0 := TrimLeft(fields[0])];
    Stripping(Joined(fields), ';');
    TrimLeftJoined(fields);
    TrimLeftKeeps(fields[0], ',');
    SplitFields(left);
    TrimAfterLeft(fields[0]);
    assert Trims(left) == Trims(fields);
    SameNames(left, fields);
  }

  lemma RespacedNodes(db: Database, line': string, line: string)
    requires RespacedMaster(line', line) || RespacedSlaves(line', line)
    ensures NodesLine(db, line') == NodesLine(db, line)
    ensures line' != "}" && line != "}"
  {
    if RespacedMaster(line', line) {
      var name, tail, name', tail' :| SameMaster(line', line, name, tail, name', tail');
      MasterOf(db, line, name, tail);
      MasterOf(db, line', name', tail');
    } else {
      var fields, fields' :|
        SlavesLine(line, fields) && SlavesLine(line', fields') && Trims(fields') == Trims(fields);
      SlavesOf(db, line, fields);
      SlavesOf(db, line', fields');
      SameNames(fields', fields);
    }
  }

  /** Before the colon of these two keywords white space does matter: the line then says nothing. */
  lemma KeywordColonIsFixed(db: Database, space: char, rest: string)
    requires IsSpace(space)
    ensures NodesLine(db, "Master" + [space] + rest) == db && NodesLine(db, "Slaves" + [space] + rest) == db
  {
    var m, s := "Master" + [space] + rest, "Slaves" + [space] + rest;
    assert m[6] == space && s[6] == space && LdfRoundTrip.MASTER[6] == ':' && LdfRoundTrip.SLAVES[6] == ':';
  }

  // ---------- Files ----------

  /** line' is line up to white space, as it is read in this place. */
  ghost predicate Respaced(mode: Mode, line': string, line: string) {
    line' == line ||
    match mode
    case Top => false
    case Opening(section) => !HasPrefix(line', "{") && !HasPrefix(line, "{") && RespacedIn(section, line', line)
    case Inside(section) => RespacedIn(section, line', line)
    case FrameBody(_) => RespacedPair(line', line)
    case SkippedBody => line' != "}" && line != "}"
    case TableBody(_, _) => RespacedWords(line', line)
  }

  ghost predicate RespacedIn(section: Section, line': string, line: string) {
    match section
    case Nodes => RespacedMaster(line', line) || RespacedSlaves(line', line)
    case Signals => RespacedFields(line', line, ';')
    case Frames => RespacedFields(line', line, '{')
    case Schedules => RespacedOpening(line', line)
  }

  lemma FieldLinesEnd(line': string, line: string, end: char)
    requires RespacedFields(line', line, end) && end != '}'
    ensures line' != "}" && line != "}" && end in line' && end in line
  {
    var name, fields, name', fields' :| SameFields(line', line, end, name, fields, name', fields');
    NotClosing(line', end);
    NotClosing(line, end);
    assert line'[|line'| - 1] == end && line[|line| - 1] == end;
  }

  lemma SameInNodes(lex: Lexicon, st: State, line': string, line: string)
    requires line' != "}" && line != "}" && NodesLine(st.db, line') == NodesLine(st.db, line)
    ensures SectionLine(lex, st, Nodes, line') == SectionLine(lex, st, Nodes, line)
  {
  }

  lemma SameInSignals(lex: Lexicon, st: State, line': string, line: string)
    requires line' != "}" && line != "}" && SignalsLine(lex, st.db, line') == SignalsLine(lex, st.db, line)
    ensures SectionLine(lex, st, Section.Signals, line') == SectionLine(lex, st, Section.Signals, line)
  {
  }

  lemma SameInFrames(lex: Lexicon, st: State, line': string, line: string)
    requires line' != "}" && line != "}" && '{' in line' && '{' in line
    requires ParseFrameHeader(line') == ParseFrameHeader(line)
    ensures SectionLine(lex, st, Frames, line') == SectionLine(lex, st, Frames, line)
  {
  }

  lemma SameInSchedules(lex: Lexicon, st: State, line': string, line: string)
    requires line' != "}" && line != "}" && HasSuffix(line', "{") && HasSuffix(line, "{")
    requires TrimSpace(TrimSuffix(line', "{")) == TrimSpace(TrimSuffix(line, "{"))
    ensures SectionLine(lex, st, Schedules, line') == SectionLine(lex, st, Schedules, line)
  {
  }

  lemma RespacedSection(lex: Lexicon, st: State, section: Section, line': string, line: string)
    requires RespacedIn(section, line', line)
    ensures SectionLine(lex, st, section, line') == SectionLine(lex, st, section, line)
  {
    if section == Nodes {
      RespacedNodes(st.db, line', line);
      SameInNodes(lex, st, line', line);
    } else if section == Section.Signals {
      RespacedSignal(lex, st.db, line', line);
      FieldLinesEnd(line', line, ';');
      SameInSignals(lex, st, line', line);
    } else if section == Frames {
      RespacedHeader(line', line);
      FieldLinesEnd(line', line, '{');
      SameInFrames(lex, st, line', line);
    } else {
      RespacedTable(line', line);
      SameInSchedules(lex, st, line', line);
    }
  }

  lemma SameInSection(lex: Lexicon, st: State, section: Section, line': string, line: string)
    requires st.mode == Inside(section) ||
             (st.mode == Opening(section) && !HasPrefix(line', "{") && !HasPrefix(line, "{"))
    requires SectionLine(lex, st, section, line') == SectionLine(lex, st, section, line)
    ensures Feed(lex, st, line') == Feed(lex, st, line)
  {
  }

  lemma FeedBody(lex: Lexicon, st: State, line: string)
    requires st.mode.FrameBody? && line != "}"
    ensures Feed(lex, st, line) == st.(mode := FrameBody(FrameBodyLine(st.mode.frame, line)))
  {
  }

  lemma SameInBody(lex: Lexicon, st: State, line': string, line: string)
    requires st.mode.FrameBody? && line' != "}" && line != "}" && ParseRef(line') == ParseRef(line)
    ensures Feed(lex, st, line') == Feed(lex, st, line)
  {
    FeedBody(lex, st, line');
    FeedBody(lex, st, line);
  }

  lemma FeedTable(lex: Lexicon, st: State, line: string)
    requires st.mode.TableBody? && line != "}"
    ensures Feed(lex, st, line) == TableLine(lex, st, line)
  {
  }

  lemma SameTableLine(lex: Lexicon, st: State, line': string, line: string)
    requires st.mode.TableBody? && SlotFields(line') == SlotFields(line)
    ensures TableLine(lex, st, line') == TableLine(lex, st, line)
  {
  }

  lemma SameInTable(lex: Lexicon, st: State, line': string, line: string)
    requires st.mode.TableBody? && line' != "}" && line != "}" && SlotFields(line') == SlotFields(line)
    ensures Feed(lex, st, line') == Feed(lex, st, line)
  {
    FeedTable(lex, st, line');
    FeedTable(lex, st, line);
    SameTableLine(lex, st, line', line);
  }

  lemma SameInSkipped(lex: Lexicon, st: State, line': string, line: string)
    requires st.mode.SkippedBody? && line' != "}" && line != "}"
    ensures Feed(lex, st, line') == Feed(lex, st, line)
  {
  }

  lemma RespacedFeed(lex: Lexicon, st: State, line': string, line: string)
    requires Respaced(st.mode, line', line)
    ensures Feed(lex, st, line') == Feed(lex, st, line)
  {
    if line' != line {
      if st.mode.FrameBody? {
        RespacedRef(line', line);
        SameInBody(lex, st, line', line);
      } else if st.mode.TableBody? {
        RespacedSlot(line', line);
        SameInTable(lex, st, line', line);
      } else if st.mode.SkippedBody? {
        SameInSkipped(lex, st, line', line);
      } else {
        RespacedSection(lex, st, st.mode.section, line', line);
        SameInSection(lex, st, st.mode.section, line', line);
      }
    }
  }

  ghost predicate RespacedFile(lex: Lexicon, lines': seq<string>, lines: seq<string>) {
    |lines'| == |lines| &&
    forall i :: 0 <= i < |lines| ==> Respaced(FeedAll(lex, START, lines[..i]).mode, lines'[i], lines[i])
  }

  function FoldBy(feed: (State, string) -> State, st: State, lines: seq<string>): State {
    if |lines| == 0 then st else feed(FoldBy(feed, st, lines[..|lines| - 1]), lines[|lines| - 1])
  }

  function Feeder(lex: Lexicon): (State, string) -> State {
    (st, line) => Feed(lex, st, line)
  }

  lemma {:induction false} FeedAllIsFold(lex: Lexicon, st: State, lines: seq<string>)
    ensures FeedAll(lex, st, lines) == FoldBy(Feeder(lex), st, lines)
  {
    if |lines| > 0 {
      FeedAllIsFold(lex, st, lines[..|lines| - 1]);
    }
  }

  /** Lines that make the same difference one by one make the same difference together. */
  lemma {:induction false} FoldsAlike(
    feed: (State, string) -> State, st: State, a: seq<string>, b: seq<string>, n: nat)
    requires n <= |a| == |b|
    requires forall i :: 0 <= i < n ==> feed(FoldBy(feed, st, b[..i]), a[i]) == feed(FoldBy(feed, st, b[..i]), b[i])
    ensures FoldBy(feed, st, a[..n]) == FoldBy(feed, st, b[..n])
  {
    if n > 0 {
      FoldsAlike(feed, st, a, b, n - 1);
      assert a[..n][..n - 1] == a[..n - 1] && b[..n][..n - 1] == b[..n - 1];
    }
  }

  lemma RespacedStep(lex: Lexicon, lines': seq<string>, lines: seq<string>, i: nat)
    requires RespacedFile(lex, lines', lines) && i < |lines|
    ensures var st := FoldBy(Feeder(lex), START, lines[..i]);
            Feeder(lex)(st, lines'[i]) == Feeder(lex)(st, lines[i])
  {
    FeedAllIsFold(lex, START, lines[..i]);
    RespacedFeed(lex, FeedAll(lex, START, lines[..i]), lines'[i], lines[i]);
  }

  lemma RespacedFold(lex: Lexicon, lines': seq<string>, lines: seq<string>)
    requires RespacedFile(lex, lines', lines)
    ensures FeedAll(lex, START, lines') == FeedAll(lex, START, lines)
  {
    forall i | 0 <= i < |lines|
      ensures var st := FoldBy(Feeder(lex), START, lines[..i]);
              Feeder(lex)(st, lines'[i]) == Feeder(lex)(st, lines[i])
    {
      RespacedStep(lex, lines', lines, i);
    }
    FoldsAlike(Feeder(lex), START, lines', lines, |lines|);
    assert lines'[..|lines|] == lines' && lines[..|lines|] == lines;
    FeedAllIsFold(lex, START, lines');
    FeedAllIsFold(lex, START, lines);
  }

  /** White space around the separators of any file, line by line, does not change what it parses to. */
  lemma SpacingIsFree(lex: Lexicon, lines': seq<string>, lines: seq<string>)
    requires RespacedFile(lex, lines', lines)
    ensures Parse(lex, lines') == Parse(lex, lines)
  {
    RespacedFold(lex, lines', lines);
  }

  /** So a description is read back from any layout of its lines. */
  lemma ParseInvertsAnyLayout(lex: Lexicon, d: LdfRoundTrip.Document, lines: seq<string>)
    requires LdfRoundTrip.Printable(d) && LdfRoundTrip.ReadsDecimals(lex)
    requires RespacedFile(lex, lines, LdfRoundTrip.Printed(d))
    ensures Parse(lex, lines) == Some(LdfRoundTrip.Meaning(lex, d))
  {
    LdfRoundTrip.ParseInvertsPrint(lex, d);
    SpacingIsFree(lex, lines, LdfRoundTrip.Printed(d));
  }
}
