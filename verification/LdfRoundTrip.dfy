/** Parsing undoes printing: a well-formed description, written out line by line, is read back exactly. */
module LdfRoundTrip {
  import opened Options
  import opened LdfText
  import opened LdfDatabase
  import opened LdfGrammar
  import opened LdfPrint
  import Signals
  import Lin

  /** A schedule slot names one of the frames by position. */
  datatype Slot = Slot(frame: nat, delayMs: Lin.uint32)

  datatype Table = Table(name: string, slots: seq<Slot>)

  datatype Document = Document(
    protocol: string,
    language: string,
    speed: string,
    master: string,
    slaves: seq<string>,
    signals: seq<Signals.Signal>,
    frames: seq<Frame>,
    tables: seq<Table>,
    numbers: Notations)

  /** Numerals go through a floating-point number of 53 bits, which is exact up to here. */
  const EXACT: Signals.uint64 := 0x20_0000_0000_0000

  /** The numeral reader left open agrees with decimal notation as far as it is exact. */
  ghost predicate ReadsDecimals(lex: Lexicon) {
    forall v: Signals.uint64 {:trigger lex.unsigned(Decimal(v))} :: v <= EXACT ==> lex.unsigned(Decimal(v)) == v
  }

  /** Reading decimal digits exactly is one such reader. */
  function DecimalLexicon(float: string -> real, searchHint: nat -> Lin.uint8): Lexicon {
    var unsigned := (s: string) =>
      match ParseDigits(s, 10)
      case Some(v) => if v < 0x1_0000_0000_0000_0000 then v as Signals.uint64 else 0
      case None => 0;
    Lexicon(unsigned, float, searchHint)
  }

  lemma DecimalLexiconReads(float: string -> real, searchHint: nat -> Lin.uint8)
    ensures ReadsDecimals(DecimalLexicon(float, searchHint))
  {
    var lex := DecimalLexicon(float, searchHint);
    forall v: Signals.uint64 | v <= EXACT ensures lex.unsigned(Decimal(v)) == v {
      DecimalDigits(v);
    }
  }

  /** A number in hexadecimal reads back exactly; one in decimal as far as the reader is exact. */
  lemma UnsignedReads(nt: Notations, lex: Lexicon, v: Signals.uint64)
    requires ReadsDecimals(lex) && (v <= EXACT || nt(v).InHexadecimal?)
    ensures Unsigned(lex, Written(nt, v)) == v
  {
    var text := Written(nt, v);
    NumeralIsBare(text);
    if nt(v).InHexadecimal? {
      HexadecimalScans(v, nt(v).upper);
      assert text[2..] == HexDigits(v, nt(v).upper, 0);
    } else {
      NotHexadecimal(v);
      assert text == Decimal(v);
    }
  }

  // ---------- Line by line, block by block ----------

  lemma {:induction false} FeedSteps(lex: Lexicon, states: seq<State>, lines: seq<string>)
    requires |states| == |lines| + 1
    requires forall i :: 0 <= i < |lines| ==> Feed(lex, states[i], lines[i]) == states[i + 1]
    ensures FeedAll(lex, states[0], lines) == states[|lines|]
  {
    if |lines| > 0 {
      var n := |lines| - 1;
      FeedSteps(lex, states[..n + 1], lines[..n]);
    }
  }

  function Concat(blocks: seq<seq<string>>): seq<string> {
    if |blocks| == 0 then [] else Concat(blocks[..|blocks| - 1]) + blocks[|blocks| - 1]
  }

  /** Reading on. */
  lemma Then(lex: Lexicon, s0: State, a: seq<string>, s1: State, b: seq<string>, s2: State)
    requires FeedAll(lex, s0, a) == s1 && FeedAll(lex, s1, b) == s2
    ensures FeedAll(lex, s0, a + b) == s2
  {
    FeedAllConcat(lex, s0, a, b);
  }

  lemma {:induction false} BlockSteps(lex: Lexicon, states: seq<State>, blocks: seq<seq<string>>)
    requires |states| == |blocks| + 1
    requires forall i :: 0 <= i < |blocks| ==> FeedAll(lex, states[i], blocks[i]) == states[i + 1]
    ensures FeedAll(lex, states[0], Concat(blocks)) == states[|blocks|]
  {
    if |blocks| > 0 {
      var n := |blocks| - 1;
      BlockSteps(lex, states[..n + 1], blocks[..n]);
      Then(lex, states[0], Concat(blocks[..n]), states[n], blocks[n], states[n + 1]);
    }
  }

  // ---------- Signals ----------

  predicate PrintableSignal(nt: Notations, s: Signals.Signal) {
    && Name(s.name) && Int64(s.bitWidth) && (s.initValue <= EXACT || nt(s.initValue).InHexadecimal?)
    && Name(s.publisher) && Names(s.subscribers)
  }

  function SubscriberText(s: Signals.Signal): string {
    if |s.subscribers| == 0 then s.publisher else s.publisher + "," + Joined(s.subscribers)
  }

  function SignalText(nt: Notations, s: Signals.Signal): string {
    Written(nt, s.bitWidth) + "," + (Written(nt, s.initValue) + "," + SubscriberText(s))
  }

  function SignalLine(nt: Notations, s: Signals.Signal): string {
    s.name + ":" + SignalText(nt, s) + ";"
  }

  function SignalParts(nt: Notations, s: Signals.Signal): seq<string> {
    [Written(nt, s.bitWidth)] + ([Written(nt, s.initValue)] +
      (if |s.subscribers| == 0 then [s.publisher] else [s.publisher] + [Joined(s.subscribers)]))
  }

  lemma SignalTextSplits(nt: Notations, s: Signals.Signal)
    requires PrintableSignal(nt, s)
    ensures SplitN(SignalText(nt, s), ',', SIGNAL_FIELDS) == SignalParts(nt, s)
  {
    PlainHasNo(Written(nt, s.bitWidth), ',');
    PlainHasNo(Written(nt, s.initValue), ',');
    PlainHasNo(s.publisher, ',');
    SplitNAt(Written(nt, s.bitWidth), ',', Written(nt, s.initValue) + "," + SubscriberText(s), SIGNAL_FIELDS);
    SplitNAt(Written(nt, s.initValue), ',', SubscriberText(s), SIGNAL_FIELDS - 1);
    if |s.subscribers| == 0 {
      Unsplit(s.publisher, ',', SIGNAL_FIELDS - 2);
    } else {
      SplitNAt(s.publisher, ',', Joined(s.subscribers), SIGNAL_FIELDS - 2);
    }
  }

  lemma SubscriberTextEnds(nt: Notations, s: Signals.Signal)
    requires PrintableSignal(nt, s)
    ensures var t := SubscriberText(s); |t| > 0 && !IsSpace(t[|t| - 1])
  {
    PlainIsTight(s.publisher);
    if |s.subscribers| > 0 {
      JoinedIsTight(s.subscribers);
    }
  }

  lemma SignalTextIsTight(nt: Notations, s: Signals.Signal)
    requires PrintableSignal(nt, s)
    ensures TrimSpace(SignalText(nt, s)) == SignalText(nt, s)
  {
    PlainIsTight(Written(nt, s.bitWidth));
    SubscriberTextEnds(nt, s);
    TightTrims(SignalText(nt, s));
  }

  lemma SignalLineSplits(nt: Notations, s: Signals.Signal)
    requires PrintableSignal(nt, s)
    ensures SignalFields(SignalLine(nt, s)) == Some((s.name, SignalParts(nt, s)))
  {
    var text := s.name + ":" + SignalText(nt, s);
    PlainIsTight(s.name);
    Stripped(text, ';');
    PlainHasNo(s.name, ':');
    IndexAt(s.name, ':', SignalText(nt, s));
    assert text[..|s.name|] == s.name && text[|s.name| + 1..] == SignalText(nt, s);
    SignalTextIsTight(nt, s);
    SignalTextSplits(nt, s);
  }

  lemma SignalReads(nt: Notations, lex: Lexicon, db: Database, s: Signals.Signal)
    requires PrintableSignal(nt, s) && ReadsDecimals(lex)
    ensures SignalsLine(lex, db, SignalLine(nt, s)) == db.(signals := db.signals[s.name := s])
    ensures SignalLine(nt, s) != "}" && !HasPrefix(SignalLine(nt, s), "{")
  {
    SignalLineSplits(nt, s);
    PartsRead(nt, lex, s);
    NotABrace(s.name, SignalLine(nt, s));
  }

  lemma PartsRead(nt: Notations, lex: Lexicon, s: Signals.Signal)
    requires PrintableSignal(nt, s) && ReadsDecimals(lex)
    ensures SignalOf(lex, s.name, SignalParts(nt, s)) == s
  {
    var parts := SignalParts(nt, s);
    WrittenParses(nt, s.bitWidth);
    PlainIsTight(Written(nt, s.bitWidth));
    PlainIsTight(Written(nt, s.initValue));
    PlainIsTight(s.publisher);
    UnsignedReads(nt, lex, s.initValue);
    NamesRead(s.subscribers);
    SignalOfParts(lex, parts, s);
  }

  lemma SignalOfParts(lex: Lexicon, parts: seq<string>, s: Signals.Signal)
    requires |parts| >= 3
    requires ParseInt(TrimSpace(parts[0])) == Some(s.bitWidth) && Unsigned(lex, TrimSpace(parts[1])) == s.initValue
    requires TrimSpace(parts[2]) == s.publisher
    requires s.subscribers == if |parts| > 3 then NonEmptyTrimmed(Split(parts[3], ',')) else []
    ensures SignalOf(lex, s.name, parts) == s
  {
  }

  lemma NotABrace(name: string, line: string)
    requires Name(name) && name <= line
    ensures line != "}" && !HasPrefix(line, "{")
  {
    assert IsPlain(name[0]) && line[0] == name[0];
  }

  function SignalLines(nt: Notations, signals: seq<Signals.Signal>): seq<string> {
    seq(|signals|, i requires 0 <= i < |signals| => SignalLine(nt, signals[i]))
  }

  function SignalTable(signals: seq<Signals.Signal>): map<string, Signals.Signal> {
    if |signals| == 0 then map[]
    else SignalTable(signals[..|signals| - 1])[signals[|signals| - 1].name := signals[|signals| - 1]]
  }

  /** The section with the first i signals read. */
  function SignalState(st: State, signals: seq<Signals.Signal>, i: nat): State
    requires i <= |signals|
  {
    st.(db := st.db.(signals := SignalTable(signals[..i])))
  }

  lemma SignalStep(nt: Notations, lex: Lexicon, st: State, signals: seq<Signals.Signal>, i: nat)
    requires st.mode == Inside(Section.Signals) && ReadsDecimals(lex)
    requires i < |signals| && PrintableSignal(nt, signals[i])
    ensures Feed(lex, SignalState(st, signals, i), SignalLine(nt, signals[i])) == SignalState(st, signals, i + 1)
  {
    assert signals[..i + 1][..i] == signals[..i];
    SignalReads(nt, lex, SignalState(st, signals, i).db, signals[i]);
    FeedSignal(lex, SignalState(st, signals, i), SignalLine(nt, signals[i]));
  }

  function SignalStates(st: State, signals: seq<Signals.Signal>): (states: seq<State>)
    ensures |states| == |signals| + 1
  {
    seq(|signals| + 1, i requires 0 <= i <= |signals| => SignalState(st, signals, i))
  }

  lemma SignalEnds(st: State, signals: seq<Signals.Signal>)
    requires st.db.signals == map[]
    ensures SignalState(st, signals, 0) == st
    ensures SignalState(st, signals, |signals|) == st.(db := st.db.(signals := SignalTable(signals)))
  {
    assert signals[..|signals|] == signals && signals[..0] == [];
  }

  lemma SignalLineStep(nt: Notations, lex: Lexicon, st: State, signals: seq<Signals.Signal>, i: nat)
    requires st.mode == Inside(Section.Signals) && ReadsDecimals(lex)
    requires i < |signals| && PrintableSignal(nt, signals[i])
    ensures Feed(lex, SignalStates(st, signals)[i], SignalLines(nt, signals)[i]) == SignalStates(st, signals)[i + 1]
  {
    SignalStep(nt, lex, st, signals, i);
  }

  lemma SignalsRead(nt: Notations, lex: Lexicon, st: State, signals: seq<Signals.Signal>)
    requires st.mode == Inside(Section.Signals) && st.db.signals == map[] && ReadsDecimals(lex)
    requires forall i :: 0 <= i < |signals| ==> PrintableSignal(nt, signals[i])
    ensures FeedAll(lex, st, SignalLines(nt, signals)) == st.(db := st.db.(signals := SignalTable(signals)))
  {
    var states, lines := SignalStates(st, signals), SignalLines(nt, signals);
    forall i | 0 <= i < |signals| ensures Feed(lex, states[i], lines[i]) == states[i + 1] {
      SignalLineStep(nt, lex, st, signals, i);
    }
    FeedSteps(lex, states, lines);
    SignalEnds(st, signals);
  }

  lemma FeedSignal(lex: Lexicon, st: State, line: string)
    requires st.mode == Inside(Section.Signals) && line != "}"
    ensures Feed(lex, st, line) == st.(db := SignalsLine(lex, st.db, line))
  {
  }

  // ---------- Frames ----------

  predicate PrintableFrame(f: Frame) {
    && Name(f.name) && f.id <= Lin.MAX_ID && Name(f.publisher) && 0 <= f.length <= Lin.MAX_DATA_LEN
    && forall i :: 0 <= i < |f.signals| ==> PrintableRef(f.signals[i])
  }

  predicate PrintableRef(r: Signals.SignalRef) {
    Name(r.name) && Int64(r.bitOffset) && r.bitOffset >= 0
  }

  function HeaderText(nt: Notations, f: Frame): string {
    Written(nt, f.id) + "," + (f.publisher + "," + Written(nt, f.length))
  }

  function HeaderLine(nt: Notations, f: Frame): string {
    f.name + ":" + HeaderText(nt, f) + "{"
  }

  function RefLine(nt: Notations, r: Signals.SignalRef): string {
    r.name + "," + Written(nt, r.bitOffset) + ";"
  }

  lemma ThreeFields(text: string, a: string, b: string, c: string)
    requires Name(a) && Name(b) && Name(c) && text == a + "," + (b + "," + c)
    ensures Split(text, ',') == [a, b, c] && TrimSpace(text) == text
    ensures |text| > 0 && !IsSpace(text[|text| - 1])
  {
    PlainHasNo(a, ',');
    PlainHasNo(b, ',');
    PlainHasNo(c, ',');
    SplitAt(a, ',', b + "," + c);
    SplitAt(b, ',', c);
    Unsplit(c, ',', 1);
    PlainIsTight(a);
    PlainIsTight(c);
    TightTrims(text);
  }

  lemma HeaderLineStripped(name: string, text: string)
    requires Name(name) && |text| > 0 && !IsSpace(text[|text| - 1])
    ensures TrimSpace(TrimSuffix(TrimSpace(name + ":" + text + "{"), "{")) == name + ":" + text
  {
    PlainIsTight(name);
    Stripped(name + ":" + text, '{');
    TightTrims(name + ":" + text);
  }

  lemma HeaderFields(line: string, name: string, text: string)
    requires TrimSpace(TrimSuffix(TrimSpace(line), "{")) == name + ":" + text && ':' !in name
    requires TrimSpace(name) == name && TrimSpace(text) == text
    ensures ParseFrameHeader(line) == HeaderOf(name, Split(text, ','))
  {
    IndexAt(name, ':', text);
    assert (name + ":" + text)[..|name|] == name && (name + ":" + text)[|name| + 1..] == text;
  }

  lemma HeaderLineFields(name: string, text: string)
    requires Name(name) && |text| > 0 && !IsSpace(text[|text| - 1]) && TrimSpace(text) == text
    ensures ParseFrameHeader(name + ":" + text + "{") == HeaderOf(name, Split(text, ','))
  {
    HeaderLineStripped(name, text);
    PlainHasNo(name, ':');
    PlainIsTight(name);
    HeaderFields(name + ":" + text + "{", name, text);
  }

  lemma HeaderOfThree(f: Frame, id: string, length: string)
    requires PrintableFrame(f)
    requires ParseInt(TrimSpace(id)) == Some(f.id) && ParseInt(TrimSpace(length)) == Some(f.length)
    ensures HeaderOf(f.name, [id, f.publisher, length]) == Some(f.(signals := []))
  {
    PlainIsTight(f.publisher);
  }

  lemma HeaderTextReads(f: Frame, id: string, length: string, text: string)
    requires PrintableFrame(f) && Name(id) && Name(length) && text == id + "," + (f.publisher + "," + length)
    requires ParseInt(TrimSpace(id)) == Some(f.id) && ParseInt(TrimSpace(length)) == Some(f.length)
    ensures ParseFrameHeader(f.name + ":" + text + "{") == Some(f.(signals := []))
  {
    ThreeFields(text, id, f.publisher, length);
    HeaderLineFields(f.name, text);
    HeaderOfThree(f, id, length);
  }

  lemma HeaderReads(nt: Notations, f: Frame)
    requires PrintableFrame(f)
    ensures ParseFrameHeader(HeaderLine(nt, f)) == Some(f.(signals := []))
  {
    WrittenReads(nt, f.id);
    WrittenReads(nt, f.length);
    HeaderTextReads(f, Written(nt, f.id), Written(nt, f.length), HeaderText(nt, f));
  }

  lemma WrittenReads(nt: Notations, i: int)
    requires Int64(i)
    ensures ParseInt(TrimSpace(Written(nt, i))) == Some(i)
  {
    PlainIsTight(Written(nt, i));
    WrittenParses(nt, i);
  }

  lemma RefLineSplits(name: string, offset: string)
    requires Name(name) && Name(offset)
    ensures SplitN(TrimSuffix(TrimSpace(name + "," + offset + ";"), ";"), ',', 2) == [name, offset]
    ensures TrimSpace(name) == name
  {
    PlainIsTight(name);
    Stripped(name + "," + offset, ';');
    PlainHasNo(name, ',');
    PlainHasNo(offset, ',');
    SplitNAt(name, ',', offset, 2);
    Unsplit(offset, ',', 1);
  }

  lemma RefReads(nt: Notations, r: Signals.SignalRef)
    requires PrintableRef(r)
    ensures ParseRef(RefLine(nt, r)) == Some(r) && RefLine(nt, r) != "}"
  {
    var offset := Written(nt, r.bitOffset);
    RefLineSplits(r.name, offset);
    PlainIsTight(offset);
    WrittenParses(nt, r.bitOffset);
    NotABrace(r.name, RefLine(nt, r));
  }

  function RefLines(nt: Notations, refs: seq<Signals.SignalRef>): seq<string> {
    seq(|refs|, i requires 0 <= i < |refs| => RefLine(nt, refs[i]))
  }

  lemma FeedInBody(lex: Lexicon, st: State, f: Frame, line: string, r: Signals.SignalRef)
    requires st.mode == FrameBody(f) && line != "}" && ParseRef(line) == Some(r)
    ensures Feed(lex, st, line) == st.(mode := FrameBody(f.(signals := f.signals + [r])))
  {
  }

  lemma OneRefReads(nt: Notations, lex: Lexicon, st: State, f: Frame, r: Signals.SignalRef)
    requires st.mode == FrameBody(f) && PrintableRef(r)
    ensures Feed(lex, st, RefLine(nt, r)) == st.(mode := FrameBody(f.(signals := f.signals + [r])))
  {
    RefReads(nt, r);
    FeedInBody(lex, st, f, RefLine(nt, r), r);
  }

  lemma RefsRead(nt: Notations, lex: Lexicon, st: State, f: Frame, refs: seq<Signals.SignalRef>)
    requires st.mode == FrameBody(f) && f.signals == []
    requires forall i :: 0 <= i < |refs| ==> PrintableRef(refs[i])
    ensures FeedAll(lex, st, RefLines(nt, refs)) == st.(mode := FrameBody(f.(signals := refs)))
  {
    var states := seq(|refs| + 1, i requires 0 <= i <= |refs| => st.(mode := FrameBody(f.(signals := refs[..i]))));
    forall i | 0 <= i < |refs| ensures Feed(lex, states[i], RefLines(nt, refs)[i]) == states[i + 1] {
      assert refs[..i + 1] == refs[..i] + [refs[i]];
      OneRefReads(nt, lex, states[i], f.(signals := refs[..i]), refs[i]);
    }
    FeedSteps(lex, states, RefLines(nt, refs));
    assert refs[..|refs|] == refs;
  }

  function FrameBlock(nt: Notations, f: Frame): seq<string> {
    [HeaderLine(nt, f)] + RefLines(nt, f.signals) + ["}"]
  }

  /** A block from its first line to its closing brace. */
  lemma BlockReads(lex: Lexicon, st: State, first: string, open: State, body: seq<string>, full: State, end: State)
    requires Feed(lex, st, first) == open && FeedAll(lex, open, body) == full && Feed(lex, full, "}") == end
    ensures FeedAll(lex, st, [first] + body + ["}"]) == end
  {
    OneLine(lex, st, first);
    Then(lex, st, [first], open, body, full);
    ThenOne(lex, st, [first] + body, full, "}", end);
  }

  lemma FrameCloses(lex: Lexicon, st: State, f: Frame)
    requires st.mode == FrameBody(f)
    ensures Feed(lex, st, "}") == State(Inside(Frames), st.db.(frames := st.db.frames[f.id := f]), st.searches)
  {
  }

  lemma FrameReads(nt: Notations, lex: Lexicon, st: State, f: Frame)
    requires st.mode == Inside(Frames) && PrintableFrame(f)
    ensures FeedAll(lex, st, FrameBlock(nt, f)) == st.(db := st.db.(frames := st.db.frames[f.id := f]))
  {
    var body := st.(mode := FrameBody(f.(signals := [])));
    HeaderOpens(nt, lex, st, f);
    RefsRead(nt, lex, body, f.(signals := []), f.signals);
    FrameCloses(lex, st.(mode := FrameBody(f)), f);
    BlockReads(lex, st, HeaderLine(nt, f), body, RefLines(nt, f.signals), st.(mode := FrameBody(f)),
               st.(db := st.db.(frames := st.db.frames[f.id := f])));
  }

  lemma HeaderOpens(nt: Notations, lex: Lexicon, st: State, f: Frame)
    requires st.mode == Inside(Frames) && PrintableFrame(f)
    ensures Feed(lex, st, HeaderLine(nt, f)) == st.(mode := FrameBody(f.(signals := [])))
  {
    var line := HeaderLine(nt, f);
    NotABrace(f.name, line);
    assert line[|line| - 1] == '{';
    HeaderReads(nt, f);
    FeedHeader(lex, st, line, f.(signals := []));
  }

  function FrameBlocks(nt: Notations, frames: seq<Frame>): seq<seq<string>> {
    seq(|frames|, i requires 0 <= i < |frames| => FrameBlock(nt, frames[i]))
  }

  function FrameTable(frames: seq<Frame>): map<Lin.uint8, Frame> {
    if |frames| == 0 then map[]
    else FrameTable(frames[..|frames| - 1])[frames[|frames| - 1].id := frames[|frames| - 1]]
  }

  /** The section with the first i frames read. */
  function FrameState(st: State, frames: seq<Frame>, i: nat): State
    requires i <= |frames|
  {
    st.(db := st.db.(frames := FrameTable(frames[..i])))
  }

  lemma FrameStep(nt: Notations, lex: Lexicon, st: State, frames: seq<Frame>, i: nat)
    requires st.mode == Inside(Frames) && i < |frames| && PrintableFrame(frames[i])
    ensures FeedAll(lex, FrameState(st, frames, i), FrameBlock(nt, frames[i])) == FrameState(st, frames, i + 1)
  {
    assert frames[..i + 1][..i] == frames[..i];
    FrameReads(nt, lex, FrameState(st, frames, i), frames[i]);
  }

  function FrameStates(st: State, frames: seq<Frame>): (states: seq<State>)
    ensures |states| == |frames| + 1
  {
    seq(|frames| + 1, i requires 0 <= i <= |frames| => FrameState(st, frames, i))
  }

  lemma FrameEnds(st: State, frames: seq<Frame>)
    requires st.db.frames == map[]
    ensures FrameState(st, frames, 0) == st
    ensures FrameState(st, frames, |frames|) == st.(db := st.db.(frames := FrameTable(frames)))
  {
    assert frames[..|frames|] == frames && frames[..0] == [];
  }

  lemma FrameBlockStep(nt: Notations, lex: Lexicon, st: State, frames: seq<Frame>, i: nat)
    requires st.mode == Inside(Frames) && i < |frames| && PrintableFrame(frames[i])
    ensures FeedAll(lex, FrameStates(st, frames)[i], FrameBlocks(nt, frames)[i]) == FrameStates(st, frames)[i + 1]
  {
    FrameStep(nt, lex, st, frames, i);
  }

  lemma FramesRead(nt: Notations, lex: Lexicon, st: State, frames: seq<Frame>)
    requires st.mode == Inside(Frames) && st.db.frames == map[]
    requires forall i :: 0 <= i < |frames| ==> PrintableFrame(frames[i])
    ensures FeedAll(lex, st, Concat(FrameBlocks(nt, frames))) == st.(db := st.db.(frames := FrameTable(frames)))
  {
    var states, blocks := FrameStates(st, frames), FrameBlocks(nt, frames);
    forall i | 0 <= i < |frames| ensures FeedAll(lex, states[i], blocks[i]) == states[i + 1] {
      FrameBlockStep(nt, lex, st, frames, i);
    }
    BlockSteps(lex, states, blocks);
    FrameEnds(st, frames);
  }

  // ---------- Schedule tables ----------

  const ASSIGN := "AssignFrameId"

  /** Different frames have different identifiers and names, and no name looks like a diagnostic slot. */
  predicate Distinguishable(frames: seq<Frame>) {
    && (forall i, j :: 0 <= i < j < |frames| ==> frames[i].id != frames[j].id && frames[i].name != frames[j].name)
    && (forall i :: 0 <= i < |frames| ==> !HasPrefix(frames[i].name, ASSIGN))
  }

  lemma {:induction false} FrameTableHolds(frames: seq<Frame>, id: Lin.uint8, name: string)
    requires Distinguishable(frames)
    ensures Named(FrameTable(frames), id, name) <==>
            exists i :: 0 <= i < |frames| && frames[i].id == id && frames[i].name == name
    ensures id in FrameTable(frames) ==> exists i :: 0 <= i < |frames| && frames[i].id == id
  {
    if |frames| > 0 {
      FrameTableHolds(frames[..|frames| - 1], id, name);
    }
  }

  lemma {:induction false} FirstNamedFinds(frames: map<Lin.uint8, Frame>, name: string, from: Lin.uint8, id: Lin.uint8)
    requires from <= id < 0xFF && forall k: Lin.uint8 :: Named(frames, k, name) <==> k == id
    ensures FirstNamed(frames, name, from) == id
    decreases id - from
  {
    if from < id {
      FirstNamedFinds(frames, name, from + 1, id);
    }
  }

  /** Whatever the search order, a declared name is resolved to its own frame. */
  lemma NameResolves(frames: seq<Frame>, i: nat, hint: Lin.uint8)
    requires Distinguishable(frames) && i < |frames| && frames[i].id <= Lin.MAX_ID
    ensures FrameIdByName(FrameTable(frames), frames[i].name, hint) == frames[i].id
  {
    var table := FrameTable(frames);
    forall k: Lin.uint8 ensures Named(table, k, frames[i].name) <==> k == frames[i].id {
      FrameTableHolds(frames, k, frames[i].name);
    }
    FirstNamedFinds(table, frames[i].name, LOWEST_ID, frames[i].id);
  }

  function SlotText(nt: Notations, name: string, delay: nat): string {
    name + " " + ("delay" + " " + (Written(nt, delay) + " " + "ms"))
  }

  function SlotLine(nt: Notations, name: string, delay: nat): string {
    SlotText(nt, name, delay) + ";"
  }

  lemma FourFields(a: string, b: string, c: string, d: string)
    requires Name(a) && Name(b) && Name(c) && Name(d)
    ensures Fields(a + " " + (b + " " + (c + " " + d))) == [a, b, c, d]
  {
    FieldsAt(a, b + " " + (c + " " + d));
    FieldsAt(b, c + " " + d);
    FieldsAt(c, d);
    LastField(d);
  }

  lemma SlotTextFields(nt: Notations, name: string, delay: nat)
    requires Name(name)
    ensures Fields(SlotText(nt, name, delay)) == [name, "delay", Written(nt, delay), "ms"]
  {
    FourFields(name, "delay", Written(nt, delay), "ms");
  }

  lemma NotAnAssignment(name: string, rest: string)
    requires !HasPrefix(name, ASSIGN)
    ensures !HasPrefix(name + " " + rest, ASSIGN)
  {
    var s := name + " " + rest;
    assert s[|name|] == ' ' && forall k :: 0 <= k < |ASSIGN| ==> ASSIGN[k] != ' ';
    assert |name| >= |ASSIGN| ==> s[..|ASSIGN|] == name[..|ASSIGN|];
  }

  lemma SlotStripped(nt: Notations, name: string, delay: nat)
    requires Name(name) && !HasPrefix(name, ASSIGN)
    ensures var inner := TrimSuffix(TrimSpace(SlotLine(nt, name, delay)), ";");
            inner == SlotText(nt, name, delay) && !HasPrefix(inner, ASSIGN)
  {
    PlainIsTight(name);
    Stripped(SlotText(nt, name, delay), ';');
    NotAnAssignment(name, "delay" + " " + (Written(nt, delay) + " " + "ms"));
  }

  lemma SlotReads(nt: Notations, name: string, delay: nat)
    requires Name(name) && !HasPrefix(name, ASSIGN)
    ensures SlotFields(SlotLine(nt, name, delay)) == Some([name, "delay", Written(nt, delay), "ms"])
    ensures SlotLine(nt, name, delay) != "}"
  {
    SlotStripped(nt, name, delay);
    SlotTextFields(nt, name, delay);
    NotABrace(name, SlotLine(nt, name, delay));
  }

  predicate PrintableSlots(frames: seq<Frame>, slots: seq<Slot>) {
    forall i :: 0 <= i < |slots| ==> slots[i].frame < |frames|
  }

  function SlotLines(nt: Notations, frames: seq<Frame>, slots: seq<Slot>): seq<string>
    requires PrintableSlots(frames, slots)
  {
    seq(|slots|, i requires 0 <= i < |slots| => SlotLine(nt, frames[slots[i].frame].name, slots[i].delayMs))
  }

  function Entries(frames: seq<Frame>, slots: seq<Slot>): seq<Lin.ScheduleEntry>
    requires PrintableSlots(frames, slots)
  {
    seq(|slots|, i requires 0 <= i < |slots| => EntryOf(frames, slots[i]))
  }

  predicate PrintableFrames(frames: seq<Frame>) {
    Distinguishable(frames) && forall i :: 0 <= i < |frames| ==> PrintableFrame(frames[i])
  }

  lemma FeedSlot(lex: Lexicon, st: State, table: string, entries: seq<Lin.ScheduleEntry>, line: string,
                 parts: seq<string>, e: Lin.ScheduleEntry)
    requires st.mode == TableBody(table, entries) && line != "}" && |parts| >= 3
    requires SlotFields(line) == Some(parts) && SlotEntry(lex, st.db, st.searches, parts) == Some(e)
    ensures Feed(lex, st, line) == State(TableBody(table, entries + [e]), st.db, st.searches + 1)
  {
  }

  /** The entry a slot stands for. */
  function EntryOf(frames: seq<Frame>, s: Slot): Lin.ScheduleEntry
    requires s.frame < |frames|
  {
    Lin.ScheduleEntry(frames[s.frame].id, s.delayMs)
  }

  lemma EntryIs(lex: Lexicon, db: Database, searches: nat, parts: seq<string>, id: Lin.uint8, delay: Lin.uint32)
    requires |parts| >= 3 && id <= Lin.MAX_ID
    requires FrameIdByName(db.frames, parts[0], lex.searchHint(searches)) == id && Unsigned(lex, parts[2]) == delay
    ensures SlotEntry(lex, db, searches, parts) == Some(Lin.ScheduleEntry(id, delay))
  {
  }

  lemma DelayReads(nt: Notations, lex: Lexicon, delay: Lin.uint32)
    requires ReadsDecimals(lex)
    ensures Unsigned(lex, Written(nt, delay)) == delay
  {
    UnsignedReads(nt, lex, delay);
  }

  /** A slot line with this frame's name means this frame. */
  ghost predicate Resolvable(table: map<Lin.uint8, Frame>, f: Frame) {
    && Name(f.name) && !HasPrefix(f.name, ASSIGN) && f.id <= Lin.MAX_ID
    && forall hint: Lin.uint8 :: FrameIdByName(table, f.name, hint) == f.id
  }

  ghost predicate AllResolvable(frames: seq<Frame>) {
    forall i :: 0 <= i < |frames| ==> Resolvable(FrameTable(frames), frames[i])
  }

  lemma PrintableResolve(frames: seq<Frame>)
    requires PrintableFrames(frames)
    ensures AllResolvable(frames)
  {
    forall i | 0 <= i < |frames| ensures Resolvable(FrameTable(frames), frames[i]) {
      assert PrintableFrame(frames[i]);
      forall hint: Lin.uint8 ensures FrameIdByName(FrameTable(frames), frames[i].name, hint) == frames[i].id {
        NameResolves(frames, i, hint);
      }
    }
  }

  lemma OneSlotReads(
    nt: Notations, lex: Lexicon, st: State, table: string, entries: seq<Lin.ScheduleEntry>, f: Frame, delay: Lin.uint32)
    requires Resolvable(st.db.frames, f) && ReadsDecimals(lex) && st.mode == TableBody(table, entries)
    ensures Feed(lex, st, SlotLine(nt, f.name, delay)) ==
            State(TableBody(table, entries + [Lin.ScheduleEntry(f.id, delay)]), st.db, st.searches + 1)
  {
    var parts := [f.name, "delay", Written(nt, delay), "ms"];
    SlotReads(nt, f.name, delay);
    DelayReads(nt, lex, delay);
    EntryIs(lex, st.db, st.searches, parts, f.id, delay);
    FeedSlot(lex, st, table, entries, SlotLine(nt, f.name, delay), parts, Lin.ScheduleEntry(f.id, delay));
  }

  /** The table body with the first i entries read. */
  function SlotState(st: State, table: string, entries: seq<Lin.ScheduleEntry>, i: nat): State
    requires i <= |entries|
  {
    State(TableBody(table, entries[..i]), st.db, st.searches + i)
  }

  lemma SlotStep(
    nt: Notations, lex: Lexicon, st: State, table: string, f: Frame, delay: Lin.uint32,
    entries: seq<Lin.ScheduleEntry>, i: nat)
    requires Resolvable(st.db.frames, f) && ReadsDecimals(lex)
    requires i < |entries| && entries[i] == Lin.ScheduleEntry(f.id, delay)
    ensures Feed(lex, SlotState(st, table, entries, i), SlotLine(nt, f.name, delay)) ==
            SlotState(st, table, entries, i + 1)
  {
    assert entries[..i + 1] == entries[..i] + [entries[i]];
    OneSlotReads(nt, lex, SlotState(st, table, entries, i), table, entries[..i], f, delay);
  }

  lemma SlotsRead(nt: Notations, lex: Lexicon, st: State, table: string, frames: seq<Frame>, slots: seq<Slot>)
    requires AllResolvable(frames) && PrintableSlots(frames, slots) && ReadsDecimals(lex)
    requires st.mode == TableBody(table, []) && st.db.frames == FrameTable(frames)
    ensures FeedAll(lex, st, SlotLines(nt, frames, slots)) ==
            State(TableBody(table, Entries(frames, slots)), st.db, st.searches + |slots|)
  {
    var entries := Entries(frames, slots);
    var states := seq(|slots| + 1, i requires 0 <= i <= |slots| => SlotState(st, table, entries, i));
    var lines := SlotLines(nt, frames, slots);
    forall i | 0 <= i < |slots| ensures Feed(lex, states[i], lines[i]) == states[i + 1] {
      SlotStep(nt, lex, st, table, frames[slots[i].frame], slots[i].delayMs, entries, i);
    }
    FeedSteps(lex, states, lines);
    assert entries[..|slots|] == entries;
  }

  predicate PrintableTable(frames: seq<Frame>, t: Table) {
    Name(t.name) && PrintableSlots(frames, t.slots)
  }

  function TableBlock(nt: Notations, frames: seq<Frame>, t: Table): seq<string>
    requires PrintableTable(frames, t)
  {
    [t.name + "{"] + SlotLines(nt, frames, t.slots) + ["}"]
  }

  lemma TableOpens(lex: Lexicon, st: State, name: string)
    requires st.mode == Inside(Schedules) && Name(name)
    ensures Feed(lex, st, name + "{") == st.(mode := TableBody(name, []))
  {
    NotABrace(name, name + "{");
    DropSuffix(name, '{');
    PlainIsTight(name);
  }

  lemma TableCloses(lex: Lexicon, st: State, name: string, entries: seq<Lin.ScheduleEntry>)
    requires st.mode == TableBody(name, entries)
    ensures Feed(lex, st, "}") ==
            State(Inside(Schedules), st.db.(schedules := st.db.schedules[name := entries]), st.searches)
  {
  }

  lemma TableReads(nt: Notations, lex: Lexicon, st: State, frames: seq<Frame>, t: Table)
    requires AllResolvable(frames) && PrintableTable(frames, t) && ReadsDecimals(lex)
    requires st.mode == Inside(Schedules) && st.db.frames == FrameTable(frames)
    ensures FeedAll(lex, st, TableBlock(nt, frames, t)) ==
            State(Inside(Schedules), st.db.(schedules := st.db.schedules[t.name := Entries(frames, t.slots)]),
                  st.searches + |t.slots|)
  {
    var open, entries := st.(mode := TableBody(t.name, [])), Entries(frames, t.slots);
    var full := State(TableBody(t.name, entries), st.db, st.searches + |t.slots|);
    TableOpens(lex, st, t.name);
    SlotsRead(nt, lex, open, t.name, frames, t.slots);
    TableCloses(lex, full, t.name, entries);
    BlockReads(lex, st, t.name + "{", open, SlotLines(nt, frames, t.slots), full,
               State(Inside(Schedules), st.db.(schedules := st.db.schedules[t.name := entries]), full.searches));
  }

  predicate PrintableTables(frames: seq<Frame>, tables: seq<Table>) {
    forall i :: 0 <= i < |tables| ==> PrintableTable(frames, tables[i])
  }

  function TableBlocks(nt: Notations, frames: seq<Frame>, tables: seq<Table>): seq<seq<string>>
    requires PrintableTables(frames, tables)
  {
    seq(|tables|, i requires 0 <= i < |tables| => TableBlock(nt, frames, tables[i]))
  }

  function Schedule(frames: seq<Frame>, tables: seq<Table>): map<string, seq<Lin.ScheduleEntry>>
    requires PrintableTables(frames, tables)
  {
    if |tables| == 0 then map[]
    else
      var t := tables[|tables| - 1];
      Schedule(frames, tables[..|tables| - 1])[t.name := Entries(frames, t.slots)]
  }

  function SlotCount(tables: seq<Table>): nat {
    if |tables| == 0 then 0 else SlotCount(tables[..|tables| - 1]) + |tables[|tables| - 1].slots|
  }

  /** The section with the first i tables read. */
  function TableState(st: State, frames: seq<Frame>, tables: seq<Table>, i: nat): State
    requires PrintableTables(frames, tables) && i <= |tables|
  {
    st.(db := st.db.(schedules := Schedule(frames, tables[..i])), searches := st.searches + SlotCount(tables[..i]))
  }

  lemma TableStep(nt: Notations, lex: Lexicon, st: State, frames: seq<Frame>, tables: seq<Table>, i: nat)
    requires AllResolvable(frames) && PrintableTables(frames, tables) && ReadsDecimals(lex) && i < |tables|
    requires st.mode == Inside(Schedules) && st.db.frames == FrameTable(frames)
    ensures FeedAll(lex, TableState(st, frames, tables, i), TableBlock(nt, frames, tables[i])) ==
            TableState(st, frames, tables, i + 1)
  {
    assert tables[..i + 1][..i] == tables[..i];
    TableReads(nt, lex, TableState(st, frames, tables, i), frames, tables[i]);
  }

  function TableStates(st: State, frames: seq<Frame>, tables: seq<Table>): (states: seq<State>)
    requires PrintableTables(frames, tables)
    ensures |states| == |tables| + 1
  {
    seq(|tables| + 1, i requires 0 <= i <= |tables| => TableState(st, frames, tables, i))
  }

  lemma TableEnds(st: State, frames: seq<Frame>, tables: seq<Table>)
    requires PrintableTables(frames, tables) && st.db.schedules == map[]
    ensures TableState(st, frames, tables, 0) == st
    ensures TableState(st, frames, tables, |tables|) ==
            State(st.mode, st.db.(schedules := Schedule(frames, tables)), st.searches + SlotCount(tables))
  {
    assert tables[..|tables|] == tables && tables[..0] == [];
  }

  lemma TableBlockStep(nt: Notations, lex: Lexicon, st: State, frames: seq<Frame>, tables: seq<Table>, i: nat)
    requires AllResolvable(frames) && PrintableTables(frames, tables) && ReadsDecimals(lex) && i < |tables|
    requires st.mode == Inside(Schedules) && st.db.frames == FrameTable(frames)
    ensures FeedAll(lex, TableStates(st, frames, tables)[i], TableBlocks(nt, frames, tables)[i]) ==
            TableStates(st, frames, tables)[i + 1]
  {
    TableStep(nt, lex, st, frames, tables, i);
  }

  lemma TablesRead(nt: Notations, lex: Lexicon, st: State, frames: seq<Frame>, tables: seq<Table>)
    requires AllResolvable(frames) && PrintableTables(frames, tables) && ReadsDecimals(lex)
    requires st.mode == Inside(Schedules) && st.db.frames == FrameTable(frames) && st.db.schedules == map[]
    ensures FeedAll(lex, st, Concat(TableBlocks(nt, frames, tables))) ==
            State(Inside(Schedules), st.db.(schedules := Schedule(frames, tables)), st.searches + SlotCount(tables))
  {
    var states, blocks := TableStates(st, frames, tables), TableBlocks(nt, frames, tables);
    forall i | 0 <= i < |tables| ensures FeedAll(lex, states[i], blocks[i]) == states[i + 1] {
      TableBlockStep(nt, lex, st, frames, tables, i);
    }
    BlockSteps(lex, states, blocks);
    TableEnds(st, frames, tables);
  }

  // ---------- The lines outside and around the sections ----------

  const QUOTE := '"'

  function Quoted(prefix: string, value: string): string {
    prefix + [QUOTE] + (value + [QUOTE] + ";")
  }

  lemma QuotedReads(prefix: string, value: string)
    requires QUOTE !in prefix && QUOTE !in value
    ensures ExtractQuotedValue(Quoted(prefix, value)) == value
  {
    var line := Quoted(prefix, value);
    var rest := value + [QUOTE] + ";";
    IndexAt(prefix, QUOTE, rest);
    assert line[|prefix| + 1..] == rest;
    IndexAt(value, QUOTE, ";");
    assert line[|prefix| + 1..|prefix| + 1 + |value|] == rest[..|value|] == value;
  }

  const PROTOCOL := "LIN_protocol_version="
  const LANGUAGE := "LIN_language_version="
  const SPEED := "LIN_speed"

  lemma Differs(line: string, prefix: string, i: nat)
    requires i < |line| && i < |prefix| && line[i] != prefix[i]
    ensures !HasPrefix(line, prefix)
  {
  }

  lemma ProtocolReads(lex: Lexicon, st: State, value: string)
    requires st.mode == Top && QUOTE !in value
    ensures Feed(lex, st, Quoted(PROTOCOL, value)) == st.(db := st.db.(protocolVersion := value))
  {
    QuotedReads(PROTOCOL, value);
    assert HasPrefix(PROTOCOL, "LIN_protocol_version") && PROTOCOL <= Quoted(PROTOCOL, value);
  }

  lemma LanguageReads(lex: Lexicon, st: State, value: string)
    requires st.mode == Top && QUOTE !in value
    ensures Feed(lex, st, Quoted(LANGUAGE, value)) == st.(db := st.db.(languageVersion := value))
  {
    QuotedReads(LANGUAGE, value);
    assert HasPrefix(LANGUAGE, "LIN_language_version") && LANGUAGE <= Quoted(LANGUAGE, value);
    Differs(Quoted(LANGUAGE, value), "LIN_protocol_version", 4);
  }

  lemma SpeedReads(lex: Lexicon, st: State, value: string)
    requires st.mode == Top
    ensures Feed(lex, st, SPEED + value) == st.(db := st.db.(speed := lex.float(SPEED + value)))
  {
    var line := SPEED + value;
    Differs(line, "LIN_protocol_version", 4);
    Differs(line, "LIN_language_version", 4);
    assert SPEED <= line;
    FeedSpeed(lex, st, line);
  }

  lemma FeedSpeed(lex: Lexicon, st: State, line: string)
    requires st.mode == Top && HasPrefix(line, SPEED)
    requires !HasPrefix(line, "LIN_protocol_version") && !HasPrefix(line, "LIN_language_version")
    ensures Feed(lex, st, line) == st.(db := st.db.(speed := lex.float(line)))
  {
  }

  const MASTER := "Master:"
  const SLAVES := "Slaves:"
  const TIMING := ",5 ms,0.1 ms;"

  function MasterLine(master: string): string {
    MASTER + (master + TIMING)
  }

  function SlavesLine(slaves: seq<string>): string {
    SLAVES + (Joined(slaves) + ";")
  }

  lemma MasterReads(db: Database, master: string)
    requires Name(master)
    ensures NodesLine(db, MasterLine(master)) == db.(masterNode := master)
  {
    var rest := master + TIMING;
    assert MasterLine(master)[|MASTER|..] == rest;
    assert rest == master + [','] + TIMING[1..];
    PlainHasNo(master, ',');
    SplitNAt(master, ',', TIMING[1..], 2);
    NumeralIsBare(master);
    PlainIsTight(master);
  }

  lemma SlavesTextReads(slaves: seq<string>)
    requires Names(slaves)
    ensures NonEmptyTrimmed(Split(TrimSuffix(TrimSpace(Joined(slaves) + ";"), ";"), ',')) == slaves
  {
    if |slaves| > 0 {
      JoinedIsTight(slaves);
    }
    Stripped(Joined(slaves), ';');
    NamesRead(slaves);
  }

  lemma SlavesRest(db: Database, line: string, rest: string)
    requires SLAVES <= line && line[|SLAVES|..] == rest
    ensures NodesLine(db, line) ==
            db.(slaveNodes := db.slaveNodes + NonEmptyTrimmed(Split(TrimSuffix(TrimSpace(rest), ";"), ',')))
  {
    Differs(line, MASTER, 0);
  }

  lemma SlavesRead(db: Database, slaves: seq<string>)
    requires Names(slaves) && db.slaveNodes == []
    ensures NodesLine(db, SlavesLine(slaves)) == db.(slaveNodes := slaves)
  {
    var line, rest := SlavesLine(slaves), Joined(slaves) + ";";
    assert line[|SLAVES|..] == rest;
    SlavesTextReads(slaves);
    SlavesRest(db, line, rest);
  }

  function NodeLines(d: Document): seq<string> {
    [MasterLine(d.master), SlavesLine(d.slaves)]
  }

  lemma NodesRead(lex: Lexicon, st: State, d: Document)
    requires st.mode == Inside(Nodes) && st.db.slaveNodes == [] && Name(d.master) && Names(d.slaves)
    ensures FeedAll(lex, st, NodeLines(d)) == st.(db := st.db.(masterNode := d.master, slaveNodes := d.slaves))
  {
    MasterReads(st.db, d.master);
    SlavesRead(st.db.(masterNode := d.master), d.slaves);
    FeedNode(lex, st, MasterLine(d.master), MASTER);
    FeedNode(lex, st.(db := st.db.(masterNode := d.master)), SlavesLine(d.slaves), SLAVES);
    assert NodeLines(d)[..1] == [MasterLine(d.master)];
    OneLine(lex, st, MasterLine(d.master));
  }

  lemma FeedNode(lex: Lexicon, st: State, line: string, prefix: string)
    requires st.mode == Inside(Nodes) && |prefix| > 0 && prefix <= line && prefix[0] != '}'
    ensures Feed(lex, st, line) == st.(db := NodesLine(st.db, line))
  {
  }

  function HeadLines(d: Document): seq<string> {
    [Quoted(PROTOCOL, d.protocol), Quoted(LANGUAGE, d.language), SPEED + d.speed]
  }

  lemma ThenOne(lex: Lexicon, s0: State, a: seq<string>, s1: State, line: string, s2: State)
    requires FeedAll(lex, s0, a) == s1 && Feed(lex, s1, line) == s2
    ensures FeedAll(lex, s0, a + [line]) == s2
  {
    OneLine(lex, s1, line);
    Then(lex, s0, a, s1, [line], s2);
  }

  lemma VersionsRead(lex: Lexicon, st: State, d: Document)
    requires st.mode == Top && QUOTE !in d.protocol && QUOTE !in d.language
    ensures FeedAll(lex, st, [Quoted(PROTOCOL, d.protocol)] + [Quoted(LANGUAGE, d.language)]) ==
            st.(db := st.db.(protocolVersion := d.protocol, languageVersion := d.language))
  {
    var s1 := st.(db := st.db.(protocolVersion := d.protocol));
    ProtocolReads(lex, st, d.protocol);
    LanguageReads(lex, s1, d.language);
    OneLine(lex, st, Quoted(PROTOCOL, d.protocol));
    ThenOne(lex, st, [Quoted(PROTOCOL, d.protocol)], s1, Quoted(LANGUAGE, d.language),
            s1.(db := s1.db.(languageVersion := d.language)));
  }

  lemma HeadReads(lex: Lexicon, st: State, d: Document)
    requires st.mode == Top && QUOTE !in d.protocol && QUOTE !in d.language
    ensures FeedAll(lex, st, HeadLines(d)) ==
            st.(db := st.db.(protocolVersion := d.protocol, languageVersion := d.language,
                             speed := lex.float(SPEED + d.speed)))
  {
    var versions := [Quoted(PROTOCOL, d.protocol)] + [Quoted(LANGUAGE, d.language)];
    var s1 := st.(db := st.db.(protocolVersion := d.protocol, languageVersion := d.language));
    VersionsRead(lex, st, d);
    SpeedReads(lex, s1, d.speed);
    ThenOne(lex, st, versions, s1, SPEED + d.speed, s1.(db := s1.db.(speed := lex.float(SPEED + d.speed))));
    assert HeadLines(d) == versions + [SPEED + d.speed];
  }

  /** A section with its brace on a line of its own. */
  function Sectioned(keyword: string, body: seq<string>): seq<string> {
    [keyword, "{"] + body + ["}"]
  }

  lemma SectionReads(lex: Lexicon, st: State, keyword: string, section: Section, body: seq<string>, st': State)
    requires Feed(lex, st, keyword) == st.(mode := Opening(section))
    requires FeedAll(lex, st.(mode := Inside(section)), body) == st' && st'.mode == Inside(section)
    ensures FeedAll(lex, st, Sectioned(keyword, body)) == st'.(mode := Top)
  {
    var opening := st.(mode := Opening(section));
    FeedSteps(lex, [st, opening, st.(mode := Inside(section))], [keyword, "{"]);
    FeedAllConcat(lex, st, [keyword, "{"], body);
    FeedAllConcat(lex, st, [keyword, "{"] + body, ["}"]);
    OneLine(lex, st', "}");
  }

  function Keyword(section: Section): string {
    match section
    case Nodes => "Nodes"
    case Signals => "Signals"
    case Frames => "Frames"
    case Schedules => "Schedule_tables"
  }

  lemma NotInHead(line: string)
    requires |line| > 0 && line[0] != 'L'
    ensures !HasPrefix(line, "LIN_protocol_version") && !HasPrefix(line, "LIN_language_version")
    ensures !HasPrefix(line, SPEED)
  {
    Differs(line, "LIN_protocol_version", 0);
    Differs(line, "LIN_language_version", 0);
    Differs(line, SPEED, 0);
  }

  lemma KeywordReads(lex: Lexicon, st: State, section: Section)
    requires st.mode == Top
    ensures Feed(lex, st, Keyword(section)) == st.(mode := Opening(section))
  {
    var line := Keyword(section);
    NotInHead(line);
    if section != Nodes {
      Differs(line, "Nodes", 0);
    }
    if section == Frames {
      Differs(line, "Signals", 0);
    } else if section == Schedules {
      Differs(line, "Signals", 1);
      Differs(line, "Frames", 0);
    }
  }

  // ---------- The whole file ----------

  /** Names and numbers are in range, and frames can be told apart. */
  predicate Printable(d: Document) {
    && QUOTE !in d.protocol && QUOTE !in d.language && Name(d.master) && Names(d.slaves)
    && (forall i :: 0 <= i < |d.signals| ==> PrintableSignal(d.numbers, d.signals[i]))
    && PrintableFrames(d.frames) && PrintableTables(d.frames, d.tables)
  }

  function Printed(d: Document): seq<string>
    requires Printable(d)
  {
    HeadLines(d) + Sectioned(Keyword(Nodes), NodeLines(d))
    + Sectioned(Keyword(Section.Signals), SignalLines(d.numbers, d.signals))
    + Sectioned(Keyword(Frames), Concat(FrameBlocks(d.numbers, d.frames)))
    + Sectioned(Keyword(Schedules), Concat(TableBlocks(d.numbers, d.frames, d.tables)))
  }

  /** The database a document describes; of equally named signals or tables the last one counts. */
  function Meaning(lex: Lexicon, d: Document): Database
    requires Printable(d)
  {
    Database(d.protocol, d.language, lex.float(SPEED + d.speed), d.master, d.slaves,
             FrameTable(d.frames), SignalTable(d.signals), Schedule(d.frames, d.tables))
  }

  lemma FirstHalfReads(lex: Lexicon, d: Document)
    requires Printable(d) && ReadsDecimals(lex)
    ensures var m := Meaning(lex, d);
            FeedAll(lex, START, HeadLines(d) + Sectioned(Keyword(Nodes), NodeLines(d))
                                + Sectioned(Keyword(Section.Signals), SignalLines(d.numbers, d.signals))) ==
            START.(db := EMPTY.(protocolVersion := m.protocolVersion, languageVersion := m.languageVersion,
                                speed := m.speed, masterNode := m.masterNode, slaveNodes := m.slaveNodes,
                                signals := m.signals))
  {
    var s1 := START.(db := EMPTY.(protocolVersion := d.protocol, languageVersion := d.language,
                                  speed := lex.float(SPEED + d.speed)));
    var s2 := s1.(db := s1.db.(masterNode := d.master, slaveNodes := d.slaves));
    var s3 := s2.(db := s2.db.(signals := SignalTable(d.signals)));
    var nodes := Sectioned(Keyword(Nodes), NodeLines(d));
    HeadReads(lex, START, d);
    NodesSection(lex, s1, d);
    Then(lex, START, HeadLines(d), s1, nodes, s2);
    SignalsSection(d.numbers, lex, s2, d.signals);
    Then(lex, START, HeadLines(d) + nodes, s2,
         Sectioned(Keyword(Section.Signals), SignalLines(d.numbers, d.signals)), s3);
  }

  lemma SecondHalfReads(lex: Lexicon, st: State, d: Document)
    requires Printable(d) && ReadsDecimals(lex)
    requires st.mode == Top && st.db.frames == map[] && st.db.schedules == map[] && st.searches == 0
    ensures FeedAll(lex, st, Sectioned(Keyword(Frames), Concat(FrameBlocks(d.numbers, d.frames)))
                             + Sectioned(Keyword(Schedules), Concat(TableBlocks(d.numbers, d.frames, d.tables)))) ==
            State(Top, st.db.(frames := FrameTable(d.frames), schedules := Schedule(d.frames, d.tables)),
                  SlotCount(d.tables))
  {
    var s1 := st.(db := st.db.(frames := FrameTable(d.frames)));
    var s2 := State(Top, s1.db.(schedules := Schedule(d.frames, d.tables)), SlotCount(d.tables));
    FramesSection(d.numbers, lex, st, d.frames);
    PrintableResolve(d.frames);
    TablesSection(d.numbers, lex, s1, d.frames, d.tables);
    Then(lex, st, Sectioned(Keyword(Frames), Concat(FrameBlocks(d.numbers, d.frames))), s1,
         Sectioned(Keyword(Schedules), Concat(TableBlocks(d.numbers, d.frames, d.tables))), s2);
  }

  /** Parsing undoes printing, whatever order the frame table is searched in. */
  lemma ParseInvertsPrint(lex: Lexicon, d: Document)
    requires Printable(d) && ReadsDecimals(lex)
    ensures Parse(lex, Printed(d)) == Some(Meaning(lex, d))
  {
    var first := HeadLines(d) + Sectioned(Keyword(Nodes), NodeLines(d))
                 + Sectioned(Keyword(Section.Signals), SignalLines(d.numbers, d.signals));
    var second := Sectioned(Keyword(Frames), Concat(FrameBlocks(d.numbers, d.frames)))
                  + Sectioned(Keyword(Schedules), Concat(TableBlocks(d.numbers, d.frames, d.tables)));
    var middle := FeedAll(lex, START, first);
    FirstHalfReads(lex, d);
    SecondHalfReads(lex, middle, d);
    Then(lex, START, first, middle, second, FeedAll(lex, middle, second));
    assert Printed(d) == first + second;
  }

  lemma NodesSection(lex: Lexicon, st: State, d: Document)
    requires st.mode == Top && st.db.slaveNodes == [] && Name(d.master) && Names(d.slaves)
    ensures FeedAll(lex, st, Sectioned(Keyword(Nodes), NodeLines(d))) ==
            st.(db := st.db.(masterNode := d.master, slaveNodes := d.slaves))
  {
    var inside := st.(mode := Inside(Nodes));
    KeywordReads(lex, st, Nodes);
    NodesRead(lex, inside, d);
    SectionReads(lex, st, Keyword(Nodes), Nodes, NodeLines(d), FeedAll(lex, inside, NodeLines(d)));
  }

  lemma SignalsSection(nt: Notations, lex: Lexicon, st: State, signals: seq<Signals.Signal>)
    requires st.mode == Top && st.db.signals == map[] && ReadsDecimals(lex)
    requires forall i :: 0 <= i < |signals| ==> PrintableSignal(nt, signals[i])
    ensures FeedAll(lex, st, Sectioned(Keyword(Section.Signals), SignalLines(nt, signals))) ==
            st.(db := st.db.(signals := SignalTable(signals)))
  {
    var inside := st.(mode := Inside(Section.Signals));
    KeywordReads(lex, st, Section.Signals);
    SignalsRead(nt, lex, inside, signals);
    SectionReads(lex, st, Keyword(Section.Signals), Section.Signals, SignalLines(nt, signals),
                 FeedAll(lex, inside, SignalLines(nt, signals)));
  }

  lemma FramesSection(nt: Notations, lex: Lexicon, st: State, frames: seq<Frame>)
    requires st.mode == Top && st.db.frames == map[]
    requires forall i :: 0 <= i < |frames| ==> PrintableFrame(frames[i])
    ensures FeedAll(lex, st, Sectioned(Keyword(Frames), Concat(FrameBlocks(nt, frames)))) ==
            st.(db := st.db.(frames := FrameTable(frames)))
  {
    var inside := st.(mode := Inside(Frames));
    var lines := Concat(FrameBlocks(nt, frames));
    KeywordReads(lex, st, Frames);
    FramesRead(nt, lex, inside, frames);
    SectionReads(lex, st, Keyword(Frames), Frames, lines, FeedAll(lex, inside, lines));
  }

  lemma TablesSection(nt: Notations, lex: Lexicon, st: State, frames: seq<Frame>, tables: seq<Table>)
    requires AllResolvable(frames) && PrintableTables(frames, tables) && ReadsDecimals(lex)
    requires st.mode == Top && st.db.frames == FrameTable(frames) && st.db.schedules == map[]
    ensures FeedAll(lex, st, Sectioned(Keyword(Schedules), Concat(TableBlocks(nt, frames, tables)))) ==
            State(Top, st.db.(schedules := Schedule(frames, tables)), st.searches + SlotCount(tables))
  {
    var inside := st.(mode := Inside(Schedules));
    var lines := Concat(TableBlocks(nt, frames, tables));
    KeywordReads(lex, st, Schedules);
    TablesRead(nt, lex, inside, frames, tables);
    SectionReads(lex, st, Keyword(Schedules), Schedules, lines, FeedAll(lex, inside, lines));
  }
}
