/**
 * The LDF language as a line automaton: what each line means in the place where it stands.
 * This is the specification the cursor parser is proved to follow.
 */
module LdfGrammar {
  import opened Options
  import opened Signals
  import opened LdfText
  import opened LdfDatabase
  import Lin

  /**
   * What the automaton does not compute itself: numerals that may be written as floating point (hexadecimal ones it
   * does compute), and the order in
   * which the frame table is searched, which the implementation leaves open and may change from one search to the next.
   */
  datatype Lexicon = Lexicon(unsigned: string -> uint64, float: string -> real, searchHint: nat -> Lin.uint8)

  datatype Section = Nodes | Signals | Frames | Schedules

  datatype Mode =
    | Top
    | Opening(section: Section)  // the section keyword was read; a line starting with "{" is part of it
    | Inside(section: Section)
    | FrameBody(frame: Frame)
    | SkippedBody
    | TableBody(table: string, entries: seq<Lin.ScheduleEntry>)

  /** searches counts the frame-table searches made so far. */
  datatype State = State(mode: Mode, db: Database, searches: nat)

  const START := State(Top, EMPTY, 0)

  // ---------- One line in each place ----------

  /** Width, initial value, publisher, and everything else as the subscriber list. */
  const SIGNAL_FIELDS: nat := 4

  function NodesLine(db: Database, line: string): Database {
    if HasPrefix(line, "Master:") then
      var parts := SplitN(TrimPrefix(line, "Master:"), ',', 2);
      db.(masterNode := TrimSpace(TrimSuffix(TrimSpace(parts[0]), ";")))
    else if HasPrefix(line, "Slaves:") then
      var rest := TrimSuffix(TrimSpace(TrimPrefix(line, "Slaves:")), ";");
      db.(slaveNodes := db.slaveNodes + NonEmptyTrimmed(Split(rest, ',')))
    else
      db
  }

  /** The name before the colon and the comma-separated fields behind it. */
  function SignalFields(line: string): (f: Option<(string, seq<string>)>)
    ensures f.Some? ==> |f.value.1| >= 3
  {
    var text := TrimSuffix(TrimSpace(line), ";");
    match IndexOf(text, ':')
    case None => None
    case Some(colon) =>
      var parts := SplitN(TrimSpace(text[colon + 1..]), ',', SIGNAL_FIELDS);
      if |parts| < 3 then None else Some((TrimSpace(text[..colon]), parts))
  }

  /** Hexadecimal with the prefix 0x or 0X, anything else as the reader left open says. */
  function Unsigned(lex: Lexicon, text: string): uint64 {
    var s := TrimSuffix(TrimSpace(text), ";");
    if HasPrefix(s, "0x") || HasPrefix(s, "0X") then ParseUint64(s[2..], 16) else lex.unsigned(s)
  }

  /** A width that is not a numeral counts as 0. */
  function SignalOf(lex: Lexicon, name: string, parts: seq<string>): Signal
    requires |parts| >= 3
  {
    var width := match ParseInt(TrimSpace(parts[0])) case Some(w) => w case None => 0;
    var subscribers := if |parts| > 3 then NonEmptyTrimmed(Split(parts[3], ',')) else [];
    Signal(name, width, Unsigned(lex, TrimSpace(parts[1])), TrimSpace(parts[2]), subscribers)
  }

  function SignalsLine(lex: Lexicon, db: Database, line: string): Database {
    match SignalFields(line)
    case Some((name, parts)) => db.(signals := db.signals[name := SignalOf(lex, name, parts)])
    case None => db
  }

  function ParseFrameHeader(header: string): (f: Option<Frame>)
    ensures f.Some? ==> SoundFrame(f.value)
  {
    var line := TrimSpace(TrimSuffix(TrimSpace(header), "{"));
    match IndexOf(line, ':')
    case None => None
    case Some(colon) => HeaderOf(TrimSpace(line[..colon]), Split(TrimSpace(line[colon + 1..]), ','))
  }

  /** The header with this name and these fields. */
  function HeaderOf(name: string, fields: seq<string>): (f: Option<Frame>)
    ensures f.Some? ==> SoundFrame(f.value)
  {
    if |fields| < 3 then
      None
    else
      match (ParseInt(TrimSpace(fields[0])), ParseInt(TrimSpace(fields[2])))
      case (Some(id), Some(length)) =>
        if 0 <= id <= Lin.MAX_ID && 0 <= length <= Lin.MAX_DATA_LEN then
          Some(Frame(name, id, TrimSpace(fields[1]), length, []))
        else
          None
      case _ => None
  }

  function ParseRef(line: string): (r: Option<SignalRef>)
    ensures r.Some? ==> r.value.bitOffset >= 0
  {
    var parts := SplitN(TrimSuffix(TrimSpace(line), ";"), ',', 2);
    if |parts| != 2 then
      None
    else
      match ParseInt(TrimSpace(parts[1]))
      case None => None
      case Some(offset) => if offset < 0 then None else Some(SignalRef(TrimSpace(parts[0]), offset))
  }

  function FrameBodyLine(f: Frame, line: string): Frame {
    match ParseRef(line)
    case None => f
    case Some(ref) => f.(signals := f.signals + [ref])
  }

  predicate Named(frames: map<Lin.uint8, Frame>, id: Lin.uint8, name: string) {
    id in frames && frames[id].name == name
  }

  const LOWEST_ID: Lin.uint8 := 0

  /** Some frame of that name, the hinted one if possible, and 0xFF if there is none. */
  function FrameIdByName(frames: map<Lin.uint8, Frame>, name: string, hint: Lin.uint8): Lin.uint8 {
    if Named(frames, hint, name) then hint else FirstNamed(frames, name, LOWEST_ID)
  }

  function FirstNamed(frames: map<Lin.uint8, Frame>, name: string, from: Lin.uint8): Lin.uint8
    decreases 0xFF - from
  {
    if from == 0xFF || Named(frames, from, name) then from else FirstNamed(frames, name, from + 1)
  }

  /** The frame a schedule line names, if it is a slot line. */
  function SlotFields(line: string): Option<seq<string>> {
    var inner := TrimSuffix(TrimSpace(line), ";");
    if HasPrefix(inner, "AssignFrameId") then
      None
    else
      var parts := Fields(inner);
      if |parts| >= 3 && EqualFold(parts[1], "delay") then Some(parts) else None
  }

  function SlotEntry(lex: Lexicon, db: Database, searches: nat, parts: seq<string>): Option<Lin.ScheduleEntry>
    requires |parts| >= 3
  {
    var id := FrameIdByName(db.frames, parts[0], lex.searchHint(searches));
    if id > Lin.MAX_ID then None
    else Some(Lin.ScheduleEntry(id, Unsigned(lex, parts[2]) % 0x1_0000_0000))
  }

  // ---------- The automaton ----------

  function TopLine(lex: Lexicon, st: State, line: string): State {
    var db := st.db;
    if HasPrefix(line, "LIN_protocol_version") then
      st.(db := db.(protocolVersion := ExtractQuotedValue(line)))
    else if HasPrefix(line, "LIN_language_version") then
      st.(db := db.(languageVersion := ExtractQuotedValue(line)))
    else if HasPrefix(line, "LIN_speed") then st.(db := db.(speed := lex.float(line)))
    else if HasPrefix(line, "Nodes") then st.(mode := Opening(Nodes))
    else if HasPrefix(line, "Signals") then st.(mode := Opening(Signals))
    else if HasPrefix(line, "Frames") then st.(mode := Opening(Frames))
    else if HasPrefix(line, "Schedule_tables") then st.(mode := Opening(Schedules))
    else st
  }

  function SectionLine(lex: Lexicon, st: State, section: Section, line: string): State {
    if line == "}" then
      st.(mode := Top)
    else
      var here := st.(mode := Inside(section));
      match section
      case Nodes => here.(db := NodesLine(st.db, line))
      case Signals => here.(db := SignalsLine(lex, st.db, line))
      case Frames =>
        if '{' !in line then here
        else
          (match ParseFrameHeader(line)
           case Some(f) => st.(mode := FrameBody(f))
           case None => st.(mode := SkippedBody))
      case Schedules =>
        if HasSuffix(line, "{") then st.(mode := TableBody(TrimSpace(TrimSuffix(line, "{")), [])) else here
  }

  function TableLine(lex: Lexicon, st: State, line: string): State
    requires st.mode.TableBody?
  {
    match SlotFields(line)
    case None => st
    case Some(parts) =>
      var counted := st.(searches := st.searches + 1);
      match SlotEntry(lex, st.db, st.searches, parts)
      case None => counted
      case Some(entry) => counted.(mode := st.mode.(entries := st.mode.entries + [entry]))
  }

  function Feed(lex: Lexicon, st: State, line: string): State {
    match st.mode
    case Top => TopLine(lex, st, line)
    case Opening(section) =>
      if HasPrefix(line, "{") then st.(mode := Inside(section)) else SectionLine(lex, st, section, line)
    case Inside(section) => SectionLine(lex, st, section, line)
    case FrameBody(f) =>
      if line == "}" then State(Inside(Frames), st.db.(frames := st.db.frames[f.id := f]), st.searches)
      else st.(mode := FrameBody(FrameBodyLine(f, line)))
    case SkippedBody => if line == "}" then st.(mode := Inside(Frames)) else st
    case TableBody(table, entries) =>
      if line == "}" then State(Inside(Schedules), st.db.(schedules := st.db.schedules[table := entries]), st.searches)
      else TableLine(lex, st, line)
  }

  function FeedAll(lex: Lexicon, st: State, lines: seq<string>): State {
    if |lines| == 0 then st
    else Feed(lex, FeedAll(lex, st, lines[..|lines| - 1]), lines[|lines| - 1])
  }

  /** A file parses when it ends outside every section. */
  function Parse(lex: Lexicon, lines: seq<string>): Option<Database> {
    var st := FeedAll(lex, START, lines);
    if st.mode.Top? then Some(st.db) else None
  }

  lemma {:induction false} FeedAllConcat(lex: Lexicon, st: State, a: seq<string>, b: seq<string>)
    ensures FeedAll(lex, st, a + b) == FeedAll(lex, FeedAll(lex, st, a), b)
  {
    if |b| == 0 {
      assert a + b == a;
    } else {
      assert (a + b)[..|a + b| - 1] == a + b[..|b| - 1];
      FeedAllConcat(lex, st, a, b[..|b| - 1]);
    }
  }

  /** Reading on behind some lines. */
  lemma ReadOn(lex: Lexicon, start: State, before: seq<string>, st: State, lines: seq<string>, st': State,
               rest: seq<string>)
    requires FeedAll(lex, start, before) == st && FeedAll(lex, st, lines) == st'
    ensures FeedAll(lex, start, before + lines + rest) == FeedAll(lex, st', rest)
  {
    FeedAllConcat(lex, start, before, lines);
    FeedAllConcat(lex, start, before + lines, rest);
  }

  lemma OneLine(lex: Lexicon, st: State, line: string)
    ensures FeedAll(lex, st, [line]) == Feed(lex, st, line)
  {
    assert [line][..0] == [];
  }

  lemma FeedInside(lex: Lexicon, st: State, section: Section, line: string)
    requires st.mode == Inside(section)
    ensures Feed(lex, st, line) == SectionLine(lex, st, section, line)
  {
  }

  lemma HeaderLine(lex: Lexicon, st: State, line: string, f: Frame)
    requires '{' in line && ParseFrameHeader(line) == Some(f)
    ensures SectionLine(lex, st, Frames, line) == st.(mode := FrameBody(f))
  {
    assert line != "}";
  }

  lemma FeedHeader(lex: Lexicon, st: State, line: string, f: Frame)
    requires st.mode == Inside(Frames) && '{' in line && ParseFrameHeader(line) == Some(f)
    ensures Feed(lex, st, line) == st.(mode := FrameBody(f))
  {
    HeaderLine(lex, st, line, f);
    FeedInside(lex, st, Frames, line);
  }

  // ---------- Everything parsed is sound ----------

  predicate SoundState(st: State) {
    && Sound(st.db)
    && (st.mode.FrameBody? ==> SoundFrame(st.mode.frame))
    && (st.mode.TableBody? ==> SoundEntries(st.db.frames, st.mode.entries))
  }

  lemma {:induction false} FirstNamedIsNamed(frames: map<Lin.uint8, Frame>, name: string, from: Lin.uint8)
    ensures var id := FirstNamed(frames, name, from);
            && (id == 0xFF || Named(frames, id, name))
            && (id == 0xFF ==> forall k: Lin.uint8 :: from <= k < 0xFF ==> !Named(frames, k, name))
    decreases 0xFF - from
  {
    if from != 0xFF && !Named(frames, from, name) {
      FirstNamedIsNamed(frames, name, from + 1);
    }
  }

  /** A search finds a frame of that name if there is one, and 0xFF means that there is none below. */
  lemma SearchIsExact(frames: map<Lin.uint8, Frame>, name: string, hint: Lin.uint8)
    ensures var id := FrameIdByName(frames, name, hint);
            && (id != 0xFF ==> Named(frames, id, name))
            && (id == 0xFF ==> Named(frames, 0xFF, name) || forall k: Lin.uint8 :: !Named(frames, k, name))
  {
    FirstNamedIsNamed(frames, name, LOWEST_ID);
  }

  lemma SlotEntryDeclared(lex: Lexicon, db: Database, searches: nat, parts: seq<string>)
    requires |parts| >= 3
    ensures var e := SlotEntry(lex, db, searches, parts); e.Some? ==> e.value.id in db.frames
  {
    FirstNamedIsNamed(db.frames, parts[0], LOWEST_ID);
  }

  lemma AddFrameSound(db: Database, f: Frame)
    requires Sound(db) && SoundFrame(f)
    ensures Sound(db.(frames := db.frames[f.id := f]))
  {
    var frames := db.frames[f.id := f];
    forall t | t in db.schedules ensures SoundEntries(frames, db.schedules[t]) {
      assert SoundEntries(db.frames, db.schedules[t]);
    }
  }

  lemma AddTableSound(db: Database, table: string, entries: seq<Lin.ScheduleEntry>)
    requires Sound(db) && SoundEntries(db.frames, entries)
    ensures Sound(db.(schedules := db.schedules[table := entries]))
  {
  }

  lemma SameTablesSound(db: Database, db': Database)
    requires Sound(db) && db'.frames == db.frames && db'.schedules == db.schedules
    ensures Sound(db')
  {
  }

  lemma SectionLineSound(lex: Lexicon, st: State, section: Section, line: string)
    requires Sound(st.db)
    ensures SoundState(SectionLine(lex, st, section, line))
  {
    SectionLineKeepsTables(lex, st, section, line);
    SameTablesSound(st.db, SectionLine(lex, st, section, line).db);
  }

  lemma SectionLineKeepsTables(lex: Lexicon, st: State, section: Section, line: string)
    ensures var next := SectionLine(lex, st, section, line);
            && next.db.frames == st.db.frames && next.db.schedules == st.db.schedules
            && (next.mode.FrameBody? ==> SoundFrame(next.mode.frame))
            && (next.mode.TableBody? ==> next.mode.entries == [])
  {
  }

  lemma TableLineSound(lex: Lexicon, st: State, line: string)
    requires SoundState(st) && st.mode.TableBody?
    ensures SoundState(TableLine(lex, st, line))
  {
    match SlotFields(line)
    case None =>
    case Some(parts) => SlotEntryDeclared(lex, st.db, st.searches, parts);
  }

  lemma FeedSound(lex: Lexicon, st: State, line: string)
    requires SoundState(st)
    ensures SoundState(Feed(lex, st, line))
  {
    match st.mode
    case Top => SameTablesSound(st.db, TopLine(lex, st, line).db);
    case Opening(section) => SectionLineSound(lex, st, section, line);
    case Inside(section) => SectionLineSound(lex, st, section, line);
    case FrameBody(_) => FrameBodySound(lex, st, line);
    case SkippedBody =>
    case TableBody(_, _) => TableBodySound(lex, st, line);
  }

  lemma FrameBodySound(lex: Lexicon, st: State, line: string)
    requires SoundState(st) && st.mode.FrameBody?
    ensures SoundState(Feed(lex, st, line))
  {
    AddFrameSound(st.db, st.mode.frame);
  }

  lemma TableBodySound(lex: Lexicon, st: State, line: string)
    requires SoundState(st) && st.mode.TableBody?
    ensures SoundState(Feed(lex, st, line))
  {
    AddTableSound(st.db, st.mode.table, st.mode.entries);
    TableLineSound(lex, st, line);
  }

  lemma {:induction false} FeedAllSound(lex: Lexicon, lines: seq<string>)
    ensures SoundState(FeedAll(lex, START, lines))
  {
    if |lines| > 0 {
      FeedAllSound(lex, lines[..|lines| - 1]);
      FeedSound(lex, FeedAll(lex, START, lines[..|lines| - 1]), lines[|lines| - 1]);
    }
  }

  /** Whatever the lines are, a database that comes out of the parse is sound. */
  lemma ParsedIsSound(lex: Lexicon, lines: seq<string>)
    ensures Parse(lex, lines).Some? ==> Sound(Parse(lex, lines).value)
  {
    FeedAllSound(lex, lines);
  }
}
