/** The cursor parser, with its nested recovery loops, proved to follow the line automaton. */
module LdfParser {
  import opened Options
  import opened Signals
  import opened LdfText
  import opened LdfDatabase
  import opened LdfGrammar
  import Lin

  lemma OneMoreLine(lex: Lexicon, lines: seq<string>, pos: nat)
    requires pos < |lines|
    ensures FeedAll(lex, START, lines[..pos + 1]) == Feed(lex, FeedAll(lex, START, lines[..pos]), lines[pos])
  {
    assert lines[..pos + 1][..pos] == lines[..pos];
  }

  /** Searching the frame table: the hint stands for whatever frame the iteration order offers first. */
  method SearchFrame(frames: map<Lin.uint8, Frame>, name: string, hint: Lin.uint8) returns (id: Lin.uint8)
    ensures id == FrameIdByName(frames, name, hint)
    ensures id != 0xFF ==> Named(frames, id, name)
    ensures id == 0xFF ==> Named(frames, 0xFF, name) || forall k: Lin.uint8 :: !Named(frames, k, name)
  {
    SearchIsExact(frames, name, hint);
    if hint in frames && frames[hint].name == name {
      return hint;
    }
    id := LOWEST_ID;
    while id < 0xFF && !(id in frames && frames[id].name == name)
      invariant FirstNamed(frames, name, LOWEST_ID) == FirstNamed(frames, name, id)
      decreases 0xFF - id
    {
      id := id + 1;
    }
  }

  function Extended(entries: seq<Lin.ScheduleEntry>, entry: Option<Lin.ScheduleEntry>): seq<Lin.ScheduleEntry> {
    match entry
    case None => entries
    case Some(e) => entries + [e]
  }

  class Parser {
    const lines: seq<string>
    const lex: Lexicon
    var pos: nat
    var db: Database
    var searches: nat

    constructor (lex: Lexicon, lines: seq<string>)
      ensures this.lex == lex && this.lines == lines && At(Top) && pos == 0
    {
      this.lex, this.lines := lex, lines;
      pos, db, searches := 0, EMPTY, 0;
    }

    /** The lines before the cursor put the automaton in this mode with the parser's database. */
    ghost predicate At(mode: Mode)
      reads this
    {
      pos <= |lines| && FeedAll(lex, START, lines[..pos]) == State(mode, db, searches)
    }

    /** The next line is an ordinary line of the section. */
    ghost predicate Ready(section: Section)
      reads this
    {
      At(Inside(section)) || (At(Opening(section)) && (pos < |lines| ==> !HasPrefix(lines[pos], "{")))
    }

    /** The lines ran out inside a section. */
    ghost predicate Unfinished()
      reads this
    {
      pos == |lines| && !FeedAll(lex, START, lines).mode.Top?
    }

    function Peek(): string
      reads this
    {
      if pos >= |lines| then "" else lines[pos]
    }

    lemma EndOfLines()
      requires pos == |lines|
      ensures FeedAll(lex, START, lines[..pos]) == FeedAll(lex, START, lines)
    {
      assert lines[..pos] == lines;
    }

    /** The whole parse: the cursor never passes the end, and the result is the automaton's. */
    method ParseTop() returns (ok: bool)
      requires pos == 0 && At(Top)
      modifies this
      ensures pos == |lines|
      ensures ok == Parse(lex, lines).Some?
      ensures ok ==> db == Parse(lex, lines).value
    {
      while pos < |lines|
        invariant At(Top)
        decreases |lines| - pos
      {
        var line := Peek();
        OneMoreLine(lex, lines, pos);
        pos := pos + 1;
        ok := true;
        if HasPrefix(line, "LIN_protocol_version") {
          db := db.(protocolVersion := ExtractQuotedValue(line));
        } else if HasPrefix(line, "LIN_language_version") {
          db := db.(languageVersion := ExtractQuotedValue(line));
        } else if HasPrefix(line, "LIN_speed") {
          db := db.(speed := lex.float(line));
        } else if HasPrefix(line, "Nodes") {
          ok := ParseNodes();
        } else if HasPrefix(line, "Signals") {
          ok := ParseSignals();
        } else if HasPrefix(line, "Frames") {
          ok := ParseFrames();
        } else if HasPrefix(line, "Schedule_tables") {
          ok := ParseScheduleTables();
        }
        if !ok {
          return;
        }
      }
      EndOfLines();
      ok := true;
    }

    method SkipOpeningBrace(section: Section)
      requires At(Opening(section))
      modifies `pos
      ensures old(pos) <= pos && Ready(section)
    {
      if HasPrefix(Peek(), "{") {
        OneMoreLine(lex, lines, pos);
        pos := pos + 1;
      }
    }

    /** What the automaton does with the next line of a section, whether or not the section was just opened. */
    lemma SectionStep(section: Section)
      requires Ready(section) && pos < |lines|
      ensures FeedAll(lex, START, lines[..pos + 1]) ==
              SectionLine(lex, State(Inside(section), db, searches), section, lines[pos])
    {
      OneMoreLine(lex, lines, pos);
    }

    lemma SkippedStep()
      requires At(SkippedBody) && pos < |lines|
      ensures FeedAll(lex, START, lines[..pos + 1]) ==
              State(if lines[pos] == "}" then Inside(Frames) else SkippedBody, db, searches)
    {
      OneMoreLine(lex, lines, pos);
    }

    lemma FrameBodyStep(fr: Frame)
      requires At(FrameBody(fr)) && pos < |lines|
      ensures FeedAll(lex, START, lines[..pos + 1]) ==
              if lines[pos] == "}" then State(Inside(Frames), db.(frames := db.frames[fr.id := fr]), searches)
              else State(FrameBody(FrameBodyLine(fr, lines[pos])), db, searches)
    {
      OneMoreLine(lex, lines, pos);
    }

    lemma TableStep(table: string, entries: seq<Lin.ScheduleEntry>)
      requires At(TableBody(table, entries)) && pos < |lines|
      ensures FeedAll(lex, START, lines[..pos + 1]) ==
              if lines[pos] == "}" then
                State(Inside(Schedules), db.(schedules := db.schedules[table := entries]), searches)
              else
                match SlotFields(lines[pos])
                case None => State(TableBody(table, entries), db, searches)
                case Some(parts) =>
                  State(TableBody(table, Extended(entries, SlotEntry(lex, db, searches, parts))), db, searches + 1)
    {
      OneMoreLine(lex, lines, pos);
    }

    lemma FrameStep()
      requires Ready(Frames) && pos < |lines|
      ensures FeedAll(lex, START, lines[..pos + 1]) ==
              State(if lines[pos] == "}" then Top
                    else if '{' !in lines[pos] then Inside(Frames)
                    else
                      match ParseFrameHeader(lines[pos])
                      case Some(f) => FrameBody(f)
                      case None => SkippedBody, db, searches)
    {
      SectionStep(Frames);
    }

    lemma ScheduleStep()
      requires Ready(Schedules) && pos < |lines|
      ensures FeedAll(lex, START, lines[..pos + 1]) ==
              State(if lines[pos] == "}" then Top
                    else if HasSuffix(lines[pos], "{") then TableBody(TrimSpace(TrimSuffix(lines[pos], "{")), [])
                    else Inside(Schedules), db, searches)
    {
      SectionStep(Schedules);
    }

    method ParseNodes() returns (ok: bool)
      requires At(Opening(Nodes))
      modifies this
      ensures old(pos) <= pos
      ensures if ok then At(Top) else Unfinished()
    {
      SkipOpeningBrace(Nodes);
      while pos < |lines|
        invariant old(pos) <= pos && Ready(Nodes)
        decreases |lines| - pos
      {
        var line := Peek();
        SectionStep(Nodes);
        pos := pos + 1;
        if line == "}" {
          return true;
        }
        if HasPrefix(line, "Master:") {
          var parts := SplitN(TrimPrefix(line, "Master:"), ',', 2);
          db := db.(masterNode := TrimSpace(TrimSuffix(TrimSpace(parts[0]), ";")));
        } else if HasPrefix(line, "Slaves:") {
          var rest := TrimSuffix(TrimSpace(TrimPrefix(line, "Slaves:")), ";");
          var names := CollectNames(Split(rest, ','), db.slaveNodes);
          db := db.(slaveNodes := names);
        }
      }
      EndOfLines();
      ok := false;
    }

    method ParseSignals() returns (ok: bool)
      requires At(Opening(Section.Signals))
      modifies this
      ensures old(pos) <= pos
      ensures if ok then At(Top) else Unfinished()
    {
      SkipOpeningBrace(Section.Signals);
      while pos < |lines|
        invariant old(pos) <= pos && Ready(Section.Signals)
        decreases |lines| - pos
      {
        var line := Peek();
        SectionStep(Section.Signals);
        pos := pos + 1;
        if line == "}" {
          return true;
        }
        Declare(line);
      }
      EndOfLines();
      ok := false;
    }

    method Declare(line: string)
      modifies `db
      ensures db == SignalsLine(lex, old(db), line)
    {
      var fields := SignalFields(line);
      if fields.Some? {
        var (name, parts) := fields.value;
        var sig := ReadSignal(name, parts);
        db := db.(signals := db.signals[name := sig]);
      }
    }

    method ReadSignal(name: string, parts: seq<string>) returns (sig: Signal)
      requires |parts| >= 3
      ensures sig == SignalOf(lex, name, parts)
    {
      var width := ParseInt(TrimSpace(parts[0]));
      var subscribers := [];
      if |parts| > 3 {
        subscribers := CollectNames(Split(parts[3], ','), []);
      }
      sig := Signal(name, if width.Some? then width.value else 0, Unsigned(lex, TrimSpace(parts[1])),
                    TrimSpace(parts[2]), subscribers);
    }

    method ParseFrames() returns (ok: bool)
      requires At(Opening(Frames))
      modifies this
      ensures old(pos) <= pos
      ensures if ok then At(Top) else Unfinished()
    {
      SkipOpeningBrace(Frames);
      while pos < |lines|
        invariant old(pos) <= pos && (Ready(Frames) || Unfinished())
        decreases |lines| - pos
      {
        var closed := FrameItem();
        if closed {
          return true;
        }
      }
      EndOfLines();
      ok := false;
    }

    /** One turn of the section loop: the closing brace, a stray line, or a frame with its body. */
    method FrameItem() returns (closed: bool)
      requires Ready(Frames) && pos < |lines|
      modifies this
      ensures old(pos) < pos
      ensures if closed then At(Top) else At(Inside(Frames)) || Unfinished()
    {
      var line := Peek();
      FrameStep();
      pos := pos + 1;
      if line == "}" {
        return true;
      }
      closed := false;
      if '{' in line {
        var header := ParseFrameHeader(line);
        if header.None? {
          SkipBody();
        } else {
          ParseFrameBody(header.value);
        }
      }
    }

    /** Recovery from a rejected frame header: everything up to and including the closing brace is dropped. */
    method SkipBody()
      requires At(SkippedBody)
      modifies `pos
      ensures old(pos) <= pos
      ensures At(Inside(Frames)) || Unfinished()
    {
      while pos < |lines|
        invariant old(pos) <= pos && At(SkippedBody)
        decreases |lines| - pos
      {
        var line := Peek();
        SkippedStep();
        pos := pos + 1;
        if line == "}" {
          return;
        }
      }
      EndOfLines();
    }

    method ParseFrameBody(header: Frame)
      requires At(FrameBody(header))
      modifies this
      ensures old(pos) <= pos
      ensures At(Inside(Frames)) || Unfinished()
    {
      var fr := header;
      while pos < |lines|
        invariant old(pos) <= pos && At(FrameBody(fr))
        decreases |lines| - pos
      {
        var inner := Peek();
        FrameBodyStep(fr);
        pos := pos + 1;
        if inner == "}" {
          break;
        }
        var parts := SplitN(TrimSuffix(TrimSpace(inner), ";"), ',', 2);
        if |parts| == 2 {
          var offset := ParseInt(TrimSpace(parts[1]));
          if offset.Some? && offset.value >= 0 {
            fr := fr.(signals := fr.signals + [SignalRef(TrimSpace(parts[0]), offset.value)]);
          }
        }
      }
      if pos == |lines| {
        EndOfLines();
      }
      db := db.(frames := db.frames[fr.id := fr]);
    }

    method ParseScheduleTables() returns (ok: bool)
      requires At(Opening(Schedules))
      modifies this
      ensures old(pos) <= pos
      ensures if ok then At(Top) else Unfinished()
    {
      SkipOpeningBrace(Schedules);
      while pos < |lines|
        invariant old(pos) <= pos && (Ready(Schedules) || Unfinished())
        decreases |lines| - pos
      {
        var closed := TableItem();
        if closed {
          return true;
        }
      }
      EndOfLines();
      ok := false;
    }

    /** One turn of the section loop: the closing brace, a stray line, or a table with its slots. */
    method TableItem() returns (closed: bool)
      requires Ready(Schedules) && pos < |lines|
      modifies this
      ensures old(pos) < pos
      ensures if closed then At(Top) else At(Inside(Schedules)) || Unfinished()
    {
      var line := Peek();
      ScheduleStep();
      pos := pos + 1;
      if line == "}" {
        return true;
      }
      closed := false;
      if HasSuffix(line, "{") {
        ParseTable(TrimSpace(TrimSuffix(line, "{")));
      }
    }

    /** A slot line costs one search of the frame table, whether or not the search succeeds. */
    method ReadSlot(line: string) returns (entry: Option<Lin.ScheduleEntry>)
      modifies `searches
      ensures match SlotFields(line)
              case None => entry == None && searches == old(searches)
              case Some(parts) =>
                entry == SlotEntry(lex, db, old(searches), parts) && searches == old(searches) + 1
    {
      var inner := TrimSuffix(TrimSpace(line), ";");
      if HasPrefix(inner, "AssignFrameId") {
        return None;
      }
      var parts := Fields(inner);
      if |parts| < 3 || !EqualFold(parts[1], "delay") {
        return None;
      }
      var delay := Unsigned(lex, parts[2]);
      var id := SearchFrame(db.frames, parts[0], lex.searchHint(searches));
      searches := searches + 1;
      if id > Lin.MAX_ID {
        return None;
      }
      return Some(Lin.ScheduleEntry(id, delay % 0x1_0000_0000));
    }

    method ParseTable(table: string)
      requires At(TableBody(table, []))
      modifies this
      ensures old(pos) <= pos
      ensures At(Inside(Schedules)) || Unfinished()
    {
      var entries := [];
      while pos < |lines|
        invariant old(pos) <= pos && At(TableBody(table, entries))
        decreases |lines| - pos
      {
        var line := Peek();
        TableStep(table, entries);
        pos := pos + 1;
        if line == "}" {
          break;
        }
        var entry := ReadSlot(line);
        if entry.Some? {
          entries := entries + [entry.value];
        }
      }
      if pos == |lines| {
        EndOfLines();
      }
      db := db.(schedules := db.schedules[table := entries]);
    }
  }

  /** Parsing a file: nothing but a sound database ever comes out. */
  method ParseFile(lex: Lexicon, lines: seq<string>) returns (db: Option<Database>)
    ensures db == Parse(lex, lines)
    ensures db.Some? ==> Sound(db.value)
  {
    var p := new Parser(lex, lines);
    var ok := p.ParseTop();
    ParsedIsSound(lex, lines);
    db := if ok then Some(p.db) else None;
  }
}
