/**
 * A rejected frame definition without a closing line of its own, such as one written on a single line: recovery then
 * runs on to the closing line of whatever follows.
 */
module LdfUnclosed {
  import opened Options
  import opened LdfText
  import opened LdfDatabase
  import opened LdfGrammar
  import opened LdfPrint
  import opened LdfRecovery
  import LdfSpacing
  import Lin

  /** A rejected header and any lines, none of them a closing brace. */
  predicate Stub(lines: seq<string>) {
    |lines| > 0 && '{' in lines[0] && ParseFrameHeader(lines[0]).None? && Unclosed(lines)
  }

  lemma StubAndItemAreABlock(stub: seq<string>, eaten: seq<string>)
    requires Stub(stub) && Item(eaten)
    ensures RejectedBlock(stub + eaten)
  {
    var block := stub + eaten;
    assert block[0] == stub[0] && block[|block| - 1] == eaten[|eaten| - 1];
    forall i | 1 <= i < |block| - 1 ensures block[i] != "}" {
      assert block[i] == if i < |stub| then stub[i] else eaten[i - |stub|];
    }
  }

  /** Where a stub can stand: at frame level, or between the section keyword and its brace. */
  predicate BeforeFrames(st: State, stub: seq<string>)
    requires |stub| > 0
  {
    st.mode == Inside(Frames) || (st.mode == Opening(Frames) && !HasPrefix(stub[0], "{"))
  }

  /** What the lines are to the section when no stub stands before them. */
  function Shown(mode: Mode, eaten: seq<string>): (lines: seq<string>)
    requires Item(eaten)
    ensures Item(lines)
  {
    if mode == Opening(Frames) && HasPrefix(eaten[0], "{") then Inner(eaten) else eaten
  }

  lemma ShownReads(lex: Lexicon, st: State, eaten: seq<string>)
    requires (st.mode == Inside(Frames) || st.mode == Opening(Frames)) && Item(eaten)
    ensures FeedAll(lex, st, eaten) == AfterItem(st.(mode := Inside(Frames)), Shown(st.mode, eaten))
  {
    var inside := st.(mode := Inside(Frames));
    ItemReads(lex, inside, Shown(st.mode, eaten));
    if st.mode == Opening(Frames) {
      if HasPrefix(eaten[0], "{") {
        BraceOpens(lex, st, eaten);
      } else {
        OpeningIsInside(lex, st, eaten);
      }
    }
  }

  lemma StubSwallows(lex: Lexicon, st: State, stub: seq<string>, eaten: seq<string>)
    requires Stub(stub) && BeforeFrames(st, stub) && Item(eaten)
    ensures FeedAll(lex, st, stub + eaten) == st.(mode := Inside(Frames))
  {
    StubAndItemAreABlock(stub, eaten);
    RejectedBlockIsSkipped(lex, st, stub + eaten);
  }

  lemma ReadWithStub(lex: Lexicon, before: seq<string>, stub: seq<string>, eaten: seq<string>, rest: seq<string>)
    requires Stub(stub) && BeforeFrames(FeedAll(lex, START, before), stub) && Item(eaten)
    ensures FeedAll(lex, START, before + stub + eaten + rest) ==
            FeedAll(lex, FeedAll(lex, START, before).(mode := Inside(Frames)), rest)
  {
    var st := FeedAll(lex, START, before);
    StubSwallows(lex, st, stub, eaten);
    ReadOn(lex, START, before, st, stub + eaten, st.(mode := Inside(Frames)), rest);
    assert before + stub + eaten == before + (stub + eaten);
  }

  /** Where the two files stand behind the first closing brace: with the stub nothing has been read. */
  lemma StubReadings(lex: Lexicon, before: seq<string>, stub: seq<string>, eaten: seq<string>, rest: seq<string>)
    requires Stub(stub) && BeforeFrames(FeedAll(lex, START, before), stub) && Item(eaten)
    ensures var st := FeedAll(lex, START, before);
            var inside := st.(mode := Inside(Frames));
            && FeedAll(lex, START, before + stub + eaten + rest) == FeedAll(lex, inside, rest)
            && FeedAll(lex, START, before + eaten + rest) ==
               FeedAll(lex, AfterItem(inside, Shown(st.mode, eaten)), rest)
  {
    var st := FeedAll(lex, START, before);
    ReadWithStub(lex, before, stub, eaten, rest);
    ShownReads(lex, st, eaten);
    ReadOn(lex, START, before, st, eaten, AfterItem(st.(mode := Inside(Frames)), Shown(st.mode, eaten)), rest);
  }

  /** The lines declare nothing, or a frame that is stored already, and do not end the section. */
  predicate NothingLost(frames: map<Lin.uint8, Frame>, lines: seq<string>)
    requires Item(lines)
  {
    FirstHeader(lines).Some? && (Declared(lines).Some? ==> Stored(frames, Declared(lines).value))
  }

  lemma NothingLostMeansSame(st: State, lines: seq<string>)
    requires st.mode == Inside(Frames) && Item(lines)
    ensures NothingLost(st.db.frames, lines) <==> AfterItem(st, lines) == st
  {
    if Declared(lines).Some? {
      SameTables(st.db.frames, Declared(lines).value, Declared(lines).value);
    }
  }

  /** The exact condition under which a stub makes no difference, however the file goes on. */
  lemma StubExact(lex: Lexicon, before: seq<string>, stub: seq<string>, eaten: seq<string>)
    requires Stub(stub) && BeforeFrames(FeedAll(lex, START, before), stub) && Item(eaten)
    ensures var st := FeedAll(lex, START, before);
            NoDifference(lex, before, stub, eaten) <==> NothingLost(st.db.frames, Shown(st.mode, eaten))
  {
    var st := FeedAll(lex, START, before);
    NothingLostMeansSame(st.(mode := Inside(Frames)), Shown(st.mode, eaten));
    if NothingLost(st.db.frames, Shown(st.mode, eaten)) {
      forall rest: seq<string>
        ensures Parse(lex, before + stub + eaten + rest) == Parse(lex, before + eaten + rest)
      {
        StubReadings(lex, before, stub, eaten, rest);
      }
    } else {
      StubHarmShows(lex, before, stub, eaten);
    }
  }

  /** When it does harm, ending the file or closing the section behind the swallowed lines shows it. */
  lemma StubHarmShows(lex: Lexicon, before: seq<string>, stub: seq<string>, eaten: seq<string>)
    requires Stub(stub) && BeforeFrames(FeedAll(lex, START, before), stub) && Item(eaten)
    requires var st := FeedAll(lex, START, before); !NothingLost(st.db.frames, Shown(st.mode, eaten))
    ensures var st := FeedAll(lex, START, before);
            var rest := if FirstHeader(Shown(st.mode, eaten)).None? then [] else ["}"];
            Parse(lex, before + stub + eaten + rest) != Parse(lex, before + eaten + rest)
  {
    var st := FeedAll(lex, START, before);
    var inside := st.(mode := Inside(Frames));
    var lines := Shown(st.mode, eaten);
    var rest := if FirstHeader(lines).None? then [] else ["}"];
    NothingLostMeansSame(inside, lines);
    StubReadings(lex, before, stub, eaten, rest);
    if rest != [] {
      ClosingSection(lex, inside);
      ClosingSection(lex, AfterItem(inside, lines));
    }
  }

  /** If no closing brace follows, the file does not parse with the stub and does not parse without it. */
  lemma StubNeverClosed(lex: Lexicon, before: seq<string>, stub: seq<string>, after: seq<string>)
    requires Stub(stub) && BeforeFrames(FeedAll(lex, START, before), stub) && Unclosed(after)
    ensures Parse(lex, before + stub + after).None? && Parse(lex, before + after).None?
  {
    var st := FeedAll(lex, START, before);
    NeverClosed(lex, st, stub + after);
    NeverClosed(lex, st, after);
    FeedAllConcat(lex, START, before, stub + after);
    assert before + stub + after == before + (stub + after);
    FeedAllConcat(lex, START, before, after);
  }

  /** The next frame of the section is silently lost with the stub, while the file still parses. */
  lemma NextFrameIsSwallowed(lex: Lexicon, before: seq<string>, stub: seq<string>, eaten: seq<string>, f: Frame)
    requires FeedAll(lex, START, before).mode == Inside(Frames)
    requires Stub(stub) && Item(eaten) && Declared(eaten) == Some(f)
    ensures var db := FeedAll(lex, START, before).db;
            && Parse(lex, before + stub + eaten + ["}"]) == Some(db)
            && Parse(lex, before + eaten + ["}"]) == Some(db.(frames := db.frames[f.id := f]))
  {
    var st := FeedAll(lex, START, before);
    StubReadings(lex, before, stub, eaten, ["}"]);
    assert st.(mode := Inside(Frames)) == st;
    ClosingSection(lex, st);
    ClosingSection(lex, AfterItem(st, eaten));
  }

  // ---------- Definitions on a single line ----------

  lemma Int64HasNoBrace(s: string, base: nat)
    requires '{' in s
    ensures ParseInt64(s, base).None?
  {
    var i: nat :| i < |s| && s[i] == '{';
    if i == 0 {
      WrongDigitFails(s, base, 0);
    } else {
      WrongCharacterFails(s, base, i);
    }
  }

  lemma NumeralHasNoBrace(text: string)
    requires '{' in text
    ensures ParseInt(text).None?
  {
    var t := TrimSpace(text);
    LdfSpacing.TrimLeftKeeps(text, '{');
    LdfSpacing.TrimRightKeeps(TrimLeft(text), '{');
    assert HasSuffix(t, ";") ==> t == t[..|t| - 1] + ";";
    var s := TrimSuffix(t, ";");
    assert '{' in s;
    assert HasPrefix(s, "0x") || HasPrefix(s, "0X") ==> s == [s[0], s[1]] + s[2..];
    if HasPrefix(s, "0x") || HasPrefix(s, "0X") {
      Int64HasNoBrace(s[2..], 16);
    } else {
      Int64HasNoBrace(s, 10);
    }
  }

  /** A definition with text behind its brace: the length field then holds the brace. */
  predicate OneLineDefinition(line: string, name: string, fields: seq<string>) {
    && ':' !in name && |fields| >= 3 && LdfSpacing.NoCommas(fields) && '{' in fields[2]
    && line == name + ":" + Joined(fields)
    && !IsSpace(line[|line| - 1]) && line[|line| - 1] != '{'
  }

  lemma OneLineStripped(line: string, name: string, body: string)
    requires line == name + ":" + body && |body| > 0
    requires !IsSpace(body[|body| - 1]) && body[|body| - 1] != '{'
    ensures TrimSpace(TrimSuffix(TrimSpace(line), "{")) == TrimLeft(name) + ":" + body
  {
    var text := TrimLeft(name) + ":" + body;
    LdfSpacing.TrimLeftStops(name, ':', body);
    assert text[|text| - 1] == body[|body| - 1];
    assert TrimRight(text) == text;
    assert !HasSuffix(text, "{") by {
      assert text[|text| - 1..] == [text[|text| - 1]];
    }
    LdfSpacing.TrimLeftTwice(name);
    LdfSpacing.TrimLeftStops(TrimLeft(name), ':', body);
  }

  lemma OneLineParts(line: string, name: string, fields: seq<string>) returns (edged: seq<string>)
    requires OneLineDefinition(line, name, fields)
    ensures |edged| == |fields| && LdfSpacing.Trims(edged) == LdfSpacing.Trims(fields)
    ensures ParseFrameHeader(line) == HeaderOf(TrimSpace(name), edged)
  {
    var body := Joined(fields);
    BraceInJoined(fields, 2);
    assert line[|line| - 1] == body[|body| - 1];
    OneLineStripped(line, name, body);
    LdfSpacing.ColonAt(name, body);
    LdfSpacing.TrimAfterLeft(name);
    edged := LdfSpacing.TrimJoined(fields);
    LdfSpacing.SplitFields(edged);
  }

  /** Such a definition is rejected, and has no closing line of its own. */
  lemma OneLineDefinitionIsAStub(line: string, name: string, fields: seq<string>)
    requires OneLineDefinition(line, name, fields)
    ensures Stub([line])
  {
    var edged := OneLineParts(line, name, fields);
    assert TrimSpace(edged[2]) == LdfSpacing.Trims(edged)[2] == LdfSpacing.Trims(fields)[2] == TrimSpace(fields[2]);
    LdfSpacing.TrimLeftKeeps(fields[2], '{');
    LdfSpacing.TrimRightKeeps(TrimLeft(fields[2]), '{');
    NumeralHasNoBrace(TrimSpace(fields[2]));
    BraceInJoined(fields, 2);
    assert line[|name|] == ':';
  }

  lemma {:induction false} BraceInJoined(fields: seq<string>, i: nat)
    requires i < |fields| && '{' in fields[i]
    ensures '{' in Joined(fields)
  {
    if i > 0 {
      BraceInJoined(fields[1..], i - 1);
    }
  }

  /** For instance. */
  lemma OneLineExample(line: string, fields: seq<string>)
    requires line == "F:1,M,2{}" && fields == ["1", "M", "2{}"]
    ensures Stub([line])
  {
    assert Joined(fields[1..]) == "M,2{}" by {
      assert fields[1..][1..] == ["2{}"];
    }
    assert Joined(fields) == "1,M,2{}";
    OneLineDefinitionIsAStub(line, "F", fields);
  }
}
