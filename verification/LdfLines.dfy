/** What each kind of line means, whatever it says: accepted, ignored or rejected. */
module LdfLines {
  import opened Options
  import opened LdfText
  import opened LdfDatabase
  import opened LdfGrammar
  import opened LdfPrint
  import opened LdfSpacing
  import LdfRecovery
  import LdfRoundTrip
  import Lin
  import Signals

  // ---------- Values ----------

  /** One semicolon behind a number belongs to the line, not to the number. */
  lemma SemicolonIsIgnored(lex: Lexicon, s: string)
    requires Name(s)
    ensures ParseInt(s + ";") == ParseInt(s) && Unsigned(lex, s + ";") == Unsigned(lex, s)
  {
    PlainIsTight(s);
    Stripped(s, ';');
    NumeralIsBare(s);
  }

  /** A version without two quotation marks is empty. */
  lemma UnquotedIsEmpty(before: string, after: string)
    requires '"' !in before && '"' !in after
    ensures ExtractQuotedValue(before) == "" && ExtractQuotedValue(before + "\"" + after) == ""
  {
    IndexAt(before, '"', after);
    assert (before + "\"" + after)[|before| + 1..] == after;
  }

  // ---------- Section lines ----------

  lemma TrimmedAlike(a: seq<string>, b: seq<string>, i: nat)
    requires Trims(a) == Trims(b) && i < |a| == |b|
    ensures TrimSpace(a[i]) == TrimSpace(b[i])
  {
    assert Trims(a)[i] == Trims(b)[i];
  }

  /** A header is accepted for its first three fields, when the numbers are in range; further fields are ignored. */
  lemma HeaderMeans(line: string, name: string, fields: seq<string>)
    requires FieldLine(line, name, fields, '{') && |fields| >= 3
    ensures var id, length := ParseInt(TrimSpace(fields[0])), ParseInt(TrimSpace(fields[2]));
            ParseFrameHeader(line) ==
            if id.Some? && 0 <= id.value <= 0x3F && length.Some? && 0 <= length.value <= 8
            then Some(Frame(TrimSpace(name), id.value, TrimSpace(fields[1]), length.value, []))
            else None
  {
    var edged := HeaderParts(line, name, fields);
    TrimmedAlike(edged, fields, 0);
    TrimmedAlike(edged, fields, 1);
    TrimmedAlike(edged, fields, 2);
  }

  lemma BlankInFront(s: string)
    ensures TrimSpace(" " + s) == TrimSpace(s)
  {
    assert (" " + s)[1..] == s;
  }

  lemma BlankBehind(s: string)
    requires |s| > 0 && Tight(s)
    ensures TrimSpace(s + " ") == s
  {
    var t := s + " ";
    assert t[0] == s[0] && t[|t| - 1] == ' ' && IsSpace(' ') && t[..|t| - 1] == s;
    assert TrimLeft(t) == t && TrimRight(s) == s;
  }

  /** The usual layout, with a blank behind colon and commas and before the brace. */
  function UsualFields(nt: Notations, f: Frame): seq<string> {
    [" " + Written(nt, f.id), " " + f.publisher, " " + (Written(nt, f.length) + " ")]
  }

  lemma UsualLine(nt: Notations, f: Frame)
    requires LdfRoundTrip.PrintableFrame(f)
    ensures FieldLine(f.name + ":" + Joined(UsualFields(nt, f)) + "{", f.name, UsualFields(nt, f), '{')
  {
    PlainHasNo(f.name, ':');
    PlainHasNo(Written(nt, f.id), ',');
    PlainHasNo(f.publisher, ',');
    PlainHasNo(Written(nt, f.length), ',');
  }

  lemma UsualNumber(nt: Notations, i: int)
    requires Int64(i)
    ensures ParseInt(TrimSpace(" " + Written(nt, i))) == Some(i)
    ensures ParseInt(TrimSpace(" " + (Written(nt, i) + " "))) == Some(i)
  {
    PlainIsTight(Written(nt, i));
    WrittenParses(nt, i);
    BlankInFront(Written(nt, i));
    BlankInFront(Written(nt, i) + " ");
    BlankBehind(Written(nt, i));
  }

  /** A frame header in the usual layout, numbers in decimal or hexadecimal, is read as that frame. */
  lemma UsualHeaderReads(nt: Notations, f: Frame)
    requires LdfRoundTrip.PrintableFrame(f)
    ensures ParseFrameHeader(f.name + ":" + Joined(UsualFields(nt, f)) + "{") == Some(f.(signals := []))
  {
    UsualLine(nt, f);
    PlainIsTight(f.name);
    PlainIsTight(f.publisher);
    BlankInFront(f.publisher);
    UsualNumber(nt, f.id);
    UsualNumber(nt, f.length);
    HeaderMeans(f.name + ":" + Joined(UsualFields(nt, f)) + "{", f.name, UsualFields(nt, f));
  }

  lemma ShortHeaderIsRejected(line: string, name: string, fields: seq<string>)
    requires FieldLine(line, name, fields, '{') && |fields| < 3
    ensures ParseFrameHeader(line).None?
  {
    var edged := HeaderParts(line, name, fields);
  }

  /** The signal of a line with these fields: a width that cannot be read counts as 0. */
  function SignalIn(lex: Lexicon, name: string, fields: seq<string>): Signals.Signal
    requires |fields| >= 3
  {
    var width := ParseInt(TrimSpace(fields[0]));
    Signals.Signal(name, if width.Some? then width.value else 0, Unsigned(lex, TrimSpace(fields[1])),
                   TrimSpace(fields[2]), NonEmptyTrimmed(fields[3..]))
  }

  /** A signal line with three fields or more declares a signal, the others nothing. */
  lemma SignalMeans(lex: Lexicon, db: Database, line: string, name: string, fields: seq<string>)
    requires FieldLine(line, name, fields, ';')
    ensures SignalsLine(lex, db, line) ==
            if |fields| < 3 then db
            else db.(signals := db.signals[TrimSpace(name) := SignalIn(lex, TrimSpace(name), fields)])
  {
    var edged := SignalFieldsOf(line, name, fields);
    if |fields| >= 3 {
      CutSignal(lex, TrimSpace(name), fields, edged);
    }
  }

  lemma CutSignal(lex: Lexicon, name: string, fields: seq<string>, edged: seq<string>)
    requires |fields| == |edged| >= 3 && NoCommas(edged) && Trims(edged) == Trims(fields)
    ensures SignalOf(lex, name, Cut(edged, SIGNAL_FIELDS)) == SignalIn(lex, name, fields)
  {
    TrimmedAlike(edged, fields, 0);
    TrimmedAlike(edged, fields, 1);
    TrimmedAlike(edged, fields, 2);
    if |fields| > 3 {
      SubscribersOf(edged);
      assert Trims(edged[3..]) == Trims(edged)[3..] == Trims(fields)[3..] == Trims(fields[3..]);
      SameNames(edged[3..], fields[3..]);
    } else {
      assert fields[3..] == [];
    }
  }

  /** A reference counts when its offset is a number that is not negative. */
  lemma RefMeans(f: Frame, line: string, a: string, b: string)
    requires PairLine(line, a, b)
    ensures var offset := ParseInt(TrimSpace(b));
            FrameBodyLine(f, line) ==
            if offset.Some? && offset.value >= 0
            then f.(signals := f.signals + [Signals.SignalRef(TrimSpace(a), offset.value)])
            else f
  {
    RefOf(line, a, b);
  }

  // ---------- Schedule slots ----------

  /** The word delay in any case. */
  predicate IsDelay(w: string) {
    && |w| == 5 && (w[0] == 'd' || w[0] == 'D') && (w[1] == 'e' || w[1] == 'E') && (w[2] == 'l' || w[2] == 'L')
    && (w[3] == 'a' || w[3] == 'A') && (w[4] == 'y' || w[4] == 'Y')
  }

  lemma EitherCase(x: char, lower: char, upper: char)
    requires 'a' <= lower <= 'z' && upper == lower - 'a' + 'A'
    ensures Lower(x) == Lower(lower) <==> x == lower || x == upper
  {
  }

  lemma DelayInAnyCase(w: string, delay: string)
    requires delay == "delay"
    ensures EqualFold(w, delay) <==> IsDelay(w)
  {
    if |w| == 5 {
      EitherCase(w[0], 'd', 'D');
      EitherCase(w[1], 'e', 'E');
      EitherCase(w[2], 'l', 'L');
      EitherCase(w[3], 'a', 'A');
      EitherCase(w[4], 'y', 'Y');
      assert delay[0] == 'd' && delay[1] == 'e' && delay[2] == 'l' && delay[3] == 'a' && delay[4] == 'y';
    }
  }

  predicate IsSlot(words: seq<string>) {
    |words| >= 3 && !HasPrefix(words[0], "AssignFrameId") && IsDelay(words[1])
  }

  /** The name must be that of a stored frame, which may be any of that name; the delay wraps at 2^32. */
  predicate EntryFor(lex: Lexicon, db: Database, words: seq<string>, e: Option<Lin.ScheduleEntry>)
    requires |words| >= 3
  {
    if e.Some? then Named(db.frames, e.value.id, words[0]) && e.value.delayMs == Unsigned(lex, words[2]) % 0x1_0000_0000
    else forall id: Lin.uint8 :: !Named(db.frames, id, words[0])
  }

  lemma EntryMeans(lex: Lexicon, db: Database, searches: nat, words: seq<string>)
    requires Sound(db) && |words| >= 3
    ensures EntryFor(lex, db, words, SlotEntry(lex, db, searches, words))
  {
    SearchIsExact(db.frames, words[0], lex.searchHint(searches));
  }

  lemma SlotFeeds(lex: Lexicon, st: State, line: string, words: seq<string>)
    requires st.mode.TableBody? && line != "}" && |words| >= 3 && SlotFields(line) == Some(words)
    ensures var e := SlotEntry(lex, st.db, st.searches, words);
            var entries := st.mode.entries + (if e.Some? then [e.value] else []);
            Feed(lex, st, line) == State(TableBody(st.mode.table, entries), st.db, st.searches + 1)
  {
    if SlotEntry(lex, st.db, st.searches, words).None? {
      assert st.mode.entries + [] == st.mode.entries;
    }
  }

  /** A slot adds its entry, if its frame is known; every other line of a table says nothing. */
  lemma SlotMeans(lex: Lexicon, st: State, line: string, text: string) returns (e: Option<Lin.ScheduleEntry>)
    requires st.mode.TableBody? && Sound(st.db) && WordLine(line, text)
    ensures var words := Fields(text);
            if IsSlot(words) then
              && EntryFor(lex, st.db, words, e)
              && Feed(lex, st, line) ==
                 State(TableBody(st.mode.table, st.mode.entries + (if e.Some? then [e.value] else [])), st.db,
                       st.searches + 1)
            else
              Feed(lex, st, line) == st
  {
    var words := Fields(text);
    e := None;
    NotClosing(line, ';');
    SlotOf(line, text);
    if |words| >= 3 {
      DelayInAnyCase(words[1], "delay");
      if IsSlot(words) {
        e := SlotEntry(lex, st.db, st.searches, words);
        EntryMeans(lex, st.db, st.searches, words);
        SlotFeeds(lex, st, line, words);
      }
    }
  }

  // ---------- Outside the sections ----------

  predicate StartsLike(line: string, words: seq<string>) {
    exists i :: 0 <= i < |words| && HasPrefix(line, words[i])
  }

  /** Outside the sections a line that starts with none of the seven keywords says nothing. */
  lemma OtherLinesSayNothing(lex: Lexicon, st: State, line: string, words: seq<string>)
    requires st.mode.Top? && !StartsLike(line, words)
    requires words == ["LIN_protocol_version", "LIN_language_version", "LIN_speed", "Nodes", "Signals", "Frames",
                       "Schedule_tables"]
    ensures Feed(lex, st, line) == st
  {
    assert forall i :: 0 <= i < 7 ==> !HasPrefix(line, words[i]);
    assert words[0] == "LIN_protocol_version" && words[1] == "LIN_language_version" && words[2] == "LIN_speed";
    assert words[3] == "Nodes" && words[4] == "Signals" && words[5] == "Frames" && words[6] == "Schedule_tables";
  }

  // ---------- Where a file may end ----------

  /** Only a closing brace leads out of a section. */
  lemma {:induction false} OnlyBracesClose(lex: Lexicon, st: State, lines: seq<string>)
    requires !st.mode.Top? && forall i :: 0 <= i < |lines| ==> lines[i] != "}"
    ensures !FeedAll(lex, st, lines).mode.Top?
  {
    if |lines| > 0 {
      OnlyBracesClose(lex, st, lines[..|lines| - 1]);
    }
  }

  /** A file whose last section is not closed does not parse. */
  lemma UnclosedSectionFails(lex: Lexicon, before: seq<string>, after: seq<string>)
    requires !FeedAll(lex, START, before).mode.Top? && forall i :: 0 <= i < |after| ==> after[i] != "}"
    ensures Parse(lex, before + after).None?
  {
    FeedAllConcat(lex, START, before, after);
    OnlyBracesClose(lex, FeedAll(lex, START, before), after);
  }

  /** Each of the four sections, as soon as its keyword has been read. */
  lemma UnclosedKeywordFails(lex: Lexicon, before: seq<string>, section: Section, after: seq<string>)
    requires FeedAll(lex, START, before).mode.Top? && forall i :: 0 <= i < |after| ==> after[i] != "}"
    ensures Parse(lex, before + [LdfRoundTrip.Keyword(section)] + after).None?
  {
    var keyword := [LdfRoundTrip.Keyword(section)];
    FeedAllConcat(lex, START, before, keyword);
    LdfRoundTrip.KeywordReads(lex, FeedAll(lex, START, before), section);
    OneLine(lex, FeedAll(lex, START, before), keyword[0]);
    UnclosedSectionFails(lex, before + keyword, after);
  }
}
