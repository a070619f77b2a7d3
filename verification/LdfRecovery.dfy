/** What a rejected frame definition leaves behind, wherever in a Frames section it stands. */
module LdfRecovery {
  import opened Options
  import opened LdfText
  import opened LdfDatabase
  import opened LdfGrammar
  import Lin

  // ---------- At frame level ----------

  predicate Unclosed(lines: seq<string>) {
    forall i :: 0 <= i < |lines| ==> lines[i] != "}"
  }

  /** A frame definition whose header is rejected: the header, any body, the closing brace. */
  predicate RejectedBlock(block: seq<string>) {
    && |block| >= 2
    && '{' in block[0] && ParseFrameHeader(block[0]).None?
    && (forall i :: 1 <= i < |block| - 1 ==> block[i] != "}")
    && block[|block| - 1] == "}"
  }

  lemma {:induction false} SkippedLines(lex: Lexicon, st: State, body: seq<string>)
    requires st.mode.SkippedBody? && Unclosed(body)
    ensures FeedAll(lex, st, body) == st
  {
    if |body| > 0 {
      SkippedLines(lex, st, body[..|body| - 1]);
    }
  }

  /** The block's lines leave the frame level as it was. */
  lemma RejectedBlockIsSkipped(lex: Lexicon, st: State, block: seq<string>)
    requires RejectedBlock(block)
    requires st.mode == Inside(Frames) || (st.mode == Opening(Frames) && !HasPrefix(block[0], "{"))
    ensures FeedAll(lex, st, block) == st.(mode := Inside(Frames))
  {
    var n := |block| - 1;
    var skipping := st.(mode := SkippedBody);
    RejectedHeader(lex, st, block[0]);
    assert block == [block[0]] + block[1..n] + [block[n]];
    FeedAllConcat(lex, st, [block[0]] + block[1..n], [block[n]]);
    FeedAllConcat(lex, st, [block[0]], block[1..n]);
    OneLine(lex, st, block[0]);
    assert forall i :: 0 <= i < |block[1..n]| ==> block[1..n][i] == block[i + 1];
    SkippedLines(lex, skipping, block[1..n]);
    OneLine(lex, skipping, block[n]);
  }

  lemma RejectedHeader(lex: Lexicon, st: State, header: string)
    requires '{' in header && ParseFrameHeader(header).None?
    requires st.mode == Inside(Frames) || (st.mode == Opening(Frames) && !HasPrefix(header, "{"))
    ensures Feed(lex, st, header) == st.(mode := SkippedBody)
  {
    assert header != "}";
  }

  /** Inserting a rejected block at frame level changes nothing: same database, same success or failure. */
  lemma Resynchronisation(lex: Lexicon, before: seq<string>, block: seq<string>, after: seq<string>)
    requires FeedAll(lex, START, before).mode == Inside(Frames)
    requires RejectedBlock(block)
    ensures Parse(lex, before + block + after) == Parse(lex, before + after)
  {
    var st := FeedAll(lex, START, before);
    RejectedBlockIsSkipped(lex, st, block);
    FeedAllConcat(lex, START, before + block, after);
    FeedAllConcat(lex, START, before, block);
    FeedAllConcat(lex, START, before, after);
  }

  // ---------- Between the section keyword and its brace ----------

  /** Directly after the section keyword the same holds when neither the block nor what follows starts with a brace. */
  lemma ResynchronisationAfterKeyword(lex: Lexicon, before: seq<string>, block: seq<string>, after: seq<string>)
    requires FeedAll(lex, START, before).mode == Opening(Frames)
    requires RejectedBlock(block) && !HasPrefix(block[0], "{")
    requires |after| > 0 ==> !HasPrefix(after[0], "{")
    ensures Parse(lex, before + block + after) == Parse(lex, before + after)
  {
    var st := FeedAll(lex, START, before);
    RejectedBlockIsSkipped(lex, st, block);
    FeedAllConcat(lex, START, before + block, after);
    FeedAllConcat(lex, START, before, block);
    FeedAllConcat(lex, START, before, after);
    OpeningIsInside(lex, st, after);
  }

  /** Without a brace line it makes no difference whether the section was just opened. */
  lemma {:induction false} OpeningIsInside(lex: Lexicon, st: State, after: seq<string>)
    requires st.mode == Opening(Frames) && (|after| > 0 ==> !HasPrefix(after[0], "{"))
    ensures var st' := FeedAll(lex, st.(mode := Inside(Frames)), after);
            FeedAll(lex, st, after) == if |after| == 0 then st else st'
    ensures !FeedAll(lex, st.(mode := Inside(Frames)), []).mode.Top?
  {
    if |after| > 0 {
      var n := |after| - 1;
      if n > 0 {
        assert after[..n][0] == after[0];
      }
      OpeningIsInside(lex, st, after[..n]);
    }
  }

  // ---------- Up to the first closing brace ----------

  /** Lines up to and including the first closing brace. */
  predicate Item(lines: seq<string>) {
    |lines| > 0 && lines[|lines| - 1] == "}" && forall i :: 0 <= i < |lines| - 1 ==> lines[i] != "}"
  }

  /** The first line that opens a frame definition, well formed or not. */
  function FirstHeader(lines: seq<string>): (k: Option<nat>)
    ensures k.Some? ==> k.value < |lines| && '{' in lines[k.value]
    ensures k.Some? ==> forall i :: 0 <= i < k.value ==> '{' !in lines[i]
    ensures k.None? ==> forall i :: 0 <= i < |lines| ==> '{' !in lines[i]
  {
    if |lines| == 0 then None
    else if '{' in lines[0] then Some(0)
    else
      match FirstHeader(lines[1..])
      case None => None
      case Some(k) => Some(k + 1)
  }

  function WithBody(f: Frame, body: seq<string>): Frame {
    if |body| == 0 then f else FrameBodyLine(WithBody(f, body[..|body| - 1]), body[|body| - 1])
  }

  /** What the header in line k declares, with the references behind it. */
  function DeclaredAt(lines: seq<string>, k: nat): Option<Frame>
    requires k + 1 < |lines|
  {
    match ParseFrameHeader(lines[k])
    case None => None
    case Some(f) => Some(WithBody(f, lines[k + 1..|lines| - 1]))
  }

  /** The frame the lines declare: that of the first header, if it is accepted. */
  function Declared(lines: seq<string>): Option<Frame>
    requires Item(lines)
  {
    match FirstHeader(lines)
    case None => None
    case Some(k) => assert lines[|lines| - 1] == "}"; DeclaredAt(lines, k)
  }

  /** At frame level the lines end the section if none of them opens a frame, and else declare at most one frame. */
  function AfterItem(st: State, lines: seq<string>): State
    requires Item(lines)
  {
    if FirstHeader(lines).None? then st.(mode := Top)
    else
      match Declared(lines)
      case None => st.(mode := Inside(Frames))
      case Some(f) => State(Inside(Frames), st.db.(frames := st.db.frames[f.id := f]), st.searches)
  }

  lemma {:induction false} StrayLines(lex: Lexicon, st: State, lines: seq<string>)
    requires st.mode == Inside(Frames)
    requires forall i :: 0 <= i < |lines| ==> lines[i] != "}" && '{' !in lines[i]
    ensures FeedAll(lex, st, lines) == st
  {
    if |lines| > 0 {
      StrayLines(lex, st, lines[..|lines| - 1]);
    }
  }

  lemma {:induction false} BodyLines(lex: Lexicon, st: State, f: Frame, body: seq<string>)
    requires st.mode == FrameBody(f) && Unclosed(body)
    ensures FeedAll(lex, st, body) == st.(mode := FrameBody(WithBody(f, body)))
  {
    if |body| > 0 {
      BodyLines(lex, st, f, body[..|body| - 1]);
    }
  }

  lemma AcceptedBlock(lex: Lexicon, st: State, header: string, f: Frame, body: seq<string>)
    requires st.mode == Inside(Frames) && '{' in header && ParseFrameHeader(header) == Some(f)
    requires Unclosed(body)
    ensures var g := WithBody(f, body);
            FeedAll(lex, st, [header] + body + ["}"]) ==
            State(Inside(Frames), st.db.(frames := st.db.frames[g.id := g]), st.searches)
  {
    FeedHeader(lex, st, header, f);
    FeedAllConcat(lex, st, [header] + body, ["}"]);
    FeedAllConcat(lex, st, [header], body);
    OneLine(lex, st, header);
    BodyLines(lex, st.(mode := FrameBody(f)), f, body);
    ClosingBody(lex, st, WithBody(f, body));
  }

  lemma DeclaredAtOnce(lines: seq<string>)
    requires Item(lines) && '{' in lines[0]
    ensures FirstHeader(lines) == Some(0)
    ensures Declared(lines) ==
            match ParseFrameHeader(lines[0])
            case None => None
            case Some(f) => Some(WithBody(f, lines[1..|lines| - 1]))
  {
    FirstHeaderAt(lines, 0);
  }

  lemma CutBlock(lines: seq<string>)
    requires Item(lines) && '{' in lines[0]
    ensures |lines| >= 2 && lines == [lines[0]] + lines[1..|lines| - 1] + ["}"]
    ensures Unclosed(lines[1..|lines| - 1])
  {
    assert lines[|lines| - 1] == "}";
  }

  /** The effect of a block by what it declares. */
  lemma BlockEffect(st: State, lines: seq<string>, g: Option<Frame>)
    requires Item(lines) && FirstHeader(lines).Some? && Declared(lines) == g
    ensures AfterItem(st, lines) ==
            State(Inside(Frames),
                  st.db.(frames := if g.Some? then st.db.frames[g.value.id := g.value] else st.db.frames),
                  st.searches)
  {
  }

  lemma AcceptedReads(lex: Lexicon, st: State, lines: seq<string>, f: Frame)
    requires st.mode == Inside(Frames) && Item(lines) && '{' in lines[0] && ParseFrameHeader(lines[0]) == Some(f)
    ensures FeedAll(lex, st, lines) == AfterItem(st, lines)
  {
    CutBlock(lines);
    var header, body := lines[0], lines[1..|lines| - 1];
    var g := WithBody(f, body);
    DeclaredAtOnce(lines);
    AcceptedBlock(lex, st, header, f, body);
    BlockEffect(st, lines, Some(g));
  }

  lemma BlockReads(lex: Lexicon, st: State, lines: seq<string>)
    requires st.mode == Inside(Frames) && Item(lines) && '{' in lines[0]
    ensures FeedAll(lex, st, lines) == AfterItem(st, lines)
  {
    var header := ParseFrameHeader(lines[0]);
    if header.Some? {
      AcceptedReads(lex, st, lines, header.value);
    } else {
      DeclaredAtOnce(lines);
      RejectedBlockIsSkipped(lex, st, lines);
      BlockEffect(st, lines, None);
    }
  }

  lemma ClosingBody(lex: Lexicon, st: State, f: Frame)
    requires st.mode == Inside(Frames)
    ensures FeedAll(lex, st.(mode := FrameBody(f)), ["}"]) ==
            State(Inside(Frames), st.db.(frames := st.db.frames[f.id := f]), st.searches)
  {
    OneLine(lex, st.(mode := FrameBody(f)), "}");
  }

  lemma ClosingSection(lex: Lexicon, st: State)
    requires st.mode == Inside(Frames)
    ensures FeedAll(lex, st, ["}"]) == st.(mode := Top)
  {
    OneLine(lex, st, "}");
  }

  lemma FirstHeaderAt(lines: seq<string>, k: nat)
    requires k < |lines| && '{' in lines[k] && forall i :: 0 <= i < k ==> '{' !in lines[i]
    ensures FirstHeader(lines) == Some(k) && FirstHeader(lines[k..]) == Some(0)
  {
  }

  lemma SameHeader(lines: seq<string>, k: nat)
    requires k + 1 < |lines|
    ensures DeclaredAt(lines[k..], 0) == DeclaredAt(lines, k)
  {
    var tail := lines[k..];
    assert tail[0] == lines[k] && tail[1..|tail| - 1] == lines[k + 1..|lines| - 1];
  }

  lemma ItemBehind(lines: seq<string>, k: nat)
    requires Item(lines) && k < |lines|
    ensures Item(lines[k..])
  {
  }

  lemma DeclaredIs(lines: seq<string>, k: nat)
    requires Item(lines) && FirstHeader(lines) == Some(k)
    ensures k + 1 < |lines| && Declared(lines) == DeclaredAt(lines, k)
  {
    assert lines[|lines| - 1] == "}";
  }

  lemma DeclaredBehind(lines: seq<string>, k: nat)
    requires Item(lines) && FirstHeader(lines) == Some(k)
    ensures Item(lines[k..]) && '{' in lines[k..][0] && FirstHeader(lines[k..]) == Some(0)
    ensures Declared(lines[k..]) == Declared(lines)
  {
    ItemBehind(lines, k);
    FirstHeaderAt(lines, k);
    DeclaredIs(lines, k);
    DeclaredIs(lines[k..], 0);
    SameHeader(lines, k);
  }

  lemma ItemReads(lex: Lexicon, st: State, lines: seq<string>)
    requires st.mode == Inside(Frames) && Item(lines)
    ensures FeedAll(lex, st, lines) == AfterItem(st, lines)
  {
    var k := match FirstHeader(lines) case Some(k) => k case None => |lines| - 1;
    assert lines == lines[..k] + lines[k..];
    FeedAllConcat(lex, st, lines[..k], lines[k..]);
    StrayLines(lex, st, lines[..k]);
    if FirstHeader(lines).Some? {
      DeclaredBehind(lines, k);
      BlockReads(lex, st, lines[k..]);
    } else {
      assert lines[k..] == ["}"];
      ClosingSection(lex, st);
    }
  }

  // ---------- A block before the section's brace ----------

  predicate Stored(frames: map<Lin.uint8, Frame>, f: Frame) {
    f.id in frames && frames[f.id] == f
  }

  predicate SameDeclaration(frames: map<Lin.uint8, Frame>, f: Option<Frame>, g: Option<Frame>) {
    match (f, g)
    case (None, None) => true
    case (None, Some(y)) => Stored(frames, y)
    case (Some(x), None) => Stored(frames, x)
    case (Some(x), Some(y)) => x == y || (Stored(frames, x) && Stored(frames, y))
  }

  /** What follows the section's brace. */
  function Inner(eaten: seq<string>): (lines: seq<string>)
    requires Item(eaten) && HasPrefix(eaten[0], "{")
    ensures Item(lines)
  {
    assert eaten[0][0] == '{';
    eaten[1..]
  }

  /**
   * The lines from the brace to the first closing one are read as one frame definition when the block has used up the
   * section's opening, and as the inside of the section otherwise. That is the same when the inside starts a frame
   * definition too and both declare nothing new, or the same.
   */
  predicate Harmless(frames: map<Lin.uint8, Frame>, eaten: seq<string>)
    requires Item(eaten) && HasPrefix(eaten[0], "{")
  {
    && FirstHeader(Inner(eaten)).Some?
    && SameDeclaration(frames, Declared(eaten), Declared(Inner(eaten)))
  }

  lemma SameTables(frames: map<Lin.uint8, Frame>, x: Frame, y: Frame)
    ensures frames[x.id := x] == frames <==> Stored(frames, x)
    ensures frames[x.id := x] == frames[y.id := y] <==> x == y || (Stored(frames, x) && Stored(frames, y))
  {
    if frames[x.id := x] == frames {
      assert frames[x.id := x][x.id] == x;
    }
    if frames[x.id := x] == frames[y.id := y] {
      assert frames[x.id := x][x.id] == x && frames[y.id := y][y.id] == y;
      assert x.id in frames[y.id := y] && y.id in frames[x.id := x];
    }
  }

  lemma HarmlessMeansSame(st: State, eaten: seq<string>)
    requires st.mode == Inside(Frames) && Item(eaten) && HasPrefix(eaten[0], "{")
    ensures FirstHeader(eaten) == Some(0)
    ensures Harmless(st.db.frames, eaten) <==> AfterItem(st, eaten) == AfterItem(st, Inner(eaten))
  {
    assert eaten[0][0] == '{';
    FirstHeaderAt(eaten, 0);
    var frames := st.db.frames;
    var f, g := Declared(eaten), Declared(Inner(eaten));
    if f.Some? {
      SameTables(frames, f.value, if g.Some? then g.value else f.value);
    }
    if g.Some? {
      SameTables(frames, g.value, g.value);
    }
  }

  lemma BraceOpens(lex: Lexicon, st: State, lines: seq<string>)
    requires st.mode == Opening(Frames) && |lines| > 0 && HasPrefix(lines[0], "{")
    ensures FeedAll(lex, st, lines) == FeedAll(lex, st.(mode := Inside(Frames)), lines[1..])
  {
    assert lines == [lines[0]] + lines[1..];
    FeedAllConcat(lex, st, [lines[0]], lines[1..]);
    OneLine(lex, st, lines[0]);
  }

  /** Where the two files stand behind the first closing brace. */
  lemma BothReadings(lex: Lexicon, before: seq<string>, block: seq<string>, eaten: seq<string>, rest: seq<string>)
    requires FeedAll(lex, START, before).mode == Opening(Frames)
    requires RejectedBlock(block) && !HasPrefix(block[0], "{")
    requires Item(eaten) && HasPrefix(eaten[0], "{")
    ensures var inside := FeedAll(lex, START, before).(mode := Inside(Frames));
            && FeedAll(lex, START, before + block + eaten + rest) == FeedAll(lex, AfterItem(inside, eaten), rest)
            && FeedAll(lex, START, before + eaten + rest) == FeedAll(lex, AfterItem(inside, Inner(eaten)), rest)
  {
    var st := FeedAll(lex, START, before);
    var inside := st.(mode := Inside(Frames));
    RejectedBlockIsSkipped(lex, st, block);
    ItemReads(lex, inside, eaten);
    ItemReads(lex, inside, Inner(eaten));
    BraceOpens(lex, st, eaten);
    FeedAllConcat(lex, START, before, block);
    ReadOn(lex, START, before + block, inside, eaten, AfterItem(inside, eaten), rest);
    ReadOn(lex, START, before, st, eaten, AfterItem(inside, Inner(eaten)), rest);
  }

  /** The insertion makes no difference to the file, however it goes on. */
  ghost predicate NoDifference(lex: Lexicon, before: seq<string>, block: seq<string>, eaten: seq<string>) {
    forall rest: seq<string> :: Parse(lex, before + block + eaten + rest) == Parse(lex, before + eaten + rest)
  }

  /** The exact condition under which a block before the section's brace is harmless. */
  lemma InsertionBeforeBrace(lex: Lexicon, before: seq<string>, block: seq<string>, eaten: seq<string>)
    requires FeedAll(lex, START, before).mode == Opening(Frames)
    requires RejectedBlock(block) && !HasPrefix(block[0], "{")
    requires Item(eaten) && HasPrefix(eaten[0], "{")
    ensures NoDifference(lex, before, block, eaten) <==> Harmless(FeedAll(lex, START, before).db.frames, eaten)
  {
    var inside := FeedAll(lex, START, before).(mode := Inside(Frames));
    HarmlessMeansSame(inside, eaten);
    if Harmless(inside.db.frames, eaten) {
      forall rest: seq<string>
        ensures Parse(lex, before + block + eaten + rest) == Parse(lex, before + eaten + rest)
      {
        BothReadings(lex, before, block, eaten, rest);
      }
    } else {
      HarmShows(lex, before, block, eaten);
    }
  }

  /** When it does harm, ending the file or closing the section right there already shows it. */
  lemma HarmShows(lex: Lexicon, before: seq<string>, block: seq<string>, eaten: seq<string>)
    requires FeedAll(lex, START, before).mode == Opening(Frames)
    requires RejectedBlock(block) && !HasPrefix(block[0], "{")
    requires Item(eaten) && HasPrefix(eaten[0], "{")
    requires !Harmless(FeedAll(lex, START, before).db.frames, eaten)
    ensures var rest := if FirstHeader(Inner(eaten)).None? then [] else ["}"];
            Parse(lex, before + block + eaten + rest) != Parse(lex, before + eaten + rest)
  {
    var inside := FeedAll(lex, START, before).(mode := Inside(Frames));
    HarmlessMeansSame(inside, eaten);
    var rest := if FirstHeader(Inner(eaten)).None? then [] else ["}"];
    BothReadings(lex, before, block, eaten, rest);
    var x, y := AfterItem(inside, eaten), AfterItem(inside, Inner(eaten));
    if rest != [] {
      ClosingSection(lex, x);
      ClosingSection(lex, y);
    }
  }

  lemma BracedBlockReads(lex: Lexicon, st: State, block: seq<string>) returns (st': State)
    requires st.mode == Opening(Frames) && RejectedBlock(block) && HasPrefix(block[0], "{")
    ensures FeedAll(lex, st, block) == st' && (st'.mode == Top || st'.mode == Inside(Frames))
  {
    BraceOpens(lex, st, block);
    ItemReads(lex, st.(mode := Inside(Frames)), Inner(block));
    st' := AfterItem(st.(mode := Inside(Frames)), Inner(block));
  }

  /** A block whose own first line starts with a brace takes the place of the section's, and then never is harmless. */
  lemma BracedBlockShows(lex: Lexicon, before: seq<string>, block: seq<string>) returns (after: seq<string>)
    requires FeedAll(lex, START, before).mode == Opening(Frames)
    requires RejectedBlock(block) && HasPrefix(block[0], "{")
    ensures Parse(lex, before + block + after) != Parse(lex, before + after)
  {
    var st := FeedAll(lex, START, before);
    var st' := BracedBlockReads(lex, st, block);
    after := if st'.mode == Top then [] else ["{", "}"];
    ReadOn(lex, START, before, st, block, st', after);
    FeedAllConcat(lex, START, before, after);
    if after != [] {
      BracesApart(lex, st, st', after);
    }
  }

  lemma BracesApart(lex: Lexicon, opening: State, inside: State, braces: seq<string>)
    requires opening.mode == Opening(Frames) && inside.mode == Inside(Frames) && braces == ["{", "}"]
    ensures FeedAll(lex, opening, braces).mode == Top && FeedAll(lex, inside, braces).mode == Inside(Frames)
  {
    BracesFromOpening(lex, opening, braces);
    BracesAreABlock(braces);
    RejectedBlockIsSkipped(lex, inside, braces);
  }

  lemma BracesAreABlock(braces: seq<string>)
    requires braces == ["{", "}"]
    ensures RejectedBlock(braces)
  {
    BraceIsRejected(braces[0]);
  }

  lemma BracesFromOpening(lex: Lexicon, st: State, braces: seq<string>)
    requires st.mode == Opening(Frames) && braces == ["{", "}"]
    ensures FeedAll(lex, st, braces) == st.(mode := Top)
  {
    BraceOpens(lex, st, braces);
    assert braces[1..] == ["}"];
    ClosingSection(lex, st.(mode := Inside(Frames)));
  }

  // ---------- Files without a closing brace ----------

  lemma {:induction false} NeverClosed(lex: Lexicon, st: State, lines: seq<string>)
    requires InFrames(st.mode) && Unclosed(lines)
    ensures InFrames(FeedAll(lex, st, lines).mode)
  {
    if |lines| > 0 {
      NeverClosed(lex, st, lines[..|lines| - 1]);
    }
  }

  predicate InFrames(mode: Mode) {
    mode == Inside(Frames) || mode == Opening(Frames) || mode.FrameBody? || mode.SkippedBody?
  }

  /** If no closing brace follows, the file does not parse with the block and does not parse without it. */
  lemma NoBraceNoParse(lex: Lexicon, before: seq<string>, block: seq<string>, after: seq<string>)
    requires FeedAll(lex, START, before).mode == Opening(Frames)
    requires RejectedBlock(block) && !HasPrefix(block[0], "{")
    requires Unclosed(after)
    ensures Parse(lex, before + block + after).None? && Parse(lex, before + after).None?
  {
    var st := FeedAll(lex, START, before);
    RejectedBlockIsSkipped(lex, st, block);
    NeverClosed(lex, st, after);
    NeverClosed(lex, st.(mode := Inside(Frames)), after);
    FeedAllConcat(lex, START, before + block, after);
    FeedAllConcat(lex, START, before, block);
    FeedAllConcat(lex, START, before, after);
  }

  /** Everything else can be cut behind the first closing brace, so that the exact condition applies. */
  lemma {:induction false} CutAtBrace(after: seq<string>) returns (eaten: seq<string>, rest: seq<string>)
    requires !Unclosed(after)
    ensures after == eaten + rest && Item(eaten)
  {
    if after[0] == "}" {
      eaten, rest := after[..1], after[1..];
    } else {
      eaten, rest := CutAtBrace(after[1..]);
      eaten := [after[0]] + eaten;
    }
  }

  // ---------- Two ways the harm shows ----------

  /** The first frame of the section is silently lost, while the file still parses. */
  lemma FirstFrameIsSwallowed(lex: Lexicon, before: seq<string>, block: seq<string>, eaten: seq<string>, f: Frame)
    requires FeedAll(lex, START, before).mode == Opening(Frames)
    requires RejectedBlock(block) && !HasPrefix(block[0], "{")
    requires Item(eaten) && eaten[0] == "{" && Declared(Inner(eaten)) == Some(f)
    ensures var db := FeedAll(lex, START, before).db;
            && Parse(lex, before + block + eaten + ["}"]) == Some(db)
            && Parse(lex, before + eaten + ["}"]) == Some(db.(frames := db.frames[f.id := f]))
  {
    var inside := FeedAll(lex, START, before).(mode := Inside(Frames));
    BothReadings(lex, before, block, eaten, ["}"]);
    BraceDeclaresNothing(eaten);
    ClosingSection(lex, AfterItem(inside, eaten));
    ClosingSection(lex, AfterItem(inside, Inner(eaten)));
  }

  lemma BraceDeclaresNothing(eaten: seq<string>)
    requires Item(eaten) && eaten[0] == "{"
    ensures FirstHeader(eaten).Some? && Declared(eaten).None?
  {
    BraceIsRejected(eaten[0]);
    DeclaredAtOnce(eaten);
  }

  lemma BraceIsRejected(line: string)
    requires line == "{"
    ensures ParseFrameHeader(line).None?
  {
    assert TrimSuffix("{", "{") == "";
  }

  /** An empty section is lost together with the file. */
  lemma EmptySectionIsFatal(lex: Lexicon, before: seq<string>, block: seq<string>)
    requires FeedAll(lex, START, before).mode == Opening(Frames)
    requires RejectedBlock(block) && !HasPrefix(block[0], "{")
    ensures Parse(lex, before + ["{", "}"]).Some? && Parse(lex, before + block + ["{", "}"]).None?
  {
    var st := FeedAll(lex, START, before);
    var braces := ["{", "}"];
    RejectedBlockIsSkipped(lex, st, block);
    FeedAllConcat(lex, START, before, block);
    FeedAllConcat(lex, START, before, braces);
    FeedAllConcat(lex, START, before + block, braces);
    BracesFromOpening(lex, st, braces);
    BracesAreABlock(braces);
    RejectedBlockIsSkipped(lex, st.(mode := Inside(Frames)), braces);
  }
}
