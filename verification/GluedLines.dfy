/** Lines of a JSON-lines file onto which a later record was written: what such a
    line is read as, and what the file holds after appends whose healing line
    break may be lost. */
module GluedLines {
  import opened ControlScan
  import opened JsonLines
  import opened JsonText
  import opened Options
  import opened Seqs
  import opened Utf8

  // ----- lines that can never become a record ------------------------------------------

  /** The text of an object whose first member has a plain name: what JSON.stringify
      prints for a record with fixed fields. */
  predicate Named(s: string) { |s| > 2 && s[0] == '{' && s[1] == '"' && 'a' <= s[2] <= 'z' }

  /** The scanner is still inside the braces that the line starts with. */
  predicate Hangs(line: string) { Run(START, line).depth >= 1 }

  /** A string of the line ends before a character that cannot follow a string. */
  predicate IllClosed(line: string) { !WellClosed(line, false) }

  /** Another brace stands behind a whole object. */
  ghost predicate GoesOn(line: string) { exists v: Value, k: nat :: EndsBefore(line, v, k) }

  ghost predicate EndsBefore(line: string, v: Value, k: nat) { k < |line| && IsObjectText(v, line[..k]) && line[k] == '{' }

  /** No JSON text, and none with records written behind it. */
  ghost predicate Dead(line: string) {
    line != "" && line[0] == '{' && '\n' !in line && (Hangs(line) || IllClosed(line) || GoesOn(line))
  }

  /** An object text is closed exactly at its end. */
  lemma ObjectTexts(v: Value, w: Value, a: string, b: string)
    requires IsObjectText(v, a) && IsObjectText(w, b) && a <= b
    ensures a == b
  {
    if |a| < |b| {
      assert b[..|a|] == a;
      CutObjectIsOpen(w, |a|);
      ValueNeutral(START, v);
    }
  }

  lemma DeadIsNoJson(line: string)
    requires Dead(line)
    ensures !IsJsonText(line)
  {
    if IsJsonText(line) {
      JsonTextIsBalanced(line);
      JsonTextIsFixed(line);
      FixedExactlyWhenWellClosed(line, false);
      JsonTextEnds(line);
    }
  }

  lemma JsonTextEnds(line: string)
    requires IsJsonText(line) && line != "" && line[0] == '{'
    ensures !GoesOn(line)
  {
    var pre, w, post :| IsPadded(line, pre, w, post);
    forall v: Value, k: nat ensures !EndsBefore(line, v, k) {
      if k < |line| && IsObjectText(v, line[..k]) {
        BehindTheObject(line, v, k, pre, w, post);
        assert line[k] == post[0];
      }
    }
  }

  /** Nothing but white space stands behind the object of a JSON text. */
  lemma BehindTheObject(line: string, v: Value, k: nat, pre: string, w: Value, post: string)
    requires line != "" && line[0] == '{' && IsPadded(line, pre, w, post)
    requires k <= |line| && IsObjectText(v, line[..k])
    ensures k == |Text(w)| && line == Text(w) + post
  {
    var text := Text(w);
    if pre != "" {
      PadFirst(pre, text + post);
    }
    StartsAsItIs(w);
    assert line == text + post;
    assert text[0] == line[0];
    assert IsObjectText(w, text);
    if k <= |text| {
      assert line[..k] <= text;
      ObjectTexts(v, w, line[..k], text);
    } else {
      assert text <= line[..k];
      ObjectTexts(w, v, text, line[..k]);
    }
  }

  lemma PadFirst(pre: string, rest: string)
    requires AllWs(pre) && pre != ""
    ensures IsWs((pre + rest)[0])
  {
    assert (pre + rest)[0] == pre[0];
  }

  /** Only objects start with a brace. */
  lemma StartsAsItIs(w: Value)
    requires Valid(w)
    ensures Text(w) != "" && (Text(w)[0] == '{' ==> w.Obj?)
  {
    match w
    case Atom(t) => assert AtomChar(t[0]);
    case Str(cs) =>
    case Arr(pad, es) =>
    case Obj(pad, ms) =>
  }

  // ----- trimming leaves them what they are -----------------------------------------------

  predicate AllSpace(s: string) { forall i :: 0 <= i < |s| ==> IsSpace(s[i]) }

  lemma {:induction false} TrimmedIsSpace(s: string)
    ensures TrimEnd(s) <= s && AllSpace(s[|TrimEnd(s)|..])
    decreases |s|
  {
    if s != "" && IsSpace(s[|s| - 1]) {
      TrimmedIsSpace(s[..|s| - 1]);
    }
  }

  lemma {:induction false} DepthThroughSpace(s: Scan, space: string)
    requires AllSpace(space)
    ensures Run(s, space).depth == s.depth
    decreases |space|
  {
    if space != "" {
      DepthThroughSpace(Step(s, space[0]), space[1..]);
    }
  }

  lemma {:induction false} ClosesAtSpace(space: string)
    requires AllSpace(space)
    ensures Closes(space)
    decreases |space|
  {
    if space != "" {
      ClosesAtSpace(space[1..]);
    }
  }

  lemma {:induction false} SpaceIsWellClosed(space: string, inString: bool)
    requires AllSpace(space)
    ensures WellClosed(space, inString)
    decreases |space|
  {
    if space != "" {
      SpaceIsWellClosed(space[1..], inString);
    }
  }

  lemma {:induction false} ClosesBeforeSpace(s: string, space: string)
    requires Closes(s) && AllSpace(space)
    ensures Closes(s + space)
    decreases |s|
  {
    if s == "" {
      assert s + space == space;
      ClosesAtSpace(space);
    } else {
      assert (s + space)[1..] == s[1..] + space;
      if IsSpace(s[0]) {
        ClosesBeforeSpace(s[1..], space);
      }
    }
  }

  lemma {:induction false} WellClosedBeforeSpace(s: string, space: string, inString: bool)
    requires WellClosed(s, inString) && AllSpace(space)
    ensures WellClosed(s + space, inString)
    decreases |s|
  {
    var t := s + space;
    if s == "" {
      assert t == space;
      SpaceIsWellClosed(space, inString);
    } else {
      assert t[1..] == s[1..] + space;
      if !inString {
        WellClosedBeforeSpace(s[1..], space, s[0] == '"');
      } else if s[0] == '\\' {
        if |s| == 1 {
          assert t[1..] == space;
          assert |t| > 1 ==> t[2..] == space[1..];
          if |t| > 1 {
            SpaceIsWellClosed(space[1..], true);
          }
        } else {
          assert t[2..] == s[2..] + space;
          WellClosedBeforeSpace(s[2..], space, true);
        }
      } else if s[0] != '"' {
        WellClosedBeforeSpace(s[1..], space, true);
      } else {
        ClosesBeforeSpace(s[1..], space);
        WellClosedBeforeSpace(s[1..], space, false);
      }
    }
  }

  lemma SpaceBehind(t: string, space: string, k: nat)
    requires AllSpace(space) && |t| <= k < |t| + |space|
    ensures IsSpace((t + space)[k])
  {
    assert (t + space)[k] == space[k - |t|];
  }

  lemma TrimmedStaysDead(line: string)
    requires Dead(line)
    ensures Dead(TrimEnd(line)) && Trim(line) == TrimEnd(line)
  {
    TrimmedIsSpace(line);
    TrimEndIsPrefix(line);
    var t := TrimEnd(line);
    var space := line[|t|..];
    assert line == t + space;
    RunConcat(START, t, space);
    DepthThroughSpace(Run(START, t), space);
    if WellClosed(t, false) {
      WellClosedBeforeSpace(t, space, false);
    }
    if v: Value, k: nat :| EndsBefore(line, v, k) {
      if k >= |t| {
        SpaceBehind(t, space, k);
      }
      assert t[..k] == line[..k];
      assert EndsBefore(t, v, k);
    }
  }

  /** A dead line is read as nothing, trimmed or not. */
  lemma DeadReadsNothing<E(!new)>(c: Codec<E>, line: string)
    requires Sound(c) && Dead(line)
    ensures ParseLine(c, line).None?
  {
    TrimmedStaysDead(line);
    DeadIsNoJson(TrimEnd(line));
  }

  // ----- what is written behind a line -------------------------------------------------------

  lemma {:induction false} EscapesInside(s: Scan, text: string)
    requires s.escape ==> s.inString
    ensures Run(s, text).escape ==> Run(s, text).inString
    decreases |text|
  {
    if text != "" {
      EscapesInside(Step(s, text[0]), text[1..]);
    }
  }

  /** A text is well closed behind what has been scanned of it. */
  lemma {:induction false} WellClosedBehind(s: Scan, text: string, after: string)
    requires !s.escape && WellClosed(text + after, s.inString) && after != ""
    ensures var t := Run(s, text); if t.escape then WellClosed(after[1..], true) else WellClosed(after, t.inString)
    decreases |text|
  {
    var all := text + after;
    if text == "" {
      assert all == after;
    } else {
      var next := Step(s, text[0]);
      assert all[1..] == text[1..] + after;
      if next.escape {
        if |text| == 1 {
          assert text[1..] == "" && all[2..] == after[1..];
        } else {
          assert text[1..][1..] == text[2..] && all[2..] == text[2..] + after;
          WellClosedBehind(s, text[2..], after);
        }
      } else {
        WellClosedBehind(next, text[1..], after);
      }
    }
  }

  /** A name that starts behind an open string closes it in front of a letter. */
  lemma NameClosesString(line: string, part: string)
    requires Run(START, line).inString && Named(part)
    ensures IllClosed(line + part)
  {
    assert part[1..][0] == '"' && part[1..][1..] == part[2..];
    if WellClosed(line + part, false) {
      WellClosedBehind(START, line, part);
    }
  }

  lemma {:induction false} ClosesMonotone(a: string, b: string)
    requires Closes(a + b)
    ensures Closes(a)
    decreases |a|
  {
    if a != "" {
      assert (a + b)[1..] == a[1..] + b;
      if IsSpace(a[0]) {
        ClosesMonotone(a[1..], b);
      }
    }
  }

  /** An ill-closed line stays so. */
  lemma {:induction false} IllClosedStays(a: string, b: string, inString: bool)
    requires WellClosed(a + b, inString)
    ensures WellClosed(a, inString)
    decreases |a|
  {
    var t := a + b;
    if a != "" {
      assert t[1..] == a[1..] + b;
      if !inString {
        IllClosedStays(a[1..], b, a[0] == '"');
      } else if a[0] == '\\' {
        if |a| > 1 {
          assert t[2..] == a[2..] + b;
          IllClosedStays(a[2..], b, true);
        }
      } else if a[0] != '"' {
        IllClosedStays(a[1..], b, true);
      } else {
        ClosesMonotone(a[1..], b);
        IllClosedStays(a[1..], b, false);
      }
    }
  }

  lemma GoesOnStill(line: string, part: string)
    requires GoesOn(line)
    ensures GoesOn(line + part)
  {
    var v: Value, k: nat :| EndsBefore(line, v, k);
    assert (line + part)[..k] == line[..k] && (line + part)[k] == line[k];
    assert EndsBefore(line + part, v, k);
  }

  /** Outside strings the scanner comes out of a piece of an object at least as deep. */
  lemma PieceKeepsDepth(s: Scan, v: Value, full: string, part: string, k: nat)
    requires IsObjectText(v, full) && IsPartOf(part, full, k) && Outside(s)
    ensures Run(s, part).depth >= s.depth
  {
    ValueNeutral(s, v);
    StaysMeansEveryPrefix(s, full, s.depth, k);
    if part != full[..k] {
      RunConcat(s, full[..k], [REPLACEMENT]);
      assert [REPLACEMENT][1..] == "";
    }
  }

  /** Two characters of a piece are a brace and a quote. */
  lemma ShortPiece(s: Scan, full: string, part: string, k: nat)
    requires Named(full) && IsPartOf(part, full, k) && part != "" && s.inString && (!Named(part))
    ensures Run(s, part).depth == s.depth
  {
    assert part == "{" || part == "{\"";
    assert "{"[1..] == "" && "{\""[1..] == "\"" && "\""[1..] == "";
  }

  lemma HangingStaysDead(line: string, v: Value, full: string, part: string, k: nat)
    requires Hangs(line) && IsObjectText(v, full) && Named(full) && IsPartOf(part, full, k) && part != ""
    ensures Hangs(line + part) || IllClosed(line + part)
  {
    var s := Run(START, line);
    RunConcat(START, line, part);
    EscapesInside(START, line);
    if !s.inString {
      PieceKeepsDepth(s, v, full, part, k);
    } else if Named(part) {
      NameClosesString(line, part);
    } else {
      ShortPiece(s, full, part, k);
    }
  }

  /** Whatever is written behind a dead line, it stays dead. */
  lemma DeadStaysDead(line: string, v: Value, full: string, part: string, k: nat)
    requires Dead(line) && IsObjectText(v, full) && '\n' !in full && Named(full) && IsPartOf(part, full, k) && part != ""
    ensures Dead(line + part)
  {
    if Hangs(line) {
      HangingStaysDead(line, v, full, part, k);
    } else if IllClosed(line) {
      if WellClosed(line + part, false) {
        IllClosedStays(line, part, false);
      }
    } else {
      GoesOnStill(line, part);
    }
  }

  /** A record behind a whole one makes both unreadable. */
  lemma WholeAndMoreIsDead(v: Value, line: string, full: string, part: string, k: nat)
    requires IsObjectText(v, line) && '\n' !in line && '\n' !in full && Named(full) && IsPartOf(part, full, k) && part != ""
    ensures Dead(line + part)
  {
    assert (line + part)[..|line|] == line;
    assert part[0] == '{';
    assert EndsBefore(line + part, v, |line|);
  }

  /** What is left of a record that was cut is dead. */
  lemma CutIsDead(v: Value, full: string, part: string, k: nat)
    requires IsObjectText(v, full) && '\n' !in full && Named(full) && IsPartOf(part, full, k) && part != "" && part != full
    ensures Dead(part)
  {
    assert k > 0;
    TakeAll(full);
    CutObjectIsOpen(v, k);
    if part != full[..k] {
      RunConcat(START, full[..k], [REPLACEMENT]);
      assert [REPLACEMENT][1..] == "";
    }
  }

  // ----- appends of two writes ------------------------------------------------------------

  /** What becomes of an append: whether the line break that heals an unclean end
      was written, and how the write of the line went. */
  datatype Write = Write(heal: bool, fate: Fate)

  /** How a file ends: in a line break or empty, in a whole record, or in anything
      else. */
  datatype Edge = Clean | Loose | Ragged

  /** What matters of a file: the records read from it, and its end. */
  datatype Journal<E> = Journal(rows: seq<E>, edge: Edge)

  function JournalOf<E>(c: Codec<E>, file: string): Journal<E> {
    Journal(Read(c, file),
      if EndsClean(file) then Clean else if ParseLine(c, Tail(Split(file))).Some? then Loose else Ragged)
  }

  function Healed(file: string, w: Write): string { if !EndsClean(file) && w.heal then file + "\n" else file }

  /** The text of a file after an append, each of its writes cut at any byte. */
  function AppendLine(file: string, line: string, w: Write): string { Healed(file, w) + Landed(line + "\n", w.fate) }

  /** How many bytes of a line of `size` bytes and its line break were written. */
  function Bytes(size: nat, fate: Fate): nat { if fate == Written then size + 1 else fate.n }

  /** The record is read exactly when its line starts clean and all its bytes were
      written. A line written behind an unclean end is lost, and takes a whole
      record there with it. */
  function Land<E>(j: Journal<E>, e: E, size: nat, fate: Fate): Journal<E> {
    var n := Bytes(size, fate);
    if n == 0 then j
    else if !j.edge.Clean? then Journal(WithoutLoose(j), if n <= size then Ragged else Clean)
    else if n < size then Journal(j.rows, Ragged)
    else Journal(j.rows + [e], if n == size then Loose else Clean)
  }

  function WithoutLoose<E>(j: Journal<E>): seq<E> {
    if j.edge.Loose? && j.rows != [] then j.rows[..|j.rows| - 1] else j.rows
  }

  function Record<E>(j: Journal<E>, e: E, size: nat, w: Write): Journal<E> {
    Land(if w.heal then j.(edge := Clean) else j, e, size, w.fate)
  }

  ghost predicate RecordLines<E(!new)>(c: Codec<E>) { Sound(c) && forall e :: Named(c.stringify(e)) }

  ghost predicate IsRecord<E(!new)>(c: Codec<E>, line: string) { exists e :: line == c.stringify(e) }

  /** The last line is empty, a whole record, or dead. */
  ghost predicate EdgeOk<E(!new)>(c: Codec<E>, file: string) {
    var t := Tail(Split(file)); t == "" || IsRecord(c, t) || Dead(t)
  }

  lemma LineOf<E(!new)>(c: Codec<E>, e: E) returns (v: Value)
    requires RecordLines(c)
    ensures var line := c.stringify(e);
      IsObjectText(v, line) && '\n' !in line && Named(line) && line[|line| - 1] == '}' && ParseLine(c, line) == Some(e)
  {
    SoundIsReliable(c);
    WholeLine(c, e);
    assert IsObjectLine(c.stringify(e));
    v :| IsObjectText(v, c.stringify(e));
  }

  lemma {:induction false} BreakIsAByte(s: string)
    ensures |Encode(s + "\n")| == |Encode(s)| + 1
    decreases |s|
  {
    if s == "" {
      assert "" + "\n" == "\n" && "\n"[1..] == "";
      assert Encode("\n") == EncodeChar('\n') + Encode("");
    } else {
      assert (s + "\n")[1..] == s[1..] + "\n";
      BreakIsAByte(s[1..]);
    }
  }

  /** What is left of a line, by the bytes of it that were written. */
  lemma LandedLine(line: string, fate: Fate) returns (k: nat)
    requires line != "" && line[|line| - 1] == '}'
    ensures var x, n, size := Landed(line + "\n", fate), Bytes(|Encode(line)|, fate), |Encode(line)|;
      && (n == 0 ==> x == "")
      && (0 < n < size ==> x != "" && x != line && IsPartOf(x, line, k))
      && (n == size ==> x == line)
      && (n > size ==> x == line + "\n")
  {
    var chunk, n := line + "\n", Bytes(|Encode(line)|, fate);
    BreakIsAByte(line);
    k := 0;
    if n > |Encode(line)| {
      if fate.Torn? {
        CutBeyond(chunk, n);
      }
    } else if n == |Encode(line)| {
      WholeLineRemains(line);
    } else if n > 0 {
      k := Whole(chunk, n);
      RemainsIsPart(chunk, n);
      WholeEnough(line, "\n", n);
      assert chunk[..k] == line[..k] && chunk[k] == line[k];
    }
  }

  lemma WholeLineRemains(line: string)
    ensures Remains(line + "\n", |Encode(line)|) == line
  {
    var chunk, n := line + "\n", |Encode(line)|;
    BreakIsAByte(line);
    WholeEnough(line, "\n", n);
    WholeEnough(chunk, "", n);
    assert chunk + "" == chunk;
    CutWhere(chunk, n);
    assert Whole(chunk, n) == |line| && chunk[|line|] == '\n';
    assert chunk[..|line|] == line && line + "" == line;
  }

  // ----- what the file holds after an append -----------------------------------------------

  lemma EdgeOfLine<E(!new)>(c: Codec<E>, init: seq<string>, line: string)
    requires RecordLines(c) && (line == "" || IsRecord(c, line) || Dead(line))
    ensures ReadLines(c, init + [line]) == ReadLines(c, init) + Optional(ParseLine(c, line))
    ensures ParseLine(c, line).Some? <==> IsRecord(c, line)
  {
    ReadLinesConcat(c, init, [line]);
    ReadOne(c, line);
    if Dead(line) {
      DeadReadsNothing(c, line);
    }
    if e :| line == c.stringify(e) {
      var v := LineOf(c, e);
    }
  }

  /** A file by its last line and the ones before. */
  function Closing<E>(c: Codec<E>, init: seq<string>, t: string): Journal<E> {
    Journal(ReadLines(c, init) + Optional(ParseLine(c, t)), if t == "" then Clean else if ParseLine(c, t).Some? then Loose else Ragged)
  }

  lemma JournalAt<E(!new)>(c: Codec<E>, file: string, init: seq<string>, t: string)
    requires RecordLines(c) && Split(file) == init + [t] && (t == "" || IsRecord(c, t) || Dead(t))
    ensures EdgeOk(c, file) && JournalOf(c, file) == Closing(c, init, t)
  {
    EdgeOfLine(c, init, t);
    CleanMeansEmptyTail(file);
  }

  lemma JournalByLines<E(!new)>(c: Codec<E>, file: string)
    requires RecordLines(c) && EdgeOk(c, file)
    ensures JournalOf(c, file) == Closing(c, Init(Split(file)), Tail(Split(file)))
  {
    Snoc(Split(file));
    JournalAt(c, file, Init(Split(file)), Tail(Split(file)));
  }

  lemma SplitBehind(file: string, x: string)
    requires '\n' !in x
    ensures Split(file + x) == Init(Split(file)) + [Tail(Split(file)) + x]
  {
    SplitConcat(file, x);
    SplitOneLine(x);
    assert [x][1..] == [];
  }

  lemma SplitBehindLine(file: string, line: string)
    requires '\n' !in line
    ensures Split(file + (line + "\n")) == Init(Split(file)) + [Tail(Split(file)) + line] + [""]
  {
    SplitConcat(file, line + "\n");
    SplitTerminated(line);
    assert [line, ""][1..] == [""];
  }

  lemma BlankReadsNothing<E>(c: Codec<E>)
    ensures ParseLine(c, "").None?
  {
  }

  lemma HealedJournal<E(!new)>(c: Codec<E>, file: string, w: Write)
    requires RecordLines(c) && EdgeOk(c, file)
    ensures var f := Healed(file, w);
      EdgeOk(c, f) && JournalOf(c, f) == if w.heal then JournalOf(c, file).(edge := Clean) else JournalOf(c, file)
  {
    if !EndsClean(file) && w.heal {
      GlueAtNewline(file, "");
      assert "\n" + "" == "\n" && Split("") == [""];
      JournalAt(c, file + "\n", Split(file), "");
      assert Read(c, file) + [] == Read(c, file);
    }
  }

  lemma CleanReads<E(!new)>(c: Codec<E>, file: string)
    requires RecordLines(c) && EndsClean(file)
    ensures Read(c, file) == ReadLines(c, Init(Split(file))) && Tail(Split(file)) == ""
  {
    var lines := Split(file);
    CleanMeansEmptyTail(file);
    Snoc(lines);
    EdgeOfLine(c, Init(lines), "");
    assert ReadLines(c, Init(lines)) + [] == ReadLines(c, Init(lines));
  }

  lemma BehindClean<E(!new)>(c: Codec<E>, file: string, x: string)
    requires RecordLines(c) && EndsClean(file) && '\n' !in x && (IsRecord(c, x) || Dead(x))
    ensures EdgeOk(c, file + x) && JournalOf(c, file + x) == Closing(c, Init(Split(file)), x)
  {
    CleanReads(c, file);
    SplitBehind(file, x);
    assert "" + x == x;
    JournalAt(c, file + x, Init(Split(file)), x);
  }

  /** A line, broken or whole, behind a clean end. */
  lemma LandsBroken<E(!new)>(c: Codec<E>, file: string, e: E, x: string, k: nat)
    requires RecordLines(c) && EndsClean(file) && x != "" && x != c.stringify(e) && IsPartOf(x, c.stringify(e), k)
    ensures EdgeOk(c, file + x) && JournalOf(c, file + x) == Journal(Read(c, file), Ragged)
  {
    var v := LineOf(c, e);
    CutIsDead(v, c.stringify(e), x, k);
    DeadReadsNothing(c, x);
    BehindClean(c, file, x);
    CleanReads(c, file);
    assert ReadLines(c, Init(Split(file))) + [] == ReadLines(c, Init(Split(file)));
  }

  lemma LandsWhole<E(!new)>(c: Codec<E>, file: string, e: E)
    requires RecordLines(c) && EndsClean(file)
    ensures var x := c.stringify(e); EdgeOk(c, file + x) && JournalOf(c, file + x) == Journal(Read(c, file) + [e], Loose)
  {
    var v := LineOf(c, e);
    BehindClean(c, file, c.stringify(e));
    CleanReads(c, file);
  }

  lemma LandsEnded<E(!new)>(c: Codec<E>, file: string, e: E)
    requires RecordLines(c) && EndsClean(file)
    ensures var x := c.stringify(e) + "\n"; EdgeOk(c, file + x) && JournalOf(c, file + x) == Journal(Read(c, file) + [e], Clean)
  {
    var init, line := Init(Split(file)), c.stringify(e);
    var v := LineOf(c, e);
    CleanReads(c, file);
    SplitBehindLine(file, line);
    assert "" + line == line;
    JournalAt(c, file + (line + "\n"), init + [line], "");
    EdgeOfLine(c, init, line);
    assert Read(c, file) + [e] + [] == Read(c, file) + [e];
  }

  /** What a line becomes behind an unclean end. */
  lemma GluedIsDead<E(!new)>(c: Codec<E>, t: string, e: E, x: string, k: nat)
    requires RecordLines(c) && (IsRecord(c, t) || Dead(t)) && x != "" && IsPartOf(x, c.stringify(e), k)
    ensures Dead(t + x)
  {
    var v := LineOf(c, e);
    if Dead(t) {
      DeadStaysDead(t, v, c.stringify(e), x, k);
    } else {
      var was :| t == c.stringify(was);
      var w := LineOf(c, was);
      WholeAndMoreIsDead(w, t, c.stringify(e), x, k);
    }
  }

  lemma UncleanReads<E(!new)>(c: Codec<E>, file: string)
    requires RecordLines(c) && EdgeOk(c, file) && !EndsClean(file)
    ensures Tail(Split(file)) != "" && ReadLines(c, Init(Split(file))) == WithoutLoose(JournalOf(c, file))
  {
    CleanMeansEmptyTail(file);
    JournalByLines(c, file);
    var init, t := Init(Split(file)), Tail(Split(file));
    assert ReadLines(c, init) + [] == ReadLines(c, init);
  }

  lemma GluesPart<E(!new)>(c: Codec<E>, file: string, e: E, x: string, k: nat)
    requires RecordLines(c) && EdgeOk(c, file) && !EndsClean(file) && x != "" && IsPartOf(x, c.stringify(e), k)
    ensures EdgeOk(c, file + x) && JournalOf(c, file + x) == Journal(WithoutLoose(JournalOf(c, file)), Ragged)
  {
    var init, t := Init(Split(file)), Tail(Split(file));
    UncleanReads(c, file);
    GluedIsDead(c, t, e, x, k);
    assert x[|x| - 1] == (t + x)[|t + x| - 1];
    NoBreakInPart(c, e, x, k);
    SplitBehind(file, x);
    JournalAt(c, file + x, init, t + x);
    DeadReadsNothing(c, t + x);
    assert ReadLines(c, init) + [] == ReadLines(c, init);
  }

  lemma NoBreakInPart<E(!new)>(c: Codec<E>, e: E, x: string, k: nat)
    requires RecordLines(c) && IsPartOf(x, c.stringify(e), k)
    ensures '\n' !in x
  {
    var v := LineOf(c, e);
  }

  lemma GluesLine<E(!new)>(c: Codec<E>, file: string, e: E)
    requires RecordLines(c) && EdgeOk(c, file) && !EndsClean(file)
    ensures var x := c.stringify(e) + "\n";
      EdgeOk(c, file + x) && JournalOf(c, file + x) == Journal(WithoutLoose(JournalOf(c, file)), Clean)
  {
    var init, t, line := Init(Split(file)), Tail(Split(file)), c.stringify(e);
    var v := LineOf(c, e);
    UncleanReads(c, file);
    TakeAll(line);
    GluedIsDead(c, t, e, line, |line|);
    SplitBehindLine(file, line);
    JournalAt(c, file + (line + "\n"), init + [t + line], "");
    EdgeOfLine(c, init, t + line);
    DeadReadsNothing(c, t + line);
    assert ReadLines(c, init) + [] == ReadLines(c, init);
  }

  lemma LandIsRead<E(!new)>(c: Codec<E>, file: string, e: E, fate: Fate)
    requires RecordLines(c) && EdgeOk(c, file)
    ensures var line := c.stringify(e); var file' := file + Landed(line + "\n", fate);
      EdgeOk(c, file') && JournalOf(c, file') == Land(JournalOf(c, file), e, |Encode(line)|, fate)
  {
    var line := c.stringify(e);
    var v := LineOf(c, e);
    var k := LandedLine(line, fate);
    var x, n := Landed(line + "\n", fate), Bytes(|Encode(line)|, fate);
    if n == 0 {
      assert file + "" == file;
    } else if EndsClean(file) {
      if n < |Encode(line)| {
        LandsBroken(c, file, e, x, k);
      } else if n == |Encode(line)| {
        LandsWhole(c, file, e);
      } else {
        LandsEnded(c, file, e);
      }
    } else if n > |Encode(line)| {
      GluesLine(c, file, e);
    } else {
      TakeAll(line);
      GluesPart(c, file, e, x, if n < |Encode(line)| then k else |line|);
    }
  }

  /** An append of two writes, each cut at any byte, does to the file exactly what
      `Record` says: the record is read if and only if all its bytes were written
      and the file ended clean or was healed, and the earlier records stay, but for
      one without a line break that the new line was written behind. */
  lemma AppendIsRecorded<E(!new)>(c: Codec<E>, file: string, e: E, w: Write)
    requires RecordLines(c) && EdgeOk(c, file)
    ensures var line := c.stringify(e); var file' := AppendLine(file, line, w);
      EdgeOk(c, file') && JournalOf(c, file') == Record(JournalOf(c, file), e, |Encode(line)|, w)
  {
    HealedJournal(c, file, w);
    LandIsRead(c, Healed(file, w), e, w.fate);
  }

  /** The new record is readable. */
  predicate Lands(file: string, line: string, w: Write) {
    (EndsClean(file) || w.heal) && Bytes(|Encode(line)|, w.fate) >= |Encode(line)|
  }

  /** The line break was lost, and the line was written behind the unclean end. */
  predicate Glues(file: string, line: string, w: Write) {
    !EndsClean(file) && !w.heal && Bytes(|Encode(line)|, w.fate) > 0
  }

  /** What `Record` means for the reader. */
  lemma AppendReads<E(!new)>(c: Codec<E>, file: string, e: E, w: Write)
    requires RecordLines(c) && EdgeOk(c, file)
    ensures var line := c.stringify(e);
      && EdgeOk(c, AppendLine(file, line, w))
      && Read(c, AppendLine(file, line, w)) ==
        (if Glues(file, line, w) then WithoutLoose(JournalOf(c, file)) else Read(c, file)) + (if Lands(file, line, w) then [e] else [])
  {
    AppendIsRecorded(c, file, e, w);
    var v := LineOf(c, e);
    assert |Encode(c.stringify(e))| > 0;
    assert Read(c, file) + [] == Read(c, file) && WithoutLoose(JournalOf(c, file)) + [] == WithoutLoose(JournalOf(c, file));
  }

  /** A whole line behind an unclean end that could not be healed. */
  lemma GluedLine<E(!new)>(c: Codec<E>, file: string, e: E)
    requires RecordLines(c) && EdgeOk(c, file) && !EndsClean(file)
    ensures Read(c, AppendLine(file, c.stringify(e), Write(false, Written))) == WithoutLoose(JournalOf(c, file))
  {
    AppendIsRecorded(c, file, e, Write(false, Written));
  }

  /** It happens that a record written whole is lost: behind one that was torn after
      its first byte, when the healing line break could not be written. */
  lemma GluedRecordIsLost<E(!new)>(c: Codec<E>, torn: E, whole: E)
    requires RecordLines(c)
    ensures var file := AppendLine("", c.stringify(torn), Write(true, Torn(1)));
      Read(c, file) == [] && Read(c, AppendLine(file, c.stringify(whole), Write(false, Written))) == []
  {
    var v := LineOf(c, torn);
    EmptyFile(c);
    TwoBytes(c.stringify(torn));
    AppendIsRecorded(c, "", torn, Write(true, Torn(1)));
    GluedLine(c, AppendLine("", c.stringify(torn), Write(true, Torn(1))), whole);
  }

  /** And that it takes an earlier one with it: one that lacks its line break. */
  lemma LooseRecordIsLost<E(!new)>(c: Codec<E>, loose: E, whole: E)
    requires RecordLines(c)
    ensures var file := AppendLine("", c.stringify(loose), Write(true, Torn(|Encode(c.stringify(loose))|)));
      Read(c, file) == [loose] && Read(c, AppendLine(file, c.stringify(whole), Write(false, Written))) == []
  {
    var v := LineOf(c, loose);
    var w := Write(true, Torn(|Encode(c.stringify(loose))|));
    EmptyFile(c);
    TwoBytes(c.stringify(loose));
    AppendIsRecorded(c, "", loose, w);
    assert [] + [loose] == [loose] && [loose][..0] == [];
    GluedLine(c, AppendLine("", c.stringify(loose), w), whole);
  }

  lemma EmptyFile<E(!new)>(c: Codec<E>)
    requires RecordLines(c)
    ensures EdgeOk(c, "") && JournalOf(c, "") == Journal([], Clean)
  {
    ReadOne(c, "");
  }

  lemma TwoBytes(line: string)
    requires |line| > 1
    ensures |Encode(line)| > 1
  {
    assert Encode(line) == EncodeChar(line[0]) + Encode(line[1..]);
    assert Encode(line[1..]) == EncodeChar(line[1]) + Encode(line[1..][1..]);
  }
}
