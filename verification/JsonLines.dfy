/** Append-only files of one JSON object per line, where a write may be cut at
    any byte: what both the run-event log and the resume cache stand on. */
module JsonLines {
  import opened JsonText
  import opened Options
  import opened Seqs
  import opened Utf8

  /** JSON.stringify and JSON.parse, seen from this program. */
  datatype Codec<!E> = Codec(stringify: E -> string, parse: string -> Option<E>)

  /** What is relied on: a record prints as the text of one JSON object on one
      line, parsing gives it back, and only JSON texts parse. */
  ghost predicate Sound<E(!new)>(c: Codec<E>) {
    && (forall e :: IsObjectLine(c.stringify(e)) && c.parse(c.stringify(e)) == Some(e))
    && (forall s :: c.parse(s).Some? ==> IsJsonText(s))
  }

  ghost predicate IsObjectLine(s: string) {
    '\n' !in s && exists v :: IsObjectText(v, s)
  }

  ghost predicate IsObjectText(v: Value, s: string) { Valid(v) && v.Obj? && s == Text(v) }

  // ----- lines -------------------------------------------------------------

  /** `split("\n")`: never empty. */
  function Split(s: string): (lines: seq<string>)
    ensures |lines| > 0
    decreases |s|
  {
    if s == "" then [""]
    else if s[0] == '\n' then [""] + Split(s[1..])
    else Push(s[0], Split(s[1..]))
  }

  function Push(c: char, lines: seq<string>): (r: seq<string>)
    requires |lines| > 0
    ensures |r| == |lines|
  {
    [[c] + lines[0]] + lines[1..]
  }

  function Init(lines: seq<string>): seq<string>
    requires |lines| > 0
  {
    lines[..|lines| - 1]
  }

  function Tail(lines: seq<string>): string
    requires |lines| > 0
  {
    lines[|lines| - 1]
  }

  /** Two runs of lines, the last of one continued by the first of the other. */
  function Glue(a: seq<string>, b: seq<string>): (r: seq<string>)
    requires |a| > 0 && |b| > 0
    ensures |r| > 0
  {
    Init(a) + ([Tail(a) + b[0]] + b[1..])
  }

  lemma GluePush(c: char, a: seq<string>, b: seq<string>)
    requires |a| > 0 && |b| > 0
    ensures Glue(Push(c, a), b) == Push(c, Glue(a, b))
  {
    if |a| == 1 {
      assert Init(a) == [] && Init(Push(c, a)) == [];
      assert [c] + (a[0] + b[0]) == ([c] + a[0]) + b[0];
      assert Glue(a, b) == [a[0] + b[0]] + b[1..];
    } else {
      assert Tail(Push(c, a)) == Tail(a);
      assert Init(Push(c, a)) == [[c] + a[0]] + Init(a)[1..];
      assert Glue(a, b)[0] == a[0];
      assert Glue(a, b)[1..] == Init(a)[1..] + ([Tail(a) + b[0]] + b[1..]);
    }
  }

  lemma GlueCons(line: string, a: seq<string>, b: seq<string>)
    requires |a| > 0 && |b| > 0
    ensures Glue([line] + a, b) == [line] + Glue(a, b)
  {
    assert Init([line] + a) == [line] + Init(a);
  }

  /** Splitting a concatenation glues the two lines at the seam. */
  lemma {:induction false} SplitConcat(a: string, b: string)
    ensures Split(a + b) == Glue(Split(a), Split(b))
    decreases |a|
  {
    if a == "" {
      assert a + b == b;
      assert "" + Split(b)[0] == Split(b)[0];
      assert Init([""]) == [];
    } else {
      assert (a + b)[1..] == a[1..] + b;
      SplitConcat(a[1..], b);
      if a[0] == '\n' {
        GlueCons("", Split(a[1..]), Split(b));
      } else {
        GluePush(a[0], Split(a[1..]), Split(b));
      }
    }
  }

  lemma {:induction false} SplitOneLine(s: string)
    requires '\n' !in s
    ensures Split(s) == [s]
    decreases |s|
  {
    if s != "" {
      SplitOneLine(s[1..]);
      assert s == [s[0]] + s[1..];
    }
  }

  lemma SplitTerminated(line: string)
    requires '\n' !in line
    ensures Split(line + "\n") == [line, ""]
  {
    SplitOneLine(line);
    SplitConcat(line, "\n");
    assert "\n"[1..] == "" && Split("\n") == ["", ""];
    assert line + "" == line;
  }

  /** `fileEndsClean`: empty, or the last character ends a line. */
  predicate EndsClean(file: string) { file == "" || file[|file| - 1] == '\n' }

  lemma {:induction false} CleanMeansEmptyTail(file: string)
    ensures EndsClean(file) <==> Tail(Split(file)) == ""
    decreases |file|
  {
    if file != "" {
      CleanMeansEmptyTail(file[1..]);
      if |file| == 1 { assert file[1..] == ""; }
    }
  }

  // ----- trimming ----------------------------------------------------------

  function TrimEnd(s: string): string
    decreases |s|
  {
    if s != "" && IsSpace(s[|s| - 1]) then TrimEnd(s[..|s| - 1]) else s
  }

  function TrimStart(s: string): string
    decreases |s|
  {
    if s != "" && IsSpace(s[0]) then TrimStart(s[1..]) else s
  }

  function Trim(s: string): string { TrimStart(TrimEnd(s)) }

  lemma {:induction false} TrimEndIsPrefix(s: string)
    ensures TrimEnd(s) <= s
    ensures s != "" && !IsSpace(s[0]) ==> TrimEnd(s) != ""
    decreases |s|
  {
    if s != "" && IsSpace(s[|s| - 1]) {
      TrimEndIsPrefix(s[..|s| - 1]);
    }
  }

  // ----- reading -----------------------------------------------------------

  function ParseLine<E>(c: Codec<E>, line: string): Option<E> {
    if Trim(line) == "" then None else c.parse(Trim(line))
  }

  function Optional<E>(o: Option<E>): seq<E> { if o.None? then [] else [o.value] }

  function ReadLines<E>(c: Codec<E>, lines: seq<string>): seq<E> {
    if lines == [] then [] else Optional(ParseLine(c, lines[0])) + ReadLines(c, lines[1..])
  }

  function Read<E>(c: Codec<E>, file: string): seq<E> { ReadLines(c, Split(file)) }

  lemma {:induction false} ReadLinesConcat<E>(c: Codec<E>, a: seq<string>, b: seq<string>)
    ensures ReadLines(c, a + b) == ReadLines(c, a) + ReadLines(c, b)
    decreases |a|
  {
    if a == [] {
      assert a + b == b;
    } else {
      assert (a + b)[1..] == a[1..] + b;
      ReadLinesConcat(c, a[1..], b);
    }
  }

  lemma ReadOne<E>(c: Codec<E>, line: string)
    ensures ReadLines(c, [line]) == Optional(ParseLine(c, line))
  {
    assert [line][1..] == [];
  }

  /** One round of a reader's loop. */
  lemma ReadNext<E>(c: Codec<E>, lines: seq<string>, i: nat)
    requires i < |lines|
    ensures ReadLines(c, lines[..i + 1]) == ReadLines(c, lines[..i]) + Optional(ParseLine(c, lines[i]))
  {
    TakeSnoc(lines, i);
    ReadLinesConcat(c, lines[..i], [lines[i]]);
    ReadOne(c, lines[i]);
  }

  // ----- lines that were written whole or cut ------------------------------

  /** `line` is what some record prints as, cut after `k` characters or inside the
      next one. */
  ghost predicate IsPart<E(!new)>(c: Codec<E>, line: string, e: E, k: nat) {
    IsPartOf(line, c.stringify(e), k)
  }

  ghost predicate LineShape<E(!new)>(c: Codec<E>, line: string) {
    exists e, k :: IsPart(c, line, e, k)
  }

  /** Every line of the file is a record's text, or was cut out of one. */
  ghost predicate LogShape<E(!new)>(c: Codec<E>, lines: seq<string>) {
    forall i :: 0 <= i < |lines| ==> LineShape(c, lines[i])
  }

  /** How a line that starts with a record's text reads, trimmed or not. */
  ghost predicate ReadsAs<E>(c: Codec<E>, line: string, r: Option<E>) {
    ParseLine(c, line) == r && c.parse(line) == r && c.parse(TrimEnd(line)) == r
  }

  predicate Braced(s: string) { |s| > 1 && s[0] == '{' && s[|s| - 1] == '}' && '\n' !in s }

  /** What the logs need of the codec: a cut line never parses, a whole line
      parses to its record. */
  ghost predicate Reliable<E(!new)>(c: Codec<E>) {
    && (forall e :: Braced(c.stringify(e)))
    && (forall line, e, k :: IsPart(c, line, e, k) ==> ReadsAs(c, line, if line == c.stringify(e) then Some(e) else None))
  }

  /** It follows from the two facts about JSON. */
  lemma SoundIsReliable<E(!new)>(c: Codec<E>)
    requires Sound(c)
    ensures Reliable(c)
  {
    forall e ensures Braced(c.stringify(e)) {
      assert IsObjectLine(c.stringify(e));
      var v :| IsObjectText(v, c.stringify(e));
    }
    forall line, e, k: nat | IsPart(c, line, e, k) ensures ReadsAs(c, line, if line == c.stringify(e) then Some(e) else None) {
      PartParses(c, line, e, k);
    }
  }

  lemma PartParses<E(!new)>(c: Codec<E>, line: string, e: E, k: nat)
    requires Sound(c) && IsPart(c, line, e, k)
    ensures ReadsAs(c, line, if line == c.stringify(e) then Some(e) else None)
  {
    var full := c.stringify(e);
    assert IsObjectLine(full);
    var v :| IsObjectText(v, full);
    assert full[0] == '{' && full[|full| - 1] == '}';
    if line == full[..k] {
      CutParses(c, line, e, v, k);
    } else {
      BrokenParses(c, line, e, v, k);
    }
  }

  lemma BrokenParses<E(!new)>(c: Codec<E>, line: string, e: E, v: Value, k: nat)
    requires Sound(c) && IsObjectText(v, c.stringify(e)) && 0 < k < |c.stringify(e)| && line == c.stringify(e)[..k] + [REPLACEMENT]
    ensures ReadsAs(c, line, None) && line != c.stringify(e)
  {
    BrokenObjectIsNoJsonText(v, k, REPLACEMENT);
    assert line[k] == REPLACEMENT;
    assert TrimEnd(line) == line;
    var full := c.stringify(e);
    assert "" + (full + "") == full;
    assert IsPadded(full, "", v, "");
  }

  lemma CutParses<E(!new)>(c: Codec<E>, line: string, e: E, v: Value, k: nat)
    requires Sound(c) && IsObjectText(v, c.stringify(e)) && k <= |c.stringify(e)| && line == c.stringify(e)[..k]
    requires c.stringify(e)[0] == '{' && c.stringify(e)[|c.stringify(e)| - 1] == '}'
    ensures ReadsAs(c, line, if line == c.stringify(e) then Some(e) else None)
  {
    var full := c.stringify(e);
    TakeAll(full);
    TrimEndIsPrefix(line);
    if k < |full| {
      NoneOfCut(c, full, v, line, k);
      NoneOfCut(c, full, v, TrimEnd(line), |TrimEnd(line)|);
    }
  }

  lemma NoneOfCut<E(!new)>(c: Codec<E>, full: string, v: Value, cut: string, k: nat)
    requires Sound(c) && IsObjectText(v, full) && k < |full| && cut == full[..k]
    ensures c.parse(cut).None?
  {
    if k == 0 {
      if IsJsonText(cut) {
        var pre, w, post :| IsPadded(cut, pre, w, post);
        match w {
          case Atom(t) =>
          case Str(cs) =>
          case Arr(pad, es) =>
          case Obj(pad, ms) =>
        }
        assert |Text(w)| > 0;
        assert false;
      }
    } else {
      CutObjectIsNoJsonText(v, k);
    }
  }

  lemma EmptyLineShape<E(!new)>(c: Codec<E>, e: E)
    requires Reliable(c)
    ensures LineShape(c, "") && ParseLine(c, "").None? && c.parse("").None?
  {
    assert IsPart(c, "", e, 0);
    assert Braced(c.stringify(e));
  }

  lemma WholeLine<E(!new)>(c: Codec<E>, e: E)
    requires Reliable(c)
    ensures LineShape(c, c.stringify(e)) && ParseLine(c, c.stringify(e)) == Some(e)
  {
    TakeAll(c.stringify(e));
    assert IsPart(c, c.stringify(e), e, |c.stringify(e)|);
  }

  /** What is cut out of a cut line was cut out of its record. */
  lemma PartOfPart<E(!new)>(c: Codec<E>, line: string, part: string, k: nat)
    requires LineShape(c, line) && IsPartOf(part, line, k)
    ensures LineShape(c, part)
  {
    var e, n: nat :| IsPart(c, line, e, n);
    var full := c.stringify(e);
    if k <= n {
      assert k < n || part == line || line[..k] == full[..k];
      assert IsPart(c, part, e, if part == line then n else k);
    } else {
      TakeAll(line);
      assert IsPart(c, part, e, n);
    }
  }

  /** A shorter piece of a line is nobody's whole text. */
  lemma ShorterReadsNothing<E(!new)>(c: Codec<E>, line: string, part: string, k: nat)
    requires Reliable(c) && LineShape(c, line) && IsPartOf(part, line, k) && k < |line|
    ensures ParseLine(c, part).None?
  {
    var e, n: nat :| IsPart(c, line, e, n);
    var full := c.stringify(e);
    assert Braced(full);
    if part == line[..k] {
      assert k <= n && part == full[..k];
      assert IsPart(c, part, e, k);
    } else {
      assert line[k] == REPLACEMENT || line[k] == full[k];
      assert part == line[..k] + [REPLACEMENT] && line[..k] == full[..k] && k < |full|;
      assert IsPart(c, part, e, k);
      assert part[|part| - 1] == REPLACEMENT;
    }
  }

  lemma NoNewline<E(!new)>(c: Codec<E>, line: string)
    requires Reliable(c) && LineShape(c, line)
    ensures '\n' !in line
  {
    var e, n: nat :| IsPart(c, line, e, n);
    assert Braced(c.stringify(e));
  }

  // ----- appending ---------------------------------------------------------

  /** How a write ends: all of it, or cut after `n` bytes by an error or the death
      of the process. */
  datatype Fate = Written | Torn(n: nat)

  function Min(a: nat, b: nat): nat { if a <= b then a else b }

  /** The bytes that reach the file. */
  function Put(chunk: string, fate: Fate): seq<Byte> {
    match fate
    case Written => Encode(chunk)
    case Torn(n) => Encode(chunk)[..Min(n, |Encode(chunk)|)]
  }

  /** The text they are read as. */
  function Landed(chunk: string, fate: Fate): string {
    match fate
    case Written => chunk
    case Torn(n) => Remains(chunk, n)
  }

  /** A file's text after a write, cut at any byte, is its text before and what is
      left of the chunk: after a cut through a character a chunk starts with an ASCII
      one, a line break or a brace. */
  lemma LandedIsRead(bytes: seq<Byte>, chunk: string, fate: Fate)
    requires EndsWhole(Decode(bytes)) || (chunk != "" && IsAscii(chunk[0]))
    ensures Decode(bytes + Put(chunk, fate)) == Decode(bytes) + Landed(chunk, fate)
  {
    var put := Put(chunk, fate);
    DecodesEncoded(chunk, []);
    assert Encode(chunk) + [] == Encode(chunk) && chunk + "" == chunk;
    if fate.Torn? {
      CutDecodes(chunk, Min(fate.n, |Encode(chunk)|));
      if fate.n > |Encode(chunk)| {
        CutBeyond(chunk, fate.n);
        CutBeyond(chunk, |Encode(chunk)|);
      }
    }
    assert chunk != "" && IsAscii(chunk[0]) && put != [] ==> put[0] < 0x80;
    DecodeConcat(bytes, put);
  }

  /** The text does not end inside a character. */
  predicate EndsWhole(text: string) { text == "" || text[|text| - 1] != REPLACEMENT }

  /** What one append writes: a newline first when the last line was torn. */
  function Payload(file: string, line: string): string { Heal(file) + (line + "\n") }

  function Heal(file: string): string { if EndsClean(file) then "" else "\n" }

  /** All bytes of the line, and of the newline before it, were written. */
  predicate Complete(file: string, line: string, fate: Fate) {
    fate == Written || fate.n >= |Encode(Heal(file) + line)|
  }

  /** The lines of the file after an append cut after `k` characters. */
  lemma SplitAppend(file: string, line: string, k: nat)
    requires '\n' !in line && k <= |Payload(file, line)|
    ensures Split(file + Payload(file, line)[..k]) ==
      if EndsClean(file) then Init(Split(file)) + CutLines(line, k)
      else if k == 0 then Split(file)
      else Split(file) + CutLines(line, k - 1)
  {
    var text := line + "\n";
    if EndsClean(file) {
      assert "" + text == text;
      CutSplit(line, k);
      GlueAtEmpty(file, text[..k]);
    } else if k == 0 {
      assert Payload(file, line)[..k] == "" && file + "" == file;
    } else {
      assert ("\n" + text)[..k] == "\n" + text[..k - 1];
      CutSplit(line, k - 1);
      GlueAtNewline(file, text[..k - 1]);
    }
  }

  lemma GlueAtEmpty(file: string, text: string)
    requires EndsClean(file)
    ensures Split(file + text) == Init(Split(file)) + Split(text)
  {
    CleanMeansEmptyTail(file);
    SplitConcat(file, text);
    var q := Split(text);
    assert "" + q[0] == q[0];
    assert [q[0]] + q[1..] == q;
  }

  lemma GlueAtNewline(file: string, text: string)
    ensures Split(file + ("\n" + text)) == Split(file) + Split(text)
  {
    SplitConcat(file, "\n" + text);
    assert ("\n" + text)[1..] == text;
    var lines, q := Split(file), [""] + Split(text);
    assert q[0] == "" && q[1..] == Split(text);
    assert Tail(lines) + "" == Tail(lines);
    Snoc(lines);
    Assoc(Init(lines), [Tail(lines)], Split(text));
  }

  function CutLines(line: string, k: nat): (r: seq<string>)
    ensures |r| > 0
  {
    if k <= |line| then [line[..k]] else [line, ""]
  }

  lemma CutSplit(line: string, k: nat)
    requires '\n' !in line && k <= |line| + 1
    ensures Split((line + "\n")[..k]) == CutLines(line, k)
  {
    if k <= |line| {
      assert (line + "\n")[..k] == line[..k];
      SplitOneLine(line[..k]);
    } else {
      assert (line + "\n")[..k] == line + "\n";
      SplitTerminated(line);
    }
  }

  /** Lines that read as `found` and have the shape of a log. */
  ghost predicate Reads<E(!new)>(c: Codec<E>, lines: seq<string>, found: seq<E>) {
    LogShape(c, lines) && ReadLines(c, lines) == found
  }

  lemma ReadsConcat<E(!new)>(c: Codec<E>, a: seq<string>, b: seq<string>, found: seq<E>, more: seq<E>)
    requires Reads(c, a, found) && Reads(c, b, more)
    ensures Reads(c, a + b, found + more)
  {
    ReadLinesConcat(c, a, b);
  }

  lemma CutLinesRead<E(!new)>(c: Codec<E>, line: string, k: nat)
    requires Reliable(c) && LineShape(c, line) && k <= |line| + 1
    ensures Reads(c, CutLines(line, k), if k >= |line| then Optional(ParseLine(c, line)) else [])
  {
    if k < |line| {
      assert IsPartOf(line[..k], line, k);
      PartOfPart(c, line, line[..k], k);
      ShorterReadsNothing(c, line, line[..k], k);
      ReadOne(c, line[..k]);
    } else {
      TakeAll(line);
      ReadOne(c, line);
      if k > |line| {
        var e, n: nat :| IsPart(c, line, e, n);
        EmptyLineShape(c, e);
        ReadOne(c, "");
        var found := Optional(ParseLine(c, line));
        ReadsConcat(c, [line], [""], found, []);
        assert [line] + [""] == [line, ""] && found + [] == found;
      }
    }
  }

  /** Cutting the append of `line` between characters leaves the earlier lines
      alone, and adds the line itself exactly when all of it was written. */
  lemma AppendChars<E(!new)>(c: Codec<E>, file: string, line: string, k: nat)
    requires Reliable(c) && LogShape(c, Split(file)) && LineShape(c, line)
    requires k <= |Payload(file, line)|
    ensures Reads(c, Split(file + Payload(file, line)[..k]),
      Read(c, file) + (if k >= |Heal(file)| + |line| then Optional(ParseLine(c, line)) else []))
  {
    NoNewline(c, line);
    SplitAppend(file, line, k);
    if EndsClean(file) {
      LinesAfter(c, file, line, k);
    } else if k > 0 {
      LinesAfter(c, file, line, k - 1);
    } else {
      assert Read(c, file) + [] == Read(c, file);
    }
  }

  lemma LinesAfter<E(!new)>(c: Codec<E>, file: string, line: string, k: nat)
    requires Reliable(c) && LogShape(c, Split(file)) && LineShape(c, line) && k <= |line| + 1
    ensures Reads(c, (if EndsClean(file) then Init(Split(file)) else Split(file)) + CutLines(line, k),
      Read(c, file) + (if k >= |line| then Optional(ParseLine(c, line)) else []))
  {
    var more := if k >= |line| then Optional(ParseLine(c, line)) else [];
    CutLinesRead(c, line, k);
    if EndsClean(file) {
      DropEmptyTail(c, file, line);
      ReadsConcat(c, Init(Split(file)), CutLines(line, k), Read(c, file), more);
    } else {
      ReadsConcat(c, Split(file), CutLines(line, k), Read(c, file), more);
    }
  }

  lemma DropEmptyTail<E(!new)>(c: Codec<E>, file: string, line: string)
    requires Reliable(c) && LogShape(c, Split(file)) && EndsClean(file) && LineShape(c, line)
    ensures Reads(c, Init(Split(file)), Read(c, file))
  {
    var lines := Split(file);
    CleanMeansEmptyTail(file);
    var e, n: nat :| IsPart(c, line, e, n);
    EmptyLineShape(c, e);
    ReadOne(c, "");
    Snoc(lines);
    ReadLinesConcat(c, Init(lines), [""]);
    forall i | 0 <= i < |Init(lines)| ensures LineShape(c, Init(lines)[i]) {
      assert LineShape(c, lines[i]);
    }
  }

  /** A cut inside the `j`-th character of the line leaves a piece of a record that
      reads as nothing. */
  lemma AppendBroken<E(!new)>(c: Codec<E>, file: string, line: string, j: nat)
    requires Reliable(c) && LogShape(c, Split(file)) && LineShape(c, line) && j < |line| && !IsAscii(line[j])
    ensures Reads(c, Split(file + (Heal(file) + (line[..j] + [REPLACEMENT]))), Read(c, file))
  {
    var piece := line[..j] + [REPLACEMENT];
    assert IsPartOf(piece, line, j);
    PartOfPart(c, line, piece, j);
    ShorterReadsNothing(c, line, piece, j);
    var k := |Heal(file)| + |piece|;
    assert Payload(file, piece)[..k] == Heal(file) + piece;
    AppendChars(c, file, piece, k);
    assert Read(c, file) + [] == Read(c, file);
  }

  /** Cutting the append of `line` at any byte leaves the earlier lines alone, and
      adds the line itself exactly when all its bytes were written. */
  lemma AppendCut<E(!new)>(c: Codec<E>, file: string, line: string, fate: Fate)
    requires Reliable(c) && LogShape(c, Split(file)) && LineShape(c, line)
    ensures var file' := file + Landed(Payload(file, line), fate);
      && LogShape(c, Split(file'))
      && Read(c, file') == Read(c, file) + (if Complete(file, line, fate) then Optional(ParseLine(c, line)) else [])
      && (fate == Written ==> EndsClean(file'))
  {
    var chunk, head := Payload(file, line), Heal(file) + line;
    Assoc(Heal(file), line, "\n");
    TakeAll(chunk);
    if fate == Written {
      AppendChars(c, file, line, |chunk|);
    } else if fate.n >= |Encode(chunk)| {
      CutBeyond(chunk, fate.n);
      WholeEnough(head, "\n", fate.n);
      WholeEnough(chunk, "", fate.n);
      assert chunk + "" == chunk;
      AppendChars(c, file, line, |chunk|);
    } else {
      CutWhere(chunk, fate.n);
      WholeEnough(head, "\n", fate.n);
      TornReads(c, file, line, fate.n);
    }
  }

  lemma TornReads<E(!new)>(c: Codec<E>, file: string, line: string, n: nat)
    requires Reliable(c) && LogShape(c, Split(file)) && LineShape(c, line) && n < |Encode(Payload(file, line))|
    ensures Reads(c, Split(file + Remains(Payload(file, line), n)),
      Read(c, file) + (if Whole(Payload(file, line), n) >= |Heal(file)| + |line| then Optional(ParseLine(c, line)) else []))
  {
    var chunk := Payload(file, line);
    var k := Whole(chunk, n);
    CutWhere(chunk, n);
    if Splits(chunk, n) {
      var j := k - |Heal(file)|;
      assert |Heal(file)| <= k < |Heal(file)| + |line| by {
        assert !IsAscii(chunk[k]);
      }
      TakeInside(Heal(file), line, "\n", k);
      Assoc(Heal(file), line[..j], [REPLACEMENT]);
      AppendBroken(c, file, line, j);
      assert Read(c, file) + [] == Read(c, file);
    } else {
      assert chunk[..k] + "" == chunk[..k];
      AppendChars(c, file, line, k);
    }
  }
}
