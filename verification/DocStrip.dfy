/** Stripping the non-normative sections of a rendered document, line by line,
    with the fence pairing of the CommonMark Spec 0.31.2, section 4.5. */
module DocStrip {
  import opened JsonText
  import opened Options
  import opened Seqs

  // ----- lines ------------------------------------------------------------------

  /** An open fence: its mark and the length of the run that opened it. */
  datatype Fence = Fence(mark: char, len: nat)

  predicate IsBlank(c: char) { c == ' ' || c == '\t' }

  /** How many leading characters of `s` are `c`. */
  function RunOf(s: string, c: char): (n: nat)
    ensures n <= |s| && (forall i :: 0 <= i < n ==> s[i] == c) && (n < |s| ==> s[n] != c)
  {
    if s == "" || s[0] != c then 0 else 1 + RunOf(s[1..], c)
  }

  function Blanks(s: string): (n: nat)
    ensures n <= |s|
  {
    if s == "" || !IsBlank(s[0]) then 0 else 1 + Blanks(s[1..])
  }

  /** The run of backticks or tildes a line starts with, after at most three blanks. */
  function FenceRun(line: string): Option<Fence> {
    var b := Blanks(line);
    if b > 3 || b == |line| || (line[b] != '`' && line[b] != '~') then None
    else Some(Fence(line[b], RunOf(line[b..], line[b])))
  }

  function Opened(line: string): Option<Fence> {
    var r := FenceRun(line);
    if r.Some? && r.value.len >= 3 then r else None
  }

  predicate Closes(line: string, f: Fence) {
    var r := FenceRun(line);
    r.Some? && r.value.mark == f.mark && r.value.len >= f.len
  }

  /** The level of a heading line, 0 for any other line. */
  function Level(line: string): (level: nat)
    ensures level <= 6 && (level > 0 ==> line != "" && line[0] == '#')
  {
    var n := RunOf(line, '#');
    if 1 <= n <= 6 && n < |line| && IsSpace(line[n]) then n else 0
  }

  /** What is used of the pattern of non-normative headings: it matches headings of
      levels 1 to 4 only. */
  ghost predicate HeadingsOnly(nn: string -> bool) {
    forall line :: nn(line) ==> 1 <= Level(line) <= 4
  }

  // ----- which lines are dropped ----------------------------------------------------

  function FenceStep(nn: string -> bool, f: Option<Fence>, line: string): Option<Fence> {
    if f.None? then Opened(line) else if Closes(line, f.value) || nn(line) then None else f
  }

  /** The fence that is open after the first `n` lines. */
  function FenceAfter(nn: string -> bool, lines: seq<string>, n: nat): Option<Fence>
    requires n <= |lines|
  {
    if n == 0 then None else FenceStep(nn, FenceAfter(nn, lines, n - 1), lines[n - 1])
  }

  /** Line `k` is a heading and not inside a fence. */
  predicate Heads(nn: string -> bool, lines: seq<string>, k: nat)
    requires k < |lines|
  {
    Level(lines[k]) > 0 && FenceAfter(nn, lines, k + 1).None?
  }

  /** Line `i` belongs to the non-normative section headed by line `j`: no heading
      of the same or a higher rank stands between. */
  predicate Covers(nn: string -> bool, lines: seq<string>, j: nat, i: nat)
    requires j <= i < |lines|
  {
    nn(lines[j]) && forall k :: j < k <= i && Heads(nn, lines, k) ==> Level(lines[k]) > Level(lines[j])
  }

  predicate Dropped(nn: string -> bool, lines: seq<string>, i: nat)
    requires i < |lines|
  {
    exists j :: 0 <= j <= i && Covers(nn, lines, j, i)
  }

  function KeptUpTo(nn: string -> bool, lines: seq<string>, n: nat): seq<string>
    requires n <= |lines|
  {
    if n == 0 then []
    else KeptUpTo(nn, lines, n - 1) + if Dropped(nn, lines, n - 1) then [] else [lines[n - 1]]
  }

  /** The lines of a document that are in no non-normative section. */
  function Kept(nn: string -> bool, lines: seq<string>): seq<string> { KeptUpTo(nn, lines, |lines|) }

  // ----- the scan -------------------------------------------------------------------

  /** `skip` is the highest rank of the sections that line `n - 1` is in. */
  predicate Skipping(nn: string -> bool, lines: seq<string>, n: nat, skip: Option<nat>)
    requires n <= |lines|
  {
    match skip
    case None => n > 0 ==> !Dropped(nn, lines, n - 1)
    case Some(level) =>
      && n > 0
      && (exists j :: 0 <= j < n && Covers(nn, lines, j, n - 1) && Level(lines[j]) == level)
      && (forall j :: 0 <= j < n && Covers(nn, lines, j, n - 1) ==> Level(lines[j]) >= level)
  }

  /** A non-normative heading is never hidden by a fence. */
  lemma NonNormativeHeads(nn: string -> bool, lines: seq<string>, i: nat)
    requires HeadingsOnly(nn) && i < |lines| && nn(lines[i])
    ensures Heads(nn, lines, i) && Covers(nn, lines, i, i)
  {
    assert Level(lines[i]) > 0;
  }

  lemma CoversNext(nn: string -> bool, lines: seq<string>, j: nat, i: nat)
    requires j < i < |lines|
    ensures Covers(nn, lines, j, i) <==>
      Covers(nn, lines, j, i - 1) && (Heads(nn, lines, i) ==> Level(lines[i]) > Level(lines[j]))
  {
  }

  function SkipStep(nn: string -> bool, skip: Option<nat>, heads: bool, line: string): Option<nat> {
    if !heads then skip
    else if skip.Some? && Level(line) > skip.value then skip
    else if nn(line) then Some(Level(line))
    else None
  }

  lemma SkippingNext(nn: string -> bool, lines: seq<string>, i: nat, skip: Option<nat>)
    requires HeadingsOnly(nn) && i < |lines| && Skipping(nn, lines, i, skip)
    ensures Skipping(nn, lines, i + 1, SkipStep(nn, skip, Heads(nn, lines, i), lines[i]))
  {
    forall j: nat | j < i
      ensures Covers(nn, lines, j, i) <==>
        Covers(nn, lines, j, i - 1) && (Heads(nn, lines, i) ==> Level(lines[i]) > Level(lines[j]))
    {
      CoversNext(nn, lines, j, i);
    }
    if nn(lines[i]) {
      NonNormativeHeads(nn, lines, i);
    }
  }

  /** The source's loop over the lines, and what it keeps. */
  method StripNonNormativeSections(nn: string -> bool, lines: seq<string>) returns (kept: seq<string>)
    requires HeadingsOnly(nn)
    ensures kept == Kept(nn, lines)
  {
    kept := [];
    var skipLevel: Option<nat> := None;
    var fence: Option<Fence> := None;
    for i := 0 to |lines|
      invariant kept == KeptUpTo(nn, lines, i)
      invariant fence == FenceAfter(nn, lines, i)
      invariant Skipping(nn, lines, i, skipLevel)
    {
      var line := lines[i];
      SkippingNext(nn, lines, i, skipLevel);
      if fence.None? {
        fence := Opened(line);
      } else if Closes(line, fence.value) || nn(line) {
        fence := None;
      }
      if fence.None? && Level(line) > 0 {
        if skipLevel.Some? {
          if Level(line) > skipLevel.value {
            continue;
          }
          skipLevel := None;
        }
        if nn(line) {
          skipLevel := Some(Level(line));
          continue;
        }
      }
      if skipLevel.None? {
        kept := kept + [line];
      }
    }
  }

  // ----- what stripping promises ------------------------------------------------------

  /** Some line is a non-normative heading. */
  predicate HasSection(nn: string -> bool, lines: seq<string>) { exists i :: 0 <= i < |lines| && nn(lines[i]) }

  /** `a` results from `b` by leaving lines out. */
  predicate Subsequence(a: seq<string>, b: seq<string>)
    decreases |b|
  {
    if a == [] then true
    else if b == [] then false
    else Subsequence(a, b[..|b| - 1]) || (a[|a| - 1] == b[|b| - 1] && Subsequence(a[..|a| - 1], b[..|b| - 1]))
  }

  lemma SubsequenceSnoc(a: seq<string>, b: seq<string>, x: string)
    requires Subsequence(a, b)
    ensures Subsequence(a, b + [x]) && Subsequence(a + [x], b + [x])
  {
    assert (b + [x])[..|b|] == b && (a + [x])[..|a|] == a;
  }

  lemma {:induction false} KeptIsSubsequence(nn: string -> bool, lines: seq<string>, n: nat)
    requires n <= |lines|
    ensures Subsequence(KeptUpTo(nn, lines, n), lines[..n])
    decreases n
  {
    if n == 0 {
      assert KeptUpTo(nn, lines, n) == [];
    } else {
      var a, b, x := KeptUpTo(nn, lines, n - 1), lines[..n - 1], lines[n - 1];
      KeptIsSubsequence(nn, lines, n - 1);
      SubsequenceSnoc(a, b, x);
      TakeSnoc(lines, n - 1);
      assert a + [] == a;
    }
  }

  lemma {:induction false} KeptHasNoSection(nn: string -> bool, lines: seq<string>, n: nat)
    requires HeadingsOnly(nn) && n <= |lines|
    ensures !HasSection(nn, KeptUpTo(nn, lines, n))
    decreases n
  {
    if n > 0 {
      KeptHasNoSection(nn, lines, n - 1);
      if nn(lines[n - 1]) {
        NonNormativeHeads(nn, lines, n - 1);
      }
    }
  }

  lemma {:induction false} KeepsAllExactly(nn: string -> bool, lines: seq<string>, n: nat)
    requires HeadingsOnly(nn) && n <= |lines|
    ensures |KeptUpTo(nn, lines, n)| <= n
    ensures |KeptUpTo(nn, lines, n)| == n <==> forall i :: 0 <= i < n ==> !nn(lines[i])
    ensures |KeptUpTo(nn, lines, n)| == n ==> KeptUpTo(nn, lines, n) == lines[..n]
    decreases n
  {
    if n > 0 {
      KeepsAllExactly(nn, lines, n - 1);
      TakeSnoc(lines, n - 1);
      if nn(lines[n - 1]) {
        NonNormativeHeads(nn, lines, n - 1);
      }
    }
  }

  /** Stripping leaves a subsequence of the lines without any non-normative heading,
      and changes nothing exactly when there is no such heading. */
  lemma StrippedIsNormative(nn: string -> bool, lines: seq<string>)
    requires HeadingsOnly(nn)
    ensures !HasSection(nn, Kept(nn, lines)) && Subsequence(Kept(nn, lines), lines)
    ensures Kept(nn, lines) == lines <==> !HasSection(nn, lines)
  {
    KeptIsSubsequence(nn, lines, |lines|);
    KeptHasNoSection(nn, lines, |lines|);
    KeepsAllExactly(nn, lines, |lines|);
    TakeAll(lines);
  }

  /** Twice is once, on lines. */
  lemma StripTwice(nn: string -> bool, lines: seq<string>)
    requires HeadingsOnly(nn)
    ensures Kept(nn, Kept(nn, lines)) == Kept(nn, lines)
  {
    StrippedIsNormative(nn, lines);
    StrippedIsNormative(nn, Kept(nn, lines));
  }

  /** A heading that outranks the section it stands in ends that section exactly
      when no fence is open there. */
  lemma SectionEndsOutsideFences(nn: string -> bool, lines: seq<string>, j: nat, k: nat)
    requires j < k < |lines| && Covers(nn, lines, j, k - 1) && 0 < Level(lines[k]) <= Level(lines[j])
    ensures Covers(nn, lines, j, k) <==> FenceAfter(nn, lines, k + 1).Some?
  {
    CoversNext(nn, lines, j, k);
  }

  /** So a fence opened in a non-normative section and never closed hides the rest
      of the document, normative sections included. */
  lemma {:induction false} UnclosedFenceHidesTheRest(nn: string -> bool, lines: seq<string>, j: nat, m: nat, i: nat)
    requires j <= m <= i < |lines| && Covers(nn, lines, j, m) && FenceAfter(nn, lines, m + 1).Some?
    requires forall k :: m < k < |lines| ==> !nn(lines[k]) && !Closes(lines[k], FenceAfter(nn, lines, m + 1).value)
    ensures FenceAfter(nn, lines, i + 1) == FenceAfter(nn, lines, m + 1) && Covers(nn, lines, j, i) && Dropped(nn, lines, i)
    decreases i
  {
    if i > m {
      UnclosedFenceHidesTheRest(nn, lines, j, m, i - 1);
      CoversNext(nn, lines, j, i);
    }
  }

  /** Lines inside an open fence that neither close it nor head a non-normative
      section leave it open: none of them counts as a heading. */
  lemma {:induction false} FencedLinesAreProse(nn: string -> bool, lines: seq<string>, m: nat, i: nat)
    requires m <= i < |lines| && FenceAfter(nn, lines, m).Some?
    requires forall k :: m <= k <= i ==> !nn(lines[k]) && !Closes(lines[k], FenceAfter(nn, lines, m).value)
    ensures FenceAfter(nn, lines, i + 1) == FenceAfter(nn, lines, m) && !Heads(nn, lines, i)
    decreases i
  {
    if i > m {
      FencedLinesAreProse(nn, lines, m, i - 1);
    }
  }

  // ----- on text ----------------------------------------------------------------------

  /** `split(/\r?\n/)`: never empty. */
  function Lines(s: string): (lines: seq<string>)
    ensures |lines| > 0
    decreases |s|
  {
    if s == "" then [""]
    else if s[0] == '\n' then [""] + Lines(s[1..])
    else if s[0] == '\r' && |s| > 1 && s[1] == '\n' then [""] + Lines(s[2..])
    else
      var rest := Lines(s[1..]);
      [[s[0]] + rest[0]] + rest[1..]
  }

  /** `join("\n")`. */
  function Join(lines: seq<string>): string {
    if lines == [] then ""
    else if |lines| == 1 then lines[0]
    else lines[0] + "\n" + Join(lines[1..])
  }

  function StripText(nn: string -> bool, content: string): string { Join(Kept(nn, Lines(content))) }

  predicate EndsInCr(line: string) { line != "" && line[|line| - 1] == '\r' }

  function DropCr(line: string): string { if EndsInCr(line) then line[..|line| - 1] else line }

  predicate NoBreak(lines: seq<string>) { forall i :: 0 <= i < |lines| ==> '\n' !in lines[i] }

  /** Every line but the last loses a final carriage return when it is read back. */
  function Reread(lines: seq<string>): (r: seq<string>)
    ensures |r| == |lines|
  {
    if |lines| <= 1 then lines else [DropCr(lines[0])] + Reread(lines[1..])
  }

  lemma {:induction false} LinesHaveNoBreak(s: string)
    ensures NoBreak(Lines(s))
    decreases |s|
  {
    if s != "" && s[0] == '\n' {
      LinesHaveNoBreak(s[1..]);
    } else if s != "" && s[0] == '\r' && |s| > 1 && s[1] == '\n' {
      LinesHaveNoBreak(s[2..]);
    } else if s != "" {
      LinesHaveNoBreak(s[1..]);
    }
  }

  lemma {:induction false} LinesOfOne(line: string)
    requires '\n' !in line
    ensures Lines(line) == [line]
    decreases |line|
  {
    if line != "" {
      assert line == [line[0]] + line[1..];
      LinesOfOne(line[1..]);
    }
  }

  lemma {:induction false} LinesOfNext(line: string, rest: string)
    requires '\n' !in line
    ensures Lines(line + "\n" + rest) == [DropCr(line)] + Lines(rest)
    decreases |line|
  {
    var s := line + "\n" + rest;
    if line == "" {
      assert s[1..] == rest;
    } else if line == "\r" {
      assert s[2..] == rest;
    } else {
      assert s[1..] == line[1..] + "\n" + rest;
      LinesOfNext(line[1..], rest);
      assert DropCr(line) == [line[0]] + DropCr(line[1..]);
    }
  }

  lemma {:induction false} LinesOfJoin(lines: seq<string>)
    requires lines != [] && NoBreak(lines)
    ensures Lines(Join(lines)) == Reread(lines)
    decreases |lines|
  {
    if |lines| == 1 {
      LinesOfOne(lines[0]);
    } else {
      LinesOfNext(lines[0], Join(lines[1..]));
      LinesOfJoin(lines[1..]);
    }
  }

  // ----- when twice is once on text -------------------------------------------------------

  /** No line but the last ends in a carriage return. */
  predicate CleanEnds(lines: seq<string>) { forall i :: 0 <= i < |lines| - 1 ==> !EndsInCr(lines[i]) }

  /** Characters and lines together. */
  function Size(lines: seq<string>): nat
    decreases |lines|
  {
    if lines == [] then 0 else Size(lines[..|lines| - 1]) + |lines[|lines| - 1]| + 1
  }

  lemma {:induction false} SizeSubsequence(a: seq<string>, b: seq<string>)
    requires Subsequence(a, b)
    ensures Size(a) <= Size(b)
    decreases |b|
  {
    if a != [] {
      if Subsequence(a, b[..|b| - 1]) {
        SizeSubsequence(a, b[..|b| - 1]);
      } else {
        SizeSubsequence(a[..|a| - 1], b[..|b| - 1]);
      }
    }
  }

  lemma {:induction false} SizeCons(line: string, lines: seq<string>)
    ensures Size([line] + lines) == |line| + 1 + Size(lines)
    decreases |lines|
  {
    if lines != [] {
      assert ([line] + lines)[..|lines|] == [line] + lines[..|lines| - 1];
      SizeCons(line, lines[..|lines| - 1]);
    }
  }

  lemma {:induction false} SizeOfJoin(lines: seq<string>)
    ensures lines != [] ==> |Join(lines)| + 1 == Size(lines)
    decreases |lines|
  {
    if |lines| > 1 {
      assert lines == [lines[0]] + lines[1..];
      SizeCons(lines[0], lines[1..]);
      SizeOfJoin(lines[1..]);
    }
  }

  lemma {:induction false} RereadShrinks(lines: seq<string>)
    ensures Reread(lines) == lines <==> CleanEnds(lines)
    ensures !CleanEnds(lines) ==> Size(Reread(lines)) < Size(lines)
    ensures Size(Reread(lines)) <= Size(lines)
    decreases |lines|
  {
    if |lines| > 1 {
      var rest := lines[1..];
      RereadShrinks(rest);
      assert lines == [lines[0]] + rest;
      SizeCons(lines[0], rest);
      SizeCons(DropCr(lines[0]), Reread(rest));
      assert Reread(lines)[1..] == Reread(rest);
      assert CleanEnds(lines) <==> !EndsInCr(lines[0]) && CleanEnds(rest);
    }
  }

  /** Stripping a text twice is stripping it once exactly when no kept line but the
      last ends in a carriage return. */
  lemma StripTextTwice(nn: string -> bool, content: string)
    requires HeadingsOnly(nn)
    ensures StripText(nn, StripText(nn, content)) == StripText(nn, content) <==> CleanEnds(Kept(nn, Lines(content)))
  {
    var lines := Lines(content);
    var kept := Kept(nn, lines);
    LinesHaveNoBreak(content);
    StrippedIsNormative(nn, lines);
    SubsequenceHasNoBreak(kept, lines);
    if kept == [] {
      assert Lines("") == [""];
      StripBlank(nn);
    } else {
      LinesOfJoin(kept);
      RereadAgain(nn, kept);
    }
  }

  /** It happens that it is not: the text loses a carriage return each time. */
  lemma DoubledCrIsStrippedAgain(nn: string -> bool)
    requires HeadingsOnly(nn)
    ensures StripText(nn, "a\r\r\nb") == "a\r\nb" && StripText(nn, "a\r\nb") == "a\nb"
  {
    LinesOfSample();
    assert Level("a\r") == 0 && Level("a") == 0 && Level("b") == 0;
    StrippedIsNormative(nn, ["a\r", "b"]);
    StrippedIsNormative(nn, ["a", "b"]);
    assert ["a\r", "b"][1..] == ["b"] && ["a", "b"][1..] == ["b"];
    assert Join(["b"]) == "b";
  }

  lemma LinesStep(c: char, rest: string)
    requires c != '\n' && !(c == '\r' && rest != "" && rest[0] == '\n')
    ensures Lines([c] + rest) == [[c] + Lines(rest)[0]] + Lines(rest)[1..]
  {
    assert ([c] + rest)[1..] == rest;
  }

  lemma LinesOfSample()
    ensures Lines("a\r\r\nb") == ["a\r", "b"] && Lines("a\r\nb") == ["a", "b"]
  {
    LinesStep('b', "");
    assert ['b'] + "" == "b" && "\r\nb"[2..] == "b";
    var tail := Lines("\r\nb");
    assert tail == ["", "b"] && tail[1..] == ["b"];
    LinesStep('a', "\r\nb");
    LinesStep('\r', "\r\nb");
    assert ['a'] + "\r\nb" == "a\r\nb" && ['a'] + "" == "a" && ['\r'] + "" == "\r";
    var more := Lines(['\r'] + "\r\nb");
    assert more == ["\r", "b"] && more[1..] == ["b"];
    LinesStep('a', ['\r'] + "\r\nb");
    assert ['a'] + (['\r'] + "\r\nb") == "a\r\r\nb" && ['a'] + "\r" == "a\r";
  }

  lemma StripBlank(nn: string -> bool)
    requires HeadingsOnly(nn)
    ensures Kept(nn, [""]) == [""]
  {
    assert Level("") == 0;
    StrippedIsNormative(nn, [""]);
  }

  lemma {:induction false} SubsequenceHasNoBreak(a: seq<string>, b: seq<string>)
    requires Subsequence(a, b) && NoBreak(b)
    ensures NoBreak(a)
    decreases |b|
  {
    if a != [] {
      if Subsequence(a, b[..|b| - 1]) {
        SubsequenceHasNoBreak(a, b[..|b| - 1]);
      } else {
        SubsequenceHasNoBreak(a[..|a| - 1], b[..|b| - 1]);
      }
    }
  }

  lemma RereadAgain(nn: string -> bool, kept: seq<string>)
    requires HeadingsOnly(nn) && kept != [] && !HasSection(nn, kept)
    ensures Join(Kept(nn, Reread(kept))) == Join(kept) <==> CleanEnds(kept)
  {
    RereadShrinks(kept);
    if CleanEnds(kept) {
      StrippedIsNormative(nn, kept);
    } else {
      var again := Kept(nn, Reread(kept));
      KeptIsSubsequence(nn, Reread(kept), |kept|);
      TakeAll(Reread(kept));
      SizeSubsequence(again, Reread(kept));
      SizeOfJoin(kept);
      SizeOfJoin(again);
      EmptyJoin(kept);
    }
  }

  lemma EmptyJoin(kept: seq<string>)
    requires !CleanEnds(kept)
    ensures Join(kept) != ""
  {
  }

  /** Without carriage returns a text is stripped once and for all. */
  lemma PlainTextStripsOnce(nn: string -> bool, content: string)
    requires HeadingsOnly(nn) && '\r' !in content
    ensures StripText(nn, StripText(nn, content)) == StripText(nn, content)
  {
    LinesHaveNoCr(content);
    StrippedIsNormative(nn, Lines(content));
    SubsequenceHasNoCr(Kept(nn, Lines(content)), Lines(content));
    StripTextTwice(nn, content);
  }

  predicate NoCr(lines: seq<string>) { forall i :: 0 <= i < |lines| ==> '\r' !in lines[i] }

  lemma {:induction false} LinesHaveNoCr(s: string)
    requires '\r' !in s
    ensures NoCr(Lines(s))
    decreases |s|
  {
    if s != "" {
      LinesHaveNoCr(s[1..]);
    }
  }

  lemma {:induction false} SubsequenceHasNoCr(a: seq<string>, b: seq<string>)
    requires Subsequence(a, b) && NoCr(b)
    ensures NoCr(a)
    decreases |b|
  {
    if a != [] {
      if Subsequence(a, b[..|b| - 1]) {
        SubsequenceHasNoCr(a, b[..|b| - 1]);
      } else {
        SubsequenceHasNoCr(a[..|a| - 1], b[..|b| - 1]);
      }
    }
  }
}
