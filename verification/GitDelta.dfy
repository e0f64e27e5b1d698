/** What git says changed, and what a stage claims it changed. */
module GitDelta {
  import opened JsonLines
  import JsonText
  import opened Options
  import opened Seqs

  // ----- git's side -----------------------------------------------------------------

  datatype Kind = Created | Modified | Deleted

  /** A path and what one line of git output says about it. */
  datatype Entry = Entry(path: string, kind: Kind)

  /** `split(sep)` for a separator of one character. */
  function SplitBy(s: string, sep: char): (parts: seq<string>)
    ensures |parts| > 0
    decreases |s|
  {
    if s == "" then [""]
    else if s[0] == sep then [""] + SplitBy(s[1..], sep)
    else
      var rest := SplitBy(s[1..], sep);
      [[s[0]] + rest[0]] + rest[1..]
  }

  predicate ArrowAt(s: string, i: nat) {
    i + 4 <= |s| && s[i] == ' ' && s[i + 1] == '-' && s[i + 2] == '>' && s[i + 3] == ' '
  }

  /** `split(" -> ")`. */
  function SplitArrow(s: string): (parts: seq<string>)
    ensures |parts| > 0
    decreases |s|
  {
    if s == "" then [""]
    else if ArrowAt(s, 0) then [""] + SplitArrow(s[4..])
    else
      var rest := SplitArrow(s[1..]);
      [[s[0]] + rest[0]] + rest[1..]
  }

  /** An entry, unless there is no path. */
  function Named(path: string, kind: Kind): seq<Entry> { if path == "" then [] else [Entry(path, kind)] }

  /** What a line of `git diff --name-status` says. */
  function DiffLine(line: string): seq<Entry> {
    var trimmed := Trim(line);
    if trimmed == "" then []
    else
      var parts := SplitBy(trimmed, '\t');
      var status := if parts[0] == "" then ' ' else parts[0][0];
      var last := Trim(parts[|parts| - 1]);
      if status == 'R' || status == 'C' then
        (if status == 'R' && |parts| > 1 then Named(Trim(parts[1]), Deleted) else []) + Named(last, Created)
      else if |parts| < 2 then []
      else Named(last, if status == 'A' then Created else if status == 'D' then Deleted else Modified)
  }

  /** `classifyPorcelain`. */
  function ClassifyPorcelain(x: char, y: char): Kind {
    if x == '?' && y == '?' then Created
    else if x == 'A' || x == 'C' || x == 'R' then Created
    else if x == 'D' || y == 'D' then Deleted
    else Modified
  }

  /** What a line of `git status --porcelain` says. */
  function StatusLine(line: string): seq<Entry> {
    var trimmed := TrimEnd(line);
    if |trimmed| < 3 then []
    else
      var x, y := trimmed[0], trimmed[1];
      var segs := SplitArrow(Trim(trimmed[3..]));
      var src, dst := Trim(segs[0]), Trim(segs[|segs| - 1]);
      if |segs| == 1 then Named(Trim(trimmed[3..]), ClassifyPorcelain(x, y))
      else (if x == 'R' then Named(src, Deleted) else []) + Named(dst, ClassifyPorcelain(x, y))
  }

  function Lines(f: string -> seq<Entry>, lines: seq<string>): seq<Entry> {
    if lines == [] then [] else Lines(f, lines[..|lines| - 1]) + f(lines[|lines| - 1])
  }

  /** Every entry git reports, the committed ones first. */
  function Entries(diffRaw: string, statusRaw: string): seq<Entry> {
    Lines(DiffLine, Split(diffRaw)) + Lines(StatusLine, Split(statusRaw))
  }

  // ----- reading back what git prints ------------------------------------------------------

  /** What one line of git output reports. */
  datatype Change =
    | Added(path: string)
    | Removed(path: string)
    | Changed(letter: char, path: string)
    | Renamed(score: string, from: string, to: string)
    | Copied(score: string, from: string, to: string)

  function Reported(c: Change): seq<Entry> {
    match c
    case Added(p) => [Entry(p, Created)]
    case Removed(p) => [Entry(p, Deleted)]
    case Changed(_, p) => [Entry(p, Modified)]
    case Renamed(_, from, to) => [Entry(from, Deleted), Entry(to, Created)]
    case Copied(_, _, to) => [Entry(to, Created)]
  }

  /** A line of `git diff --name-status`. */
  function DiffText(c: Change): string {
    match c
    case Added(p) => "A" + "\t" + p
    case Removed(p) => "D" + "\t" + p
    case Changed(letter, p) => [letter] + "\t" + p
    case Renamed(score, from, to) => ("R" + score) + "\t" + (from + "\t" + to)
    case Copied(score, from, to) => ("C" + score) + "\t" + (from + "\t" + to)
  }

  predicate IsField(p: string) { p != "" && !JsonText.IsSpace(p[0]) && !JsonText.IsSpace(p[|p| - 1]) && '\t' !in p }

  predicate Printable(c: Change) {
    match c
    case Added(p) => IsField(p)
    case Removed(p) => IsField(p)
    case Changed(letter, p) => IsField(p) && IsField([letter]) && letter !in "ADRC"
    case Renamed(score, from, to) => IsField("R" + score) && IsField(from) && IsField(to)
    case Copied(score, from, to) => IsField("C" + score) && IsField(from) && IsField(to)
  }

  lemma TrimsToItself(s: string)
    requires s != "" && !JsonText.IsSpace(s[0]) && !JsonText.IsSpace(s[|s| - 1])
    ensures Trim(s) == s
  {
  }

  lemma {:induction false} SplitsNowhere(s: string, sep: char)
    requires sep !in s
    ensures SplitBy(s, sep) == [s]
    decreases |s|
  {
    if s != "" {
      assert s == [s[0]] + s[1..];
      SplitsNowhere(s[1..], sep);
    }
  }

  lemma {:induction false} SplitsFirst(a: string, sep: char, rest: string)
    requires sep !in a
    ensures SplitBy(a + [sep] + rest, sep) == [a] + SplitBy(rest, sep)
    decreases |a|
  {
    var s := a + [sep] + rest;
    if a == "" {
      assert s[1..] == rest;
    } else {
      assert s[1..] == a[1..] + [sep] + rest;
      assert a == [a[0]] + a[1..];
      SplitsFirst(a[1..], sep, rest);
    }
  }

  /** Fields joined by tabs come apart again. */
  lemma FieldsComeApart(a: string, b: string)
    requires IsField(a) && IsField(b)
    ensures var line := a + "\t" + b; Trim(line) == line && SplitBy(line, '\t') == [a, b] && Trim(b) == b
  {
    TrimsToItself(a + "\t" + b);
    TrimsToItself(b);
    SplitsFirst(a, '\t', b);
    SplitsNowhere(b, '\t');
  }

  lemma ThreeFieldsComeApart(a: string, b: string, c: string)
    requires IsField(a) && IsField(b) && IsField(c)
    ensures var line := a + "\t" + (b + "\t" + c);
      Trim(line) == line && SplitBy(line, '\t') == [a, b, c] && Trim(b) == b && Trim(c) == c
  {
    TrimsToItself(a + "\t" + (b + "\t" + c));
    TrimsToItself(b);
    SplitsFirst(a, '\t', b + "\t" + c);
    FieldsComeApart(b, c);
  }

  /** A line git prints for a change is read as that change: a rename deletes its
      source and creates its destination, a copy only creates. */
  lemma DiffLineReads(c: Change)
    requires Printable(c)
    ensures DiffLine(DiffText(c)) == Reported(c)
  {
    match c
    case Added(p) => FieldsComeApart("A", p);
    case Removed(p) => FieldsComeApart("D", p);
    case Changed(letter, p) => FieldsComeApart([letter], p);
    case Renamed(score, from, to) => RenameReads(score, from, to);
    case Copied(score, from, to) => CopyReads(score, from, to);
  }

  lemma RenameReads(score: string, from: string, to: string)
    requires Printable(Renamed(score, from, to))
    ensures DiffLine(DiffText(Renamed(score, from, to))) == Reported(Renamed(score, from, to))
  {
    ThreeFieldsComeApart("R" + score, from, to);
  }

  lemma CopyReads(score: string, from: string, to: string)
    requires Printable(Copied(score, from, to))
    ensures DiffLine(DiffText(Copied(score, from, to))) == Reported(Copied(score, from, to))
  {
    ThreeFieldsComeApart("C" + score, from, to);
  }

  predicate NoArrow(p: string) { forall i :: 0 <= i < |p| ==> !ArrowAt(p, i) }

  lemma {:induction false} NoArrowNoSplit(p: string)
    requires NoArrow(p)
    ensures SplitArrow(p) == [p]
    decreases |p|
  {
    if p != "" {
      assert p == [p[0]] + p[1..];
      forall i | 0 <= i < |p| - 1
        ensures !ArrowAt(p[1..], i)
      {
        assert !ArrowAt(p, i + 1);
      }
      NoArrowNoSplit(p[1..]);
    }
  }

  /** A porcelain line for one path is read as that path, by its two columns. */
  lemma StatusLineReads(x: char, y: char, p: string)
    requires p != "" && !JsonText.IsSpace(p[0]) && !JsonText.IsSpace(p[|p| - 1]) && NoArrow(p)
    ensures StatusLine([x, y, ' '] + p) == [Entry(p, ClassifyPorcelain(x, y))]
  {
    var line := [x, y, ' '] + p;
    assert line[3..] == p;
    TrimsToItself(p);
    NoArrowNoSplit(p);
  }

  // ----- one entry a path --------------------------------------------------------------

  function Paths(es: seq<Entry>): (ps: seq<string>)
    ensures |ps| == |es| && forall i :: 0 <= i < |ps| ==> ps[i] == es[i].path
  {
    seq(|es|, i requires 0 <= i < |es| => es[i].path)
  }

  /** The elements of the first `n` paths, each at its first occurrence. */
  function Dedupe(ps: seq<string>, n: nat): (r: seq<string>)
    requires n <= |ps|
  {
    if n == 0 then []
    else
      var before := Dedupe(ps, n - 1);
      if ps[n - 1] in before then before else before + [ps[n - 1]]
  }

  /** The first line that names a path decides its kind. */
  function FirstKind(es: seq<Entry>, p: string): Kind {
    if es == [] then Modified else if es[0].path == p then es[0].kind else FirstKind(es[1..], p)
  }

  /** Those of the first `n` paths that are to be kept, in order. */
  function Pick(keep: string -> bool, ps: seq<string>, n: nat): seq<string>
    requires n <= |ps|
  {
    if n == 0 then [] else Pick(keep, ps, n - 1) + if keep(ps[n - 1]) then [ps[n - 1]] else []
  }

  function Filter(keep: string -> bool, ps: seq<string>): seq<string> { Pick(keep, ps, |ps|) }

  function IsKind(es: seq<Entry>, kind: Kind): string -> bool { p => FirstKind(es, p) == kind }

  datatype GitActual = GitActual(created: seq<string>, modified: seq<string>, deleted: seq<string>)

  /** The delta of a list of entries. */
  function Delta(es: seq<Entry>): GitActual {
    var ps := Dedupe(Paths(es), |es|);
    GitActual(Filter(IsKind(es, Created), ps), Filter(IsKind(es, Modified), ps), Filter(IsKind(es, Deleted), ps))
  }

  // ----- the loops --------------------------------------------------------------------

  method DedupePreservingOrder(ps: seq<string>) returns (r: seq<string>)
    ensures r == Dedupe(ps, |ps|)
  {
    r := [];
    var seen: set<string> := {};
    for i := 0 to |ps|
      invariant r == Dedupe(ps, i) && forall p :: p in seen <==> p in r
    {
      if ps[i] !in seen {
        seen := seen + {ps[i]};
        r := r + [ps[i]];
      }
    }
  }

  method ReadLines(f: string -> seq<Entry>, lines: seq<string>) returns (es: seq<Entry>)
    ensures es == Lines(f, lines)
  {
    es := [];
    for i := 0 to |lines|
      invariant es == Lines(f, lines[..i])
    {
      assert lines[..i + 1][..i] == lines[..i];
      es := es + f(lines[i]);
    }
    TakeAll(lines);
  }

  method KindByPath(es: seq<Entry>) returns (kinds: map<string, Kind>)
    ensures forall p :: p in Paths(es) <==> p in kinds
    ensures forall p :: p in kinds ==> kinds[p] == FirstKind(es, p)
  {
    kinds := map[];
    for i := 0 to |es|
      invariant forall p :: p in kinds <==> exists k :: 0 <= k < i && es[k].path == p
      invariant forall p :: p in kinds ==> kinds[p] == FirstKind(es, p)
    {
      if es[i].path !in kinds {
        FirstKindAt(es, i);
        kinds := kinds[es[i].path := es[i].kind];
      }
    }
  }

  lemma {:induction false} FirstKindAt(es: seq<Entry>, i: nat)
    requires i < |es| && forall k :: 0 <= k < i ==> es[k].path != es[i].path
    ensures FirstKind(es, es[i].path) == es[i].kind
    decreases i
  {
    if i > 0 {
      FirstKindAt(es[1..], i - 1);
    }
  }

  method BuildGitActual(diffRaw: string, statusRaw: string) returns (git: GitActual)
    ensures git == Delta(Entries(diffRaw, statusRaw))
  {
    var committed := ReadLines(DiffLine, Split(diffRaw));
    var uncommitted := ReadLines(StatusLine, Split(statusRaw));
    var es := committed + uncommitted;
    var ordered := DedupePreservingOrder(Paths(es));
    var kinds := KindByPath(es);
    DedupeMembers(Paths(es), |es|);
    TakeAll(Paths(es));
    git := Partition(es, ordered, kinds);
  }

  method Partition(ghost es: seq<Entry>, ordered: seq<string>, kinds: map<string, Kind>) returns (git: GitActual)
    requires forall p :: p in ordered ==> p in kinds && kinds[p] == FirstKind(es, p)
    ensures git.created == Filter(IsKind(es, Created), ordered)
    ensures git.modified == Filter(IsKind(es, Modified), ordered)
    ensures git.deleted == Filter(IsKind(es, Deleted), ordered)
  {
    var created, modified, deleted := [], [], [];
    for i := 0 to |ordered|
      invariant created == Pick(IsKind(es, Created), ordered, i)
      invariant modified == Pick(IsKind(es, Modified), ordered, i)
      invariant deleted == Pick(IsKind(es, Deleted), ordered, i)
    {
      var p := ordered[i];
      assert p in ordered;
      match kinds[p]
      case Created => created := created + [p];
      case Modified => modified := modified + [p];
      case Deleted => deleted := deleted + [p];
    }
    git := GitActual(created, modified, deleted);
  }

  lemma {:induction false} DedupeMembers(ps: seq<string>, n: nat)
    requires n <= |ps|
    ensures NoRepeats(Dedupe(ps, n))
    ensures forall p :: p in Dedupe(ps, n) <==> p in ps[..n]
    decreases n
  {
    if n > 0 {
      DedupeMembers(ps, n - 1);
      TakeSnoc(ps, n - 1);
    }
  }

  lemma {:induction false} PickMembers(keep: string -> bool, ps: seq<string>, n: nat)
    requires n <= |ps| && NoRepeats(ps)
    ensures NoRepeats(Pick(keep, ps, n))
    ensures forall p :: p in Pick(keep, ps, n) <==> p in ps[..n] && keep(p)
    decreases n
  {
    if n > 0 {
      PickMembers(keep, ps, n - 1);
      TakeSnoc(ps, n - 1);
    }
  }

  /** A path has a kind when some line names it, and the first line that does decides. */
  predicate Says(es: seq<Entry>, p: string, kind: Kind) { p in Paths(es) && FirstKind(es, p) == kind }

  /** The three lists are duplicate-free and disjoint, and a path stands in the list
      of a kind exactly when git names it and the first line naming it says so. */
  lemma DeltaIsAPartition(es: seq<Entry>)
    ensures var d := Delta(es);
      && NoRepeats(d.created) && NoRepeats(d.modified) && NoRepeats(d.deleted)
      && (forall p :: p in d.created <==> Says(es, p, Created))
      && (forall p :: p in d.modified <==> Says(es, p, Modified))
      && (forall p :: p in d.deleted <==> Says(es, p, Deleted))
  {
    var ps := Dedupe(Paths(es), |es|);
    DedupeMembers(Paths(es), |es|);
    TakeAll(Paths(es));
    TakeAll(ps);
    PickMembers(IsKind(es, Created), ps, |ps|);
    PickMembers(IsKind(es, Modified), ps, |ps|);
    PickMembers(IsKind(es, Deleted), ps, |ps|);
  }

  // ----- the cross-check ----------------------------------------------------------------

  datatype Claims = Claims(created: seq<string>, modified: seq<string>, deleted: seq<string>)

  function Slashes(s: string): string {
    if s == "" then ""
    else
      var rest := Slashes(s[1..]);
      var c := if s[0] == '\\' then '/' else s[0];
      if c == '/' && rest != "" && rest[0] == '/' then rest else [c] + rest
  }

  function DropDots(s: string): string
    decreases |s|
  {
    if |s| >= 2 && s[..2] == "./" then DropDots(s[2..]) else s
  }

  function DropRoot(s: string): string { if s != "" && s[0] == '/' then s[1..] else s }

  function DropTrailing(s: string): string { if |s| > 1 && s[|s| - 1] == '/' then s[..|s| - 1] else s }

  /** `normalizeTrackerPath`. */
  function Normalize(p: string): string { DropTrailing(DropRoot(DropDots(Slashes(Trim(p))))) }

  /** What the worktree and the harness's own lists say about a path. */
  datatype Surroundings = Surroundings(
    runtime: string -> bool,      // isInternalRuntimeClaim
    onDisk: string -> bool,
    ignored: string -> bool,      // git check-ignore
    noise: string -> bool)        // isHarnessBookkeepingPath

  datatype CrossCheck = CrossCheck(claimedNotChanged: seq<string>, changedNotClaimed: seq<string>, ignoredVerified: seq<string>)

  datatype Fate = Exempt | Matched | IgnoredVerified | Missed

  function Names(ps: seq<string>): set<string> { set p | p in ps :: Normalize(p) }

  /** What becomes of a claim to have created or modified `p`. */
  function FateOf(env: Surroundings, git: GitActual, p: string): Fate {
    if env.runtime(p) then Exempt
    else if Normalize(p) in Names(git.created + git.modified) then Matched
    else if env.onDisk(Normalize(p)) && env.ignored(Normalize(p)) then IgnoredVerified
    else Missed
  }

  function Fates(env: Surroundings, git: GitActual): string -> Fate { p => FateOf(env, git, p) }

  function Has(fates: string -> Fate, fate: Fate): string -> bool { p => fates(p) == fate }

  /** The claims that share a fate. */
  function OfFate(env: Surroundings, git: GitActual, c: Claims, fate: Fate): seq<string> {
    Filter(Has(Fates(env, git), fate), ClaimedFiles(c))
  }

  function ClaimedFiles(c: Claims): seq<string> { Dedupe(c.created + c.modified, |c.created + c.modified|) }

  predicate Unclaimed(env: Surroundings, c: Claims, p: string) {
    Normalize(p) !in Names(c.created + c.modified + c.deleted) && !env.noise(p)
  }

  function IsUnclaimed(env: Surroundings, c: Claims): string -> bool { p => Unclaimed(env, c, p) }

  function AllChanged(git: GitActual): seq<string> {
    var all := git.created + git.modified + git.deleted;
    Dedupe(all, |all|)
  }

  /** Every claim is exempt, satisfied, downgraded to an advisory, or missed. */
  method CompareClaims(c: Claims, judge: string -> Fate) returns (missed: seq<string>, verified: seq<string>)
    ensures missed == Filter(Has(judge, Missed), ClaimedFiles(c))
    ensures verified == Filter(Has(judge, IgnoredVerified), ClaimedFiles(c))
  {
    var claimed := DedupePreservingOrder(c.created + c.modified);
    missed, verified := [], [];
    for i := 0 to |claimed|
      invariant missed == Pick(Has(judge, Missed), claimed, i)
      invariant verified == Pick(Has(judge, IgnoredVerified), claimed, i)
    {
      match judge(claimed[i])
      case Exempt => continue;
      case Matched => continue;
      case IgnoredVerified => verified := verified + [claimed[i]];
      case Missed => missed := missed + [claimed[i]];
    }
  }

  method ComputeCrossCheck(env: Surroundings, c: Claims, git: GitActual) returns (r: CrossCheck)
    ensures r.claimedNotChanged == OfFate(env, git, c, Missed)
    ensures r.ignoredVerified == OfFate(env, git, c, IgnoredVerified)
    ensures r.changedNotClaimed == Filter(IsUnclaimed(env, c), AllChanged(git))
  {
    var missed, verified := CompareClaims(c, Fates(env, git));
    var changed := DedupePreservingOrder(git.created + git.modified + git.deleted);
    var unclaimed := [];
    for i := 0 to |changed|
      invariant unclaimed == Pick(IsUnclaimed(env, c), changed, i)
    {
      if Unclaimed(env, c, changed[i]) {
        unclaimed := unclaimed + [changed[i]];
      }
    }
    r := CrossCheck(missed, unclaimed, verified);
  }

  lemma {:induction false} FatesAddUp(fates: string -> Fate, ps: seq<string>, n: nat)
    requires n <= |ps|
    ensures |Pick(Has(fates, Exempt), ps, n)| + |Pick(Has(fates, Matched), ps, n)|
      + |Pick(Has(fates, IgnoredVerified), ps, n)| + |Pick(Has(fates, Missed), ps, n)| == n
    decreases n
  {
    if n > 0 {
      FatesAddUp(fates, ps, n - 1);
    }
  }

  predicate Claimed(c: Claims, p: string) { p in c.created || p in c.modified }

  /** Every distinct created or modified claim falls in exactly one of the four
      lists: together they hold each claim once, and no other path. */
  lemma ClaimsArePartitioned(env: Surroundings, git: GitActual, c: Claims, fate: Fate)
    ensures var l := OfFate(env, git, c, fate);
      && NoRepeats(l) && (forall p :: p in l <==> Claimed(c, p) && FateOf(env, git, p) == fate)
      && |OfFate(env, git, c, Exempt)| + |OfFate(env, git, c, Matched)|
         + |OfFate(env, git, c, IgnoredVerified)| + |OfFate(env, git, c, Missed)| == |ClaimedFiles(c)|
  {
    var all, ps := c.created + c.modified, ClaimedFiles(c);
    DedupeMembers(all, |all|);
    TakeAll(all);
    TakeAll(ps);
    PickMembers(Has(Fates(env, git), fate), ps, |ps|);
    FatesAddUp(Fates(env, git), ps, |ps|);
  }

  // ----- spellings of a path ----------------------------------------------------------------

  /** No backslash, and no two slashes in a row. */
  predicate NoDouble(p: string) {
    && (forall i :: 0 <= i < |p| ==> p[i] != '\\')
    && (forall i :: 0 <= i < |p| - 1 ==> !(p[i] == '/' && p[i + 1] == '/'))
  }

  /** A repository-relative path as git writes it. */
  predicate Plain(p: string) {
    && p != "" && p != "." && !JsonText.IsSpace(p[0]) && !JsonText.IsSpace(p[|p| - 1])
    && p[0] != '/' && p[|p| - 1] != '/' && !(|p| >= 2 && p[..2] == "./")
    && NoDouble(p)
  }

  /** One separator or more, of either kind, for each slash. */
  predicate Spells(s: string, p: string)
    decreases |s|
  {
    if s == "" then p == ""
    else if s[0] == '/' || s[0] == '\\' then
      p != "" && p[0] == '/' && (Spells(s[1..], p[1..]) || Spells(s[1..], p))
    else p != "" && p[0] == s[0] && Spells(s[1..], p[1..])
  }

  lemma {:induction false} SlashesOfSpelling(s: string, p: string)
    requires Spells(s, p) && NoDouble(p)
    ensures Slashes(s) == p
    decreases |s|
  {
    if s != "" {
      if s[0] == '/' || s[0] == '\\' {
        if Spells(s[1..], p) {
          SlashesOfSpelling(s[1..], p);
        } else {
          SlashesOfSpelling(s[1..], p[1..]);
          assert |p| > 1 ==> p[1] != '/';
        }
      } else {
        SlashesOfSpelling(s[1..], p[1..]);
      }
    }
  }

  lemma BeforeIsDropped(before: string, q: string)
    requires before == "" || before == "./" || before == "/"
    requires q != "" && q[0] != '/' && !(|q| >= 2 && q[..2] == "./")
    ensures DropRoot(DropDots(before + q)) == q
  {
    var full := before + q;
    if before == "./" {
      assert full[..2] == "./" && full[2..] == q;
    } else if before == "/" {
      assert full[0] == '/' && full[1..] == q;
    } else {
      assert full == q;
    }
  }

  lemma AfterIsDropped(p: string, after: string)
    requires p != "" && p[|p| - 1] != '/' && (after == "" || after == "/")
    ensures DropTrailing(p + after) == p
  {
    var full := p + after;
    assert full[..|p|] == p;
    assert after == "" ==> full == p;
  }

  lemma FramedHasNoDouble(before: string, p: string, after: string)
    requires NoDouble(p) && p != "" && p[0] != '/' && p[|p| - 1] != '/'
    requires (before == "" || before == "./" || before == "/") && (after == "" || after == "/")
    ensures NoDouble(before + (p + after))
  {
    var full, b := before + (p + after), |before|;
    assert forall i :: b <= i < b + |p| ==> full[i] == p[i - b];
  }

  /** A claim that spells a path with backslashes, repeated separators, a leading
      `./` or slash or a trailing slash is matched as the path git knows. */
  lemma SpellingsMatch(s: string, p: string, before: string, after: string)
    requires Plain(p) && (before == "" || before == "./" || before == "/") && (after == "" || after == "/")
    requires Spells(s, before + (p + after)) && s != "" && !JsonText.IsSpace(s[0]) && !JsonText.IsSpace(s[|s| - 1])
    ensures Normalize(s) == p
  {
    TrimsToItself(s);
    FramedHasNoDouble(before, p, after);
    SlashesOfSpelling(s, before + (p + after));
    NotADot(p, after);
    BeforeIsDropped(before, p + after);
    AfterIsDropped(p, after);
  }

  lemma NotADot(p: string, after: string)
    requires Plain(p) && (after == "" || after == "/")
    ensures var q := p + after; q != "" && q[0] != '/' && !(|q| >= 2 && q[..2] == "./")
  {
    var q := p + after;
    assert |p| >= 2 ==> q[..2] == p[..2];
    assert |q| >= 2 ==> q[..2][0] == q[0];
  }
}
