/** `checkRunLogInvariants` and `reconstructStageOutcomes`: the invariants
    INV-L1 to INV-L6 that fold consumers rely on, and the reference fold. */
module RunLogChecker {
  import opened Options
  import opened Seqs

  datatype Outcome =
    | Completed(partial: bool)
    | Failed(error: Option<string>)
    | Skipped
    | Cancelled

  datatype Kind = RunStarted | RunCompleted | StageStarted | StageEnded(outcome: Outcome) | Other(text: string)

  /** A parsed event: "" stands for a missing or empty time, run or stage. */
  datatype Event = Event(num: Option<int>, time: string, runId: string, stage: string, kind: Option<Kind>)

  // ----- the invariants, stated outright ------------------------------------

  /** The order `<` on strings. */
  predicate Before(a: string, b: string)
    decreases |a|
  {
    b != "" && (a == "" || a[0] < b[0] || (a[0] == b[0] && Before(a[1..], b[1..])))
  }

  predicate Whole(e: Event) { e.num.Some? && e.kind.Some? && e.runId != "" && e.time != "" }

  ghost predicate NumbersContiguous(es: seq<Event>) { forall i :: 0 <= i < |es| ==> es[i].num == Some(i + 1) }

  ghost predicate TimesOrdered(es: seq<Event>) { forall i :: 0 < i < |es| ==> !Before(es[i].time, es[i - 1].time) }

  ghost predicate EventsWhole(es: seq<Event>) { forall i :: 0 <= i < |es| ==> Whole(es[i]) }

  ghost predicate SameRun(es: seq<Event>, i: nat, k: nat) { i < |es| && k < |es| && es[i].runId == es[k].runId }

  /** The events of one run are never separated by another run's. */
  ghost predicate RunsContiguous(es: seq<Event>) {
    forall i: nat, j: nat, k: nat :: i < j < k < |es| && SameRun(es, i, k) ==> SameRun(es, i, j)
  }

  ghost predicate FirstOfRun(es: seq<Event>, i: nat)
    requires i < |es|
  {
    forall j :: 0 <= j < i ==> es[j].runId != es[i].runId
  }

  ghost predicate LastOfRun(es: seq<Event>, i: nat)
    requires i < |es|
  {
    forall j :: i < j < |es| ==> es[j].runId != es[i].runId
  }

  /** A run starts with run.started and, unless it is the last in the file, ends
      with run.completed. */
  ghost predicate RunsBracketed(es: seq<Event>) {
    && (forall i :: 0 <= i < |es| && FirstOfRun(es, i) ==> es[i].kind == Some(RunStarted))
    && (forall i :: 0 <= i < |es| - 1 && LastOfRun(es, i) ==> es[i].kind == Some(RunCompleted))
  }

  predicate Starts(e: Event, stage: string) { e.stage == stage != "" && e.kind == Some(StageStarted) }

  predicate Ends(e: Event, stage: string) { e.stage == stage != "" && e.kind.Some? && e.kind.value.StageEnded? }

  /** No terminal of the stage strictly between `from` and `to`. */
  ghost predicate Quiet(es: seq<Event>, from: int, to: nat, stage: string)
    requires -1 <= from && to <= |es|
  {
    forall k :: from < k < to ==> !Ends(es[k], stage)
  }

  /** Among the first `n` events the stage was started and not ended since. */
  ghost predicate OpenAfter(es: seq<Event>, n: nat, stage: string)
    requires n <= |es|
  {
    exists j :: 0 <= j < n && Starts(es[j], stage) && Quiet(es, j, n, stage)
  }

  /** Starts and terminals of a stage alternate, and a completed run leaves no
      stage open. */
  ghost predicate StagesPaired(es: seq<Event>) {
    && (forall i :: 0 <= i < |es| && Starts(es[i], es[i].stage) ==> !OpenAfter(es, i, es[i].stage))
    && (forall i :: 0 <= i < |es| && Ends(es[i], es[i].stage) ==> OpenAfter(es, i, es[i].stage))
    && (|es| > 0 && es[|es| - 1].kind == Some(RunCompleted) ==> forall s :: !OpenAfter(es, |es|, s))
  }

  ghost predicate Holds(es: seq<Event>) {
    EventsWhole(es) && NumbersContiguous(es) && TimesOrdered(es) && RunsContiguous(es) && RunsBracketed(es) && StagesPaired(es)
  }

  // ----- the checker --------------------------------------------------------

  datatype Violation =
    | Missing(at: nat) | WrongNumber(at: nat) | TimeBack(at: nat)
    | Interleaved(at: nat) | NotStarted(runId: string) | NotCompleted(runId: string)
    | Restarted(at: nat) | Unstarted(at: nat) | LeftOpen(stage: string)

  method CheckRunLogInvariants(events: seq<Event>) returns (violations: seq<Violation>)
    ensures violations == [] <==> Holds(events)
  {
    var a := CheckEvents(events);
    var b := CheckRuns(events);
    var c := CheckStages(events);
    violations := a + b + c;
  }

  /** INV-L1, L2, L3. */
  method CheckEvents(events: seq<Event>) returns (violations: seq<Violation>)
    ensures violations == [] <==> EventsWhole(events) && NumbersContiguous(events) && TimesOrdered(events)
  {
    violations := [];
    for i := 0 to |events|
      invariant violations == [] <==>
        && (forall j :: 0 <= j < i ==> Whole(events[j]))
        && (forall j :: 0 <= j < i ==> events[j].num == Some(j + 1))
        && (forall j :: 0 < j < i ==> !Before(events[j].time, events[j - 1].time))
    {
      var e := events[i];
      if e.num.None? || e.kind.None? || e.runId == "" || e.time == "" {
        violations := violations + [Missing(i + 1)];
        continue;
      }
      if e.num.value != i + 1 {
        violations := violations + [WrongNumber(i + 1)];
      }
      if i > 0 {
        var prev := events[i - 1];
        if prev.time != "" && Before(e.time, prev.time) {
          violations := violations + [TimeBack(i + 1)];
        }
      }
    }
  }

  datatype Block = Block(first: nat, last: nat)

  /** Among the first `n` events, run `r` has its first and last event at `b`. */
  ghost predicate BlockOf(es: seq<Event>, n: nat, r: string, b: Block)
    requires n <= |es|
  {
    && b.first <= b.last < n && es[b.first].runId == r && es[b.last].runId == r
    && (forall j :: 0 <= j < n && es[j].runId == r ==> b.first <= j <= b.last)
  }

  /** What `blocks` says about the first `n` events. */
  ghost predicate BlocksOf(es: seq<Event>, n: nat, blocks: map<string, Block>)
    requires n <= |es|
  {
    && (forall i :: 0 <= i < n ==> es[i].runId in blocks)
    && (forall r :: r in blocks ==> BlockOf(es, n, r, blocks[r]))
  }

  ghost predicate ContiguousUpTo(es: seq<Event>, n: nat)
    requires n <= |es|
  {
    forall i: nat, j: nat, k: nat :: i < j < k < n && SameRun(es, i, k) ==> SameRun(es, i, j)
  }

  /** A run's next event keeps the runs contiguous exactly when its last one is
      the event just before, or it has none. */
  lemma ContiguousNext(es: seq<Event>, n: nat, last: nat)
    requires n < |es| && last <= n && es[last].runId == es[n].runId
    requires forall j :: 0 <= j < n && es[j].runId == es[n].runId ==> j <= last < n
    ensures ContiguousUpTo(es, n + 1) <==> ContiguousUpTo(es, n) && n - last <= 1
  {
    if n - last > 1 {
      assert SameRun(es, last, n) && !SameRun(es, last, n - 1);
    } else if ContiguousUpTo(es, n) {
      forall i: nat, j: nat | i < j < n && SameRun(es, i, n) ensures SameRun(es, i, j) {
        assert j == n - 1 || SameRun(es, i, n - 1);
      }
    }
  }

  /** INV-L4 and L5. */
  method CheckRuns(events: seq<Event>) returns (violations: seq<Violation>)
    ensures violations == [] <==> RunsContiguous(events) && RunsBracketed(events)
  {
    var blocks: map<string, Block>, order: seq<string>;
    blocks, order, violations := FindBlocks(events);
    var lastBlockLast := |events| - 1;
    ghost var before := violations;
    for i := 0 to |order|
      invariant violations == [] <==> before == [] && forall j :: 0 <= j < i ==> BlockFine(events, blocks, order[j])
    {
      var b := blocks[order[i]];
      if events[b.first].kind != Some(RunStarted) {
        violations := violations + [NotStarted(order[i])];
      }
      if b.last != lastBlockLast && events[b.last].kind != Some(RunCompleted) {
        violations := violations + [NotCompleted(order[i])];
      }
      assert order[i] in blocks;
    }
    BlocksBracketed(events, blocks, order);
  }

  ghost predicate BlockFine(es: seq<Event>, blocks: map<string, Block>, r: string) {
    r in blocks && blocks[r].first < |es| && blocks[r].last < |es|
    && es[blocks[r].first].kind == Some(RunStarted)
    && (blocks[r].last != |es| - 1 ==> es[blocks[r].last].kind == Some(RunCompleted))
  }

  /** `order` lists the runs that have a block. */
  ghost predicate SameRuns(blocks: map<string, Block>, order: seq<string>) { forall r :: r in blocks <==> r in order }

  lemma SameRunsNext(blocks: map<string, Block>, order: seq<string>, r: string, b: Block)
    requires SameRuns(blocks, order)
    ensures SameRuns(blocks[r := b], if r in blocks then order else order + [r])
  {
  }

  method FindBlocks(events: seq<Event>) returns (blocks: map<string, Block>, order: seq<string>, violations: seq<Violation>)
    ensures BlocksOf(events, |events|, blocks)
    ensures SameRuns(blocks, order)
    ensures violations == [] <==> RunsContiguous(events)
  {
    blocks, order, violations := map[], [], [];
    for i := 0 to |events|
      invariant BlocksOf(events, i, blocks)
      invariant SameRuns(blocks, order)
      invariant violations == [] <==> ContiguousUpTo(events, i)
    {
      var r := events[i].runId;
      var b := if r in blocks then blocks[r] else Block(i, i);
      BlocksStep(events, i, blocks, b);
      BlockGap(events, i, blocks, b);
      SameRunsNext(blocks, order, r, b.(last := i));
      if i - b.last > 1 {
        violations := violations + [Interleaved(i)];
      }
      if r !in blocks {
        order := order + [r];
      }
      blocks := blocks[r := b.(last := i)];
    }
  }

  /** The run of event `i` has a block of its own from now on. */
  lemma BlocksStep(es: seq<Event>, i: nat, blocks: map<string, Block>, b: Block)
    requires i < |es| && BlocksOf(es, i, blocks)
    requires b == if es[i].runId in blocks then blocks[es[i].runId] else Block(i, i)
    ensures BlocksOf(es, i + 1, blocks[es[i].runId := b.(last := i)])
  {
    var r := es[i].runId;
    var blocks' := blocks[r := b.(last := i)];
    assert r in blocks ==> BlockOf(es, i, r, b);
    forall q | q in blocks' ensures BlockOf(es, i + 1, q, blocks'[q]) {
      if q != r {
        assert BlockOf(es, i, q, blocks[q]);
      }
    }
  }

  /** Event `i` keeps its run in one piece exactly when the run's last event is the
      one before. */
  lemma BlockGap(es: seq<Event>, i: nat, blocks: map<string, Block>, b: Block)
    requires i < |es| && BlocksOf(es, i, blocks)
    requires b == if es[i].runId in blocks then blocks[es[i].runId] else Block(i, i)
    ensures ContiguousUpTo(es, i + 1) <==> ContiguousUpTo(es, i) && i - b.last <= 1
  {
    assert es[i].runId in blocks ==> BlockOf(es, i, es[i].runId, b);
    ContiguousNext(es, i, b.last);
  }

  lemma BlocksBracketed(es: seq<Event>, blocks: map<string, Block>, order: seq<string>)
    requires BlocksOf(es, |es|, blocks)
    requires SameRuns(blocks, order)
    ensures (forall j :: 0 <= j < |order| ==> BlockFine(es, blocks, order[j])) <==> RunsBracketed(es)
  {
    if forall j :: 0 <= j < |order| ==> BlockFine(es, blocks, order[j]) {
      forall i | 0 <= i < |es|
        ensures FirstOfRun(es, i) ==> es[i].kind == Some(RunStarted)
        ensures i < |es| - 1 && LastOfRun(es, i) ==> es[i].kind == Some(RunCompleted)
      {
        var r := es[i].runId;
        assert r in order;
        assert BlockFine(es, blocks, r);
      }
    }
    if RunsBracketed(es) {
      forall j | 0 <= j < |order| ensures BlockFine(es, blocks, order[j]) {
        var b := blocks[order[j]];
        assert FirstOfRun(es, b.first) && LastOfRun(es, b.last);
      }
    }
  }

  /** INV-L6. */
  method CheckStages(events: seq<Event>) returns (violations: seq<Violation>)
    ensures violations == [] <==> StagesPaired(events)
  {
    var openStages, order;
    openStages, order, violations := FindOpen(events);
    if |events| > 0 && events[|events| - 1].kind == Some(RunCompleted) {
      ghost var before := violations;
      for i := 0 to |order|
        invariant violations == [] <==> before == [] && forall j :: 0 <= j < i ==> order[j] !in openStages
      {
        if order[i] in openStages {
          violations := violations + [LeftOpen(order[i])];
        }
      }
    }
  }

  ghost predicate AlternatesUpTo(es: seq<Event>, n: nat)
    requires n <= |es|
  {
    && (forall j :: 0 <= j < n && Starts(es[j], es[j].stage) ==> !OpenAfter(es, j, es[j].stage))
    && (forall j :: 0 <= j < n && Ends(es[j], es[j].stage) ==> OpenAfter(es, j, es[j].stage))
  }

  method FindOpen(events: seq<Event>) returns (openStages: map<string, nat>, order: seq<string>, violations: seq<Violation>)
    ensures forall s :: s in openStages <==> OpenAfter(events, |events|, s)
    ensures forall s :: s in openStages ==> s in order
    ensures violations == [] <==> AlternatesUpTo(events, |events|)
  {
    openStages, order, violations := map[], [], [];
    for i := 0 to |events|
      invariant forall s :: s in openStages <==> OpenAfter(events, i, s)
      invariant forall s :: s in openStages ==> s in order
      invariant violations == [] <==> AlternatesUpTo(events, i)
    {
      var e := events[i];
      OpenNext(events, i);
      AlternatesNext(events, i);
      if e.stage == "" {
        continue;
      }
      if e.kind == Some(StageStarted) {
        if e.stage in openStages {
          violations := violations + [Restarted(i)];
        }
        openStages := openStages[e.stage := i];
        order := order + [e.stage];
      } else if e.kind.Some? && e.kind.value.StageEnded? {
        if e.stage !in openStages {
          violations := violations + [Unstarted(i)];
        }
        openStages := openStages - {e.stage};
      }
    }
  }

  lemma AlternatesNext(es: seq<Event>, i: nat)
    requires i < |es|
    ensures AlternatesUpTo(es, i + 1) <==>
      && AlternatesUpTo(es, i)
      && (Starts(es[i], es[i].stage) ==> !OpenAfter(es, i, es[i].stage))
      && (Ends(es[i], es[i].stage) ==> OpenAfter(es, i, es[i].stage))
  {
  }

  lemma OpenNext(es: seq<Event>, i: nat)
    requires i < |es|
    ensures forall s :: OpenAfter(es, i + 1, s) <==> Starts(es[i], s) || (OpenAfter(es, i, s) && !Ends(es[i], s))
  {
    forall s ensures OpenAfter(es, i + 1, s) <==> Starts(es[i], s) || (OpenAfter(es, i, s) && !Ends(es[i], s)) {
      if OpenAfter(es, i + 1, s) {
        var j :| 0 <= j < i + 1 && Starts(es[j], s) && Quiet(es, j, i + 1, s);
        assert j < i ==> Quiet(es, j, i, s);
      }
      if Starts(es[i], s) {
        assert Quiet(es, i, i + 1, s);
      }
      if OpenAfter(es, i, s) && !Ends(es[i], s) {
        var j :| 0 <= j < i && Starts(es[j], s) && Quiet(es, j, i, s);
        assert Quiet(es, j, i + 1, s);
      }
    }
  }

  // ----- the reference fold --------------------------------------------------

  /** The last terminal event of every stage that has one. */
  function Outcomes(es: seq<Event>): map<string, Outcome>
    decreases |es|
  {
    if es == [] then map[]
    else
      var e, before := es[|es| - 1], Outcomes(es[..|es| - 1]);
      if Ends(e, e.stage) then before[e.stage := e.kind.value.outcome] else before
  }

  /** The event at `i` is the stage's last terminal, with this outcome. */
  ghost predicate LastTerminal(es: seq<Event>, i: nat, stage: string, outcome: Outcome) {
    i < |es| && Ends(es[i], stage) && es[i].kind.value.outcome == outcome && Quiet(es, i, |es|, stage)
  }

  /** Last terminal wins: the fold knows exactly the stages that ended, each with
      the outcome after which it did not end again. */
  lemma {:induction false} OutcomeIsLastTerminal(es: seq<Event>, stage: string)
    ensures stage !in Outcomes(es) ==> Quiet(es, -1, |es|, stage)
    ensures stage in Outcomes(es) ==> exists i: nat :: LastTerminal(es, i, stage, Outcomes(es)[stage])
    decreases |es|
  {
    if es != [] {
      var n, before := |es| - 1, es[..|es| - 1];
      OutcomeIsLastTerminal(before, stage);
      if Ends(es[n], stage) {
        assert LastTerminal(es, n, stage, Outcomes(es)[stage]);
      } else if stage in Outcomes(before) {
        var i: nat :| LastTerminal(before, i, stage, Outcomes(before)[stage]);
        QuietExtends(es, i, stage);
        assert LastTerminal(es, i, stage, Outcomes(es)[stage]);
      } else {
        QuietExtends(es, -1, stage);
      }
    }
  }

  lemma QuietExtends(es: seq<Event>, from: int, stage: string)
    requires |es| > 0 && -1 <= from && Quiet(es[..|es| - 1], from, |es| - 1, stage) && !Ends(es[|es| - 1], stage)
    ensures Quiet(es, from, |es|, stage)
  {
    forall k | from < k < |es| ensures !Ends(es[k], stage) {
      if k < |es| - 1 { assert es[..|es| - 1][k] == es[k]; }
    }
  }

  method ReconstructStageOutcomes(events: seq<Event>) returns (out: map<string, Outcome>)
    ensures out == Outcomes(events)
  {
    out := map[];
    for i := 0 to |events|
      invariant out == Outcomes(events[..i])
    {
      var e := events[i];
      TakeSnoc(events, i);
      assert (events[..i] + [e])[..i] == events[..i];
      if e.stage == "" {
        continue;
      }
      if e.kind.Some? && e.kind.value.StageEnded? {
        out := out[e.stage := e.kind.value.outcome];
      }
    }
    TakeAll(events);
  }
}
