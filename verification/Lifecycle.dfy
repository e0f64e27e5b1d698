/** The stage events of a run as the run log stores them: they meet INV-L6, and
    the reference fold over them tells the last result row of every stage. */
module Lifecycle {
  import opened NodeLaws
  import opened Nodes
  import opened Options
  import opened RunLogChecker
  import opened Seqs

  function KindOf(ev: StageEvent): Kind {
    match ev
    case Started(_) => StageStarted
    case Ended(_, outcome) => StageEnded(outcome)
  }

  /** The logged events of a run; events of a stage without an id are not logged. */
  function StreamOf(evs: seq<StageEvent>, runId: string): seq<Event> {
    if evs == [] then []
    else
      StreamOf(evs[..|evs| - 1], runId)
      + if evs[|evs| - 1].id == "" then [] else [Event(None, "", runId, evs[|evs| - 1].id, Some(KindOf(evs[|evs| - 1])))]
  }

  lemma StreamOfSnoc(evs: seq<StageEvent>, ev: StageEvent, runId: string)
    ensures StreamOf(evs + [ev], runId) == StreamOf(evs, runId) + if ev.id == "" then [] else [Event(None, "", runId, ev.id, Some(KindOf(ev)))]
  {
    assert (evs + [ev])[..|evs|] == evs;
  }

  function Logged(ps: seq<Pair>, runId: string): seq<Event> { StreamOf(EventsOf(ps), runId) }

  function LoggedPair(p: Pair, runId: string): (Event, Event) {
    (Event(None, "", runId, p.id, Some(StageStarted)), Event(None, "", runId, p.id, Some(StageEnded(p.outcome))))
  }

  /** A further pair adds a start and a terminal, or nothing. */
  lemma LoggedSnoc(ps: seq<Pair>, p: Pair, runId: string)
    ensures p.id == "" ==> Logged(ps + [p], runId) == Logged(ps, runId)
    ensures p.id != "" ==> Logged(ps + [p], runId) == Logged(ps, runId) + [LoggedPair(p, runId).0] + [LoggedPair(p, runId).1]
  {
    EventsConcat(ps, [p]);
    PairsOfOne(p);
    var evs, s, t := EventsOf(ps), Started(p.id), Ended(p.id, p.outcome);
    assert EventsOf(ps + [p]) == evs + ([s] + [t]) == evs + [s] + [t] by { Assoc(evs, [s], [t]); }
    StreamOfSnoc(evs, s, runId);
    StreamOfSnoc(evs + [s], t, runId);
  }

  // ----- INV-L6 ------------------------------------------------------------------------

  ghost predicate AllClosed(es: seq<Event>) { forall s :: !OpenAfter(es, |es|, s) }

  /** What the stream so far looks like does not depend on what follows. */
  lemma OpenInPrefix(es: seq<Event>, e: Event, n: nat, s: string)
    requires n <= |es|
    ensures OpenAfter(es + [e], n, s) <==> OpenAfter(es, n, s)
  {
    var all := es + [e];
    if OpenAfter(all, n, s) {
      var j :| 0 <= j < n && Starts(all[j], s) && Quiet(all, j, n, s);
      assert forall k :: 0 <= k < n ==> all[k] == es[k];
      assert Starts(es[j], s) && Quiet(es, j, n, s);
    }
    if OpenAfter(es, n, s) {
      var j :| 0 <= j < n && Starts(es[j], s) && Quiet(es, j, n, s);
      assert forall k :: 0 <= k < n ==> all[k] == es[k];
      assert Starts(all[j], s) && Quiet(all, j, n, s);
    }
  }

  lemma AlternatesInPrefix(es: seq<Event>, e: Event)
    requires AlternatesUpTo(es, |es|)
    ensures AlternatesUpTo(es + [e], |es|)
  {
    forall j | 0 <= j < |es|
      ensures Starts((es + [e])[j], (es + [e])[j].stage) ==> !OpenAfter(es + [e], j, (es + [e])[j].stage)
      ensures Ends((es + [e])[j], (es + [e])[j].stage) ==> OpenAfter(es + [e], j, (es + [e])[j].stage)
    {
      OpenInPrefix(es, e, j, es[j].stage);
    }
  }

  /** One more event on a stream: which stages it leaves open. */
  lemma OpenOneMore(es: seq<Event>, e: Event, s: string)
    ensures OpenAfter(es + [e], |es| + 1, s) <==> Starts(e, s) || (OpenAfter(es, |es|, s) && !Ends(e, s))
  {
    OpenNext(es + [e], |es|);
    OpenInPrefix(es, e, |es|, s);
  }

  /** One more event on a stream: what it must find open or closed. */
  lemma AlternatesOneMore(es: seq<Event>, e: Event)
    requires AlternatesUpTo(es, |es|)
    requires Starts(e, e.stage) ==> !OpenAfter(es, |es|, e.stage)
    requires Ends(e, e.stage) ==> OpenAfter(es, |es|, e.stage)
    ensures AlternatesUpTo(es + [e], |es| + 1)
  {
    AlternatesInPrefix(es, e);
    OpenInPrefix(es, e, |es|, e.stage);
    AlternatesNext(es + [e], |es|);
  }

  predicate IsPair(s: Event, t: Event) {
    s.kind == Some(StageStarted) && t.kind.Some? && t.kind.value.StageEnded? && s.stage == t.stage != ""
  }

  lemma PairCloses(es: seq<Event>, s: Event, t: Event, stage: string)
    requires IsPair(s, t) && !OpenAfter(es, |es|, stage)
    ensures !OpenAfter(es + [s] + [t], |es| + 2, stage)
  {
    OpenOneMore(es, s, stage);
    OpenOneMore(es + [s], t, stage);
  }

  /** A start and a terminal of one stage, appended to closed stages, leave them closed. */
  lemma PairAlternates(es: seq<Event>, s: Event, t: Event)
    requires AlternatesUpTo(es, |es|) && AllClosed(es) && IsPair(s, t)
    ensures AlternatesUpTo(es + [s] + [t], |es| + 2) && AllClosed(es + [s] + [t])
  {
    AlternatesOneMore(es, s);
    OpenOneMore(es, s, s.stage);
    AlternatesOneMore(es + [s], t);
    var all := es + [s] + [t];
    forall stage ensures !OpenAfter(all, |all|, stage) {
      PairCloses(es, s, t, stage);
    }
  }

  lemma {:induction false} LoggedAlternates(ps: seq<Pair>, runId: string)
    ensures var es := Logged(ps, runId); AlternatesUpTo(es, |es|) && AllClosed(es)
    decreases |ps|
  {
    if ps != [] {
      var before, p := ps[..|ps| - 1], ps[|ps| - 1];
      Snoc(ps);
      LoggedSnoc(before, p, runId);
      LoggedAlternates(before, runId);
      if p.id != "" {
        var es := Logged(before, runId);
        var (s, t) := LoggedPair(p, runId);
        PairAlternates(es, s, t);
      }
    }
  }

  /** Stages of paired events alternate whether the run ends with run.completed or
      is cut off. */
  lemma LoggedIsPaired(ps: seq<Pair>, runId: string)
    ensures var es := Logged(ps, runId);
      StagesPaired(es) && StagesPaired(es + [Event(None, "", runId, "", Some(RunCompleted))])
  {
    var es, last := Logged(ps, runId), Event(None, "", runId, "", Some(RunCompleted));
    LoggedAlternates(ps, runId);
    AlternatesOneMore(es, last);
    var all := es + [last];
    forall s ensures !OpenAfter(all, |all|, s) {
      OpenOneMore(es, last, s);
    }
  }

  // ----- the fold ------------------------------------------------------------------------

  /** The last row of a stage. */
  function LastRow(rows: seq<Row>, id: string): Option<RowStatus>
    decreases |rows|
  {
    if rows == [] then None
    else if rows[|rows| - 1].id == id then Some(rows[|rows| - 1].status)
    else LastRow(rows[..|rows| - 1], id)
  }

  lemma LastRowSnoc(rows: seq<Row>, row: Row, id: string)
    ensures LastRow(rows + [row], id) == if row.id == id then Some(row.status) else LastRow(rows, id)
  {
    assert (rows + [row])[..|rows|] == rows;
  }

  lemma OutcomesSnoc(es: seq<Event>, e: Event)
    ensures Outcomes(es + [e]) == if Ends(e, e.stage) then Outcomes(es)[e.stage := e.kind.value.outcome] else Outcomes(es)
  {
    assert (es + [e])[..|es|] == es;
  }

  /** What the fold says about a stage is what its last result row says. */
  lemma {:induction false} FoldIsLastRow(ps: seq<Pair>, runId: string, id: string)
    requires ValidPairs(ps) && id != ""
    ensures var out := Outcomes(Logged(ps, runId));
      LastRow(RowsOf(ps), id) == if id in out then Some(StatusOf(out[id])) else None
    decreases |ps|
  {
    if ps != [] {
      var before, p := ps[..|ps| - 1], ps[|ps| - 1];
      Snoc(ps);
      LoggedSnoc(before, p, runId);
      RowsConcat(before, [p]);
      PairsOfOne(p);
      LastRowSnoc(RowsOf(before), Row(p.id, p.status), id);
      FoldIsLastRow(before, runId, id);
      if p.id != "" {
        var es := Logged(before, runId);
        var (s, t) := LoggedPair(p, runId);
        OutcomesSnoc(es, s);
        OutcomesSnoc(es + [s], t);
      }
    }
  }

  // ----- trees of tasks --------------------------------------------------------------------

  /** A fresh run. */
  predicate Fresh(w: World) { w.rows == [] && w.events == [] && !w.raised }

  /** Any sequential tree whose stage bodies emit no stage events of their own and
      whose run is not ended by a FatalAbort logs a stream that meets INV-L6, and
      the fold over that stream knows the last result row of every stage. */
  lemma TreeLogsItsOutcomes(env: Env, n: Node, w: World, fuel: nat, runId: string, id: string)
    requires Fresh(w) && QuietBodies(env) && Eval(env, n, w, fuel).Some? && !Fatal(Eval(env, n, w, fuel).value.c) && id != ""
    ensures var w' := Eval(env, n, w, fuel).value.w;
      var es := StreamOf(w'.events, runId);
      && StagesPaired(es) && StagesPaired(es + [Event(None, "", runId, "", Some(RunCompleted))])
      && LastRow(w'.rows, id) == (if id in Outcomes(es) then Some(StatusOf(Outcomes(es)[id])) else None)
  {
    EvalLaw(env, n, w, fuel);
    var w' := Eval(env, n, w, fuel).value.w;
    var ps :| AddsPairs(w, w', ps);
    assert [] + EventsOf(ps) == EventsOf(ps) && [] + RowsOf(ps) == RowsOf(ps);
    LoggedIsPaired(ps, runId);
    FoldIsLastRow(ps, runId, id);
  }
}
