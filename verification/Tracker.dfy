/** The change tracker's brackets and the trace they leave. */
module Tracker {
  import opened GitDelta
  import opened Options
  import opened Seqs

  // ----- brackets ---------------------------------------------------------------------------

  /** `unit:id`. */
  datatype Key = Key(phase: bool, id: string)

  /** What git answers at the end of a bracket; any failing call makes it unavailable. */
  datatype Git = Unavailable | Answers(diffRaw: string, statusRaw: string)

  datatype Verdict = Ok | ClaimedMiss | GitUnavailable

  datatype Record = Record(git: Option<GitActual>, cross: Option<CrossCheck>, verdict: Verdict)

  datatype Line = Start(head: Option<string>) | End(record: Record)

  datatype State = State(
    baselines: map<Key, Option<string>>,
    endRecords: map<Key, Record>,
    trace: seq<(Key, Line)>)

  datatype Op =
    | Begin(key: Key, head: Option<string>)
    | Finish(key: Key, git: Git, claims: Option<Claims>)
    | Probe(key: Key, git: Git, claims: Option<Claims>)
    | Commit(key: Key)

  function CrossOf(env: Surroundings, c: Claims, git: GitActual): CrossCheck {
    CrossCheck(OfFate(env, git, c, Missed), Filter(IsUnclaimed(env, c), AllChanged(git)), OfFate(env, git, c, IgnoredVerified))
  }

  /** The record of a bracket's end; without a baseline only the working tree counts. */
  function EndRecord(env: Surroundings, baseline: Option<string>, git: Git, claims: Option<Claims>): Record {
    match git
    case Unavailable => Record(None, None, GitUnavailable)
    case Answers(diffRaw, statusRaw) =>
      var delta := Delta(Entries(if baseline.Some? then diffRaw else "", statusRaw));
      if claims.None? then Record(Some(delta), None, Ok)
      else
        var cross := CrossOf(env, claims.value, delta);
        Record(Some(delta), Some(cross), if cross.claimedNotChanged != [] then ClaimedMiss else Ok)
  }

  /** How the end of a bracket is recorded: from its baseline, git's answer and the claims. */
  type Recorder = (Option<string>, Git, Option<Claims>) -> Record

  function RecorderOf(env: Surroundings): Recorder {
    (baseline: Option<string>, git: Git, claims: Option<Claims>) => EndRecord(env, baseline, git, claims)
  }

  function Baseline(s: State, key: Key): Option<string> { if key in s.baselines then s.baselines[key] else None }

  function Append(s: State, key: Key, line: Line): State { s.(trace := s.trace + [(key, line)]) }

  function Step(rec: Recorder, s: State, op: Op): State {
    match op
    case Begin(key, head) => Append(s.(baselines := s.baselines[key := head]), key, Start(head))
    case Finish(key, git, claims) =>
      var r := rec(Baseline(s, key), git, claims);
      Append(s.(endRecords := s.endRecords[key := r]), key, End(r))
    case Probe(key, git, claims) =>
      s.(endRecords := s.endRecords[key := rec(Baseline(s, key), git, claims)])
    case Commit(key) => if key in s.endRecords then Append(s, key, End(s.endRecords[key])) else s
  }

  function Run(rec: Recorder, s: State, ops: seq<Op>): State
    decreases |ops|
  {
    if ops == [] then s else Step(rec, Run(rec, s, ops[..|ops| - 1]), ops[|ops| - 1])
  }

  class ChangeTracker {
    const env: Surroundings
    var baselines: map<Key, Option<string>>
    var endRecords: map<Key, Record>
    var trace: seq<(Key, Line)>

    function Now(): State
      reads this
    {
      State(baselines, endRecords, trace)
    }

    constructor (env: Surroundings)
      ensures this.env == env && Now() == State(map[], map[], [])
    {
      this.env, baselines, endRecords, trace := env, map[], map[], [];
    }

    method BeginBracket(key: Key, head: Option<string>)
      modifies this
      ensures Now() == Step(RecorderOf(env), old(Now()), Begin(key, head))
    {
      baselines := baselines[key := head];
      trace := trace + [(key, Start(head))];
    }

    method ComputeEndRecord(key: Key, git: Git, claims: Option<Claims>) returns (r: Record)
      ensures r == RecorderOf(env)(Baseline(Now(), key), git, claims)
    {
      if git.Unavailable? {
        return Record(None, None, GitUnavailable);
      }
      var beginHead := if key in baselines then baselines[key] else None;
      var delta := BuildGitActual(if beginHead.Some? then git.diffRaw else "", git.statusRaw);
      if claims.None? {
        return Record(Some(delta), None, Ok);
      }
      var cross := ComputeCrossCheck(env, claims.value, delta);
      r := Record(Some(delta), Some(cross), if cross.claimedNotChanged != [] then ClaimedMiss else Ok);
    }

    method EndBracket(key: Key, git: Git, claims: Option<Claims>) returns (r: Record)
      modifies this
      ensures Now() == Step(RecorderOf(env), old(Now()), Finish(key, git, claims)) && endRecords[key] == r
    {
      r := ComputeEndRecord(key, git, claims);
      endRecords := endRecords[key := r];
      trace := trace + [(key, End(r))];
    }

    method ProbeEnd(key: Key, git: Git, claims: Option<Claims>) returns (r: Record)
      modifies this
      ensures Now() == Step(RecorderOf(env), old(Now()), Probe(key, git, claims)) && endRecords[key] == r
    {
      r := ComputeEndRecord(key, git, claims);
      endRecords := endRecords[key := r];
    }

    method CommitEnd(key: Key)
      modifies this
      ensures Now() == Step(RecorderOf(env), old(Now()), Commit(key))
    {
      if key in endRecords {
        trace := trace + [(key, End(endRecords[key]))];
      }
    }
  }

  /** The lines of one bracket in the trace. */
  function LinesOf(trace: seq<(Key, Line)>, key: Key): seq<Line>
    decreases |trace|
  {
    if trace == [] then []
    else LinesOf(trace[..|trace| - 1], key) + if trace[|trace| - 1].0 == key then [trace[|trace| - 1].1] else []
  }

  lemma LinesOfSnoc(trace: seq<(Key, Line)>, key: Key, at: Key, line: Line)
    ensures LinesOf(trace + [(at, line)], key) == LinesOf(trace, key) + if at == key then [line] else []
  {
    assert (trace + [(at, line)])[..|trace|] == trace;
  }

  /** Between a begin and its commit: only probes concern the bracket. */
  predicate OnlyProbes(key: Key, ops: seq<Op>) { forall i :: 0 <= i < |ops| && ops[i].key == key ==> ops[i].Probe? }

  /** The record of the last probe. */
  function LastProbe(rec: Recorder, key: Key, head: Option<string>, ops: seq<Op>): Option<Record>
    decreases |ops|
  {
    if ops == [] then None
    else
      var last := ops[|ops| - 1];
      if last.key == key && last.Probe? then Some(rec(head, last.git, last.claims))
      else LastProbe(rec, key, head, ops[..|ops| - 1])
  }

  function Remembered(s: State, key: Key): Option<Record> {
    if key in s.endRecords then Some(s.endRecords[key]) else None
  }

  /** What a commit writes: the last probe's record, or what an earlier bracket of
      the same key left behind. */
  function Closing(rec: Recorder, s: State, key: Key, head: Option<string>, ops: seq<Op>): Option<Record> {
    var last := LastProbe(rec, key, head, ops);
    if last.Some? then last else Remembered(s, key)
  }

  /** What happens in other brackets does not concern this one. */
  lemma StepElsewhere(rec: Recorder, s: State, op: Op, key: Key)
    requires op.key != key
    ensures var s' := Step(rec, s, op);
      LinesOf(s'.trace, key) == LinesOf(s.trace, key) && Baseline(s', key) == Baseline(s, key) && Remembered(s', key) == Remembered(s, key)
  {
    match op
    case Begin(k, h) => LinesOfSnoc(s.trace, key, k, Start(h));
    case Finish(k, git, claims) => LinesOfSnoc(s.trace, key, k, End(rec(Baseline(s, k), git, claims)));
    case Probe(_, _, _) =>
    case Commit(k) => if k in s.endRecords { LinesOfSnoc(s.trace, key, k, End(s.endRecords[k])); }
  }

  lemma {:induction false} ProbesOnlyRemember(rec: Recorder, s: State, key: Key, ops: seq<Op>)
    requires OnlyProbes(key, ops)
    ensures var now := Run(rec, s, ops);
      && LinesOf(now.trace, key) == LinesOf(s.trace, key)
      && Baseline(now, key) == Baseline(s, key)
      && Remembered(now, key) == Closing(rec, s, key, Baseline(s, key), ops)
    decreases |ops|
  {
    if ops != [] {
      var rest, last := ops[..|ops| - 1], ops[|ops| - 1];
      ProbesOnlyRemember(rec, s, key, rest);
      if last.key != key {
        StepElsewhere(rec, Run(rec, s, rest), last, key);
      }
    }
  }

  /** Whatever other brackets do meanwhile, a begin, any number of probes and one
      commit leave one start line and one end line, which holds the last probe; a
      commit without a probe repeats an earlier bracket's record, or writes nothing. */
  lemma BracketLeavesTwoLines(rec: Recorder, s: State, key: Key, head: Option<string>, ops: seq<Op>)
    requires OnlyProbes(key, ops)
    ensures var closing := Closing(rec, s, key, head, ops);
      LinesOf(Step(rec, Run(rec, Step(rec, s, Begin(key, head)), ops), Commit(key)).trace, key) ==
        LinesOf(s.trace, key) + [Start(head)] + if closing.Some? then [End(closing.value)] else []
  {
    var begun := Step(rec, s, Begin(key, head));
    ProbesOnlyRemember(rec, begun, key, ops);
    LinesOfSnoc(s.trace, key, key, Start(head));
    var now := Run(rec, begun, ops);
    if key in now.endRecords {
      LinesOfSnoc(now.trace, key, key, End(now.endRecords[key]));
    }
  }
}
