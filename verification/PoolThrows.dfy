/** When a FatalAbort thrown in a worker pool can be masked by an ordinary throw
    that settles first: exactly when the two can be in flight together. */
module PoolThrows {
  import opened Nodes
  import opened Options
  import opened Seqs
  import opened WorkerPool

  /** A function whose end stops the pool. */
  predicate Blocks(job: Job, i: nat) {
    match job.ends(i)
    case Rejects(_) => true
    case Resolves(v) => job.cancels && v.NodeCancelled?
  }

  /** How many of the first `k` functions stop the pool. */
  function Blockers(job: Job, k: nat): nat {
    if k == 0 then 0 else Blockers(job, k - 1) + if Blocks(job, k - 1) then 1 else 0
  }

  predicate ThrowsOrdinary(job: Job, i: nat) { i < job.size && job.ends(i).Rejects? && !job.ends(i).error.fatal }

  predicate ThrowsFatal(job: Job, i: nat) { i < job.size && job.ends(i).Rejects? && job.ends(i).error.fatal }

  function Max(a: nat, b: nat): nat { if a < b then b else a }

  predicate CanMeet(job: Job, n: nat, i: nat, j: nat) {
    ThrowsOrdinary(job, i) && ThrowsFatal(job, j) && Blockers(job, Max(i, j) + 1) <= n
  }

  /** An ordinary and a fatal thrower that `n` workers can hold at the same time:
      nothing before them has to stop the pool first. */
  ghost predicate Race(job: Job, n: nat) { exists i: nat, j: nat :: CanMeet(job, n, i, j) }

  predicate HasThrown(p: Pool, i: nat) { i < |p.starts| && !Running(p, i) }

  /** A fatal error was thrown, and the pool rejects with an ordinary one. */
  ghost predicate Masked(job: Job, p: Pool) {
    p.rejection.Some? && !p.rejection.value.fatal && exists j: nat :: ThrowsFatal(job, j) && HasThrown(p, j)
  }

  // ----- no masking without a race -----------------------------------------------------

  /** Every started function that stops the pool is still in flight. */
  predicate BlockersRun(job: Job, p: Pool) { forall i :: 0 <= i < |p.starts| && Blocks(job, i) ==> Running(p, i) }

  /** What a pool of `n` workers has started holds at most `n` blockers. */
  predicate Bounded(job: Job, p: Pool) {
    && Blockers(job, |p.starts|) <= |p.workers|
    && (!p.threw && !p.aborted ==> BlockersRun(job, p))
    && (p.rejection.Some? ==> exists i :: 0 <= i < |p.starts| && job.ends(i) == Rejects(p.rejection.value))
  }

  lemma {:induction false} BlockersMonotone(job: Job, a: nat, b: nat)
    requires a <= b
    ensures Blockers(job, a) <= Blockers(job, b)
    decreases b
  {
    if a < b {
      BlockersMonotone(job, a, b - 1);
    }
  }

  function BlockersBelow(job: Job, k: nat): (s: set<nat>)
    ensures |s| == Blockers(job, k)
    ensures forall i: nat :: i in s <==> i < k && Blocks(job, i)
  {
    if k == 0 then {} else BlockersBelow(job, k - 1) + if Blocks(job, k - 1) then {k - 1} else {}
  }

  /** Blockers in flight are held by distinct workers. */
  lemma RunningBlockersFit(job: Job, p: Pool, k: nat)
    requires forall i: nat :: i < k && Blocks(job, i) ==> Running(p, i)
    ensures Blockers(job, k) <= |p.workers|
  {
    SubsetSize(BlockersBelow(job, k), InFlight(p.workers));
  }

  lemma TakeKeepsBounded(job: Job, p: Pool, w: nat)
    requires Inv(job, p) && Bounded(job, p) && w < |p.workers| && p.workers[w].Idle?
    ensures Bounded(job, Polled(p, w))
  {
    var q := Polled(p, w);
    UpdateIn(p.workers, w, q.workers[w]);
    if q.starts != p.starts {
      RunningBlockersFit(job, q, |q.starts|);
    }
  }

  lemma SettleKeepsBounded(job: Job, p: Pool, w: nat, i: nat)
    requires Inv(job, p) && Bounded(job, p) && w < |p.workers| && p.workers[w] == Busy(i)
    ensures Bounded(job, Settled(job, p, w, i))
  {
    var q := Settled(job, p, w, i);
    UpdateIn(p.workers, w, q.workers[w]);
  }

  lemma {:induction false} RunKeepsBounded(job: Job, p: Pool, ms: seq<Move>)
    requires Inv(job, p) && Bounded(job, p)
    ensures Bounded(job, Run(job, p, ms)) && Inv(job, Run(job, p, ms)) && |Run(job, p, ms).workers| == |p.workers|
    decreases |ms|
  {
    if ms != [] {
      StepKeepsInv(job, p, ms[0]);
      match ms[0] {
        case Abort =>
        case Poll(w) => if w < |p.workers| && p.workers[w].Idle? { TakeKeepsBounded(job, p, w); }
        case Settle(w) => if w < |p.workers| && p.workers[w].Busy? { SettleKeepsBounded(job, p, w, p.workers[w].i); }
      }
      RunKeepsBounded(job, Step(job, p, ms[0]), ms[1..]);
    }
  }

  lemma MaskedNeedsARace(job: Job, concurrency: nat, ms: seq<Move>)
    requires Masked(job, Run(job, Start(job, concurrency), ms))
    ensures Race(job, Min(concurrency, job.size))
  {
    StartInv(job, concurrency);
    RunKeepsBounded(job, Start(job, concurrency), ms);
    var p := Run(job, Start(job, concurrency), ms);
    var i: nat :| i < |p.starts| && job.ends(i) == Rejects(p.rejection.value);
    var j: nat :| ThrowsFatal(job, j) && HasThrown(p, j);
    BlockersMonotone(job, Max(i, j) + 1, |p.starts|);
    assert CanMeet(job, Min(concurrency, job.size), i, j);
  }

  // ----- the schedules of the pool ----------------------------------------------------------

  /** The first moves of a pool: its workers are created one after the other, and
      each looks at the queue before the next. */
  function Polls(n: nat): (ms: seq<Move>)
    ensures |ms| == n
  {
    if n == 0 then [] else Polls(n - 1) + [Move.Poll(n - 1)]
  }

  predicate Leaves(job: Job, p: Pool, w: nat) { w < |p.workers| && Step(job, p, Move.Settle(w)).workers[w].Idle? }

  /** From then on a worker whose function has returned looks at the queue before
      anyone else moves. */
  predicate EagerFrom(job: Job, p: Pool, ms: seq<Move>)
    decreases |ms|
  {
    if ms == [] then true
    else match ms[0] {
      case Abort => EagerFrom(job, Step(job, p, ms[0]), ms[1..])
      case Poll(_) => false
      case Settle(w) =>
        var q := Step(job, p, ms[0]);
        if Leaves(job, p, w) then |ms| > 1 && ms[1] == Move.Poll(w) && EagerFrom(job, Step(job, q, ms[1]), ms[2..])
        else EagerFrom(job, q, ms[1..])
    }
  }

  function Created(job: Job, concurrency: nat): Pool {
    Run(job, Start(job, concurrency), Polls(Min(concurrency, job.size)))
  }

  /** A schedule the pool can take. */
  predicate Eager(job: Job, concurrency: nat, ms: seq<Move>) {
    var n := Min(concurrency, job.size);
    Polls(n) <= ms && EagerFrom(job, Created(job, concurrency), ms[n..])
  }

  lemma {:induction false} RunConcat(job: Job, p: Pool, a: seq<Move>, b: seq<Move>)
    ensures Run(job, p, a + b) == Run(job, Run(job, p, a), b)
    decreases |a|
  {
    if a == [] {
      assert a + b == b;
    } else {
      assert (a + b)[1..] == a[1..] + b;
      RunConcat(job, Step(job, p, a[0]), a[1..], b);
    }
  }

  lemma RunOne(job: Job, p: Pool, m: Move)
    ensures Run(job, p, [m]) == Step(job, p, m)
  {
    assert [m][1..] == [];
  }

  lemma RunTwo(job: Job, p: Pool, a: seq<Move>)
    requires |a| > 1
    ensures Run(job, p, a) == Run(job, Step(job, Step(job, p, a[0]), a[1]), a[2..])
  {
    assert a[1..][0] == a[1] && a[1..][1..] == a[2..];
    assert Run(job, p, a) == Run(job, Step(job, p, a[0]), a[1..]);
  }

  lemma {:induction false} EagerConcat(job: Job, p: Pool, a: seq<Move>, b: seq<Move>)
    requires EagerFrom(job, p, a) && EagerFrom(job, Run(job, p, a), b)
    ensures EagerFrom(job, p, a + b)
    decreases |a|
  {
    if a == [] {
      assert a + b == b;
    } else {
      var q := Step(job, p, a[0]);
      assert (a + b)[1..] == a[1..] + b;
      if a[0].Settle? && Leaves(job, p, a[0].w) {
        RunTwo(job, p, a);
        assert (a + b)[2..] == a[2..] + b;
        EagerConcat(job, Step(job, q, a[1]), a[2..], b);
      } else {
        EagerConcat(job, q, a[1..], b);
      }
    }
  }

  // ----- a race can be lost ----------------------------------------------------------------

  predicate Holds(p: Pool, c: nat) {
    forall w :: 0 <= w < |p.workers| ==> p.workers[w] == if w < c then Busy(w) else Idle
  }

  lemma {:induction false} Creation(job: Job, concurrency: nat, c: nat)
    requires c <= Min(concurrency, job.size)
    ensures var p := Run(job, Start(job, concurrency), Polls(c));
      Inv(job, p) && |p.workers| == Min(concurrency, job.size) && |p.starts| == c && !p.threw && !p.aborted && Holds(p, c)
    decreases c
  {
    StartInv(job, concurrency);
    if c > 0 {
      Creation(job, concurrency, c - 1);
      var p := Run(job, Start(job, concurrency), Polls(c - 1));
      RunConcat(job, Start(job, concurrency), Polls(c - 1), [Move.Poll(c - 1)]);
      RunOne(job, p, Move.Poll(c - 1));
      StepKeepsInv(job, p, Move.Poll(c - 1));
    }
  }

  /** Exactly the first `k` functions have been started, those that stop the pool
      are still in flight, and every worker has one. */
  predicate Full(job: Job, p: Pool, k: nat) {
    && Inv(job, p) && |p.starts| == k && !p.threw && !p.aborted && BlockersRun(job, p)
    && forall w :: 0 <= w < |p.workers| ==> p.workers[w].Busy?
  }

  lemma CreatedIsFull(job: Job, concurrency: nat)
    ensures var p := Created(job, concurrency);
      Full(job, p, Min(concurrency, job.size)) && |p.workers| == Min(concurrency, job.size)
  {
    var n := Min(concurrency, job.size);
    Creation(job, concurrency, n);
    var p := Created(job, concurrency);
    forall i | 0 <= i < |p.starts| ensures Running(p, i) {
      assert p.workers[i] == Busy(i);
    }
  }

  lemma {:induction false} AllBusyFillsUp(ws: seq<Worker>)
    requires forall v, w :: 0 <= v < w < |ws| && ws[v].Busy? ==> ws[v] != ws[w]
    requires forall w :: 0 <= w < |ws| ==> ws[w].Busy?
    ensures |InFlight(ws)| == |ws|
    decreases |ws|
  {
    if ws != [] {
      AllBusyFillsUp(ws[..|ws| - 1]);
    }
  }

  /** Some worker of a full pool holds a function that does not stop it. */
  lemma SomeoneReturns(job: Job, p: Pool, k: nat) returns (w: nat)
    requires Full(job, p, k) && Blockers(job, k) < |p.workers|
    ensures w < |p.workers| && p.workers[w].Busy? && !Blocks(job, p.workers[w].i)
  {
    AllBusyFillsUp(p.workers);
    assert forall i :: i in InFlight(p.workers) ==> i < k;
    if InFlight(p.workers) <= BlockersBelow(job, k) {
      SubsetSize(InFlight(p.workers), BlockersBelow(job, k));
      assert false;
    }
    var i :| i in InFlight(p.workers) && i !in BlockersBelow(job, k);
    w :| w < |p.workers| && p.workers[w] == Busy(i);
  }

  /** It returns, and takes the next function. */
  lemma FullNext(job: Job, p: Pool, k: nat) returns (w: nat)
    requires Full(job, p, k) && k < job.size && Blockers(job, k) < |p.workers|
    ensures var ms := [Move.Settle(w), Move.Poll(w)];
      EagerFrom(job, p, ms) && Full(job, Run(job, p, ms), k + 1) && |Run(job, p, ms).workers| == |p.workers|
  {
    w := SomeoneReturns(job, p, k);
    var q := Step(job, p, Move.Settle(w));
    StepKeepsInv(job, p, Move.Settle(w));
    UpdateIn(p.workers, w, Idle);
    StepKeepsInv(job, q, Move.Poll(w));
    UpdateIn(q.workers, w, Busy(k));
    var ms := [Move.Settle(w), Move.Poll(w)];
    assert ms[1..] == [Move.Poll(w)] && ms[2..] == [];
    RunOne(job, q, Move.Poll(w));
  }

  lemma {:induction false} Reach(job: Job, concurrency: nat, k: nat) returns (ms: seq<Move>)
    requires Min(concurrency, job.size) <= k <= job.size
    requires k > Min(concurrency, job.size) ==> Blockers(job, k - 1) < Min(concurrency, job.size)
    ensures var start := Created(job, concurrency); var p := Run(job, start, ms);
      EagerFrom(job, start, ms) && Full(job, p, k) && |p.workers| == Min(concurrency, job.size)
    decreases k
  {
    CreatedIsFull(job, concurrency);
    var start := Created(job, concurrency);
    if k == Min(concurrency, job.size) {
      return [];
    }
    if k > 1 {
      BlockersMonotone(job, k - 2, k - 1);
    }
    var before := Reach(job, concurrency, k - 1);
    var p := Run(job, start, before);
    var w := FullNext(job, p, k - 1);
    EagerConcat(job, start, before, [Move.Settle(w), Move.Poll(w)]);
    RunConcat(job, start, before, [Move.Settle(w), Move.Poll(w)]);
    ms := before + [Move.Settle(w), Move.Poll(w)];
  }

  /** With both in flight, let the ordinary throw settle first. */
  lemma LoseTheRace(job: Job, p: Pool, v: nat, w: nat, i: nat, j: nat)
    requires Inv(job, p) && !p.threw && v < |p.workers| && w < |p.workers|
    requires p.workers[v] == Busy(i) && p.workers[w] == Busy(j) && ThrowsOrdinary(job, i) && ThrowsFatal(job, j)
    ensures var ms := [Move.Settle(v), Move.Settle(w)]; EagerFrom(job, p, ms) && Masked(job, Run(job, p, ms))
  {
    var ms, q := [Move.Settle(v), Move.Settle(w)], Step(job, p, Move.Settle(v));
    var r := Step(job, q, Move.Settle(w));
    UpdateIn(q.workers, w, Crashed);
    assert forall u :: 0 <= u < |r.workers| && r.workers[u] == Busy(j) ==> u == w;
    assert HasThrown(r, j);
    assert ms[1..] == [Move.Settle(w)] && ms[1..][1..] == [];
    RunOne(job, q, Move.Settle(w));
  }

  lemma RaceCanBeLost(job: Job, concurrency: nat) returns (ms: seq<Move>)
    requires Race(job, Min(concurrency, job.size))
    ensures Eager(job, concurrency, ms) && MaskedBy(job, concurrency, ms)
  {
    var i: nat, j: nat :| CanMeet(job, Min(concurrency, job.size), i, j);
    var n, m, start := Min(concurrency, job.size), Max(i, j), Created(job, concurrency);
    assert Blocks(job, i) && Blocks(job, j);
    assert m + 1 > n ==> Blockers(job, m) < n;
    var before := Reach(job, concurrency, Max(n, m + 1));
    var p := Run(job, start, before);
    assert Running(p, i) && Running(p, j);
    var v: nat :| v < |p.workers| && p.workers[v] == Busy(i);
    var w: nat :| w < |p.workers| && p.workers[w] == Busy(j);
    LoseTheRace(job, p, v, w, i, j);
    var last := [Move.Settle(v), Move.Settle(w)];
    EagerConcat(job, start, before, last);
    RunConcat(job, start, before, last);
    ms := Polls(n) + (before + last);
    RunConcat(job, Start(job, concurrency), Polls(n), before + last);
    assert ms[n..] == before + last;
  }

  ghost predicate MaskedBy(job: Job, concurrency: nat, ms: seq<Move>) { Masked(job, Run(job, Start(job, concurrency), ms)) }

  ghost predicate MaskedEagerly(job: Job, concurrency: nat, ms: seq<Move>) {
    Eager(job, concurrency, ms) && MaskedBy(job, concurrency, ms)
  }

  /** Some schedule of the pool masks a fatal throw exactly when an ordinary thrower
      and a fatal one can be in flight together; schedules in which workers dawdle
      would not mask any more. */
  lemma MaskedExactlyByRaces(job: Job, concurrency: nat)
    ensures (exists ms :: MaskedEagerly(job, concurrency, ms)) <==> Race(job, Min(concurrency, job.size))
    ensures (exists ms :: MaskedBy(job, concurrency, ms)) <==> Race(job, Min(concurrency, job.size))
  {
    if ms :| MaskedBy(job, concurrency, ms) {
      MaskedNeedsARace(job, concurrency, ms);
    }
    if Race(job, Min(concurrency, job.size)) {
      var ms := RaceCanBeLost(job, concurrency);
      assert MaskedEagerly(job, concurrency, ms) && MaskedBy(job, concurrency, ms);
    }
    if ms :| MaskedEagerly(job, concurrency, ms) {
      assert MaskedBy(job, concurrency, ms);
      MaskedNeedsARace(job, concurrency, ms);
    }
  }

  /** A single worker never masks a FatalAbort. */
  lemma OneWorkerNeverMasks(job: Job, ms: seq<Move>)
    ensures !Masked(job, Run(job, Start(job, 1), ms))
  {
    if Masked(job, Run(job, Start(job, 1), ms)) {
      MaskedNeedsARace(job, 1, ms);
      var i: nat, j: nat :| CanMeet(job, Min(1, job.size), i, j);
      BlockersMonotone(job, if i < j then i + 1 else j + 1, Max(i, j));
      assert false;
    }
  }
}
