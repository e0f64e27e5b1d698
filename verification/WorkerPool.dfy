/** The worker pool behind `parallel` and `map`, step by step: workers share a
    queue, and between two awaits only one of them moves. A schedule is any
    sequence of moves; a move that is not possible changes nothing. */
module WorkerPool {
  import opened Nodes
  import opened Options
  import opened Seqs

  /** How the i-th function ends; it is called at most once. */
  datatype Ending = Resolves(value: NodeResult) | Rejects(error: Err)

  datatype Worker = Idle | Busy(i: nat) | Exited | Crashed

  /** A move: a worker looks at the queue, the function a worker awaits ends, or
      the signal fires. */
  datatype Move = Poll(w: nat) | Settle(w: nat) | Abort

  datatype Pool = Pool(
    queue: seq<nat>,
    workers: seq<Worker>,
    results: map<nat, NodeResult>,
    threw: bool,
    aborted: bool,
    rejection: Option<Err>,       // what Promise.all rejects with
    starts: seq<nat>)             // every function started, in order

  /** The functions of one call: how many, how each ends, and whether a cancelled
      result fires the signal (it does in `parallel`, not in `map`). */
  datatype Job = Job(size: nat, ends: nat -> Ending, cancels: bool)

  function Range(a: nat, b: nat): (s: seq<nat>)
    requires a <= b
    ensures |s| == b - a && forall k :: 0 <= k < |s| ==> s[k] == a + k
  {
    seq(b - a, k requires 0 <= k < b - a => a + k)
  }

  function Min(a: nat, b: nat): nat { if a < b then a else b }

  function Start(job: Job, concurrency: nat): Pool {
    Pool(Range(0, job.size), seq(Min(concurrency, job.size), _ => Idle), map[], false, false, None, [])
  }

  function Step(job: Job, p: Pool, m: Move): Pool {
    match m
    case Abort => p.(aborted := true)
    case Poll(w) => if w < |p.workers| && p.workers[w].Idle? then Polled(p, w) else p
    case Settle(w) => if w < |p.workers| && p.workers[w].Busy? then Settled(job, p, w, p.workers[w].i) else p
  }

  function Polled(p: Pool, w: nat): Pool
    requires w < |p.workers|
  {
    if p.queue == [] || p.aborted || p.threw then p.(workers := p.workers[w := Exited])
    else p.(queue := p.queue[1..], workers := p.workers[w := Busy(p.queue[0])], starts := p.starts + [p.queue[0]])
  }

  function Settled(job: Job, p: Pool, w: nat, i: nat): Pool
    requires w < |p.workers|
  {
    match job.ends(i)
    case Resolves(v) =>
      p.(results := p.results[i := v], workers := p.workers[w := Idle],
         aborted := p.aborted || (job.cancels && v.NodeCancelled?))
    case Rejects(e) =>
      p.(threw := true, workers := p.workers[w := Crashed],
         rejection := if p.rejection.None? then Some(e) else p.rejection)
  }

  function Run(job: Job, p: Pool, ms: seq<Move>): Pool
    decreases |ms|
  {
    if ms == [] then p else Run(job, Step(job, p, ms[0]), ms[1..])
  }

  // ----- the pool as an object -----------------------------------------------------

  class Workers {
    const job: Job
    var queue: seq<nat>
    var workers: seq<Worker>
    var results: map<nat, NodeResult>
    var threw: bool
    var aborted: bool
    var rejection: Option<Err>
    var starts: seq<nat>

    function State(): Pool
      reads this
    {
      Pool(queue, workers, results, threw, aborted, rejection, starts)
    }

    constructor (job: Job, concurrency: nat)
      ensures this.job == job && State() == Start(job, concurrency)
    {
      this.job, queue, results := job, Range(0, job.size), map[];
      workers := seq(Min(concurrency, job.size), _ => Idle);
      threw, aborted, rejection, starts := false, false, None, [];
    }

    /** The head of a worker's loop. */
    method Poll(w: nat)
      requires w < |workers| && workers[w].Idle?
      modifies this
      ensures State() == Step(job, old(State()), Move.Poll(w))
    {
      if |queue| == 0 || aborted || threw {
        workers := workers[w := Exited];
        return;
      }
      var entry := queue[0];
      queue := queue[1..];
      starts := starts + [entry];
      workers := workers[w := Busy(entry)];
    }

    /** The awaited function of a worker ends. */
    method Settle(w: nat)
      requires w < |workers| && workers[w].Busy?
      modifies this
      ensures State() == Step(job, old(State()), Move.Settle(w))
    {
      var i := workers[w].i;
      match job.ends(i)
      case Resolves(v) =>
        if job.cancels && v.NodeCancelled? {
          aborted := true;
        }
        results := results[i := v];
        workers := workers[w := Idle];
      case Rejects(e) =>
        threw := true;
        workers := workers[w := Crashed];
        if rejection.None? {
          rejection := Some(e);
        }
    }
  }

  // ----- what every schedule keeps ---------------------------------------------------

  predicate Running(p: Pool, i: nat) { Busy(i) in p.workers }

  /** A started function is running, or has returned its value, or has thrown. */
  predicate Accounted(job: Job, p: Pool, i: nat) {
    if i in p.results then job.ends(i) == Resolves(p.results[i])
    else Running(p, i) || (p.threw && job.ends(i).Rejects?)
  }

  /** Functions are started in order, each at most once. */
  predicate InOrder(job: Job, p: Pool) {
    && |p.starts| <= job.size
    && p.starts == Range(0, |p.starts|)
    && p.queue == Range(|p.starts|, job.size)
  }

  predicate Consistent(job: Job, p: Pool) {
    && (forall i :: 0 <= i < |p.starts| ==> Accounted(job, p, i))
    && (forall i :: i in p.results ==> i < |p.starts|)
    && (forall w :: 0 <= w < |p.workers| && p.workers[w].Busy? ==> p.workers[w].i < |p.starts| && p.workers[w].i !in p.results)
  }

  /** No two workers run the same function. */
  predicate Exclusive(p: Pool) {
    forall v, w :: 0 <= v < w < |p.workers| && p.workers[v].Busy? ==> p.workers[v] != p.workers[w]
  }

  predicate Thrown(job: Job, e: Err) { exists i :: 0 <= i < job.size && job.ends(i) == Rejects(e) }

  predicate CancelledSomewhere(p: Pool) { exists i :: i in p.results && p.results[i].NodeCancelled? }

  /** Why a pool stops early. */
  predicate Explained(job: Job, p: Pool) {
    && (p.threw <==> p.rejection.Some?)
    && (p.threw ==> Thrown(job, p.rejection.value))
    && (Exited in p.workers ==> p.queue == [] || p.aborted || p.threw)
    && (Crashed in p.workers ==> p.threw)
    && (job.cancels && CancelledSomewhere(p) ==> p.aborted)
  }

  predicate Inv(job: Job, p: Pool) { InOrder(job, p) && Consistent(job, p) && Exclusive(p) && Explained(job, p) }

  lemma StartInv(job: Job, concurrency: nat)
    ensures Inv(job, Start(job, concurrency))
  {
  }

  lemma ExitKeepsInv(job: Job, p: Pool, w: nat)
    requires Inv(job, p) && w < |p.workers| && p.workers[w].Idle? && (p.queue == [] || p.aborted || p.threw)
    ensures Inv(job, Polled(p, w))
  {
    UpdateIn(p.workers, w, Exited);
    var q := Polled(p, w);
    forall i | 0 <= i < |q.starts|
      ensures Accounted(job, q, i)
    {
      assert Accounted(job, p, i);
    }
  }

  lemma TakeKeepsInv(job: Job, p: Pool, w: nat)
    requires Inv(job, p) && w < |p.workers| && p.workers[w].Idle? && p.queue != [] && !p.aborted && !p.threw
    ensures Inv(job, Polled(p, w))
  {
    UpdateIn(p.workers, w, Busy(p.queue[0]));
    var q := Polled(p, w);
    forall i | 0 <= i < |q.starts|
      ensures Accounted(job, q, i)
    {
      if i < |p.starts| {
        assert Accounted(job, p, i);
      }
    }
  }

  lemma ReturnKeepsInv(job: Job, p: Pool, w: nat, i: nat)
    requires Inv(job, p) && w < |p.workers| && p.workers[w] == Busy(i) && job.ends(i).Resolves?
    ensures Inv(job, Settled(job, p, w, i))
  {
    UpdateIn(p.workers, w, Idle);
    var q := Settled(job, p, w, i);
    forall k | 0 <= k < |q.starts|
      ensures Accounted(job, q, k)
    {
      assert Accounted(job, p, k);
    }
  }

  lemma CrashKeepsInv(job: Job, p: Pool, w: nat, i: nat)
    requires Inv(job, p) && w < |p.workers| && p.workers[w] == Busy(i) && job.ends(i).Rejects?
    ensures Inv(job, Settled(job, p, w, i))
  {
    UpdateIn(p.workers, w, Crashed);
    var q := Settled(job, p, w, i);
    forall k | 0 <= k < |q.starts|
      ensures Accounted(job, q, k)
    {
      assert Accounted(job, p, k);
    }
  }

  lemma StepKeepsInv(job: Job, p: Pool, m: Move)
    requires Inv(job, p)
    ensures Inv(job, Step(job, p, m)) && |Step(job, p, m).workers| == |p.workers|
  {
    match m
    case Abort =>
      forall i | 0 <= i < |p.starts|
        ensures Accounted(job, p.(aborted := true), i)
      {
        assert Accounted(job, p, i);
      }
    case Poll(w) =>
      if w < |p.workers| && p.workers[w].Idle? {
        if p.queue == [] || p.aborted || p.threw {
          ExitKeepsInv(job, p, w);
        } else {
          TakeKeepsInv(job, p, w);
        }
      }
    case Settle(w) =>
      if w < |p.workers| && p.workers[w].Busy? {
        if job.ends(p.workers[w].i).Resolves? {
          ReturnKeepsInv(job, p, w, p.workers[w].i);
        } else {
          CrashKeepsInv(job, p, w, p.workers[w].i);
        }
      }
  }

  lemma {:induction false} RunKeepsInv(job: Job, p: Pool, ms: seq<Move>)
    requires Inv(job, p)
    ensures Inv(job, Run(job, p, ms)) && |Run(job, p, ms).workers| == |p.workers|
    decreases |ms|
  {
    if ms != [] {
      StepKeepsInv(job, p, ms[0]);
      RunKeepsInv(job, Step(job, p, ms[0]), ms[1..]);
    }
  }

  // ----- bounds ------------------------------------------------------------------------

  /** The functions in flight. */
  function InFlight(ws: seq<Worker>): (s: set<nat>)
    ensures |s| <= |ws|
    ensures forall i :: i in s <==> Busy(i) in ws
    decreases |ws|
  {
    if ws == [] then {}
    else
      var last := ws[|ws| - 1];
      Snoc(ws);
      InFlight(ws[..|ws| - 1]) + if last.Busy? then {last.i} else {}
  }

  /** Under every schedule at most `concurrency` functions are in flight, each
      function is started at most once, and they are started in order. */
  lemma StaysWithinTheCap(job: Job, concurrency: nat, ms: seq<Move>)
    ensures var p := Run(job, Start(job, concurrency), ms);
      && |InFlight(p.workers)| <= concurrency
      && |p.starts| <= job.size && (forall k :: 0 <= k < |p.starts| ==> p.starts[k] == k)
      && forall i :: i in InFlight(p.workers) ==> i < |p.starts|
  {
    StartInv(job, concurrency);
    RunKeepsInv(job, Start(job, concurrency), ms);
  }

  /** Once a function threw or the signal fired, nothing is started any more. */
  lemma {:induction false} NoStartAfterStop(job: Job, p: Pool, ms: seq<Move>)
    requires p.threw || p.aborted
    ensures Run(job, p, ms).starts == p.starts && Run(job, p, ms).queue == p.queue
    decreases |ms|
  {
    if ms != [] {
      NoStartAfterStop(job, Step(job, p, ms[0]), ms[1..]);
    }
  }

  // ----- completion ----------------------------------------------------------------------

  predicate Finished(p: Pool) { forall w :: 0 <= w < |p.workers| ==> p.workers[w].Exited? || p.workers[w].Crashed? }

  predicate AllReturned(job: Job, results: map<nat, NodeResult>) {
    forall i :: 0 <= i < job.size ==> i in results && job.ends(i) == Resolves(results[i])
  }

  /** A pool that ran to its end without a throw or an abort has every function's
      value in its place, unless it was given no worker at all. */
  lemma CompletesExactlyWithWorkers(job: Job, concurrency: nat, ms: seq<Move>)
    requires var p := Run(job, Start(job, concurrency), ms); Finished(p) && !p.threw && !p.aborted
    ensures AllReturned(job, Run(job, Start(job, concurrency), ms).results) <==> concurrency > 0 || job.size == 0
  {
    StartInv(job, concurrency);
    RunKeepsInv(job, Start(job, concurrency), ms);
    var p := Run(job, Start(job, concurrency), ms);
    if concurrency > 0 && job.size > 0 {
      assert p.workers[0] in p.workers;
      forall i | 0 <= i < job.size
        ensures i in p.results && job.ends(i) == Resolves(p.results[i])
      {
        assert Accounted(job, p, i);
      }
    } else if job.size > 0 {
      NothingRuns(job, Start(job, concurrency), ms);
      assert 0 !in p.results;
    }
  }

  /** Without workers nothing happens. */
  lemma {:induction false} NothingRuns(job: Job, p: Pool, ms: seq<Move>)
    requires p.workers == [] && p.results == map[]
    ensures Run(job, p, ms).results == map[]
    decreases |ms|
  {
    if ms != [] {
      NothingRuns(job, Step(job, p, ms[0]), ms[1..]);
    }
  }

  predicate Effective(p: Pool, m: Move) {
    match m
    case Abort => false
    case Poll(w) => w < |p.workers| && p.workers[w].Idle?
    case Settle(w) => w < |p.workers| && p.workers[w].Busy?
  }

  function Effort(worker: Worker): nat {
    match worker case Busy(_) => 2 case Idle => 1 case _ => 0
  }

  function Efforts(ws: seq<Worker>): nat
    decreases |ws|
  {
    if ws == [] then 0 else Effort(ws[0]) + Efforts(ws[1..])
  }

  /** What is left to do. */
  function Left(p: Pool): nat { 3 * |p.queue| + Efforts(p.workers) }

  lemma {:induction false} EffortsUpdate(ws: seq<Worker>, w: nat, x: Worker)
    requires w < |ws|
    ensures Efforts(ws[w := x]) == Efforts(ws) - Effort(ws[w]) + Effort(x)
    decreases |ws|
  {
    if w == 0 {
      assert ws[w := x][1..] == ws[1..];
    } else {
      assert ws[w := x][1..] == ws[1..][w - 1 := x];
      EffortsUpdate(ws[1..], w - 1, x);
    }
  }

  lemma EveryMoveCounts(job: Job, p: Pool, m: Move)
    ensures Effective(p, m) ==> Left(Step(job, p, m)) < Left(p)
    ensures !Effective(p, m) ==> Left(Step(job, p, m)) == Left(p)
  {
    match m
    case Abort =>
    case Poll(w) =>
      if Effective(p, m) {
        EffortsUpdate(p.workers, w, Step(job, p, m).workers[w]);
      }
    case Settle(w) =>
      if Effective(p, m) {
        EffortsUpdate(p.workers, w, Step(job, p, m).workers[w]);
      }
  }

  /** How many moves of a schedule did anything. */
  function Moves(job: Job, p: Pool, ms: seq<Move>): nat
    decreases |ms|
  {
    if ms == [] then 0
    else (if Effective(p, ms[0]) then 1 else 0) + Moves(job, Step(job, p, ms[0]), ms[1..])
  }

  /** The pool neither runs for ever nor gets stuck: the moves of a schedule are
      bounded, and a pool that is not finished can always move. */
  lemma {:induction false} EveryScheduleEnds(job: Job, p: Pool, ms: seq<Move>)
    ensures Moves(job, p, ms) <= Left(p)
    ensures !Finished(p) ==> exists m :: Effective(p, m)
    decreases |ms|
  {
    if !Finished(p) {
      var w: nat :| w < |p.workers| && !p.workers[w].Exited? && !p.workers[w].Crashed?;
      assert Effective(p, if p.workers[w].Idle? then Move.Poll(w) else Move.Settle(w));
    }
    if ms != [] {
      EveryMoveCounts(job, p, ms[0]);
      EveryScheduleEnds(job, Step(job, p, ms[0]), ms[1..]);
    }
  }

  // ----- parallel --------------------------------------------------------------------------

  /** The failure `results.find` sees first. */
  function FirstFailed(results: map<nat, NodeResult>, i: nat, size: nat): Option<NodeResult>
    requires i <= size
    decreases size - i
  {
    if i == size then None
    else if i in results && results[i].NodeFailed? then Some(results[i])
    else FirstFailed(results, i + 1, size)
  }

  /** What `parallel` returns once its pool is done. */
  function ParallelResult(tolerant: bool, results: map<nat, NodeResult>, size: nat): NodeResult {
    if exists i :: i in results && results[i].NodeCancelled? then NodeCancelled
    else
      var failed := FirstFailed(results, 0, size);
      if !tolerant && failed.Some? then failed.value else NodeOk
  }

  /** The same, read off what the branches return. */
  predicate SomeBranchCancels(job: Job) { exists i :: 0 <= i < job.size && job.ends(i) == Resolves(NodeCancelled) }

  function FirstFailing(job: Job, i: nat): Option<NodeResult>
    requires i <= job.size
    decreases job.size - i
  {
    if i == job.size then None
    else if job.ends(i).Resolves? && job.ends(i).value.NodeFailed? then Some(job.ends(i).value)
    else FirstFailing(job, i + 1)
  }

  function BranchesResult(tolerant: bool, job: Job): NodeResult {
    if SomeBranchCancels(job) then NodeCancelled
    else
      var failed := FirstFailing(job, 0);
      if !tolerant && failed.Some? then failed.value else NodeOk
  }

  lemma {:induction false} SameFirstFailure(job: Job, results: map<nat, NodeResult>, i: nat)
    requires i <= job.size && AllReturned(job, results)
    ensures FirstFailed(results, i, job.size) == FirstFailing(job, i)
    decreases job.size - i
  {
    if i < job.size {
      SameFirstFailure(job, results, i + 1);
    }
  }

  lemma StepOnlyCancels(job: Job, p: Pool, m: Move)
    requires Inv(job, p) && (p.aborted ==> CancelledSomewhere(p)) && m != Abort
    ensures var q := Step(job, p, m); q.aborted ==> CancelledSomewhere(q)
  {
    var q := Step(job, p, m);
    if CancelledSomewhere(p) {
      var i :| i in p.results && p.results[i].NodeCancelled?;
      assert i in q.results && q.results[i].NodeCancelled?;
    } else if q.aborted {
      var i := p.workers[m.w].i;
      assert i in q.results && q.results[i].NodeCancelled?;
    }
  }

  /** Only a cancelled branch fires the signal of a parallel node. */
  lemma {:induction false} OnlyBranchesCancel(job: Job, p: Pool, ms: seq<Move>)
    requires Inv(job, p) && (p.aborted ==> CancelledSomewhere(p)) && Abort !in ms
    ensures var q := Run(job, p, ms); q.aborted ==> CancelledSomewhere(q)
    decreases |ms|
  {
    if ms != [] {
      var q := Step(job, p, ms[0]);
      StepKeepsInv(job, p, ms[0]);
      assert ms[0] in ms;
      StepOnlyCancels(job, p, ms[0]);
      OnlyBranchesCancel(job, q, ms[1..]);
    }
  }

  /** Whatever the interleaving, a parallel node whose branches do not throw
      returns what its branches decide: cancelled if one of them would be, even
      when that one was never started. */
  lemma ParallelIsScheduleIndependent(job: Job, concurrency: nat, ms: seq<Move>, tolerant: bool)
    requires job.cancels && concurrency > 0 && Abort !in ms
    requires forall i :: 0 <= i < job.size ==> job.ends(i).Resolves?
    requires Finished(Run(job, Start(job, concurrency), ms))
    ensures ParallelResult(tolerant, Run(job, Start(job, concurrency), ms).results, job.size) == BranchesResult(tolerant, job)
  {
    StartInv(job, concurrency);
    RunKeepsInv(job, Start(job, concurrency), ms);
    OnlyBranchesCancel(job, Start(job, concurrency), ms);
    var p := Run(job, Start(job, concurrency), ms);
    ResultsAreEndings(job, p);
    if SomeBranchCancels(job) {
      CancelShows(job, p);
    } else {
      CompletesExactlyWithWorkers(job, concurrency, ms);
      SameFirstFailure(job, p.results, 0);
    }
  }

  lemma ResultsAreEndings(job: Job, p: Pool)
    requires Inv(job, p)
    ensures forall i :: i in p.results ==> i < job.size && job.ends(i) == Resolves(p.results[i])
  {
    forall i | i in p.results
      ensures i < job.size && job.ends(i) == Resolves(p.results[i])
    {
      assert Accounted(job, p, i);
    }
  }

  lemma CancelShows(job: Job, p: Pool)
    requires Inv(job, p) && Finished(p) && (p.aborted ==> CancelledSomewhere(p)) && SomeBranchCancels(job)
    requires forall i :: 0 <= i < job.size ==> job.ends(i).Resolves?
    requires p.workers != []
    ensures CancelledSomewhere(p)
  {
    var i :| 0 <= i < job.size && job.ends(i) == Resolves(NodeCancelled);
    assert p.workers[0] in p.workers;
    if i < |p.starts| {
      assert Accounted(job, p, i);
    }
  }

  /** What a pool rejects with was thrown by one of its functions; a fatal throw
      surfaces whenever no function throws an ordinary error. */
  lemma RejectsWithAThrow(job: Job, concurrency: nat, ms: seq<Move>)
    ensures var p := Run(job, Start(job, concurrency), ms);
      && (p.rejection.Some? <==> p.threw)
      && (p.threw ==> Thrown(job, p.rejection.value))
      && (p.threw && (forall i :: 0 <= i < job.size && job.ends(i).Rejects? ==> job.ends(i).error.fatal) ==> p.rejection.value.fatal)
  {
    StartInv(job, concurrency);
    RunKeepsInv(job, Start(job, concurrency), ms);
  }

  /** An ordinary throw that settles first masks a FatalAbort thrown by a sibling
      in flight: of two branches and two workers, the pool rejects with the
      ordinary error although both have thrown. */
  lemma OrdinaryThrowCanWin(ordinary: Err, fatal: Err)
    requires !ordinary.fatal && fatal.fatal
    ensures var job := Job(2, i => Rejects(if i == 0 then ordinary else fatal), true);
      var p := Run(job, Start(job, 2), [Move.Poll(0), Move.Poll(1), Move.Settle(0), Move.Settle(1)]);
      Finished(p) && p.starts == [0, 1] && p.rejection == Some(ordinary)
  {
    var job := Job(2, i => Rejects(if i == 0 then ordinary else fatal), true);
    var ms := [Move.Poll(0), Move.Poll(1), Move.Settle(0), Move.Settle(1)];
    var p0 := Start(job, 2);
    var p1 := Step(job, p0, ms[0]);
    var p2 := Step(job, p1, ms[1]);
    var p3 := Step(job, p2, ms[2]);
    var p4 := Step(job, p3, ms[3]);
    assert p1.workers == [Busy(0), Idle] && p1.starts == [0];
    assert p2.workers == [Busy(0), Busy(1)] && p2.starts == [0, 1];
    assert p4.workers == [Crashed, Crashed] && p4.rejection == Some(ordinary);
    FourMoves(job, p0, ms);
  }

  lemma FourMoves(job: Job, p: Pool, ms: seq<Move>)
    requires |ms| == 4
    ensures Run(job, p, ms) == Step(job, Step(job, Step(job, Step(job, p, ms[0]), ms[1]), ms[2]), ms[3])
  {
    var a, b, c := ms[1..], ms[2..], ms[3..];
    assert a[1..] == b && b[1..] == c && c[1..] == [];
    assert a[0] == ms[1] && b[0] == ms[2] && c[0] == ms[3];
    var p1 := Step(job, p, ms[0]);
    var p2 := Step(job, p1, ms[1]);
    var p3 := Step(job, p2, ms[2]);
    assert Run(job, p3, c) == Step(job, p3, ms[3]);
    assert Run(job, p2, b) == Run(job, p3, c);
    assert Run(job, p1, a) == Run(job, p2, b);
  }

  // ----- the agent budget ----------------------------------------------------------------

  /** One atomic reservation: granted exactly below the cap. */
  function Spend(count: nat, max: nat): (bool, nat) { if count >= max then (false, count) else (true, count + 1) }

  /** The answers to a run of reservations, by whichever branch, and the final count. */
  function SpendAll(count: nat, max: nat, requests: nat): (seq<bool>, nat)
    decreases requests
  {
    if requests == 0 then ([], count)
    else
      var (granted, count') := Spend(count, max);
      var (rest, end) := SpendAll(count', max, requests - 1);
      ([granted] + rest, end)
  }

  class Budget {
    const max: nat
    var count: nat

    constructor (max: nat)
      ensures this.max == max && count == 0
    {
      this.max, count := max, 0;
    }

    method Spent() returns (granted: bool)
      modifies this
      ensures (granted, count) == Spend(old(count), max)
    {
      if count >= max {
        return false;
      }
      count := count + 1;
      granted := true;
    }
  }

  function Grants(answers: seq<bool>): nat {
    if answers == [] then 0 else (if answers[0] then 1 else 0) + Grants(answers[1..])
  }

  /** However branches interleave their reservations, min(requests, what is left)
      are granted, to the first that ask, and the count grows by the grants. */
  lemma {:induction false} GrantsAreExact(count: nat, max: nat, requests: nat)
    requires count <= max
    ensures var (answers, end) := SpendAll(count, max, requests);
      && |answers| == requests
      && Grants(answers) == Min(requests, max - count) && end == count + Grants(answers)
      && forall i :: 0 <= i < requests ==> (answers[i] <==> i < max - count)
    decreases requests
  {
    if requests > 0 {
      GrantsAreExact(Spend(count, max).1, max, requests - 1);
      var answers := SpendAll(count, max, requests).0;
      assert answers[1..] == SpendAll(Spend(count, max).1, max, requests - 1).0;
    }
  }
}
