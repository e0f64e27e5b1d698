/** The control-flow node algebra as a big-step semantics over a node tree.

    What stages, predicates, validators, users and the abort signal do is an
    `Env` of functions of the world they see; the world carries everything a
    node reads or writes, and a clock so that equal worlds never recur. */
module Nodes {
  import L = ConvergenceLedger
  import opened Options
  import R = ReviewFindings
  import opened RunLogChecker

  // ----- results --------------------------------------------------------------

  /** A thrown error; `fatal` is what `isFatalAbort` tests. */
  datatype Err = Err(message: string, fatal: bool)

  datatype NodeResult = NodeOk | NodeSkipped | NodeFailed(error: string) | NodeCancelled

  datatype Completion = Done(result: NodeResult) | Throw(error: Err)

  // ----- trees ----------------------------------------------------------------

  datatype Stage = Stage(id: string, fatal: bool)

  datatype GateSpec = GateSpec(key: Option<string>, attempts: nat, fatal: bool, validator: nat)

  datatype LoopSpec = LoopSpec(whileP: Option<nat>, untilP: Option<nat>, times: Option<nat>, tolerant: bool)

  /** Predicates, validators and collections are named by numbers. */
  datatype Node =
    | Task(stage: Stage)
    | Sequence(children: Children, tolerant: bool)
    | Branch(pred: nat, yes: Node, no: Option<Node>)
    | Choose(cases: Cases, otherwise: Option<Node>)
    | Loop(loop: LoopSpec, body: Node)
    | Retry(attempts: nat, matches: Option<nat>, body: Node)
    | Gate(spec: GateSpec, node: Node, fix: Option<Node>)
    | Map(over: nat, concurrency: nat, join: Option<nat>, body: Node)
    | Wait
    | TryCatch(body: Node, handler: Option<Node>, finalizer: Option<Node>)
    | Noop

  datatype Children = NoChildren | Child(head: Node, tail: Children)

  datatype Cases = NoCases | Cases(pred: nat, node: Node, rest: Cases)

  // ----- the world ------------------------------------------------------------

  datatype RowStatus = RowOk | RowFailed(error: string) | RowSkipped | RowCancelled

  /** A row of `ctx.results`. */
  datatype Row = Row(id: string, status: RowStatus)

  /** A stage event as the run log records it. */
  datatype StageEvent = Started(id: string) | Ended(id: string, outcome: Outcome)

  datatype World = World(
    clock: nat,
    rows: seq<Row>,
    events: seq<StageEvent>,
    ledger: seq<L.Finding>,
    feedback: map<string, seq<string>>,
    retries: map<string, nat>,
    accepted: set<string>,
    raised: bool)                 // a FatalAbort has been thrown somewhere

  datatype Answer<T> = Value(value: T) | Raise(error: Err)

  datatype BodyEnd = Returns(partial: bool) | Throws(error: Err)

  /** What a stage's own code does: rows and events of its own, then an end. */
  datatype Body = Body(rows: seq<Row>, events: seq<StageEvent>, end: BodyEnd)

  datatype Verdict = Verdict(pass: bool, errors: seq<string>)

  datatype Decision = AcceptLimitation | RetryWithGuidance | OtherChoice

  datatype Env = Env(
    aborted: World -> bool,
    skipped: string -> bool,
    enabled: (string, World) -> bool,
    budgetLeft: World -> bool,
    body: (string, World) -> Body,
    pred: (nat, World) -> Answer<bool>,
    items: (nat, World) -> Answer<nat>,
    validate: (nat, World) -> Answer<Verdict>,
    nonRetryable: string -> bool,
    escalate: Option<(string, World) -> Option<Decision>>,
    texts: L.Texts)

  /** What running a node yields; None means that the fuel ran out. */
  datatype Out = Out(c: Completion, w: World)

  type Res = Option<Out>

  function Return(r: NodeResult, w: World): Res { Some(Out(Done(r), w)) }

  function Raised(e: Err, w: World): Res { Some(Out(Throw(e), w.(raised := w.raised || e.fatal))) }

  function Tick(w: World): World { w.(clock := w.clock + 1) }

  // ----- task -----------------------------------------------------------------

  function Emit(w: World, ev: StageEvent): World { w.(events := w.events + [ev]) }

  /** `record`: a result row and the terminal event. */
  function Record(w: World, id: string, status: RowStatus, outcome: Outcome): World {
    Emit(w.(rows := w.rows + [Row(id, status)]), Ended(id, outcome))
  }

  predicate HasFailedRow(rows: seq<Row>, id: string) {
    exists i :: 0 <= i < |rows| && rows[i].id == id && rows[i].status.RowFailed?
  }

  function RunTask(env: Env, s: Stage, w: World): Res {
    if env.aborted(w) then Return(NodeCancelled, w)
    else if s.id != "setup" && env.skipped(s.id) then Return(NodeSkipped, Record(Emit(w, Started(s.id)), s.id, RowSkipped, Skipped))
    else if !env.enabled(s.id, w) then Return(NodeSkipped, Record(Emit(w, Started(s.id)), s.id, RowSkipped, Skipped))
    else if !env.budgetLeft(w) then
      var error := "budget exhausted before stage start";
      Return(NodeFailed(error), Record(Emit(w, Started(s.id)), s.id, RowFailed(error), Failed(Some(error))))
    else RunBody(env, s, Emit(w, Started(s.id)))
  }

  /** The stage has been announced; its body runs. */
  function RunBody(env: Env, s: Stage, w: World): Res {
    var b := env.body(s.id, w);
    var after := Tick(w.(rows := w.rows + b.rows, events := w.events + b.events));
    match b.end
    case Returns(partial) =>
      if env.aborted(after) then Return(NodeCancelled, Record(after, s.id, RowCancelled, Cancelled))
      else if HasFailedRow(b.rows, s.id) then Return(NodeOk, Emit(after, Ended(s.id, Completed(partial))))
      else Return(NodeOk, Record(after, s.id, RowOk, Completed(partial)))
    case Throws(e) =>
      if e.fatal then Raised(e, after)
      else if env.aborted(after) then Return(NodeCancelled, Record(after, s.id, RowCancelled, Cancelled))
      else
        var failed := Record(after, s.id, RowFailed(e.message), Failed(Some(e.message)));
        if s.fatal then Raised(e, failed) else Return(NodeFailed(e.message), failed)
  }

  // ----- the interpreter --------------------------------------------------------

  /** Ask a predicate that may be absent; the clock moves. */
  function Ask(env: Env, p: Option<nat>, fallback: bool, w: World): (Answer<bool>, World) {
    match p
    case None => (Value(fallback), w)
    case Some(n) => (env.pred(n, w), Tick(w))
  }

  function Eval(env: Env, n: Node, w: World, fuel: nat): Res
    decreases fuel, n, 3
  {
    match n
    case Task(s) => RunTask(env, s, w)
    case Sequence(children, tolerant) => EvalSequence(env, children, tolerant, w, fuel)
    case Branch(p, yes, no) =>
      if env.aborted(w) then Return(NodeCancelled, w)
      else (match env.pred(p, w)
        case Raise(e) => Raised(e, Tick(w))
        case Value(b) => if b then Eval(env, yes, Tick(w), fuel) else EvalOptional(env, no, NodeSkipped, Tick(w), fuel))
    case Choose(cases, otherwise) =>
      if env.aborted(w) then Return(NodeCancelled, w) else EvalCases(env, n, cases, w, fuel)
    case Loop(l, body) => EvalLoop(env, n, 1, NodeOk, w, fuel)
    case Retry(attempts, matches, body) => EvalRetry(env, n, 1, NodeFailed("never ran"), w, fuel)
    case Gate(spec, node, fix) =>
      var g := EvalGate(env, n, 1, [], w, fuel);
      if g.None? then None else Some(g.value.out)
    case Map(over, concurrency, join, body) =>
      if env.aborted(w) then Return(NodeCancelled, w)
      else if concurrency > 1 then Raised(Err("map() concurrency > 1 is unsafe", false), w)
      else (match env.items(over, w)
        case Raise(e) => Raised(e, Tick(w))
        case Value(count) => EvalItems(env, n, Queued(n.concurrency, count), false, Tick(w), fuel))
    case Wait =>
      if env.aborted(w) then Return(NodeCancelled, w)
      else Return(if env.aborted(Tick(w)) then NodeCancelled else NodeOk, Tick(w))
    case TryCatch(body, handler, finalizer) =>
      var r := Eval(env, body, w, fuel);
      if r.None? then None
      else (match r.value.c
        case Throw(e) => Handle(env, n, e, r.value.w, fuel)
        case Done(result) =>
          var f := EvalOptional(env, finalizer, NodeOk, r.value.w, fuel);
          if f.None? then None
          else if f.value.c.Throw? then Handle(env, n, f.value.c.error, f.value.w, fuel)
          else Return(result, f.value.w))
    case Noop => Return(NodeOk, w)
  }

  function EvalOptional(env: Env, n: Option<Node>, fallback: NodeResult, w: World, fuel: nat): Res
    decreases fuel, n, 4
  {
    match n
    case None => Return(fallback, w)
    case Some(m) => Eval(env, m, w, fuel)
  }

  function EvalSequence(env: Env, children: Children, tolerant: bool, w: World, fuel: nat): Res
    decreases fuel, children, 0
  {
    match children
    case NoChildren => Return(NodeOk, w)
    case Child(child, rest) =>
      if env.aborted(w) then Return(NodeCancelled, w)
      else
        var r := Eval(env, child, w, fuel);
        if r.None? then None
        else (match r.value.c
          case Throw(e) => if !tolerant || e.fatal then r else EvalSequence(env, rest, tolerant, r.value.w, fuel)
          case Done(result) =>
            if result.NodeCancelled? || (result.NodeFailed? && !tolerant) then r
            else EvalSequence(env, rest, tolerant, r.value.w, fuel))
  }

  function EvalCases(env: Env, n: Node, cases: Cases, w: World, fuel: nat): Res
    requires n.Choose? && (cases == n.cases || cases < n.cases)
    decreases fuel, n, 2, cases
  {
    match cases
    case NoCases => EvalOptional(env, n.otherwise, NodeSkipped, w, fuel)
    case Cases(p, node, rest) =>
      match env.pred(p, w)
      case Raise(e) => Raised(e, Tick(w))
      case Value(b) => if b then Eval(env, node, Tick(w), fuel) else EvalCases(env, n, rest, Tick(w), fuel)
  }

  /** Round `attempt` of a loop; every round costs one unit of fuel. */
  function EvalLoop(env: Env, n: Node, attempt: nat, last: NodeResult, w: World, fuel: nat): Res
    requires n.Loop?
    decreases fuel, n, 2
  {
    var l := n.loop;
    if l.times.Some? && attempt > l.times.value then Return(last, w)
    else if env.aborted(w) then Return(NodeCancelled, w)
    else
      var (goOn, w1) := Ask(env, l.whileP, true, w);
      if goOn.Raise? then Raised(goOn.error, w1)
      else if !goOn.value then Return(last, w1)
      else
        var (stop, w2) := Ask(env, l.untilP, false, w1);
        if stop.Raise? then Raised(stop.error, w2)
        else if stop.value then Return(last, w2)
        else
          var r := Eval(env, n.body, w2, fuel);
          if r.None? || r.value.c.Throw? then r
          else if r.value.c.result.NodeCancelled? || (r.value.c.result.NodeFailed? && !l.tolerant) then r
          else if fuel == 0 then None
          else EvalLoop(env, n, attempt + 1, r.value.c.result, r.value.w, fuel - 1)
  }

  function EvalRetry(env: Env, n: Node, attempt: nat, last: NodeResult, w: World, fuel: nat): Res
    requires n.Retry?
    decreases fuel, n, 2, n.attempts + 1 - attempt
  {
    if attempt > n.attempts then Return(last, w)
    else if env.aborted(w) then Return(NodeCancelled, w)
    else
      var r := Eval(env, n.body, w, fuel);
      if r.None? || r.value.c.Throw? || !r.value.c.result.NodeFailed? then r
      else
        var (again, w1) := Ask(env, n.matches, true, r.value.w);
        if again.Raise? then Raised(again.error, w1)
        else if !again.value then Return(r.value.c.result, w1)
        else EvalRetry(env, n, attempt + 1, r.value.c.result, Tick(w1), fuel)
  }

  /** How many items a map runs: none without a worker. */
  function Queued(concurrency: nat, count: nat): nat { if concurrency == 0 then 0 else count }

  /** The remaining items of a map, one at a time. A cancelled item does not stop
      the queue; it makes the whole map cancelled at the end. */
  function EvalItems(env: Env, n: Node, left: nat, cancelled: bool, w: World, fuel: nat): Res
    requires n.Map?
    decreases fuel, n, 2, left
  {
    if left == 0 then
      if cancelled then Return(NodeCancelled, w)
      else
        var (joined, w1) := Ask(env, n.join, true, w);
        if joined.Raise? then Raised(joined.error, w1) else Return(NodeOk, w1)
    else
      var r := Eval(env, n.body, Tick(w), fuel);
      if r.None? || r.value.c.Throw? then r
      else EvalItems(env, n, left - 1, cancelled || r.value.c.result.NodeCancelled?, r.value.w, fuel)
  }

  /** The catch clause of a tryCatch. */
  function Handle(env: Env, n: Node, e: Err, w: World, fuel: nat): Res
    requires n.TryCatch?
    decreases fuel, n, 2
  {
    if e.fatal then
      var f := EvalOptional(env, n.finalizer, NodeOk, w, fuel);
      if f.None? then None else Some(Out(Throw(e), f.value.w))
    else
      var r := EvalOptional(env, n.handler, NodeFailed(e.message), w, fuel);
      if r.None? || r.value.c.Throw? then r
      else
        var f := EvalOptional(env, n.finalizer, NodeOk, r.value.w, fuel);
        if f.None? || f.value.c.Throw? then f else Return(r.value.c.result, f.value.w)
  }

  // ----- gate -------------------------------------------------------------------

  /** A gate's outcome, how often it ran its target, what its validator said, the
      errors it reported, and whether the user accepted the failure as a limitation. */
  datatype GateOut = GateOut(out: Out, runs: nat, verdicts: seq<bool>, reported: seq<string>, limitation: bool)

  type GateRes = Option<GateOut>

  function GateKey(spec: GateSpec): string { if spec.key.Some? then spec.key.value else "gate" }

  function Owner(env: Env, key: string): L.Stage {
    match env.texts.stageOf(key) case Some(s) => s case None => L.Implementation
  }

  /** The finding recorded for one validator error. */
  function ErrorReview(error: string): R.Review {
    R.Review("", "", "", "high", R.Flag(true), "", error, error, "validator", "", "", [], false)
  }

  function ErrorReviews(errors: seq<string>): (rs: seq<R.Review>)
    ensures |rs| == |errors|
  {
    seq(|errors|, i requires 0 <= i < |errors| => ErrorReview(errors[i]))
  }

  function SetFeedback(w: World, key: Option<string>, errors: seq<string>): World {
    if key.Some? then w.(feedback := w.feedback[key.value := errors]) else w
  }

  /** A failed validation: its errors go into the ledger and the feedback. */
  function Rejected(env: Env, spec: GateSpec, errors: seq<string>, w: World): World {
    var recorded :=
      if spec.key.Some? && errors != [] then
        var key := spec.key.value;
        w.(ledger := L.RecordAll(env.texts, w.ledger, ErrorReviews(errors), L.Defaults(key, Owner(env, key), "validator")))
      else w;
    SetFeedback(recorded, spec.key, errors)
  }

  predicate OwnFinding(env: Env, key: string, f: L.Finding) { f.ownerStage == Owner(env, key) && f.detectedAtStage == key }

  /** A passed validation: feedback cleared, the gate's own findings verified. */
  function Passed(env: Env, spec: GateSpec, w: World): World {
    if spec.key.None? then w
    else
      var key := spec.key.value;
      w.(feedback := w.feedback - {key}, ledger := L.VerifyAll(w.ledger, f => OwnFinding(env, key, f)))
  }

  /** A stage failure no retry can repair. */
  function Unrepairable(env: Env, spec: GateSpec, error: string, w: World): World {
    var review := R.Review("", "", "environment", "fatal", R.Flag(true), "", "Agent environment cannot start", error, "stage-failure", "", "", [], false);
    var recorded := w.(ledger := L.RecordAll(env.texts, w.ledger, [review], L.Defaults(GateKey(spec), L.Environment, "stage-failure")));
    SetFeedback(recorded, spec.key, [error])
  }

  /** `ESCALATION_RETRY_CAP`. */
  const RETRY_CAP := 2

  function BudgetKey(spec: GateSpec): string { "gate-exhaustion:" + GateKey(spec) }

  function Used(w: World, k: string): nat { if k in w.retries then w.retries[k] else 0 }

  /** `escalationBudgetRemaining`. */
  function Remaining(w: World, k: string): nat { if Used(w, k) >= RETRY_CAP then 0 else RETRY_CAP - Used(w, k) }

  /** `runEscalation`: the budget is charged before the user is asked; no callback,
      no budget, a throw and a dismissal are all no decision. */
  function Escalate(env: Env, spec: GateSpec, w: World): (Option<Decision>, World) {
    var k := BudgetKey(spec);
    if env.escalate.None? || Remaining(w, k) == 0 then (None, w)
    else
      var charged := Tick(w.(retries := w.retries[k := Used(w, k) + 1]));
      (env.escalate.value(k, charged), charged)
  }

  function Target(n: Node, attempt: nat): Node
    requires n.Gate?
  {
    if attempt <= 1 || n.fix.None? then n.node else n.fix.value
  }

  function Finish(c: Completion, w: World, runs: nat, verdicts: seq<bool>): GateRes {
    Some(GateOut(Out(c, w), runs, verdicts, [], false))
  }

  function Add(runs: nat, verdicts: seq<bool>, errors: seq<string>, rest: GateRes): GateRes {
    if rest.None? then None
    else
      var g := rest.value;
      Some(g.(runs := runs + g.runs, verdicts := verdicts + g.verdicts, reported := errors + g.reported))
  }

  const EXHAUSTED := "gate could not pass"

  function FatalExit(fatal: bool, message: string, w: World, runs: nat): GateRes {
    if fatal then Finish(Throw(Err(message, true)), w.(raised := true), runs, [])
    else Finish(Done(NodeFailed(message)), w, runs, [])
  }

  /** Attempt `attempt` of the gate and everything after it. */
  function EvalGate(env: Env, n: Node, attempt: nat, lastErrors: seq<string>, w: World, fuel: nat): GateRes
    requires n.Gate?
    decreases fuel, n, 2, n.spec.attempts + 1 - attempt, 0
  {
    if attempt > n.spec.attempts then Exhaust(env, n, lastErrors, w, fuel)
    else if env.aborted(w) then Finish(Done(NodeCancelled), w, 0, [])
    else
      var r := Eval(env, Target(n, attempt), Tick(w), fuel);
      if r.None? then None
      else if r.value.c.Throw? || r.value.c.result.NodeCancelled? then Finish(r.value.c, r.value.w, 1, [])
      else AfterTarget(env, n, attempt, lastErrors, r.value, fuel)
  }

  /** What a gate does once its target has returned. */
  function AfterTarget(env: Env, n: Node, attempt: nat, lastErrors: seq<string>, r: Out, fuel: nat): GateRes
    requires n.Gate? && attempt <= n.spec.attempts && r.c.Done?
    decreases fuel, n, 2, n.spec.attempts - attempt, 1
  {
    var spec := n.spec;
    if r.c.result.NodeFailed? then
      if env.nonRetryable(r.c.result.error) then
        FatalExit(spec.fatal, r.c.result.error, Unrepairable(env, spec, r.c.result.error, r.w), 1)
      else Add(1, [], [], EvalGate(env, n, attempt + 1, lastErrors, r.w, fuel))
    else match env.validate(spec.validator, r.w)
      case Raise(e) => Finish(Throw(e), r.w.(raised := r.w.raised || e.fatal), 1, [])
      case Value(v) =>
        if v.pass then Finish(Done(NodeOk), Passed(env, spec, r.w), 1, [true])
        else Add(1, [false], v.errors, EvalGate(env, n, attempt + 1, v.errors, Rejected(env, spec, v.errors, r.w), fuel))
  }

  /** All attempts used up: fail, or, for a fatal gate, ask the user. */
  function Exhaust(env: Env, n: Node, lastErrors: seq<string>, w: World, fuel: nat): GateRes
    requires n.Gate?
    decreases fuel, n, 1
  {
    if !n.spec.fatal then FatalExit(false, EXHAUSTED, w, 0)
    else
      var (decision, w1) := Escalate(env, n.spec, w);
      if decision == Some(AcceptLimitation) then
        Some(GateOut(Out(Done(NodeOk), w1.(accepted := w1.accepted + {GateKey(n.spec)})), 0, [], [], true))
      else if decision == Some(RetryWithGuidance) then if fuel == 0 then None else EvalGate(env, n, 1, lastErrors, w1, fuel - 1)
      else FatalExit(true, EXHAUSTED, w1, 0)
  }
}
