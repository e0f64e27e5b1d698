/** The fuel of the interpreter is no part of its meaning. */
module NodeFuel {
  import opened Nodes
  import opened Options

  /** Fuel only bounds the search: a result does not depend on how much is left. */
  lemma {:induction false} MoreFuel(env: Env, n: Node, w: World, fuel: nat, more: nat)
    requires fuel <= more && Eval(env, n, w, fuel).Some?
    ensures Eval(env, n, w, more) == Eval(env, n, w, fuel)
    decreases fuel, n, 3
  {
    match n
    case Task(s) =>
    case Sequence(children, tolerant) => MoreFuelSequence(env, children, tolerant, w, fuel, more);
    case Branch(p, yes, no) =>
      if !env.aborted(w) && env.pred(p, w).Value? {
        if env.pred(p, w).value {
          MoreFuel(env, yes, Tick(w), fuel, more);
        } else {
          MoreFuelOptional(env, no, NodeSkipped, Tick(w), fuel, more);
        }
      }
    case Choose(cases, otherwise) =>
      if !env.aborted(w) { MoreFuelCases(env, n, cases, w, fuel, more); }
    case Loop(l, body) => MoreFuelLoop(env, n, 1, NodeOk, w, fuel, more);
    case Retry(attempts, matches, body) => MoreFuelRetry(env, n, 1, NodeFailed("never ran"), w, fuel, more);
    case Gate(spec, node, fix) => MoreFuelGate(env, n, 1, [], w, fuel, more);
    case Map(over, concurrency, join, body) =>
      if !env.aborted(w) && concurrency <= 1 && env.items(over, w).Value? {
        MoreFuelItems(env, n, Queued(concurrency, env.items(over, w).value), false, Tick(w), fuel, more);
      }
    case Wait =>
    case TryCatch(body, handler, finalizer) =>
      var r := Eval(env, body, w, fuel).value;
      MoreFuel(env, body, w, fuel, more);
      if r.c.Throw? {
        MoreFuelHandle(env, n, r.c.error, r.w, fuel, more);
      } else {
        MoreFuelOptional(env, finalizer, NodeOk, r.w, fuel, more);
        var f := EvalOptional(env, finalizer, NodeOk, r.w, fuel).value;
        if f.c.Throw? {
          MoreFuelHandle(env, n, f.c.error, f.w, fuel, more);
        }
      }
    case Noop =>
  }

  lemma {:induction false} MoreFuelOptional(env: Env, n: Option<Node>, fallback: NodeResult, w: World, fuel: nat, more: nat)
    requires fuel <= more && EvalOptional(env, n, fallback, w, fuel).Some?
    ensures EvalOptional(env, n, fallback, w, more) == EvalOptional(env, n, fallback, w, fuel)
    decreases fuel, n, 4
  {
    if n.Some? { MoreFuel(env, n.value, w, fuel, more); }
  }

  lemma {:induction false} MoreFuelSequence(env: Env, children: Children, tolerant: bool, w: World, fuel: nat, more: nat)
    requires fuel <= more && EvalSequence(env, children, tolerant, w, fuel).Some?
    ensures EvalSequence(env, children, tolerant, w, more) == EvalSequence(env, children, tolerant, w, fuel)
    decreases fuel, children, 0
  {
    if children.Child? && !env.aborted(w) {
      var r := Eval(env, children.head, w, fuel).value;
      MoreFuel(env, children.head, w, fuel, more);
      if EvalSequence(env, children.tail, tolerant, r.w, fuel).Some? {
        MoreFuelSequence(env, children.tail, tolerant, r.w, fuel, more);
      }
    }
  }

  lemma {:induction false} MoreFuelCases(env: Env, n: Node, cases: Cases, w: World, fuel: nat, more: nat)
    requires n.Choose? && (cases == n.cases || cases < n.cases)
    requires fuel <= more && EvalCases(env, n, cases, w, fuel).Some?
    ensures EvalCases(env, n, cases, w, more) == EvalCases(env, n, cases, w, fuel)
    decreases fuel, n, 2, cases
  {
    match cases
    case NoCases => MoreFuelOptional(env, n.otherwise, NodeSkipped, w, fuel, more);
    case Cases(p, node, rest) =>
      if env.pred(p, w).Value? {
        if env.pred(p, w).value {
          MoreFuel(env, node, Tick(w), fuel, more);
        } else {
          MoreFuelCases(env, n, rest, Tick(w), fuel, more);
        }
      }
  }

  lemma {:induction false} MoreFuelLoop(env: Env, n: Node, attempt: nat, last: NodeResult, w: World, fuel: nat, more: nat)
    requires n.Loop? && fuel <= more && EvalLoop(env, n, attempt, last, w, fuel).Some?
    ensures EvalLoop(env, n, attempt, last, w, more) == EvalLoop(env, n, attempt, last, w, fuel)
    decreases fuel, n, 2
  {
    var l := n.loop;
    var (goOn, w1) := Ask(env, l.whileP, true, w);
    var (stop, w2) := Ask(env, l.untilP, false, w1);
    if Eval(env, n.body, w2, fuel).Some? {
      MoreFuel(env, n.body, w2, fuel, more);
      var r := Eval(env, n.body, w2, fuel).value;
      if r.c.Done? && fuel > 0 && EvalLoop(env, n, attempt + 1, r.c.result, r.w, fuel - 1).Some? {
        MoreFuelLoop(env, n, attempt + 1, r.c.result, r.w, fuel - 1, more - 1);
      }
    }
  }

  lemma {:induction false} MoreFuelRetry(env: Env, n: Node, attempt: nat, last: NodeResult, w: World, fuel: nat, more: nat)
    requires n.Retry? && fuel <= more && EvalRetry(env, n, attempt, last, w, fuel).Some?
    ensures EvalRetry(env, n, attempt, last, w, more) == EvalRetry(env, n, attempt, last, w, fuel)
    decreases fuel, n, 2, n.attempts + 1 - attempt
  {
    if attempt <= n.attempts && !env.aborted(w) {
      MoreFuel(env, n.body, w, fuel, more);
      var r := Eval(env, n.body, w, fuel).value;
      if r.c.Done? && r.c.result.NodeFailed? {
        var (again, w1) := Ask(env, n.matches, true, r.w);
        if again.Value? && again.value {
          MoreFuelRetry(env, n, attempt + 1, r.c.result, Tick(w1), fuel, more);
        }
      }
    }
  }

  lemma {:induction false} MoreFuelItems(env: Env, n: Node, left: nat, cancelled: bool, w: World, fuel: nat, more: nat)
    requires n.Map? && fuel <= more && EvalItems(env, n, left, cancelled, w, fuel).Some?
    ensures EvalItems(env, n, left, cancelled, w, more) == EvalItems(env, n, left, cancelled, w, fuel)
    decreases fuel, n, 2, left
  {
    if left > 0 {
      MoreFuel(env, n.body, Tick(w), fuel, more);
      var r := Eval(env, n.body, Tick(w), fuel).value;
      if r.c.Done? {
        MoreFuelItems(env, n, left - 1, cancelled || r.c.result.NodeCancelled?, r.w, fuel, more);
      }
    }
  }

  lemma {:induction false} MoreFuelHandle(env: Env, n: Node, e: Err, w: World, fuel: nat, more: nat)
    requires n.TryCatch? && fuel <= more && Handle(env, n, e, w, fuel).Some?
    ensures Handle(env, n, e, w, more) == Handle(env, n, e, w, fuel)
    decreases fuel, n, 2
  {
    if e.fatal {
      MoreFuelOptional(env, n.finalizer, NodeOk, w, fuel, more);
    } else {
      MoreFuelOptional(env, n.handler, NodeFailed(e.message), w, fuel, more);
      var r := EvalOptional(env, n.handler, NodeFailed(e.message), w, fuel).value;
      if r.c.Done? {
        MoreFuelOptional(env, n.finalizer, NodeOk, r.w, fuel, more);
      }
    }
  }

  lemma {:induction false} MoreFuelGate(env: Env, n: Node, attempt: nat, lastErrors: seq<string>, w: World, fuel: nat, more: nat)
    requires n.Gate? && fuel <= more && EvalGate(env, n, attempt, lastErrors, w, fuel).Some?
    ensures EvalGate(env, n, attempt, lastErrors, w, more) == EvalGate(env, n, attempt, lastErrors, w, fuel)
    decreases fuel, n, 2, n.spec.attempts + 1 - attempt, 0
  {
    if attempt > n.spec.attempts {
      MoreFuelExhaust(env, n, lastErrors, w, fuel, more);
    } else if !env.aborted(w) {
      MoreFuel(env, Target(n, attempt), Tick(w), fuel, more);
      var r := Eval(env, Target(n, attempt), Tick(w), fuel).value;
      if r.c.Done? && !r.c.result.NodeCancelled? {
        MoreFuelAfter(env, n, attempt, lastErrors, r, fuel, more);
      }
    }
  }

  lemma {:induction false} MoreFuelAfter(env: Env, n: Node, attempt: nat, lastErrors: seq<string>, r: Out, fuel: nat, more: nat)
    requires n.Gate? && attempt <= n.spec.attempts && r.c.Done?
    requires fuel <= more && AfterTarget(env, n, attempt, lastErrors, r, fuel).Some?
    ensures AfterTarget(env, n, attempt, lastErrors, r, more) == AfterTarget(env, n, attempt, lastErrors, r, fuel)
    decreases fuel, n, 2, n.spec.attempts - attempt, 1
  {
    if r.c.result.NodeFailed? {
      if !env.nonRetryable(r.c.result.error) {
        MoreFuelGate(env, n, attempt + 1, lastErrors, r.w, fuel, more);
      }
    } else if env.validate(n.spec.validator, r.w).Value? {
      var v := env.validate(n.spec.validator, r.w).value;
      if !v.pass {
        MoreFuelGate(env, n, attempt + 1, v.errors, Rejected(env, n.spec, v.errors, r.w), fuel, more);
      }
    }
  }

  lemma {:induction false} MoreFuelExhaust(env: Env, n: Node, lastErrors: seq<string>, w: World, fuel: nat, more: nat)
    requires n.Gate? && fuel <= more && Exhaust(env, n, lastErrors, w, fuel).Some?
    ensures Exhaust(env, n, lastErrors, w, more) == Exhaust(env, n, lastErrors, w, fuel)
    decreases fuel, n, 1
  {
    var (decision, w1) := Escalate(env, n.spec, w);
    if n.spec.fatal && decision == Some(RetryWithGuidance) {
      MoreFuelGate(env, n, 1, lastErrors, w1, fuel - 1, more - 1);
    }
  }
}
