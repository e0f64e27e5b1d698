/** The interpreter as it runs: one shared state that every node updates in place,
    attempt loops and early exits. Every method does what the big-step semantics
    says, so all that is proved of the semantics holds of these loops. */
module Engine {
  import L = ConvergenceLedger
  import opened Nodes
  import opened Options
  import opened RunLogChecker

  /** A method's answer and the state it left are what the semantics says; no
      answer means that the fuel ran out. */
  predicate Ran(c: Option<Completion>, w: World, spec: Res) {
    match spec
    case None => c.None?
    case Some(o) => c == Some(o.c) && w == o.w
  }

  function OutOf(g: GateRes): Res { if g.None? then None else Some(g.value.out) }

  /** Where a gate stands after an attempt. */
  datatype Progress = Stop(answer: Option<Completion>) | Again(errors: seq<string>)

  class Interpreter {
    const env: Env
    var w: World

    constructor (env: Env, w: World)
      ensures this.env == env && this.w == w
    {
      this.env, this.w := env, w;
    }

    method Raise(e: Err) returns (c: Option<Completion>)
      modifies this
      ensures Ran(c, w, Raised(e, old(w)))
    {
      w := w.(raised := w.raised || e.fatal);
      c := Some(Throw(e));
    }

    method Ask(p: Option<nat>, fallback: bool) returns (answer: Answer<bool>)
      modifies this
      ensures (answer, w) == Nodes.Ask(env, p, fallback, old(w))
    {
      answer := Value(fallback);
      if p.Some? {
        answer := env.pred(p.value, w);
        w := Tick(w);
      }
    }

    // ----- task -----------------------------------------------------------------

    method Emit(ev: StageEvent)
      modifies this
      ensures w == Nodes.Emit(old(w), ev)
    {
      w := w.(events := w.events + [ev]);
    }

    method Record(id: string, status: RowStatus, outcome: Outcome)
      modifies this
      ensures w == Nodes.Record(old(w), id, status, outcome)
    {
      w := w.(rows := w.rows + [Row(id, status)]);
      Emit(Ended(id, outcome));
    }

    method RunTask(s: Stage) returns (c: Option<Completion>)
      modifies this
      ensures Ran(c, w, Nodes.RunTask(env, s, old(w)))
    {
      if env.aborted(w) {
        return Some(Done(NodeCancelled));
      }
      if (s.id != "setup" && env.skipped(s.id)) || !env.enabled(s.id, w) {
        Emit(Started(s.id));
        Record(s.id, RowSkipped, Skipped);
        return Some(Done(NodeSkipped));
      }
      if !env.budgetLeft(w) {
        var error := "budget exhausted before stage start";
        Emit(Started(s.id));
        Record(s.id, RowFailed(error), Failed(Some(error)));
        return Some(Done(NodeFailed(error)));
      }
      Emit(Started(s.id));
      c := RunBody(s);
    }

    method RunBody(s: Stage) returns (c: Option<Completion>)
      modifies this
      ensures Ran(c, w, Nodes.RunBody(env, s, old(w)))
    {
      var b := env.body(s.id, w);
      w := Tick(w.(rows := w.rows + b.rows, events := w.events + b.events));
      if b.end.Throws? && b.end.error.fatal {
        c := Raise(b.end.error);
        return;
      }
      if env.aborted(w) {
        Record(s.id, RowCancelled, Cancelled);
        return Some(Done(NodeCancelled));
      }
      match b.end
      case Returns(partial) =>
        var infraFailed := HasFailedRow(b.rows, s.id);
        if infraFailed {
          Emit(Ended(s.id, Completed(partial)));
        } else {
          Record(s.id, RowOk, Completed(partial));
        }
        c := Some(Done(NodeOk));
      case Throws(e) =>
        Record(s.id, RowFailed(e.message), Failed(Some(e.message)));
        if s.fatal {
          c := Raise(e);
        } else {
          c := Some(Done(NodeFailed(e.message)));
        }
    }

    // ----- nodes ------------------------------------------------------------------

    /** Running a node is evaluating it. */
    method Run(n: Node, fuel: nat) returns (c: Option<Completion>)
      modifies this
      ensures Ran(c, w, Eval(env, n, old(w), fuel))
      decreases fuel, n, 3
    {
      match n
      case Task(s) => c := RunTask(s);
      case Sequence(children, tolerant) => c := RunSequence(children, tolerant, fuel);
      case Branch(_, _, _) => c := RunBranch(n, fuel);
      case Choose(_, _) => c := RunChoose(n, fuel);
      case Loop(_, _) => c := RunLoop(n, fuel);
      case Retry(_, _, _) => c := RunRetry(n, fuel);
      case Gate(_, _, _) => c := RunGate(n, fuel);
      case Map(_, _, _, _) => c := RunMap(n, fuel);
      case Wait =>
        if env.aborted(w) {
          return Some(Done(NodeCancelled));
        }
        w := Tick(w);
        c := Some(Done(if env.aborted(w) then NodeCancelled else NodeOk));
      case TryCatch(_, _, _) => c := RunTryCatch(n, fuel);
      case Noop => c := Some(Done(NodeOk));
    }

    method RunOptional(n: Option<Node>, fallback: NodeResult, fuel: nat) returns (c: Option<Completion>)
      modifies this
      ensures Ran(c, w, EvalOptional(env, n, fallback, old(w), fuel))
      decreases fuel, n, 4
    {
      if n.None? {
        return Some(Done(fallback));
      }
      c := Run(n.value, fuel);
    }

    method RunSequence(children: Children, tolerant: bool, fuel: nat) returns (c: Option<Completion>)
      modifies this
      ensures Ran(c, w, EvalSequence(env, children, tolerant, old(w), fuel))
      decreases fuel, children, 0
    {
      var rest := children;
      while rest.Child?
        invariant rest == children || rest < children
        invariant EvalSequence(env, children, tolerant, old(w), fuel) == EvalSequence(env, rest, tolerant, w, fuel)
        decreases rest
      {
        if env.aborted(w) {
          return Some(Done(NodeCancelled));
        }
        c := Run(rest.head, fuel);
        if c.None? {
          return;
        }
        match c.value {
          case Throw(e) =>
            if !tolerant || e.fatal {
              return;
            }
          case Done(result) =>
            if result.NodeCancelled? || (result.NodeFailed? && !tolerant) {
              return;
            }
        }
        rest := rest.tail;
      }
      c := Some(Done(NodeOk));
    }

    method RunBranch(n: Node, fuel: nat) returns (c: Option<Completion>)
      requires n.Branch?
      modifies this
      ensures Ran(c, w, Eval(env, n, old(w), fuel))
      decreases fuel, n, 2
    {
      if env.aborted(w) {
        return Some(Done(NodeCancelled));
      }
      var cond := env.pred(n.pred, w);
      w := Tick(w);
      if cond.Raise? {
        c := Raise(cond.error);
      } else if cond.value {
        c := Run(n.yes, fuel);
      } else {
        c := RunOptional(n.no, NodeSkipped, fuel);
      }
    }

    method RunChoose(n: Node, fuel: nat) returns (c: Option<Completion>)
      requires n.Choose?
      modifies this
      ensures Ran(c, w, Eval(env, n, old(w), fuel))
      decreases fuel, n, 2
    {
      if env.aborted(w) {
        return Some(Done(NodeCancelled));
      }
      var cases := n.cases;
      while cases.Cases?
        invariant cases == n.cases || cases < n.cases
        invariant EvalCases(env, n, n.cases, old(w), fuel) == EvalCases(env, n, cases, w, fuel)
        decreases cases
      {
        var cond := env.pred(cases.pred, w);
        w := Tick(w);
        if cond.Raise? {
          c := Raise(cond.error);
          return;
        }
        if cond.value {
          c := Run(cases.node, fuel);
          return;
        }
        cases := cases.rest;
      }
      c := RunOptional(n.otherwise, NodeSkipped, fuel);
    }

    method RunLoop(n: Node, fuel: nat) returns (c: Option<Completion>)
      requires n.Loop?
      modifies this
      ensures Ran(c, w, EvalLoop(env, n, 1, NodeOk, old(w), fuel))
      decreases fuel, n, 2
    {
      var l := n.loop;
      var last, attempt: nat, left: nat := NodeOk, 1, fuel;
      while l.times.None? || attempt <= l.times.value
        invariant left <= fuel
        invariant EvalLoop(env, n, 1, NodeOk, old(w), fuel) == EvalLoop(env, n, attempt, last, w, left)
        decreases left
      {
        if env.aborted(w) {
          return Some(Done(NodeCancelled));
        }
        var goOn := Ask(l.whileP, true);
        if goOn.Raise? {
          c := Raise(goOn.error);
          return;
        }
        if !goOn.value {
          return Some(Done(last));
        }
        var stop := Ask(l.untilP, false);
        if stop.Raise? {
          c := Raise(stop.error);
          return;
        }
        if stop.value {
          return Some(Done(last));
        }
        c := Run(n.body, left);
        if c.None? || c.value.Throw? {
          return;
        }
        last := c.value.result;
        if last.NodeCancelled? || (last.NodeFailed? && !l.tolerant) {
          return;
        }
        if left == 0 {
          return None;
        }
        attempt, left := attempt + 1, left - 1;
      }
      c := Some(Done(last));
    }

    method RunRetry(n: Node, fuel: nat) returns (c: Option<Completion>)
      requires n.Retry?
      modifies this
      ensures Ran(c, w, EvalRetry(env, n, 1, NodeFailed("never ran"), old(w), fuel))
      decreases fuel, n, 2
    {
      var last := NodeFailed("never ran");
      var attempt: nat := 1;
      while attempt <= n.attempts
        invariant EvalRetry(env, n, 1, NodeFailed("never ran"), old(w), fuel) == EvalRetry(env, n, attempt, last, w, fuel)
      {
        if env.aborted(w) {
          return Some(Done(NodeCancelled));
        }
        c := Run(n.body, fuel);
        if c.None? || c.value.Throw? || !c.value.result.NodeFailed? {
          return;
        }
        last := c.value.result;
        var again := Ask(n.matches, true);
        if again.Raise? {
          c := Raise(again.error);
          return;
        }
        if !again.value {
          return;
        }
        w := Tick(w);
        attempt := attempt + 1;
      }
      c := Some(Done(last));
    }

    method RunMap(n: Node, fuel: nat) returns (c: Option<Completion>)
      requires n.Map?
      modifies this
      ensures Ran(c, w, Eval(env, n, old(w), fuel))
      decreases fuel, n, 2
    {
      if env.aborted(w) {
        return Some(Done(NodeCancelled));
      }
      if n.concurrency > 1 {
        c := Raise(Err("map() concurrency > 1 is unsafe", false));
        return;
      }
      var items := env.items(n.over, w);
      w := Tick(w);
      if items.Raise? {
        c := Raise(items.error);
        return;
      }
      c := RunItems(n, if n.concurrency == 0 then 0 else items.value, fuel);
    }

    /** The one worker of a map empties the queue, then the results are joined. */
    method RunItems(n: Node, count: nat, fuel: nat) returns (c: Option<Completion>)
      requires n.Map?
      modifies this
      ensures Ran(c, w, EvalItems(env, n, count, false, old(w), fuel))
      decreases fuel, n, 1
    {
      var left, cancelled := count, false;
      while left > 0
        invariant EvalItems(env, n, count, false, old(w), fuel) == EvalItems(env, n, left, cancelled, w, fuel)
      {
        w := Tick(w);
        c := Run(n.body, fuel);
        if c.None? || c.value.Throw? {
          return;
        }
        cancelled := cancelled || c.value.result.NodeCancelled?;
        left := left - 1;
      }
      if cancelled {
        return Some(Done(NodeCancelled));
      }
      var joined := Ask(n.join, true);
      if joined.Raise? {
        c := Raise(joined.error);
      } else {
        c := Some(Done(NodeOk));
      }
    }

    method RunTryCatch(n: Node, fuel: nat) returns (c: Option<Completion>)
      requires n.TryCatch?
      modifies this
      ensures Ran(c, w, Eval(env, n, old(w), fuel))
      decreases fuel, n, 2
    {
      c := Run(n.body, fuel);
      if c.None? {
        return;
      }
      if c.value.Throw? {
        c := RunHandler(n, c.value.error, fuel);
        return;
      }
      var f := RunOptional(n.finalizer, NodeOk, fuel);
      if f.None? {
        c := None;
      } else if f.value.Throw? {
        c := RunHandler(n, f.value.error, fuel);
      }
    }

    method RunHandler(n: Node, e: Err, fuel: nat) returns (c: Option<Completion>)
      requires n.TryCatch?
      modifies this
      ensures Ran(c, w, Handle(env, n, e, old(w), fuel))
      decreases fuel, n, 1
    {
      if e.fatal {
        var f := RunOptional(n.finalizer, NodeOk, fuel);
        return if f.None? then None else Some(Throw(e));
      }
      c := RunOptional(n.handler, NodeFailed(e.message), fuel);
      if c.None? || c.value.Throw? {
        return;
      }
      var f := RunOptional(n.finalizer, NodeOk, fuel);
      if f.None? || f.value.Throw? {
        c := f;
      }
    }

    // ----- gate -------------------------------------------------------------------

    method RunGate(n: Node, fuel: nat) returns (c: Option<Completion>)
      requires n.Gate?
      modifies this
      ensures Ran(c, w, OutOf(EvalGate(env, n, 1, [], old(w), fuel)))
      decreases fuel, n, 2
    {
      var lastErrors, left: nat := [], fuel;
      while true
        invariant left <= fuel
        invariant OutOf(EvalGate(env, n, 1, [], old(w), fuel)) == OutOf(EvalGate(env, n, 1, lastErrors, w, left))
        decreases left
      {
        var attempt: nat := 1;
        while attempt <= n.spec.attempts
          invariant OutOf(EvalGate(env, n, 1, [], old(w), fuel)) == OutOf(EvalGate(env, n, attempt, lastErrors, w, left))
        {
          var p := Attempt(n, attempt, lastErrors, left);
          if p.Stop? {
            return p.answer;
          }
          lastErrors, attempt := p.errors, attempt + 1;
        }
        var retry;
        retry, c := Exhausted(n, lastErrors, left);
        if !retry {
          return;
        }
        if left == 0 {
          return None;
        }
        left := left - 1;
      }
    }

    /** One attempt of a gate: run the target, validate what it made. */
    method Attempt(n: Node, attempt: nat, lastErrors: seq<string>, fuel: nat) returns (p: Progress)
      requires n.Gate? && attempt <= n.spec.attempts
      modifies this
      ensures p.Stop? ==> Ran(p.answer, w, OutOf(EvalGate(env, n, attempt, lastErrors, old(w), fuel)))
      ensures p.Again? ==>
        OutOf(EvalGate(env, n, attempt, lastErrors, old(w), fuel)) == OutOf(EvalGate(env, n, attempt + 1, p.errors, w, fuel))
      decreases fuel, n, 1
    {
      if env.aborted(w) {
        return Stop(Some(Done(NodeCancelled)));
      }
      w := Tick(w);
      var target := if attempt <= 1 || n.fix.None? then n.node else n.fix.value;
      var c := Run(target, fuel);
      if c.None? || c.value.Throw? || c.value.result.NodeCancelled? {
        return Stop(c);
      }
      p := Settle(n, attempt, lastErrors, c.value.result, fuel);
    }

    /** What the target returned decides whether the gate passes, fails or goes on. */
    method Settle(n: Node, attempt: nat, lastErrors: seq<string>, result: NodeResult, fuel: nat) returns (p: Progress)
      requires n.Gate? && attempt <= n.spec.attempts
      modifies this
      ensures p.Stop? ==> Ran(p.answer, w, OutOf(AfterTarget(env, n, attempt, lastErrors, Out(Done(result), old(w)), fuel)))
      ensures p.Again? ==>
        OutOf(AfterTarget(env, n, attempt, lastErrors, Out(Done(result), old(w)), fuel)) == OutOf(EvalGate(env, n, attempt + 1, p.errors, w, fuel))
    {
      var spec := n.spec;
      if result.NodeFailed? {
        if !env.nonRetryable(result.error) {
          return Again(lastErrors);
        }
        w := Unrepairable(env, spec, result.error, w);
        var c := FatalOr(spec.fatal, result.error);
        return Stop(c);
      }
      var v := env.validate(spec.validator, w);
      if v.Raise? {
        var c := Raise(v.error);
        return Stop(c);
      }
      if v.value.pass {
        if spec.key.Some? {
          var key := spec.key.value;
          w := w.(feedback := w.feedback - {key});
          w := w.(ledger := L.VerifyAll(w.ledger, f => OwnFinding(env, key, f)));
        }
        return Stop(Some(Done(NodeOk)));
      }
      w := Rejected(env, spec, v.value.errors, w);
      p := Again(v.value.errors);
    }

    method FatalOr(fatal: bool, message: string) returns (c: Option<Completion>)
      modifies this
      ensures Ran(c, w, OutOf(FatalExit(fatal, message, old(w), 0)))
    {
      if fatal {
        c := Raise(Err(message, true));
      } else {
        c := Some(Done(NodeFailed(message)));
      }
    }

    /** Out of attempts: fail, or, for a fatal gate, let the user decide. */
    method Exhausted(n: Node, lastErrors: seq<string>, fuel: nat) returns (retry: bool, c: Option<Completion>)
      requires n.Gate?
      modifies this
      ensures !retry ==> Ran(c, w, OutOf(Exhaust(env, n, lastErrors, old(w), fuel)))
      ensures retry ==>
        OutOf(Exhaust(env, n, lastErrors, old(w), fuel)) == if fuel == 0 then None else OutOf(EvalGate(env, n, 1, lastErrors, w, fuel - 1))
    {
      retry, c := false, None;
      if !n.spec.fatal {
        c := FatalOr(false, EXHAUSTED);
        return;
      }
      var decision := AskUser(n.spec);
      if decision == Some(AcceptLimitation) {
        w := w.(accepted := w.accepted + {GateKey(n.spec)});
        return false, Some(Done(NodeOk));
      }
      if decision == Some(RetryWithGuidance) {
        return true, None;
      }
      c := FatalOr(true, EXHAUSTED);
    }

    /** `runEscalation`: charge the budget, then ask. */
    method AskUser(spec: GateSpec) returns (decision: Option<Decision>)
      modifies this
      ensures (decision, w) == Escalate(env, spec, old(w))
    {
      var k := BudgetKey(spec);
      if env.escalate.None? || Remaining(w, k) == 0 {
        return None;
      }
      w := Tick(w.(retries := w.retries[k := Used(w, k) + 1]));
      decision := env.escalate.value(k, w);
    }
  }
}
