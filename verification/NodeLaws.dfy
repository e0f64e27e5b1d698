/** What every node keeps: fatal aborts always surface, escalation budgets are
    never refunded, stage events come in pairs, and only gates touch the ledger. */
module NodeLaws {
  import L = ConvergenceLedger
  import opened Nodes
  import opened Options
  import opened RunLogChecker
  import opened Seqs

  predicate Fatal(c: Completion) { c.Throw? && c.error.fatal }

  // ----- trees without gates ------------------------------------------------------

  predicate GateFree(n: Node) {
    match n
    case Task(_) => true
    case Sequence(children, _) => AllGateFree(children)
    case Branch(_, yes, no) => GateFree(yes) && (no.Some? ==> GateFree(no.value))
    case Choose(cases, otherwise) => CasesGateFree(cases) && (otherwise.Some? ==> GateFree(otherwise.value))
    case Loop(_, body) => GateFree(body)
    case Retry(_, _, body) => GateFree(body)
    case Gate(_, _, _) => false
    case Map(_, _, _, body) => GateFree(body)
    case Wait => true
    case TryCatch(body, handler, finalizer) =>
      GateFree(body) && (handler.Some? ==> GateFree(handler.value)) && (finalizer.Some? ==> GateFree(finalizer.value))
    case Noop => true
  }

  predicate AllGateFree(ns: Children) {
    ns.NoChildren? || (GateFree(ns.head) && AllGateFree(ns.tail))
  }

  predicate CasesGateFree(cs: Cases) {
    cs.NoCases? || (GateFree(cs.node) && CasesGateFree(cs.rest))
  }

  predicate OptionalGateFree(n: Option<Node>) { n.Some? ==> GateFree(n.value) }

  // ----- paired events --------------------------------------------------------------

  /** One finished stage: its terminal event, and the row it left. */
  datatype Pair = Pair(id: string, outcome: Outcome, status: RowStatus)

  function StatusOf(o: Outcome): RowStatus {
    match o
    case Completed(_) => RowOk
    case Failed(e) => RowFailed(if e.Some? then e.value else "")
    case Skipped => RowSkipped
    case Cancelled => RowCancelled
  }

  predicate ValidPairs(ps: seq<Pair>) { forall i :: 0 <= i < |ps| ==> ps[i].status == StatusOf(ps[i].outcome) }

  function EventsOf(ps: seq<Pair>): seq<StageEvent> {
    if ps == [] then [] else [Started(ps[0].id), Ended(ps[0].id, ps[0].outcome)] + EventsOf(ps[1..])
  }

  function RowsOf(ps: seq<Pair>): seq<Row> {
    if ps == [] then [] else [Row(ps[0].id, ps[0].status)] + RowsOf(ps[1..])
  }

  ghost predicate AddsPairs(w: World, w': World, ps: seq<Pair>) {
    ValidPairs(ps) && w'.events == w.events + EventsOf(ps) && w'.rows == w.rows + RowsOf(ps)
  }

  ghost predicate Balanced(w: World, w': World) { exists ps :: AddsPairs(w, w', ps) }

  lemma {:induction false} EventsConcat(a: seq<Pair>, b: seq<Pair>)
    ensures EventsOf(a + b) == EventsOf(a) + EventsOf(b)
    decreases |a|
  {
    if a == [] {
      assert a + b == b;
    } else {
      assert (a + b)[1..] == a[1..] + b;
      EventsConcat(a[1..], b);
      Assoc([Started(a[0].id), Ended(a[0].id, a[0].outcome)], EventsOf(a[1..]), EventsOf(b));
    }
  }

  lemma {:induction false} RowsConcat(a: seq<Pair>, b: seq<Pair>)
    ensures RowsOf(a + b) == RowsOf(a) + RowsOf(b)
    decreases |a|
  {
    if a == [] {
      assert a + b == b;
    } else {
      assert (a + b)[1..] == a[1..] + b;
      RowsConcat(a[1..], b);
      Assoc([Row(a[0].id, a[0].status)], RowsOf(a[1..]), RowsOf(b));
    }
  }

  lemma BalancedTrans(w: World, w1: World, w2: World)
    requires Balanced(w, w1) && Balanced(w1, w2)
    ensures Balanced(w, w2)
  {
    var a :| AddsPairs(w, w1, a);
    var b :| AddsPairs(w1, w2, b);
    EventsConcat(a, b);
    RowsConcat(a, b);
    Assoc(w.events, EventsOf(a), EventsOf(b));
    Assoc(w.rows, RowsOf(a), RowsOf(b));
    assert AddsPairs(w, w2, a + b);
  }

  /** Stage bodies that emit no stage events and push no rows of their own. */
  ghost predicate QuietBodies(env: Env) {
    forall id, w :: env.body(id, w).rows == [] && env.body(id, w).events == []
  }

  // ----- the law ------------------------------------------------------------------------

  ghost predicate RetriesGrow(w: World, w': World) { forall k :: Used(w, k) <= Used(w', k) }

  predicate SameGateState(w: World, w': World) {
    w.ledger == w'.ledger && w.feedback == w'.feedback && w.retries == w'.retries && w.accepted == w'.accepted
  }

  ghost predicate Law(env: Env, free: bool, w: World, out: Out) {
    && (out.w.raised <==> w.raised || Fatal(out.c))
    && RetriesGrow(w, out.w)
    && (free ==> SameGateState(w, out.w))
    && (QuietBodies(env) && !out.w.raised ==> Balanced(w, out.w))
  }

  /** A change that no law can see. */
  predicate Invisible(w: World, w': World) {
    w.rows == w'.rows && w.events == w'.events && w.raised == w'.raised && SameGateState(w, w')
  }

  lemma InvisibleIsBalanced(w: World, w': World)
    requires Invisible(w, w')
    ensures Balanced(w, w')
  {
    assert AddsPairs(w, w', []);
  }

  lemma ReturnLaw(env: Env, w: World, w': World, c: Completion)
    requires Invisible(w, w') && !Fatal(c)
    ensures Law(env, true, w, Out(c, w'))
  {
    InvisibleIsBalanced(w, w');
  }

  lemma RaisedLaw(env: Env, w: World, w': World, e: Err)
    requires Invisible(w, w')
    ensures Law(env, true, w, Raised(e, w').value)
  {
    var out := Raised(e, w').value;
    if !e.fatal {
      InvisibleIsBalanced(w, out.w);
    }
  }

  lemma After(env: Env, free: bool, w: World, w1: World, out: Out)
    requires Invisible(w, w1) && Law(env, free, w1, out)
    ensures Law(env, free, w, out)
  {
    if QuietBodies(env) && !out.w.raised {
      InvisibleIsBalanced(w, w1);
      BalancedTrans(w, w1, out.w);
    }
  }

  lemma Weaken(env: Env, strong: bool, free: bool, w: World, out: Out)
    requires Law(env, strong, w, out) && (free ==> strong)
    ensures Law(env, free, w, out)
  {
  }

  /** Running on after a completion that was not a fatal abort. */
  lemma Then(env: Env, free: bool, w: World, mid: Out, out: Out)
    requires Law(env, free, w, mid) && Law(env, free, mid.w, out) && !Fatal(mid.c)
    ensures Law(env, free, w, out)
  {
    if QuietBodies(env) && !out.w.raised {
      BalancedTrans(w, mid.w, out.w);
    }
  }

  /** Turning an ordinary completion into another, in the same world. */
  lemma Recast(env: Env, free: bool, w: World, mid: Out, c: Completion)
    requires Law(env, free, w, mid) && !Fatal(mid.c) && !Fatal(c)
    ensures Law(env, free, w, Out(c, mid.w))
  {
  }

  // ----- tasks ------------------------------------------------------------------------------

  lemma PairsOfOne(p: Pair)
    ensures EventsOf([p]) == [Started(p.id), Ended(p.id, p.outcome)] && RowsOf([p]) == [Row(p.id, p.status)]
  {
    assert [p][1..] == [];
    assert EventsOf([]) == [] && RowsOf([]) == [];
  }

  lemma OnePair(w: World, w': World, id: string, status: RowStatus, outcome: Outcome)
    requires status == StatusOf(outcome)
    requires w'.events == w.events + [Started(id), Ended(id, outcome)] && w'.rows == w.rows + [Row(id, status)]
    ensures Balanced(w, w')
  {
    var p := Pair(id, outcome, status);
    PairsOfOne(p);
    assert AddsPairs(w, w', [p]);
  }

  lemma PairAdded(w: World, id: string, status: RowStatus, outcome: Outcome)
    requires status == StatusOf(outcome)
    ensures Balanced(w, Record(Emit(w, Started(id)), id, status, outcome))
  {
    OnePair(w, Record(Emit(w, Started(id)), id, status, outcome), id, status, outcome);
  }

  /** A quiet body, however it ends short of a fatal abort, leaves one pair. */
  lemma QuietBodyPair(env: Env, s: Stage, w: World)
    requires var b := env.body(s.id, Emit(w, Started(s.id))); b.rows == [] && b.events == []
    requires !RunBody(env, s, Emit(w, Started(s.id))).value.w.raised
    ensures Balanced(w, RunBody(env, s, Emit(w, Started(s.id))).value.w)
  {
    var started := Emit(w, Started(s.id));
    var b := env.body(s.id, started);
    var out := RunBody(env, s, started).value;
    var after := Tick(started.(rows := started.rows + b.rows, events := started.events + b.events));
    assert after.rows == w.rows && after.events == w.events + [Started(s.id)];
    match b.end
    case Returns(partial) =>
      if env.aborted(after) {
        OnePair(w, out.w, s.id, RowCancelled, Cancelled);
      } else {
        OnePair(w, out.w, s.id, RowOk, Completed(partial));
      }
    case Throws(e) =>
      if env.aborted(after) {
        OnePair(w, out.w, s.id, RowCancelled, Cancelled);
      } else {
        OnePair(w, out.w, s.id, RowFailed(e.message), Failed(Some(e.message)));
      }
  }

  lemma RunBodyFrame(env: Env, s: Stage, w: World)
    ensures var out := RunBody(env, s, w).value;
      (out.w.raised <==> w.raised || Fatal(out.c)) && SameGateState(w, out.w)
  {
  }

  lemma RunBodyLaw(env: Env, s: Stage, w: World)
    ensures Law(env, true, w, RunBody(env, s, Emit(w, Started(s.id))).value)
  {
    var started := Emit(w, Started(s.id));
    RunBodyFrame(env, s, started);
    var out := RunBody(env, s, started).value;
    assert SameGateState(w, out.w);
    if QuietBodies(env) && !out.w.raised {
      assert env.body(s.id, started).rows == [];
      QuietBodyPair(env, s, w);
    }
  }

  lemma TaskLaw(env: Env, s: Stage, w: World)
    ensures Law(env, true, w, RunTask(env, s, w).value)
  {
    if env.aborted(w) {
      ReturnLaw(env, w, w, Done(NodeCancelled));
    } else if (s.id != "setup" && env.skipped(s.id)) || !env.enabled(s.id, w) {
      PairAdded(w, s.id, RowSkipped, Skipped);
    } else if !env.budgetLeft(w) {
      var error := "budget exhausted before stage start";
      PairAdded(w, s.id, RowFailed(error), Failed(Some(error)));
    } else {
      RunBodyLaw(env, s, w);
    }
  }

  // ----- every node ------------------------------------------------------------------------------

  lemma {:induction false} EvalLaw(env: Env, n: Node, w: World, fuel: nat)
    requires Eval(env, n, w, fuel).Some?
    ensures Law(env, GateFree(n), w, Eval(env, n, w, fuel).value)
    decreases fuel, n, 3
  {
    var free := GateFree(n);
    match n
    case Task(s) => TaskLaw(env, s, w);
    case Sequence(children, tolerant) => SequenceLaw(env, children, tolerant, w, fuel);
    case Branch(p, yes, no) =>
      if env.aborted(w) {
        ReturnLaw(env, w, w, Done(NodeCancelled));
      } else {
        match env.pred(p, w)
        case Raise(e) => RaisedLaw(env, w, Tick(w), e);
        case Value(b) =>
          if b {
            EvalLaw(env, yes, Tick(w), fuel);
            Weaken(env, GateFree(yes), free, Tick(w), Eval(env, yes, Tick(w), fuel).value);
          } else {
            OptionalLaw(env, no, NodeSkipped, Tick(w), fuel);
            Weaken(env, OptionalGateFree(no), free, Tick(w), EvalOptional(env, no, NodeSkipped, Tick(w), fuel).value);
          }
          After(env, free, w, Tick(w), Eval(env, n, w, fuel).value);
      }
    case Choose(cases, otherwise) =>
      if env.aborted(w) {
        ReturnLaw(env, w, w, Done(NodeCancelled));
      } else {
        CasesLaw(env, n, cases, w, fuel);
      }
    case Loop(l, body) => LoopLaw(env, n, 1, NodeOk, w, fuel);
    case Retry(attempts, matches, body) => RetryLaw(env, n, 1, NodeFailed("never ran"), w, fuel);
    case Gate(spec, node, fix) => GateLaw(env, n, 1, [], w, fuel);
    case Map(over, concurrency, join, body) =>
      if env.aborted(w) {
        ReturnLaw(env, w, w, Done(NodeCancelled));
      } else if concurrency > 1 {
        RaisedLaw(env, w, w, Err("map() concurrency > 1 is unsafe", false));
      } else {
        match env.items(over, w)
        case Raise(e) => RaisedLaw(env, w, Tick(w), e);
        case Value(count) =>
          ItemsLaw(env, n, Queued(n.concurrency, count), false, Tick(w), fuel);
          After(env, free, w, Tick(w), Eval(env, n, w, fuel).value);
      }
    case Wait =>
      ReturnLaw(env, w, w, Done(NodeCancelled));
      ReturnLaw(env, w, Tick(w), Done(NodeCancelled));
      ReturnLaw(env, w, Tick(w), Done(NodeOk));
    case TryCatch(body, handler, finalizer) => TryCatchLaw(env, n, w, fuel);
    case Noop => ReturnLaw(env, w, w, Done(NodeOk));
  }

  lemma {:induction false} OptionalLaw(env: Env, n: Option<Node>, fallback: NodeResult, w: World, fuel: nat)
    requires EvalOptional(env, n, fallback, w, fuel).Some?
    ensures Law(env, OptionalGateFree(n), w, EvalOptional(env, n, fallback, w, fuel).value)
    decreases fuel, n, 4
  {
    match n
    case None => ReturnLaw(env, w, w, Done(fallback));
    case Some(m) => EvalLaw(env, m, w, fuel);
  }

  lemma {:induction false} SequenceLaw(env: Env, children: Children, tolerant: bool, w: World, fuel: nat)
    requires EvalSequence(env, children, tolerant, w, fuel).Some?
    ensures Law(env, AllGateFree(children), w, EvalSequence(env, children, tolerant, w, fuel).value)
    decreases fuel, children, 0
  {
    if children.NoChildren? || env.aborted(w) {
      ReturnLaw(env, w, w, Done(NodeOk));
      ReturnLaw(env, w, w, Done(NodeCancelled));
    } else {
      var free := AllGateFree(children);
      var r, out := Eval(env, children.head, w, fuel).value, EvalSequence(env, children, tolerant, w, fuel).value;
      EvalLaw(env, children.head, w, fuel);
      Weaken(env, GateFree(children.head), free, w, r);
      var next := EvalSequence(env, children.tail, tolerant, r.w, fuel);
      if next.Some? && out == next.value && !Fatal(r.c) {
        SequenceLaw(env, children.tail, tolerant, r.w, fuel);
        Weaken(env, AllGateFree(children.tail), free, r.w, out);
        Then(env, free, w, r, out);
      }
    }
  }

  lemma {:induction false} CasesLaw(env: Env, n: Node, cases: Cases, w: World, fuel: nat)
    requires n.Choose? && (cases == n.cases || cases < n.cases) && EvalCases(env, n, cases, w, fuel).Some?
    ensures Law(env, CasesGateFree(cases) && OptionalGateFree(n.otherwise), w, EvalCases(env, n, cases, w, fuel).value)
    decreases fuel, n, 2, cases
  {
    var free := CasesGateFree(cases) && OptionalGateFree(n.otherwise);
    var out := EvalCases(env, n, cases, w, fuel).value;
    match cases
    case NoCases => OptionalLaw(env, n.otherwise, NodeSkipped, w, fuel);
    case Cases(p, node, rest) =>
      match env.pred(p, w)
      case Raise(e) => RaisedLaw(env, w, Tick(w), e);
      case Value(b) =>
        if b {
          EvalLaw(env, node, Tick(w), fuel);
          Weaken(env, GateFree(node), free, Tick(w), out);
        } else {
          CasesLaw(env, n, rest, Tick(w), fuel);
          Weaken(env, CasesGateFree(rest) && OptionalGateFree(n.otherwise), free, Tick(w), out);
        }
        After(env, free, w, Tick(w), out);
  }

  lemma AskInvisible(env: Env, p: Option<nat>, fallback: bool, w: World)
    ensures Invisible(w, Ask(env, p, fallback, w).1)
  {
  }

  lemma {:induction false} LoopLaw(env: Env, n: Node, attempt: nat, last: NodeResult, w: World, fuel: nat)
    requires n.Loop? && EvalLoop(env, n, attempt, last, w, fuel).Some?
    ensures Law(env, GateFree(n), w, EvalLoop(env, n, attempt, last, w, fuel).value)
    decreases fuel, n, 2
  {
    var l, free, out := n.loop, GateFree(n), EvalLoop(env, n, attempt, last, w, fuel).value;
    if (l.times.Some? && attempt > l.times.value) || env.aborted(w) {
      ReturnLaw(env, w, w, Done(last));
      ReturnLaw(env, w, w, Done(NodeCancelled));
    } else {
      var (goOn, w1) := Ask(env, l.whileP, true, w);
      AskInvisible(env, l.whileP, true, w);
      if goOn.Raise? {
        RaisedLaw(env, w, w1, goOn.error);
      } else if !goOn.value {
        ReturnLaw(env, w, w1, Done(last));
      } else {
        var (stop, w2) := Ask(env, l.untilP, false, w1);
        AskInvisible(env, l.untilP, false, w1);
        if stop.Raise? {
          RaisedLaw(env, w, w2, stop.error);
        } else if stop.value {
          ReturnLaw(env, w, w2, Done(last));
        } else {
          RoundLaw(env, n, attempt, w2, fuel);
          After(env, free, w, w2, out);
        }
      }
    }
  }

  /** The body of a loop's round, and the rounds after it. */
  lemma {:induction false} RoundLaw(env: Env, n: Node, attempt: nat, w: World, fuel: nat)
    requires n.Loop? && Eval(env, n.body, w, fuel).Some?
    ensures var r := Eval(env, n.body, w, fuel).value;
      && Law(env, GateFree(n), w, r)
      && (!Fatal(r.c) && r.c.Done? && fuel > 0 && EvalLoop(env, n, attempt + 1, r.c.result, r.w, fuel - 1).Some? ==>
           Law(env, GateFree(n), w, EvalLoop(env, n, attempt + 1, r.c.result, r.w, fuel - 1).value))
    decreases fuel, n, 1
  {
    var r := Eval(env, n.body, w, fuel).value;
    EvalLaw(env, n.body, w, fuel);
    if r.c.Done? && fuel > 0 && EvalLoop(env, n, attempt + 1, r.c.result, r.w, fuel - 1).Some? {
      LoopLaw(env, n, attempt + 1, r.c.result, r.w, fuel - 1);
      Then(env, GateFree(n), w, r, EvalLoop(env, n, attempt + 1, r.c.result, r.w, fuel - 1).value);
    }
  }

  lemma {:induction false} RetryLaw(env: Env, n: Node, attempt: nat, last: NodeResult, w: World, fuel: nat)
    requires n.Retry? && EvalRetry(env, n, attempt, last, w, fuel).Some?
    ensures Law(env, GateFree(n), w, EvalRetry(env, n, attempt, last, w, fuel).value)
    decreases fuel, n, 2, n.attempts + 1 - attempt
  {
    var free, out := GateFree(n), EvalRetry(env, n, attempt, last, w, fuel).value;
    if attempt > n.attempts || env.aborted(w) {
      ReturnLaw(env, w, w, Done(last));
      ReturnLaw(env, w, w, Done(NodeCancelled));
    } else {
      var r := Eval(env, n.body, w, fuel).value;
      EvalLaw(env, n.body, w, fuel);
      if r.c.Done? && r.c.result.NodeFailed? {
        var (again, w1) := Ask(env, n.matches, true, r.w);
        AskInvisible(env, n.matches, true, r.w);
        if again.Raise? {
          RaisedLaw(env, r.w, w1, again.error);
        } else if !again.value {
          ReturnLaw(env, r.w, w1, r.c);
        } else {
          RetryLaw(env, n, attempt + 1, r.c.result, Tick(w1), fuel);
          After(env, free, r.w, Tick(w1), out);
        }
        Then(env, free, w, r, out);
      }
    }
  }

  lemma {:induction false} ItemsLaw(env: Env, n: Node, left: nat, cancelled: bool, w: World, fuel: nat)
    requires n.Map? && EvalItems(env, n, left, cancelled, w, fuel).Some?
    ensures Law(env, GateFree(n), w, EvalItems(env, n, left, cancelled, w, fuel).value)
    decreases fuel, n, 2, left
  {
    var free, out := GateFree(n), EvalItems(env, n, left, cancelled, w, fuel).value;
    if left == 0 {
      var (joined, w1) := Ask(env, n.join, true, w);
      AskInvisible(env, n.join, true, w);
      ReturnLaw(env, w, w, Done(NodeCancelled));
      ReturnLaw(env, w, w1, Done(NodeOk));
      if joined.Raise? {
        RaisedLaw(env, w, w1, joined.error);
      }
    } else {
      var r := Eval(env, n.body, Tick(w), fuel).value;
      EvalLaw(env, n.body, Tick(w), fuel);
      if r.c.Done? {
        ItemsLaw(env, n, left - 1, cancelled || r.c.result.NodeCancelled?, r.w, fuel);
        Then(env, free, Tick(w), r, out);
      }
      After(env, free, w, Tick(w), out);
    }
  }

  lemma {:induction false} TryCatchLaw(env: Env, n: Node, w: World, fuel: nat)
    requires n.TryCatch? && Eval(env, n, w, fuel).Some?
    ensures Law(env, GateFree(n), w, Eval(env, n, w, fuel).value)
    decreases fuel, n, 2
  {
    var free, out := GateFree(n), Eval(env, n, w, fuel).value;
    var r := Eval(env, n.body, w, fuel).value;
    EvalLaw(env, n.body, w, fuel);
    Weaken(env, GateFree(n.body), free, w, r);
    if r.c.Throw? {
      HandleLaw(env, n, w, r, fuel);
    } else {
      var f := EvalOptional(env, n.finalizer, NodeOk, r.w, fuel).value;
      OptionalLaw(env, n.finalizer, NodeOk, r.w, fuel);
      Weaken(env, OptionalGateFree(n.finalizer), free, r.w, f);
      Then(env, free, w, r, f);
      if f.c.Throw? {
        HandleLaw(env, n, w, f, fuel);
      } else {
        Recast(env, free, w, f, r.c);
      }
    }
  }

  /** From any throw on, the catch clause keeps the law: a fatal abort comes out
      of it again, whatever the finalizer does. */
  lemma {:induction false} HandleLaw(env: Env, n: Node, w: World, thrown: Out, fuel: nat)
    requires n.TryCatch? && thrown.c.Throw? && Law(env, GateFree(n), w, thrown)
    requires Handle(env, n, thrown.c.error, thrown.w, fuel).Some?
    ensures Law(env, GateFree(n), w, Handle(env, n, thrown.c.error, thrown.w, fuel).value)
    decreases fuel, n, 1
  {
    var free, e, mid := GateFree(n), thrown.c.error, thrown.w;
    var out := Handle(env, n, e, mid, fuel).value;
    if e.fatal {
      OptionalLaw(env, n.finalizer, NodeOk, mid, fuel);
      Weaken(env, OptionalGateFree(n.finalizer), free, mid, EvalOptional(env, n.finalizer, NodeOk, mid, fuel).value);
    } else {
      var r := EvalOptional(env, n.handler, NodeFailed(e.message), mid, fuel).value;
      OptionalLaw(env, n.handler, NodeFailed(e.message), mid, fuel);
      Weaken(env, OptionalGateFree(n.handler), free, mid, r);
      Then(env, free, w, thrown, r);
      if r.c.Done? {
        var f := EvalOptional(env, n.finalizer, NodeOk, r.w, fuel).value;
        OptionalLaw(env, n.finalizer, NodeOk, r.w, fuel);
        Weaken(env, OptionalGateFree(n.finalizer), free, r.w, f);
        Then(env, free, w, r, f);
        if f.c.Done? {
          Recast(env, free, w, f, r.c);
        }
      }
    }
  }

  // ----- gates --------------------------------------------------------------------------------------

  /** What a gate itself writes: no rows, no events, retries only upwards. */
  ghost predicate GateWrites(w: World, w': World) {
    w.rows == w'.rows && w.events == w'.events && w.raised == w'.raised && RetriesGrow(w, w')
  }

  lemma GateStep(env: Env, w: World, w': World, out: Out)
    requires GateWrites(w, w') && Law(env, false, w', out)
    ensures Law(env, false, w, out)
  {
    if QuietBodies(env) && !out.w.raised {
      assert AddsPairs(w, w', []);
      BalancedTrans(w, w', out.w);
    }
  }

  lemma StayLaw(env: Env, w: World, c: Completion)
    requires !Fatal(c)
    ensures Law(env, false, w, Out(c, w))
  {
    InvisibleIsBalanced(w, w);
  }

  lemma FatalExitLaw(env: Env, fatal: bool, message: string, w: World, runs: nat)
    ensures Law(env, false, w, FatalExit(fatal, message, w, runs).value.out)
  {
    if !fatal { StayLaw(env, w, Done(NodeFailed(message))); }
  }

  lemma {:induction false} GateLaw(env: Env, n: Node, attempt: nat, lastErrors: seq<string>, w: World, fuel: nat)
    requires n.Gate? && EvalGate(env, n, attempt, lastErrors, w, fuel).Some?
    ensures Law(env, false, w, EvalGate(env, n, attempt, lastErrors, w, fuel).value.out)
    decreases fuel, n, 2, n.spec.attempts + 1 - attempt, 0
  {
    var spec, out := n.spec, EvalGate(env, n, attempt, lastErrors, w, fuel).value.out;
    if attempt > spec.attempts {
      ExhaustLaw(env, n, lastErrors, w, fuel);
    } else if env.aborted(w) {
      StayLaw(env, w, Done(NodeCancelled));
    } else {
      var r := Eval(env, Target(n, attempt), Tick(w), fuel).value;
      EvalLaw(env, Target(n, attempt), Tick(w), fuel);
      Weaken(env, GateFree(Target(n, attempt)), false, Tick(w), r);
      if r.c.Done? && !r.c.result.NodeCancelled? {
        AfterTargetLaw(env, n, attempt, lastErrors, r, fuel);
        Then(env, false, Tick(w), r, out);
      }
      GateStep(env, w, Tick(w), out);
    }
  }

  lemma {:induction false} AfterTargetLaw(env: Env, n: Node, attempt: nat, lastErrors: seq<string>, r: Out, fuel: nat)
    requires n.Gate? && attempt <= n.spec.attempts && r.c.Done? && AfterTarget(env, n, attempt, lastErrors, r, fuel).Some?
    ensures Law(env, false, r.w, AfterTarget(env, n, attempt, lastErrors, r, fuel).value.out)
    decreases fuel, n, 2, n.spec.attempts - attempt, 1
  {
    var spec, out := n.spec, AfterTarget(env, n, attempt, lastErrors, r, fuel).value.out;
    if r.c.result.NodeFailed? {
      var error := r.c.result.error;
      if env.nonRetryable(error) {
        var w1 := Unrepairable(env, spec, error, r.w);
        FatalExitLaw(env, spec.fatal, error, w1, 1);
        GateStep(env, r.w, w1, out);
      } else {
        GateLaw(env, n, attempt + 1, lastErrors, r.w, fuel);
      }
    } else {
      match env.validate(spec.validator, r.w)
      case Raise(e) => RaisedLaw(env, r.w, r.w, e);
      case Value(v) =>
        if v.pass {
          StayLaw(env, Passed(env, spec, r.w), Done(NodeOk));
          GateStep(env, r.w, Passed(env, spec, r.w), out);
        } else {
          GateLaw(env, n, attempt + 1, v.errors, Rejected(env, spec, v.errors, r.w), fuel);
          GateStep(env, r.w, Rejected(env, spec, v.errors, r.w), out);
        }
    }
  }

  lemma {:induction false} ExhaustLaw(env: Env, n: Node, lastErrors: seq<string>, w: World, fuel: nat)
    requires n.Gate? && Exhaust(env, n, lastErrors, w, fuel).Some?
    ensures Law(env, false, w, Exhaust(env, n, lastErrors, w, fuel).value.out)
    decreases fuel, n, 1
  {
    var out := Exhaust(env, n, lastErrors, w, fuel).value.out;
    if !n.spec.fatal {
      FatalExitLaw(env, false, EXHAUSTED, w, 0);
    } else {
      var (decision, w1) := Escalate(env, n.spec, w);
      if decision == Some(AcceptLimitation) {
        StayLaw(env, out.w, Done(NodeOk));
        GateStep(env, w, out.w, out);
      } else if decision == Some(RetryWithGuidance) {
        GateLaw(env, n, 1, lastErrors, w1, fuel - 1);
        GateStep(env, w, w1, out);
      } else {
        FatalExitLaw(env, true, EXHAUSTED, w1, 0);
        GateStep(env, w, w1, out);
      }
    }
  }

  // ----- what follows ----------------------------------------------------------------------------------

  /** A FatalAbort raised anywhere in the tree, by a task, a predicate, a
      validator or an exhausted gate, is what the root run throws, and the root
      run throws one only then: no tolerant sequence, loop, retry, gate, catch or
      throwing finalizer turns it into a result. */
  lemma FatalAbortSurfaces(env: Env, n: Node, w: World, fuel: nat)
    requires !w.raised && Eval(env, n, w, fuel).Some?
    ensures var out := Eval(env, n, w, fuel).value; out.w.raised <==> Fatal(out.c)
  {
    EvalLaw(env, n, w, fuel);
  }

  /** Escalation budgets are never refunded by anything that runs. */
  lemma BudgetsAreNeverRefunded(env: Env, n: Node, w: World, fuel: nat, k: string)
    requires Eval(env, n, w, fuel).Some?
    ensures Remaining(Eval(env, n, w, fuel).value.w, k) <= Remaining(w, k)
  {
    EvalLaw(env, n, w, fuel);
    assert Used(w, k) <= Used(Eval(env, n, w, fuel).value.w, k);
  }
}
