/** What a gate promises: when it passes, how often it runs its target, and what
    it leaves in the feedback and in the ledger. */
module Gates {
  import L = ConvergenceLedger
  import R = ReviewFindings
  import opened NodeLaws
  import opened Nodes
  import opened Options

  // ----- passing ------------------------------------------------------------------

  predicate LastPassed(verdicts: seq<bool>) { |verdicts| > 0 && verdicts[|verdicts| - 1] }

  /** Ok exactly when the last validator call passed or the user took the failure
      as a limitation, and then the marker is there. */
  ghost predicate Honest(spec: GateSpec, g: GateOut) {
    && (g.out.c == Done(NodeOk) <==> LastPassed(g.verdicts) || g.limitation)
    && (g.limitation ==> GateKey(spec) in g.out.w.accepted)
  }

  lemma AddHonest(spec: GateSpec, runs: nat, verdicts: seq<bool>, errors: seq<string>, rest: GateRes)
    requires rest.Some? && Honest(spec, rest.value) && (|verdicts| > 0 ==> !verdicts[|verdicts| - 1])
    ensures Honest(spec, Add(runs, verdicts, errors, rest).value)
  {
  }

  lemma {:induction false} GateIsHonest(env: Env, n: Node, attempt: nat, lastErrors: seq<string>, w: World, fuel: nat)
    requires n.Gate? && EvalGate(env, n, attempt, lastErrors, w, fuel).Some?
    ensures Honest(n.spec, EvalGate(env, n, attempt, lastErrors, w, fuel).value)
    decreases fuel, n.spec.attempts + 1 - attempt, 1
  {
    if attempt > n.spec.attempts {
      var (decision, w1) := Escalate(env, n.spec, w);
      if n.spec.fatal && decision == Some(RetryWithGuidance) {
        GateIsHonest(env, n, 1, lastErrors, w1, fuel - 1);
      }
    } else if !env.aborted(w) {
      var r := Eval(env, Target(n, attempt), Tick(w), fuel).value;
      if r.c.Done? && !r.c.result.NodeCancelled? {
        AfterIsHonest(env, n, attempt, lastErrors, r, fuel);
      }
    }
  }

  lemma {:induction false} AfterIsHonest(env: Env, n: Node, attempt: nat, lastErrors: seq<string>, r: Out, fuel: nat)
    requires n.Gate? && attempt <= n.spec.attempts && r.c.Done? && AfterTarget(env, n, attempt, lastErrors, r, fuel).Some?
    ensures Honest(n.spec, AfterTarget(env, n, attempt, lastErrors, r, fuel).value)
    decreases fuel, n.spec.attempts + 1 - attempt, 0
  {
    if r.c.result.NodeFailed? {
      if !env.nonRetryable(r.c.result.error) {
        GateIsHonest(env, n, attempt + 1, lastErrors, r.w, fuel);
        AddHonest(n.spec, 1, [], [], EvalGate(env, n, attempt + 1, lastErrors, r.w, fuel));
      }
    } else if env.validate(n.spec.validator, r.w).Value? {
      var v := env.validate(n.spec.validator, r.w).value;
      if !v.pass {
        var w1 := Rejected(env, n.spec, v.errors, r.w);
        GateIsHonest(env, n, attempt + 1, v.errors, w1, fuel);
        AddHonest(n.spec, 1, [false], v.errors, EvalGate(env, n, attempt + 1, v.errors, w1, fuel));
      }
    }
  }

  /** A gate node is ok exactly when its last validator call passed or a limitation
      was accepted. */
  lemma GateOkExactly(env: Env, n: Node, w: World, fuel: nat)
    requires n.Gate? && Eval(env, n, w, fuel).Some?
    ensures var g := EvalGate(env, n, 1, [], w, fuel).value;
      && Eval(env, n, w, fuel).value == g.out
      && (g.out.c == Done(NodeOk) <==> LastPassed(g.verdicts) || g.limitation)
      && (g.limitation ==> GateKey(n.spec) in g.out.w.accepted)
  {
    GateIsHonest(env, n, 1, [], w, fuel);
  }

  // ----- how often the target runs ------------------------------------------------------

  function Rounds(attempts: nat, rounds: nat): nat {
    if rounds == 0 then 0 else attempts + Rounds(attempts, rounds - 1)
  }

  lemma {:induction false} RoundsMonotone(attempts: nat, a: nat, b: nat)
    requires a <= b
    ensures Rounds(attempts, a) <= Rounds(attempts, b)
    decreases b
  {
    if a < b { RoundsMonotone(attempts, a, b - 1); }
  }

  /** Runs left: the rest of this round, and a full round per remaining retry. */
  function RunsLeft(n: Node, attempt: nat, w: World): nat
    requires n.Gate?
  {
    (if attempt > n.spec.attempts then 0 else n.spec.attempts + 1 - attempt) + Rounds(n.spec.attempts, Remaining(w, BudgetKey(n.spec)))
  }

  lemma FewerRetriesLeft(n: Node, attempt: nat, w: World, w': World)
    requires n.Gate? && Remaining(w', BudgetKey(n.spec)) <= Remaining(w, BudgetKey(n.spec))
    ensures RunsLeft(n, attempt, w') <= RunsLeft(n, attempt, w)
  {
    RoundsMonotone(n.spec.attempts, Remaining(w', BudgetKey(n.spec)), Remaining(w, BudgetKey(n.spec)));
  }

  lemma {:induction false} GateRunsBounded(env: Env, n: Node, attempt: nat, lastErrors: seq<string>, w: World, fuel: nat)
    requires n.Gate? && 1 <= attempt && EvalGate(env, n, attempt, lastErrors, w, fuel).Some?
    ensures EvalGate(env, n, attempt, lastErrors, w, fuel).value.runs <= RunsLeft(n, attempt, w)
    decreases fuel, n.spec.attempts + 1 - attempt, 1
  {
    if attempt > n.spec.attempts {
      var (decision, w1) := Escalate(env, n.spec, w);
      if n.spec.fatal && decision == Some(RetryWithGuidance) {
        GateRunsBounded(env, n, 1, lastErrors, w1, fuel - 1);
        assert Remaining(w1, BudgetKey(n.spec)) == Remaining(w, BudgetKey(n.spec)) - 1;
      }
    } else if !env.aborted(w) {
      var r := Eval(env, Target(n, attempt), Tick(w), fuel).value;
      BudgetsAreNeverRefunded(env, Target(n, attempt), Tick(w), fuel, BudgetKey(n.spec));
      if r.c.Done? && !r.c.result.NodeCancelled? {
        AfterRunsBounded(env, n, attempt, lastErrors, r, fuel);
      }
      FewerRetriesLeft(n, attempt, w, r.w);
    }
  }

  lemma {:induction false} AfterRunsBounded(env: Env, n: Node, attempt: nat, lastErrors: seq<string>, r: Out, fuel: nat)
    requires n.Gate? && 1 <= attempt <= n.spec.attempts && r.c.Done? && AfterTarget(env, n, attempt, lastErrors, r, fuel).Some?
    ensures AfterTarget(env, n, attempt, lastErrors, r, fuel).value.runs <= RunsLeft(n, attempt, r.w)
    decreases fuel, n.spec.attempts + 1 - attempt, 0
  {
    if r.c.result.NodeFailed? {
      if !env.nonRetryable(r.c.result.error) {
        GateRunsBounded(env, n, attempt + 1, lastErrors, r.w, fuel);
      }
    } else if env.validate(n.spec.validator, r.w).Value? {
      var v := env.validate(n.spec.validator, r.w).value;
      if !v.pass {
        var w1 := Rejected(env, n.spec, v.errors, r.w);
        GateRunsBounded(env, n, attempt + 1, v.errors, w1, fuel);
        assert w1.retries == r.w.retries;
      }
    }
  }

  /** A gate runs its target at most attempts x (1 + retry cap) times, however the
      user answers and whatever the target does. */
  lemma TargetRunsAreBounded(env: Env, n: Node, w: World, fuel: nat)
    requires n.Gate? && Eval(env, n, w, fuel).Some?
    ensures EvalGate(env, n, 1, [], w, fuel).value.runs <= n.spec.attempts * (1 + RETRY_CAP)
  {
    GateRunsBounded(env, n, 1, [], w, fuel);
    RoundsMonotone(n.spec.attempts, Remaining(w, BudgetKey(n.spec)), RETRY_CAP);
    assert Rounds(n.spec.attempts, 2) == n.spec.attempts + Rounds(n.spec.attempts, 1);
  }

  /** Exhausting a gate charges one retry if and only if there is a callback and a
      retry left: whatever the user answers, a throw and a dismissal included, and
      never another gate's. */
  lemma EscalationCharges(env: Env, spec: GateSpec, w: World, k: string)
    ensures var w1 := Escalate(env, spec, w).1;
      && (Remaining(w1, k) == Remaining(w, k) - 1 <==> k == BudgetKey(spec) && env.escalate.Some? && Remaining(w, k) > 0)
      && (Remaining(w1, k) != Remaining(w, k) - 1 ==> Remaining(w1, k) == Remaining(w, k))
  {
  }

  /** A user who accepts the limitation at once is charged a retry. */
  lemma AcceptingIsCharged(env: Env, n: Node, lastErrors: seq<string>, w: World, fuel: nat)
    requires n.Gate? && n.spec.fatal && n.spec.attempts == 0 && Remaining(w, BudgetKey(n.spec)) > 0
    requires env.escalate.Some? && forall k, w' :: env.escalate.value(k, w') == Some(AcceptLimitation)
    ensures var g := EvalGate(env, n, 1, lastErrors, w, fuel);
      && g.Some? && g.value.out.c == Done(NodeOk)
      && Remaining(g.value.out.w, BudgetKey(n.spec)) == Remaining(w, BudgetKey(n.spec)) - 1
  {
  }

  // ----- what a pass leaves ------------------------------------------------------------------

  /** No stage and no status has an empty name. */
  predicate PlainTexts(t: L.Texts) { t.stageOf("") == None && t.ledgerWord("") == None }

  function RecordedAs(env: Env, key: string): L.Defaults { L.Defaults(key, Owner(env, key), "validator") }

  /** The row that one reported error makes or is merged into. */
  function RowOf(env: Env, key: string, error: string): L.Finding { L.Normalize(env.texts, ErrorReview(error), RecordedAs(env, key)) }

  /** The ledger after errors were reported, one by one. */
  function Report(env: Env, key: string, fs: seq<L.Finding>, errors: seq<string>): seq<L.Finding>
    decreases |errors|
  {
    if errors == [] then fs else Report(env, key, L.RecordOne(env.texts, fs, RowOf(env, key, errors[0])), errors[1..])
  }

  /** The last of the reported errors that was recorded in row `i`. */
  function LastIn(env: Env, key: string, fs: seq<L.Finding>, errors: seq<string>, i: nat): Option<string>
    decreases |errors|
  {
    if errors == [] then None
    else
      var row := RowOf(env, key, errors[0]);
      var later := LastIn(env, key, L.RecordOne(env.texts, fs, row), errors[1..], i);
      if later.Some? then later else if L.FindMatch(fs, row) == i then Some(errors[0]) else None
  }

  predicate ReadsAsDeferred(env: Env, error: string) { env.texts.vocab.prose(error, error) == Some(R.Deferred) }

  lemma {:induction false} ReportIsRecordAll(env: Env, key: string, fs: seq<L.Finding>, errors: seq<string>)
    ensures L.RecordAll(env.texts, fs, ErrorReviews(errors), RecordedAs(env, key)) == Report(env, key, fs, errors)
    decreases |errors|
  {
    if errors != [] {
      assert ErrorReviews(errors)[1..] == ErrorReviews(errors[1..]);
      ReportIsRecordAll(env, key, L.RecordOne(env.texts, fs, RowOf(env, key, errors[0])), errors[1..]);
    }
  }

  lemma {:induction false} ReportConcat(env: Env, key: string, fs: seq<L.Finding>, a: seq<string>, b: seq<string>)
    ensures Report(env, key, fs, a + b) == Report(env, key, Report(env, key, fs, a), b)
    decreases |a|
  {
    if a == [] {
      assert a + b == b;
    } else {
      assert (a + b)[1..] == a[1..] + b;
      ReportConcat(env, key, L.RecordOne(env.texts, fs, RowOf(env, key, a[0])), a[1..], b);
    }
  }

  lemma ErrorStatus(env: Env, key: string, error: string)
    requires PlainTexts(env.texts)
    ensures var row := RowOf(env, key, error);
      && OwnFinding(env, key, row)
      && (row.status == R.Deferred <==> ReadsAsDeferred(env, error))
      && (L.Active(row) || row.status == R.Deferred || row.status == R.Verified)
  {
  }

  /** A row nothing was recorded in is as it was; any other is the gate's own, and
      has the status of the last error recorded in it. */
  lemma {:induction false} RowAfterReport(env: Env, key: string, fs: seq<L.Finding>, errors: seq<string>, i: nat)
    requires PlainTexts(env.texts) && i < |Report(env, key, fs, errors)|
    ensures var row := Report(env, key, fs, errors)[i];
      match LastIn(env, key, fs, errors, i)
      case None => i < |fs| && row == fs[i]
      case Some(e) => OwnFinding(env, key, row) && row.status == RowOf(env, key, e).status
    decreases |errors|
  {
    if errors != [] {
      var row := RowOf(env, key, errors[0]);
      ErrorStatus(env, key, errors[0]);
      RowAfterReport(env, key, L.RecordOne(env.texts, fs, row), errors[1..], i);
    }
  }

  /** What a passing run leaves in the ledger: the errors it reported, and then its
      own rows verified. */
  ghost predicate PassLeaves(env: Env, spec: GateSpec, fs: seq<L.Finding>, g: GateOut)
    requires spec.key.Some?
  {
    var key := spec.key.value;
    LastPassed(g.verdicts) ==>
      && key !in g.out.w.feedback
      && g.out.w.ledger == L.VerifyAll(Report(env, key, fs, g.reported), f => OwnFinding(env, key, f))
  }

  predicate KeepsOut(n: Node)
    requires n.Gate?
  {
    GateFree(n.node) && (n.fix.Some? ==> GateFree(n.fix.value))
  }

  lemma {:induction false} GatePasses(env: Env, n: Node, attempt: nat, lastErrors: seq<string>, w: World, fuel: nat)
    requires n.Gate? && n.spec.key.Some? && KeepsOut(n)
    requires EvalGate(env, n, attempt, lastErrors, w, fuel).Some?
    ensures PassLeaves(env, n.spec, w.ledger, EvalGate(env, n, attempt, lastErrors, w, fuel).value)
    decreases fuel, n.spec.attempts + 1 - attempt, 2
  {
    if attempt > n.spec.attempts {
      var (decision, w1) := Escalate(env, n.spec, w);
      if n.spec.fatal && decision == Some(RetryWithGuidance) {
        GatePasses(env, n, 1, lastErrors, w1, fuel - 1);
      }
    } else if !env.aborted(w) {
      var r := Eval(env, Target(n, attempt), Tick(w), fuel).value;
      EvalLaw(env, Target(n, attempt), Tick(w), fuel);
      assert GateFree(Target(n, attempt));
      if r.c.Done? && !r.c.result.NodeCancelled? {
        AfterPasses(env, n, attempt, lastErrors, r, fuel);
      }
    }
  }

  lemma {:induction false} AfterPasses(env: Env, n: Node, attempt: nat, lastErrors: seq<string>, r: Out, fuel: nat)
    requires n.Gate? && n.spec.key.Some? && KeepsOut(n)
    requires attempt <= n.spec.attempts && r.c.Done? && AfterTarget(env, n, attempt, lastErrors, r, fuel).Some?
    ensures PassLeaves(env, n.spec, r.w.ledger, AfterTarget(env, n, attempt, lastErrors, r, fuel).value)
    decreases fuel, n.spec.attempts + 1 - attempt, 1
  {
    if !r.c.result.NodeFailed? {
      ValidatedPasses(env, n, attempt, lastErrors, r, fuel);
    } else if !env.nonRetryable(r.c.result.error) {
      GatePasses(env, n, attempt + 1, lastErrors, r.w, fuel);
      var g := EvalGate(env, n, attempt + 1, lastErrors, r.w, fuel).value;
      assert [] + g.reported == g.reported && [] + g.verdicts == g.verdicts;
    }
  }

  lemma {:induction false} ValidatedPasses(env: Env, n: Node, attempt: nat, lastErrors: seq<string>, r: Out, fuel: nat)
    requires n.Gate? && n.spec.key.Some? && KeepsOut(n)
    requires attempt <= n.spec.attempts && r.c.Done? && AfterTarget(env, n, attempt, lastErrors, r, fuel).Some? && !r.c.result.NodeFailed?
    ensures PassLeaves(env, n.spec, r.w.ledger, AfterTarget(env, n, attempt, lastErrors, r, fuel).value)
    decreases fuel, n.spec.attempts + 1 - attempt, 0
  {
    var answer := env.validate(n.spec.validator, r.w);
    if answer.Value? && !answer.value.pass {
      var errors, key := answer.value.errors, n.spec.key.value;
      var w1 := Rejected(env, n.spec, errors, r.w);
      GatePasses(env, n, attempt + 1, errors, w1, fuel);
      RejectedReports(env, n.spec, errors, r.w);
      ReportConcat(env, key, r.w.ledger, errors, EvalGate(env, n, attempt + 1, errors, w1, fuel).value.reported);
    }
  }

  lemma RejectedReports(env: Env, spec: GateSpec, errors: seq<string>, w: World)
    requires spec.key.Some?
    ensures Rejected(env, spec, errors, w).ledger == Report(env, spec.key.value, w.ledger, errors)
  {
    ReportIsRecordAll(env, spec.key.value, w.ledger, errors);
  }

  /** Row `i` of the ledger after a passing run: verified if and only if the last
      error recorded in it does not read as deferred, and untouched by the reports
      when none was. */
  predicate VerifiedExactly(env: Env, key: string, before: seq<L.Finding>, g: GateOut, i: nat)
    requires i < |g.out.w.ledger|
  {
    var row := g.out.w.ledger[i];
    match LastIn(env, key, before, g.reported, i)
    case None => i < |before| && row == L.VerifyRow(before[i], f => OwnFinding(env, key, f))
    case Some(e) => row.status == R.Verified <==> !ReadsAsDeferred(env, e)
  }

  lemma RowVerifiedExactly(env: Env, spec: GateSpec, before: seq<L.Finding>, g: GateOut, i: nat)
    requires spec.key.Some? && PlainTexts(env.texts) && PassLeaves(env, spec, before, g) && LastPassed(g.verdicts)
    requires i < |g.out.w.ledger|
    ensures VerifiedExactly(env, spec.key.value, before, g, i)
  {
    var key := spec.key.value;
    RowAfterReport(env, key, before, g.reported, i);
    var last := LastIn(env, key, before, g.reported, i);
    if last.Some? {
      ErrorStatus(env, key, last.value);
    }
  }

  /** When a gate over a target that holds no gate of its own passes, its feedback
      is gone, and of the rows its validator's errors were recorded in exactly those
      are verified whose last error does not read as deferred. */
  lemma PassVerifiesExactly(env: Env, n: Node, w: World, fuel: nat)
    requires n.Gate? && n.spec.key.Some? && KeepsOut(n) && PlainTexts(env.texts)
    requires Eval(env, n, w, fuel).Some?
    ensures var g := EvalGate(env, n, 1, [], w, fuel).value;
      LastPassed(g.verdicts) ==>
        && n.spec.key.value !in g.out.w.feedback
        && forall i :: 0 <= i < |g.out.w.ledger| ==> VerifiedExactly(env, n.spec.key.value, w.ledger, g, i)
  {
    var g, key := EvalGate(env, n, 1, [], w, fuel).value, n.spec.key.value;
    GatePasses(env, n, 1, [], w, fuel);
    if LastPassed(g.verdicts) {
      forall i | 0 <= i < |g.out.w.ledger| ensures VerifiedExactly(env, key, w.ledger, g, i) {
        RowVerifiedExactly(env, n.spec, w.ledger, g, i);
      }
    }
  }

  lemma {:induction false} LastIsReported(env: Env, key: string, fs: seq<L.Finding>, errors: seq<string>, i: nat)
    requires LastIn(env, key, fs, errors, i).Some?
    ensures LastIn(env, key, fs, errors, i).value in errors
    decreases |errors|
  {
    var next := L.RecordOne(env.texts, fs, RowOf(env, key, errors[0]));
    if LastIn(env, key, next, errors[1..], i).Some? {
      LastIsReported(env, key, next, errors[1..], i);
    }
  }

  /** So all findings are verified on a pass when no reported error reads as
      deferred. */
  lemma PassVerifiesAll(env: Env, n: Node, w: World, fuel: nat, i: nat)
    requires n.Gate? && n.spec.key.Some? && KeepsOut(n) && PlainTexts(env.texts)
    requires Eval(env, n, w, fuel).Some?
    requires forall e :: e in EvalGate(env, n, 1, [], w, fuel).value.reported ==> !ReadsAsDeferred(env, e)
    ensures var g := EvalGate(env, n, 1, [], w, fuel).value;
      LastPassed(g.verdicts) && i < |g.out.w.ledger| && LastIn(env, n.spec.key.value, w.ledger, g.reported, i).Some? ==>
        g.out.w.ledger[i].status == R.Verified
  {
    var g, key := EvalGate(env, n, 1, [], w, fuel).value, n.spec.key.value;
    PassVerifiesExactly(env, n, w, fuel);
    if LastPassed(g.verdicts) && i < |g.out.w.ledger| && LastIn(env, key, w.ledger, g.reported, i).Some? {
      LastIsReported(env, key, w.ledger, g.reported, i);
      assert VerifiedExactly(env, key, w.ledger, g, i);
    }
  }

  /** It happens that one is not: in an empty ledger an error whose text reads as
      deferred is recorded as deferred, and the pass leaves it so. */
  lemma DeferredTextStaysDeferred(env: Env, spec: GateSpec, error: string, w: World)
    requires spec.key.Some? && w.ledger == [] && PlainTexts(env.texts) && ReadsAsDeferred(env, error)
    ensures var after := Passed(env, spec, Rejected(env, spec, [error], w));
      |after.ledger| == 1 && after.ledger[0].status == R.Deferred
  {
    var key := spec.key.value;
    RejectedReports(env, spec, [error], w);
    ErrorStatus(env, key, error);
    assert [error][1..] == [];
    assert Report(env, key, [], [error]) == [RowOf(env, key, error)];
  }
}
