/** The convergence ledger: one mutable store of findings, merged by id and
    fingerprint, and the rules on who may clear a blocker. */
module ConvergenceLedger {
  import opened Options
  import opened ReviewFindings
  import opened Seqs

  // ----- stages -------------------------------------------------------------------

  datatype Stage =
    | Setup | Classify | Requirements | Bdd | Research | Debug | Assessment | Design | Prototype
    | Spec | SpecReview | Implementation | Verification | Docs | Cleanup | Merge | Environment

  /** `STAGE_ORDER`; the environment is before everything. */
  function Rank(s: Stage): nat {
    match s
    case Environment => 0
    case Setup => 1 case Classify => 2 case Requirements => 3 case Bdd => 4 case Research => 5 case Debug => 6
    case Assessment => 7 case Design => 8 case Prototype => 9 case Spec => 10 case SpecReview => 11
    case Implementation => 12 case Verification => 13 case Docs => 14 case Cleanup => 15 case Merge => 16
  }

  predicate OwnerPrecedes(owner: Stage, current: Stage) {
    owner == Environment || (current != Environment && Rank(owner) < Rank(current))
    || (current == Environment && owner != Environment)
  }

  predicate Actionable(owner: Stage, own: Stage) { owner == own || OwnerPrecedes(owner, own) }

  // ----- findings -----------------------------------------------------------------

  datatype Finding = Finding(
    id: string, fingerprint: string, detectedAtStage: string, ownerStage: Stage, severity: string, blocking: bool,
    status: Status, title: string, detail: string, sourceGate: string, priorFindingId: string, defectClass: string,
    downgradeReason: string, seenCount: nat)

  /** The text functions of the ledger beside those of the reviews. */
  datatype Texts = Texts(
    vocab: Vocab,
    stageOf: string -> Option<Stage>,
    ledgerWord: string -> Option<Status>,
    looksBlocking: string -> bool,
    stageName: Stage -> string)

  datatype Defaults = Defaults(detectedAtStage: string, ownerStage: Stage, sourceGate: string)

  predicate Active(f: Finding) { f.status == Open || f.status == Addressed || f.status == NeedsHuman }

  predicate IsBlocking(f: Finding) { Active(f) && f.blocking }

  function Or(s: string, fallback: string): string { if s == "" then fallback else s }

  function NormalizedStatus(t: Texts, r: Review): Status {
    match t.ledgerWord(r.status)
    case Some(s) => s
    case None =>
      var inferred := InferStatus(t.vocab, r);
      if inferred == Known(Verified) || inferred == Known(Deferred) || inferred == Known(NeedsHuman) then inferred.status else Open
  }

  predicate NormalizedBlocking(t: Texts, r: Review, status: Status) {
    if t.vocab.isDuty(r.downgradeReason) then false
    else if status == Verified || status == Deferred then false
    else if status == NeedsHuman then true
    else match r.blocking
      case Flag(b) => b
      case Word(w) => Blocks(t.vocab, r) || (!t.vocab.saysNo(w) && (t.vocab.saysYes(w) || t.looksBlocking(Or(r.severity, "high"))))
      case Unset => Blocks(t.vocab, r) || t.looksBlocking(Or(r.severity, "high"))
  }

  /** `normalizeFinding`. */
  function Normalize(t: Texts, r: Review, d: Defaults): Finding {
    var owner := match t.stageOf(r.ownerStage) case Some(s) => s case None => d.ownerStage;
    var title := Or(r.title, Or(r.detail, "Convergence finding"));
    var detail := Or(r.detail, title);
    var gate := Or(r.sourceGate, d.sourceGate);
    var status := NormalizedStatus(t, r);
    var fp := t.vocab.fingerprint(t.stageName(owner), gate, title, detail);
    Finding(
      Or(r.id, "CF-" + t.stageName(owner) + "-" + fp), fp, d.detectedAtStage, owner, Or(r.severity, "high"),
      NormalizedBlocking(t, r, status), status, title, detail, gate, r.priorFindingId, r.defectClass, r.downgradeReason, 1)
  }

  // ----- recording ------------------------------------------------------------------

  predicate Matches(f: Finding, n: Finding) {
    f.id == n.id || f.fingerprint == n.fingerprint || (n.priorFindingId != "" && f.id == n.priorFindingId)
  }

  /** The first row that matches, or the length when none does. */
  function FindMatch(fs: seq<Finding>, n: Finding): (i: nat)
    ensures i <= |fs|
    ensures i < |fs| ==> Matches(fs[i], n)
    ensures forall j :: 0 <= j < i ==> !Matches(fs[j], n)
  {
    if fs == [] || Matches(fs[0], n) then 0 else 1 + FindMatch(fs[1..], n)
  }

  /** A duplicate merge. */
  function Merged(t: Texts, f: Finding, n: Finding): Finding {
    f.(
      detectedAtStage := n.detectedAtStage,
      ownerStage := n.ownerStage,
      severity := if t.vocab.isHigh(n.severity) && !t.vocab.isHigh(f.severity) then n.severity else f.severity,
      blocking := if t.vocab.isDuty(n.downgradeReason) then false else f.blocking || n.blocking,
      status := if n.status == Verified || n.status == Deferred || n.status == NeedsHuman then n.status else Open,
      title := n.title,
      detail := n.detail,
      sourceGate := Or(n.sourceGate, f.sourceGate),
      priorFindingId := Or(n.priorFindingId, f.priorFindingId),
      defectClass := Or(f.defectClass, n.defectClass),
      downgradeReason := if n.downgradeReason != "" then n.downgradeReason else if n.blocking then "" else f.downgradeReason,
      seenCount := f.seenCount + 1)
  }

  function RecordOne(t: Texts, fs: seq<Finding>, n: Finding): seq<Finding> {
    var i := FindMatch(fs, n);
    if i < |fs| then fs[i := Merged(t, fs[i], n)] else fs + [n]
  }

  function RecordAll(t: Texts, fs: seq<Finding>, inputs: seq<Review>, d: Defaults): seq<Finding>
    decreases |inputs|
  {
    if inputs == [] then fs
    else RecordAll(t, RecordOne(t, fs, Normalize(t, inputs[0], d)), inputs[1..], d)
  }

  /** Recording a finding again finds the row it went to: no second row appears. */
  lemma RecordingTwiceAddsNoRow(t: Texts, fs: seq<Finding>, n: Finding)
    ensures var once := RecordOne(t, fs, n);
      |RecordOne(t, once, n)| == |once| && FindMatch(once, n) == FindMatch(fs, n) < |once|
  {
    var i, once := FindMatch(fs, n), RecordOne(t, fs, n);
    assert Matches(once[i], n);
    assert forall j :: 0 <= j < i ==> once[j] == fs[j] && !Matches(once[j], n);
  }

  /** What the reviews count as blocking is recorded as blocking, unless it is
      settled, downgraded by the duty layer or flagged as not blocking. */
  lemma ReviewBlockersAreRecorded(t: Texts, r: Review, d: Defaults)
    requires Blocks(t.vocab, r) && !t.vocab.isDuty(r.downgradeReason) && r.blocking != Flag(false)
    ensures IsBlocking(Normalize(t, r, d)) <==> Active(Normalize(t, r, d))
  {
  }

  // ----- responses, verification, closure ----------------------------------------------

  datatype Source = Writer | Reviewer

  datatype Response = Response(findingId: string, status: string)

  /** Whom the response speaks about: the first row with this id or prior id. */
  function FindTarget(fs: seq<Finding>, id: string): (i: nat)
    ensures i <= |fs|
    ensures i < |fs| ==> fs[i].id == id || fs[i].priorFindingId == id
  {
    if fs == [] || fs[0].id == id || fs[0].priorFindingId == id then 0 else 1 + FindTarget(fs[1..], id)
  }

  /** A writer only claims; a reviewer may verify or defer. */
  function Responded(t: Texts, source: Source, r: Response): Status {
    var status := match t.ledgerWord(r.status) case Some(s) => s case None => Addressed;
    if source == Reviewer && (status == Verified || status == Deferred) then status else Addressed
  }

  function RespondOne(t: Texts, fs: seq<Finding>, source: Source, r: Response): seq<Finding> {
    var i := FindTarget(fs, r.findingId);
    if r.findingId == "" || i == |fs| then fs else fs[i := fs[i].(status := Responded(t, source, r))]
  }

  function RespondAll(t: Texts, fs: seq<Finding>, source: Source, rs: seq<Response>): seq<Finding>
    decreases |rs|
  {
    if rs == [] then fs else RespondAll(t, RespondOne(t, fs, source, rs[0]), source, rs[1..])
  }

  /** How many of the responses reach a finding. */
  function Reached(t: Texts, fs: seq<Finding>, source: Source, rs: seq<Response>): nat
    decreases |rs|
  {
    if rs == [] then 0
    else
      (if rs[0].findingId != "" && FindTarget(fs, rs[0].findingId) < |fs| then 1 else 0)
      + Reached(t, RespondOne(t, fs, source, rs[0]), source, rs[1..])
  }

  function VerifyRow(f: Finding, pred: Finding -> bool): Finding {
    if pred(f) && Active(f) then f.(status := Verified) else f
  }

  function VerifyAll(fs: seq<Finding>, pred: Finding -> bool): (r: seq<Finding>)
    ensures |r| == |fs| && forall i :: 0 <= i < |fs| ==> r[i] == VerifyRow(fs[i], pred)
  {
    seq(|fs|, i requires 0 <= i < |fs| => VerifyRow(fs[i], pred))
  }

  /** How many of the first `n` rows a verification changes. */
  function VerifiedCount(fs: seq<Finding>, pred: Finding -> bool, n: nat): nat
    requires n <= |fs|
  {
    if n == 0 then 0 else VerifiedCount(fs, pred, n - 1) + if pred(fs[n - 1]) && Active(fs[n - 1]) then 1 else 0
  }

  function CloseRow(f: Finding, id: string, reason: string): Finding {
    if f.id == id && f.status != Verified then f.(status := Verified, blocking := false, downgradeReason := reason) else f
  }

  function CloseAll(fs: seq<Finding>, id: string, reason: string): (r: seq<Finding>)
    ensures |r| == |fs| && forall i :: 0 <= i < |fs| ==> r[i] == CloseRow(fs[i], id, reason)
  {
    seq(|fs|, i requires 0 <= i < |fs| => CloseRow(fs[i], id, reason))
  }

  /** A stage finds that a row's owner cannot be reached, or that the row is a trace
      for the user: it stays, as advice. An empty reason leaves the old one. */
  function DemoteRow(f: Finding, reason: string): Finding {
    f.(blocking := false, downgradeReason := Or(reason, f.downgradeReason))
  }

  // ----- histories -----------------------------------------------------------------------

  /** One step of any run: a record, a response, a verification, a closure, or a stage
      that takes the blocking flag of a row away. */
  datatype Op =
    | Record(n: Finding)
    | Respond(source: Source, response: Response)
    | Verify(pred: Finding -> bool)
    | Close(id: string, reason: string)
    | Demote(i: nat, reason: string)

  function Apply(t: Texts, fs: seq<Finding>, op: Op): (r: seq<Finding>)
    ensures |fs| <= |r|
  {
    match op
    case Record(n) => RecordOne(t, fs, n)
    case Respond(source, response) => RespondOne(t, fs, source, response)
    case Verify(pred) => VerifyAll(fs, pred)
    case Close(id, reason) => CloseAll(fs, id, reason)
    case Demote(i, reason) => if i < |fs| then fs[i := DemoteRow(fs[i], reason)] else fs
  }

  function ApplyAll(t: Texts, fs: seq<Finding>, ops: seq<Op>): (r: seq<Finding>)
    ensures |fs| <= |r|
    decreases |ops|
  {
    if ops == [] then fs else ApplyAll(t, Apply(t, fs, ops[0]), ops[1..])
  }

  /** The methods of the store are runs of these steps. */
  function RecordOps(t: Texts, inputs: seq<Review>, d: Defaults): seq<Op>
    decreases |inputs|
  {
    if inputs == [] then [] else [Record(Normalize(t, inputs[0], d))] + RecordOps(t, inputs[1..], d)
  }

  function RespondOps(source: Source, rs: seq<Response>): seq<Op>
    decreases |rs|
  {
    if rs == [] then [] else [Respond(source, rs[0])] + RespondOps(source, rs[1..])
  }

  lemma {:induction false} RecordAllIsARun(t: Texts, fs: seq<Finding>, inputs: seq<Review>, d: Defaults)
    ensures RecordAll(t, fs, inputs, d) == ApplyAll(t, fs, RecordOps(t, inputs, d))
    decreases |inputs|
  {
    if inputs != [] {
      var op := Record(Normalize(t, inputs[0], d));
      assert ([op] + RecordOps(t, inputs[1..], d))[1..] == RecordOps(t, inputs[1..], d);
      RecordAllIsARun(t, Apply(t, fs, op), inputs[1..], d);
    }
  }

  lemma {:induction false} RespondAllIsARun(t: Texts, fs: seq<Finding>, source: Source, rs: seq<Response>)
    ensures RespondAll(t, fs, source, rs) == ApplyAll(t, fs, RespondOps(source, rs))
    decreases |rs|
  {
    if rs != [] {
      var op := Respond(source, rs[0]);
      assert ([op] + RespondOps(source, rs[1..]))[1..] == RespondOps(source, rs[1..]);
      RespondAllIsARun(t, Apply(t, fs, op), source, rs[1..]);
    }
  }

  /** The only ways out of the blocking set: a record that verifies, defers or is
      downgraded by the duty layer; a reviewer's resolution; a deterministic
      verification; an explicit closure; a demotion by a stage. A writer's response
      is none of them. */
  predicate Clears(t: Texts, fs: seq<Finding>, op: Op, i: nat)
    requires i < |fs|
  {
    match op
    case Record(n) => FindMatch(fs, n) == i && (n.status == Verified || n.status == Deferred || t.vocab.isDuty(n.downgradeReason))
    case Respond(source, response) =>
      source == Reviewer && response.findingId != "" && FindTarget(fs, response.findingId) == i
      && (t.ledgerWord(response.status) == Some(Verified) || t.ledgerWord(response.status) == Some(Deferred))
    case Verify(pred) => pred(fs[i])
    case Close(id, _) => fs[i].id == id
    case Demote(k, _) => k == i
  }

  /** A blocker leaves the blocking set in a step exactly when the step clears it. */
  lemma LeavesExactlyWhenCleared(t: Texts, fs: seq<Finding>, op: Op, i: nat)
    requires i < |fs| && IsBlocking(fs[i])
    ensures !IsBlocking(Apply(t, fs, op)[i]) <==> Clears(t, fs, op, i)
  {
  }

  /** Over any history, a blocker that is gone was cleared at some moment while
      it was still blocking. */
  lemma {:induction false} GoneWasCleared(t: Texts, fs: seq<Finding>, ops: seq<Op>, i: nat) returns (k: nat)
    requires i < |fs| && IsBlocking(fs[i]) && !IsBlocking(ApplyAll(t, fs, ops)[i])
    ensures k < |ops| && i < |ApplyAll(t, fs, ops[..k])|
    ensures IsBlocking(ApplyAll(t, fs, ops[..k])[i]) && Clears(t, ApplyAll(t, fs, ops[..k]), ops[k], i)
    decreases |ops|
  {
    var next := Apply(t, fs, ops[0]);
    LeavesExactlyWhenCleared(t, fs, ops[0], i);
    if IsBlocking(next[i]) {
      k := GoneWasCleared(t, next, ops[1..], i);
      assert ops[..k + 1][1..] == ops[1..][..k];
      k := k + 1;
    } else {
      assert ops[..0] == [];
      k := 0;
    }
  }

  predicate ByWriter(ops: seq<Op>) {
    forall k :: 0 <= k < |ops| ==> ops[k].Respond? && ops[k].source == Writer
  }

  /** No run of writer responses ever shrinks the blocking set. */
  lemma {:induction false} WritersNeverClear(t: Texts, fs: seq<Finding>, ops: seq<Op>, i: nat)
    requires ByWriter(ops) && i < |fs| && IsBlocking(fs[i])
    ensures IsBlocking(ApplyAll(t, fs, ops)[i])
    decreases |ops|
  {
    if ops != [] {
      assert ops[0].Respond? && ops[0].source == Writer;
      LeavesExactlyWhenCleared(t, fs, ops[0], i);
      WritersNeverClear(t, Apply(t, fs, ops[0]), ops[1..], i);
    }
  }

  // ----- what every operation keeps ---------------------------------------------------------

  ghost predicate Distinct(fs: seq<Finding>) {
    forall i, j :: 0 <= i < j < |fs| ==> fs[i].id != fs[j].id && fs[i].fingerprint != fs[j].fingerprint
  }

  function Seen(fs: seq<Finding>): nat {
    if fs == [] then 0 else Seen(fs[..|fs| - 1]) + fs[|fs| - 1].seenCount
  }

  function Records(ops: seq<Op>): nat
    decreases |ops|
  {
    if ops == [] then 0 else (if ops[0].Record? then 1 else 0) + Records(ops[1..])
  }

  lemma {:induction false} SeenUpdate(fs: seq<Finding>, i: nat, f: Finding)
    requires i < |fs|
    ensures Seen(fs[i := f]) == Seen(fs) - fs[i].seenCount + f.seenCount
    decreases |fs|
  {
    var n := |fs| - 1;
    if i < n {
      assert fs[i := f][..n] == fs[..n][i := f];
      SeenUpdate(fs[..n], i, f);
    } else {
      assert fs[i := f][..n] == fs[..n];
    }
  }

  lemma {:induction false} SeenSame(fs: seq<Finding>, gs: seq<Finding>)
    requires |fs| == |gs| && forall i :: 0 <= i < |fs| ==> fs[i].seenCount == gs[i].seenCount
    ensures Seen(fs) == Seen(gs)
    decreases |fs|
  {
    if fs != [] { SeenSame(fs[..|fs| - 1], gs[..|gs| - 1]); }
  }

  /** A row keeps its identity for life. */
  lemma IdentityIsKept(t: Texts, fs: seq<Finding>, op: Op, i: nat)
    requires i < |fs|
    ensures Apply(t, fs, op)[i].id == fs[i].id && Apply(t, fs, op)[i].fingerprint == fs[i].fingerprint
    ensures t.vocab.isHigh(fs[i].severity) ==> t.vocab.isHigh(Apply(t, fs, op)[i].severity)
  {
  }

  predicate Fresh(op: Op) { op.Record? ==> op.n.seenCount == 1 }

  lemma StepKeepsDistinct(t: Texts, fs: seq<Finding>, op: Op)
    requires Distinct(fs)
    ensures Distinct(Apply(t, fs, op))
  {
    var gs := Apply(t, fs, op);
    forall i | 0 <= i < |fs| ensures gs[i].id == fs[i].id && gs[i].fingerprint == fs[i].fingerprint {
      IdentityIsKept(t, fs, op, i);
    }
  }

  lemma StepKeepsSeen(t: Texts, fs: seq<Finding>, op: Op)
    requires Fresh(op)
    ensures Seen(Apply(t, fs, op)) == Seen(fs) + if op.Record? then 1 else 0
  {
    var gs := Apply(t, fs, op);
    match op
    case Record(n) =>
      var i := FindMatch(fs, n);
      if i < |fs| {
        SeenUpdate(fs, i, Merged(t, fs[i], n));
      } else {
        assert gs[..|fs|] == fs;
      }
    case Respond(_, _) => SeenSame(fs, gs);
    case Verify(_) => SeenSame(fs, gs);
    case Close(_, _) => SeenSame(fs, gs);
    case Demote(_, _) => SeenSame(fs, gs);
  }

  /** Over any history ids and fingerprints stay pairwise distinct, no finding is
      dropped or renamed, and the sightings add up to the records processed. */
  lemma {:induction false} HistoryKeepsLedger(t: Texts, fs: seq<Finding>, ops: seq<Op>)
    requires Distinct(fs) && forall k :: 0 <= k < |ops| ==> Fresh(ops[k])
    ensures var gs := ApplyAll(t, fs, ops);
      && Distinct(gs)
      && Seen(gs) == Seen(fs) + Records(ops)
      && (forall i :: 0 <= i < |fs| ==> gs[i].id == fs[i].id && gs[i].fingerprint == fs[i].fingerprint)
    decreases |ops|
  {
    if ops != [] {
      var next := Apply(t, fs, ops[0]);
      StepKeepsDistinct(t, fs, ops[0]);
      StepKeepsSeen(t, fs, ops[0]);
      HistoryKeepsLedger(t, next, ops[1..]);
      forall i | 0 <= i < |fs| ensures next[i].id == fs[i].id && next[i].fingerprint == fs[i].fingerprint {
        IdentityIsKept(t, fs, ops[0], i);
      }
    }
  }

  // ----- carried debt ---------------------------------------------------------------------------

  /** A blocker is carried out of a stage's loop exactly when its owner comes
      strictly later: the loop could never clear it. */
  lemma CarriedIsDownstream(owner: Stage, own: Stage)
    requires own != Environment
    ensures !Actionable(owner, own) <==> Rank(owner) > Rank(own)
  {
  }

  // ----- the store --------------------------------------------------------------------------------

  class Ledger {
    const texts: Texts
    var findings: seq<Finding>

    constructor (texts: Texts)
      ensures this.texts == texts && findings == []
    {
      this.texts := texts;
      findings := [];
    }

    method RecordConvergenceFindings(inputs: seq<Review>, d: Defaults)
      modifies this
      ensures findings == RecordAll(texts, old(findings), inputs, d)
    {
      var i := 0;
      while i < |inputs|
        invariant 0 <= i <= |inputs|
        invariant RecordAll(texts, old(findings), inputs, d) == RecordAll(texts, findings, inputs[i..], d)
      {
        assert inputs[i..][1..] == inputs[i + 1..];
        var normalized := Normalize(texts, inputs[i], d);
        var existing := FindMatch(findings, normalized);
        if existing < |findings| {
          findings := findings[existing := Merged(texts, findings[existing], normalized)];
        } else {
          findings := findings + [normalized];
        }
        i := i + 1;
      }
    }

    method MarkAddressedFromResponses(responses: seq<Response>, source: Source) returns (count: nat)
      modifies this
      ensures findings == RespondAll(texts, old(findings), source, responses)
      ensures count == Reached(texts, old(findings), source, responses)
    {
      count := 0;
      var i := 0;
      while i < |responses|
        invariant 0 <= i <= |responses|
        invariant Reached(texts, old(findings), source, responses) == count + Reached(texts, findings, source, responses[i..])
        invariant RespondAll(texts, old(findings), source, responses) == RespondAll(texts, findings, source, responses[i..])
      {
        assert responses[i..][1..] == responses[i + 1..];
        var r := responses[i];
        i := i + 1;
        if r.findingId == "" {
          continue;
        }
        var target := FindTarget(findings, r.findingId);
        if target == |findings| {
          continue;
        }
        findings := findings[target := findings[target].(status := Responded(texts, source, r))];
        count := count + 1;
      }
    }

    method MarkVerified(pred: Finding -> bool) returns (count: nat)
      modifies this
      ensures findings == VerifyAll(old(findings), pred)
      ensures count == VerifiedCount(old(findings), pred, |old(findings)|)
    {
      count := 0;
      for i := 0 to |findings|
        invariant |findings| == |old(findings)|
        invariant count == VerifiedCount(old(findings), pred, i)
        invariant forall j :: 0 <= j < i ==> findings[j] == VerifyRow(old(findings)[j], pred)
        invariant forall j :: i <= j < |findings| ==> findings[j] == old(findings)[j]
      {
        if pred(findings[i]) && Active(findings[i]) {
          findings := findings[i := findings[i].(status := Verified)];
          count := count + 1;
        }
      }
    }

    method CloseAgentFailed(id: string, reason: string)
      modifies this
      ensures findings == CloseAll(old(findings), id, reason)
    {
      for i := 0 to |findings|
        invariant |findings| == |old(findings)|
        invariant forall j :: 0 <= j < i ==> findings[j] == CloseRow(old(findings)[j], id, reason)
        invariant forall j :: i <= j < |findings| ==> findings[j] == old(findings)[j]
      {
        var f := findings[i];
        if f.id == id && f.status != Verified {
          findings := findings[i := f.(status := Verified, blocking := false, downgradeReason := reason)];
        }
      }
    }

    /** `blockingConvergenceFindings`. */
    method BlockingFindings() returns (blockers: seq<Finding>)
      ensures blockers == BlockingOf(findings)
    {
      blockers := [];
      for i := 0 to |findings|
        invariant blockers == BlockingOf(findings[..i])
      {
        TakeSnoc(findings, i);
        assert (findings[..i] + [findings[i]])[..i] == findings[..i];
        if IsBlocking(findings[i]) {
          blockers := blockers + [findings[i]];
        }
      }
      TakeAll(findings);
    }
  }

  function BlockingOf(fs: seq<Finding>): seq<Finding> {
    if fs == [] then []
    else BlockingOf(fs[..|fs| - 1]) + if IsBlocking(fs[|fs| - 1]) then [fs[|fs| - 1]] else []
  }
}
