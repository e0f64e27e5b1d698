/** Review findings as reviewers write them: when one blocks, when it pins the
    verdict, and the convergence duty that downgrades late new blockers. */
module ReviewFindings {
  import opened Options
  import opened Seqs

  datatype Status = Open | Addressed | Verified | Deferred | NeedsHuman | Superseded

  /** The `blocking` field: missing, a boolean, or a word. */
  datatype Flag = Unset | Flag(value: bool) | Word(text: string)

  /** A piece of evidence that points into a file. */
  datatype Locus = Locus(file: string, line: Option<nat>, ref: Option<string>)

  /** A finding as the reviewer wrote it; "" stands for a missing text. */
  datatype Review = Review(
    id: string, priorFindingId: string, ownerStage: string, severity: string, blocking: Flag, status: string,
    title: string, detail: string, sourceGate: string, defectClass: string, downgradeReason: string,
    loci: seq<Locus>, exempt: bool)

  /** The regular expressions and the hash, as functions: which severities are
      high, what a status word means, what the prose says, which words say yes or
      no, and the fingerprint of (owner stage, source gate, title, detail). */
  datatype Vocab = Vocab(
    isHigh: string -> bool,
    statusWord: string -> Option<Status>,
    prose: (string, string) -> Option<Status>,
    saysYes: string -> bool,
    saysNo: string -> bool,
    isDuty: string -> bool,
    fingerprint: (string, string, string, string) -> string)

  /** A normalized status: none given, a known one, or a word of its own. */
  datatype Reading = Missing | Known(status: Status) | Unknown

  function NormalizeStatus(v: Vocab, word: string): Reading {
    if word == "" then Missing
    else match v.statusWord(word)
      case None => Unknown
      case Some(s) => Known(s)
  }

  function InferStatus(v: Vocab, f: Review): Reading {
    if f.status != "" then NormalizeStatus(v, f.status)
    else match v.prose(f.title, f.detail)
      case None => Known(Open)
      case Some(s) => Known(s)
  }

  function SeverityOf(f: Review): string { if f.severity == "" then "medium" else f.severity }

  predicate High(v: Vocab, f: Review) { v.isHigh(SeverityOf(f)) }

  /** `reviewFindingBlocks`. */
  predicate Blocks(v: Vocab, f: Review) {
    var status := if f.status != "" || f.blocking == Flag(true) || High(v, f) then NormalizeStatus(v, f.status) else InferStatus(v, f);
    if status == Known(Verified) || status == Known(Addressed) || status == Known(Deferred) then false
    else if status == Known(NeedsHuman) then true
    else match f.blocking
      case Flag(b) => b
      case Word(w) => if v.saysNo(w) then false else if v.saysYes(w) then true else High(v, f)
      case Unset => High(v, f)
  }

  /** `reviewFindingBlocksVerdict`. */
  predicate PinsVerdict(v: Vocab, f: Review) {
    if InferStatus(v, f) == Known(NeedsHuman) then
      match f.blocking
      case Flag(b) => b
      case Word(w) => if v.saysYes(w) then true else if v.saysNo(w) then false else High(v, f)
      case Unset => High(v, f)
    else Blocks(v, f)
  }

  /** No word says both yes and no; nothing in prose reads as addressed. */
  ghost predicate SaneVocab(v: Vocab) {
    && (forall w :: v.saysYes(w) ==> !v.saysNo(w))
    && (forall t, d :: v.prose(t, d) != Some(Addressed))
  }

  /** What pins the verdict always blocks. */
  lemma PinningImpliesBlocking(v: Vocab, f: Review)
    requires SaneVocab(v) && PinsVerdict(v, f)
    ensures Blocks(v, f)
  {
    if f.status == "" && f.blocking.Word? {
      assert v.saysYes(f.blocking.text) ==> !v.saysNo(f.blocking.text);
    }
  }

  // ----- the convergence duty ---------------------------------------------------

  /** `REVIEWER_DUTY_ROUND`. */
  const DUTY_ROUND := 3

  datatype Duty = Duty(
    knownIds: Option<set<string>>,
    knownFingerprints: Option<set<string>>,
    sourceGate: string,
    onDisk: Option<Locus -> bool>,          // None without a worktree to look in
    inSlice: Locus -> bool)

  /** A re-flag of a finding the ledger still holds as blocking. */
  predicate KnownFinding(v: Vocab, d: Duty, f: Review) {
    || (f.priorFindingId != "" && (d.knownIds.None? || f.priorFindingId in d.knownIds.value))
    || (d.knownIds.Some? && f.id in d.knownIds.value)
  }

  /** A restatement, word for word, of a finding the ledger still holds. */
  predicate Restatement(v: Vocab, d: Duty, f: Review) {
    d.knownFingerprints.Some? && d.sourceGate != "" && InferStatus(v, f) != Known(NeedsHuman)
    && v.fingerprint(f.ownerStage, d.sourceGate, f.title, f.detail) in d.knownFingerprints.value
  }

  function Present(onDisk: Locus -> bool, loci: seq<Locus>): seq<Locus> {
    if loci == [] then [] else (if onDisk(loci[0]) then [loci[0]] else []) + Present(onDisk, loci[1..])
  }

  /** Two pieces of evidence on disk, one of them in the injected slice. */
  predicate EvidencePair(d: Duty, f: Review) {
    |f.loci| >= 2 && d.onDisk.Some?
    && var present := Present(d.onDisk.value, f.loci);
    |present| >= 2 && exists i :: 0 <= i < |present| && d.inSlice(present[i])
  }

  /** Who may still pin the verdict at a late round: a live known id, a
      restatement, high severity, or the one evidence pair. */
  predicate MayPin(v: Vocab, d: Duty, f: Review, exempted: bool) {
    KnownFinding(v, d, f) || Restatement(v, d, f) || High(v, f) || (EvidencePair(d, f) && !exempted)
  }

  /** The duty looks no further at these. */
  predicate Shielded(v: Vocab, d: Duty, f: Review) {
    !Blocks(v, f) || KnownFinding(v, d, f) || Restatement(v, d, f) || High(v, f)
  }

  function Downgrade(reason: string, f: Review): Review {
    f.(blocking := Flag(false), downgradeReason := reason)
  }

  /** One finding: kept, exempted as the first evidence pair, or downgraded. */
  function Enforced(v: Vocab, d: Duty, reason: string, f: Review, exempted: bool): Review {
    if Shielded(v, d, f) then f
    else if EvidencePair(d, f) && !exempted then f.(exempt := true)
    else Downgrade(reason, f)
  }

  predicate Eligible(v: Vocab, d: Duty, f: Review) { !Shielded(v, d, f) && EvidencePair(d, f) }

  /** The number of findings among the first `n` that ask for the exemption. */
  function EligibleCount(v: Vocab, d: Duty, fs: seq<Review>, n: nat): nat
    requires n <= |fs|
  {
    if n == 0 then 0 else EligibleCount(v, d, fs, n - 1) + if Eligible(v, d, fs[n - 1]) then 1 else 0
  }

  function DowngradedCount(v: Vocab, d: Duty, fs: seq<Review>, n: nat): nat
    requires n <= |fs|
  {
    if n == 0 then 0
    else
      var f, taken := fs[n - 1], EligibleCount(v, d, fs, n - 1) > 0;
      DowngradedCount(v, d, fs, n - 1) + if Shielded(v, d, f) || (EvidencePair(d, f) && !taken) then 0 else 1
  }

  /** The findings with the first `n` enforced. */
  function EnforcedUpTo(v: Vocab, d: Duty, reason: string, fs: seq<Review>, n: nat): (r: seq<Review>)
    requires n <= |fs|
    ensures |r| == |fs| && forall i :: n <= i < |fs| ==> r[i] == fs[i]
  {
    if n == 0 then fs
    else EnforcedUpTo(v, d, reason, fs, n - 1)[n - 1 := Enforced(v, d, reason, fs[n - 1], EligibleCount(v, d, fs, n - 1) > 0)]
  }

  datatype DutyResult = DutyResult(downgraded: nat, exemptCount: nat, escalateToJudge: bool)

  /** The review control whose findings the duty edits in place. */
  class ReviewControl {
    var findings: seq<Review>

    constructor (findings: seq<Review>)
      ensures this.findings == findings
    {
      this.findings := findings;
    }

    method EnforceReviewerConvergenceDuty(v: Vocab, d: Duty, round: nat, reason: string) returns (result: DutyResult)
      modifies this
      ensures round < DUTY_ROUND ==> findings == old(findings) && result == DutyResult(0, 0, false)
      ensures round >= DUTY_ROUND ==>
        && findings == EnforcedUpTo(v, d, reason, old(findings), |old(findings)|)
        && result.exemptCount == EligibleCount(v, d, old(findings), |old(findings)|)
        && result.downgraded == DowngradedCount(v, d, old(findings), |old(findings)|)
        && result.escalateToJudge == (result.exemptCount > 1)
    {
      if round < DUTY_ROUND {
        return DutyResult(0, 0, false);
      }
      var downgraded, exemptCount, exempted := 0, 0, 0;
      ghost var fs := findings;
      for i := 0 to |findings|
        invariant findings == EnforcedUpTo(v, d, reason, fs, i)
        invariant exemptCount == EligibleCount(v, d, fs, i)
        invariant downgraded == DowngradedCount(v, d, fs, i)
        invariant exempted == if exemptCount > 0 then 1 else 0
      {
        var f := findings[i];
        if !Blocks(v, f) || KnownFinding(v, d, f) || Restatement(v, d, f) || High(v, f) {
          continue;
        }
        if EvidencePair(d, f) {
          exemptCount := exemptCount + 1;
          if exempted < 1 {
            exempted := 1;
            findings := findings[i := f.(exempt := true)];
            continue;
          }
        }
        findings := findings[i := f.(blocking := Flag(false), downgradeReason := reason)];
        downgraded := downgraded + 1;
      }
      result := DutyResult(downgraded, exemptCount, exemptCount > 1);
    }
  }

  lemma {:induction false} EnforcedOneByOne(v: Vocab, d: Duty, reason: string, fs: seq<Review>, n: nat, i: nat)
    requires i < n <= |fs|
    ensures EnforcedUpTo(v, d, reason, fs, n)[i] == Enforced(v, d, reason, fs[i], EligibleCount(v, d, fs, i) > 0)
    decreases n
  {
    if i < n - 1 { EnforcedOneByOne(v, d, reason, fs, n - 1, i); }
  }

  /** The verdict after a whole enforcement: what still pins it, one by one. */
  lemma DutyVerdict(v: Vocab, d: Duty, reason: string, fs: seq<Review>, i: nat)
    requires SaneVocab(v) && i < |fs|
    ensures var f, f' := fs[i], EnforcedUpTo(v, d, reason, fs, |fs|)[i];
      && (PinsVerdict(v, f') <==> PinsVerdict(v, f) && MayPin(v, d, f, EligibleCount(v, d, fs, i) > 0))
      && (PinsVerdict(v, f') ==> Blocks(v, f'))
  {
    EnforcedOneByOne(v, d, reason, fs, |fs|, i);
    StillPinsExactly(v, d, reason, fs[i], EligibleCount(v, d, fs, i) > 0);
    if PinsVerdict(v, EnforcedUpTo(v, d, reason, fs, |fs|)[i]) {
      PinningImpliesBlocking(v, EnforcedUpTo(v, d, reason, fs, |fs|)[i]);
    }
  }

  /** After the duty, a finding pins the verdict exactly when it did before and is
      a known finding, a restatement, high severity, or the one exempted pair. */
  lemma StillPinsExactly(v: Vocab, d: Duty, reason: string, f: Review, exempted: bool)
    requires SaneVocab(v)
    ensures PinsVerdict(v, Enforced(v, d, reason, f, exempted)) <==> PinsVerdict(v, f) && MayPin(v, d, f, exempted)
  {
    var f' := Enforced(v, d, reason, f, exempted);
    if PinsVerdict(v, f) {
      PinningImpliesBlocking(v, f);
    }
    if !Shielded(v, d, f) && (!EvidencePair(d, f) || exempted) {
      DowngradedNeverPins(v, reason, f);
    } else {
      assert InferStatus(v, f') == InferStatus(v, f) && Blocks(v, f') == Blocks(v, f);
    }
  }

  lemma DowngradedNeverPins(v: Vocab, reason: string, f: Review)
    ensures !PinsVerdict(v, Downgrade(reason, f))
  {
    var f' := Downgrade(reason, f);
    if InferStatus(v, f') != Known(NeedsHuman) && f'.status == "" && !High(v, f') {
      assert InferStatus(v, f') == InferStatus(v, f);
    }
  }

  /** At most one finding of a round survives by exemption. */
  lemma {:induction false} OneExemption(v: Vocab, d: Duty, fs: seq<Review>, i: nat, j: nat)
    requires i < j < |fs| && Eligible(v, d, fs[i])
    ensures EligibleCount(v, d, fs, j) > 0
    decreases j
  {
    if i < j - 1 { OneExemption(v, d, fs, i, j - 1); }
  }
}
