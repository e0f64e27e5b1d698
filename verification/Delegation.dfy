/** The driver around delegation attempts: degrade to text, retry a duplicate,
    validate, and repair once. Calls run side by side and share what the process
    knows about structured results. */
module Delegation {
  import opened Options
  import opened Seqs

  /** How an attempt was asked: as a structured result, and as a correction. */
  datatype Try = Try(structured: bool, corrective: bool)

  datatype Status = Completed | DuplicateNode | StructuredOutputFailed | OtherStatus

  /** How an attempt ended: without a response, or with a terminal one, whose value
      is there when the result is a structured object. */
  datatype Ending<C> = Fault(error: string) | Answer(status: Status, value: Option<C>, text: string)

  /** What the caller declares. */
  datatype Call<!C> = Call(
    schema: bool,
    keys: seq<string>,
    extract: string -> Option<C>,       // extractControl
    strip: C -> C,                      // stripMalformedResolutionRows
    missing: C -> seq<string>,          // missingControlKeys over the declared keys
    violations: C -> seq<string>)       // schemaViolationErrors against the schema

  /** The escape hatch, and how error texts are read. */
  datatype Config = Config(enabled: bool, unsupported: string -> bool, duplicate: string -> bool)

  /** One attempt, how it ended, and whether the parent had aborted by then. */
  datatype Entry<C> = Entry(t: Try, e: Ending<C>, aborted: bool)

  type History<C> = seq<Entry<C>>

  // ----- reading an answer --------------------------------------------------------------

  function ControlOf<C>(call: Call<C>, t: Try, e: Ending<C>): Option<C>
    requires e.Answer?
  {
    if t.structured && e.value.Some? then e.value else call.extract(e.text)
  }

  function Missing<C>(call: Call<C>, c: Option<C>): seq<string> {
    if call.keys == [] then [] else if c.None? then call.keys else call.missing(c.value)
  }

  function Violations<C>(call: Call<C>, c: Option<C>): seq<string> {
    if c.None? || !call.schema then [] else call.violations(call.strip(c.value))
  }

  function Normal<C>(call: Call<C>, c: Option<C>): Option<C> { if c.None? then None else Some(call.strip(c.value)) }

  // ----- which attempt comes next ---------------------------------------------------------

  predicate Degrades<C>(cfg: Config, t: Try, e: Ending<C>) { t.structured && e.Fault? && cfg.unsupported(e.error) }

  predicate IsDuplicate<C>(cfg: Config, e: Ending<C>) {
    if e.Fault? then cfg.duplicate(e.error) else e.status.DuplicateNode?
  }

  /** The k-th attempt ended as a duplicate and was repeated for that reason. */
  predicate RepeatedAt<C>(cfg: Config, h: History<C>, k: nat)
    requires k < |h|
  {
    IsDuplicate(cfg, h[k].e) && !(k == 0 && Degrades(cfg, h[0].t, h[0].e))
  }

  predicate Repeated<C>(cfg: Config, h: History<C>) { exists k :: 0 <= k < |h| - 1 && RepeatedAt(cfg, h, k) }

  predicate Invalid<C>(call: Call<C>, t: Try, e: Ending<C>) {
    && e.Answer? && e.status.Completed?
    && (Missing(call, ControlOf(call, t, e)) != [] || Violations(call, ControlOf(call, t, e)) != [])
  }

  /** A call asks for structured results when it carries a schema and no degrade has
      fired by the time it starts. */
  predicate Structured<C>(call: Call<C>, cfg: Config, degraded: bool) { call.schema && cfg.enabled && !degraded }

  /** After the attempts `h`, the next one, or none: a rejected structured first
      attempt is repeated as text, one duplicate is repeated as it was, and one
      invalid answer is sent back for correction. */
  function Next<C>(call: Call<C>, cfg: Config, degraded: bool, h: History<C>): Option<Try> {
    if h == [] then Some(Try(Structured(call, cfg, degraded), false))
    else
      var last := h[|h| - 1];
      if last.t.corrective then None
      else if |h| == 1 && Degrades(cfg, last.t, last.e) then Some(Try(false, false))
      else if IsDuplicate(cfg, last.e) && !Repeated(cfg, h) then if last.aborted then None else Some(last.t)
      else if Invalid(call, last.t, last.e) then Some(Try(last.t.structured, true))
      else None
  }

  /** Every attempt of `h` is the one that was due. */
  predicate Follows<C>(call: Call<C>, cfg: Config, degraded: bool, h: History<C>)
    decreases |h|
  {
    h == [] || (
      var before := h[..|h| - 1];
      Follows(call, cfg, degraded, before) && Next(call, cfg, degraded, before) == Some(h[|h| - 1].t))
  }

  lemma FollowsNext<C>(call: Call<C>, cfg: Config, degraded: bool, h: History<C>, x: Entry<C>)
    requires Follows(call, cfg, degraded, h) && Next(call, cfg, degraded, h) == Some(x.t)
    ensures Follows(call, cfg, degraded, h + [x])
  {
    assert (h + [x])[..|h|] == h;
  }

  /** What the caller gets. */
  datatype Result<C> = Result(control: Option<C>, failed: bool)

  predicate Judged<C>(h: History<C>) { h != [] && (h[|h| - 1].t.corrective ==> |h| > 1 && h[|h| - 2].e.Answer?) }

  function Verdict<C>(call: Call<C>, h: History<C>): Result<C>
    requires Judged(h)
  {
    var last := h[|h| - 1];
    if last.t.corrective then JudgeSecond(call, ControlOf(call, h[|h| - 2].t, h[|h| - 2].e), last.t, last.e)
    else JudgeFirst(call, last.t, last.e)
  }

  function JudgeFirst<C>(call: Call<C>, t: Try, e: Ending<C>): Result<C> {
    if e.Fault? || !e.status.Completed? then Result(None, true) else Result(Normal(call, ControlOf(call, t, e)), false)
  }

  function JudgeSecond<C>(call: Call<C>, first: Option<C>, t: Try, e: Ending<C>): Result<C> {
    if e.Fault? then Result(Normal(call, first), true)
    else if !e.status.Completed? then Result(first, true)
    else
      var second := ControlOf(call, t, e);
      if second.None? || Violations(call, second) != [] then Result(None, true) else Result(Normal(call, second), false)
  }

  /** A whole call: every attempt was due, and none is left. */
  predicate Finished<C>(call: Call<C>, cfg: Config, degraded: bool, h: History<C>) {
    Judged(h) && Follows(call, cfg, degraded, h) && Next(call, cfg, degraded, h).None?
  }

  // ----- what every call keeps ---------------------------------------------------------------

  /** Only the last attempt is a correction, no attempt is structured after one that
      is not, and there is at most one degrade, one repetition and one correction. */
  predicate Shaped<C>(cfg: Config, h: History<C>)
    requires h != []
  {
    && (forall k :: 0 <= k < |h| - 1 ==> !h[k].t.corrective && (!h[k].t.structured ==> !h[k + 1].t.structured))
    && |h| <= 1
      + (if |h| > 1 && Degrades(cfg, h[0].t, h[0].e) then 1 else 0)
      + (if Repeated(cfg, h) then 1 else 0)
      + (if h[|h| - 1].t.corrective then 1 else 0)
  }

  lemma ShapedNext<C>(call: Call<C>, cfg: Config, degraded: bool, h: History<C>, x: Entry<C>)
    requires h != [] && Shaped(cfg, h) && Next(call, cfg, degraded, h) == Some(x.t)
    ensures Shaped(cfg, h + [x])
  {
    var h' := h + [x];
    assert h'[|h| - 1] == h[|h| - 1] && h'[0] == h[0];
    if Repeated(cfg, h) {
      var k :| 0 <= k < |h| - 1 && RepeatedAt(cfg, h, k);
      assert RepeatedAt(cfg, h', k);
    }
    var last := h[|h| - 1];
    if !(|h| == 1 && Degrades(cfg, last.t, last.e)) && IsDuplicate(cfg, last.e) {
      assert RepeatedAt(cfg, h', |h| - 1);
    }
  }

  /** A call makes at most four attempts, asks for correction last and, once it has
      asked for text, never asks for structured results again. */
  lemma {:induction false} AtMostFourAttempts<C>(call: Call<C>, cfg: Config, degraded: bool, h: History<C>)
    requires Follows(call, cfg, degraded, h) && h != []
    ensures |h| <= 4 && Shaped(cfg, h) && Judged(h)
    ensures h[0].t == Try(Structured(call, cfg, degraded), false)
    decreases |h|
  {
    var before := h[..|h| - 1];
    Snoc(h);
    if before != [] {
      AtMostFourAttempts(call, cfg, degraded, before);
      ShapedNext(call, cfg, degraded, before, h[|h| - 1]);
    }
  }

  /** A control without schema violations, or none when no key was declared. */
  predicate Admissible<C>(call: Call<C>, control: Option<C>) {
    match control
    case None => call.keys == []
    case Some(c) => call.schema ==> call.violations(c) == []
  }

  predicate LacksKeys<C>(call: Call<C>, x: Entry<C>) { x.e.Answer? && Missing(call, ControlOf(call, x.t, x.e)) != [] }

  /** A result without an error is admissible, and its answer lacks declared keys
      only when it answers the correction, whose keys are not looked at again. */
  lemma ErrorFreeIsAdmissible<C>(call: Call<C>, cfg: Config, degraded: bool, h: History<C>)
    requires Finished(call, cfg, degraded, h) && !Verdict(call, h).failed
    ensures Admissible(call, Verdict(call, h).control)
    ensures LacksKeys(call, h[|h| - 1]) ==> h[|h| - 1].t.corrective
  {
  }

  // ----- when declared keys can be missing -----------------------------------------------------

  /** A control that an answer to the call can carry: any object in a structured
      result, or what is extracted from some text. */
  ghost predicate Obtainable<C(!new)>(call: Call<C>, structured: bool, c: C) {
    structured || exists text :: call.extract(text) == Some(c)
  }

  /** The control the caller would be given lacks a declared key. */
  predicate Bare<C>(call: Call<C>, c: C) { call.keys != [] && call.missing(call.strip(c)) != [] }

  /** What the schema lets through has the declared keys. */
  ghost predicate SchemaCoversKeys<C(!new)>(call: Call<C>, structured: bool) {
    forall c :: Obtainable(call, structured, c) && Violations(call, Some(c)) == [] ==> !Bare(call, c)
  }

  predicate BareResult<C>(call: Call<C>, r: Result<C>) {
    !r.failed && r.control.Some? && call.keys != [] && call.missing(r.control.value) != []
  }

  ghost predicate BareCall<C>(call: Call<C>, cfg: Config, degraded: bool, h: History<C>) {
    Finished(call, cfg, degraded, h) && BareResult(call, Verdict(call, h))
  }

  /** The agent answers every attempt with the control `c`. */
  function AnswerWith<C>(structured: bool, c: C, text: string): Ending<C> {
    Answer(Completed, if structured then Some(c) else None, text)
  }

  /** The two ways the first answer can go. */
  lemma FirstAnswer<C>(call: Call<C>, cfg: Config, degraded: bool, c: C, e: Ending<C>)
    requires e.Answer? && e.status.Completed? && Violations(call, Some(c)) == []
    requires ControlOf(call, Try(Structured(call, cfg, degraded), false), e) == Some(c)
    ensures var x := Entry(Try(Structured(call, cfg, degraded), false), e, false);
      && Follows(call, cfg, degraded, [x])
      && Next(call, cfg, degraded, [x]) == if Missing(call, Some(c)) == [] then None else Some(Try(x.t.structured, true))
  {
    var x := Entry(Try(Structured(call, cfg, degraded), false), e, false);
    var none: History<C> := [];
    FollowsNext(call, cfg, degraded, none, x);
    assert none + [x] == [x];
  }

  lemma BareAnswerIsAccepted<C(!new)>(call: Call<C>, cfg: Config, degraded: bool, c: C) returns (h: History<C>)
    requires Obtainable(call, Structured(call, cfg, degraded), c) && Violations(call, Some(c)) == [] && Bare(call, c)
    ensures BareCall(call, cfg, degraded, h)
  {
    var structured := Structured(call, cfg, degraded);
    var text := "";
    if !structured {
      text :| call.extract(text) == Some(c);
    }
    var e := AnswerWith(structured, c, text);
    var x, y := Entry(Try(structured, false), e, false), Entry(Try(structured, true), e, false);
    FirstAnswer(call, cfg, degraded, c, e);
    h := [x];
    if Missing(call, Some(c)) != [] {
      h := [x, y];
      SecondAnswer(call, cfg, degraded, x, y);
    }
  }

  lemma SecondAnswer<C>(call: Call<C>, cfg: Config, degraded: bool, x: Entry<C>, y: Entry<C>)
    requires Follows(call, cfg, degraded, [x]) && Next(call, cfg, degraded, [x]) == Some(y.t) && y.t.corrective && x.e.Answer?
    ensures Finished(call, cfg, degraded, [x, y])
    ensures Verdict(call, [x, y]) == JudgeSecond(call, ControlOf(call, x.t, x.e), y.t, y.e)
  {
    FollowsNext(call, cfg, degraded, [x], y);
    assert [x] + [y] == [x, y];
  }

  /** An error-free result carries a control some answer had. */
  lemma AcceptedWasObtained<C(!new)>(call: Call<C>, cfg: Config, degraded: bool, h: History<C>) returns (c: C)
    requires BareCall(call, cfg, degraded, h)
    ensures Obtainable(call, Structured(call, cfg, degraded), c) && Violations(call, Some(c)) == [] && Bare(call, c)
  {
    AtMostFourAttempts(call, cfg, degraded, h);
    OnlyStructuredFromTheStart(cfg, h, |h| - 1);
    var last := h[|h| - 1];
    c := ControlOf(call, last.t, last.e).value;
    ErrorFreeIsAdmissible(call, cfg, degraded, h);
  }

  lemma {:induction false} OnlyStructuredFromTheStart<C>(cfg: Config, h: History<C>, k: nat)
    requires h != [] && Shaped(cfg, h) && k < |h|
    ensures h[k].t.structured ==> h[0].t.structured
    decreases k
  {
    if k > 0 {
      OnlyStructuredFromTheStart(cfg, h, k - 1);
    }
  }

  /** An error-free result always has its declared keys if and only if every control
      that can be obtained without a schema violation has them: the schema is the
      only thing that guards the keys of a corrected answer. */
  lemma KeysAreThereExactly<C(!new)>(call: Call<C>, cfg: Config, degraded: bool)
    ensures (forall h: History<C> :: !BareCall(call, cfg, degraded, h)) <==> SchemaCoversKeys(call, Structured(call, cfg, degraded))
  {
    var structured := Structured(call, cfg, degraded);
    if h: History<C> :| BareCall(call, cfg, degraded, h) {
      var c := AcceptedWasObtained(call, cfg, degraded, h);
    }
    if c :| Obtainable(call, structured, c) && Violations(call, Some(c)) == [] && Bare(call, c) {
      var h := BareAnswerIsAccepted(call, cfg, degraded, c);
    }
  }

  const EMPTY_VERDICT := "{\"verdict\":\"\"}"

  /** A text call that declares one key, and a reply whose control block names it
      and leaves it empty. */
  function Demanding(): Call<string> {
    Call(false, ["verdict"], s => if s == "<control>" + EMPTY_VERDICT + "</control>" then Some(EMPTY_VERDICT) else None,
      s => s, s => if s == EMPTY_VERDICT then ["verdict"] else [], s => [])
  }

  /** It happens: the empty key is sent back for correction, and accepted when it is
      empty again. */
  lemma CorrectedAnswerMayLackKeys(cfg: Config, degraded: bool)
    ensures var reply: Ending<string> := Answer(Completed, None, "<control>" + EMPTY_VERDICT + "</control>");
      BareCall(Demanding(), cfg, degraded, [Entry(Try(false, false), reply, false), Entry(Try(false, true), reply, false)])
  {
    var call := Demanding();
    var reply: Ending<string> := Answer(Completed, None, "<control>" + EMPTY_VERDICT + "</control>");
    var x, y := Entry(Try(false, false), reply, false), Entry(Try(false, true), reply, false);
    var none: History<string> := [];
    FollowsNext(call, cfg, degraded, none, x);
    assert none + [x] == [x];
    FollowsNext(call, cfg, degraded, [x], y);
    assert [x] + [y] == [x, y];
  }

  // ----- calls in flight -------------------------------------------------------------------------

  /** A call that was started in a process that had degraded or not, and what its
      attempts have come to. */
  datatype Flight<!C> = Flight(call: Call<C>, degraded: bool, h: History<C>)

  /** What the calls of a process share, and the calls. */
  datatype State<!C> = State(unsupportedSeen: bool, streak: nat, flights: seq<Flight<C>>)

  /** A call starts; or the attempt that call `i` waits for ends, and the call runs
      on to its next attempt or to its result. */
  datatype Event<!C> = Begin(call: Call<C>) | End(i: nat, e: Ending<C>, aborted: bool)

  /** `STRUCTURED_FAILURE_DEGRADE_THRESHOLD`. */
  const THRESHOLD := 3

  predicate Degraded<C>(s: State<C>) { s.unsupportedSeen || s.streak >= THRESHOLD }

  function Due<C>(cfg: Config, f: Flight<C>): Option<Try> { Next(f.call, cfg, f.degraded, f.h) }

  /** What an ended attempt says about structured results. */
  predicate Rejects<C>(cfg: Config, f: Flight<C>, t: Try, e: Ending<C>) { f.h == [] && Degrades(cfg, t, e) }

  function StreakAfter<C>(streak: nat, t: Try, e: Ending<C>): nat {
    if !t.structured || e.Fault? then streak
    else if e.status.Completed? then 0
    else if e.status.StructuredOutputFailed? && !t.corrective then streak + 1
    else streak
  }

  function Step<C>(cfg: Config, s: State<C>, ev: Event<C>): State<C> {
    match ev
    case Begin(call) => s.(flights := s.flights + [Flight(call, Degraded(s), [])])
    case End(i, e, aborted) =>
      if i >= |s.flights| || Due(cfg, s.flights[i]).None? then s
      else
        var f := s.flights[i];
        var t := Due(cfg, f).value;
        State(s.unsupportedSeen || Rejects(cfg, f, t, e), StreakAfter(s.streak, t, e),
          s.flights[i := f.(h := f.h + [Entry(t, e, aborted)])])
  }

  function Run<C>(cfg: Config, s: State<C>, evs: seq<Event<C>>): State<C>
    decreases |evs|
  {
    if evs == [] then s else Run(cfg, Step(cfg, s, evs[0]), evs[1..])
  }

  function Fresh<C>(): State<C> { State(false, 0, []) }

  ghost predicate AllFollow<C>(cfg: Config, s: State<C>) {
    forall i :: 0 <= i < |s.flights| ==> Follows(s.flights[i].call, cfg, s.flights[i].degraded, s.flights[i].h)
  }

  lemma StepFollows<C>(cfg: Config, s: State<C>, ev: Event<C>)
    requires AllFollow(cfg, s)
    ensures AllFollow(cfg, Step(cfg, s, ev))
  {
    if ev.End? && ev.i < |s.flights| && Due(cfg, s.flights[ev.i]).Some? {
      var f := s.flights[ev.i];
      FollowsNext(f.call, cfg, f.degraded, f.h, Entry(Due(cfg, f).value, ev.e, ev.aborted));
    }
  }

  lemma {:induction false} RunFollows<C>(cfg: Config, s: State<C>, evs: seq<Event<C>>)
    requires AllFollow(cfg, s)
    ensures AllFollow(cfg, Run(cfg, s, evs))
    decreases |evs|
  {
    if evs != [] {
      StepFollows(cfg, s, evs[0]);
      RunFollows(cfg, Step(cfg, s, evs[0]), evs[1..]);
    }
  }

  /** However the calls of a process interleave, each makes at most four attempts,
      corrects last, and ends with a result that is admissible if it is no error. */
  lemma CallsKeepTheirPolicy<C>(cfg: Config, evs: seq<Event<C>>, i: nat)
    requires i < |Run(cfg, Fresh<C>(), evs).flights|
    ensures var f := Run(cfg, Fresh<C>(), evs).flights[i];
      && |f.h| <= 4 && (f.h != [] ==> Shaped(cfg, f.h))
      && (Due(cfg, f).None? ==>
           Finished(f.call, cfg, f.degraded, f.h)
           && (!Verdict(f.call, f.h).failed ==> Admissible(f.call, Verdict(f.call, f.h).control)))
  {
    RunFollows(cfg, Fresh<C>(), evs);
    var f := Run(cfg, Fresh<C>(), evs).flights[i];
    assert Follows(f.call, cfg, f.degraded, f.h);
    if f.h != [] {
      AtMostFourAttempts(f.call, cfg, f.degraded, f.h);
      if Due(cfg, f).None? && !Verdict(f.call, f.h).failed {
        ErrorFreeIsAdmissible(f.call, cfg, f.degraded, f.h);
      }
    }
  }

  // ----- how long a degrade lasts --------------------------------------------------------------

  predicate StructuredDue<C>(cfg: Config, s: State<C>, i: nat) {
    i < |s.flights| && Due(cfg, s.flights[i]).Some? && Due(cfg, s.flights[i]).value.structured
  }

  /** A structured attempt completes, and nothing but the streak had degraded the
      process. */
  predicate Restores<C>(cfg: Config, s: State<C>, ev: Event<C>) {
    ev.End? && StructuredDue(cfg, s, ev.i) && ev.e.Answer? && ev.e.status.Completed? && !s.unsupportedSeen
  }

  lemma StepDegraded<C>(cfg: Config, s: State<C>, ev: Event<C>)
    requires Degraded(s)
    ensures Degraded(Step(cfg, s, ev)) <==> !Restores(cfg, s, ev)
  {
  }

  predicate StaysDegraded<C>(cfg: Config, s: State<C>, evs: seq<Event<C>>)
    decreases |evs|
  {
    Degraded(s) && (evs == [] || StaysDegraded(cfg, Step(cfg, s, evs[0]), evs[1..]))
  }

  predicate NeverRestores<C>(cfg: Config, s: State<C>, evs: seq<Event<C>>)
    decreases |evs|
  {
    evs == [] || (!Restores(cfg, s, evs[0]) && NeverRestores(cfg, Step(cfg, s, evs[0]), evs[1..]))
  }

  /** A degraded process stays so over a run if and only if no structured attempt
      completes in it before structured results are rejected as unsupported. */
  lemma {:induction false} DegradationLastsExactly<C>(cfg: Config, s: State<C>, evs: seq<Event<C>>)
    requires Degraded(s)
    ensures StaysDegraded(cfg, s, evs) <==> NeverRestores(cfg, s, evs)
    decreases |evs|
  {
    if evs != [] {
      StepDegraded(cfg, s, evs[0]);
      if !Restores(cfg, s, evs[0]) {
        DegradationLastsExactly(cfg, Step(cfg, s, evs[0]), evs[1..]);
      }
    }
  }

  ghost predicate StructuredInFlight<C>(cfg: Config, s: State<C>) { exists i: nat :: StructuredDue(cfg, s, i) }

  lemma SealedStep<C>(cfg: Config, s: State<C>, ev: Event<C>)
    requires Degraded(s) && (s.unsupportedSeen || !StructuredInFlight(cfg, s))
    ensures var s' := Step(cfg, s, ev); Degraded(s') && (s'.unsupportedSeen || !StructuredInFlight(cfg, s'))
  {
    var s' := Step(cfg, s, ev);
    StepDegraded(cfg, s, ev);
    if !s.unsupportedSeen {
      forall i: nat ensures !StructuredDue(cfg, s', i) {
        assert !StructuredDue(cfg, s, i);
      }
    }
  }

  lemma {:induction false} SealedRun<C>(cfg: Config, s: State<C>, evs: seq<Event<C>>)
    requires Degraded(s) && (s.unsupportedSeen || !StructuredInFlight(cfg, s))
    ensures Degraded(Run(cfg, s, evs))
    decreases |evs|
  {
    if evs != [] {
      SealedStep(cfg, s, evs[0]);
      SealedRun(cfg, Step(cfg, s, evs[0]), evs[1..]);
    }
  }

  ghost predicate ForGood<C(!new)>(cfg: Config, s: State<C>) { forall evs :: Degraded(Run(cfg, s, evs)) }

  /** A degrade is for good, whatever happens next, if and only if structured
      results were rejected as unsupported or no structured call is in flight. */
  lemma DegradedForGoodExactly<C(!new)>(cfg: Config, s: State<C>)
    requires Degraded(s)
    ensures ForGood(cfg, s) <==> s.unsupportedSeen || !StructuredInFlight(cfg, s)
  {
    if s.unsupportedSeen || !StructuredInFlight(cfg, s) {
      forall evs ensures Degraded(Run(cfg, s, evs)) {
        SealedRun(cfg, s, evs);
      }
    } else {
      var i: nat :| StructuredDue(cfg, s, i);
      var ev := End(i, Answer(Completed, None, ""), false);
      StepDegraded(cfg, s, ev);
      assert [ev][1..] == [];
      assert Run(cfg, s, [ev]) == Step(cfg, s, ev);
    }
  }

  lemma RunTwo<C>(cfg: Config, s: State<C>, a: Event<C>, b: Event<C>)
    ensures Run(cfg, s, [a, b]) == Step(cfg, Step(cfg, s, a), b)
  {
    var s1 := Step(cfg, s, a);
    assert [a, b][1..] == [b] && [b][1..] == [];
    assert Run(cfg, s1, [b]) == Run(cfg, Step(cfg, s1, b), []);
  }

  /** A call that starts structured, and fails to give a structured result. */
  lemma FailsStructured<C>(cfg: Config, s: State<C>, call: Call<C>)
    requires call.schema && cfg.enabled && !Degraded(s)
    ensures var failed := End(|s.flights|, Answer(StructuredOutputFailed, None, ""), false);
      var s' := Run(cfg, s, [Begin(call), failed]);
      && s'.unsupportedSeen == s.unsupportedSeen && s'.streak == s.streak + 1
      && |s'.flights| == |s.flights| + 1 && s'.flights[..|s.flights|] == s.flights
  {
    var failed: Event<C> := End(|s.flights|, Answer(StructuredOutputFailed, None, ""), false);
    RunTwo(cfg, s, Begin(call), failed);
  }

  /** It happens that a degrade does not last: three calls fail while a fourth is in
      flight, and the process is degraded until that one completes. */
  lemma InFlightSuccessRestores<C>(cfg: Config, call: Call<C>)
    requires call.schema && cfg.enabled
    ensures var failing := (i: nat) => [Begin(call), End(i, Answer(StructuredOutputFailed, None, ""), false)];
      var s := Run(cfg, Run(cfg, Run(cfg, Step(cfg, Fresh<C>(), Begin(call)), failing(1)), failing(2)), failing(3));
      Degraded(s) && !Degraded(Step(cfg, s, End(0, Answer(Completed, None, ""), false)))
  {
    var s0 := Step(cfg, Fresh<C>(), Begin(call));
    var failing := (i: nat) => [Begin(call), End(i, Answer(StructuredOutputFailed, None, ""), false)];
    FailsStructured(cfg, s0, call);
    var s1 := Run(cfg, s0, failing(1));
    FailsStructured(cfg, s1, call);
    var s2 := Run(cfg, s1, failing(2));
    FailsStructured(cfg, s2, call);
    var s3 := Run(cfg, s2, failing(3));
    assert s3.flights[0] == s2.flights[0] == s1.flights[0] == s0.flights[0] by {
      assert s1.flights[..1][0] == s0.flights[0] && s2.flights[..2][0] == s1.flights[0] && s3.flights[..3][0] == s2.flights[0];
    }
    assert StructuredDue(cfg, s3, 0);
  }

  // ----- the driver ------------------------------------------------------------------------

  /** Where a call waits, or what it returned. */
  datatype Phase<C> = First | Degrading | Repeating | Correcting(first: Option<C>) | Returned(result: Result<C>)

  /** The local state of a call. */
  datatype Local<!C> = Local(call: Call<C>, useStructured: bool, phase: Phase<C>)

  /** The local state is what the attempts so far have made it. */
  ghost predicate Tracks<C>(cfg: Config, l: Local<C>, f: Flight<C>) {
    && l.call == f.call && Follows(f.call, cfg, f.degraded, f.h)
    && match l.phase {
      case First => f.h == [] && Due(cfg, f) == Some(Try(l.useStructured, false))
      case Degrading => |f.h| == 1 && Due(cfg, f) == Some(Try(l.useStructured, false)) && Degrades(cfg, f.h[0].t, f.h[0].e)
      case Repeating => f.h != [] && Due(cfg, f) == Some(Try(l.useStructured, false)) && RepeatedAt(cfg, f.h, |f.h| - 1)
      case Correcting(first) =>
        && f.h != [] && Due(cfg, f) == Some(Try(l.useStructured, true))
        && var last := f.h[|f.h| - 1]; last.e.Answer? && first == ControlOf(f.call, last.t, last.e)
      case Returned(result) => Finished(f.call, cfg, f.degraded, f.h) && result == Verdict(f.call, f.h)
    }
  }

  ghost predicate AllTrack<C>(cfg: Config, calls: seq<Local<C>>, flights: seq<Flight<C>>) {
    |calls| == |flights| && forall i :: 0 <= i < |calls| ==> Tracks(cfg, calls[i], flights[i])
  }

  lemma TrackOne<C>(cfg: Config, calls: seq<Local<C>>, flights: seq<Flight<C>>, i: nat, l: Local<C>, f: Flight<C>)
    requires AllTrack(cfg, calls, flights) && i < |calls| && Tracks(cfg, l, f)
    ensures AllTrack(cfg, calls[i := l], flights[i := f])
  {
  }

  lemma WaitsForDue<C>(cfg: Config, l: Local<C>, f: Flight<C>)
    requires Tracks(cfg, l, f) && !l.phase.Returned?
    ensures Due(cfg, f) == Some(Try(l.useStructured, l.phase.Correcting?))
  {
  }

  /** The history of a call after the attempt it waits for has ended. */
  function Longer<C>(l: Local<C>, f: Flight<C>, e: Ending<C>, aborted: bool): Flight<C> {
    f.(h := f.h + [Entry(Try(l.useStructured, l.phase.Correcting?), e, aborted)])
  }

  /** An answer that is neither taken as a rejection of structured results nor
      repeated as a duplicate is judged. */
  predicate ToJudge<C>(cfg: Config, l: Local<C>, f: Flight<C>, e: Ending<C>, aborted: bool) {
    var h := Longer(l, f, e, aborted).h;
    !l.phase.Correcting? && !(f.h == [] && Degrades(cfg, h[0].t, e)) && (IsDuplicate(cfg, e) ==> Repeated(cfg, h))
  }

  /** A second duplicate is not repeated. */
  lemma RepeatIsJudged<C>(cfg: Config, l: Local<C>, f: Flight<C>, e: Ending<C>, aborted: bool)
    requires Tracks(cfg, l, f) && l.phase.Repeating?
    ensures ToJudge(cfg, l, f, e, aborted)
  {
    var h := Longer(l, f, e, aborted).h;
    assert h[|f.h| - 1] == f.h[|f.h| - 1] && h[0] == f.h[0];
    assert RepeatedAt(cfg, h, |f.h| - 1);
  }

  /** Where a call goes after an attempt that was not repeated as text: it waits for
      the repetition of a duplicate, or gives up, or its answer is judged. */
  ghost predicate Dispatched<C>(cfg: Config, l: Local<C>, f: Flight<C>, e: Ending<C>, aborted: bool) {
    if IsDuplicate(cfg, e) then
      Tracks(cfg, l.(phase := if aborted then Returned(Result(None, true)) else Repeating), Longer(l, f, e, aborted))
    else ToJudge(cfg, l, f, e, aborted)
  }

  lemma FirstIsDispatched<C>(cfg: Config, l: Local<C>, f: Flight<C>, e: Ending<C>, aborted: bool)
    requires Tracks(cfg, l, f) && l.phase.First? && !Degrades(cfg, Try(l.useStructured, false), e)
    ensures Dispatched(cfg, l, f, e, aborted)
  {
    var x := Entry(Try(l.useStructured, false), e, aborted);
    FollowsNext(f.call, cfg, f.degraded, f.h, x);
    assert f.h + [x] == [x];
  }

  lemma TextIsDispatched<C>(cfg: Config, l: Local<C>, f: Flight<C>, e: Ending<C>, aborted: bool)
    requires Tracks(cfg, l, f) && l.phase.Degrading?
    ensures Dispatched(cfg, l, f, e, aborted)
  {
    var x := Entry(Try(l.useStructured, false), e, aborted);
    FollowsNext(f.call, cfg, f.degraded, f.h, x);
    assert f.h + [x] == [f.h[0], x];
    NotRepeatedYet(cfg, f.h[0], x);
  }

  /** The repetition as text is no repetition of a duplicate. */
  lemma NotRepeatedYet<C>(cfg: Config, first: Entry<C>, second: Entry<C>)
    requires Degrades(cfg, first.t, first.e)
    ensures !Repeated(cfg, [first, second])
  {
    assert !RepeatedAt(cfg, [first, second], 0);
  }

  class Backend<C> {
    const cfg: Config
    var unsupportedSeen: bool
    var streak: nat
    var calls: seq<Local<C>>
    ghost var flights: seq<Flight<C>>

    ghost function Now(): State<C>
      reads this
    {
      State(unsupportedSeen, streak, flights)
    }

    ghost predicate Valid()
      reads this
    {
      AllTrack(cfg, calls, flights)
    }

    constructor (cfg: Config)
      ensures this.cfg == cfg && Valid() && Now() == Fresh()
    {
      this.cfg, unsupportedSeen, streak, calls, flights := cfg, false, 0, [], [];
    }

    /** A call up to its first await. */
    method BeginCall(call: Call<C>)
      requires Valid()
      modifies this
      ensures Valid() && Now() == Step(cfg, old(Now()), Begin(call))
    {
      var useStructured := call.schema && cfg.enabled && !(unsupportedSeen || streak >= THRESHOLD);
      flights := flights + [Flight(call, Degraded(Now()), [])];
      calls := calls + [Local(call, useStructured, First)];
    }

    /** Call `i` from the end of the attempt it waits for to its next await, or to
        its result. */
    method ResumeCall(i: nat, e: Ending<C>, aborted: bool)
      requires Valid() && i < |calls| && !calls[i].phase.Returned?
      modifies this
      ensures Valid() && Now() == Step(cfg, old(Now()), End(i, e, aborted))
    {
      WaitsForDue(cfg, calls[i], flights[i]);
      var l := RunOn(calls[i], e, aborted, flights[i]);
      ghost var f := Longer(calls[i], flights[i], e, aborted);
      TrackOne(cfg, calls, flights, i, l, f);
      calls := calls[i := l];
      flights := flights[i := f];
    }

    /** The call itself, from one await to the next. */
    method RunOn(l: Local<C>, e: Ending<C>, aborted: bool, ghost f: Flight<C>) returns (l': Local<C>)
      requires Tracks(cfg, l, f) && !l.phase.Returned?
      modifies this`unsupportedSeen, this`streak
      ensures Tracks(cfg, l', Longer(l, f, e, aborted))
      ensures unsupportedSeen == (old(unsupportedSeen) || Rejects(cfg, f, Try(l.useStructured, l.phase.Correcting?), e))
      ensures streak == StreakAfter(old(streak), Try(l.useStructured, l.phase.Correcting?), e)
    {
      match l.phase {
        case First => l' := AfterFirst(l, e, aborted, f);
        case Degrading => l' := AfterDispatch(l, e, aborted, f);
        case Repeating =>
          RepeatIsJudged(cfg, l, f, e, aborted);
          l' := Judge(l, e, aborted, f);
        case Correcting(first) => l' := JudgeCorrection(l, first, e, aborted, f);
        case Returned(_) => assert false;
      }
    }

    method AfterFirst(l: Local<C>, e: Ending<C>, aborted: bool, ghost f: Flight<C>) returns (l': Local<C>)
      requires Tracks(cfg, l, f) && l.phase.First?
      modifies this`unsupportedSeen, this`streak
      ensures Tracks(cfg, l', Longer(l, f, e, aborted))
      ensures unsupportedSeen == (old(unsupportedSeen) || Rejects(cfg, f, Try(l.useStructured, false), e))
      ensures streak == StreakAfter(old(streak), Try(l.useStructured, false), e)
    {
      if e.Fault? && l.useStructured && cfg.unsupported(e.error) {
        unsupportedSeen := true;
        l' := l.(useStructured := false, phase := Degrading);
        FollowsNext(f.call, cfg, f.degraded, f.h, Entry(Try(l.useStructured, false), e, aborted));
      } else {
        l' := AfterDispatch(l, e, aborted, f);
      }
    }

    method AfterDispatch(l: Local<C>, e: Ending<C>, aborted: bool, ghost f: Flight<C>) returns (l': Local<C>)
      requires Tracks(cfg, l, f) && (l.phase.First? || l.phase.Degrading?)
      requires l.phase.First? ==> !Degrades(cfg, Try(l.useStructured, false), e)
      modifies this`streak
      ensures Tracks(cfg, l', Longer(l, f, e, aborted))
      ensures streak == StreakAfter(old(streak), Try(l.useStructured, false), e)
    {
      if l.phase.First? {
        FirstIsDispatched(cfg, l, f, e, aborted);
      } else {
        TextIsDispatched(cfg, l, f, e, aborted);
      }
      if (e.Fault? && cfg.duplicate(e.error)) || (e.Answer? && e.status.DuplicateNode?) {
        l' := l.(phase := if aborted then Returned(Result(None, true)) else Repeating);
      } else {
        l' := Judge(l, e, aborted, f);
      }
    }

    /** The first answer is looked at. */
    method Judge(l: Local<C>, e: Ending<C>, aborted: bool, ghost f: Flight<C>) returns (l': Local<C>)
      requires Tracks(cfg, l, f) && !l.phase.Returned? && ToJudge(cfg, l, f, e, aborted)
      modifies this`streak
      ensures Tracks(cfg, l', Longer(l, f, e, aborted))
      ensures streak == StreakAfter(old(streak), Try(l.useStructured, false), e)
    {
      ghost var x := Entry(Try(l.useStructured, false), e, aborted);
      FollowsNext(f.call, cfg, f.degraded, f.h, x);
      if e.Fault? {
        return l.(phase := Returned(Result(None, true)));
      }
      if !e.status.Completed? {
        if l.useStructured && e.status.StructuredOutputFailed? {
          streak := streak + 1;
        }
        return l.(phase := Returned(Result(None, true)));
      }
      if l.useStructured {
        streak := 0;
      }
      var control := ControlOf(l.call, Try(l.useStructured, false), e);
      if Missing(l.call, control) != [] || Violations(l.call, control) != [] {
        l' := l.(phase := Correcting(control));
      } else {
        l' := l.(phase := Returned(Result(Normal(l.call, control), false)));
      }
    }

    /** The answer to the correction is looked at. */
    method JudgeCorrection(l: Local<C>, first: Option<C>, e: Ending<C>, aborted: bool, ghost f: Flight<C>) returns (l': Local<C>)
      requires Tracks(cfg, l, f) && l.phase == Correcting(first)
      modifies this`streak
      ensures Tracks(cfg, l', Longer(l, f, e, aborted))
      ensures streak == StreakAfter(old(streak), Try(l.useStructured, true), e)
    {
      ghost var x := Entry(Try(l.useStructured, true), e, aborted);
      FollowsNext(f.call, cfg, f.degraded, f.h, x);
      assert (f.h + [x])[|f.h| - 1] == f.h[|f.h| - 1];
      if e.Fault? {
        return l.(phase := Returned(Result(Normal(l.call, first), true)));
      }
      if !e.status.Completed? {
        return l.(phase := Returned(Result(first, true)));
      }
      if l.useStructured {
        streak := 0;
      }
      var second := ControlOf(l.call, Try(l.useStructured, true), e);
      if second.None? || Violations(l.call, second) != [] {
        l' := l.(phase := Returned(Result(None, true)));
      } else {
        l' := l.(phase := Returned(Result(Normal(l.call, second), false)));
      }
    }
  }
}
