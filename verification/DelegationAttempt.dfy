/** One delegation attempt: a request on a shared event bus that settles once, on
    its own terminal response, the parent's abort or its own timer. */
module DelegationAttempt {
  import opened Options
  import opened Seqs

  /** What identifies an attempt on the bus. */
  datatype Tuple = Tuple(requestId: string, ownerRunId: string, nodeId: string)

  datatype Status = Completed | DuplicateNode | StructuredOutputFailed | InvalidRequest | OtherStatus

  /** A response as it comes off the bus: owner and node may be absent. */
  datatype Response = Response(requestId: string, ownerRunId: Option<string>, nodeId: Option<string>, status: Status, body: string)

  datatype Event = OnResponse(r: Response) | OnUpdate(requestId: string) | OnAbort | OnTimer

  datatype Message = Request(to: Tuple) | Cancel(target: Tuple)

  datatype Outcome = Answered(r: Response) | Rejected(body: string) | Aborted | TimedOut

  datatype State = State(
    outcome: Option<Outcome>,     // what the promise resolved with
    resolves: nat,                // how often `resolve` was called
    sent: seq<Message>,
    listening: bool,              // the abort listener is attached
    armed: bool)                  // the timer is set

  predicate Matches(me: Tuple, r: Response) {
    && r.requestId == me.requestId
    && (r.ownerRunId.None? || r.ownerRunId.value == me.ownerRunId)
    && (r.nodeId.None? || r.nodeId.value == me.nodeId)
  }

  function AnswerOf(r: Response): Outcome { if r.status.InvalidRequest? then Rejected(r.body) else Answered(r) }

  /** An attempt whose parent has already aborted never sends a request. */
  function Begin(me: Tuple, aborted: bool, timed: bool): State {
    if aborted then State(Some(Aborted), 1, [], false, false)
    else State(None, 0, [Request(me)], true, timed)
  }

  function Finish(s: State, o: Outcome): State {
    if s.outcome.Some? then s
    else s.(outcome := Some(o), resolves := s.resolves + 1, listening := false, armed := false)
  }

  function CancelWith(me: Tuple, s: State, o: Outcome): State { Finish(s.(sent := s.sent + [Cancel(me)]), o) }

  /** A signal or a timer reaches the attempt only while it is attached; a response
      may still be delivered after the attempt has settled. */
  function Step(me: Tuple, s: State, e: Event): State {
    match e
    case OnResponse(r) => if Matches(me, r) then Finish(s, AnswerOf(r)) else s
    case OnUpdate(_) => s
    case OnAbort => if s.listening then CancelWith(me, s, Aborted) else s
    case OnTimer => if s.armed then CancelWith(me, s, TimedOut) else s
  }

  function Run(me: Tuple, s: State, es: seq<Event>): State
    decreases |es|
  {
    if es == [] then s else Run(me, Step(me, s, es[0]), es[1..])
  }

  // ----- the attempt as it runs -----------------------------------------------------

  class Attempt {
    const me: Tuple
    var settled: bool
    var outcome: Option<Outcome>
    var resolves: nat
    var sent: seq<Message>
    var listening: bool
    var armed: bool

    function Now(): State
      reads this
    {
      State(outcome, resolves, sent, listening, armed)
    }

    predicate Valid()
      reads this
    {
      settled == outcome.Some?
    }

    constructor (me: Tuple, aborted: bool, timed: bool)
      ensures Valid() && this.me == me && Now() == Begin(me, aborted, timed)
    {
      this.me := me;
      if aborted {
        settled, outcome, resolves, sent, listening, armed := true, Some(Aborted), 1, [], false, false;
      } else {
        settled, outcome, resolves, sent, listening, armed := false, None, 0, [Request(me)], true, timed;
      }
    }

    /** Detach everything that could call back. */
    method Cleanup()
      modifies this
      ensures Now() == old(Now()).(listening := false, armed := false) && settled == old(settled)
    {
      listening := false;
      armed := false;
    }

    method Settle(o: Outcome)
      requires Valid()
      modifies this
      ensures Valid() && Now() == Finish(old(Now()), o)
    {
      if settled {
        return;
      }
      settled := true;
      Cleanup();
      outcome, resolves := Some(o), resolves + 1;
    }

    method Respond(r: Response)
      requires Valid()
      modifies this
      ensures Valid() && Now() == Step(me, old(Now()), OnResponse(r))
    {
      if !Matches(me, r) {
        return;
      }
      if r.status.InvalidRequest? {
        Settle(Rejected(r.body));
        return;
      }
      Settle(Answered(r));
    }

    method CancelBecause(o: Outcome)
      requires Valid()
      modifies this
      ensures Valid() && Now() == CancelWith(me, old(Now()), o)
    {
      sent := sent + [Cancel(me)];
      Settle(o);
    }

    method Abort()
      requires Valid() && listening
      modifies this
      ensures Valid() && Now() == Step(me, old(Now()), OnAbort)
    {
      CancelBecause(Aborted);
    }

    method Expire()
      requires Valid() && armed
      modifies this
      ensures Valid() && Now() == Step(me, old(Now()), OnTimer)
    {
      CancelBecause(TimedOut);
    }
  }

  // ----- settling -----------------------------------------------------------------------

  /** What a live attempt would make of an event. */
  function Terminal(me: Tuple, e: Event, timed: bool): Option<Outcome> {
    match e
    case OnResponse(r) => if Matches(me, r) then Some(AnswerOf(r)) else None
    case OnUpdate(_) => None
    case OnAbort => Some(Aborted)
    case OnTimer => if timed then Some(TimedOut) else None
  }

  /** The first event that ends the attempt. */
  function First(me: Tuple, es: seq<Event>, timed: bool): Option<Outcome>
    decreases |es|
  {
    if es == [] then None
    else if Terminal(me, es[0], timed).Some? then Terminal(me, es[0], timed)
    else First(me, es[1..], timed)
  }

  predicate Settled(s: State) { s.outcome.Some? && !s.listening && !s.armed }

  /** A settled attempt never changes again. */
  lemma {:induction false} SettledForGood(me: Tuple, s: State, es: seq<Event>)
    requires Settled(s)
    ensures Run(me, s, es) == s
    decreases |es|
  {
    if es != [] {
      SettledForGood(me, s, es[1..]);
    }
  }

  /** Under any order of own and foreign responses, updates, aborts and timers, a
      live attempt resolves with the first event that concerns it, once; it sends
      a cancel exactly when that event is an abort or its timer, for its own tuple;
      and nothing stays attached afterwards. */
  lemma {:induction false} SettlesOnce(me: Tuple, timed: bool, es: seq<Event>)
    ensures var s := Run(me, Begin(me, false, timed), es);
      && s.outcome == First(me, es, timed)
      && s.resolves == (if s.outcome.Some? then 1 else 0)
      && s.sent == [Request(me)] + (if s.outcome == Some(Aborted) || s.outcome == Some(TimedOut) then [Cancel(me)] else [])
      && (s.outcome.Some? ==> Settled(s))
    decreases |es|
  {
    if es != [] {
      var s := Begin(me, false, timed);
      if Terminal(me, es[0], timed).Some? {
        SettledForGood(me, Step(me, s, es[0]), es[1..]);
      } else {
        SettlesOnce(me, timed, es[1..]);
      }
    }
  }

  /** An attempt begun under an aborted parent stays silent. */
  lemma AbortedParentStaysSilent(me: Tuple, timed: bool, es: seq<Event>)
    ensures Run(me, Begin(me, true, timed), es) == State(Some(Aborted), 1, [], false, false)
  {
    SettledForGood(me, Begin(me, true, timed), es);
  }

  // ----- many attempts on one bus ----------------------------------------------------------

  predicate DistinctIds(ts: seq<Tuple>) { forall i, j :: 0 <= i < j < |ts| ==> ts[i].requestId != ts[j].requestId }

  /** A response on the bus reaches every attempt and can move at most one. */
  lemma ResponseMovesAtMostOne(ts: seq<Tuple>, states: seq<State>, r: Response, i: nat, j: nat)
    requires DistinctIds(ts) && |states| == |ts| && i < |ts| && j < |ts|
    requires Step(ts[i], states[i], OnResponse(r)) != states[i] && Step(ts[j], states[j], OnResponse(r)) != states[j]
    ensures i == j && states[i].outcome.None?
  {
  }

  /** A cancel on the bus names one attempt, its sender. */
  lemma {:induction false} CancelsNameTheirSender(ts: seq<Tuple>, timed: bool, es: seq<Event>, i: nat, j: nat)
    requires DistinctIds(ts) && i < |ts| && j < |ts|
    requires Cancel(ts[j]) in Run(ts[i], Begin(ts[i], false, timed), es).sent
    ensures i == j
  {
    SettlesOnce(ts[i], timed, es);
  }
}
