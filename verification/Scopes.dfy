/** How the engine keeps keys apart: a parallel node awaits its branches, and each
    branch runs under a scope marker of its own. */
module Scopes {
  import opened Histories
  import opened Keys
  import opened Options
  import opened Resume
  import opened Seqs

  function ParallelMarker(i: nat): string { "parallel[" + (Decimal(i) + "]") }

  /** `at` is the scope stack in force where a thread stands. */
  type Stack = Hist -> seq<string>

  /** A branch pushes its marker on the stack of its parent, and nothing in it runs
      outside; calls are made under the stack in force; a fork is awaited next. */
  ghost predicate Disciplined(program: Program, at: Stack) {
    && (forall h, i :: at(h + [Child(i)]) == at(h) + [ParallelMarker(i)])
    && (forall h, n: nat :: InBranch(h, n) ==> at(h[..n]) <= at(h))
    && (forall h :: AsksUnder(program, at, h) && AwaitsNext(program, h))
  }

  predicate AsksUnder(program: Program, at: Stack, h: Hist) {
    program(h).Ask? ==> program(h).markers == at(h) && PlainId(program(h).call.id)
  }

  predicate AwaitsNext(program: Program, h: Hist) { h != [] && Last(h).Forked? ==> program(h) == Await(|h| - 1) }

  predicate InBranch(h: Hist, n: nat) { 0 < n <= |h| && h[n - 1].Child? }

  predicate PlainId(id: string) { '@' !in id && '\0' !in id }

  lemma MarkerIsPlain(i: nat)
    ensures '/' !in ParallelMarker(i)
  {
    DecimalPlain(i, '/');
  }

  lemma MarkerInjective(i: nat, j: nat)
    requires ParallelMarker(i) == ParallelMarker(j)
    ensures i == j
  {
    var a, b := ParallelMarker(i), ParallelMarker(j);
    assert a[9..] == Decimal(i) + "]" && b[9..] == Decimal(j) + "]";
    assert (Decimal(i) + "]")[..|a| - 10] == Decimal(i) && (Decimal(j) + "]")[..|b| - 10] == Decimal(j);
    DecimalInjective(i, j);
  }

  // ----- the texts of scopes ------------------------------------------------------------

  lemma JoinCons(m: string, rest: seq<string>)
    ensures Join([m] + rest) == m + TailText(rest)
    ensures rest != [] ==> Join([m] + rest) == m + "/" + Join(rest)
  {
    assert ([m] + rest)[1..] == rest;
    Assoc(m, "/", Join(rest));
  }

  /** Stacks that part at a marker have different texts. */
  lemma {:induction false} JoinParts(p: seq<string>, m: string, u: seq<string>, n: string, v: seq<string>)
    requires '/' !in m && '/' !in n && Join(p + ([m] + u)) == Join(p + ([n] + v))
    ensures m == n
    decreases |p|
  {
    if p == [] {
      assert p + ([m] + u) == [m] + u && p + ([n] + v) == [n] + v;
      JoinCons(m, u);
      JoinCons(n, v);
      SameUpToSlash(m, TailText(u), n, TailText(v));
    } else {
      assert p + ([m] + u) == [p[0]] + (p[1..] + ([m] + u)) && p + ([n] + v) == [p[0]] + (p[1..] + ([n] + v));
      JoinCons(p[0], p[1..] + ([m] + u));
      JoinCons(p[0], p[1..] + ([n] + v));
      SamePrefix(p[0] + "/", Join(p[1..] + ([m] + u)), Join(p[1..] + ([n] + v)));
      JoinParts(p[1..], m, u, n, v);
    }
  }

  function TailText(rest: seq<string>): string { if rest == [] then "" else "/" + Join(rest) }

  lemma SamePrefix(p: string, a: string, b: string)
    requires p + a == p + b
    ensures a == b
  {
    assert (p + a)[|p|..] == a && (p + b)[|p|..] == b;
  }

  lemma SameUpToSlash(m: string, a: string, n: string, b: string)
    requires '/' !in m && '/' !in n && m + a == n + b
    requires (a == "" || a[0] == '/') && (b == "" || b[0] == '/')
    ensures m == n
  {
    var s, t := m + a, n + b;
    assert |m| < |s| ==> s[|m|] == '/';
    assert |n| < |t| ==> t[|n|] == '/';
    assert forall k :: 0 <= k < |m| ==> s[k] != '/';
    assert forall k :: 0 <= k < |n| ==> t[k] != '/';
    assert |m| == |n|;
    assert s[..|m|] == m && t[..|n|] == n;
  }

  // ----- branches in flight together ------------------------------------------------------

  lemma {:induction false} ProperStep(program: Program, h: Hist, n: nat)
    requires Proper(program, h) && n < |h|
    ensures Fits(program, h[..n], h[n])
    decreases |h|
  {
    if n < |h| - 1 {
      ProperStep(program, Front(h), n);
      assert Front(h)[..n] == h[..n];
    }
  }

  /** The stack of a call in a branch starts with the fork's stack and the branch's
      marker. */
  lemma StackOfBranch(program: Program, at: Stack, h: Hist, n: nat) returns (rest: seq<string>)
    requires Disciplined(program, at) && program(h).Ask? && n < |h| && h[n].Child?
    ensures program(h).markers == at(h[..n]) + ([ParallelMarker(h[n].i)] + rest)
  {
    TakeSnoc(h, n);
    assert InBranch(h, n + 1) && AsksUnder(program, at, h);
    var birth := at(h[..n + 1]);
    rest := at(h)[|birth|..];
    assert at(h) == birth + rest;
    Assoc(at(h[..n]), [ParallelMarker(h[n].i)], rest);
  }

  /** Calls in two branches of one fork are made under different scopes. */
  lemma BranchesDiffer(program: Program, at: Stack, h: Hist, g: Hist, n: nat)
    requires Disciplined(program, at) && program(h).Ask? && program(g).Ask?
    requires n < |h| && n < |g| && h[..n] == g[..n] && h[n].Child? && g[n].Child? && h[n] != g[n]
    ensures ScopeText(program(h).markers) != ScopeText(program(g).markers)
  {
    var u := StackOfBranch(program, at, h, n);
    var v := StackOfBranch(program, at, g, n);
    var i, j := h[n].i, g[n].i;
    MarkerIsPlain(i);
    MarkerIsPlain(j);
    if ScopeText(program(h).markers) == ScopeText(program(g).markers) {
      NotRoot(at(h[..n]), i, u);
      NotRoot(at(h[..n]), j, v);
      JoinParts(at(h[..n]), ParallelMarker(i), u, ParallelMarker(j), v);
      MarkerInjective(i, j);
    }
  }

  /** A stack with a marker in it is not read as the root. */
  lemma {:induction false} NotRoot(p: seq<string>, i: nat, u: seq<string>)
    ensures ScopeText(p + ([ParallelMarker(i)] + u)) == Join(p + ([ParallelMarker(i)] + u))
  {
    if p == [] {
      assert p + ([ParallelMarker(i)] + u) == [ParallelMarker(i)] + u;
      JoinCons(ParallelMarker(i), u);
    } else {
      assert p + ([ParallelMarker(i)] + u) == [p[0]] + (p[1..] + ([ParallelMarker(i)] + u));
      JoinCons(p[0], p[1..] + ([ParallelMarker(i)] + u));
    }
  }

  /** A thread that has forked makes no call before it has awaited the fork. */
  lemma ForkerAsksNothing(program: Program, at: Stack, g: Hist, n: nat)
    requires Disciplined(program, at) && Asks(program, g) && 0 < n <= |g| && g[n - 1].Forked?
    requires n < |g| ==> !g[n].Child?
    ensures Awaited(g, n - 1)
  {
    assert Last(g[..n]) == g[n - 1] && AwaitsNext(program, g[..n]);
    if n == |g| {
      TakeAll(g);
    } else {
      ProperStep(program, g, n);
    }
  }

  lemma DisciplineKeepsApart(program: Program, at: Stack, h: Hist, g: Hist, n: nat)
    requires Disciplined(program, at) && Asks(program, h) && Asks(program, g) && PartAt(h, g, n)
    ensures SiteAt(program, h) != SiteAt(program, g)
  {
    if n < |g| && g[n].Child? {
      BranchesDiffer(program, at, h, g, n);
    } else {
      ProperStep(program, h, n);
      assert g[n - 1] == h[..n][n - 1];
      ForkerAsksNothing(program, at, g, n);
    }
  }

  /** A program that runs its branches as the engine does, with plain ids, is well
      scoped: the theorems about replay hold of it. */
  lemma DisciplinedIsWellScoped(program: Program, at: Stack)
    requires Disciplined(program, at)
    ensures WellScoped(program)
  {
    forall h | program(h).Ask? ensures CleanId(program(h).call.id) {
      assert AsksUnder(program, at, h);
    }
    forall h, g ensures Distinguishes(program, h, g) {
      if Asks(program, h) && Asks(program, g) && SameText(SiteAt(program, h).value, SiteAt(program, g).value) {
        var a, b := SiteAt(program, h).value, SiteAt(program, g).value;
        assert AsksUnder(program, at, h) && AsksUnder(program, at, g);
        SiteTextInjective(a.id, a.scope, b.id, b.scope);
        if n: nat :| PartAt(h, g, n) || PartAt(g, h, n) {
          if PartAt(h, g, n) {
            DisciplineKeepsApart(program, at, h, g, n);
          } else {
            DisciplineKeepsApart(program, at, g, h, n);
          }
        }
      }
    }
  }

  // ----- a workflow of the repository ------------------------------------------------------

  /** The markers of the branches a thread stands in. */
  function Markers(h: Hist): seq<string> {
    if h == [] then [] else Markers(Front(h)) + if Last(h).Child? then [ParallelMarker(Last(h).i)] else []
  }

  lemma {:induction false} MarkersGrow(h: Hist, n: nat)
    requires n <= |h|
    ensures Markers(h[..n]) <= Markers(h)
    decreases |h|
  {
    if n < |h| {
      MarkersGrow(Front(h), n);
      assert Front(h)[..n] == h[..n];
    } else {
      TakeAll(h);
    }
  }

  /** The test block in its loop: two branches test side by side, and when they
      have ended a call outside them addresses the failures. `ask` gives the call
      of a step from what has been seen. */
  function TestAndFix(ask: (string, Hist) -> Call): Program { (h: Hist) => NextStep(ask, h) }

  function NextStep(ask: (string, Hist) -> Call, h: Hist): Move {
    if h == [] then Fork(2)
    else match Last(h) {
      case Forked(_) => Await(|h| - 1)
      case Child(i) => Ask(ask(if i == 0 then "apiTest" else "uiTest", h), Markers(h))
      case Joined(_, _) => Ask(ask("testFix", h), Markers(h))
      case Result(_) => if |h| >= 2 && h[|h| - 2].Child? then Stop else Fork(2)
    }
  }

  lemma PushesMarker(h: Hist, i: nat)
    ensures Markers(h + [Child(i)]) == Markers(h) + [ParallelMarker(i)]
  {
    assert Front(h + [Child(i)]) == h && Last(h + [Child(i)]) == Child(i);
  }

  lemma TestAndFixIsWellScoped(ask: (string, Hist) -> Call)
    requires forall step, h :: PlainId(ask(step, h).id)
    ensures WellScoped(TestAndFix(ask))
  {
    var program, at := TestAndFix(ask), (h: Hist) => Markers(h);
    forall h: Hist, i ensures at(h + [Child(i)]) == at(h) + [ParallelMarker(i)] {
      PushesMarker(h, i);
    }
    forall h, n: nat | InBranch(h, n) ensures at(h[..n]) <= at(h) {
      MarkersGrow(h, n);
    }
    forall h ensures AsksUnder(program, at, h) && AwaitsNext(program, h) {
      assert program(h) == NextStep(ask, h);
    }
    DisciplinedIsWellScoped(program, at);
  }
}
