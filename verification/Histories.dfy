/** What a workflow thread has seen, and what one history says about another: the
    causal past of a call, and why two calls of a run are ordered by it or stand
    in threads that may run at the same time. */
module Histories {
  import opened Keys
  import opened Options
  import opened Resume
  import opened Seqs

  /** A thread forks children, awaits them, and asks agents. Awaiting a fork hands
      it what each child has seen; a child knows what its parent knew at its birth. */
  datatype Item = Result(result: AgentResult) | Forked(n: nat) | Joined(at: nat, trails: seq<Trail>) | Child(i: nat)

  datatype Trail = Trail(items: seq<Item>)

  type Hist = seq<Item>

  /** What a thread does next: ask an agent under a stack of scope markers, fork
      `n` children, await the fork at a position of its history, or end. */
  datatype Move = Ask(call: Call, markers: seq<string>) | Fork(n: nat) | Await(at: nat) | Stop

  /** Any function of what the thread has seen. */
  type Program = Hist -> Move

  function Front(h: Hist): Hist
    requires h != []
  {
    h[..|h| - 1]
  }

  function Last(h: Hist): Item
    requires h != []
  {
    h[|h| - 1]
  }

  /** Where child `i` of the fork at position `at` begins. */
  function Birth(h: Hist, at: nat, i: nat): Hist { if at < |h| then h[..at + 1] + [Child(i)] else [] }

  /** A fork is where it was however long its thread has gone on. */
  lemma BirthOf(p: Hist, h: Hist, i: nat)
    requires p != [] && p <= h
    ensures Birth(h, |p| - 1, i) == p + [Child(i)] && h[|p| - 1] == Last(p)
  {
  }

  // ----- the causal past -----------------------------------------------------------

  /** The histories of the calls answered while `base` grew by `items`, those of
      awaited children included. */
  function Past(base: Hist, items: Hist): set<Hist>
    decreases items
  {
    if items == [] then {}
    else Past(base, Front(items)) + match Last(items) {
      case Result(_) => {base + Front(items)}
      case Joined(at, trails) =>
        set i, p | 0 <= i < |trails| && p in Past(Birth(base + Front(items), at, i), trails[i].items) :: p
      case _ => {}
    }
  }

  /** The call made after `p` is in the causal past of what happens after `h`. */
  predicate Before(p: Hist, h: Hist) { p in Past([], h) }

  lemma {:induction false} PastConcat(base: Hist, a: Hist, b: Hist)
    ensures Past(base, a + b) == Past(base, a) + Past(base + a, b)
    decreases |b|
  {
    if b == [] {
      assert a + b == a;
    } else {
      assert Front(a + b) == a + Front(b);
      assert Last(a + b) == Last(b);
      PastConcat(base, a, Front(b));
      Assoc(base, a, Front(b));
    }
  }

  lemma PastGrows(b: Hist, items: Hist, n: nat)
    requires n <= |items|
    ensures Past(b, items[..n]) <= Past(b, items)
  {
    assert items == items[..n] + items[n..];
    PastConcat(b, items[..n], items[n..]);
  }

  /** A call is before whatever its thread does after the answer. */
  lemma AskedBefore(b: Hist, items: Hist, n: nat)
    requires n < |items| && items[n].Result?
    ensures b + items[..n] in Past(b, items)
  {
    TakeSnoc(items, n);
    assert Front(items[..n + 1]) == items[..n] && Last(items[..n + 1]) == items[n];
    PastGrows(b, items, n + 1);
  }

  /** What is before an awaited child's end is before what follows the join. */
  lemma JoinedBefore(b: Hist, items: Hist, n: nat, i: nat)
    requires n < |items| && items[n].Joined? && i < |items[n].trails|
    ensures Past(Birth(b + items[..n], items[n].at, i), items[n].trails[i].items) <= Past(b, items)
  {
    TakeSnoc(items, n);
    assert Front(items[..n + 1]) == items[..n] && Last(items[..n + 1]) == items[n];
    PastGrows(b, items, n + 1);
  }

  lemma PastOfBirth(h: Hist, at: nat, i: nat)
    ensures Past([], Birth(h, at, i)) <= Past([], h)
  {
    if at < |h| {
      PastGrows([], h, at + 1);
      PastConcat([], h[..at + 1], [Child(i)]);
      assert Front([Child(i)]) == [];
    }
  }

  /** The causal order is transitive. */
  lemma {:induction false} PastTrans(base: Hist, items: Hist, p: Hist)
    requires p in Past(base, items)
    ensures Past([], p) <= Past([], base + items)
    decreases items
  {
    var now, last := base + Front(items), Last(items);
    assert base + items == now + [last];
    PastConcat([], now, [last]);
    if p in Past(base, Front(items)) {
      PastTrans(base, Front(items), p);
    } else if last.Joined? {
      var i: nat :| i < |last.trails| && p in Past(Birth(now, last.at, i), last.trails[i].items);
      var birth, trail := Birth(now, last.at, i), last.trails[i].items;
      PastTrans(birth, trail, p);
      PastConcat([], birth, trail);
      PastOfBirth(now, last.at, i);
      var whole := now + [last];
      assert whole[..|now|] == now && whole[|now|] == last && [] + now == now;
      JoinedBefore([], whole, |now|, i);
      assert [] + birth == birth;
    }
  }

  // ----- it is a strict order -------------------------------------------------------

  function Weight(items: Hist): nat
    decreases items
  {
    if items == [] then 0
    else Weight(Front(items)) + 1 + match Last(items) case Joined(_, trails) => Heavy(trails) case _ => 0
  }

  function Heavy(trails: seq<Trail>): nat
    decreases trails
  {
    if trails == [] then 0 else Heavy(trails[..|trails| - 1]) + 1 + Weight(trails[|trails| - 1].items)
  }

  lemma {:induction false} HeavyHolds(trails: seq<Trail>, i: nat)
    requires i < |trails|
    ensures Weight(trails[i].items) < Heavy(trails)
    decreases |trails|
  {
    if i < |trails| - 1 {
      HeavyHolds(trails[..|trails| - 1], i);
    }
  }

  lemma {:induction false} WeightConcat(a: Hist, b: Hist)
    ensures Weight(a + b) == Weight(a) + Weight(b)
    decreases |b|
  {
    if b == [] {
      assert a + b == a;
    } else {
      assert Front(a + b) == a + Front(b) && Last(a + b) == Last(b);
      WeightConcat(a, Front(b));
    }
  }

  lemma BirthWeight(h: Hist, at: nat, i: nat)
    ensures Weight(Birth(h, at, i)) <= Weight(h) + 1
  {
    if at < |h| {
      assert h == h[..at + 1] + h[at + 1..];
      WeightConcat(h[..at + 1], h[at + 1..]);
      WeightConcat(h[..at + 1], [Child(i)]);
      assert Front([Child(i)]) == [];
    }
  }

  lemma {:induction false} PastIsLighter(base: Hist, items: Hist, p: Hist)
    requires p in Past(base, items)
    ensures Weight(p) < Weight(base + items)
    decreases items
  {
    var now, last := base + Front(items), Last(items);
    assert Front(base + items) == now && Last(base + items) == last;
    if p in Past(base, Front(items)) {
      PastIsLighter(base, Front(items), p);
    } else if last.Joined? {
      var i: nat :| i < |last.trails| && p in Past(Birth(now, last.at, i), last.trails[i].items);
      var birth, trail := Birth(now, last.at, i), last.trails[i].items;
      PastIsLighter(birth, trail, p);
      WeightConcat(birth, trail);
      BirthWeight(now, last.at, i);
      HeavyHolds(last.trails, i);
    }
  }

  /** No call is before itself. */
  lemma NotBeforeItself(h: Hist)
    ensures !Before(h, h)
  {
    assert [] + h == h;
    if Before(h, h) {
      PastIsLighter([], h, h);
    }
  }

  // ----- histories a run can have -----------------------------------------------------

  /** `x` is something that can happen to a thread that has seen `h`. */
  predicate Fits(program: Program, h: Hist, x: Item) {
    match x
    case Result(_) => program(h).Ask?
    case Forked(n) => program(h) == Fork(n)
    case Joined(at, trails) => program(h) == Await(at) && at < |h| && h[at].Forked? && |trails| == h[at].n
    case Child(i) => h != [] && Last(h).Forked? && i < Last(h).n
  }

  predicate Proper(program: Program, h: Hist)
    decreases |h|
  {
    h == [] || (Proper(program, Front(h)) && Fits(program, Front(h), Last(h)))
  }

  predicate NoChild(items: Hist) { forall k :: 0 <= k < |items| ==> !items[k].Child? }

  /** The fork at position `at` of a thread's history is awaited in `items`. */
  predicate Awaited(items: Hist, at: nat) { exists m :: 0 <= m < |items| && items[m].Joined? && items[m].at == at }

  predicate AllAwaited(b: Hist, items: Hist) {
    forall k :: 0 <= k < |items| && items[k].Forked? ==> Awaited(items, |b| + k)
  }

  /** The thread born at `b` has ended, and so have all its children. */
  predicate Finished(program: Program, b: Hist, items: Hist) {
    NoChild(items) && program(b + items).Stop? && AllAwaited(b, items)
  }

  predicate Ended(program: Program, A: set<Hist>, b: Hist, items: Hist) { b + items in A && Finished(program, b, items) }

  /** What a join hands over are histories of children that have ended. */
  predicate JoinHolds(program: Program, A: set<Hist>, h: Hist, x: Item) {
    x.Joined? ==> forall i :: 0 <= i < |x.trails| ==> Ended(program, A, Birth(h, x.at, i), x.trails[i].items)
  }

  /** A set of histories such as one run passes through. */
  ghost predicate Family(program: Program, A: set<Hist>) {
    forall h :: h in A ==> Proper(program, h) && (h != [] ==> Front(h) in A && JoinHolds(program, A, Front(h), Last(h)))
  }

  /** The two runs got the same answers wherever both asked. */
  ghost predicate AnswersAgree(A: set<Hist>, B: set<Hist>) {
    forall p: Hist, r, r' :: p + [Result(r)] in A && p + [Result(r')] in B ==> r == r'
  }

  lemma {:induction false} PrefixIn(program: Program, A: set<Hist>, h: Hist, n: nat)
    requires Family(program, A) && h in A && n <= |h|
    ensures h[..n] in A
    decreases |h|
  {
    if n == |h| {
      TakeAll(h);
    } else {
      PrefixIn(program, A, Front(h), n);
      assert Front(h)[..n] == h[..n];
    }
  }

  /** One step of a history of a family. */
  lemma StepIn(program: Program, A: set<Hist>, h: Hist, n: nat)
    requires Family(program, A) && h in A && n < |h|
    ensures h[..n] in A && h[..n] + [h[n]] in A
    ensures Fits(program, h[..n], h[n]) && JoinHolds(program, A, h[..n], h[n])
  {
    PrefixIn(program, A, h, n);
    PrefixIn(program, A, h, n + 1);
    TakeSnoc(h, n);
    assert Front(h[..n + 1]) == h[..n] && Last(h[..n + 1]) == h[n];
  }

  /** The calls in the past of a history were answered in its run. */
  lemma {:induction false} PastIn(program: Program, A: set<Hist>, b: Hist, items: Hist, p: Hist)
    requires Family(program, A) && b + items in A && p in Past(b, items)
    ensures exists r :: p + [Result(r)] in A
    decreases items
  {
    var now, last := b + Front(items), Last(items);
    assert Front(b + items) == now && Last(b + items) == last;
    assert b + items == now + [last];
    if p in Past(b, Front(items)) {
      PastIn(program, A, b, Front(items), p);
    } else if last.Joined? {
      var i: nat :| i < |last.trails| && p in Past(Birth(now, last.at, i), last.trails[i].items);
      assert Ended(program, A, Birth(now, last.at, i), last.trails[i].items);
      PastIn(program, A, Birth(now, last.at, i), last.trails[i].items, p);
    }
  }

  // ----- two runs of one program ----------------------------------------------------

  /** The same thing happens to a thread in both runs. */
  lemma SameItem(program: Program, A: set<Hist>, B: set<Hist>, h: Hist, x: Item, y: Item)
    requires AnswersAgree(A, B) && h + [x] in A && h + [y] in B
    requires Fits(program, h, x) && Fits(program, h, y) && !x.Child? && !y.Child?
    requires x.Joined? && y.Joined? ==> |x.trails| == |y.trails| && forall i :: 0 <= i < |x.trails| ==> x.trails[i].items == y.trails[i].items
    ensures x == y
  {
    if x.Joined? && y.Joined? {
      assert forall i :: 0 <= i < |x.trails| ==> x.trails[i] == y.trails[i];
    }
  }

  /** A thread that has ended in both runs has seen the same in both. */
  lemma {:induction false} SameTrail(program: Program, A: set<Hist>, B: set<Hist>, b: Hist, xs: Hist, ys: Hist, k: nat)
    requires Family(program, A) && Family(program, B) && AnswersAgree(A, B)
    requires Ended(program, A, b, xs) && Ended(program, B, b, ys)
    requires k <= |xs| && k <= |ys| && xs[..k] == ys[..k]
    ensures xs == ys
    decreases xs, |xs| - k
  {
    var h := b + xs[..k];
    if k < |xs| {
      StepOf(program, A, b, xs, k);
    }
    if k < |ys| {
      StepOf(program, B, b, ys, k);
    }
    if k < |xs| && k < |ys| {
      var x, y := xs[k], ys[k];
      if x.Joined? && y.Joined? {
        forall i | 0 <= i < |x.trails| ensures x.trails[i].items == y.trails[i].items {
          SameTrail(program, A, B, Birth(h, x.at, i), x.trails[i].items, y.trails[i].items, 0);
        }
      }
      SameItem(program, A, B, h, x, y);
      TakeSnoc(xs, k);
      TakeSnoc(ys, k);
      SameTrail(program, A, B, b, xs, ys, k + 1);
    } else {
      TakeAll(xs);
      TakeAll(ys);
    }
  }

  /** A step of a thread's own part of a history. */
  lemma StepOf(program: Program, A: set<Hist>, b: Hist, items: Hist, k: nat)
    requires Family(program, A) && b + items in A && k < |items|
    ensures var h := b + items[..k];
      h in A && h + [items[k]] in A && Fits(program, h, items[k]) && JoinHolds(program, A, h, items[k])
  {
    StepIn(program, A, b + items, |b| + k);
    assert (b + items)[..|b| + k] == b + items[..k];
    assert (b + items)[|b| + k] == items[k];
  }

  // ----- any two calls --------------------------------------------------------------

  /** The histories part at position `n`: into two children of one fork, or into a
      child and a parent that has not awaited it. */
  predicate PartAt(h: Hist, g: Hist, n: nat) {
    && n < |h| && n <= |g| && h[..n] == g[..n] && h[n].Child?
    && (if n < |g| && g[n].Child? then g[n] != h[n] else n > 0 && !Awaited(g, n - 1))
  }

  /** Neither thread knows of the other's steps: they may run at the same time. */
  ghost predicate Apart(h: Hist, g: Hist) { exists n: nat :: PartAt(h, g, n) || PartAt(g, h, n) }

  predicate IsBirth(b: Hist) { b != [] && Last(b).Child? }

  /** A call of a child, or of its children's, is in the past of what awaited it. */
  lemma {:induction false} InEnded(program: Program, A: set<Hist>, B: set<Hist>, b: Hist, h: Hist, ys: Hist, k: nat)
    requires Family(program, A) && Family(program, B) && AnswersAgree(A, B)
    requires h in A && program(h).Ask? && IsBirth(b) && Ended(program, B, b, ys)
    requires k <= |ys| && |b| + k <= |h| && h[..|b| + k] == b + ys[..k]
    ensures h in Past(b, ys)
    decreases ys, |ys| - k
  {
    var n := |b| + k;
    if n < |h| {
      StepIn(program, A, h, n);
    }
    if n < |h| && h[n].Child? {
      var m := AwaitedLater(program, B, b, ys, k, h[n].i);
      TakeSnoc(h, n);
      InEnded(program, A, B, h[..n + 1], h, ys[m].trails[h[n].i].items, 0);
      JoinedBefore(b, ys, m, h[n].i);
    } else {
      EndedGoesOn(program, b, ys, h, k);
      StepOf(program, B, b, ys, k);
      TakeSnoc(ys, k);
      if n == |h| {
        AskedBefore(b, ys, k);
      } else {
        SameStep(program, A, B, h[..n], h[n], ys[k]);
        TakeSnoc(h, n);
        Assoc(b, ys[..k], [ys[k]]);
        InEnded(program, A, B, b, h, ys, k + 1);
      }
    }
  }

  /** A thread that asks, or goes on, has not ended. */
  lemma EndedGoesOn(program: Program, b: Hist, ys: Hist, h: Hist, k: nat)
    requires Finished(program, b, ys) && program(h).Ask?
    requires k <= |ys| && |b| + k <= |h| && h[..|b| + k] == b + ys[..k]
    requires |b| + k < |h| ==> Fits(program, h[..|b| + k], h[|b| + k]) && !h[|b| + k].Child?
    ensures k < |ys| && (|b| + k == |h| ==> h == b + ys[..k])
  {
    TakeAll(h);
    TakeAll(ys);
  }

  lemma LastFork(b: Hist, ys: Hist, k: nat) returns (at: nat)
    requires IsBirth(b) && AllAwaited(b, ys) && k <= |ys| && Last(b + ys[..k]).Forked?
    ensures at == |b + ys[..k]| - 1 && Awaited(ys, at)
  {
    assert b + ys[..0] == b;
    assert Last(b + ys[..k]) == ys[k - 1];
    at := |b| + (k - 1);
  }

  /** Where an ended thread awaited the fork in front of position `k`. */
  lemma AwaitedLater(program: Program, B: set<Hist>, b: Hist, ys: Hist, k: nat, i: nat) returns (m: nat)
    requires Family(program, B) && IsBirth(b) && Ended(program, B, b, ys) && k <= |ys|
    requires Fits(program, b + ys[..k], Child(i))
    ensures m < |ys| && ys[m].Joined? && i < |ys[m].trails|
    ensures Birth(b + ys[..m], ys[m].at, i) == b + ys[..k] + [Child(i)]
    ensures Ended(program, B, b + ys[..k] + [Child(i)], ys[m].trails[i].items)
  {
    var at := LastFork(b, ys, k);
    m :| 0 <= m < |ys| && ys[m].Joined? && ys[m].at == at;
    StepOf(program, B, b, ys, m);
    BirthOf(b + ys[..k], b + ys[..m], i);
  }

  lemma SameStep(program: Program, A: set<Hist>, B: set<Hist>, h: Hist, x: Item, y: Item)
    requires Family(program, A) && Family(program, B) && AnswersAgree(A, B)
    requires h + [x] in A && h + [y] in B && !x.Child? && !y.Child?
    requires Fits(program, h, x) && JoinHolds(program, A, h, x) && Fits(program, h, y) && JoinHolds(program, B, h, y)
    ensures x == y
  {
    if x.Joined? && y.Joined? {
      forall i | 0 <= i < |x.trails| ensures x.trails[i].items == y.trails[i].items {
        SameTrail(program, A, B, Birth(h, x.at, i), x.trails[i].items, y.trails[i].items, 0);
      }
    }
    SameItem(program, A, B, h, x, y);
  }

  lemma NotYetAwaited(program: Program, A: set<Hist>, h: Hist)
    requires Family(program, A) && h in A && h != []
    ensures !Awaited(h, |h| - 1)
  {
    if Awaited(h, |h| - 1) {
      var m :| 0 <= m < |h| && h[m].Joined? && h[m].at == |h| - 1;
      StepIn(program, A, h, m);
    }
  }

  /** A call in a child, and one whose history is no part of the child's. */
  lemma ChildRelated(program: Program, A: set<Hist>, B: set<Hist>, h: Hist, g: Hist, k: nat)
    requires Family(program, A) && Family(program, B) && AnswersAgree(A, B)
    requires h in A && g in B && program(h).Ask?
    requires k < |h| && h[k].Child? && k <= |g| && h[..k] == g[..k] && (k < |g| ==> g[k] != h[k])
    ensures Before(h, g) || Apart(h, g)
  {
    StepIn(program, A, h, k);
    if k == |g| {
      TakeAll(g);
      NotYetAwaited(program, B, g);
    }
    if (k < |g| && g[k].Child?) || !Awaited(g, k - 1) {
      assert PartAt(h, g, k);
    } else {
      var m :| 0 <= m < |g| && g[m].Joined? && g[m].at == k - 1;
      ChildOfJoin(program, A, B, h, g, k, m);
    }
  }

  lemma ChildOfJoin(program: Program, A: set<Hist>, B: set<Hist>, h: Hist, g: Hist, k: nat, m: nat)
    requires Family(program, A) && Family(program, B) && AnswersAgree(A, B)
    requires h in A && g in B && program(h).Ask?
    requires 0 < k < |h| && h[k].Child? && k <= |g| && h[..k] == g[..k]
    requires m < |g| && g[m].Joined? && g[m].at == k - 1
    ensures Before(h, g)
  {
    var i := h[k].i;
    StepIn(program, A, h, k);
    StepIn(program, B, g, m);
    TakeSnoc(h, k);
    BirthOf(h[..k], g[..m], i);
    assert Ended(program, B, h[..k + 1], g[m].trails[i].items);
    InEnded(program, A, B, h[..k + 1], h, g[m].trails[i].items, 0);
    assert [] + g[..m] == g[..m];
    JoinedBefore([], g, m, i);
  }

  lemma AskRelated(program: Program, B: set<Hist>, h: Hist, g: Hist)
    requires Family(program, B) && g in B && program(h).Ask?
    requires |h| < |g| && h == g[..|h|] && !g[|h|].Child?
    ensures Before(h, g)
  {
    StepIn(program, B, g, |h|);
    assert [] + g[..|h|] == h;
    AskedBefore([], g, |h|);
  }

  /** Of two calls, of one run or of two runs that got the same answers, one is in
      the past of the other, or their threads may run at the same time. */
  lemma {:induction false} Related(program: Program, A: set<Hist>, B: set<Hist>, h: Hist, g: Hist, k: nat)
    requires Family(program, A) && Family(program, B) && AnswersAgree(A, B)
    requires h in A && g in B && program(h).Ask? && program(g).Ask?
    requires k <= |h| && k <= |g| && h[..k] == g[..k]
    ensures h == g || Before(h, g) || Before(g, h) || Apart(h, g)
    decreases |h| - k
  {
    TakeAll(h);
    TakeAll(g);
    if k < |h| && k < |g| && h[k] == g[k] {
      TakeSnoc(h, k);
      TakeSnoc(g, k);
      Related(program, A, B, h, g, k + 1);
    } else if k < |h| && h[k].Child? {
      ChildRelated(program, A, B, h, g, k);
    } else if k < |g| && g[k].Child? {
      ChildRelated(program, B, A, g, h, k);
      ApartIsMutual(g, h);
    } else if k == |h| && k < |g| {
      AskRelated(program, B, h, g);
    } else if k == |g| && k < |h| {
      AskRelated(program, A, g, h);
    } else if k < |h| {
      StepIn(program, A, h, k);
      StepIn(program, B, g, k);
      SameStep(program, A, B, h[..k], h[k], g[k]);
    }
  }

  lemma ApartIsMutual(h: Hist, g: Hist)
    ensures Apart(h, g) <==> Apart(g, h)
  {
    if n: nat :| PartAt(h, g, n) || PartAt(g, h, n) {
      assert PartAt(g, h, n) || PartAt(h, g, n);
    }
  }

  /** A thread is on the same way in both runs. */
  lemma {:induction false} SameWay(program: Program, A: set<Hist>, B: set<Hist>, b: Hist, xs: Hist, ys: Hist, k: nat)
    requires Family(program, A) && Family(program, B) && AnswersAgree(A, B)
    requires b + xs in A && b + ys in B && NoChild(xs) && NoChild(ys)
    requires k <= |xs| && k <= |ys| && xs[..k] == ys[..k]
    ensures xs <= ys || ys <= xs
    decreases |xs| - k
  {
    if k < |xs| && k < |ys| {
      StepOf(program, A, b, xs, k);
      StepOf(program, B, b, ys, k);
      SameStep(program, A, B, b + xs[..k], xs[k], ys[k]);
      TakeSnoc(xs, k);
      TakeSnoc(ys, k);
      SameWay(program, A, B, b, xs, ys, k + 1);
    } else {
      TakeAll(xs);
      TakeAll(ys);
    }
  }

  // ----- the key of a call is a function of its causal history ---------------------------

  function SiteAt(program: Program, h: Hist): Option<Site> {
    match program(h)
    case Ask(call, markers) => Some(Site(ScopeText(markers), call.id))
    case _ => None
  }

  /** The calls from the same site in the past of the one made after `h`. */
  function SameSite(program: Program, h: Hist): set<Hist> {
    set p | p in Past([], h) && SiteAt(program, p) == SiteAt(program, h)
  }

  function KeyAt(program: Program, h: Hist): string {
    match SiteAt(program, h)
    case Some(site) => Key(site.id, site.scope, |SameSite(program, h)| + 1)
    case None => ""
  }

  predicate SameText(a: Site, b: Site) { SiteText(a.id, a.scope) == SiteText(b.id, b.scope) }

  ghost predicate Asks(program: Program, h: Hist) { program(h).Ask? && Proper(program, h) }

  /** What a program must keep to for its keys to be unambiguous. */
  ghost predicate Distinguishes(program: Program, h: Hist, g: Hist) {
    Asks(program, h) && Asks(program, g) && SameText(SiteAt(program, h).value, SiteAt(program, g).value) ==>
      SiteAt(program, h) == SiteAt(program, g) && !Apart(h, g)
  }

  /** Ids without the counters' separator; no two sites with one text; and calls
      that may be in flight together come from different sites. */
  ghost predicate WellScoped(program: Program) {
    && (forall h :: program(h).Ask? ==> CleanId(program(h).call.id))
    && (forall h, g :: Distinguishes(program, h, g))
  }

  lemma LaterHasMore(program: Program, h: Hist, g: Hist)
    requires Before(h, g) && SiteAt(program, h) == SiteAt(program, g)
    ensures |SameSite(program, h)| < |SameSite(program, g)|
  {
    var a, b := SameSite(program, h), SameSite(program, g);
    PastTrans([], g, h);
    assert [] + g == g;
    NotBeforeItself(h);
    SubsetSize(a + {h}, b);
  }

  /** Two calls of one run, or of two runs that got the same answers, have
      different keys. */
  lemma DistinctKeys(program: Program, A: set<Hist>, B: set<Hist>, h: Hist, g: Hist)
    requires WellScoped(program) && Family(program, A) && Family(program, B) && AnswersAgree(A, B)
    requires h in A && g in B && program(h).Ask? && program(g).Ask? && h != g
    ensures KeyAt(program, h) != KeyAt(program, g)
  {
    Related(program, A, B, h, g, 0);
    KeysOfRelated(program, h, g);
  }

  lemma KeysOfRelated(program: Program, h: Hist, g: Hist)
    requires Asks(program, h) && Asks(program, g) && Distinguishes(program, h, g)
    requires Before(h, g) || Before(g, h) || Apart(h, g)
    ensures KeyAt(program, h) != KeyAt(program, g)
  {
    var a, b := SiteAt(program, h).value, SiteAt(program, g).value;
    KeyExactly(a.id, a.scope, |SameSite(program, h)| + 1, b.id, b.scope, |SameSite(program, g)| + 1);
    if SameText(a, b) {
      if Before(h, g) {
        LaterHasMore(program, h, g);
      } else {
        LaterHasMore(program, g, h);
      }
    }
  }
}
