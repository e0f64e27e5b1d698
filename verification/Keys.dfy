/** The structural cache key `id@scope#occurrence@vN` and the occurrence
    counters it is minted from. */
module Keys {
  import opened Seqs

  /** `CONTROL_SCHEMA_VERSION`. */
  const VERSION := "2"

  // ----- decimal numerals ---------------------------------------------------

  function Digit(d: nat): char
    requires d < 10
  {
    ('0' as int + d) as char
  }

  function Decimal(n: nat): (s: string)
    ensures |s| > 0
  {
    if n < 10 then [Digit(n)] else Decimal(n / 10) + [Digit(n % 10)]
  }

  lemma {:induction false} DecimalInjective(m: nat, n: nat)
    requires Decimal(m) == Decimal(n)
    ensures m == n
    decreases m + n
  {
    var a, b := Decimal(m), Decimal(n);
    assert a[|a| - 1] == Digit(m % 10) && b[|b| - 1] == Digit(n % 10);
    if m >= 10 && n >= 10 {
      assert a[..|a| - 1] == Decimal(m / 10) && b[..|b| - 1] == Decimal(n / 10);
      DecimalInjective(m / 10, n / 10);
    }
  }

  lemma {:induction false} DecimalPlain(n: nat, c: char)
    requires c < '0' || '9' < c
    ensures c !in Decimal(n)
    decreases n
  {
    if n >= 10 { DecimalPlain(n / 10, c); }
  }

  // ----- the key ------------------------------------------------------------

  function Join(markers: seq<string>): string {
    if markers == [] then "" else if |markers| == 1 then markers[0] else markers[0] + "/" + Join(markers[1..])
  }

  /** `getScope().join("/") || "root"`. */
  function ScopeText(markers: seq<string>): string {
    if Join(markers) == "" then "root" else Join(markers)
  }

  /** What names the place of a call in its key. */
  function SiteText(id: string, scope: string): string { id + ("@" + scope) }

  function Stamp(n: nat): string { Decimal(n) + ("@v" + VERSION) }

  function Key(id: string, scope: string, n: nat): string { SiteText(id, scope) + ("#" + Stamp(n)) }

  function OccKey(id: string, scope: string): string { id + ("\0" + scope) }

  predicate CleanId(id: string) { '\0' !in id }

  lemma HeadBeforeCut(a: string, b: string, sep: char)
    requires sep !in a
    ensures (a + ([sep] + b))[0] == sep <==> a == ""
  {
    if a != "" { assert (a + ([sep] + b))[0] == a[0]; }
  }

  /** Cutting at the first separator is unambiguous. */
  lemma {:induction false} CutAt(a: string, b: string, c: string, d: string, sep: char)
    requires sep !in a && sep !in c && a + ([sep] + b) == c + ([sep] + d)
    ensures a == c && b == d
    decreases |a|
  {
    HeadBeforeCut(a, b, sep);
    HeadBeforeCut(c, d, sep);
    var s := a + ([sep] + b);
    if a == "" {
      assert s[1..] == b;
      assert s[1..] == d;
    } else {
      assert s[1..] == a[1..] + ([sep] + b);
      assert s[1..] == c[1..] + ([sep] + d);
      CutAt(a[1..], b, c[1..], d, sep);
      assert a == [s[0]] + a[1..] && c == [s[0]] + c[1..];
    }
  }

  /** So is cutting at the last one. */
  lemma CutAtLast(a: string, b: string, c: string, d: string, sep: char)
    requires sep !in b && sep !in d && a + ([sep] + b) == c + ([sep] + d)
    ensures a == c && b == d
  {
    var s, t := a + ([sep] + b), c + ([sep] + d);
    assert s[|a|] == sep && t[|c|] == sep;
    assert |a| == |c|;
    assert s[..|a|] == a && t[..|a|] == c && s[|a| + 1..] == b && t[|a| + 1..] == d;
  }

  lemma StampInjective(m: nat, n: nat)
    requires Stamp(m) == Stamp(n)
    ensures m == n
  {
    var v := "v" + VERSION;
    assert "@v" + VERSION == ['@'] + v;
    DecimalPlain(m, '@');
    DecimalPlain(n, '@');
    CutAt(Decimal(m), v, Decimal(n), v, '@');
    DecimalInjective(m, n);
  }

  /** A key determines its site text and its occurrence, and nothing more. */
  lemma KeyExactly(id: string, scope: string, n: nat, id': string, scope': string, n': nat)
    ensures Key(id, scope, n) == Key(id', scope', n') <==> SiteText(id, scope) == SiteText(id', scope') && n == n'
  {
    if Key(id, scope, n) == Key(id', scope', n') {
      DecimalPlain(n, '#');
      DecimalPlain(n', '#');
      assert "#" == ['#'];
      CutAtLast(SiteText(id, scope), Stamp(n), SiteText(id', scope'), Stamp(n'), '#');
      StampInjective(n, n');
    }
  }

  /** A site text determines id and scope when ids have no `@`. */
  lemma SiteTextInjective(id: string, scope: string, id': string, scope': string)
    requires '@' !in id && '@' !in id' && SiteText(id, scope) == SiteText(id', scope')
    ensures id == id' && scope == scope'
  {
    assert "@" == ['@'];
    CutAt(id, scope, id', scope', '@');
  }

  /** Calls with different ids or scopes have different counters. */
  lemma OccKeyInjective(id: string, scope: string, id': string, scope': string)
    requires CleanId(id) && CleanId(id') && OccKey(id, scope) == OccKey(id', scope')
    ensures id == id' && scope == scope'
  {
    assert "\0" == ['\0'];
    CutAt(id, scope, id', scope', '\0');
  }

  const TOMBSTONE := "__tombstone__@boot#1"

  /** No call ever mints the tombstone's key. */
  lemma TombstoneIsNoKey(id: string, scope: string, n: nat)
    ensures Key(id, scope, n) != TOMBSTONE
  {
    var k := Key(id, scope, n);
    assert k[|k| - 1] == '2';
    assert TOMBSTONE[|TOMBSTONE| - 1] == '1';
  }

  // ----- occurrences in an interleaving ---------------------------------------

  /** One agent call as the counters see it. */
  datatype Site = Site(scope: string, id: string)

  function Counter(s: Site): string { OccKey(s.id, s.scope) }

  /** How often a counter has counted. */
  function Count(calls: seq<Site>, k: string): nat
    decreases |calls|
  {
    if calls == [] then 0
    else Count(calls[..|calls| - 1], k) + if Counter(calls[|calls| - 1]) == k then 1 else 0
  }

  predicate CleanIds(calls: seq<Site>) { forall i :: 0 <= i < |calls| ==> CleanId(calls[i].id) }

  /** For ids without NUL every site has its own counter. */
  lemma OneCounterASite(s: Site, u: Site)
    requires CleanId(s.id) && CleanId(u.id) && Counter(s) == Counter(u)
    ensures s == u
  {
    OccKeyInjective(s.id, s.scope, u.id, u.scope);
  }

  /** The key the counters mint for the call at position `t` of a run. */
  function Minted(calls: seq<Site>, t: nat): string
    requires t < |calls|
  {
    Key(calls[t].id, calls[t].scope, Count(calls[..t + 1], Counter(calls[t])))
  }

  /** The calls of one scope, in order. */
  function OfScope(calls: seq<Site>, scope: string): seq<Site>
    decreases |calls|
  {
    if calls == [] then []
    else OfScope(calls[..|calls| - 1], scope) + if calls[|calls| - 1].scope == scope then [calls[|calls| - 1]] else []
  }

  /** No call of another scope is counted by `k`. */
  predicate OwnCounter(calls: seq<Site>, scope: string, k: string) {
    forall i :: 0 <= i < |calls| && calls[i].scope != scope ==> Counter(calls[i]) != k
  }

  lemma {:induction false} CountIsPerScope(calls: seq<Site>, scope: string, k: string)
    ensures Count(OfScope(calls, scope), k) <= Count(calls, k)
    ensures Count(OfScope(calls, scope), k) == Count(calls, k) <==> OwnCounter(calls, scope, k)
    decreases |calls|
  {
    if calls != [] {
      var before, last := calls[..|calls| - 1], calls[|calls| - 1];
      CountIsPerScope(before, scope, k);
      assert OwnCounter(calls, scope, k) <==> OwnCounter(before, scope, k) && (last.scope != scope ==> Counter(last) != k);
      if last.scope == scope {
        var mine := OfScope(calls, scope);
        assert mine[..|mine| - 1] == OfScope(before, scope);
      } else {
        assert OfScope(before, scope) + [] == OfScope(before, scope);
      }
    }
  }

  lemma CleanIdsCountApart(calls: seq<Site>, s: Site)
    requires CleanIds(calls) && CleanId(s.id)
    ensures OwnCounter(calls, s.scope, Counter(s))
  {
    forall i | 0 <= i < |calls| && calls[i].scope != s.scope ensures Counter(calls[i]) != Counter(s) {
      if Counter(calls[i]) == Counter(s) {
        OneCounterASite(calls[i], s);
      }
    }
  }

  /** Order independence: the key of a call is the one its own scope's calls
      alone would give it, whatever the other branches did in between, exactly when
      they did not count on its counter; and without NUL in the ids they never do. */
  lemma KeyIsLocal(calls: seq<Site>, t: nat)
    requires t < |calls|
    ensures var scope := calls[t].scope;
      var j := |OfScope(calls[..t], scope)|;
      var mine := OfScope(calls, scope);
      && j < |mine| && mine[j] == calls[t]
      && (Minted(calls, t) == Minted(mine, j) <==> OwnCounter(calls[..t], scope, Counter(calls[t])))
      && (CleanIds(calls) ==> Minted(calls, t) == Minted(mine, j))
  {
    var scope, j, k := calls[t].scope, |OfScope(calls[..t], calls[t].scope)|, Counter(calls[t]);
    OfScopePrefix(calls, t + 1, scope);
    TakeSnoc(calls, t);
    assert (calls[..t] + [calls[t]])[..t] == calls[..t];
    CountIsPerScope(calls[..t + 1], scope, k);
    assert OwnCounter(calls[..t + 1], scope, k) <==> OwnCounter(calls[..t], scope, k);
    var mine := OfScope(calls, scope);
    assert mine[..j + 1] == OfScope(calls[..t + 1], scope);
    KeyExactly(calls[t].id, scope, Count(calls[..t + 1], k), calls[t].id, scope, Count(mine[..j + 1], k));
    if CleanIds(calls) {
      CleanIdsCountApart(calls[..t], calls[t]);
    }
  }

  lemma {:induction false} OfScopePrefix(calls: seq<Site>, n: nat, scope: string)
    requires n <= |calls|
    ensures OfScope(calls[..n], scope) <= OfScope(calls, scope)
    decreases |calls|
  {
    if n < |calls| {
      var before := calls[..|calls| - 1];
      OfScopePrefix(before, n, scope);
      assert before[..n] == calls[..n];
    } else {
      TakeAll(calls);
    }
  }

  /** Two interleavings of the same branches mint the same keys: the j-th call
      of a scope has the same key in both. */
  lemma InterleavingsAgree(one: seq<Site>, two: seq<Site>, t: nat, u: nat)
    requires CleanIds(one) && CleanIds(two)
    requires t < |one| && u < |two| && one[t].scope == two[u].scope
    requires OfScope(one, one[t].scope) == OfScope(two, one[t].scope)
    requires |OfScope(one[..t], one[t].scope)| == |OfScope(two[..u], one[t].scope)|
    ensures one[t].id == two[u].id && Minted(one, t) == Minted(two, u)
  {
    KeyIsLocal(one, t);
    KeyIsLocal(two, u);
  }

  /** It needs ids without NUL: the second of these calls is the first of its scope. */
  lemma NulSharesACounter()
    ensures var calls := [Site("b\0c", "a"), Site("c", "a\0b")];
      Minted(calls, 1) == Key("a\0b", "c", 2) && Minted(OfScope(calls, "c"), 0) == Key("a\0b", "c", 1)
  {
    var first, second := Site("b\0c", "a"), Site("c", "a\0b");
    assert Counter(first) == "a\0b\0c" && Counter(second) == "a\0b\0c";
    CountsOfTwo(first, second);
    assert [first, second][..1] == [first] && [first][..0] == [] && OfScope([first], "c") == [];
    assert OfScope([first, second], "c") == [second];
    CountsOfTwo(second, second);
    assert [second][..1] == [second];
  }

  /** The counts a call and the one behind it get. */
  lemma CountsOfTwo(a: Site, b: Site)
    ensures [a, b][..2] == [a, b]
    ensures Count([a], Counter(a)) == 1 && Count([a, b], Counter(b)) == if Counter(a) == Counter(b) then 2 else 1
  {
    assert [a, b][..1] == [a] && [a][..0] == [];
    assert Count([a], Counter(b)) == if Counter(a) == Counter(b) then 1 else 0;
  }

  lemma {:induction false} CountGrows(calls: seq<Site>, m: nat, n: nat, k: string)
    requires m <= n <= |calls|
    ensures Count(calls[..m], k) <= Count(calls[..n], k)
    decreases n - m
  {
    if m < n {
      CountGrows(calls, m, n - 1, k);
      assert calls[..n][..n - 1] == calls[..n - 1];
    }
  }

  ghost predicate SameKey(calls: seq<Site>, t: nat, u: nat) {
    t < u < |calls| && Minted(calls, t) == Minted(calls, u)
  }

  /** Two calls from different sites whose texts are the same. */
  ghost predicate Confused(calls: seq<Site>, t: nat, u: nat) {
    t < u < |calls| && calls[t] != calls[u] && SiteText(calls[t].id, calls[t].scope) == SiteText(calls[u].id, calls[u].scope)
  }

  /** Calls from one site have different keys. */
  lemma SameKeyIsConfused(calls: seq<Site>, t: nat, u: nat)
    requires SameKey(calls, t, u)
    ensures Confused(calls, t, u)
  {
    var a, b := calls[t], calls[u];
    KeyExactly(a.id, a.scope, Count(calls[..t + 1], Counter(a)), b.id, b.scope, Count(calls[..u + 1], Counter(b)));
    CountGrows(calls, t + 1, u, Counter(b));
    assert calls[..u + 1][..u] == calls[..u];
  }

  /** The first call that is counted where call `t` is. */
  lemma {:induction false} FirstCounted(calls: seq<Site>, t: nat) returns (f: nat)
    requires t < |calls|
    ensures f <= t && Counter(calls[f]) == Counter(calls[t]) && Count(calls[..f + 1], Counter(calls[t])) == 1
    decreases t
  {
    assert calls[..t + 1][..t] == calls[..t];
    if i: nat :| i < t && Counter(calls[i]) == Counter(calls[t]) {
      f := FirstCounted(calls, i);
    } else {
      f := t;
      CountNone(calls[..t], Counter(calls[t]));
    }
  }

  lemma {:induction false} CountNone(calls: seq<Site>, k: string)
    requires forall i :: 0 <= i < |calls| ==> Counter(calls[i]) != k
    ensures Count(calls, k) == 0
    decreases |calls|
  {
    if calls != [] {
      CountNone(calls[..|calls| - 1], k);
    }
  }

  lemma ConfusedShare(calls: seq<Site>, t: nat, u: nat)
    requires Confused(calls, t, u) && CleanIds(calls)
    ensures exists f: nat, g: nat :: SameKey(calls, f, g)
  {
    var f := FirstCounted(calls, t);
    var g := FirstCounted(calls, u);
    OneCounterASite(calls[f], calls[t]);
    OneCounterASite(calls[g], calls[u]);
    KeyExactly(calls[f].id, calls[f].scope, 1, calls[g].id, calls[g].scope, 1);
    assert Minted(calls, f) == Minted(calls, g);
    assert SameKey(calls, if f < g then f else g, if f < g then g else f);
  }

  /** Two calls of a run share a key only if they come from different sites with the
      same text; and if two calls do, and ids have no NUL, some two share one. */
  lemma KeysCollideExactly(calls: seq<Site>)
    ensures forall t: nat, u: nat :: SameKey(calls, t, u) ==> Confused(calls, t, u)
    ensures CleanIds(calls) ==> ((exists t: nat, u: nat :: SameKey(calls, t, u)) <==> (exists t: nat, u: nat :: Confused(calls, t, u)))
  {
    forall t: nat, u: nat | SameKey(calls, t, u) ensures Confused(calls, t, u) {
      SameKeyIsConfused(calls, t, u);
    }
    if CleanIds(calls) {
      if t: nat, u: nat :| Confused(calls, t, u) {
        ConfusedShare(calls, t, u);
      }
      if t: nat, u: nat :| SameKey(calls, t, u) {
        assert Confused(calls, t, u);
      }
    }
  }

  /** With NUL it can go well by chance: of two sites with one text the first was
      counted with another site, and is one ahead. */
  lemma NulKeepsThemApart()
    ensures var calls := [Site("d", "a\0b@c"), Site("b@c\0d", "a"), Site("c\0d", "a@b")];
      Confused(calls, 1, 2) && forall t: nat, u: nat :: !SameKey(calls, t, u)
  {
    var a, b, c := Site("d", "a\0b@c"), Site("b@c\0d", "a"), Site("c\0d", "a@b");
    assert SiteText(b.id, b.scope) == "a@b@c\0d" && SiteText(c.id, c.scope) == "a@b@c\0d";
    assert SiteText(a.id, a.scope)[1] == '\0';
    assert |b.id| == 1 && |c.id| == 3;
    assert Counter(a) == "a\0b@c\0d" && Counter(b) == "a\0b@c\0d";
    assert Counter(c)[1] == '@' && Counter(a)[1] == '\0';
    ApartByCount(a, b, c);
  }

  lemma ApartByCount(a: Site, b: Site, c: Site)
    requires Counter(a) == Counter(b) && Counter(c) != Counter(a)
    requires SiteText(a.id, a.scope) != SiteText(b.id, b.scope) && SiteText(b.id, b.scope) == SiteText(c.id, c.scope)
    ensures forall t: nat, u: nat :: !SameKey([a, b, c], t, u)
  {
    var calls := [a, b, c];
    CountsOfThree(a, b, c);
    assert calls[..1] == [a] && calls[..2] == [a, b] && calls[..3] == calls;
    KeyExactly(a.id, a.scope, 1, b.id, b.scope, 2);
    KeyExactly(a.id, a.scope, 1, c.id, c.scope, 1);
    KeyExactly(b.id, b.scope, 2, c.id, c.scope, 1);
    forall t: nat, u: nat ensures !SameKey(calls, t, u) {
      if t < u < 3 {
        assert u == 1 || u == 2;
      }
    }
  }

  lemma CountsOfThree(a: Site, b: Site, c: Site)
    requires Counter(a) == Counter(b) && Counter(c) != Counter(a)
    ensures Count([a], Counter(a)) == 1 && Count([a, b], Counter(b)) == 2 && Count([a, b, c], Counter(c)) == 1
  {
    CountsOfTwo(a, b);
    assert [a, b, c][..2] == [a, b];
    CountNone([a, b], Counter(c));
  }

  /** No run whose ids have no `@` has two calls with one key. */
  lemma PlainIdsNeverCollide(calls: seq<Site>, t: nat, u: nat)
    requires t < u < |calls| && forall i :: 0 <= i < |calls| ==> '@' !in calls[i].id
    ensures Minted(calls, t) != Minted(calls, u)
  {
    if SameKey(calls, t, u) {
      SameKeyIsConfused(calls, t, u);
      SiteTextInjective(calls[t].id, calls[t].scope, calls[u].id, calls[u].scope);
    }
  }

  /** A run where it fails: the second call finds the row of the first. */
  lemma AtSignsCollide()
    ensures SameKey([Site("b@c", "a"), Site("c", "a@b")], 0, 1)
  {
    var a, b := Site("b@c", "a"), Site("c", "a@b");
    assert SiteText("a", "b@c") == "a@b@c" && SiteText("a@b", "c") == "a@b@c";
    assert Counter(a)[1] == '\0' && Counter(b)[1] == '@';
    CountsOfTwo(a, b);
    assert [a, b][..1] == [a];
    KeyExactly("a", "b@c", 1, "a@b", "c", 1);
  }
}
