/** Durable replay: a workflow of threads that fork, await and ask agents,
    interrupted anywhere and run again on the cache file it left. */
module Replay {
  import opened GluedLines
  import opened Histories
  import opened JsonLines
  import opened Keys
  import opened Options
  import opened Resume
  import opened Seqs
  import opened Utf8

  datatype Env = Env(codec: Codec<Row>, extract: Extract, program: Program)

  /** A call that was answered: its result, whether the live agent gave it, and
      whether the file will give it back. */
  datatype Made = Made(result: AgentResult, live: bool, kept: bool)

  /** Where each thread stands, the keys of the live calls in flight, every history
      a thread has been through, and the calls by the history they were made after. */
  datatype Sys = Sys(memo: Memo, now: set<Hist>, waiting: map<Hist, string>, passed: set<Hist>, calls: map<Hist, Made>)

  /** The scheduler lets a thread ask or fork, or resumes one whose children have
      all ended; or the live agent answers and the row is written as `w` allows. */
  datatype Event =
    | Go(h: Hist)
    | Join(h: Hist, trails: seq<Trail>)
    | Answer(h: Hist, result: AgentResult, w: Write)

  /** A process starts on the file it finds. */
  function Boot(env: Env, file: string): Sys {
    Sys(Memo(Load(env.codec, file), map[], file), {[]}, map[], {[]}, map[])
  }

  function Births(h: Hist, n: nat): set<Hist> { set i: nat | i < n :: h + [Child(i)] }

  /** Where the thread stands after `x`, and its children when it has forked. */
  function Arrivals(h: Hist, x: Item): set<Hist> {
    {h + [x]} + if x.Forked? then Births(h + [x], x.n) else {}
  }

  function Moved(s: Sys, h: Hist, x: Item): Sys {
    Sys(s.memo, s.now - {h} + Arrivals(h, x), s.waiting - {h}, s.passed + Arrivals(h, x), s.calls)
  }

  function Deliver(s: Sys, h: Hist, made: Made): Sys {
    Moved(s, h, Result(made.result)).(calls := s.calls[h := made])
  }

  function Step(env: Env, s: Sys, ev: Event): Sys {
    match ev
    case Go(h) => if CanGo(s, h) then GoOn(env, s, h) else s
    case Join(h, trails) => if CanJoin(env, s, h, trails) then Moved(s, h, Joined(env.program(h).at, trails)) else s
    case Answer(h, result, w) =>
      if h !in s.waiting then s
      else
        var key := s.waiting[h];
        var kept := Replayable(result) && Kept(env.codec, s.memo.file, Row(key, PersistRow(result)), w);
        Deliver(s.(memo := Store(env.codec, s.memo, key, result, w)), h, Made(result, true, kept))
  }

  predicate CanGo(s: Sys, h: Hist) { h in s.now && h !in s.waiting }

  function GoOn(env: Env, s: Sys, h: Hist): Sys {
    match env.program(h)
    case Ask(call, markers) =>
      var (memo, key) := Mint(s.memo, call.id, ScopeText(markers));
      var served := Lookup(env.extract, memo, call, key);
      if served.Some? then Deliver(s.(memo := memo), h, Made(served.value, false, true))
      else s.(memo := memo, waiting := s.waiting[h := key])
    case Fork(n) => Moved(s, h, Forked(n))
    case _ => s
  }

  predicate CanJoin(env: Env, s: Sys, h: Hist, trails: seq<Trail>) {
    && h in s.now && env.program(h).Await?
    && var x := Joined(env.program(h).at, trails);
       Fits(env.program, h, x) && JoinHolds(env.program, s.passed, h, x)
  }

  function Run(env: Env, s: Sys, events: seq<Event>): Sys
    decreases |events|
  {
    if events == [] then s else Run(env, Step(env, s, events[0]), events[1..])
  }

  // ----- the shape of a run ---------------------------------------------------------

  ghost predicate AnsweredAs(s: Sys, p: Hist, r: AgentResult) { p in s.calls && s.calls[p].result == r }

  ghost predicate Shaped(env: Env, s: Sys) {
    && Family(env.program, s.passed)
    && s.now <= s.passed && s.waiting.Keys <= s.now
    && (forall h :: h in s.waiting ==> env.program(h).Ask?)
    && (forall p: Hist, r :: p + [Result(r)] in s.passed <==> AnsweredAs(s, p, r))
    && (forall h: Hist, x :: h in s.now && h + [x] in s.passed ==> x.Child?)
  }

  lemma SnocSame(h: Hist, x: Item, g: Hist, y: Item)
    requires h + [x] == g + [y]
    ensures h == g && x == y
  {
    assert (h + [x])[..|h|] == h && (g + [y])[..|g|] == g;
    assert (h + [x])[|h|] == x && (g + [y])[|g|] == y;
  }

  lemma ArrivalsFit(program: Program, A: set<Hist>, h: Hist, x: Item)
    requires Family(program, A) && h in A && Fits(program, h, x) && JoinHolds(program, A, h, x)
    ensures Family(program, A + Arrivals(h, x))
  {
    var B, now := A + Arrivals(h, x), h + [x];
    assert Front(now) == h && Last(now) == x;
    assert Proper(program, now);
    forall g | g in B
      ensures Proper(program, g) && (g != [] ==> Front(g) in B && JoinHolds(program, B, Front(g), Last(g)))
    {
      if g !in A && g != now {
        var i: nat :| i < x.n && g == now + [Child(i)];
        assert Front(g) == now && Last(g) == Child(i);
      }
    }
  }

  /** What arrives was not there before. */
  lemma ArrivalIsNew(env: Env, s: Sys, h: Hist, x: Item, g: Hist)
    requires Shaped(env, s) && h in s.now && !x.Child? && g in Arrivals(h, x)
    ensures g !in s.passed && |g| > |h|
  {
    var now := h + [x];
    if g != now {
      var i: nat :| i < x.n && g == now + [Child(i)];
      assert Front(g) == now;
    }
  }

  lemma StaysFresh(env: Env, s: Sys, h: Hist, x: Item, g: Hist, y: Item)
    requires Shaped(env, s) && h in s.now && !x.Child?
    requires g in s.now - {h} + Arrivals(h, x) && g + [y] in s.passed + Arrivals(h, x)
    ensures y.Child?
  {
    assert Front(g + [y]) == g;
    if g in Arrivals(h, x) {
      ArrivalIsNew(env, s, h, x, g);
    }
    if g + [y] in Arrivals(h, x) {
      ChildArrives(h, x, g, y);
    }
  }

  lemma ChildArrives(h: Hist, x: Item, g: Hist, y: Item)
    requires g + [y] in Arrivals(h, x)
    ensures g == h || y.Child?
  {
    if g + [y] == h + [x] {
      SnocSame(g, y, h, x);
    } else {
      var i: nat :| i < x.n && g + [y] == h + [x] + [Child(i)];
      SnocSame(g, y, h + [x], Child(i));
    }
  }

  lemma NewAnswers(h: Hist, x: Item, p: Hist, r: AgentResult)
    ensures p + [Result(r)] in Arrivals(h, x) <==> p == h && x == Result(r)
  {
    if p + [Result(r)] == h + [x] {
      SnocSame(p, Result(r), h, x);
    } else if p + [Result(r)] in Arrivals(h, x) {
      var i: nat :| i < x.n && p + [Result(r)] == h + [x] + [Child(i)];
      SnocSame(p, Result(r), h + [x], Child(i));
    }
  }

  /** A step of a thread keeps the shape, when its answer is recorded with it. */
  lemma MovedShaped(env: Env, s: Sys, h: Hist, x: Item, calls: map<Hist, Made>)
    requires Shaped(env, s) && h in s.now && !x.Child?
    requires Fits(env.program, h, x) && JoinHolds(env.program, s.passed, h, x)
    requires if x.Result? then h in calls && calls[h].result == x.result && calls == s.calls[h := calls[h]] else calls == s.calls
    ensures Shaped(env, Moved(s, h, x).(calls := calls))
  {
    var s' := Moved(s, h, x).(calls := calls);
    ArrivalsFit(env.program, s.passed, h, x);
    NotYetAnswered(env, s, h);
    forall p: Hist, r ensures p + [Result(r)] in s'.passed <==> AnsweredAs(s', p, r) {
      NewAnswers(h, x, p, r);
      assert p + [Result(r)] in s.passed <==> AnsweredAs(s, p, r);
    }
    forall g: Hist, y | g in s'.now && g + [y] in s'.passed ensures y.Child? {
      StaysFresh(env, s, h, x, g, y);
    }
  }

  lemma NotYetAnswered(env: Env, s: Sys, h: Hist)
    requires Shaped(env, s) && h in s.now
    ensures h !in s.calls
  {
    assert h in s.calls ==> AnsweredAs(s, h, s.calls[h].result);
  }

  lemma StepKeepsShape(env: Env, s: Sys, ev: Event)
    requires Shaped(env, s)
    ensures Shaped(env, Step(env, s, ev))
  {
    var h := ev.h;
    match ev {
      case Go(_) =>
        if CanGo(s, h) {
          match env.program(h) {
            case Ask(call, markers) =>
              var s' := GoOn(env, s, h);
              if h in s'.calls {
                MovedShaped(env, s, h, Result(s'.calls[h].result), s'.calls);
              }
            case Fork(n) => MovedShaped(env, s, h, Forked(n), s.calls);
            case _ =>
          }
        }
      case Join(_, trails) =>
        if CanJoin(env, s, h, trails) {
          MovedShaped(env, s, h, Joined(env.program(h).at, trails), s.calls);
        }
      case Answer(_, result, w) =>
        if h in s.waiting {
          MovedShaped(env, s, h, Result(result), Step(env, s, ev).calls);
        }
    }
  }

  // ----- keys are minted from histories ---------------------------------------------

  /** The histories after which a call was made, answered or not. */
  function Asked(s: Sys): set<Hist> { s.calls.Keys + s.waiting.Keys }

  function CallsFrom(program: Program, asked: set<Hist>, site: Site): set<Hist> {
    set p | p in asked && SiteAt(program, p) == Some(site)
  }

  ghost predicate CountedAt(program: Program, occ: map<string, nat>, asked: set<Hist>, site: Site) {
    CleanId(site.id) ==> Occ(occ, OccKey(site.id, site.scope)) == |CallsFrom(program, asked, site)|
  }

  /** The counters hold how many calls each site has made. */
  ghost predicate Counted(program: Program, occ: map<string, nat>, asked: set<Hist>) {
    forall site: Site :: CountedAt(program, occ, asked, site)
  }

  ghost predicate KeysHeld(env: Env, waiting: map<Hist, string>) {
    forall h :: h in waiting ==> waiting[h] == KeyAt(env.program, h)
  }

  ghost predicate SysOk(env: Env, s: Sys) {
    Shaped(env, s) && Counted(env.program, s.memo.occ, Asked(s)) && KeysHeld(env, s.waiting)
  }

  lemma RunAgreesWithItself(env: Env, s: Sys)
    requires Shaped(env, s)
    ensures AnswersAgree(s.passed, s.passed)
  {
    forall p: Hist, r, r' | p + [Result(r)] in s.passed && p + [Result(r')] in s.passed ensures r == r' {
      assert AnsweredAs(s, p, r) && AnsweredAs(s, p, r');
    }
  }

  /** What is in the past of a history was answered. */
  lemma PastWasAnswered(env: Env, s: Sys, h: Hist)
    requires Shaped(env, s) && h in s.passed
    ensures Past([], h) <= s.calls.Keys
  {
    assert [] + h == h;
    forall p | p in Past([], h) ensures p in s.calls {
      PastIn(env.program, s.passed, [], h, p);
      var r :| p + [Result(r)] in s.passed;
      assert AnsweredAs(s, p, r);
    }
  }

  lemma AnsweredAsked(env: Env, s: Sys, p: Hist)
    requires Shaped(env, s) && (p in s.calls || p in s.waiting)
    ensures p in s.passed && Asks(env.program, p)
  {
    if p in s.calls {
      assert AnsweredAs(s, p, s.calls[p].result);
      var now := p + [Result(s.calls[p].result)];
      assert now in s.passed && Front(now) == p && Last(now) == Result(s.calls[p].result);
    }
  }

  /** The calls counted for a site when a thread asks from it are the ones in its
      past. */
  lemma CountedIsPast(env: Env, s: Sys, h: Hist)
    requires WellScoped(env.program) && Shaped(env, s) && CanGo(s, h) && env.program(h).Ask?
    ensures CallsFrom(env.program, Asked(s), SiteAt(env.program, h).value) == SameSite(env.program, h)
  {
    var site := SiteAt(env.program, h).value;
    PastWasAnswered(env, s, h);
    NotYetAnswered(env, s, h);
    RunAgreesWithItself(env, s);
    forall p | p in CallsFrom(env.program, Asked(s), site) ensures p in Past([], h) {
      AnsweredAsked(env, s, p);
      PastWasAnswered(env, s, p);
      Related(env.program, s.passed, s.passed, p, h, 0);
      assert Distinguishes(env.program, p, h);
    }
  }

  /** The minted key is a function of what the thread has seen: no schedule and no
      other thread can change it. */
  lemma MintsItsOwnKey(env: Env, s: Sys, h: Hist)
    requires WellScoped(env.program) && SysOk(env, s) && CanGo(s, h) && env.program(h).Ask?
    ensures var move := env.program(h);
      Mint(s.memo, move.call.id, ScopeText(move.markers)).1 == KeyAt(env.program, h)
  {
    CountedIsPast(env, s, h);
    assert CountedAt(env.program, s.memo.occ, Asked(s), SiteAt(env.program, h).value);
  }

  /** One more call is counted for its own site, and for no other. */
  lemma CountOne(program: Program, occ: map<string, nat>, asked: set<Hist>, h: Hist, mine: Site)
    requires Counted(program, occ, asked) && h !in asked && SiteAt(program, h) == Some(mine) && CleanId(mine.id)
    ensures var k := OccKey(mine.id, mine.scope); Counted(program, occ[k := Occ(occ, k) + 1], asked + {h})
  {
    var k := OccKey(mine.id, mine.scope);
    var occ' := occ[k := Occ(occ, k) + 1];
    var asked' := asked + {h};
    forall site: Site ensures CountedAt(program, occ', asked', site) {
      assert CountedAt(program, occ, asked, site);
      if site == mine {
        assert CallsFrom(program, asked', site) == CallsFrom(program, asked, site) + {h};
      } else {
        assert CallsFrom(program, asked', site) == CallsFrom(program, asked, site);
        if CleanId(site.id) && OccKey(site.id, site.scope) == k {
          OccKeyInjective(site.id, site.scope, mine.id, mine.scope);
        }
      }
    }
  }

  lemma AskAdds(env: Env, s: Sys, h: Hist, site: Site)
    requires CanGo(s, h) && SiteAt(env.program, h) == Some(site)
    ensures var s' := Step(env, s, Go(h));
      Asked(s') == Asked(s) + {h} && s'.memo.occ == Mint(s.memo, site.id, site.scope).0.occ
  {
  }

  lemma AskKeepsOk(env: Env, s: Sys, h: Hist)
    requires WellScoped(env.program) && SysOk(env, s) && CanGo(s, h) && env.program(h).Ask?
    ensures SysOk(env, Step(env, s, Go(h)))
  {
    var site := SiteAt(env.program, h).value;
    StepKeepsShape(env, s, Go(h));
    AskHolds(env, s, h);
    NotYetAnswered(env, s, h);
    AskAdds(env, s, h, site);
    CountOne(env.program, s.memo.occ, Asked(s), h, site);
  }

  lemma AskHolds(env: Env, s: Sys, h: Hist)
    requires WellScoped(env.program) && SysOk(env, s) && CanGo(s, h) && env.program(h).Ask?
    ensures KeysHeld(env, Step(env, s, Go(h)).waiting)
  {
    MintsItsOwnKey(env, s, h);
  }

  /** No other step makes a call: a thread that waits for the live agent neither
      forks nor joins. */
  lemma OthersAskNothing(env: Env, s: Sys, ev: Event)
    requires Shaped(env, s) && !(ev.Go? && CanGo(s, ev.h) && env.program(ev.h).Ask?)
    ensures var s' := Step(env, s, ev);
      s'.memo.occ == s.memo.occ && Asked(s') == Asked(s) && (KeysHeld(env, s.waiting) ==> KeysHeld(env, s'.waiting))
  {
  }

  lemma StepKeepsOk(env: Env, s: Sys, ev: Event)
    requires WellScoped(env.program) && SysOk(env, s)
    ensures SysOk(env, Step(env, s, ev))
  {
    if ev.Go? && CanGo(s, ev.h) && env.program(ev.h).Ask? {
      AskKeepsOk(env, s, ev.h);
    } else {
      StepKeepsShape(env, s, ev);
      OthersAskNothing(env, s, ev);
    }
  }

  // ----- what the file will give back ---------------------------------------------

  /** What a cache answers for the call made after `h`. */
  function Answers(env: Env, h: Hist, cache: map<string, AgentResult>): Option<AgentResult> {
    var key := KeyAt(env.program, h);
    if env.program(h).Ask? && key in cache then Serve(env.extract, env.program(h).call, cache[key]) else None
  }

  /** The key belongs to a call that has been answered. */
  predicate Used(env: Env, calls: set<Hist>, key: string) { exists p :: p in calls && KeyAt(env.program, p) == key }

  predicate Same(a: map<string, AgentResult>, b: map<string, AgentResult>, key: string) {
    (key in a <==> key in b) && (key in a && key in b ==> a[key] == b[key])
  }

  /** The file answers the call with the result it had exactly if it is marked so. */
  predicate GivesBack(env: Env, p: Hist, made: Made, disk: map<string, AgentResult>) {
    made.kept <==> Answers(env, p, disk) == Some(made.result)
  }

  /** Keys without an answered call read alike in memory and on disk, unless a row
      of theirs was lost. */
  ghost predicate InStep(env: Env, calls: set<Hist>, lost: set<string>, cache: map<string, AgentResult>, disk: map<string, AgentResult>) {
    forall key :: key != TOMBSTONE && key !in lost && !Used(env, calls, key) ==> Same(cache, disk, key)
  }

  ghost predicate Gives(env: Env, calls: map<Hist, Made>, waiting: set<Hist>, lost: set<string>, disk: map<string, AgentResult>) {
    && (forall p :: p in calls && KeyAt(env.program, p) !in lost ==> GivesBack(env, p, calls[p], disk))
    && (forall h :: h in waiting && KeyAt(env.program, h) !in lost ==> Answers(env, h, disk).None?)
  }

  ghost predicate FileHolds(env: Env, m: Memo, calls: map<Hist, Made>, waiting: set<Hist>, lost: set<string>) {
    var disk := Load(env.codec, m.file);
    EdgeOk(env.codec, m.file) && InStep(env, calls.Keys, lost, m.cache, disk) && Gives(env, calls, waiting, lost, disk)
  }

  ghost predicate DiskOk(env: Env, s: Sys, lost: set<string>) { FileHolds(env, s.memo, s.calls, s.waiting.Keys, lost) }

  /** The two maps agree on every key but these. */
  ghost predicate SameBut(disk: map<string, AgentResult>, disk': map<string, AgentResult>, keys: set<string>) {
    forall q :: q !in keys && q != TOMBSTONE ==> Same(disk, disk', q)
  }

  /** The row is stored, and all of it reaches the file behind a clean end. */
  predicate Reaches(c: Codec<Row>, m: Memo, key: string, result: AgentResult, w: Write) {
    Persistable(PersistRow(result)) && Kept(c, m.file, Row(key, PersistRow(result)), w)
  }

  /** The key of the row that a glued write takes with it. */
  function LostBy(c: Codec<Row>, file: string, row: Row, w: Write): set<string> {
    var j := JournalOf(c, file);
    if Glues(file, c.stringify(row), w) && j.edge.Loose? && j.rows != [] then {j.rows[|j.rows| - 1].key} else {}
  }

  function StoreLoses(c: Codec<Row>, m: Memo, key: string, result: AgentResult, w: Write): set<string> {
    if Persistable(PersistRow(result)) then LostBy(c, m.file, Row(key, PersistRow(result)), w) else {}
  }

  lemma FoldLosesOne(rows: seq<Row>, q: string)
    requires rows != [] && rows[|rows| - 1].key != q
    ensures Same(Fold(rows), Fold(rows[..|rows| - 1]), q)
  {
  }

  lemma EarlierTouches(c: Codec<Row>, file: string, row: Row, w: Write, q: string)
    requires q !in LostBy(c, file, row, w)
    ensures Same(Load(c, file), Fold(Earlier(c, file, row, w)), q)
  {
    var j := JournalOf(c, file);
    if Glues(file, c.stringify(row), w) && j.edge.Loose? && j.rows != [] {
      FoldLosesOne(j.rows, q);
    }
  }

  /** An append touches its own key on disk, and that of a row it takes with it. */
  lemma AppendTouches(c: Codec<Row>, file: string, row: Row, w: Write)
    requires RecordLines(c) && EdgeOk(c, file) && row.key != ""
    ensures var file' := AppendRow(c, file, row, w);
      && EdgeOk(c, file')
      && (forall q :: q != row.key && q !in LostBy(c, file, row, w) ==> Same(Load(c, file), Load(c, file'), q))
      && (if Kept(c, file, row, w) then row.key in Load(c, file') && Load(c, file')[row.key] == row.result
          else row.key !in LostBy(c, file, row, w) ==> Same(Load(c, file), Load(c, file'), row.key))
  {
    AppendRowLoads(c, file, row, w);
    forall q | q !in LostBy(c, file, row, w) ensures Same(Load(c, file), Fold(Earlier(c, file, row, w)), q) {
      EarlierTouches(c, file, row, w, q);
    }
  }

  /** Storing an answer touches one key on disk, that of a row it takes with it, and
      at most the tombstone. */
  lemma StoreTouches(c: Codec<Row>, m: Memo, key: string, result: AgentResult, w: Write)
    requires RecordLines(c) && EdgeOk(c, m.file) && key != "" && key != TOMBSTONE
    ensures var disk, disk', lost := Load(c, m.file), Load(c, Store(c, m, key, result, w).file), StoreLoses(c, m, key, result, w);
      && EdgeOk(c, Store(c, m, key, result, w).file)
      && SameBut(disk, disk', {key} + lost)
      && (if Reaches(c, m, key, result, w) then key in disk' && disk'[key] == PersistRow(result)
          else key !in lost ==> Same(disk, disk', key))
  {
    var row := PersistRow(result);
    if Persistable(row) {
      AppendTouches(c, m.file, Row(key, row), w);
    } else if m.file == "" {
      AppendTouches(c, m.file, TOMBSTONE_ROW, w);
    }
  }

  lemma StoreCachesOneKey(c: Codec<Row>, m: Memo, key: string, result: AgentResult, w: Write)
    ensures SameBut(m.cache, Store(c, m, key, result, w).cache, {key})
  {
  }

  lemma KeyIsNoTombstone(program: Program, h: Hist)
    requires program(h).Ask?
    ensures KeyAt(program, h) != TOMBSTONE && KeyAt(program, h) != ""
  {
    var site := SiteAt(program, h).value;
    TombstoneIsNoKey(site.id, site.scope, |SameSite(program, h)| + 1);
  }

  lemma SameAnswers(env: Env, h: Hist, disk: map<string, AgentResult>, disk': map<string, AgentResult>, keys: set<string>)
    requires SameBut(disk, disk', keys) && KeyAt(env.program, h) !in keys
    ensures Answers(env, h, disk') == Answers(env, h, disk)
  {
    if env.program(h).Ask? {
      KeyIsNoTombstone(env.program, h);
      assert Same(disk, disk', KeyAt(env.program, h));
    }
  }

  /** Any two calls of a run have different keys. */
  lemma OwnKeys(env: Env, s: Sys, h: Hist, p: Hist)
    requires WellScoped(env.program) && Shaped(env, s) && h in s.passed && env.program(h).Ask? && h != p
    requires p in s.calls || p in s.waiting
    ensures KeyAt(env.program, p) != KeyAt(env.program, h)
  {
    RunAgreesWithItself(env, s);
    AnsweredAsked(env, s, p);
    DistinctKeys(env.program, s.passed, s.passed, p, h);
  }

  /** What the cache answers a new call is what the file would. */
  lemma CacheAnswersAsDisk(env: Env, s: Sys, lost: set<string>, h: Hist)
    requires WellScoped(env.program) && SysOk(env, s) && DiskOk(env, s, lost) && h in s.now && env.program(h).Ask?
    requires KeyAt(env.program, h) !in lost
    ensures Answers(env, h, s.memo.cache) == Answers(env, h, Load(env.codec, s.memo.file))
  {
    var key := KeyAt(env.program, h);
    KeyIsNoTombstone(env.program, h);
    NotYetAnswered(env, s, h);
    forall p | p in s.calls ensures KeyAt(env.program, p) != key {
      OwnKeys(env, s, h, p);
    }
    assert !Used(env, s.calls.Keys, key);
  }

  /** The answer to a call from memory, or nothing. */
  lemma AskAsks(env: Env, s: Sys, h: Hist)
    requires WellScoped(env.program) && SysOk(env, s) && CanGo(s, h) && env.program(h).Ask?
    ensures var (s', key, r) := (Step(env, s, Go(h)), KeyAt(env.program, h), Answers(env, h, s.memo.cache));
      && s'.memo == s.memo.(occ := s'.memo.occ)
      && (if r.Some? then s'.calls == s.calls[h := Made(r.value, false, true)] && s'.waiting == s.waiting - {h}
          else s'.calls == s.calls && s'.waiting == s.waiting[h := key])
  {
    MintsItsOwnKey(env, s, h);
  }

  lemma AskKeepsDisk(env: Env, s: Sys, lost: set<string>, h: Hist)
    requires WellScoped(env.program) && SysOk(env, s) && DiskOk(env, s, lost) && CanGo(s, h) && env.program(h).Ask?
    ensures DiskOk(env, Step(env, s, Go(h)), lost)
  {
    var s', r := Step(env, s, Go(h)), Answers(env, h, s.memo.cache);
    AskAsks(env, s, h);
    if KeyAt(env.program, h) !in lost {
      CacheAnswersAsDisk(env, s, lost, h);
    }
    if r.Some? {
      MoreAreUsed(env, s.calls.Keys, s'.calls.Keys, lost, s.memo.cache, Load(env.codec, s.memo.file));
    }
    AskIsGiven(env, s.memo, s.calls, s.waiting.Keys, lost, h, r);
    assert s'.memo.file == s.memo.file && s'.memo.cache == s.memo.cache;
  }

  lemma AskIsGiven(env: Env, m: Memo, calls: map<Hist, Made>, waiting: set<Hist>, lost: set<string>, h: Hist, r: Option<AgentResult>)
    requires FileHolds(env, m, calls, waiting, lost)
    requires KeyAt(env.program, h) !in lost ==> r == Answers(env, h, Load(env.codec, m.file))
    ensures var disk := Load(env.codec, m.file);
      if r.Some? then Gives(env, calls[h := Made(r.value, false, true)], waiting - {h}, lost, disk)
      else Gives(env, calls, waiting + {h}, lost, disk)
  {
  }

  lemma MoreAreUsed(env: Env, calls: set<Hist>, calls': set<Hist>, lost: set<string>, cache: map<string, AgentResult>, disk: map<string, AgentResult>)
    requires InStep(env, calls, lost, cache, disk) && calls <= calls'
    ensures InStep(env, calls', lost, cache, disk)
  {
  }

  /** The new row is on disk, or the disk does not answer the call. */
  lemma AnswererIsGiven(env: Env, m: Memo, h: Hist, result: AgentResult, w: Write)
    requires RecordLines(env.codec) && EdgeOk(env.codec, m.file) && env.program(h).Ask?
    requires Answers(env, h, Load(env.codec, m.file)).None?
    requires KeyAt(env.program, h) !in StoreLoses(env.codec, m, KeyAt(env.program, h), result, w)
    ensures var key := KeyAt(env.program, h);
      var kept := Replayable(result) && Kept(env.codec, m.file, Row(key, PersistRow(result)), w);
      GivesBack(env, h, Made(result, true, kept), Load(env.codec, Store(env.codec, m, key, result, w).file))
  {
    KeyIsNoTombstone(env.program, h);
    StoreTouches(env.codec, m, KeyAt(env.program, h), result, w);
    ReplayableExactly(env.extract, env.program(h).call, result);
  }

  lemma OthersAreGiven(env: Env, s: Sys, lost: set<string>, more: set<string>, h: Hist, made: Made,
                       disk: map<string, AgentResult>, disk': map<string, AgentResult>)
    requires WellScoped(env.program) && Shaped(env, s) && h in s.waiting && Gives(env, s.calls, s.waiting.Keys, lost, disk)
    requires SameBut(disk, disk', {KeyAt(env.program, h)} + more)
    requires KeyAt(env.program, h) !in lost + more ==> GivesBack(env, h, made, disk')
    ensures Gives(env, s.calls[h := made], s.waiting.Keys - {h}, lost + more, disk')
  {
    var keys := {KeyAt(env.program, h)} + more;
    forall p | p in s.calls && p != h && KeyAt(env.program, p) !in lost + more ensures GivesBack(env, p, s.calls[p], disk') {
      OwnKeys(env, s, h, p);
      SameAnswers(env, p, disk, disk', keys);
    }
    forall p | p in s.waiting && p != h && KeyAt(env.program, p) !in lost + more ensures Answers(env, p, disk').None? {
      OwnKeys(env, s, h, p);
      SameAnswers(env, p, disk, disk', keys);
    }
  }

  /** What an answer leaves. */
  lemma AnswerAnswers(env: Env, s: Sys, h: Hist, result: AgentResult, w: Write) returns (made: Made)
    requires SysOk(env, s) && h in s.waiting
    ensures var (s', key) := (Step(env, s, Answer(h, result, w)), KeyAt(env.program, h));
      && made == Made(result, true, Replayable(result) && Kept(env.codec, s.memo.file, Row(key, PersistRow(result)), w))
      && s'.memo == Store(env.codec, s.memo, key, result, w)
      && s'.calls == s.calls[h := made] && s'.waiting == s.waiting - {h}
  {
    made := Step(env, s, Answer(h, result, w)).calls[h];
  }

  /** The keys whose newest row an event takes with it. */
  function LostIn1(env: Env, s: Sys, ev: Event): set<string> {
    if ev.Answer? && ev.h in s.waiting then StoreLoses(env.codec, s.memo, s.waiting[ev.h], ev.result, ev.w) else {}
  }

  lemma AnswerKeepsDisk(env: Env, s: Sys, lost: set<string>, h: Hist, result: AgentResult, w: Write)
    requires RecordLines(env.codec) && WellScoped(env.program) && SysOk(env, s) && DiskOk(env, s, lost) && h in s.waiting
    ensures DiskOk(env, Step(env, s, Answer(h, result, w)), lost + LostIn1(env, s, Answer(h, result, w)))
  {
    var made := AnswerAnswers(env, s, h, result, w);
    assert (s.waiting - {h}).Keys == s.waiting.Keys - {h} && s.calls[h := made].Keys == s.calls.Keys + {h};
    AnsweredIsGiven(env, s, lost, h, result, w, made);
    AnsweredInStep(env, s.memo, s.calls.Keys, lost, h, result, w);
  }

  lemma AnsweredIsGiven(env: Env, s: Sys, lost: set<string>, h: Hist, result: AgentResult, w: Write, made: Made)
    requires RecordLines(env.codec) && WellScoped(env.program) && Shaped(env, s) && DiskOk(env, s, lost) && h in s.waiting
    requires var key := KeyAt(env.program, h);
      made == Made(result, true, Replayable(result) && Kept(env.codec, s.memo.file, Row(key, PersistRow(result)), w))
    ensures var (key, m) := (KeyAt(env.program, h), s.memo);
      var m' := Store(env.codec, m, key, result, w);
      Gives(env, s.calls[h := made], s.waiting.Keys - {h}, lost + StoreLoses(env.codec, m, key, result, w), Load(env.codec, m'.file))
  {
    var key := KeyAt(env.program, h);
    var m', more := Store(env.codec, s.memo, key, result, w), StoreLoses(env.codec, s.memo, key, result, w);
    KeyIsNoTombstone(env.program, h);
    StoreTouches(env.codec, s.memo, key, result, w);
    if key !in lost + more {
      AnswererIsGiven(env, s.memo, h, result, w);
    }
    OthersAreGiven(env, s, lost, more, h, made, Load(env.codec, s.memo.file), Load(env.codec, m'.file));
  }

  lemma AnsweredInStep(env: Env, m: Memo, calls: set<Hist>, lost: set<string>, h: Hist, result: AgentResult, w: Write)
    requires RecordLines(env.codec) && EdgeOk(env.codec, m.file) && env.program(h).Ask?
    requires InStep(env, calls, lost, m.cache, Load(env.codec, m.file))
    ensures var key := KeyAt(env.program, h); var m' := Store(env.codec, m, key, result, w);
      && EdgeOk(env.codec, m'.file)
      && InStep(env, calls + {h}, lost + StoreLoses(env.codec, m, key, result, w), m'.cache, Load(env.codec, m'.file))
  {
    var key := KeyAt(env.program, h);
    var m' := Store(env.codec, m, key, result, w);
    KeyIsNoTombstone(env.program, h);
    StoreTouches(env.codec, m, key, result, w);
    StoreCachesOneKey(env.codec, m, key, result, w);
    StoreStaysInStep(env, calls, lost, StoreLoses(env.codec, m, key, result, w), h, m.cache, m'.cache, Load(env.codec, m.file), Load(env.codec, m'.file));
  }

  lemma StoreStaysInStep(env: Env, calls: set<Hist>, lost: set<string>, more: set<string>, h: Hist,
                         cache: map<string, AgentResult>, cache': map<string, AgentResult>,
                         disk: map<string, AgentResult>, disk': map<string, AgentResult>)
    requires InStep(env, calls, lost, cache, disk)
    requires SameBut(disk, disk', {KeyAt(env.program, h)} + more) && SameBut(cache, cache', {KeyAt(env.program, h)})
    ensures InStep(env, calls + {h}, lost + more, cache', disk')
  {
    forall key | key != TOMBSTONE && key !in lost + more && !Used(env, calls + {h}, key) ensures Same(cache', disk', key) {
      assert h in calls + {h};
      assert Same(cache, disk, key) && Same(disk, disk', key) && Same(cache, cache', key);
    }
  }

  lemma StepKeepsDisk(env: Env, s: Sys, lost: set<string>, ev: Event)
    requires RecordLines(env.codec) && WellScoped(env.program) && SysOk(env, s) && DiskOk(env, s, lost)
    ensures DiskOk(env, Step(env, s, ev), lost + LostIn1(env, s, ev))
  {
    assert lost + {} == lost;
    if ev.Go? && CanGo(s, ev.h) && env.program(ev.h).Ask? {
      AskKeepsDisk(env, s, lost, ev.h);
    } else if ev.Answer? && ev.h in s.waiting {
      AnswerKeepsDisk(env, s, lost, ev.h, ev.result, ev.w);
    } else {
      OthersStoreNothing(env, s, ev);
    }
  }

  lemma OthersStoreNothing(env: Env, s: Sys, ev: Event)
    requires !(ev.Go? && CanGo(s, ev.h) && env.program(ev.h).Ask?) && !(ev.Answer? && ev.h in s.waiting)
    ensures var s' := Step(env, s, ev); s'.memo == s.memo && s'.calls == s.calls && s'.waiting.Keys <= s.waiting.Keys
  {
  }

  /** The keys whose newest row was lost on the way: it had no line break, the one
      that would have healed it could not be written, and the next row was. */
  function LostIn(env: Env, s: Sys, events: seq<Event>): set<string>
    decreases |events|
  {
    if events == [] then {} else LostIn1(env, s, events[0]) + LostIn(env, Step(env, s, events[0]), events[1..])
  }

  lemma {:induction false} RunHoldsDisk(env: Env, s: Sys, lost: set<string>, events: seq<Event>)
    requires RecordLines(env.codec) && WellScoped(env.program) && SysOk(env, s) && DiskOk(env, s, lost)
    ensures SysOk(env, Run(env, s, events)) && DiskOk(env, Run(env, s, events), lost + LostIn(env, s, events))
    decreases |events|
  {
    if events == [] {
      assert lost + {} == lost;
    } else {
      var more := LostIn1(env, s, events[0]);
      StepKeepsOk(env, s, events[0]);
      StepKeepsDisk(env, s, lost, events[0]);
      RunHoldsDisk(env, Step(env, s, events[0]), lost + more, events[1..]);
      assert lost + more + LostIn(env, Step(env, s, events[0]), events[1..]) == lost + LostIn(env, s, events);
    }
  }

  lemma BootIsOk(env: Env, file: string)
    ensures SysOk(env, Boot(env, file))
    ensures EdgeOk(env.codec, file) ==> DiskOk(env, Boot(env, file), {})
  {
    var s := Boot(env, file);
    forall p: Hist, r ensures p + [Result(r)] in s.passed <==> AnsweredAs(s, p, r) {
      assert |p + [Result(r)]| > 0;
    }
    forall h: Hist, x: Item ensures h + [x] !in s.passed {
      assert |h + [x]| > 0;
    }
    forall site: Site ensures CountedAt(env.program, s.memo.occ, Asked(s), site) {
      assert CallsFrom(env.program, Asked(s), site) == {};
    }
  }

  /** The answered calls whose result the file would give back. */
  function Given(env: Env, s: Sys): set<Hist> {
    var disk := Load(env.codec, s.memo.file);
    set p | p in s.calls && Answers(env, p, disk) == Some(s.calls[p].result)
  }

  /** At every moment of a run, whatever the schedule and wherever its writes are cut
      or lost, the file would give back exactly the results marked as kept, but for
      calls whose row was lost. */
  lemma RunKeepsDisk(env: Env, file: string, events: seq<Event>, p: Hist)
    requires RecordLines(env.codec) && WellScoped(env.program) && EdgeOk(env.codec, file)
    ensures var s := Run(env, Boot(env, file), events);
      p in s.calls && KeyAt(env.program, p) !in LostIn(env, Boot(env, file), events) ==>
        (p in Given(env, s) <==> s.calls[p].kept)
  {
    BootIsOk(env, file);
    RunHoldsDisk(env, Boot(env, file), {}, events);
    assert {} + LostIn(env, Boot(env, file), events) == LostIn(env, Boot(env, file), events);
  }

  // ----- the second run -------------------------------------------------------------

  /** Every call in the causal past of the history is given back: the earlier calls
      of its thread and of its parents, and those of the children they awaited. */
  predicate Followed(given: set<Hist>, h: Hist) { Past([], h) <= given }

  /** Where the second run makes a call that the first one made, it is given the
      same result without a live call if the file gives it back, and not otherwise. */
  predicate Repeats(first: Sys, given: set<Hist>, s: Sys, p: Hist) {
    p in first.calls && Followed(given, p) ==>
      && (p in s.calls && p in given ==> s.calls[p].result == first.calls[p].result && !s.calls[p].live)
      && (p in s.calls && p !in given ==> s.calls[p].live || s.calls[p].result != first.calls[p].result)
      && (p in s.waiting ==> p !in given)
  }

  /** The cache in memory answers what is owed, and no call it does not owe until
      that call has been made. */
  predicate StillAnswers(env: Env, first: Sys, given: set<Hist>, calls: set<Hist>, cache: map<string, AgentResult>, p: Hist) {
    p in first.calls && Followed(given, p) ==>
      && (p in given ==> Answers(env, p, cache) == Some(first.calls[p].result))
      && (p !in given && p !in calls ==> Answers(env, p, cache) != Some(first.calls[p].result))
  }

  ghost predicate Replaying(env: Env, first: Sys, given: set<Hist>, s: Sys) {
    && (forall p :: Repeats(first, given, s, p))
    && (forall p :: StillAnswers(env, first, given, s.calls.Keys, s.memo.cache, p))
  }

  /** The part of the first run that is given back. */
  function Good(first: Sys, given: set<Hist>): set<Hist> { set h | h in first.passed && Followed(given, h) }

  lemma GoodIsAFamily(env: Env, first: Sys, given: set<Hist>)
    requires Shaped(env, first)
    ensures Family(env.program, Good(first, given))
  {
    forall h | h in Good(first, given) && h != []
      ensures Front(h) in Good(first, given) && JoinHolds(env.program, Good(first, given), Front(h), Last(h))
    {
      assert h[..|h| - 1] == Front(h);
      PastGrows([], h, |h| - 1);
      if Last(h).Joined? {
        JoinIsGood(env, first, given, h);
      }
    }
  }

  lemma JoinIsGood(env: Env, first: Sys, given: set<Hist>, h: Hist)
    requires Shaped(env, first) && h in Good(first, given) && h != [] && Last(h).Joined?
    ensures JoinHolds(env.program, Good(first, given), Front(h), Last(h))
  {
    var x := Last(h);
    assert JoinHolds(env.program, first.passed, Front(h), x);
    forall i | 0 <= i < |x.trails| ensures Ended(env.program, Good(first, given), Birth(Front(h), x.at, i), x.trails[i].items) {
      var birth, trail := Birth(Front(h), x.at, i), x.trails[i].items;
      assert Ended(env.program, first.passed, birth, trail);
      PastOfChild(h, i);
    }
  }

  /** All that is in the past of an awaited child's end is in the past of the join. */
  lemma PastOfChild(h: Hist, i: nat)
    requires h != [] && Last(h).Joined? && i < |Last(h).trails|
    ensures Past([], Birth(Front(h), Last(h).at, i) + Last(h).trails[i].items) <= Past([], h)
  {
    var n, birth, trail := |h| - 1, Birth(Front(h), Last(h).at, i), Last(h).trails[i].items;
    assert h[..n] == Front(h) && [] + Front(h) == Front(h) && [] + birth == birth;
    PastConcat([], birth, trail);
    PastOfBirth(Front(h), Last(h).at, i);
    PastGrows([], h, n);
    JoinedBefore([], h, n, i);
  }

  /** Wherever both runs asked, they got the same answers. */
  lemma RunsAgree(env: Env, first: Sys, given: set<Hist>, s: Sys)
    requires Shaped(env, first) && Shaped(env, s) && Replaying(env, first, given, s)
    ensures AnswersAgree(Good(first, given), s.passed)
  {
    forall p: Hist, r, r' | p + [Result(r)] in Good(first, given) && p + [Result(r')] in s.passed ensures r == r' {
      assert AnsweredAs(first, p, r) && AnsweredAs(s, p, r');
      var now := p + [Result(r)];
      assert now[..|p|] == p && now[|p|] == Result(r) && [] + p == p;
      AskedBefore([], now, |p|);
      PastGrows([], now, |p|);
      assert Repeats(first, given, s, p);
    }
  }

  /** A call of the second run overwrites no row that the first run is still owed. */
  lemma OtherRow(env: Env, first: Sys, given: set<Hist>, s: Sys, h: Hist, p: Hist)
    requires WellScoped(env.program) && Shaped(env, first) && Shaped(env, s) && Replaying(env, first, given, s)
    requires h in s.passed && env.program(h).Ask? && p in first.calls && Followed(given, p) && p != h
    ensures KeyAt(env.program, p) != KeyAt(env.program, h)
  {
    GoodIsAFamily(env, first, given);
    RunsAgree(env, first, given, s);
    AnsweredAsked(env, first, p);
    DistinctKeys(env.program, Good(first, given), s.passed, p, h);
  }

  lemma AskReplays(env: Env, first: Sys, given: set<Hist>, s: Sys, h: Hist)
    requires WellScoped(env.program) && SysOk(env, s) && Replaying(env, first, given, s) && CanGo(s, h) && env.program(h).Ask?
    ensures Replaying(env, first, given, Step(env, s, Go(h)))
  {
    var s' := Step(env, s, Go(h));
    AskAsks(env, s, h);
    NotYetAnswered(env, s, h);
    assert StillAnswers(env, first, given, s.calls.Keys, s.memo.cache, h);
    forall p ensures Repeats(first, given, s', p) {
      assert Repeats(first, given, s, p);
    }
    forall p ensures StillAnswers(env, first, given, s'.calls.Keys, s'.memo.cache, p) {
      assert StillAnswers(env, first, given, s.calls.Keys, s.memo.cache, p);
    }
  }

  lemma AnswerReplays(env: Env, first: Sys, given: set<Hist>, s: Sys, h: Hist, result: AgentResult, w: Write)
    requires WellScoped(env.program) && Shaped(env, first) && SysOk(env, s) && Replaying(env, first, given, s) && h in s.waiting
    ensures Replaying(env, first, given, Step(env, s, Answer(h, result, w)))
  {
    var s' := Step(env, s, Answer(h, result, w));
    var made := AnswerAnswers(env, s, h, result, w);
    StoreCachesOneKey(env.codec, s.memo, KeyAt(env.program, h), result, w);
    assert Repeats(first, given, s, h);
    forall p ensures Repeats(first, given, s', p) {
      assert Repeats(first, given, s, p);
    }
    forall p ensures StillAnswers(env, first, given, s'.calls.Keys, s'.memo.cache, p) {
      assert StillAnswers(env, first, given, s.calls.Keys, s.memo.cache, p);
      if p in first.calls && Followed(given, p) && p != h {
        OtherRow(env, first, given, s, h, p);
        SameAnswers(env, p, s.memo.cache, s'.memo.cache, {KeyAt(env.program, h)});
      }
    }
  }

  lemma OthersReplay(env: Env, first: Sys, given: set<Hist>, s: Sys, ev: Event)
    requires Replaying(env, first, given, s)
    requires !(ev.Go? && CanGo(s, ev.h) && env.program(ev.h).Ask?) && !(ev.Answer? && ev.h in s.waiting)
    ensures Replaying(env, first, given, Step(env, s, ev))
  {
    var s' := Step(env, s, ev);
    OthersStoreNothing(env, s, ev);
    forall p ensures Repeats(first, given, s', p) {
      assert Repeats(first, given, s, p);
    }
    forall p ensures StillAnswers(env, first, given, s'.calls.Keys, s'.memo.cache, p) {
      assert StillAnswers(env, first, given, s.calls.Keys, s.memo.cache, p);
    }
  }

  lemma {:induction false} RunReplays(env: Env, first: Sys, given: set<Hist>, s: Sys, events: seq<Event>)
    requires WellScoped(env.program) && Shaped(env, first) && SysOk(env, s) && Replaying(env, first, given, s)
    ensures SysOk(env, Run(env, s, events)) && Replaying(env, first, given, Run(env, s, events))
    decreases |events|
  {
    if events != [] {
      var ev := events[0];
      StepKeepsOk(env, s, ev);
      if ev.Go? && CanGo(s, ev.h) && env.program(ev.h).Ask? {
        AskReplays(env, first, given, s, ev.h);
      } else if ev.Answer? && ev.h in s.waiting {
        AnswerReplays(env, first, given, s, ev.h, ev.result, ev.w);
      } else {
        OthersReplay(env, first, given, s, ev);
      }
      RunReplays(env, first, given, Step(env, s, ev), events[1..]);
    }
  }

  lemma SecondRunStarts(env: Env, first: Sys)
    ensures Replaying(env, first, Given(env, first), Boot(env, first.memo.file))
  {
  }

  /** A thread that is given back up to `b + xs` is on the same way in the second run. */
  ghost predicate OnTheWay(first: Sys, given: set<Hist>, s: Sys, b: Hist, xs: Hist, ys: Hist) {
    b + xs in first.passed && Followed(given, b + xs) && b + ys in s.passed && NoChild(xs) && NoChild(ys) ==> xs <= ys || ys <= xs
  }

  /** Replay fidelity. A run starts on any log file, is interrupted at any event
      with writes lost or cut at any byte, and the workflow is run again, under any
      other schedule, on the file that was left. Every call of the first run whose
      causal past the file gives back is answered in the second, when it makes it,
      with the same result and without a live call if the file gives it back too,
      and not if it does not; and such a thread sees in the second run what it saw
      in the first, as far as it has come. Which calls the file gives back is what
      `RunKeepsDisk` and `KeptExactly` say. */
  lemma ReplayIsFaithful(env: Env, file: string, events: seq<Event>, again: seq<Event>)
    requires WellScoped(env.program)
    ensures var first := Run(env, Boot(env, file), events);
      var second := Run(env, Boot(env, first.memo.file), again);
      var given := Given(env, first);
      && (forall p :: Repeats(first, given, second, p))
      && (forall b, xs, ys :: OnTheWay(first, given, second, b, xs, ys))
  {
    var first := Run(env, Boot(env, file), events);
    var given := Given(env, first);
    var second := Run(env, Boot(env, first.memo.file), again);
    RunsAreOk(env, file, events, again);
    GoodIsAFamily(env, first, given);
    RunsAgree(env, first, given, second);
    forall b, xs, ys ensures OnTheWay(first, given, second, b, xs, ys) {
      if b + xs in Good(first, given) && b + ys in second.passed && NoChild(xs) && NoChild(ys) {
        SameWay(env.program, Good(first, given), second.passed, b, xs, ys, 0);
      }
    }
  }

  lemma {:induction false} RunKeepsOk(env: Env, s: Sys, events: seq<Event>)
    requires WellScoped(env.program) && SysOk(env, s)
    ensures SysOk(env, Run(env, s, events))
    decreases |events|
  {
    if events != [] {
      StepKeepsOk(env, s, events[0]);
      RunKeepsOk(env, Step(env, s, events[0]), events[1..]);
    }
  }

  lemma RunsAreOk(env: Env, file: string, events: seq<Event>, again: seq<Event>)
    requires WellScoped(env.program)
    ensures var first := Run(env, Boot(env, file), events);
      var second := Run(env, Boot(env, first.memo.file), again);
      Shaped(env, first) && Shaped(env, second) && Replaying(env, first, Given(env, first), second)
  {
    var first := Run(env, Boot(env, file), events);
    BootIsOk(env, file);
    RunKeepsOk(env, Boot(env, file), events);
    SecondRunStarts(env, first);
    BootIsOk(env, first.memo.file);
    RunReplays(env, first, Given(env, first), Boot(env, first.memo.file), again);
  }

  // ----- and it gets that far ---------------------------------------------------------

  predicate Leads(passed: set<Hist>, h: Hist, x: Item) { !x.Child? && h + [x] in passed }

  /** A thread stands where it is or has gone on, and a fork bears its children. */
  ghost predicate Grown(now: set<Hist>, passed: set<Hist>) {
    && (forall h :: h in passed ==> h in now || exists x :: Leads(passed, h, x))
    && (forall h: Hist, i: nat :: h in passed && h != [] && Last(h).Forked? && i < Last(h).n ==> h + [Child(i)] in passed)
  }

  lemma BirthIsNoFork(h: Hist, n: nat, g: Hist)
    requires g in Births(h, n)
    ensures g != [] && !Last(g).Forked?
  {
  }

  lemma MovedGrows(now: set<Hist>, passed: set<Hist>, h: Hist, x: Item)
    requires Grown(now, passed) && h in now && !x.Child?
    ensures Grown(now - {h} + Arrivals(h, x), passed + Arrivals(h, x))
  {
    var now', passed', next := now - {h} + Arrivals(h, x), passed + Arrivals(h, x), h + [x];
    assert Leads(passed', h, x) && Last(next) == x;
    forall g | g in passed' ensures g in now' || exists y :: Leads(passed', g, y) {
      if g in passed && g != h && g !in now {
        var y :| Leads(passed, g, y);
        assert Leads(passed', g, y);
      }
    }
    forall g: Hist, i: nat | g in passed' && g != [] && Last(g).Forked? && i < Last(g).n
      ensures g + [Child(i)] in passed'
    {
      if x.Forked? && g in Births(next, x.n) {
        BirthIsNoFork(next, x.n, g);
      }
    }
  }

  lemma StepGrows(env: Env, s: Sys, ev: Event)
    requires Shaped(env, s) && Grown(s.now, s.passed)
    ensures var s' := Step(env, s, ev); Grown(s'.now, s'.passed)
  {
    var h, s' := ev.h, Step(env, s, ev);
    if h in s.now {
      NotYetAnswered(env, s, h);
      if h in s'.calls {
        MovedGrows(s.now, s.passed, h, Result(s'.calls[h].result));
      } else if env.program(h).Fork? {
        MovedGrows(s.now, s.passed, h, Forked(env.program(h).n));
      } else if ev.Join? && env.program(h).Await? {
        MovedGrows(s.now, s.passed, h, Joined(env.program(h).at, ev.trails));
      }
    }
  }

  lemma {:induction false} RunGrows(env: Env, s: Sys, events: seq<Event>)
    requires Shaped(env, s) && Grown(s.now, s.passed)
    ensures Shaped(env, Run(env, s, events)) && Grown(Run(env, s, events).now, Run(env, s, events).passed)
    decreases |events|
  {
    if events != [] {
      StepKeepsShape(env, s, events[0]);
      StepGrows(env, s, events[0]);
      RunGrows(env, Step(env, s, events[0]), events[1..]);
    }
  }

  /** Nothing can happen any more but answers of the live agent. */
  ghost predicate OnlyWaits(env: Env, s: Sys) {
    && (forall h :: h in s.now && (env.program(h).Ask? || env.program(h).Fork?) ==> h in s.waiting)
    && (forall h, trails :: !CanJoin(env, s, h, trails))
  }

  /** A thread that has come as far as `Front(h)` has come as far as `h`. */
  lemma ComesThrough(env: Env, first: Sys, given: set<Hist>, s: Sys, h: Hist)
    requires Shaped(env, first) && Shaped(env, s) && Replaying(env, first, given, s) && Grown(s.now, s.passed) && OnlyWaits(env, s)
    requires h in Good(first, given) && h != [] && Front(h) in s.passed
    requires JoinHolds(env.program, s.passed, Front(h), Last(h))
    ensures h in s.passed
  {
    var g, x := Front(h), Last(h);
    assert h == g + [x];
    GoodIsAFamily(env, first, given);
    if !x.Child? {
      GoesOn(env, first, given, s, g, x);
      RunsAgree(env, first, given, s);
      SameStepTaken(env.program, Good(first, given), s, g, x);
    }
  }

  /** A thread that has gone on has made the step it made in the other run. */
  lemma SameStepTaken(program: Program, A: set<Hist>, s: Sys, g: Hist, x: Item)
    requires Family(program, A) && Family(program, s.passed) && AnswersAgree(A, s.passed) && Grown(s.now, s.passed)
    requires g + [x] in A && g in s.passed && g !in s.now && !x.Child?
    requires Fits(program, g, x) && JoinHolds(program, A, g, x)
    ensures g + [x] in s.passed
  {
    var y :| Leads(s.passed, g, y);
    assert Front(g + [y]) == g && Last(g + [y]) == y;
    SameStep(program, A, s.passed, g, x, y);
  }

  /** No thread stops short of what was kept. */
  lemma GoesOn(env: Env, first: Sys, given: set<Hist>, s: Sys, g: Hist, x: Item)
    requires Shaped(env, first) && Shaped(env, s) && Replaying(env, first, given, s) && OnlyWaits(env, s)
    requires g + [x] in Good(first, given) && !x.Child? && Fits(env.program, g, x) && JoinHolds(env.program, s.passed, g, x)
    ensures g !in s.now
  {
    var h := g + [x];
    assert h[..|g|] == g && h[|g|] == x && [] + g == g;
    PastGrows([], h, |g|);
    if x.Result? {
      AskedBefore([], h, |g|);
      assert Repeats(first, given, s, g);
    } else if x.Joined? {
      assert CanJoin(env, s, g, x.trails) <==> g in s.now;
    }
  }

  lemma LighterTrail(h: Hist, i: nat)
    requires h != [] && Last(h).Joined? && i < |Last(h).trails|
    ensures Weight(Birth(Front(h), Last(h).at, i) + Last(h).trails[i].items) < Weight(h)
  {
    var birth, trail := Birth(Front(h), Last(h).at, i), Last(h).trails[i].items;
    WeightConcat(birth, trail);
    BirthWeight(Front(h), Last(h).at, i);
    HeavyHolds(Last(h).trails, i);
  }

  lemma {:induction false} AllComeThrough(env: Env, first: Sys, given: set<Hist>, s: Sys, h: Hist)
    requires Shaped(env, first) && Shaped(env, s) && Replaying(env, first, given, s) && Grown(s.now, s.passed) && OnlyWaits(env, s)
    requires h in Good(first, given) && [] in s.passed
    ensures h in s.passed
    decreases Weight(h)
  {
    if h != [] {
      var g, x := Front(h), Last(h);
      GoodIsAFamily(env, first, given);
      AllComeThrough(env, first, given, s, g);
      if x.Joined? {
        forall i | 0 <= i < |x.trails| ensures Ended(env.program, s.passed, Birth(g, x.at, i), x.trails[i].items) {
          assert Ended(env.program, Good(first, given), Birth(g, x.at, i), x.trails[i].items);
          LighterTrail(h, i);
          AllComeThrough(env, first, given, s, Birth(g, x.at, i) + x.trails[i].items);
        }
      }
      ComesThrough(env, first, given, s, h);
    }
  }

  lemma {:induction false} RootStays(env: Env, s: Sys, events: seq<Event>)
    requires [] in s.passed
    ensures [] in Run(env, s, events).passed
    decreases |events|
  {
    if events != [] {
      RootStays(env, Step(env, s, events[0]), events[1..]);
    }
  }

  /** The second run gets that far: when it can only wait for live answers, every
      history of the first run whose causal past the file gives back has been passed
      again, and so every call in one of them that it gives back has been answered. */
  lemma ReplayIsComplete(env: Env, file: string, events: seq<Event>, again: seq<Event>, h: Hist)
    requires WellScoped(env.program)
    requires OnlyWaits(env, Run(env, Boot(env, Run(env, Boot(env, file), events).memo.file), again))
    ensures var first := Run(env, Boot(env, file), events);
      var second := Run(env, Boot(env, first.memo.file), again);
      var given := Given(env, first);
      h in first.passed && Followed(given, h) ==>
        && h in second.passed
        && (h in given ==> h in second.calls && second.calls[h].result == first.calls[h].result && !second.calls[h].live)
  {
    var first := Run(env, Boot(env, file), events);
    RunsAreOk(env, file, events, again);
    BootIsOk(env, first.memo.file);
    RunGrows(env, Boot(env, first.memo.file), again);
    RootStays(env, Boot(env, first.memo.file), again);
    if h in Good(first, Given(env, first)) {
      KeptComesBack(env, first, Given(env, first), Run(env, Boot(env, first.memo.file), again), h);
    }
  }

  lemma KeptComesBack(env: Env, first: Sys, given: set<Hist>, s: Sys, h: Hist)
    requires Shaped(env, first) && Shaped(env, s) && Replaying(env, first, given, s) && Grown(s.now, s.passed) && OnlyWaits(env, s)
    requires h in Good(first, given) && [] in s.passed
    ensures h in s.passed
    ensures h in first.calls && h in given ==>
      h in s.calls && s.calls[h].result == first.calls[h].result && !s.calls[h].live
  {
    AllComeThrough(env, first, given, s, h);
    if h in first.calls && h in given {
      var r := first.calls[h].result;
      var now := h + [Result(r)];
      assert AnsweredAs(first, h, r);
      assert Front(now) == h && Last(now) == Result(r) && [] + h == h;
      AllComeThrough(env, first, given, s, now);
      assert AnsweredAs(s, h, r);
      assert Repeats(first, given, s, h);
    }
  }

  // ----- what is kept ------------------------------------------------------------------

  /** The answer can be replayed, and its row reaches the file whole, behind a clean
      end or the healing line break. */
  predicate Reloads(env: Env, s: Sys, ev: Event)
    requires ev.Answer? && ev.h in s.waiting
  {
    Replayable(ev.result) && Kept(env.codec, s.memo.file, Row(s.waiting[ev.h], PersistRow(ev.result)), ev.w)
  }

  /** A live result is marked as kept exactly when it can be replayed and its row can
      be read; a result from the cache always is, and carries no error. */
  lemma KeptExactly(env: Env, s: Sys, ev: Event)
    requires ev.h !in s.calls && ev.h in Step(env, s, ev).calls
    ensures var made := Step(env, s, ev).calls[ev.h];
      && made.live == ev.Answer?
      && (ev.Go? ==> made.kept && !Truthy(made.result.error))
      && (ev.Answer? ==> ev.h in s.waiting && made.result == ev.result && (made.kept <==> Reloads(env, s, ev)))
  {
    if ev.Go? {
      var move := env.program(ev.h);
      var (memo, key) := Mint(s.memo, move.call.id, ScopeText(move.markers));
      ServedCarriesNoError(env.extract, move.call, memo.cache[key]);
    }
  }

  // ----- the file over a whole run, of any program ---------------------------------------

  predicate IsMinted(key: string, id: string, scope: string, n: nat) { key == Key(id, scope, n) }

  /** Every waiting call has a key that was minted. */
  ghost predicate MintedKeys(s: Sys) {
    forall h :: h in s.waiting ==> exists id, scope, n: nat :: IsMinted(s.waiting[h], id, scope, n)
  }

  lemma StepMints(env: Env, s: Sys, ev: Event)
    requires MintedKeys(s)
    ensures MintedKeys(Step(env, s, ev))
  {
    var s' := Step(env, s, ev);
    if ev.Go? && CanGo(s, ev.h) && env.program(ev.h).Ask? {
      var move := env.program(ev.h);
      var scope := ScopeText(move.markers);
      var key := Mint(s.memo, move.call.id, scope).1;
      assert IsMinted(key, move.call.id, scope, Occ(s.memo.occ, OccKey(move.call.id, scope)) + 1);
      forall h | h in s'.waiting ensures exists i, sc, n: nat :: IsMinted(s'.waiting[h], i, sc, n) {
        assert h == ev.h || s'.waiting[h] == s.waiting[h];
      }
    }
  }

  lemma MintedIsNoTombstone(s: Sys, h: Hist)
    requires MintedKeys(s) && h in s.waiting
    ensures s.waiting[h] != TOMBSTONE && s.waiting[h] != ""
  {
    var id, scope, n: nat :| IsMinted(s.waiting[h], id, scope, n);
    TombstoneIsNoKey(id, scope, n);
  }

  /** The row a live answer writes: its own, or the tombstone after a pure failure. */
  function RowOf(key: string, result: AgentResult): Row {
    if Persistable(PersistRow(result)) then Row(key, PersistRow(result)) else TOMBSTONE_ROW
  }

  /** What an event does to the records and the end of the file: the row of a live
      answer is recorded, the tombstone only in an empty file. */
  function Journaled(env: Env, s: Sys, j: Journal<Row>, ev: Event): Journal<Row> {
    if !ev.Answer? || ev.h !in s.waiting then j
    else
      var row := RowOf(s.waiting[ev.h], ev.result);
      if row == TOMBSTONE_ROW && s.memo.file != "" then j else Record(j, row, |Encode(env.codec.stringify(row))|, ev.w)
  }

  function JournalAfter(env: Env, s: Sys, j: Journal<Row>, events: seq<Event>): Journal<Row>
    decreases |events|
  {
    if events == [] then j else JournalAfter(env, Step(env, s, events[0]), Journaled(env, s, j, events[0]), events[1..])
  }

  lemma StepJournals(env: Env, s: Sys, ev: Event)
    requires RecordLines(env.codec) && MintedKeys(s) && EdgeOk(env.codec, s.memo.file)
    ensures var file := Step(env, s, ev).memo.file;
      EdgeOk(env.codec, file) && JournalOf(env.codec, file) == Journaled(env, s, JournalOf(env.codec, s.memo.file), ev)
  {
    if ev.Answer? && ev.h in s.waiting {
      MintedIsNoTombstone(s, ev.h);
      AppendIsRecorded(env.codec, s.memo.file, RowOf(s.waiting[ev.h], ev.result), ev.w);
    } else {
      QuietMemo(env, s, ev);
    }
  }

  lemma QuietMemo(env: Env, s: Sys, ev: Event)
    requires !(ev.Answer? && ev.h in s.waiting)
    ensures var m' := Step(env, s, ev).memo; m'.cache == s.memo.cache && m'.file == s.memo.file
  {
  }

  lemma {:induction false} RunJournals(env: Env, s: Sys, events: seq<Event>)
    requires RecordLines(env.codec) && MintedKeys(s) && EdgeOk(env.codec, s.memo.file)
    ensures var file := Run(env, s, events).memo.file;
      EdgeOk(env.codec, file) && JournalOf(env.codec, file) == JournalAfter(env, s, JournalOf(env.codec, s.memo.file), events)
    decreases |events|
  {
    if events != [] {
      StepJournals(env, s, events[0]);
      StepMints(env, s, events[0]);
      RunJournals(env, Step(env, s, events[0]), events[1..]);
    }
  }

  /** For every program, after any mix of live calls, hits, pure failures, torn writes
      and lost line breaks, the file holds exactly the rows that `Record` says: what
      it held, less a row that a glued one took with it, and the rows that were
      written whole behind a clean end; and it loads as their last-wins fold. */
  lemma FileIsTheFold(env: Env, file: string, events: seq<Event>)
    requires RecordLines(env.codec) && EdgeOk(env.codec, file)
    ensures var left := Run(env, Boot(env, file), events).memo.file;
      var j := JournalAfter(env, Boot(env, file), JournalOf(env.codec, file), events);
      JournalOf(env.codec, left) == j && Load(env.codec, left) == Fold(j.rows)
  {
    RunJournals(env, Boot(env, file), events);
  }

  // ----- memory and disk over a whole run, of any program ----------------------------------

  predicate AllWritten(events: seq<Event>) {
    forall i :: 0 <= i < |events| && events[i].Answer? ==> events[i].w == SAFE
  }

  lemma StoreAgrees(c: Codec<Row>, s: Sys, h: Hist, result: AgentResult)
    requires RecordLines(c) && MintedKeys(s) && h in s.waiting && MemoAgrees(c, s.memo)
    ensures MemoAgrees(c, Store(c, s.memo, s.waiting[h], result, SAFE))
  {
    var id, scope, n: nat :| IsMinted(s.waiting[h], id, scope, n);
    StoreKeepsAgreement(c, s.memo, id, scope, n, result);
  }

  lemma StepKeepsAgreement(env: Env, s: Sys, ev: Event)
    requires RecordLines(env.codec) && MintedKeys(s) && (ev.Answer? ==> ev.w == SAFE)
    requires MemoAgrees(env.codec, s.memo)
    ensures MemoAgrees(env.codec, Step(env, s, ev).memo)
  {
    if ev.Answer? && ev.h in s.waiting {
      StoreAgrees(env.codec, s, ev.h, ev.result);
    } else {
      QuietMemo(env, s, ev);
    }
  }

  lemma {:induction false} AgreementIsKept(env: Env, s: Sys, events: seq<Event>)
    requires RecordLines(env.codec) && MintedKeys(s) && AllWritten(events) && MemoAgrees(env.codec, s.memo)
    ensures MemoAgrees(env.codec, Run(env, s, events).memo)
    decreases |events|
  {
    if events != [] {
      StepKeepsAgreement(env, s, events[0]);
      StepMints(env, s, events[0]);
      AgreementIsKept(env, Step(env, s, events[0]), events[1..]);
    }
  }

  /** For every program, without I/O failures memory and the reloaded file agree at
      every moment up to the inert tombstone. */
  lemma RunKeepsAgreement(env: Env, file: string, events: seq<Event>)
    requires RecordLines(env.codec) && EdgeOk(env.codec, file) && AllWritten(events)
    ensures MemoAgrees(env.codec, Run(env, Boot(env, file), events).memo)
  {
    AgreementIsKept(env, Boot(env, file), events);
  }

  ghost predicate AllKept(s: Sys) { forall p :: p in s.calls ==> s.calls[p].kept }

  lemma StepKeepsAll(env: Env, s: Sys, ev: Event)
    requires AllKept(s) && (ev.Answer? ==> ev.w == SAFE && Replayable(ev.result))
    ensures AllKept(Step(env, s, ev)) && LostIn1(env, s, ev) == {}
  {
  }

  lemma {:induction false} CleanRunMarksAll(env: Env, s: Sys, events: seq<Event>)
    requires AllKept(s) && AllWritten(events)
    requires forall i :: 0 <= i < |events| && events[i].Answer? ==> Replayable(events[i].result)
    ensures AllKept(Run(env, s, events)) && LostIn(env, s, events) == {}
    decreases |events|
  {
    if events != [] {
      assert events[0].Answer? ==> events[0].w == SAFE && Replayable(events[0].result);
      StepKeepsAll(env, s, events[0]);
      CleanRunMarksAll(env, Step(env, s, events[0]), events[1..]);
    }
  }

  /** A run whose live answers can be replayed and were written is given back whole. */
  lemma CleanRunIsKept(env: Env, file: string, events: seq<Event>, p: Hist)
    requires RecordLines(env.codec) && WellScoped(env.program) && EdgeOk(env.codec, file) && AllWritten(events)
    requires forall i :: 0 <= i < |events| && events[i].Answer? ==> Replayable(events[i].result)
    ensures var s := Run(env, Boot(env, file), events); p in s.calls ==> p in Given(env, s)
  {
    CleanRunMarksAll(env, Boot(env, file), events);
    RunKeepsDisk(env, file, events, p);
  }
}
