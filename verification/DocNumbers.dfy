/** The document-number allocator of one spec directory: files on disk, in-memory
    reservations, and numbers handed out by counting. */
module DocNumbers {
  import opened Options
  import opened Seqs

  /** The document `NN-<slug>.md`. */
  datatype Doc = Doc(num: nat, slug: string)

  datatype Dir = Dir(files: set<Doc>, reserved: map<string, nat>)

  /** Two digits are all the patterns over file names see. */
  const LIMIT := 100

  // ----- counting -----------------------------------------------------------------

  predicate EndsWith(s: string, t: string) { |t| <= |s| && s[|s| - |t|..] == t }

  /** `NN-<slug>.md` ends in `-<other>.md`. */
  predicate Shadows(slug: string, other: string) { slug == other || EndsWith(slug, "-" + other) }

  predicate Excluded(slug: string, group: seq<string>) { exists i :: 0 <= i < |group| && Shadows(slug, group[i]) }

  /** Reservations whose file is not on disk. */
  function Pending(d: Dir): set<Doc> {
    set s | s in d.reserved && Doc(d.reserved[s], s) !in d.files :: Doc(d.reserved[s], s)
  }

  /** Everything that has a number. */
  function Taken(d: Dir): set<Doc> { d.files + Pending(d) }

  predicate Counts(x: Doc, group: seq<string>) { x.num < LIMIT && !Excluded(x.slug, group) }

  predicate Waits(d: Dir, slug: string, group: seq<string>) {
    slug in d.reserved && !Excluded(slug, group) && Doc(d.reserved[slug], slug) !in d.files
  }

  function FilesCounted(files: set<Doc>, group: seq<string>): set<Doc> { set x | x in files && Counts(x, group) }

  function PendingCounted(d: Dir, slugs: set<string>, group: seq<string>): set<Doc> {
    set s | s in slugs && Waits(d, s, group) :: Doc(d.reserved[s], s)
  }

  function Counted(d: Dir, group: seq<string>): set<Doc> {
    FilesCounted(d.files, group) + PendingCounted(d, d.reserved.Keys, group)
  }

  function NextNumber(d: Dir, group: seq<string>): nat { |Counted(d, group)| + 1 }

  // ----- allocating -----------------------------------------------------------------

  /** The lowest number a slug has on disk. */
  ghost predicate IsExisting(files: set<Doc>, slug: string, r: Option<nat>) {
    match r
    case None => forall x :: x in files && x.slug == slug ==> x.num >= LIMIT
    case Some(k) => k < LIMIT && Doc(k, slug) in files && forall x :: x in files && x.slug == slug ==> k <= x.num
  }

  function Existing(files: set<Doc>, slug: string): Option<nat> { LowestFrom(files, slug, 0) }

  function LowestFrom(files: set<Doc>, slug: string, k: nat): Option<nat>
    requires k <= LIMIT
    decreases LIMIT - k
  {
    if k == LIMIT then None else if Doc(k, slug) in files then Some(k) else LowestFrom(files, slug, k + 1)
  }

  lemma {:induction false} LowestIsExisting(files: set<Doc>, slug: string, k: nat)
    requires k <= LIMIT && forall x :: x in files && x.slug == slug ==> x.num >= k
    ensures IsExisting(files, slug, LowestFrom(files, slug, k))
    decreases LIMIT - k
  {
    if k < LIMIT && Doc(k, slug) !in files {
      LowestIsExisting(files, slug, k + 1);
    }
  }

  /** One slug's document: the one on disk, the reserved one, or a new reservation
      at `base`. */
  function Place(d: Dir, slug: string, base: nat): (nat, Dir) {
    var existing := Existing(d.files, slug);
    if existing.Some? then (existing.value, d)
    else if slug in d.reserved then
      var num := d.reserved[slug];
      (num, if Doc(num, slug) in d.files then d.(reserved := d.reserved - {slug}) else d)
    else (base, d.(reserved := d.reserved[slug := base]))
  }

  predicate IsNew(d: Dir, slug: string) { Existing(d.files, slug).None? && slug !in d.reserved }

  /** The documents of a group from its `i`-th slug on, new ones at consecutive
      numbers. */
  function PlaceFrom(d: Dir, slugs: seq<string>, i: nat, base: nat): (seq<nat>, Dir)
    requires i <= |slugs|
    decreases |slugs| - i
  {
    if i == |slugs| then ([], d)
    else
      var (num, d') := Place(d, slugs[i], base);
      After([num], PlaceFrom(d', slugs, i + 1, if IsNew(d, slugs[i]) then base + 1 else base))
  }

  function After(nums: seq<nat>, r: (seq<nat>, Dir)): (seq<nat>, Dir) { (nums + r.0, r.1) }

  function SpecDocs(d: Dir, slugs: seq<string>): (seq<nat>, Dir) { PlaceFrom(d, slugs, 0, NextNumber(d, slugs)) }

  lemma AfterNone(r: (seq<nat>, Dir))
    ensures After([], r) == r && After(r.0, ([], r.1)) == r
  {
    assert [] + r.0 == r.0 && r.0 + [] == r.0;
  }

  /** One slug further. */
  lemma PlaceNext(d: Dir, slugs: seq<string>, i: nat, base: nat, nums: seq<nat>)
    requires i < |slugs|
    ensures var (num, d') := Place(d, slugs[i], base);
      After(nums, PlaceFrom(d, slugs, i, base)) ==
        After(nums + [num], PlaceFrom(d', slugs, i + 1, if IsNew(d, slugs[i]) then base + 1 else base))
  {
    var (num, d') := Place(d, slugs[i], base);
    Assoc(nums, [num], PlaceFrom(d', slugs, i + 1, if IsNew(d, slugs[i]) then base + 1 else base).0);
  }

  lemma FileCountedToo(files: set<Doc>, x: Doc, group: seq<string>)
    requires x !in files
    ensures |FilesCounted(files + {x}, group)| == |FilesCounted(files, group)| + if Counts(x, group) then 1 else 0
  {
    assert FilesCounted(files + {x}, group) == FilesCounted(files, group) + if Counts(x, group) then {x} else {};
  }

  lemma PendingCountedToo(d: Dir, slugs: set<string>, s: string, group: seq<string>)
    requires s !in slugs
    ensures |PendingCounted(d, slugs + {s}, group)| == |PendingCounted(d, slugs, group)| + if Waits(d, s, group) then 1 else 0
  {
    assert PendingCounted(d, slugs + {s}, group) ==
      PendingCounted(d, slugs, group) + if Waits(d, s, group) then {Doc(d.reserved[s], s)} else {};
  }

  // ----- the allocator as it runs ------------------------------------------------------

  class Allocator {
    var files: set<Doc>
    var reserved: map<string, nat>

    function Now(): Dir
      reads this
    {
      Dir(files, reserved)
    }

    /** The numbered files that are not the group's own. */
    method CountFiles(group: seq<string>) returns (count: nat)
      ensures count == |FilesCounted(files, group)|
    {
      count := 0;
      var left := files;
      ghost var done: set<Doc> := {};
      while left != {}
        invariant done !! left && done + left == files
        invariant count == |FilesCounted(done, group)|
        decreases |left|
      {
        var entry :| entry in left;
        left := left - {entry};
        FileCountedToo(done, entry, group);
        done := done + {entry};
        if Counts(entry, group) {
          count := count + 1;
        }
      }
      assert done == files;
    }

    /** The reservations of others whose file is not written yet. */
    method CountPending(group: seq<string>) returns (count: nat)
      ensures count == |PendingCounted(Now(), reserved.Keys, group)|
    {
      count := 0;
      var left := reserved.Keys;
      ghost var done: set<string> := {};
      while left != {}
        invariant done !! left && done + left == reserved.Keys
        invariant count == |PendingCounted(Now(), done, group)|
        decreases |left|
      {
        var slug :| slug in left;
        left := left - {slug};
        PendingCountedToo(Now(), done, slug, group);
        done := done + {slug};
        if !Excluded(slug, group) && Doc(reserved[slug], slug) !in files {
          count := count + 1;
        }
      }
      assert done == reserved.Keys;
    }

    method NextDocNumber(excludeSlugs: seq<string>) returns (n: nat)
      ensures n == NextNumber(Now(), excludeSlugs)
    {
      var written := CountFiles(excludeSlugs);
      var pending := CountPending(excludeSlugs);
      n := written + pending + 1;
    }

    /** The document of one slug, new ones at `base`. */
    method Resolve(slug: string, base: nat) returns (num: nat, minted: bool)
      modifies this`reserved
      ensures (num, Now()) == Place(old(Now()), slug, base) && minted == IsNew(old(Now()), slug)
    {
      var existing := Existing(files, slug);
      if existing.Some? {
        return existing.value, false;
      }
      if slug in reserved {
        num, minted := reserved[slug], false;
        if Doc(num, slug) in files {
          reserved := reserved - {slug};
        }
        return;
      }
      num, minted := base, true;
      reserved := reserved[slug := num];
    }

    method AllocateDocs(slugs: seq<string>) returns (nums: seq<nat>)
      modifies this`reserved
      ensures (nums, Now()) == SpecDocs(old(Now()), slugs)
    {
      var base := NextDocNumber(slugs);
      ghost var all := PlaceFrom(Now(), slugs, 0, base);
      nums := [];
      AfterNone(all);
      for i := 0 to |slugs|
        invariant files == old(files) && all == After(nums, PlaceFrom(Now(), slugs, i, base))
      {
        PlaceNext(Now(), slugs, i, base, nums);
        var num, minted := Resolve(slugs[i], base);
        nums := nums + [num];
        if minted {
          base := base + 1;
        }
      }
      AfterNone((nums, Now()));
    }

    method AllocateDoc(slug: string) returns (num: nat)
      modifies this`reserved
      ensures ([num], Now()) == SpecDocs(old(Now()), [slug])
    {
      var base := NextDocNumber([slug]);
      var minted;
      num, minted := Resolve(slug, base);
      PlaceNext(old(Now()), [slug], 0, base, []);
      AfterNone(SpecDocs(old(Now()), [slug]));
      AfterNone(([num], Now()));
    }
  }

  // ----- what allocation keeps -----------------------------------------------------------

  function DocsOf(owners: seq<string>): (s: set<Doc>)
    ensures forall x :: x in s <==> 1 <= x.num <= |owners| && owners[x.num - 1] == x.slug
  {
    if owners == [] then {}
    else DocsOf(owners[..|owners| - 1]) + {Doc(|owners|, owners[|owners| - 1])}
  }

  /** The numbers in use are exactly 1..n, the k-th one given to `owners[k - 1]`, and
      every slug has one. */
  predicate Represents(d: Dir, owners: seq<string>) {
    NoRepeats(owners) && |owners| < LIMIT && Taken(d) == DocsOf(owners)
  }

  function Joined(owners: seq<string>, slug: string): (r: seq<string>)
    ensures owners <= r && slug in r && (NoRepeats(owners) ==> NoRepeats(r))
  {
    if slug in owners then owners else owners + [slug]
  }

  /** The owners after a group was placed: its new slugs follow, in order. */
  function Extend(owners: seq<string>, slugs: seq<string>, i: nat): (r: seq<string>)
    requires i <= |slugs|
    ensures owners <= r && |r| <= |owners| + |slugs| - i
    decreases |slugs| - i
  {
    if i == |slugs| then owners
    else
      var r := Extend(Joined(owners, slugs[i]), slugs, i + 1);
      PrefixTrans(owners, Joined(owners, slugs[i]), r);
      r
  }

  lemma PlaceKnown(d: Dir, owners: seq<string>, slug: string, base: nat)
    requires Represents(d, owners) && slug in owners
    ensures !IsNew(d, slug)
    ensures var (num, d') := Place(d, slug, base); d' == d && 1 <= num <= |owners| && owners[num - 1] == slug
  {
    LowestIsExisting(d.files, slug, 0);
    var k :| 0 <= k < |owners| && owners[k] == slug;
    assert Doc(k + 1, slug) in Taken(d);
    forall x | x in Taken(d) && x.slug == slug
      ensures x.num == k + 1
    {
    }
    if slug in d.reserved && Doc(d.reserved[slug], slug) !in d.files {
      assert Doc(d.reserved[slug], slug) in Taken(d);
    }
  }

  lemma TakenReserve(d: Dir, slug: string, num: nat)
    requires slug !in d.reserved
    ensures Taken(d.(reserved := d.reserved[slug := num])) == Taken(d) + {Doc(num, slug)}
  {
    var d' := d.(reserved := d.reserved[slug := num]);
    assert forall s :: s in d.reserved ==> d'.reserved[s] == d.reserved[s];
    assert d'.reserved[slug] == num;
    assert Doc(num, slug) in d.files || Doc(num, slug) in Pending(d');
  }

  lemma DocsOfSnoc(owners: seq<string>, slug: string)
    ensures DocsOf(owners + [slug]) == DocsOf(owners) + {Doc(|owners| + 1, slug)}
  {
    assert (owners + [slug])[..|owners|] == owners;
  }

  lemma PlaceNew(d: Dir, owners: seq<string>, slug: string)
    requires Represents(d, owners) && slug !in owners && |owners| + 1 < LIMIT
    ensures IsNew(d, slug)
    ensures var (num, d') := Place(d, slug, |owners| + 1); num == |owners| + 1 && Represents(d', owners + [slug])
  {
    NotTaken(d, owners, slug);
    TakenReserve(d, slug, |owners| + 1);
    DocsOfSnoc(owners, slug);
  }

  lemma ReservedAreTaken(d: Dir)
    ensures forall s :: s in d.reserved ==> Doc(d.reserved[s], s) in Taken(d)
  {
  }

  /** A slug that owns no number is neither on disk nor reserved. */
  lemma NotTaken(d: Dir, owners: seq<string>, slug: string)
    requires Represents(d, owners) && slug !in owners
    ensures IsNew(d, slug)
  {
    assert forall x :: x in Taken(d) ==> owners[x.num - 1] == x.slug;
    LowestIsExisting(d.files, slug, 0);
    ReservedAreTaken(d);
  }

  /** The slug owns the number. */
  predicate Owns(owners: seq<string>, num: nat, slug: string) { 1 <= num <= |owners| && owners[num - 1] == slug }

  /** Every slug of a group from the `i`-th on got the number it owns. */
  predicate Placed(owners: seq<string>, slugs: seq<string>, i: nat, nums: seq<nat>) {
    |nums| == |slugs| - i && forall k :: 0 <= k < |nums| ==> Owns(owners, nums[k], slugs[i + k])
  }

  lemma PlacedCons(owners: seq<string>, slugs: seq<string>, i: nat, num: nat, nums: seq<nat>)
    requires i < |slugs| && Owns(owners, num, slugs[i]) && Placed(owners, slugs, i + 1, nums)
    ensures Placed(owners, slugs, i, [num] + nums)
  {
    forall k | 0 <= k < |slugs| - i
      ensures Owns(owners, ([num] + nums)[k], slugs[i + k])
    {
      if k > 0 {
        assert Owns(owners, nums[k - 1], slugs[i + 1 + (k - 1)]);
      }
    }
  }

  /** One slug of a group: known ones keep their number, a new one gets the next. */
  lemma PlaceKeepsDense(d: Dir, owners: seq<string>, slug: string)
    requires Represents(d, owners) && |owners| + 1 < LIMIT
    ensures var (num, d') := Place(d, slug, |owners| + 1); var owners' := Joined(owners, slug);
      && Represents(d', owners') && d'.files == d.files && Owns(owners', num, slug)
      && |owners'| == |owners| + if IsNew(d, slug) then 1 else 0
  {
    if slug in owners {
      PlaceKnown(d, owners, slug, |owners| + 1);
    } else {
      PlaceNew(d, owners, slug);
      assert Joined(owners, slug) == owners + [slug];
    }
  }

  /** Placing a group in a directory whose numbers are dense, from the next free
      number on: dense again, old numbers kept, and every slug of the group gets
      the number it owns. */
  lemma {:induction false} PlaceFromKeepsDense(d: Dir, owners: seq<string>, slugs: seq<string>, i: nat)
    requires i <= |slugs| && Represents(d, owners) && |owners| + |slugs| - i < LIMIT
    ensures var (nums, d') := PlaceFrom(d, slugs, i, |owners| + 1); var owners' := Extend(owners, slugs, i);
      Represents(d', owners') && d'.files == d.files && Placed(owners', slugs, i, nums)
    decreases |slugs| - i
  {
    if i < |slugs| {
      var (num, d') := Place(d, slugs[i], |owners| + 1);
      var next := Joined(owners, slugs[i]);
      PlaceKeepsDense(d, owners, slugs[i]);
      PlaceFromKeepsDense(d', next, slugs, i + 1);
      PlacedCons(Extend(next, slugs, i + 1), slugs, i, num, PlaceFrom(d', slugs, i + 1, |next| + 1).0);
    }
  }

  // ----- when allocation keeps the numbers dense -----------------------------------------

  /** How many owners a group does not exclude from the count. */
  function Others(owners: seq<string>, group: seq<string>): nat {
    if owners == [] then 0
    else Others(owners[..|owners| - 1], group) + if Excluded(owners[|owners| - 1], group) then 0 else 1
  }

  function OtherDocs(owners: seq<string>, group: seq<string>): (s: set<Doc>)
    ensures |s| == Others(owners, group)
    ensures forall x :: x in s <==> x in DocsOf(owners) && !Excluded(x.slug, group)
  {
    if owners == [] then {}
    else
      var last := Doc(|owners|, owners[|owners| - 1]);
      OtherDocs(owners[..|owners| - 1], group) + if Excluded(last.slug, group) then {} else {last}
  }

  lemma CountedOrNot(d: Dir, owners: seq<string>, group: seq<string>, x: Doc)
    requires Represents(d, owners)
    ensures x in Counted(d, group) <==> x in Taken(d) && !Excluded(x.slug, group)
  {
    assert x in PendingCounted(d, d.reserved.Keys, group) <==> x in Pending(d) && !Excluded(x.slug, group) by {
      if x in Pending(d) && !Excluded(x.slug, group) {
        assert Waits(d, x.slug, group);
      }
    }
    assert x in d.files ==> x.num <= |owners|;
  }

  lemma CountsTheOthers(d: Dir, owners: seq<string>, group: seq<string>)
    requires Represents(d, owners)
    ensures NextNumber(d, group) == Others(owners, group) + 1
  {
    forall x
      ensures x in Counted(d, group) <==> x in Taken(d) && !Excluded(x.slug, group)
    {
      CountedOrNot(d, owners, group, x);
    }
    assert Counted(d, group) == OtherDocs(owners, group);
  }

  predicate NoneExcluded(owners: seq<string>, group: seq<string>) {
    forall k :: 0 <= k < |owners| ==> !Excluded(owners[k], group)
  }

  predicate AllKnown(owners: seq<string>, slugs: seq<string>) { forall i :: 0 <= i < |slugs| ==> slugs[i] in owners }

  lemma {:induction false} OthersAtMost(owners: seq<string>, group: seq<string>)
    ensures Others(owners, group) <= |owners|
    ensures Others(owners, group) == |owners| <==> NoneExcluded(owners, group)
    decreases |owners|
  {
    if owners != [] {
      OthersAtMost(owners[..|owners| - 1], group);
    }
  }

  lemma {:induction false} PlaceKnownGroup(d: Dir, owners: seq<string>, slugs: seq<string>, i: nat, base: nat)
    requires i <= |slugs| && Represents(d, owners) && AllKnown(owners, slugs)
    ensures PlaceFrom(d, slugs, i, base).1 == d && Placed(owners, slugs, i, PlaceFrom(d, slugs, i, base).0)
    ensures Extend(owners, slugs, i) == owners
    decreases |slugs| - i
  {
    if i < |slugs| {
      PlaceKnown(d, owners, slugs[i], base);
      PlaceKnownGroup(d, owners, slugs, i + 1, base);
      PlacedCons(owners, slugs, i, Place(d, slugs[i], base).0, PlaceFrom(d, slugs, i + 1, base).0);
    }
  }

  /** Two documents have the same number. */
  ghost predicate Collides(d: Dir) { exists x, y :: x in Taken(d) && y in Taken(d) && x != y && x.num == y.num }

  lemma PlaceGrows(d: Dir, slug: string, base: nat)
    ensures Taken(d) <= Taken(Place(d, slug, base).1)
  {
    var d' := Place(d, slug, base).1;
    if slug !in d.reserved {
      TakenReserve(d, slug, base);
    } else {
      assert forall s :: s in d'.reserved ==> s in d.reserved && d'.reserved[s] == d.reserved[s];
      assert forall s :: s in d.reserved && Doc(d.reserved[s], s) !in d.files ==> s in d'.reserved;
    }
  }

  lemma {:induction false} PlaceFromGrows(d: Dir, slugs: seq<string>, i: nat, base: nat)
    requires i <= |slugs|
    ensures Taken(d) <= Taken(PlaceFrom(d, slugs, i, base).1)
    decreases |slugs| - i
  {
    if i < |slugs| {
      PlaceGrows(d, slugs[i], base);
      PlaceFromGrows(Place(d, slugs[i], base).1, slugs, i + 1, if IsNew(d, slugs[i]) then base + 1 else base);
    }
  }

  /** A new slug placed at a number already given away collides. */
  lemma {:induction false} PlaceFromCollides(d: Dir, owners: seq<string>, slugs: seq<string>, i: nat, base: nat)
    requires i <= |slugs| && Represents(d, owners) && 1 <= base <= |owners|
    requires exists j :: i <= j < |slugs| && slugs[j] !in owners
    ensures Collides(PlaceFrom(d, slugs, i, base).1)
    decreases |slugs| - i
  {
    var slug := slugs[i];
    if slug in owners {
      PlaceKnown(d, owners, slug, base);
      PlaceFromCollides(d, owners, slugs, i + 1, base);
    } else {
      NotTaken(d, owners, slug);
      TakenReserve(d, slug, base);
      var d' := Place(d, slug, base).1;
      PlaceFromGrows(d', slugs, i + 1, base + 1);
      var x, y := Doc(base, slug), Doc(base, owners[base - 1]);
      assert x in Taken(d') && y in Taken(d');
    }
  }

  /** From a dense directory, a group is placed without collision exactly when it is
      known as a whole or shadows no document that has a number. Then the numbers
      in use are 1..n again, no number has changed, and every slug has its own. */
  lemma PlacedCleanlyExactly(d: Dir, owners: seq<string>, slugs: seq<string>)
    requires Represents(d, owners) && |owners| + |slugs| < LIMIT
    ensures var (nums, d') := SpecDocs(d, slugs);
      && (!Collides(d') <==> AllKnown(owners, slugs) || NoneExcluded(owners, slugs))
      && (!Collides(d') ==> Represents(d', Extend(owners, slugs, 0)) && Placed(Extend(owners, slugs, 0), slugs, 0, nums))
  {
    CountsTheOthers(d, owners, slugs);
    OthersAtMost(owners, slugs);
    if AllKnown(owners, slugs) {
      PlaceKnownGroup(d, owners, slugs, 0, NextNumber(d, slugs));
      DenseIsClean(d, owners);
    } else if NoneExcluded(owners, slugs) {
      PlaceFromKeepsDense(d, owners, slugs, 0);
      DenseIsClean(SpecDocs(d, slugs).1, Extend(owners, slugs, 0));
    } else {
      PlaceFromCollides(d, owners, slugs, 0, NextNumber(d, slugs));
    }
  }

  /** A directory with the one document `01-<slug>.md`. */
  function OneDoc(slug: string): Dir { Dir({Doc(1, slug)}, map[]) }

  lemma OneDocIsDense(slug: string)
    ensures Represents(OneDoc(slug), [slug])
  {
    assert Taken(OneDoc(slug)) == {Doc(1, slug)};
    assert DocsOf([slug]) == {Doc(1, slug)};
  }

  /** It happens that two documents get one number: a group of which a part has
      been allocated before, and a slug that ends in a dash and a new one. */
  lemma PartOfAGroupCollides(slug: string, other: string)
    requires slug != other
    ensures Collides(SpecDocs(OneDoc(slug), [slug, other]).1)
    ensures Collides(SpecDocs(OneDoc(other + "-" + slug), [slug]).1)
  {
    var long := other + "-" + slug;
    OneDocIsDense(slug);
    assert [slug, other][0] == slug && [slug, other][1] == other;
    assert Excluded(slug, [slug, other]) && !AllKnown([slug], [slug, other]);
    assert !NoneExcluded([slug], [slug, other]) by { assert [slug][0] == slug; }
    PlacedCleanlyExactly(OneDoc(slug), [slug], [slug, other]);
    OneDocIsDense(long);
    assert long[|other|..] == "-" + slug && [slug][0] == slug;
    assert Shadows(long, slug) && long != slug;
    assert Excluded(long, [slug]) && !AllKnown([long], [slug]);
    assert !NoneExcluded([long], [slug]) by { assert [long][0] == long; }
    PlacedCleanlyExactly(OneDoc(long), [long], [slug]);
  }

  lemma DenseIsClean(d: Dir, owners: seq<string>)
    requires Represents(d, owners)
    ensures !Collides(d)
  {
  }

  // ----- whole runs ----------------------------------------------------------------------

  datatype Op = Allocate(slugs: seq<string>) | Write(doc: Doc)

  function Apply(d: Dir, op: Op): Dir {
    match op
    case Allocate(slugs) => SpecDocs(d, slugs).1
    case Write(doc) => d.(files := d.files + {doc})
  }

  function Run(d: Dir, ops: seq<Op>): Dir
    decreases |ops|
  {
    if ops == [] then d else Run(Apply(d, ops[0]), ops[1..])
  }

  function OwnersAfter(owners: seq<string>, ops: seq<Op>): seq<string>
    decreases |ops|
  {
    if ops == [] then owners
    else OwnersAfter(if ops[0].Allocate? then Extend(owners, ops[0].slugs, 0) else owners, ops[1..])
  }

  /** Only documents that were given out are written. */
  predicate WritesGiven(d: Dir, ops: seq<Op>)
    decreases |ops|
  {
    ops == [] || ((ops[0].Write? ==> ops[0].doc in Taken(d)) && WritesGiven(Apply(d, ops[0]), ops[1..]))
  }

  predicate AllocatesGroups(groups: seq<seq<string>>, ops: seq<Op>) {
    forall k :: 0 <= k < |ops| && ops[k].Allocate? ==> ops[k].slugs in groups
  }

  function Slugs(groups: seq<seq<string>>): set<string> { set g, x | g in groups && x in g :: x }

  /** Groups do not share slugs, no slug ends in a dash and another group's, and
      there are fewer slugs than two digits can number. */
  predicate Apart(groups: seq<seq<string>>) {
    && (forall g, h, x, y :: g in groups && h in groups && g != h && x in g && y in h ==> !Shadows(x, y))
    && (forall g :: g in groups ==> NoRepeats(g))
    && |Slugs(groups)| < LIMIT
  }

  /** A group has all its numbers or none. */
  predicate Whole(groups: seq<seq<string>>, owners: seq<string>) {
    && (forall x :: x in owners ==> x in Slugs(groups))
    && (forall g :: g in groups ==> AllKnown(owners, g) || forall x :: x in g ==> x !in owners)
  }

  lemma {:induction false} ExtendMembers(owners: seq<string>, slugs: seq<string>, i: nat)
    requires i <= |slugs|
    ensures NoRepeats(owners) ==> NoRepeats(Extend(owners, slugs, i))
    ensures forall x :: x in Extend(owners, slugs, i) <==> x in owners || x in slugs[i..]
    decreases |slugs| - i
  {
    if i < |slugs| {
      ExtendMembers(Joined(owners, slugs[i]), slugs, i + 1);
      assert slugs[i..] == [slugs[i]] + slugs[i + 1..];
    } else {
      assert slugs[i..] == [];
    }
  }

  lemma StrangersAreNotExcluded(groups: seq<seq<string>>, owners: seq<string>, g: seq<string>)
    requires Apart(groups) && Whole(groups, owners) && g in groups && forall x :: x in g ==> x !in owners
    ensures NoneExcluded(owners, g)
  {
    forall k | 0 <= k < |owners|
      ensures !Excluded(owners[k], g)
    {
      assert owners[k] in owners;
      var h :| h in groups && owners[k] in h;
      assert g != h;
      forall i | 0 <= i < |g|
        ensures !Shadows(owners[k], g[i])
      {
        assert g[i] in g;
      }
    }
  }

  function Elems(s: seq<string>): (r: set<string>)
    ensures forall x :: x in r <==> x in s
  {
    if s == [] then {} else Elems(s[..|s| - 1]) + {s[|s| - 1]}
  }

  lemma {:induction false} ElemsCount(s: seq<string>)
    requires NoRepeats(s)
    ensures |Elems(s)| == |s|
    decreases |s|
  {
    if s != [] {
      ElemsCount(s[..|s| - 1]);
      assert forall i :: 0 <= i < |s| - 1 ==> s[..|s| - 1][i] == s[i];
    }
  }

  /** A new group still fits under the limit. */
  lemma RoomForAGroup(groups: seq<seq<string>>, owners: seq<string>, g: seq<string>)
    requires Apart(groups) && Whole(groups, owners) && NoRepeats(owners) && g in groups
    requires forall x :: x in g ==> x !in owners
    ensures |owners| + |g| < LIMIT
  {
    ElemsCount(owners);
    ElemsCount(g);
    assert Elems(owners) !! Elems(g);
    assert Elems(owners) + Elems(g) <= Slugs(groups);
    SubsetSize(Elems(owners) + Elems(g), Slugs(groups));
  }

  lemma AllocateKeeps(groups: seq<seq<string>>, d: Dir, owners: seq<string>, g: seq<string>)
    requires Apart(groups) && Whole(groups, owners) && Represents(d, owners) && g in groups
    ensures Represents(SpecDocs(d, g).1, Extend(owners, g, 0)) && Whole(groups, Extend(owners, g, 0))
  {
    CountsTheOthers(d, owners, g);
    OthersAtMost(owners, g);
    ExtendMembers(owners, g, 0);
    assert g[0..] == g;
    if AllKnown(owners, g) {
      PlaceKnownGroup(d, owners, g, 0, NextNumber(d, g));
    } else {
      StrangersAreNotExcluded(groups, owners, g);
      RoomForAGroup(groups, owners, g);
      PlaceFromKeepsDense(d, owners, g, 0);
      ExtendKeepsWhole(groups, owners, g);
    }
  }

  lemma ExtendKeepsWhole(groups: seq<seq<string>>, owners: seq<string>, g: seq<string>)
    requires Apart(groups) && Whole(groups, owners) && g in groups
    ensures Whole(groups, Extend(owners, g, 0))
  {
    var owners' := Extend(owners, g, 0);
    ExtendMembers(owners, g, 0);
    assert g[0..] == g;
    forall h | h in groups
      ensures AllKnown(owners', h) || forall x :: x in h ==> x !in owners'
    {
      if h == g {
        assert AllKnown(owners', h);
      } else if !AllKnown(owners, h) {
        forall x | x in h
          ensures x !in owners'
        {
          assert x in g ==> Shadows(x, x);
        }
      }
    }
  }

  lemma WriteKeeps(d: Dir, owners: seq<string>, doc: Doc)
    requires Represents(d, owners) && doc in Taken(d)
    ensures Represents(Apply(d, Write(doc)), owners)
  {
    var d' := Apply(d, Write(doc));
    assert Taken(d') == Taken(d);
  }

  /** Over any run of whole-group allocations and writes of the documents given out,
      the numbers in use stay exactly 1..n, one per slug, and no slug ever changes
      its number: owners are only appended. */
  lemma {:induction false} NumbersAreStable(groups: seq<seq<string>>, d: Dir, owners: seq<string>, ops: seq<Op>)
    requires Apart(groups) && Whole(groups, owners) && Represents(d, owners)
    requires AllocatesGroups(groups, ops) && WritesGiven(d, ops)
    ensures Represents(Run(d, ops), OwnersAfter(owners, ops)) && owners <= OwnersAfter(owners, ops)
    decreases |ops|
  {
    if ops != [] {
      var op, rest := ops[0], ops[1..];
      var owners' := if op.Allocate? then Extend(owners, op.slugs, 0) else owners;
      if op.Allocate? {
        AllocateKeeps(groups, d, owners, op.slugs);
      } else {
        WriteKeeps(d, owners, op.doc);
      }
      NumbersAreStable(groups, Apply(d, op), owners', rest);
      PrefixTrans(owners, owners', OwnersAfter(owners, ops));
    }
  }
}
