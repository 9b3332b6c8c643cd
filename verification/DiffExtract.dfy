/** Which changed paths a diff extraction restores from each side
    (DiffExtractIncludes in internal/model/diff.go). */
module DiffExtract {
  import opened DiffModel
  import opened DiffTree
  import opened Paths
  import opened Sorting
  import opened Wrappers
  import P = ExtractPlan

  datatype Side = First | Second

  /** diffFirstSideKinds and diffSecondSideKinds. */
  const FIRST_SIDE_KINDS := {Removed, Modified, Metadata, TypeChanged, Bitrot}

  const SECOND_SIDE_KINDS := {Added, Modified, Metadata, TypeChanged, Bitrot}

  /** The kind of a directory that only this side has. */
  function PureKind(side: Side): Kind { if side.First? then Removed else Added }

  datatype DiffExtractSet = DiffExtractSet(first: seq<Path>, second: seq<Path>, firstCount: nat, secondCount: nat)

  // What is selected.

  predicate NonPureDir(es: seq<DiffEntry>, p: Path) {
    SomeDir(es, p) && KindsAt(es, p) != {Added} && KindsAt(es, p) != {Removed}
  }

  predicate Eligible(es: seq<DiffEntry>, root: Path, filter: set<Kind>, side: Side, p: Path) {
    Mentions(es, p) && Under(root, p) && !NonPureDir(es, p) && OnSide(KindsAt(es, p) * filter, side)
  }

  /** Some kind says that the path is in the side's snapshot: on the first side
      any but added, on the second any but removed. */
  predicate OnSide(kinds: set<Kind>, side: Side) {
    exists k :: k in kinds && k != if side.First? then Added else Removed
  }

  lemma SideKindsExact(kinds: set<Kind>)
    ensures kinds * FIRST_SIDE_KINDS != {} <==> OnSide(kinds, First)
    ensures kinds * SECOND_SIDE_KINDS != {} <==> OnSide(kinds, Second)
  {
    if k :| k in kinds && k != Added {
      assert k in kinds * FIRST_SIDE_KINDS;
    }
    if k :| k in kinds && k != Removed {
      assert k in kinds * SECOND_SIDE_KINDS;
    }
  }

  /** A selected directory that covers everything below it. */
  predicate PureDir(es: seq<DiffEntry>, root: Path, filter: set<Kind>, side: Side, p: Path) {
    && Mentions(es, p) && Under(root, p) && SomeDir(es, p)
    && KindsAt(es, p) == {PureKind(side)} && PureKind(side) in filter
  }

  predicate CoveredBy(pure: set<Path>, p: Path) { exists d :: d in pure && Below(d, p) }

  function PureDirs(es: seq<DiffEntry>, root: Path, filter: set<Kind>, side: Side): set<Path> {
    set p | p in PathsOf(es) && PureDir(es, root, filter, side, p)
  }

  predicate Listed(es: seq<DiffEntry>, root: Path, filter: set<Kind>, side: Side, p: Path) {
    Eligible(es, root, filter, side, p) && !CoveredBy(PureDirs(es, root, filter, side), p)
  }

  predicate PathLess(p: Path, q: Path) { StrLess(Render(p), Render(q)) }

  ghost predicate ExactOn(es: seq<DiffEntry>, root: Path, filter: set<Kind>, side: Side, list: seq<Path>, count: nat) {
    && count == |set p | p in PathsOf(es) && Eligible(es, root, filter, side, p)|
    && Sorted(PathLess, list) && Distinct(list)
    && forall p :: p in list <==> Listed(es, root, filter, side, p)
  }

  /** The result on both sides, as sets of paths. */
  ghost predicate Exact(es: seq<DiffEntry>, root: Path, filter: set<Kind>, r: DiffExtractSet) {
    && ExactOn(es, root, filter, First, r.first, r.firstCount)
    && ExactOn(es, root, filter, Second, r.second, r.secondCount)
  }

  method MergeUnder(es: seq<DiffEntry>, root: Path)
    returns (merged: map<Path, set<Kind>>, isDir: set<Path>, order: seq<Path>)
    ensures forall p :: p in merged <==> Mentions(es, p) && Under(root, p)
    ensures forall p :: p in merged ==> merged[p] == KindsAt(es, p) && (p in isDir <==> SomeDir(es, p))
    ensures Distinct(order) && forall p :: p in order <==> p in merged
  {
    hide KindsAt, SomeDir, Mentions, UnderBytes;
    merged, isDir, order := map[], {}, [];
    NothingMerged();
    for i := 0 to |es|
      invariant forall p :: p in merged <==> Mentions(es[..i], p) && Under(root, p)
      invariant forall p :: p in merged ==> merged[p] == KindsAt(es[..i], p) && (p in isDir <==> SomeDir(es[..i], p))
      invariant forall p :: p in isDir ==> p in merged
      invariant Distinct(order) && forall p :: p in order <==> p in merged
    {
      var e := es[i];
      assert es[..i + 1] == es[..i] + [e];
      UnderBytesExact(root, e.path);
      SnocAll(es[..i], e);
      if UnderBytes(root, e.path) {
        if e.path !in merged {
          order := order + [e.path];
          merged := merged[e.path := {}];
        }
        merged := merged[e.path := merged[e.path] + e.kinds];
        if e.isDir {
          isDir := isDir + {e.path};
        }
      }
    }
    assert es[..|es|] == es;
  }

  lemma NothingMerged()
    ensures forall p :: !Mentions([], p)
  {
  }

  lemma SnocAll(es: seq<DiffEntry>, e: DiffEntry)
    ensures forall p :: Mentions(es + [e], p) <==> Mentions(es, p) || p == e.path
    ensures forall p :: SomeDir(es + [e], p) <==> SomeDir(es, p) || (p == e.path && e.isDir)
    ensures forall p :: KindsAt(es + [e], p) == if p == e.path then KindsAt(es, p) + e.kinds else KindsAt(es, p)
    ensures !Mentions(es, e.path) ==> KindsAt(es, e.path) == {} && !SomeDir(es, e.path)
  {
    hide KindsAt, SomeDir, Mentions;
    forall p
      ensures Mentions(es + [e], p) <==> Mentions(es, p) || p == e.path
      ensures SomeDir(es + [e], p) <==> SomeDir(es, p) || (p == e.path && e.isDir)
      ensures KindsAt(es + [e], p) == if p == e.path then KindsAt(es, p) + e.kinds else KindsAt(es, p)
    {
      MentionsSnoc(es, e, p);
      KindsSnoc(es, e, p);
    }
    if !Mentions(es, e.path) {
      NoKindsUnmentioned(es, e.path);
      SomeDirMentioned(es, e.path);
    }
  }

  lemma SomeDirMentioned(es: seq<DiffEntry>, p: Path)
    ensures SomeDir(es, p) ==> Mentions(es, p)
  {
  }

  /** Some directory strictly above p and still under root is in `pure`. */
  method Covered(root: Path, p: Path, pure: set<Path>) returns (r: bool)
    requires Under(root, p) && forall d :: d in pure ==> Under(root, d)
    ensures r <==> CoveredBy(pure, p)
  {
    var anc := DiffParentOf(p);
    while anc.Some? && UnderBytes(root, anc.value)
      invariant anc.Some? ==> Below(anc.value, p)
      invariant forall d :: d in pure && Below(d, p) ==> anc.Some? && Under(d, anc.value)
      decreases if anc.Some? then |anc.value| + 1 else 0
    {
      if anc.value in pure {
        return true;
      }
      assert forall d :: Under(d, anc.value) ==> d == anc.value || (anc.value != [] && Under(d, Parent(anc.value)));
      anc := DiffParentOf(anc.value);
    }
    if anc.Some? {
      UnderBytesExact(root, anc.value);
      assert forall d :: d in pure && Under(d, anc.value) ==> Under(root, anc.value);
    }
    r := false;
  }

  ghost predicate SideDone(es: seq<DiffEntry>, root: Path, filter: set<Kind>, side: Side, done: seq<Path>,
                           list: seq<Path>, count: nat) {
    && count == |set p | p in done && Eligible(es, root, filter, side, p)|
    && Distinct(list)
    && forall p :: p in list <==> p in done && Listed(es, root, filter, side, p)
  }

  lemma SingleKind(k: Kind, filter: set<Kind>)
    ensures {k} * filter != {} <==> k in filter
  {
    assert k in filter ==> k in {k} * filter;
  }

  method PureSets(es: seq<DiffEntry>, root: Path, filter: set<Kind>, merged: map<Path, set<Kind>>, isDir: set<Path>)
    returns (first: set<Path>, second: set<Path>)
    requires forall p :: p in merged <==> Mentions(es, p) && Under(root, p)
    requires forall p :: p in merged ==> merged[p] == KindsAt(es, p) && (p in isDir <==> SomeDir(es, p))
    ensures first == PureDirs(es, root, filter, First) && second == PureDirs(es, root, filter, Second)
  {
    first, second := {}, {};
    var todo := merged.Keys;
    hide KindsAt, SomeDir, Mentions;
    while todo != {}
      invariant todo <= merged.Keys
      invariant forall p :: p in first <==> p in merged && p !in todo && PureDir(es, root, filter, First, p)
      invariant forall p :: p in second <==> p in merged && p !in todo && PureDir(es, root, filter, Second, p)
    {
      var p :| p in todo;
      todo := todo - {p};
      var k := merged[p];
      SingleKind(Removed, filter);
      SingleKind(Added, filter);
      if p in isDir && k * filter != {} {
        if k == {Removed} {
          first := first + {p};
        }
        if k == {Added} {
          second := second + {p};
        }
      }
    }
    forall p ensures p in PathsOf(es) <==> Mentions(es, p) {
      PathsAreMentioned(es, p);
    }
  }

  lemma SideGrows(es: seq<DiffEntry>, root: Path, filter: set<Kind>, side: Side, done: seq<Path>,
                  list: seq<Path>, count: nat, p: Path)
    requires SideDone(es, root, filter, side, done, list, count) && p !in done
    ensures SideDone(es, root, filter, side, done + [p],
                     if Listed(es, root, filter, side, p) then list + [p] else list,
                     if Eligible(es, root, filter, side, p) then count + 1 else count)
  {
    hide Eligible, Listed;
    ListedIsEligible(es, root, filter, side, p);
    var before := set q | q in done && Eligible(es, root, filter, side, q);
    var after := set q | q in done + [p] && Eligible(es, root, filter, side, q);
    assert after == if Eligible(es, root, filter, side, p) then before + {p} else before;
  }

  lemma ListedIsEligible(es: seq<DiffEntry>, root: Path, filter: set<Kind>, side: Side, p: Path)
    ensures Listed(es, root, filter, side, p) ==> Eligible(es, root, filter, side, p)
  {
  }

  lemma SideFinished(es: seq<DiffEntry>, root: Path, filter: set<Kind>, side: Side, order: seq<Path>,
                     list: seq<Path>, count: nat)
    requires SideDone(es, root, filter, side, order, list, count)
    requires forall p :: Mentions(es, p) && Under(root, p) ==> p in order
    ensures ExactOn(es, root, filter, side, StableSort(PathLess, list), count)
  {
    hide PathLess, StableSort, CoveredBy;
    PathLessIsStrictWeak();
    StableSortSorts(PathLess, list);
    PermutedDistinct(list, StableSort(PathLess, list));
    forall p ensures p in StableSort(PathLess, list) <==> p in list {
      assert p in StableSort(PathLess, list) <==> p in multiset(list);
    }
    forall p | Eligible(es, root, filter, side, p) ensures p in order && p in PathsOf(es) {
      PathsAreMentioned(es, p);
    }
    hide Eligible;
    forall p ensures Listed(es, root, filter, side, p) ==> Eligible(es, root, filter, side, p) {
      ListedIsEligible(es, root, filter, side, p);
    }
    hide Listed;
    assert (set p | p in order && Eligible(es, root, filter, side, p))
        == set p | p in PathsOf(es) && Eligible(es, root, filter, side, p);
  }

  lemma PathLessIsStrictWeak()
    ensures StrictWeakOrder(PathLess)
  {
    StrLessIsStrictWeak();
    hide StrLess;
  }

  method DiffExtractIncludes(es: seq<DiffEntry>, root: Path, filter: set<Kind>) returns (r: DiffExtractSet)
    ensures Exact(es, root, filter, r)
  {
    hide KindsAt, SomeDir, Mentions, SideDone, PureDirs, CoveredBy, ExactOn, PathLess;
    var merged, isDir, order := MergeUnder(es, root);
    var pureFirst, pureSecond := PureSets(es, root, filter, merged, isDir);
    var first: seq<Path>, second: seq<Path>, firstCount, secondCount := [], [], 0, 0;
    NoneDone(es, root, filter);
    PuresAreUnder(es, root, filter);
    for i := 0 to |order|
      invariant SideDone(es, root, filter, First, order[..i], first, firstCount)
      invariant SideDone(es, root, filter, Second, order[..i], second, secondCount)
    {
      var p := order[i];
      assert p in order && order[..i + 1] == order[..i] + [p] && p !in order[..i];
      SideGrows(es, root, filter, First, order[..i], first, firstCount, p);
      SideGrows(es, root, filter, Second, order[..i], second, secondCount, p);
      var eff := merged[p] * filter;
      var dirNonPure := p in isDir && merged[p] != {Added} && merged[p] != {Removed};
      SideKindsExact(eff);
      if eff != {} && !dirNonPure {
        if eff * FIRST_SIDE_KINDS != {} {
          firstCount := firstCount + 1;
          var c := Covered(root, p, pureFirst);
          if !c {
            first := first + [p];
          }
        }
        if eff * SECOND_SIDE_KINDS != {} {
          secondCount := secondCount + 1;
          var c := Covered(root, p, pureSecond);
          if !c {
            second := second + [p];
          }
        }
      }
    }
    assert order[..|order|] == order;
    SideFinished(es, root, filter, First, order, first, firstCount);
    SideFinished(es, root, filter, Second, order, second, secondCount);
    r := DiffExtractSet(StableSort(PathLess, first), StableSort(PathLess, second), firstCount, secondCount);
  }

  lemma NoneDone(es: seq<DiffEntry>, root: Path, filter: set<Kind>)
    ensures forall side :: SideDone(es, root, filter, side, [], [], 0)
  {
    hide Listed, Eligible;
    forall side ensures SideDone(es, root, filter, side, [], [], 0) {
      assert (set p | p in [] && Eligible(es, root, filter, side, p)) == {};
    }
  }

  lemma PuresAreUnder(es: seq<DiffEntry>, root: Path, filter: set<Kind>)
    ensures forall side, d :: d in PureDirs(es, root, filter, side) ==> Under(root, d)
  {
  }

  // What the lists promise.

  lemma PureIsEligible(es: seq<DiffEntry>, root: Path, filter: set<Kind>, side: Side, d: Path)
    requires PureDir(es, root, filter, side, d)
    ensures Eligible(es, root, filter, side, d)
  {
    assert PureKind(side) in KindsAt(es, d) * filter;
  }

  /** Everything eligible is restored: it is listed, or lies below a directory
      that is listed and that only this side has. */
  lemma {:induction false} EligibleIsRestored(es: seq<DiffEntry>, root: Path, filter: set<Kind>, side: Side,
                                              list: seq<Path>, count: nat, p: Path)
    requires ExactOn(es, root, filter, side, list, count) && Eligible(es, root, filter, side, p)
    ensures p in list || exists d :: d in list && Below(d, p) && PureDir(es, root, filter, side, d)
    decreases |p|
  {
    hide Eligible, PureDir;
    if p !in list {
      var pure := PureDirs(es, root, filter, side);
      var d :| d in pure && Below(d, p);
      PureIsEligible(es, root, filter, side, d);
      EligibleIsRestored(es, root, filter, side, list, count, d);
      if d !in list {
        var t :| t in list && Below(t, d) && PureDir(es, root, filter, side, t);
        assert Below(t, p);
      }
    }
  }

  /** What must be restored from the snapshot that `absent` paths are not in: what
      changed in an enabled way other than by appearing or disappearing there,
      directories only when nothing of them is on the other side. */
  predicate Changed(es: seq<DiffEntry>, root: Path, filter: set<Kind>, absent: Kind, p: Path) {
    && Under(root, p)
    && (exists k :: k in KindsAt(es, p) && k in filter && k != absent)
    && (SomeDir(es, p) ==> KindsAt(es, p) == {Added} || KindsAt(es, p) == {Removed})
  }

  /** Listed itself, or below a listed directory that is only on this side. */
  ghost predicate Brought(es: seq<DiffEntry>, only: Kind, list: seq<Path>, p: Path) {
    p in list || exists d :: d in list && Below(d, p) && SomeDir(es, d) && KindsAt(es, d) == {only}
  }

  /** A modified path is counted and brought on both sides, an added one on the
      second, a removed one on the first, and nothing else is. */
  lemma SidesExactly(es: seq<DiffEntry>, root: Path, filter: set<Kind>, r: DiffExtractSet)
    requires Exact(es, root, filter, r)
    ensures r.firstCount == |set p | p in PathsOf(es) && Changed(es, root, filter, Added, p)|
    ensures r.secondCount == |set p | p in PathsOf(es) && Changed(es, root, filter, Removed, p)|
    ensures forall p :: Changed(es, root, filter, Added, p) ==> Brought(es, Removed, r.first, p)
    ensures forall p :: Changed(es, root, filter, Removed, p) ==> Brought(es, Added, r.second, p)
    ensures forall p :: p in r.first ==> Changed(es, root, filter, Added, p)
    ensures forall p :: p in r.second ==> Changed(es, root, filter, Removed, p)
  {
    SideExactly(es, root, filter, First, r.first, r.firstCount);
    SideExactly(es, root, filter, Second, r.second, r.secondCount);
  }

  lemma ChangedIsEligible(es: seq<DiffEntry>, root: Path, filter: set<Kind>, side: Side, p: Path)
    ensures Changed(es, root, filter, if side.First? then Added else Removed, p)
       <==> Eligible(es, root, filter, side, p)
  {
    var ks := KindsAt(es, p) * filter;
    if !Mentions(es, p) {
      NoKindsUnmentioned(es, p);
    }
    hide KindsAt, SomeDir, Mentions;
    assert forall k :: k in ks <==> k in KindsAt(es, p) && k in filter;
  }

  lemma SideExactly(es: seq<DiffEntry>, root: Path, filter: set<Kind>, side: Side, list: seq<Path>, count: nat)
    requires ExactOn(es, root, filter, side, list, count)
    ensures var absent, only := if side.First? then Added else Removed, if side.First? then Removed else Added;
      && count == |set p | p in PathsOf(es) && Changed(es, root, filter, absent, p)|
      && (forall p :: Changed(es, root, filter, absent, p) ==> Brought(es, only, list, p))
      && (forall p :: p in list ==> Changed(es, root, filter, absent, p))
  {
    hide Changed, Eligible, KindsAt, SomeDir, Mentions, PathLess;
    var absent := if side.First? then Added else Removed;
    forall p ensures Changed(es, root, filter, absent, p) <==> Eligible(es, root, filter, side, p) {
      ChangedIsEligible(es, root, filter, side, p);
    }
    assert (set p | p in PathsOf(es) && Changed(es, root, filter, absent, p))
        == set p | p in PathsOf(es) && Eligible(es, root, filter, side, p);
    forall p | Eligible(es, root, filter, side, p)
      ensures Brought(es, if side.First? then Removed else Added, list, p)
    {
      EligibleIsRestored(es, root, filter, side, list, count, p);
    }
  }

  /** Nothing is restored twice, and no directory brings unchanged contents:
      a listed path has no selected pure directory above it, and a listed
      directory exists on one side only. */
  lemma ListedIsMinimal(es: seq<DiffEntry>, root: Path, filter: set<Kind>, side: Side,
                        list: seq<Path>, count: nat, p: Path)
    requires ExactOn(es, root, filter, side, list, count) && p in list
    ensures forall d :: Below(d, p) ==> !PureDir(es, root, filter, side, d)
    ensures SomeDir(es, p) ==> KindsAt(es, p) == {PureKind(side)}
    ensures Under(root, p) && KindsAt(es, p) * filter != {}
  {
    hide KindsAt, SomeDir, Mentions;
    assert Listed(es, root, filter, side, p);
    forall d | Below(d, p) ensures !PureDir(es, root, filter, side, d) {
      PathsAreMentioned(es, d);
      assert d in PureDirs(es, root, filter, side) <==> PureDir(es, root, filter, side, d);
    }
    var k :| k in KindsAt(es, p) * filter && k != if side.First? then Added else Removed;
  }

  /** The result depends only on each path's merged kinds and directory flag,
      so neither the order of records nor repeating them changes it. */
  lemma IncludesDependOnMerge(a: seq<DiffEntry>, b: seq<DiffEntry>, root: Path, filter: set<Kind>, x: DiffExtractSet,
                              y: DiffExtractSet)
    requires Exact(a, root, filter, x) && Exact(b, root, filter, y)
    requires forall p :: (Mentions(a, p) <==> Mentions(b, p)) && (SomeDir(a, p) <==> SomeDir(b, p))
    requires forall p :: KindsAt(a, p) == KindsAt(b, p)
    ensures x == y
  {
    SideDependsOnMerge(a, b, root, filter, First, x.first, y.first, x.firstCount, y.firstCount);
    SideDependsOnMerge(a, b, root, filter, Second, x.second, y.second, x.secondCount, y.secondCount);
  }

  lemma SameSelection(a: seq<DiffEntry>, b: seq<DiffEntry>, root: Path, filter: set<Kind>, side: Side)
    requires forall p :: (Mentions(a, p) <==> Mentions(b, p)) && (SomeDir(a, p) <==> SomeDir(b, p))
    requires forall p :: KindsAt(a, p) == KindsAt(b, p)
    ensures PathsOf(a) == PathsOf(b)
    ensures forall p :: Eligible(a, root, filter, side, p) <==> Eligible(b, root, filter, side, p)
    ensures forall p :: Listed(a, root, filter, side, p) <==> Listed(b, root, filter, side, p)
  {
    hide Mentions, SomeDir, KindsAt;
    forall p ensures p in PathsOf(a) <==> p in PathsOf(b) {
      PathsAreMentioned(a, p);
      PathsAreMentioned(b, p);
    }
    assert PureDirs(a, root, filter, side) == PureDirs(b, root, filter, side);
  }

  lemma SideDependsOnMerge(a: seq<DiffEntry>, b: seq<DiffEntry>, root: Path, filter: set<Kind>, side: Side,
                           x: seq<Path>, y: seq<Path>, m: nat, n: nat)
    requires ExactOn(a, root, filter, side, x, m) && ExactOn(b, root, filter, side, y, n)
    requires forall p :: (Mentions(a, p) <==> Mentions(b, p)) && (SomeDir(a, p) <==> SomeDir(b, p))
    requires forall p :: KindsAt(a, p) == KindsAt(b, p)
    ensures x == y && m == n
  {
    SameSelection(a, b, root, filter, side);
    hide Mentions, SomeDir, KindsAt, Eligible, Listed, PathLess;
    assert (set p | p in PathsOf(a) && Eligible(a, root, filter, side, p))
        == set p | p in PathsOf(b) && Eligible(b, root, filter, side, p);
    SameMembersPermute(x, y);
    PathLessIsStrictWeak();
    forall p, q | p != q ensures PathLess(p, q) || PathLess(q, p) {
      PathsCompare(p, q);
    }
    SortedUnique(PathLess, x, y);
  }

  lemma PathsCompare(p: Path, q: Path)
    requires p != q
    ensures PathLess(p, q) || PathLess(q, p)
  {
    RenderInjective(p, q);
    StrLessTrichotomy(Render(p), Render(q));
  }

  /** Reordered or repeated records give the same result. */
  lemma IncludesIgnoreOrder(a: seq<DiffEntry>, b: seq<DiffEntry>, root: Path, filter: set<Kind>, x: DiffExtractSet,
                            y: DiffExtractSet)
    requires Exact(a, root, filter, x) && Exact(b, root, filter, y)
    requires forall e :: e in a <==> e in b
    ensures x == y
  {
    forall p ensures KindsAt(a, p) == KindsAt(b, p) {
      forall k ensures k in KindsAt(a, p) <==> k in KindsAt(b, p) {
        KindsAtMembers(a, p, k);
        KindsAtMembers(b, p, k);
      }
    }
    hide KindsAt, Exact;
    IncludesDependOnMerge(a, b, root, filter, x, y);
  }

  /** Planning accepts every listed path as an include of the root. */
  lemma ListedIsPlannable(es: seq<DiffEntry>, root: Path, filter: set<Kind>, side: Side, list: seq<Path>, count: nat,
                          p: Path)
    requires AllParsed(es) && ExactOn(es, root, filter, side, list, count) && p in list && P.NUL !in Render(p)
    ensures P.IncludeOk(Render(root), Render(p))
  {
    assert Listed(es, root, filter, side, p);
    var e :| e in es && e.path == p;
    assert Parsed(e);
    hide ExactOn, Listed, Parsed;
    CleanUndoesRender(p);
    CleanUndoesRender(root);
    RenderInjective(p, []);
    UnderBytesExact(root, p);
  }
}
