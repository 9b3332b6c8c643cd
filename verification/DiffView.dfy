/** What of the diff tree is on screen (internal/tui/snapshotdiff.go): the filter
    keeps a row exactly when the filter matches it or something below it. */
module DiffView {
  import opened DiffModel
  import opened DiffTree
  import opened Paths
  import opened Sorting
  import opened Wrappers

  predicate RowVisibleUnderFilter(r: DiffRow, filter: set<Kind>) {
    if r.kinds * filter != {} then true
    else r.isDir && EnabledKinds(r.aggregate, filter) != {}
  }

  function VisibleUnder(filter: set<Kind>): DiffRow -> bool {
    (r: DiffRow) => RowVisibleUnderFilter(r, filter)
  }

  /** Some record strictly below p has an enabled kind, merged with its duplicates. */
  ghost predicate EnabledBelow(es: seq<DiffEntry>, p: Path, filter: set<Kind>) {
    exists e :: e in es && Below(p, e.path) && KindsAt(es, e.path) * filter != {}
  }

  ghost predicate EnabledAtOrBelow(es: seq<DiffEntry>, p: Path, filter: set<Kind>) {
    exists e :: e in es && Under(p, e.path) && KindsAt(es, e.path) * filter != {}
  }

  lemma EnabledKindsExact(s: DiffStats, filter: set<Kind>, k: Kind)
    ensures k in EnabledKinds(s, filter) <==> k in filter && Counter(s, k) > 0
  {
  }

  lemma AggregateEnabled(es: seq<DiffEntry>, agg: map<Path, DiffStats>, p: Path, filter: set<Kind>)
    requires Aggregated(agg, es)
    ensures EnabledKinds(StatsAt(agg, p), filter) != {} <==> EnabledBelow(es, p, filter)
  {
    hide EnabledKinds, Counter, KindsAt;
    var s := StatsAt(agg, p);
    if k :| k in EnabledKinds(s, filter) {
      EnabledKindsExact(s, filter, k);
      assert |BelowWith(es, p, k)| > 0;
      var q :| q in BelowWith(es, p, k);
      var e :| e in es && e.path == q;
      assert k in KindsAt(es, q) * filter;
    }
    if EnabledBelow(es, p, filter) {
      var e :| e in es && Below(p, e.path) && KindsAt(es, e.path) * filter != {};
      var k :| k in KindsAt(es, e.path) * filter;
      assert e.path in PathsOf(es) && e.path in BelowWith(es, p, k);
      assert Counter(s, k) == |BelowWith(es, p, k)|;
      EnabledKindsExact(s, filter, k);
    }
  }

  lemma VisibleExact(es: seq<DiffEntry>, agg: map<Path, DiffStats>, p: Path, filter: set<Kind>)
    requires Aggregated(agg, es)
    ensures RowVisibleUnderFilter(FullRow(es, agg, p), filter) <==>
            KindsAt(es, p) * filter != {} || (RowOf(es, p).isDir && EnabledBelow(es, p, filter))
  {
    hide EnabledKinds, EnabledBelow, Aggregated, PrimaryChangeType, ModifierString;
    AggregateEnabled(es, agg, p, filter);
    RecordsMembers(es, p);
    if Records(es, p) == [] {
      NoKindsUnmentioned(es, p);
    }
  }

  lemma AtOrBelow(es: seq<DiffEntry>, p: Path, filter: set<Kind>)
    ensures EnabledAtOrBelow(es, p, filter) <==> KindsAt(es, p) * filter != {} || EnabledBelow(es, p, filter)
  {
    if KindsAt(es, p) * filter != {} {
      if !Mentions(es, p) {
        NoKindsUnmentioned(es, p);
        assert false;
      }
      var e :| e in es && e.path == p;
      assert Under(p, e.path);
    }
    if EnabledAtOrBelow(es, p, filter) {
      var e :| e in es && Under(p, e.path) && KindsAt(es, e.path) * filter != {};
      assert e.path == p || Below(p, e.path);
    }
  }

  /** Everything strictly below p adds no kind that p lacks. */
  ghost predicate NothingNewBelow(es: seq<DiffEntry>, p: Path) {
    forall e :: e in es && Below(p, e.path) ==> KindsAt(es, e.path) <= KindsAt(es, p)
  }

  /** A row is visible exactly when it or a record below it is enabled, under
      every filter, if and only if the row is a directory or what lies below it
      has no kind of its own. */
  lemma VisibleIffEnabled(es: seq<DiffEntry>, agg: map<Path, DiffStats>, p: Path)
    requires Aggregated(agg, es)
    ensures RowOf(es, p).isDir || NothingNewBelow(es, p) <==>
            forall filter :: RowVisibleUnderFilter(FullRow(es, agg, p), filter) <==> EnabledAtOrBelow(es, p, filter)
  {
    hide RowVisibleUnderFilter, KindsAt, Aggregated, RowOf, FullRow, EnabledAtOrBelow;
    forall filter ensures RowVisibleUnderFilter(FullRow(es, agg, p), filter) <==>
                          KindsAt(es, p) * filter != {} || (RowOf(es, p).isDir && EnabledBelow(es, p, filter))
      ensures EnabledAtOrBelow(es, p, filter) <==> KindsAt(es, p) * filter != {} || EnabledBelow(es, p, filter)
    {
      VisibleExact(es, agg, p, filter);
      AtOrBelow(es, p, filter);
    }
    if NothingNewBelow(es, p) {
      forall filter | EnabledBelow(es, p, filter) ensures KindsAt(es, p) * filter != {} {
        var e :| e in es && Below(p, e.path) && KindsAt(es, e.path) * filter != {};
        var k :| k in KindsAt(es, e.path) * filter;
        assert k in KindsAt(es, p) * filter;
      }
    } else if !RowOf(es, p).isDir {
      var e :| e in es && Below(p, e.path) && !(KindsAt(es, e.path) <= KindsAt(es, p));
      var filter := KindsAt(es, e.path) - KindsAt(es, p);
      assert KindsAt(es, e.path) * filter == filter && KindsAt(es, p) * filter == {};
      var k :| k in KindsAt(es, e.path) && k !in KindsAt(es, p);
      assert k in filter;
      EnabledBelowWitness(es, p, e, filter);
      assert RowVisibleUnderFilter(FullRow(es, agg, p), filter) != EnabledAtOrBelow(es, p, filter);
    }
  }

  /** No record of a non-directory lies above another record. */
  ghost predicate NoFileAbove(es: seq<DiffEntry>) {
    forall p, e :: e in es && Below(p, e.path) ==> RowOf(es, p).isDir
  }

  /** Every enabled change is reached from the root through visible directory
      rows: each row on the way to it is listed under its parent and visible. */
  lemma EnabledIsReachable(es: seq<DiffEntry>, tree: DiffTree, q: Path, n: nat, filter: set<Kind>) returns (at: nat)
    requires TreeOf(es, tree) && NoFileAbove(es)
    requires Mentions(es, q) && KindsAt(es, q) * filter != {} && n <= |q|
    ensures DiffParentOf(q[..n]) in tree.children
    ensures var rows := tree.children[DiffParentOf(q[..n])];
      && at < |rows| && rows[at].path == q[..n]
      && RowVisibleUnderFilter(rows[at], filter) && (n < |q| ==> rows[at].isDir)
  {
    hide RowOf, RowVisibleUnderFilter, EnabledBelow, KindsAt;
    var p := q[..n];
    var e :| e in es && e.path == q;
    assert Under(p, e.path) && (n < |q| ==> Below(p, e.path));
    at := RowAppearsOnce(es, tree, p);
    RowPaths(es, tree.aggregate, p);
    VisibleExact(es, tree.aggregate, p, filter);
    FullRowIsDir(es, tree.aggregate, p);
    if n < |q| {
      EnabledBelowWitness(es, p, e, filter);
    } else {
      assert p == q;
    }
  }

  /** The row at p[..n] is listed, visible, and leads on. */
  ghost predicate Opens(tree: DiffTree, q: Path, n: nat, filter: set<Kind>)
    requires n <= |q|
  {
    && DiffParentOf(q[..n]) in tree.children
    && exists r :: r in tree.children[DiffParentOf(q[..n])] && r.path == q[..n]
                   && RowVisibleUnderFilter(r, filter) && (n < |q| ==> r.isDir)
  }

  ghost predicate Reachable(tree: DiffTree, q: Path, filter: set<Kind>) {
    forall n :: 0 <= n <= |q| ==> Opens(tree, q, n, filter)
  }

  /** Under every filter every enabled change is reached, exactly when no record
      of a non-directory lies above another record. */
  lemma AllReachableExactly(es: seq<DiffEntry>, tree: DiffTree)
    requires TreeOf(es, tree) && AllParsed(es)
    ensures NoFileAbove(es) <==>
            forall q, filter :: Mentions(es, q) && KindsAt(es, q) * filter != {} ==> Reachable(tree, q, filter)
  {
    hide RowOf, RowVisibleUnderFilter, KindsAt, TreeOf, Parsed;
    if NoFileAbove(es) {
      forall q, filter, n | Mentions(es, q) && KindsAt(es, q) * filter != {} && 0 <= n <= |q|
        ensures Opens(tree, q, n, filter)
      {
        var at := EnabledIsReachable(es, tree, q, n, filter);
        assert tree.children[DiffParentOf(q[..n])][at] in tree.children[DiffParentOf(q[..n])];
      }
    } else {
      var p, e :| e in es && Below(p, e.path) && !RowOf(es, p).isDir;
      var q := e.path;
      KindsAtMentioned(es, q);
      var filter := KindsAt(es, q);
      assert KindsAt(es, q) * filter == filter && q[..|p|] == p;
      NotThroughFile(es, tree, q, |p|, filter);
      assert !Reachable(tree, q, filter);
    }
  }

  lemma NotThroughFile(es: seq<DiffEntry>, tree: DiffTree, q: Path, n: nat, filter: set<Kind>)
    requires TreeOf(es, tree) && n < |q| && Known(es, q[..n]) && !RowOf(es, q[..n]).isDir
    ensures !Opens(tree, q, n, filter)
  {
    hide RowOf, RowVisibleUnderFilter, TreeOf;
    var p := q[..n];
    var at := RowAppearsOnce(es, tree, p);
    FullRowIsDir(es, tree.aggregate, p);
    var rows := tree.children[DiffParentOf(p)];
    forall r | r in rows && r.path == p ensures !r.isDir {
      var i :| 0 <= i < |rows| && rows[i] == r;
    }
  }

  const GONE := DiffEntry(["a"], "-", ChangeRemoved, {Removed}, false)

  const NEW_BELOW := DiffEntry(["a", "b"], "+", ChangeAdded, {Added}, false)

  lemma HiddenRecords()
    ensures var es := [GONE] + [NEW_BELOW];
      && AllParsed(es) && !RowOf(es, GONE.path).isDir
      && KindsAt(es, GONE.path) == {Removed} && KindsAt(es, NEW_BELOW.path) == {Added}
  {
    OneMarker('-');
    OneMarker('+');
    TwoRecords(GONE, NEW_BELOW);
    hide RowOf, KindsAt, MarkersIn, AllMarkers;
  }

  /** Neither condition always holds: of a file that is gone and a new path below
      it, under a filter for what was added, the row of the first is not on
      screen although the second is enabled, and cannot be reached. */
  lemma HiddenUnderFile() returns (es: seq<DiffEntry>, tree: DiffTree, p: Path, q: Path)
    ensures AllParsed(es) && TreeOf(es, tree) && !NoFileAbove(es) && !RowOf(es, p).isDir && !NothingNewBelow(es, p)
    ensures !RowVisibleUnderFilter(FullRow(es, tree.aggregate, p), {Added}) && EnabledAtOrBelow(es, p, {Added})
    ensures Below(p, q) && KindsAt(es, q) * {Added} != {} && !Reachable(tree, q, {Added})
  {
    es, p, q := [GONE] + [NEW_BELOW], GONE.path, NEW_BELOW.path;
    HiddenRecords();
    tree := TreeExists(es);
    hide RowOf, KindsAt, RowVisibleUnderFilter, AllParsed, TreeOf, Opens, FullRow;
    VisibleExact(es, tree.aggregate, p, {Added});
    assert q[..1] == p && NEW_BELOW in es;
    NotThroughFile(es, tree, q, 1, {Added});
  }

  lemma TwoRecords(e: DiffEntry, f: DiffEntry)
    requires e.path != f.path
    ensures KindsAt([e] + [f], e.path) == e.kinds && KindsAt([e] + [f], f.path) == f.kinds
    ensures RowOf([e] + [f], e.path).isDir == e.isDir
  {
    assert [e] == [] + [e];
    KindsSnoc([], e, e.path);
    KindsSnoc([], e, f.path);
    KindsSnoc([e], f, e.path);
    KindsSnoc([e], f, f.path);
    RecordsSnoc([], e, e.path);
    RecordsSnoc([e], f, e.path);
  }

  lemma EnabledBelowWitness(es: seq<DiffEntry>, p: Path, e: DiffEntry, filter: set<Kind>)
    requires e in es && Below(p, e.path) && KindsAt(es, e.path) * filter != {}
    ensures EnabledBelow(es, p, filter)
  {
  }

  lemma FullRowIsDir(es: seq<DiffEntry>, agg: map<Path, DiffStats>, p: Path)
    ensures FullRow(es, agg, p).isDir == RowOf(es, p).isDir
  {
  }

  function ClampCursor(i: int, total: nat): (r: nat)
    ensures total > 0 ==> r < total
    ensures total == 0 ==> r == 0
    ensures 0 <= i < total ==> r == i
  {
    var j := if i >= total then total - 1 else i;
    if j < 0 then 0 else j
  }

  function Kids(tree: DiffTree, dir: Path): seq<DiffRow> {
    if Some(dir) in tree.children then tree.children[Some(dir)] else []
  }

  method VisibleRows(kids: seq<DiffRow>, filter: set<Kind>) returns (rows: seq<DiffRow>)
    requires Sorted(RowLess, kids)
    ensures rows == Filter(VisibleUnder(filter), kids)
  {
    hide RowLess;
    var filtered := [];
    for i := 0 to |kids|
      invariant filtered == Filter(VisibleUnder(filter), kids[..i])
    {
      FilterSnoc(VisibleUnder(filter), kids[..i], kids[i]);
      assert kids[..i + 1] == kids[..i] + [kids[i]];
      if RowVisibleUnderFilter(kids[i], filter) {
        filtered := filtered + [kids[i]];
      }
    }
    assert kids[..|kids|] == kids;
    rows := StableSort(RowLess, filtered);
    RowLessIsStrictWeak();
    FilterKeepsSorted(RowLess, VisibleUnder(filter), kids);
    SortedIsFixed(RowLess, filtered);
  }

  /** The visible rows of a directory, in tree order, and the cursor: on the row
      asked for when it is visible, else where the cache says. */
  method RebuildDiffRows(tree: DiffTree, cache: map<Path, int>, dir: Path, selectPath: Option<Path>,
                         filter: set<Kind>, ghost es: seq<DiffEntry>) returns (rows: seq<DiffRow>, cursor: nat)
    requires TreeOf(es, tree)
    ensures rows == Filter(VisibleUnder(filter), Kids(tree, dir))
    ensures rows != [] ==> cursor < |rows|
    ensures forall i :: 0 <= i < |rows| && selectPath == Some(rows[i].path) ==> rows[cursor].path == rows[i].path
    ensures selectPath.None? ==> cursor == ClampCursor(if dir in cache then cache[dir] else 0, |rows|)
  {
    KidsSorted(es, tree, dir);
    hide TreeOf, RowLess, VisibleUnder, Kids;
    rows := VisibleRows(Kids(tree, dir), filter);
    var at := 0;
    if selectPath.Some? {
      var i := 0;
      while i < |rows| && rows[i].path != selectPath.value
        invariant i <= |rows| && forall j :: 0 <= j < i ==> rows[j].path != selectPath.value
      {
        i := i + 1;
      }
      at := if i < |rows| then i else 0;
    } else if dir in cache {
      at := ClampCursor(cache[dir], |rows|);
    }
    cursor := ClampCursor(at, |rows|);
  }

  lemma KidsSorted(es: seq<DiffEntry>, tree: DiffTree, dir: Path)
    requires TreeOf(es, tree)
    ensures Sorted(RowLess, Kids(tree, dir))
  {
    if Some(dir) in tree.children {
      assert ListingOf(es, tree.aggregate, Some(dir), tree.children[Some(dir)]);
    }
  }

  predicate DiffTreeHasDir(tree: DiffTree, dir: Path) {
    dir == [] || exists r :: r in Kids(tree, Parent(dir)) && r.path == dir && r.isDir
  }

  /** The deepest directory row at or above the requested one. */
  method ExistingDiffDir(tree: DiffTree, requested: Path) returns (dir: Path)
    ensures Under(dir, requested) && DiffTreeHasDir(tree, dir)
    ensures forall d :: Below(dir, d) && Under(d, requested) ==> !DiffTreeHasDir(tree, d)
  {
    dir := requested;
    while !DiffTreeHasDir(tree, dir)
      invariant Under(dir, requested)
      invariant forall d :: Below(dir, d) && Under(d, requested) ==> !DiffTreeHasDir(tree, d)
      decreases |dir|
    {
      assert forall d :: Below(Parent(dir), d) && Under(d, requested) ==> Below(dir, d) || d == dir;
      dir := Parent(dir);
    }
  }

  /** Accepting a search hit opens its parent directory with the cursor on it. */
  method AcceptDiffSearch(tree: DiffTree, cache: map<Path, int>, target: Path, filter: set<Kind>,
                          ghost es: seq<DiffEntry>)
    returns (dir: Path, rows: seq<DiffRow>, cursor: nat)
    requires TreeOf(es, tree) && target != []
    ensures NoFileAbove(es) && Mentions(es, target) && KindsAt(es, target) * filter != {} ==>
              dir == Parent(target) && cursor < |rows| && rows[cursor].path == target
  {
    dir := ExistingDiffDir(tree, Parent(target));
    rows, cursor := RebuildDiffRows(tree, cache, dir, Some(target), filter, es);
    ghost var n := |target|;
    if NoFileAbove(es) && Mentions(es, target) && KindsAt(es, target) * filter != {} {
      ParentIsDir(es, tree, target, filter);
      assert dir == Parent(target);
      var at := EnabledIsReachable(es, tree, target, |target|, filter);
      assert target[..|target|] == target;
      ghost var kids := Kids(tree, dir);
      FilterMembers(VisibleUnder(filter), kids);
      assert kids[at] in kids && kids[at] in rows;
    }
  }

  lemma ParentIsDir(es: seq<DiffEntry>, tree: DiffTree, target: Path, filter: set<Kind>)
    requires TreeOf(es, tree) && NoFileAbove(es) && target != []
    requires Mentions(es, target) && KindsAt(es, target) * filter != {}
    ensures DiffTreeHasDir(tree, Parent(target))
  {
    hide TreeOf, NoFileAbove, KindsAt;
    if Parent(target) != [] {
      var at := EnabledIsReachable(es, tree, target, |target| - 1, filter);
      assert target[..|target| - 1] == Parent(target);
      assert Kids(tree, Parent(Parent(target)))[at] in Kids(tree, Parent(Parent(target)));
    }
  }
}
