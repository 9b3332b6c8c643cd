/** BuildDiffTree (internal/model/diff.go): the tree is a function of what the
    records say about each path, whatever their order. */
module DiffTree {
  import opened DiffModel
  import opened Paths
  import opened Sorting
  import opened Wrappers

  /** Children are keyed by parent path; the root row has no parent. */
  datatype DiffTree = DiffTree(children: map<Option<Path>, seq<DiffRow>>, aggregate: map<Path, DiffStats>)

  function DiffParentOf(p: Path): Option<Path> { if p == [] then None else Some(Parent(p)) }

  function DiffNameOf(p: Path): string { if p == [] then "/" else Base(p) }

  // Rows.

  function FreshRow(p: Path, isDir: bool, typ: ChangeType, kinds: set<Kind>, modifier: string): DiffRow {
    DiffRow(DiffNameOf(p), p, typ, kinds, modifier, isDir, NO_STATS)
  }

  /** The row that the records of p make; a synthetic directory without any. */
  function RowOf(es: seq<DiffEntry>, p: Path): DiffRow {
    var rs, ks := Records(es, p), KindsAt(es, p);
    if rs == [] then FreshRow(p, true, ChangeUnknown, {}, "")
    else FreshRow(p, rs[|rs| - 1].isDir, PrimaryChangeType(ks), ks,
                  if |rs| == 1 then rs[0].modifier else ModifierString(ks))
  }

  /** Rows and listings agree with the records seen. */
  ghost predicate Consistent(rows: map<Path, DiffRow>, children: map<Option<Path>, seq<Path>>, es: seq<DiffEntry>) {
    && (forall p :: p in rows ==> rows[p] == RowOf(es, p))
    && (forall e :: e in es ==> e.path in rows)
    && Listed(rows.Keys, children)
  }

  /** Every path is listed once, under its parent. */
  ghost predicate Listed(paths: set<Path>, children: map<Option<Path>, seq<Path>>) {
    && (forall p :: p in paths ==> DiffParentOf(p) in children && p in children[DiffParentOf(p)])
    && (forall d :: d in children ==> children[d] != [] && ListedUnder(paths, d, children[d]))
  }

  ghost predicate ListedUnder(paths: set<Path>, d: Option<Path>, kids: seq<Path>) {
    && (forall p :: p in kids ==> p in paths && DiffParentOf(p) == d)
    && (forall i, j :: 0 <= i < j < |kids| ==> kids[i] != kids[j])
  }

  class TreeBuilder {
    var rows: map<Path, DiffRow>
    var children: map<Option<Path>, seq<Path>>

    constructor ()
      ensures rows == map[] && children == map[]
    {
      rows, children := map[], map[];
    }

    method Ensure(p: Path, isDir: bool, typ: ChangeType, kinds: set<Kind>, modifier: string)
      modifies this
      ensures rows == old(rows)[p := if p in old(rows) then Merged(old(rows)[p], isDir, typ, kinds, modifier)
                                     else FreshRow(p, isDir, typ, kinds, modifier)]
      ensures children == if p in old(rows) then old(children) else WithChild(old(children), p)
    {
      hide Merged;
      if p in rows {
        var row := MergeRow(rows[p], isDir, typ, kinds, modifier);
        rows := rows[p := row];
      } else {
        rows := rows[p := FreshRow(p, isDir, typ, kinds, modifier)];
        var parent := DiffParentOf(p);
        children := children[parent := (if parent in children then children[parent] else []) + [p]];
      }
    }

    static method MergeRow(was: DiffRow, isDir: bool, typ: ChangeType, kinds: set<Kind>, modifier: string)
      returns (row: DiffRow)
      ensures row == Merged(was, isDir, typ, kinds, modifier)
    {
      hide ModifierString, PrimaryChangeType;
      row := was;
      var prevKinds := row.kinds;
      if typ != ChangeUnknown {
        row := row.(typ := typ);
      }
      row := row.(kinds := row.kinds + kinds);
      if modifier != "" {
        row := row.(modifier := modifier);
      }
      if prevKinds != {} && kinds != {} {
        row := row.(typ := PrimaryChangeType(row.kinds), modifier := ModifierString(row.kinds));
      }
      if typ != ChangeUnknown {
        row := row.(isDir := isDir);
      }
    }

    /** One record and then its ancestors up to the root. */
    method Record(e: DiffEntry, ghost seen: seq<DiffEntry>)
      requires Consistent(rows, children, seen) && AllParsed(seen) && Parsed(e)
      requires forall p :: p in rows <==> Known(seen, p)
      modifies this
      ensures Consistent(rows, children, seen + [e])
      ensures forall p :: p in rows <==> Known(seen + [e], p)
    {
      hide Consistent, Merged, FreshRow, WithChild, Parsed, Known, RowOf;
      ParsedIsTyped(e);
      SameLength(e.path, e.path);
      RecordStep(rows, children, seen, e);
      Ensure(e.path, e.isDir, e.typ, e.kinds, e.modifier);
      var anc := DiffParentOf(e.path);
      while anc.Some?
        invariant anc.Some? ==> Below(anc.value, e.path)
        invariant Consistent(rows, children, seen + [e])
        invariant forall p :: p in rows <==>
            Known(seen, p) || (Under(p, e.path) && (anc.None? || |p| > |anc.value|))
        decreases if anc.Some? then |anc.value| + 1 else 0
      {
        AncestorStep(rows, children, seen + [e], anc.value);
        Ensure(anc.value, true, ChangeUnknown, {}, "");
        SameLength(anc.value, e.path);
        anc := DiffParentOf(anc.value);
      }
      forall p ensures p in rows <==> Known(seen + [e], p) {
        MentionsSnoc(seen, e, p);
      }
    }
  }

  lemma SameLength(a: Path, e: Path)
    requires Under(a, e)
    ensures forall p: Path :: Under(p, e) && |p| == |a| ==> p == a
  {
  }

  function Merged(row: DiffRow, isDir: bool, typ: ChangeType, kinds: set<Kind>, modifier: string): DiffRow {
    var all := row.kinds + kinds;
    var both := row.kinds != {} && kinds != {};
    row.(typ := if both then PrimaryChangeType(all) else if typ != ChangeUnknown then typ else row.typ,
         kinds := all,
         modifier := if both then ModifierString(all) else if modifier != "" then modifier else row.modifier,
         isDir := if typ != ChangeUnknown then isDir else row.isDir)
  }

  function WithChild(children: map<Option<Path>, seq<Path>>, p: Path): map<Option<Path>, seq<Path>> {
    var parent := DiffParentOf(p);
    children[parent := (if parent in children then children[parent] else []) + [p]]
  }

  lemma ListedGrows(paths: set<Path>, children: map<Option<Path>, seq<Path>>, p: Path)
    requires Listed(paths, children)
    ensures Listed(paths + {p}, if p in paths then children else WithChild(children, p))
  {
    if p in paths {
      assert paths + {p} == paths;
    } else {
      var c' := WithChild(children, p);
      var parent := DiffParentOf(p);
      var before := if parent in children then children[parent] else [];
      assert c'[parent] == before + [p];
      assert ListedUnder(paths, parent, before);
      assert p !in before;
      forall d | d in c' ensures c'[d] != [] && ListedUnder(paths + {p}, d, c'[d]) {
        if d == parent {
        } else {
          assert ListedUnder(paths, d, children[d]);
        }
      }
    }
  }

  lemma RowSnoc(es: seq<DiffEntry>, e: DiffEntry, p: Path)
    requires AllParsed(es) && Parsed(e)
    ensures RowOf(es + [e], p) ==
            if e.path != p then RowOf(es, p)
            else if Mentions(es, p) then Merged(RowOf(es, p), e.isDir, e.typ, e.kinds, e.modifier)
            else FreshRow(p, e.isDir, e.typ, e.kinds, e.modifier)
    ensures !Mentions(es, p) ==>
              Merged(RowOf(es, p), e.isDir, e.typ, e.kinds, e.modifier)
                == FreshRow(p, e.isDir, e.typ, e.kinds, e.modifier)
  {
    hide ModifierString, PrimaryChangeType, AllMarkers, MarkersIn, KindsAt, DiffNameOf;
    RecordsSnoc(es, e, p);
    KindsSnoc(es, e, p);
    KindsAtMentioned(es, p);
    RecordsMembers(es, p);
    ParsedIsTyped(e);
    if !Mentions(es, p) {
      assert KindsAt(es, p) + e.kinds == e.kinds;
    }
  }

  lemma RecordStep(rows: map<Path, DiffRow>, children: map<Option<Path>, seq<Path>>, es: seq<DiffEntry>, e: DiffEntry)
    requires Consistent(rows, children, es) && AllParsed(es) && Parsed(e)
    ensures Consistent(
              rows[e.path := if e.path in rows then Merged(rows[e.path], e.isDir, e.typ, e.kinds, e.modifier)
                             else FreshRow(e.path, e.isDir, e.typ, e.kinds, e.modifier)],
              if e.path in rows then children else WithChild(children, e.path), es + [e])
  {
    ListedGrows(rows.Keys, children, e.path);
    var rows' := rows[e.path := if e.path in rows then Merged(rows[e.path], e.isDir, e.typ, e.kinds, e.modifier)
                                else FreshRow(e.path, e.isDir, e.typ, e.kinds, e.modifier)];
    assert rows'.Keys == rows.Keys + {e.path};
    forall p | p in rows' ensures rows'[p] == RowOf(es + [e], p) {
      RowSnoc(es, e, p);
    }
  }

  lemma AncestorStep(rows: map<Path, DiffRow>, children: map<Option<Path>, seq<Path>>, es: seq<DiffEntry>, p: Path)
    requires Consistent(rows, children, es)
    ensures Consistent(
              rows[p := if p in rows then Merged(rows[p], true, ChangeUnknown, {}, "")
                        else FreshRow(p, true, ChangeUnknown, {}, "")],
              if p in rows then children else WithChild(children, p), es)
  {
    ListedGrows(rows.Keys, children, p);
    var rows' := rows[p := if p in rows then Merged(rows[p], true, ChangeUnknown, {}, "")
                           else FreshRow(p, true, ChangeUnknown, {}, "")];
    assert rows'.Keys == rows.Keys + {p};
    if p in rows {
      assert rows[p].kinds + {} == rows[p].kinds;
    } else {
      assert !Mentions(es, p);
      RecordsMembers(es, p);
    }
  }

  // Aggregates.

  /** The paths strictly below d whose merged kinds include k. */
  function BelowWith(es: seq<DiffEntry>, d: Path, k: Kind): set<Path> {
    set p | p in PathsOf(es) && Below(d, p) && k in KindsAt(es, p)
  }

  /** The counters of d, field by field. */
  ghost predicate StatsMean(es: seq<DiffEntry>, d: Path, s: DiffStats) {
    && s.added == |BelowWith(es, d, Added)| && s.removed == |BelowWith(es, d, Removed)|
    && s.modified == |BelowWith(es, d, Modified)| && s.metadataOnly == |BelowWith(es, d, Metadata)|
    && s.typeChanged == |BelowWith(es, d, TypeChanged)| && s.bitrot == |BelowWith(es, d, Bitrot)|
  }

  function StatsAt(agg: map<Path, DiffStats>, d: Path): DiffStats { if d in agg then agg[d] else NO_STATS }

  function Tally(merged: map<Path, set<Kind>>, done: set<Path>, d: Path, k: Kind): set<Path> {
    set p | p in done && p in merged && Below(d, p) && k in merged[p]
  }

  /** `agg` counts the paths done; of p only the ancestors longer than n. */
  ghost predicate Tallied(agg: map<Path, DiffStats>, merged: map<Path, set<Kind>>, done: set<Path>, p: Path, n: nat) {
    && (forall d :: d in agg <==> (exists q :: q in done && Below(d, q)) || (Below(d, p) && |d| >= n))
    && (forall d, k :: Counter(StatsAt(agg, d), k) ==
                       |Tally(merged, if Below(d, p) && |d| >= n then done + {p} else done, d, k)|)
  }

  lemma AddKindsCounts(s: DiffStats, ks: set<Kind>, k: Kind)
    ensures Counter(AddKinds(s, ks), k) == Counter(s, k) + Tick(ks, k)
  {
  }

  lemma TallyAdd(merged: map<Path, set<Kind>>, done: set<Path>, p: Path, d: Path, k: Kind)
    requires p in merged && p !in done
    ensures |Tally(merged, done + {p}, d, k)| ==
            |Tally(merged, done, d, k)| + if Below(d, p) then Tick(merged[p], k) else 0
  {
    if Below(d, p) && k in merged[p] {
      assert Tally(merged, done + {p}, d, k) == Tally(merged, done, d, k) + {p};
    } else {
      assert Tally(merged, done + {p}, d, k) == Tally(merged, done, d, k);
    }
  }

  lemma TallyStep(agg: map<Path, DiffStats>, merged: map<Path, set<Kind>>, done: set<Path>, p: Path, a: Path)
    requires p in merged && p !in done && Below(a, p)
    requires Tallied(agg, merged, done, p, |a| + 1)
    ensures Tallied(agg[a := AddKinds(StatsAt(agg, a), merged[p])], merged, done, p, |a|)
  {
    hide Tally, AddKinds, Counter;
    var agg' := agg[a := AddKinds(StatsAt(agg, a), merged[p])];
    SameLength(a, p);
    forall d, k ensures Counter(StatsAt(agg', d), k) ==
                        |Tally(merged, if Below(d, p) && |d| >= |a| then done + {p} else done, d, k)|
    {
      if d == a {
        AddKindsCounts(StatsAt(agg, a), merged[p], k);
        TallyAdd(merged, done, p, a, k);
        assert Counter(StatsAt(agg, a), k) == |Tally(merged, done, a, k)|;
      } else {
        assert StatsAt(agg', d) == StatsAt(agg, d);
      }
    }
  }

  lemma TallyDone(agg: map<Path, DiffStats>, merged: map<Path, set<Kind>>, done: set<Path>, p: Path, q: Path)
    requires p in merged && p !in done && Tallied(agg, merged, done, p, 0)
    ensures Tallied(agg, merged, done + {p}, q, |q|)
  {
    forall d, k ensures Counter(StatsAt(agg, d), k) == |Tally(merged, done + {p}, d, k)| {
      if !Below(d, p) {
        TallyAdd(merged, done, p, d, k);
      }
    }
  }

  lemma TallyStart(merged: map<Path, set<Kind>>)
    ensures Tallied(map[], merged, {}, [], 0)
  {
    forall d, k ensures Counter(StatsAt(map[], d), k) == |Tally(merged, {}, d, k)| {
      assert Tally(merged, {}, d, k) == {};
    }
  }

  lemma TallyTurn(agg: map<Path, DiffStats>, merged: map<Path, set<Kind>>, done: set<Path>, p: Path)
    requires Tallied(agg, merged, done, [], 0)
    ensures Tallied(agg, merged, done, p, |p|)
  {
    hide Tally, Counter;
    forall d: Path ensures !(Below(d, []) && |d| >= 0) && !(Below(d, p) && |d| >= |p|) {
    }
    forall d, k ensures Counter(StatsAt(agg, d), k) == |Tally(merged, done, d, k)| {
      assert !Below(d, []);
    }
  }

  lemma TallyAll(agg: map<Path, DiffStats>, merged: map<Path, set<Kind>>, es: seq<DiffEntry>)
    requires merged.Keys == PathsOf(es) && forall p :: p in merged ==> merged[p] == KindsAt(es, p)
    requires Tallied(agg, merged, merged.Keys, [], 0)
    ensures Aggregated(agg, es)
  {
    hide KindsAt;
    forall d, k ensures Tally(merged, merged.Keys, d, k) == BelowWith(es, d, k) {
    }
    forall e | e in es ensures e.path in merged.Keys {
      assert e.path in PathsOf(es);
    }
  }

  /** The kinds of each path, and the paths in order of first appearance. */
  method MergeKinds(es: seq<DiffEntry>) returns (merged: map<Path, set<Kind>>, order: seq<Path>)
    ensures merged.Keys == PathsOf(es) && forall p :: p in merged ==> merged[p] == KindsAt(es, p)
    ensures (forall p :: p in order <==> p in merged) && forall i, j :: 0 <= i < j < |order| ==> order[i] != order[j]
  {
    hide KindsAt;
    merged, order := map[], [];
    for i := 0 to |es|
      invariant forall p :: p in merged <==> Mentions(es[..i], p)
      invariant forall p :: p in merged ==> merged[p] == KindsAt(es[..i], p)
      invariant forall p :: p in order <==> p in merged
      invariant forall a, b :: 0 <= a < b < |order| ==> order[a] != order[b]
    {
      var e := es[i];
      assert es[..i + 1] == es[..i] + [e];
      forall p ensures Mentions(es[..i + 1], p) <==> Mentions(es[..i], p) || p == e.path {
        MentionsSnoc(es[..i], e, p);
      }
      forall p
        ensures KindsAt(es[..i + 1], p) == if e.path == p then KindsAt(es[..i], p) + e.kinds else KindsAt(es[..i], p)
      {
        KindsSnoc(es[..i], e, p);
      }
      if e.path !in merged {
        NoKindsUnmentioned(es[..i], e.path);
        assert KindsAt(es[..i], e.path) + e.kinds == e.kinds;
        order := order + [e.path];
        merged := merged[e.path := e.kinds];
      } else {
        merged := merged[e.path := merged[e.path] + e.kinds];
      }
    }
    assert es[..|es|] == es;
  }

  ghost predicate Aggregated(agg: map<Path, DiffStats>, es: seq<DiffEntry>) {
    && (forall d :: d in agg <==> exists e :: e in es && Below(d, e.path))
    && (forall d, k :: Counter(StatsAt(agg, d), k) == |BelowWith(es, d, k)|)
  }

  lemma AggregatesMean(agg: map<Path, DiffStats>, es: seq<DiffEntry>)
    requires Aggregated(agg, es)
    ensures forall d :: StatsMean(es, d, StatsAt(agg, d))
  {
    hide BelowWith;
    forall d ensures StatsMean(es, d, StatsAt(agg, d)) {
      var s := StatsAt(agg, d);
      assert Counter(s, Added) == |BelowWith(es, d, Added)| && Counter(s, Removed) == |BelowWith(es, d, Removed)|;
      assert Counter(s, Modified) == |BelowWith(es, d, Modified)|;
      assert Counter(s, Metadata) == |BelowWith(es, d, Metadata)|;
      assert Counter(s, TypeChanged) == |BelowWith(es, d, TypeChanged)|;
      assert Counter(s, Bitrot) == |BelowWith(es, d, Bitrot)|;
    }
  }

  method Aggregates(es: seq<DiffEntry>) returns (agg: map<Path, DiffStats>)
    ensures Aggregated(agg, es)
    ensures forall d :: StatsMean(es, d, StatsAt(agg, d))
  {
    hide Tallied, AddKinds, KindsAt, StatsMean;
    var merged, order := MergeKinds(es);
    agg := map[];
    ghost var done: set<Path> := {};
    TallyStart(merged);
    for i := 0 to |order|
      invariant done == set j | 0 <= j < i :: order[j]
      invariant Tallied(agg, merged, done, [], 0)
    {
      var p := order[i];
      assert p !in done;
      var anc := DiffParentOf(p);
      TallyTurn(agg, merged, done, p);
      while anc.Some?
        invariant anc.Some? ==> Below(anc.value, p)
        invariant Tallied(agg, merged, done, p, if anc.Some? then |anc.value| + 1 else 0)
        decreases if anc.Some? then |anc.value| + 1 else 0
      {
        TallyStep(agg, merged, done, p, anc.value);
        agg := agg[anc.value := AddKinds(StatsAt(agg, anc.value), merged[p])];
        anc := DiffParentOf(anc.value);
      }
      TallyDone(agg, merged, done, p, []);
      done := done + {p};
    }
    assert done == merged.Keys;
    TallyAll(agg, merged, es);
    AggregatesMean(agg, es);
  }

  // The tree.

  predicate RowLess(a: DiffRow, b: DiffRow) {
    if a.isDir != b.isDir then a.isDir else StrLess(a.name, b.name)
  }

  lemma RowLessIsStrictWeak()
    ensures StrictWeakOrder(RowLess)
  {
    StrLessIsStrictWeak();
  }

  /** Directory rows carry their subtree's counts. */
  function FullRow(es: seq<DiffEntry>, agg: map<Path, DiffStats>, p: Path): DiffRow {
    WithAggregate(RowOf(es, p), agg)
  }

  function WithAggregate(row: DiffRow, agg: map<Path, DiffStats>): DiffRow {
    if row.isDir then row.(aggregate := StatsAt(agg, row.path)) else row
  }

  ghost predicate RowBelongs(es: seq<DiffEntry>, agg: map<Path, DiffStats>, d: Option<Path>, r: DiffRow) {
    Known(es, r.path) && DiffParentOf(r.path) == d && r == FullRow(es, agg, r.path)
  }

  /** Every row that belongs under d, once, directories first and then by name. */
  ghost predicate ListingOf(es: seq<DiffEntry>, agg: map<Path, DiffStats>, d: Option<Path>, rows: seq<DiffRow>) {
    && Sorted(RowLess, rows) && Distinct(rows)
    && (forall r :: r in rows <==> RowBelongs(es, agg, d, r))
  }

  ghost predicate TreeOf(es: seq<DiffEntry>, tree: DiffTree) {
    && Aggregated(tree.aggregate, es)
    && (forall d :: d in tree.children <==> exists p :: Known(es, p) && DiffParentOf(p) == d)
    && (forall d :: d in tree.children ==> ListingOf(es, tree.aggregate, d, tree.children[d]))
  }

  lemma RowPaths(es: seq<DiffEntry>, agg: map<Path, DiffStats>, p: Path)
    ensures RowOf(es, p).path == FullRow(es, agg, p).path == p
  {
  }

  /** The rows of d's children are the rows that belong under d, each once. */
  lemma RowsBelong(es: seq<DiffEntry>, agg: map<Path, DiffStats>, d: Option<Path>, paths: set<Path>,
                   kids: seq<Path>, dst: seq<DiffRow>)
    requires ListedUnder(paths, d, kids)
    requires forall p :: p in paths && DiffParentOf(p) == d ==> p in kids
    requires forall p :: p in paths <==> Known(es, p)
    requires |dst| == |kids| && forall i :: 0 <= i < |dst| ==> dst[i] == FullRow(es, agg, kids[i])
    ensures Distinct(dst) && forall r :: r in dst <==> RowBelongs(es, agg, d, r)
  {
    hide RowOf, FullRow, Known;
    forall i | 0 <= i < |dst| ensures dst[i].path == kids[i] {
      RowPaths(es, agg, kids[i]);
    }
    forall r ensures r in dst <==> RowBelongs(es, agg, d, r) {
      if r in dst {
        var i :| 0 <= i < |dst| && dst[i] == r;
        assert kids[i] in kids;
      }
      if RowBelongs(es, agg, d, r) {
        assert r.path in kids;
        var i :| 0 <= i < |kids| && kids[i] == r.path;
        assert dst[i] == r;
      }
    }
  }

  lemma ListingSorted(es: seq<DiffEntry>, agg: map<Path, DiffStats>, d: Option<Path>, dst: seq<DiffRow>)
    requires Distinct(dst) && forall r :: r in dst <==> RowBelongs(es, agg, d, r)
    ensures ListingOf(es, agg, d, StableSort(RowLess, dst))
  {
    hide RowBelongs, RowLess;
    RowLessIsStrictWeak();
    StableSortSorts(RowLess, dst);
    PermutedDistinct(dst, StableSort(RowLess, dst));
    forall r ensures r in StableSort(RowLess, dst) <==> r in dst {
      assert r in StableSort(RowLess, dst) <==> r in multiset(dst);
    }
  }

  method BuildDiffTree(es: seq<DiffEntry>) returns (tree: DiffTree)
    requires AllParsed(es)
    ensures TreeOf(es, tree)
    ensures forall d, i, j :: d in tree.children && 0 <= i < j < |tree.children[d]| ==>
              var a, b := tree.children[d][i], tree.children[d][j];
              (b.isDir ==> a.isDir) && (a.isDir == b.isDir ==> StrLess(a.name, b.name))
    ensures forall d, r :: d in tree.children && r in tree.children[d] ==> RowCounts(es, r)
  {
    hide Consistent, Aggregated, ListingOf, Parsed, RowLess, FullRow, RowBelongs, RowCounts;
    var b := new TreeBuilder();
    NothingYet();
    for i := 0 to |es|
      invariant fresh(b)
      invariant Consistent(b.rows, b.children, es[..i])
      invariant forall p :: p in b.rows <==> Known(es[..i], p)
    {
      assert es[..i + 1] == es[..i] + [es[i]];
      b.Record(es[i], es[..i]);
    }
    assert es[..|es|] == es;
    var rows, listed := b.rows, b.children;
    KeysAreParents(es, rows, listed);
    var aggregate := Aggregates(es);
    var children: map<Option<Path>, seq<DiffRow>> := map[];
    var todo := listed.Keys;
    while todo != {}
      invariant todo <= listed.Keys && children.Keys == listed.Keys - todo
      invariant forall d :: d in children ==> ListingOf(es, aggregate, d, children[d])
    {
      var d :| d in todo;
      var dst := Materialize(es, rows, listed, aggregate, d);
      children := children[d := StableSort(RowLess, dst)];
      ListingSorted(es, aggregate, d, dst);
      todo := todo - {d};
    }
    tree := DiffTree(children, aggregate);
    forall d | d in children
      ensures forall i, j :: 0 <= i < j < |children[d]| ==>
                var a, b := children[d][i], children[d][j];
                (b.isDir ==> a.isDir) && (a.isDir == b.isDir ==> StrLess(a.name, b.name))
      ensures forall r :: r in children[d] ==> RowCounts(es, r)
    {
      ListingCounts(es, aggregate, d, children[d]);
      ListingOrder(es, aggregate, d, children[d]);
    }
  }

  method Materialize(ghost es: seq<DiffEntry>, rows: map<Path, DiffRow>, children: map<Option<Path>, seq<Path>>,
                     aggregate: map<Path, DiffStats>, d: Option<Path>) returns (dst: seq<DiffRow>)
    requires Consistent(rows, children, es) && (forall p :: p in rows <==> Known(es, p)) && d in children
    ensures Distinct(dst) && forall r :: r in dst <==> RowBelongs(es, aggregate, d, r)
  {
    hide RowOf, Known, RowBelongs;
    var kids := children[d];
    dst := [];
    assert ListedUnder(rows.Keys, d, kids);
    for i := 0 to |kids|
      invariant |dst| == i && forall j :: 0 <= j < i ==> dst[j] == FullRow(es, aggregate, kids[j])
    {
      assert kids[i] in kids;
      var row := rows[kids[i]];
      if row.isDir {
        row := row.(aggregate := StatsAt(aggregate, row.path));
      }
      dst := dst + [row];
    }
    RowsBelong(es, aggregate, d, rows.Keys, kids, dst);
  }

  lemma NothingYet()
    ensures Consistent(map[], map[], [])
  {
  }

  lemma KeysAreParents(es: seq<DiffEntry>, rows: map<Path, DiffRow>, children: map<Option<Path>, seq<Path>>)
    requires Consistent(rows, children, es) && forall p :: p in rows <==> Known(es, p)
    ensures forall d :: d in children <==> exists p :: Known(es, p) && DiffParentOf(p) == d
  {
    forall d | d in children ensures exists p :: Known(es, p) && DiffParentOf(p) == d {
      assert ListedUnder(rows.Keys, d, children[d]);
      assert children[d][0] in children[d];
    }
  }

  // What the tree promises.

  /** A directory row counts, for each kind, the paths below it that changed so;
      a file row counts nothing. */
  ghost predicate RowCounts(es: seq<DiffEntry>, r: DiffRow) {
    if r.isDir then StatsMean(es, r.path, r.aggregate) else r.aggregate == DiffStats(0, 0, 0, 0, 0, 0)
  }

  lemma ListingCounts(es: seq<DiffEntry>, agg: map<Path, DiffStats>, d: Option<Path>, rows: seq<DiffRow>)
    requires ListingOf(es, agg, d, rows) && Aggregated(agg, es)
    ensures forall r :: r in rows ==> RowCounts(es, r)
  {
    AggregatesMean(agg, es);
    hide StatsMean, Aggregated;
    forall r | r in rows ensures RowCounts(es, r) {
      assert RowBelongs(es, agg, d, r);
      NothingCounted(es, r.path);
      hide RowOf;
    }
  }

  lemma NothingCounted(es: seq<DiffEntry>, p: Path)
    ensures RowOf(es, p).aggregate == DiffStats(0, 0, 0, 0, 0, 0) && RowOf(es, p).path == p
  {
  }

  /** A row, spelled out: named after its path's end, a directory when its last
      record says so or it has none, with the kinds of all its records. */
  lemma RowMeans(es: seq<DiffEntry>, p: Path)
    ensures var row, rs := RowOf(es, p), Records(es, p);
      && row.path == p && row.name == (if p == [] then "/" else Base(p))
      && row.isDir == (rs == [] || rs[|rs| - 1].isDir)
      && (forall k :: k in row.kinds <==> exists e :: e in es && e.path == p && k in e.kinds)
      && (|rs| == 1 ==> row.modifier == rs[0].modifier)
      && (|rs| > 1 ==> MarkersMean(row.modifier, row.typ, row.kinds, false))
  {
    var rs := Records(es, p);
    if rs == [] {
      RecordsMembers(es, p);
    }
    forall k ensures k in KindsAt(es, p) <==> exists e :: e in es && e.path == p && k in e.kinds {
      KindsAtMembers(es, p, k);
    }
    MarkersRoundTrip(KindsAt(es, p));
    MarkersMeaning(ModifierString(KindsAt(es, p)));
    hide KindsAt, ModifierString, PrimaryChangeType, MarkersIn, AllMarkers, MarkersMean;
  }

  /** Listings show directories first, and names in order. */
  lemma ListingOrder(es: seq<DiffEntry>, agg: map<Path, DiffStats>, d: Option<Path>, rows: seq<DiffRow>)
    requires ListingOf(es, agg, d, rows)
    ensures forall i, j :: 0 <= i < j < |rows| ==>
              && (rows[j].isDir ==> rows[i].isDir)
              && (rows[i].isDir == rows[j].isDir ==> StrLess(rows[i].name, rows[j].name))
  {
    forall i, j | 0 <= i < j < |rows|
      ensures rows[j].isDir ==> rows[i].isDir
      ensures rows[i].isDir == rows[j].isDir ==> StrLess(rows[i].name, rows[j].name)
    {
      assert rows[i] in rows && rows[j] in rows && !RowLess(rows[j], rows[i]);
      SiblingsDiffer(es, agg, d, rows[i], rows[j]);
      hide RowBelongs, StrLess;
    }
  }

  /** Every path at or above a record is one row, in its parent's listing only. */
  lemma RowAppearsOnce(es: seq<DiffEntry>, tree: DiffTree, p: Path) returns (at: nat)
    requires TreeOf(es, tree) && Known(es, p)
    ensures DiffParentOf(p) in tree.children
    ensures var rows := tree.children[DiffParentOf(p)];
      && at < |rows| && rows[at] == FullRow(es, tree.aggregate, p)
      && forall i :: 0 <= i < |rows| && rows[i].path == p ==> i == at
    ensures forall d, i :: d in tree.children && 0 <= i < |tree.children[d]| && tree.children[d][i].path == p ==>
              d == DiffParentOf(p)
  {
    hide RowOf, Known, Aggregated;
    var agg := tree.aggregate;
    RowPaths(es, agg, p);
    var d := DiffParentOf(p);
    assert d in tree.children && ListingOf(es, agg, d, tree.children[d]);
    var rows := tree.children[d];
    assert RowBelongs(es, agg, d, FullRow(es, agg, p));
    at :| 0 <= at < |rows| && rows[at] == FullRow(es, agg, p);
    forall i | 0 <= i < |rows| && rows[i].path == p ensures i == at {
      assert rows[i] in rows;
    }
    forall d', i | d' in tree.children && 0 <= i < |tree.children[d']| && tree.children[d'][i].path == p
      ensures d' == d
    {
      assert ListingOf(es, agg, d', tree.children[d']);
      assert tree.children[d'][i] in tree.children[d'];
    }
  }

  /** A listing is determined by which rows belong in it. */
  lemma ListingUnique(a: seq<DiffEntry>, b: seq<DiffEntry>, agg: map<Path, DiffStats>, d: Option<Path>,
                      x: seq<DiffRow>, y: seq<DiffRow>)
    requires ListingOf(a, agg, d, x) && ListingOf(b, agg, d, y)
    requires forall p :: (Known(a, p) <==> Known(b, p)) && RowOf(a, p) == RowOf(b, p)
    ensures x == y
  {
    hide Known, RowLess;
    forall r ensures r in x <==> r in y {
      assert Known(a, r.path) <==> Known(b, r.path);
      assert RowOf(a, r.path) == RowOf(b, r.path);
      assert r in x <==> RowBelongs(a, agg, d, r);
      assert r in y <==> RowBelongs(b, agg, d, r);
    }
    hide RowOf;
    SameMembersPermute(x, y);
    RowLessIsStrictWeak();
    forall r, q | r in x && q in x && r != q ensures RowLess(r, q) || RowLess(q, r) {
      SiblingsDiffer(a, agg, d, r, q);
    }
    SortedUnique(RowLess, x, y);
  }

  lemma SiblingsDiffer(es: seq<DiffEntry>, agg: map<Path, DiffStats>, d: Option<Path>, r: DiffRow, q: DiffRow)
    requires RowBelongs(es, agg, d, r) && RowBelongs(es, agg, d, q) && r != q
    ensures RowLess(r, q) || RowLess(q, r)
  {
    RowNames(es, agg, r.path);
    RowNames(es, agg, q.path);
    hide RowOf, Known, FullRow;
    assert r.path != q.path;
    if r.isDir == q.isDir {
      assert r.path == [] || q.path == [] ==> r.path == q.path;
      assert r.path == Parent(r.path) + [Base(r.path)];
      assert q.path == Parent(q.path) + [Base(q.path)];
      StrLessTrichotomy(r.name, q.name);
    }
  }

  lemma RowNames(es: seq<DiffEntry>, agg: map<Path, DiffStats>, p: Path)
    ensures FullRow(es, agg, p).name == DiffNameOf(p)
  {
  }

  lemma AggregatesUnique(a: seq<DiffEntry>, b: seq<DiffEntry>, x: map<Path, DiffStats>, y: map<Path, DiffStats>)
    requires Aggregated(x, a) && Aggregated(y, b)
    requires forall p :: (Mentions(a, p) <==> Mentions(b, p)) && KindsAt(a, p) == KindsAt(b, p)
    ensures x == y
  {
    hide KindsAt;
    forall p ensures p in PathsOf(a) <==> p in PathsOf(b) {
      PathsAreMentioned(a, p);
      PathsAreMentioned(b, p);
      assert Mentions(a, p) <==> Mentions(b, p);
    }
    forall d ensures d in x <==> d in y {
      if e :| e in a && Below(d, e.path) {
        assert e.path in PathsOf(a) && e.path in PathsOf(b);
      }
      if e :| e in b && Below(d, e.path) {
        assert e.path in PathsOf(b) && e.path in PathsOf(a);
      }
    }
    forall d | d in x ensures x[d] == y[d] {
      forall k ensures Counter(x[d], k) == Counter(y[d], k) {
        assert BelowWith(a, d, k) == BelowWith(b, d, k);
        assert Counter(StatsAt(x, d), k) == |BelowWith(a, d, k)|;
        assert Counter(StatsAt(y, d), k) == |BelowWith(b, d, k)|;
      }
      StatsUnique(x[d], y[d]);
    }
  }

  lemma StatsUnique(s: DiffStats, t: DiffStats)
    requires forall k :: Counter(s, k) == Counter(t, k)
    ensures s == t
  {
    assert Counter(s, Added) == Counter(t, Added) && Counter(s, Removed) == Counter(t, Removed);
    assert Counter(s, Modified) == Counter(t, Modified) && Counter(s, Metadata) == Counter(t, Metadata);
    assert Counter(s, TypeChanged) == Counter(t, TypeChanged) && Counter(s, Bitrot) == Counter(t, Bitrot);
  }

  /** The tree depends on the records only through their rows and kinds. */
  lemma TreeUnique(a: seq<DiffEntry>, b: seq<DiffEntry>, x: DiffTree, y: DiffTree)
    requires TreeOf(a, x) && TreeOf(b, y)
    requires forall p :: (Known(a, p) <==> Known(b, p)) && RowOf(a, p) == RowOf(b, p)
    requires forall p :: (Mentions(a, p) <==> Mentions(b, p)) && KindsAt(a, p) == KindsAt(b, p)
    ensures x == y
  {
    hide KindsAt, Mentions, RowOf, ListingOf, Aggregated;
    AggregatesUnique(a, b, x.aggregate, y.aggregate);
    forall d ensures d in x.children <==> d in y.children {
      if p :| Known(a, p) && DiffParentOf(p) == d {
        assert Known(b, p);
      }
      if p :| Known(b, p) && DiffParentOf(p) == d {
        assert Known(a, p);
      }
    }
    forall d | d in x.children ensures x.children[d] == y.children[d] {
      ListingUnique(a, b, x.aggregate, d, x.children[d], y.children[d]);
    }
  }

  // Some tree is always there to speak of.

  ghost function Enumerated<T(!new)>(s: set<T>): (r: seq<T>)
    ensures Distinct(r) && forall x :: x in r <==> x in s
  {
    if s == {} then [] else var x :| x in s; [x] + Enumerated(s - {x})
  }

  /** The paths at or above a record. */
  ghost function KnownPaths(es: seq<DiffEntry>): (ps: set<Path>)
    ensures forall p :: p in ps <==> Known(es, p)
  {
    var ps := set e, n | e in es && 0 <= n <= |e.path| :: e.path[..n];
    assert forall p, e :: e in es && Under(p, e.path) ==> p == e.path[..|p|];
    assert forall e, n :: e in es && 0 <= n <= |e.path| ==> Under(e.path[..n], e.path);
    ps
  }

  ghost function CountsOf(es: seq<DiffEntry>, d: Path): (s: DiffStats)
    ensures forall k :: Counter(s, k) == |BelowWith(es, d, k)|
  {
    DiffStats(|BelowWith(es, d, Added)|, |BelowWith(es, d, Removed)|, |BelowWith(es, d, Modified)|,
              |BelowWith(es, d, Metadata)|, |BelowWith(es, d, TypeChanged)|, |BelowWith(es, d, Bitrot)|)
  }

  lemma AggregateExists(es: seq<DiffEntry>) returns (agg: map<Path, DiffStats>)
    ensures Aggregated(agg, es)
  {
    agg := map d | d in KnownPaths(es) && exists e :: e in es && Below(d, e.path) :: CountsOf(es, d);
    hide KindsAt, Counter;
    forall d ensures d in agg <==> exists e :: e in es && Below(d, e.path) {
      assert (exists e :: e in es && Below(d, e.path)) ==> Known(es, d);
    }
    forall d, k ensures Counter(StatsAt(agg, d), k) == |BelowWith(es, d, k)| {
      if d !in agg {
        assert forall p :: p in PathsOf(es) ==> exists e :: e in es && e.path == p;
        assert BelowWith(es, d, k) == {};
        NoneCounted(k);
      }
    }
  }

  lemma NoneCounted(k: Kind)
    ensures Counter(NO_STATS, k) == 0
  {
  }

  ghost function ListingFor(es: seq<DiffEntry>, agg: map<Path, DiffStats>, d: Option<Path>): (rows: seq<DiffRow>)
    ensures ListingOf(es, agg, d, rows)
  {
    hide RowOf, FullRow, Known;
    assert forall p :: FullRow(es, agg, p).path == p by {
      forall p { RowPaths(es, agg, p); }
    }
    var dst := Enumerated(set p | p in KnownPaths(es) && DiffParentOf(p) == d :: FullRow(es, agg, p));
    ListingSorted(es, agg, d, dst);
    StableSort(RowLess, dst)
  }

  /** Every list of records has a tree, and by TreeUnique only one. */
  lemma TreeExists(es: seq<DiffEntry>) returns (tree: DiffTree)
    ensures TreeOf(es, tree)
  {
    var agg := AggregateExists(es);
    hide Aggregated, ListingOf, Known, ListingFor;
    var parents := set p | p in KnownPaths(es) :: DiffParentOf(p);
    tree := DiffTree(map d | d in parents :: ListingFor(es, agg, d), agg);
  }

  /** The guard: records of one path agree on being a directory. */
  predicate DuplicatesAgree(es: seq<DiffEntry>) {
    forall e, f :: e in es && f in es && e.path == f.path ==> e.isDir == f.isDir
  }

  lemma RowsPermute(a: seq<DiffEntry>, b: seq<DiffEntry>, p: Path)
    requires multiset(a) == multiset(b) && DuplicatesAgree(a)
    ensures RowOf(a, p) == RowOf(b, p)
  {
    RecordsPermute(a, b, p);
    RecordsAgree(a, b, p);
    hide *;
    SameRow(a, b, p);
  }

  /** The same kinds, as many records, and the same of the first and last. */
  predicate Agree(a: seq<DiffEntry>, b: seq<DiffEntry>, p: Path) {
    var r, s := Records(a, p), Records(b, p);
    && KindsAt(a, p) == KindsAt(b, p) && |r| == |s|
    && (r != [] ==> r[|r| - 1].isDir == s[|s| - 1].isDir && (|r| == 1 ==> r == s))
  }

  lemma SameRow(a: seq<DiffEntry>, b: seq<DiffEntry>, p: Path)
    requires Agree(a, b, p)
    ensures RowOf(a, p) == RowOf(b, p)
  {
    hide KindsAt, ModifierString, PrimaryChangeType, Records;
  }

  lemma RecordsAgree(a: seq<DiffEntry>, b: seq<DiffEntry>, p: Path)
    requires multiset(a) == multiset(b) && DuplicatesAgree(a)
    ensures Agree(a, b, p)
  {
    RecordsPermute(a, b, p);
    RecordsMembers(a, p);
    RecordsMembers(b, p);
    SameMembers(a, b);
    hide KindsAt, Records, Mentions, Known;
    var r, s := Records(a, p), Records(b, p);
    assert |r| == |multiset(r)| == |multiset(s)| == |s|;
    if r != [] {
      var e, f := r[|r| - 1], s[|s| - 1];
      assert e in r && f in s && e.isDir == f.isDir;
      if |r| == 1 {
        assert r[0] in multiset(s);
      }
    }
  }

  /** Permuting the records changes nothing when duplicates agree. */
  lemma OrderDoesNotMatter(a: seq<DiffEntry>, b: seq<DiffEntry>, x: DiffTree, y: DiffTree)
    requires multiset(a) == multiset(b) && DuplicatesAgree(a) && TreeOf(a, x) && TreeOf(b, y)
    ensures x == y
  {
    forall p ensures (Known(a, p) <==> Known(b, p)) && RowOf(a, p) == RowOf(b, p)
    {
      RecordsPermute(a, b, p);
      RowsPermute(a, b, p);
    }
    forall p ensures (Mentions(a, p) <==> Mentions(b, p)) && KindsAt(a, p) == KindsAt(b, p) {
      RecordsPermute(a, b, p);
    }
    hide *;
    TreeUnique(a, b, x, y);
  }

  /** The same records with the i-th moved to the end. */
  function MoveLast(es: seq<DiffEntry>, i: nat): seq<DiffEntry>
    requires i < |es|
  {
    es[..i] + es[i + 1..] + [es[i]]
  }

  lemma MovedPermutes(es: seq<DiffEntry>, i: nat)
    requires i < |es|
    ensures multiset(MoveLast(es, i)) == multiset(es)
    ensures RowOf(MoveLast(es, i), es[i].path).isDir == es[i].isDir
  {
    assert es == es[..i] + [es[i]] + es[i + 1..];
    RecordsSnoc(es[..i] + es[i + 1..], es[i], es[i].path);
  }

  /** And only then: when two records of a path disagree, two orders of the same
      records make different trees. */
  lemma OrderMattersOtherwise(es: seq<DiffEntry>)
    returns (a: seq<DiffEntry>, b: seq<DiffEntry>, x: DiffTree, y: DiffTree)
    requires AllParsed(es) && !DuplicatesAgree(es)
    ensures multiset(a) == multiset(b) == multiset(es) && AllParsed(a) && AllParsed(b)
    ensures TreeOf(a, x) && TreeOf(b, y) && x != y
  {
    hide Parsed;
    var e, f :| e in es && f in es && e.path == f.path && e.isDir != f.isDir;
    var i :| 0 <= i < |es| && es[i] == e;
    var j :| 0 <= j < |es| && es[j] == f;
    MovedPermutes(es, i);
    MovedPermutes(es, j);
    var p := e.path;
    a, b := MoveLast(es, i), MoveLast(es, j);
    assert Under(p, e.path) && Known(es, p);
    hide Known, Records, KindsAt, RowOf, TreeOf, Mentions;
    RecordsPermute(es, a, p);
    RecordsPermute(es, b, p);
    SameMembers(es, a);
    SameMembers(es, b);
    x := TreeExists(a);
    y := TreeExists(b);
    TreesDiffer(a, b, x, y, p);
  }

  /** Such records: a file that is gone and a directory of its name. */
  lemma DuplicatesMayDisagree() returns (es: seq<DiffEntry>)
    ensures AllParsed(es) && !DuplicatesAgree(es)
  {
    var gone := DiffEntry(["a"], "-", ChangeRemoved, {Removed}, false);
    var added := DiffEntry(["a"], "+", ChangeAdded, {Added}, true);
    OneMarker('-');
    OneMarker('+');
    es := [gone, added];
    assert gone in es && added in es;
  }

  lemma TreesDiffer(a: seq<DiffEntry>, b: seq<DiffEntry>, x: DiffTree, y: DiffTree, p: Path)
    requires TreeOf(a, x) && TreeOf(b, y) && Known(a, p) && Known(b, p) && RowOf(a, p).isDir != RowOf(b, p).isDir
    ensures x != y
  {
    hide TreeOf, RowOf, Known;
    var i := RowAppearsOnce(a, x, p);
    var j := RowAppearsOnce(b, y, p);
    RowPaths(b, y.aggregate, p);
  }
}
