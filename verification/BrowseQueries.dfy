/** The queries of internal/browsedb/queries.go against what they mean: a
    function of the nodes that were added for one snapshot. A query may also
    fail with a storage error. */
module BrowseQueries {
  import opened Wrappers
  import opened Sorting
  import opened Paths
  import opened BrowseRows
  import opened BrowseIndex
  import opened Fuzzy

  const DIR_SIZE_PATH_CHUNK := 900
  const DEFAULT_SEARCH_LIMIT := 200

  // Meanings.

  /** What the tables keep of a modification time: whole seconds. */
  function Seconds(t: ModTime): ModTime {
    if t.Known? then Known(t.unix, 0, t.offset) else Unknown
  }

  function RawEntry(n: Node): Entry {
    Entry(JoinBrowsePath(Render(ParentOf(n)), NameOf(n)), NameOf(n), NormalizeType(n.typ, n.isDir),
          IsDirNode(n), n.size, Seconds(n.modTime), n.attrs)
  }

  /** Directories show their recursive size, everything else its own. */
  ghost function Sized(log: seq<Node>, e: Entry): Entry {
    if e.isDir then e.(size := RecursiveSize(log, e.path)) else e
  }

  ghost function SizedAll(log: seq<Node>, es: seq<Entry>): seq<Entry> {
    Map(e => Sized(log, e), es)
  }

  /** Directories first, then folded name, then name. */
  predicate RowBefore(a: NodeRow, b: NodeRow) {
    if a.isDir != b.isDir then a.isDir
    else if a.nameCI != b.nameCI then StrLess(a.nameCI, b.nameCI)
    else StrLess(a.name, b.name)
  }

  function NodeBefore(fold: char -> char): (Node, Node) -> bool {
    (m: Node, n: Node) => RowBefore(RowOf(fold, 0, 0, m), RowOf(fold, 0, 0, n))
  }

  /** The nodes whose cleaned parent is d, in display order. */
  ghost function Children(fold: char -> char, log: seq<Node>, d: Path): seq<Node> {
    StableSort(NodeBefore(fold), Filter(InDir(d), log))
  }

  ghost function Listing(fold: char -> char, log: seq<Node>, d: Path): seq<Entry> {
    SizedAll(log, Map(RawEntry, Children(fold, log, d)))
  }

  lemma NodeBeforeIsStrictWeak(fold: char -> char)
    ensures StrictWeakOrder(NodeBefore(fold))
  {
    StrLessIsStrictWeak();
  }

  /** A listing is a permutation of the directory's nodes, sorted. */
  lemma ListingIsChildren(fold: char -> char, log: seq<Node>, d: Path)
    ensures multiset(Children(fold, log, d)) == multiset(Filter(InDir(d), log))
    ensures Sorted(NodeBefore(fold), Children(fold, log, d))
    ensures forall n :: n in Children(fold, log, d) <==> n in log && ParentOf(n) == d
  {
    NodeBeforeIsStrictWeak(fold);
    StableSortSorts(NodeBefore(fold), Filter(InDir(d), log));
    FilterMembers(InDir(d), log);
    forall n ensures n in Children(fold, log, d) <==> n in Filter(InDir(d), log) {
      assert n in multiset(Children(fold, log, d)) <==> n in multiset(Filter(InDir(d), log));
    }
  }

  /** When restic's node name is empty or the path's base, the rebuilt path is
      the node's own, and a directory's size is the total below it. */
  lemma EntryPathIsNodePath(log: seq<Node>, n: Node)
    requires n.path != [] && (n.name == "" || n.name == Base(n.path))
    ensures RawEntry(n).path == Render(n.path)
    ensures Sized(log, RawEntry(n)).size == if IsDirNode(n) then TotalBelow(log, n.path) else n.size
  {
    RenderJoins(n.path);
    CleanUndoesRender(n.path);
  }

  /** An entry is its node's, field by field. */
  predicate IsEntryOf(e: Entry, d: Path, n: Node, total: nat) {
    && e.name == (if n.name != "" then n.name else if n.path == [] then "/" else Base(n.path))
    && e.path == JoinBrowsePath(Render(d), e.name)
    && e.isDir == (n.isDir || n.typ == "dir")
    && e.typ == (if n.typ != "" then n.typ else if n.isDir then "dir" else "file")
    && e.size == (if e.isDir then total else n.size)
    && e.attrs == n.attrs
    && e.modTime == (if n.modTime.Known? then Known(n.modTime.unix, 0, n.modTime.offset) else Unknown)
  }

  /** Directories before others, then by folded name, then by name. */
  predicate Precedes(fold: char -> char, a: Entry, b: Entry) {
    && (b.isDir ==> a.isDir)
    && (a.isDir == b.isDir ==>
          && !StrLess(Lower(fold, b.name), Lower(fold, a.name))
          && (Lower(fold, a.name) == Lower(fold, b.name) ==> !StrLess(b.name, a.name)))
  }

  /** A listing, spelled out: the directory's nodes, as many as there are, each
      with its own fields and directories with the total below the path they
      show, in order. */
  lemma ListingMeans(fold: char -> char, log: seq<Node>, d: Path)
    ensures var es, kids := Listing(fold, log, d), Children(fold, log, d);
      && multiset(kids) == multiset(Filter((n: Node) => (if n.path == [] then [] else Parent(n.path)) == d, log))
      && |es| == |kids|
      && (forall i :: 0 <= i < |es| ==> IsEntryOf(es[i], d, kids[i], RecursiveSize(log, es[i].path)))
      && (forall i, j :: 0 <= i < j < |es| ==> Precedes(fold, es[i], es[j]))
  {
    ListingIsChildren(fold, log, d);
    var es, kids := Listing(fold, log, d), Children(fold, log, d);
    FilterSame(InDir(d), (n: Node) => (if n.path == [] then [] else Parent(n.path)) == d, log);
    assert |es| == |kids| && forall i :: 0 <= i < |es| ==> es[i] == Sized(log, RawEntry(kids[i]));
    assert forall i, j :: 0 <= i < j < |kids| ==> !NodeBefore(fold)(kids[j], kids[i]);
    hide Children, Listing, Sized, RawEntry, IsEntryOf, Precedes, NodeBefore, RecursiveSize, Filter;
    forall i, j | 0 <= i < j < |es| ensures Precedes(fold, es[i], es[j]) {
      EntriesInOrder(fold, log, kids[i], kids[j]);
    }
    forall i | 0 <= i < |es| ensures IsEntryOf(es[i], d, kids[i], RecursiveSize(log, es[i].path)) {
      assert kids[i] in kids;
      EntryMeans(log, kids[i]);
    }
  }

  lemma EntryMeans(log: seq<Node>, n: Node)
    ensures var e := Sized(log, RawEntry(n)); IsEntryOf(e, ParentOf(n), n, RecursiveSize(log, e.path))
  {
    hide JoinBrowsePath, RecursiveSize;
  }

  lemma EntriesInOrder(fold: char -> char, log: seq<Node>, m: Node, n: Node)
    requires !NodeBefore(fold)(n, m)
    ensures Precedes(fold, Sized(log, RawEntry(m)), Sized(log, RawEntry(n)))
  {
    EntryKeys(fold, log, m);
    EntryKeys(fold, log, n);
    StrLessTrichotomy(RowOf(fold, 0, 0, m).nameCI, RowOf(fold, 0, 0, n).nameCI);
    hide RowOf, Sized, RawEntry, Lower, StrLess;
  }

  lemma EntryKeys(fold: char -> char, log: seq<Node>, n: Node)
    ensures var e, r := Sized(log, RawEntry(n)), RowOf(fold, 0, 0, n);
            e.isDir == r.isDir && Lower(fold, e.name) == r.nameCI && e.name == r.name
  {
  }

  lemma {:induction false} FilterSame<T>(p: T -> bool, q: T -> bool, s: seq<T>)
    requires forall i :: 0 <= i < |s| ==> p(s[i]) == q(s[i])
    ensures Filter(p, s) == Filter(q, s)
  {
    if s != [] {
      var init := s[..|s| - 1];
      assert forall i :: 0 <= i < |init| ==> init[i] == s[i];
      FilterSame(p, q, init);
      FilterSnoc(p, init, s[|s| - 1]);
      FilterSnoc(q, init, s[|s| - 1]);
      assert s == init + [s[|s| - 1]];
    }
  }

  // The join of snapshots and dirs.

  /** The committed index for (repo, snapshot), if any. */
  ghost predicate Holds(db: DB, k: nat, repo: string, snapshot: string)
    reads db
  {
    k < |db.history| && SameKey(db.history[k], repo, snapshot)
  }

  lemma HoldsUnique(db: DB, k: nat, j: nat, repo: string, snapshot: string)
    requires db.Valid() && Holds(db, k, repo, snapshot) && Holds(db, j, repo, snapshot)
    ensures k == j
  {
  }

  ghost predicate Indexed(db: DB, repo: string, snapshot: string)
    reads db
  {
    exists k: nat :: Holds(db, k, repo, snapshot)
  }

  method CommittedSid(db: DB, repo: string, snapshot: string) returns (sid: Option<nat>)
    requires db.Valid()
    ensures sid.Some? <==> Indexed(db, repo, snapshot)
    ensures sid.Some? ==> forall k: nat :: Holds(db, k, repo, snapshot) ==> db.history[k].sid == sid.value
  {
    var row := db.FindSnapshot(repo, snapshot);
    if row.None? || !row.value.indexed {
      return None;
    }
    ghost var k :| 0 <= k < |db.history| && SameKey(db.history[k], repo, snapshot) && row.value == db.snapshots[k];
    assert Holds(db, k, repo, snapshot);
    forall j: nat | Holds(db, j, repo, snapshot) ensures db.history[j].sid == row.value.sid {
      HoldsUnique(db, k, j, repo, snapshot);
    }
    sid := Some(row.value.sid);
  }

  /** `d.sid = ? AND d.path = ?`. */
  method DidOf(db: DB, ghost k: nat, sid: nat, path: Path) returns (did: Option<nat>)
    requires db.Valid() && k < |db.history| && sid == db.history[k].sid
    ensures did.Some? <==> path in db.history[k].order
    ensures did.Some? ==> did.value == DidIn(db.history[k].first, db.history[k].order, path)
  {
    for i := 0 to |db.dirs|
      invariant forall j :: 0 <= j < i ==> !(db.dirs[j].sid == sid && db.dirs[j].path == path)
    {
      if db.dirs[i].sid == sid && db.dirs[i].path == path {
        DirRowLookup(db.history, k, db.dirs[i]);
        return Some(db.dirs[i].did);
      }
    }
    assert path !in db.history[k].order by {
      if path in db.history[k].order {
        DirRowExists(db.history, k, path);
        assert false;
      }
    }
    did := None;
  }

  method SelectRows(rows: seq<NodeRow>, keep: NodeRow -> bool) returns (out: seq<NodeRow>)
    ensures out == Filter(keep, rows)
  {
    out := [];
    for i := 0 to |rows|
      invariant out == Filter(keep, rows[..i])
    {
      FilterSnoc(keep, rows[..i], rows[i]);
      assert rows[..i + 1] == rows[..i] + [rows[i]];
      if keep(rows[i]) {
        out := out + [rows[i]];
      }
    }
    assert rows[..|rows|] == rows;
  }

  // Listing.

  function RowIn(fold: char -> char, sid: nat, did: nat): Node -> NodeRow {
    (n: Node) => RowOf(fold, sid, did, n)
  }

  lemma {:induction false} RowsOfOneDir(fold: char -> char, c: Commit, log: seq<Node>, d: Path)
    requires forall i :: 0 <= i < |log| ==> ParentOf(log[i]) == d
    ensures RowsOf(fold, c.sid, c.first, c.order, log) == Map(RowIn(fold, c.sid, DidIn(c.first, c.order, d)), log)
  {
    RowsShape(fold, c.sid, c.first, c.order, log);
  }

  lemma FilterInDir(log: seq<Node>, d: Path)
    ensures forall i :: 0 <= i < |Filter(InDir(d), log)| ==> ParentOf(Filter(InDir(d), log)[i]) == d
  {
    FilterMembers(InDir(d), log);
    forall i | 0 <= i < |Filter(InDir(d), log)| ensures ParentOf(Filter(InDir(d), log)[i]) == d {
      assert Filter(InDir(d), log)[i] in Filter(InDir(d), log);
    }
  }

  /** `SELECT ... WHERE parent_did = ? ORDER BY is_dir DESC, name_ci, name`. */
  lemma OrderedRows(fold: char -> char, cs: seq<Commit>, k: nat, d: Path)
    requires GoodHistory(cs) && k < |cs| && IsDirOf(cs[k].log, d)
    ensures var did := DidIn(cs[k].first, cs[k].order, d);
      StableSort(RowBefore, Filter(HasParent(did), NodeTable(fold, cs)))
        == Map(RowIn(fold, cs[k].sid, did), Children(fold, cs[k].log, d))
  {
    var c := cs[k];
    var did := DidIn(c.first, c.order, d);
    ParentDidSelectsChildren(fold, cs, k, d);
    var kids := Filter(InDir(d), c.log);
    FilterInDir(c.log, d);
    hide GoodHistory, NodeTable, StableSort, Filter, IsDirOf;
    RowsOfOneDir(fold, c, kids, d);
    SortMapped(RowIn(fold, c.sid, did), RowBefore, NodeBefore(fold), kids);
  }

  lemma NoChildren(fold: char -> char, log: seq<Node>, d: Path)
    requires !IsDirOf(log, d)
    ensures Listing(fold, log, d) == []
  {
    forall i | 0 <= i < |log| ensures !InDir(d)(log[i]) {
      assert log[i] in log && !MakesDir(log[i], d);
    }
    FilterNone(InDir(d), log);
  }

  method RowEntries(rows: seq<NodeRow>, parent: string) returns (out: seq<Entry>)
    ensures |out| == |rows| && forall i :: 0 <= i < |rows| ==> out[i] == EntryOfRow(parent, rows[i])
  {
    out := [];
    for i := 0 to |rows|
      invariant |out| == i && forall j :: 0 <= j < i ==> out[j] == EntryOfRow(parent, rows[j])
    {
      out := out + [EntryOfRow(parent, rows[i])];
    }
  }

  lemma RowsBecomeEntries(fold: char -> char, sid: nat, did: nat, ns: seq<Node>, d: Path, out: seq<Entry>)
    requires |out| == |ns| && forall i :: 0 <= i < |ns| ==> ParentOf(ns[i]) == d
    requires forall i :: 0 <= i < |ns| ==> out[i] == EntryOfRow(Render(d), RowOf(fold, sid, did, ns[i]))
    ensures out == Map(RawEntry, ns)
  {
    forall i | 0 <= i < |ns| ensures out[i] == RawEntry(ns[i]) {
      assert ParentOf(ns[i]) == d;
    }
  }

  method Entries(db: DB, ghost k: nat, ghost sid: nat, did: nat, parent: Path) returns (out: seq<Entry>)
    requires db.Valid() && k < |db.history| && sid == db.history[k].sid
    requires parent in db.history[k].order && did == DidIn(db.history[k].first, db.history[k].order, parent)
    ensures out == Map(RawEntry, Children(db.fold, db.history[k].log, parent))
  {
    var selected := SelectRows(db.nodes, HasParent(did));
    var rows := StableSort(RowBefore, selected);
    out := RowEntries(rows, Render(parent));
    ghost var kids := Children(db.fold, db.history[k].log, parent);
    OrderedRows(db.fold, db.history, k, parent);
    assert forall i :: 0 <= i < |kids| ==> ParentOf(kids[i]) == parent by {
      ListingIsChildren(db.fold, db.history[k].log, parent);
      assert forall i :: 0 <= i < |kids| ==> kids[i] in kids;
    }
    RowsBecomeEntries(db.fold, sid, did, kids, parent, out);
  }

  // Directory sizes.

  lemma SizeOfDirRow(cs: seq<Commit>, k: nat, r: DirRow)
    requires GoodHistory(cs) && k < |cs| && r in DirTable(cs) && r.sid == cs[k].sid
    ensures RecursiveSize(cs[k].log, Render(r.path)) == r.subtreeSize
  {
    DirRowLookup(cs, k, r);
    CleanUndoesRender(r.path);
  }

  lemma PositiveSizeHasRow(cs: seq<Commit>, k: nat, s: string)
    requires GoodHistory(cs) && k < |cs| && RecursiveSize(cs[k].log, s) > 0
    ensures exists r :: r in DirTable(cs) && r.sid == cs[k].sid && Render(r.path) == s && r.subtreeSize > 0
  {
    var d := CleanBrowsePath(s);
    assert IsDirOf(cs[k].log, d) by {
      if !IsDirOf(cs[k].log, d) {
        NothingBelowNonDir(cs[k].log, d);
      }
    }
    DirRowExists(cs, k, d);
  }

  ghost predicate SizesRight(log: seq<Node>, sizes: map<string, nat>) {
    forall p :: p in sizes ==> sizes[p] == RecursiveSize(log, p)
  }

  predicate WantedSize(r: DirRow, sid: nat, chunk: seq<string>) {
    r.sid == sid && r.subtreeSize > 0 && Render(r.path) in chunk
  }

  /** `... AND d.subtree_size > 0 AND d.path IN (chunk)`. */
  method DirSizesChunk(db: DB, ghost k: nat, sid: nat, chunk: seq<string>, sizes0: map<string, nat>)
    returns (sizes: map<string, nat>)
    requires db.Valid() && k < |db.history| && sid == db.history[k].sid
    requires SizesRight(db.history[k].log, sizes0)
    ensures SizesRight(db.history[k].log, sizes)
    ensures forall p :: p in sizes0 ==> p in sizes
    ensures forall p :: p in chunk && RecursiveSize(db.history[k].log, p) > 0 ==> p in sizes
  {
    hide RecursiveSize, Render, GoodHistory, NodeTable, SnapTable, DirTable;
    sizes := sizes0;
    for i := 0 to |db.dirs|
      invariant SizesRight(db.history[k].log, sizes)
      invariant forall p :: p in sizes0 ==> p in sizes
      invariant forall j :: 0 <= j < i && WantedSize(db.dirs[j], sid, chunk) ==> Render(db.dirs[j].path) in sizes
    {
      var r := db.dirs[i];
      if WantedSize(r, sid, chunk) {
        SizeOfDirRow(db.history, k, r);
        sizes := sizes[Render(r.path) := r.subtreeSize];
      }
    }
    forall p | p in chunk && RecursiveSize(db.history[k].log, p) > 0 ensures p in sizes {
      PositiveSizeHasRow(db.history, k, p);
    }
  }

  method DirSizes(db: DB, ghost k: nat, sid: nat, paths: seq<string>) returns (sizes: Result<map<string, nat>, Error>)
    requires db.Valid() && k < |db.history| && sid == db.history[k].sid
    ensures sizes.Ok? ==> SizesRight(db.history[k].log, sizes.value)
    ensures sizes.Ok? ==> forall p :: p in paths && RecursiveSize(db.history[k].log, p) > 0 ==> p in sizes.value
    ensures db.calm ==> sizes.Ok?
  {
    var out: map<string, nat> := map[];
    var start := 0;
    while start < |paths|
      invariant 0 <= start <= |paths|
      invariant SizesRight(db.history[k].log, out)
      invariant forall p :: p in paths[..start] && RecursiveSize(db.history[k].log, p) > 0 ==> p in out
    {
      var fails := db.Fails();
      if fails {
        return Err(Storage);
      }
      var end := if start + DIR_SIZE_PATH_CHUNK < |paths| then start + DIR_SIZE_PATH_CHUNK else |paths|;
      assert paths[..end] == paths[..start] + paths[start..end];
      out := DirSizesChunk(db, k, sid, paths[start..end], out);
      start := end;
    }
    assert paths[..start] == paths;
    sizes := Ok(out);
  }

  method FillDirSizes(db: DB, ghost k: nat, sid: nat, entries: seq<Entry>) returns (r: Result<seq<Entry>, Error>)
    requires db.Valid() && k < |db.history| && sid == db.history[k].sid
    ensures r.Ok? ==> r.value == SizedAll(db.history[k].log, entries)
    ensures db.calm ==> r.Ok?
  {
    var out, dirPaths := entries, [];
    for i := 0 to |out|
      invariant |out| == |entries|
      invariant forall j :: i <= j < |out| ==> out[j] == entries[j]
      invariant forall j :: 0 <= j < i ==> out[j] == if entries[j].isDir then entries[j].(size := 0) else entries[j]
      invariant forall j :: 0 <= j < i && entries[j].isDir ==> entries[j].path in dirPaths
    {
      if out[i].isDir {
        out := out[i := out[i].(size := 0)];
        dirPaths := dirPaths + [out[i].path];
      }
    }
    if |dirPaths| == 0 {
      return Ok(out);
    }
    var sizes := DirSizes(db, k, sid, dirPaths);
    if sizes.Err? {
      return Err(sizes.error);
    }
    for i := 0 to |out|
      invariant |out| == |entries|
      invariant forall j :: i <= j < |out| ==> out[j] == if entries[j].isDir then entries[j].(size := 0) else entries[j]
      invariant forall j :: 0 <= j < i ==> out[j] == Sized(db.history[k].log, entries[j])
    {
      if out[i].isDir {
        if out[i].path in sizes.value {
          out := out[i := out[i].(size := sizes.value[out[i].path])];
        }
      }
    }
    r := Ok(out);
  }

  /** An unindexed snapshot or an unknown directory lists as empty. */
  method ListDir(db: DB, repo: string, snapshot: string, dir: string) returns (r: Result<seq<Entry>, Error>)
    requires db.Valid()
    ensures r.Ok? && !Indexed(db, repo, snapshot) ==> r.value == []
    ensures r.Ok? ==> forall k: nat :: Holds(db, k, repo, snapshot) ==>
              r.value == Listing(db.fold, db.history[k].log, CleanBrowsePath(dir))
    ensures db.calm ==> r.Ok?
  {
    hide GoodHistory, NodeTable, DirTable, SnapTable, Listing, CleanBrowsePath;
    var fails := db.Fails();
    if fails {
      return Err(Storage);
    }
    var parent := CleanBrowsePath(dir);
    var sid := CommittedSid(db, repo, snapshot);
    if sid.None? {
      return Ok([]);
    }
    ghost var k: nat :| Holds(db, k, repo, snapshot);
    r := ListCommitted(db, k, sid.value, parent);
    forall j: nat | Holds(db, j, repo, snapshot) ensures j == k {
      HoldsUnique(db, j, k, repo, snapshot);
    }
  }

  method ListCommitted(db: DB, ghost k: nat, sid: nat, parent: Path) returns (r: Result<seq<Entry>, Error>)
    requires db.Valid() && k < |db.history| && sid == db.history[k].sid
    ensures r.Ok? ==> r.value == Listing(db.fold, db.history[k].log, parent)
    ensures db.calm ==> r.Ok?
  {
    var did := DidOf(db, k, sid, parent);
    if did.None? {
      NoChildren(db.fold, db.history[k].log, parent);
      return Ok([]);
    }
    var entries := Entries(db, k, sid, did.value, parent);
    r := FillDirSizes(db, k, sid, entries);
  }
}
