/** The three tables of internal/browsedb as values, and what they must hold:
    the table contents after any sequence of committed indexes. A committed
    index is the list of nodes that were added, in arrival order, plus the order
    in which its directories were given IDs. */
module BrowseRows {
  import opened Wrappers
  import opened Sorting
  import opened Paths

  const NODE_TYPE_FILE := "file"
  const NODE_TYPE_DIR := "dir"

  datatype ModTime = Unknown | Known(unix: int, nanos: nat, offset: int)

  datatype Attrs = Attrs(perms: string, uid: nat, gid: nat, ownerKnown: bool, linkTarget: string)

  /** One node as `restic ls` reports it; sizes are taken to be non-negative. */
  datatype RawNode = RawNode(path: string, name: string, typ: string, isDir: bool, size: nat,
                             modTime: ModTime, attrs: Attrs)

  /** The same node with its path cleaned. */
  datatype Node = Node(path: Path, name: string, typ: string, isDir: bool, size: nat,
                       modTime: ModTime, attrs: Attrs)

  function Clean(r: RawNode): Node {
    Node(CleanBrowsePath(r.path), r.name, r.typ, r.isDir, r.size, r.modTime, r.attrs)
  }

  datatype Entry = Entry(path: string, name: string, typ: string, isDir: bool, size: nat,
                         modTime: ModTime, attrs: Attrs)

  datatype SnapRow = SnapRow(sid: nat, repo: string, snapshot: string, entries: nat, indexed: bool)

  datatype DirRow = DirRow(did: nat, sid: nat, path: Path, subtreeSize: nat)

  datatype NodeRow = NodeRow(sid: nat, parentDid: nat, name: string, typ: string, isDir: bool, size: nat,
                             mtimeUnix: int, mtimeOffset: int, mtimeKnown: bool, attrs: Attrs, nameCI: string)

  function NormalizeType(t: string, isDir: bool): string {
    if t != "" then t else if isDir then NODE_TYPE_DIR else NODE_TYPE_FILE
  }

  /** strings.ToLower, one rune at a time. */
  function Lower(fold: char -> char, s: string): string {
    seq(|s|, i requires 0 <= i < |s| => fold(s[i]))
  }

  function ParentOf(n: Node): Path {
    if n.path == [] then [] else Parent(n.path)
  }

  function NameOf(n: Node): string { BrowseName(n.name, n.path) }

  predicate IsDirNode(n: Node)
    ensures IsDirNode(n) <==> n.isDir || n.typ == "dir"
  {
    n.isDir || NormalizeType(n.typ, n.isDir) == NODE_TYPE_DIR
  }

  function RowOf(fold: char -> char, sid: nat, did: nat, n: Node): NodeRow {
    NodeRow(sid, did, NameOf(n), NormalizeType(n.typ, n.isDir), IsDirNode(n), n.size,
            if n.modTime.Known? then n.modTime.unix else 0,
            if n.modTime.Known? then n.modTime.offset else 0,
            n.modTime.Known?, n.attrs, Lower(fold, NameOf(n)))
  }

  function EntryOfRow(parent: string, r: NodeRow): Entry {
    Entry(JoinBrowsePath(parent, r.name), r.name, r.typ, r.isDir, r.size,
          if r.mtimeKnown then Known(r.mtimeUnix, 0, r.mtimeOffset) else Unknown, r.attrs)
  }

  // What a set of nodes means, without any table.

  /** Bytes of the non-directory nodes at any depth below d. */
  ghost function TotalBelow(log: seq<Node>, d: Path): nat {
    if log == [] then 0
    else
      var n := log[|log| - 1];
      TotalBelow(log[..|log| - 1], d) + if !IsDirNode(n) && Under(d, ParentOf(n)) then n.size else 0
  }

  /** Bytes of the non-directory nodes directly inside d. */
  ghost function TotalIn(log: seq<Node>, d: Path): nat {
    if log == [] then 0
    else
      var n := log[|log| - 1];
      TotalIn(log[..|log| - 1], d) + if !IsDirNode(n) && d == ParentOf(n) then n.size else 0
  }

  ghost predicate MakesDir(n: Node, p: Path) {
    Under(p, ParentOf(n)) || (IsDirNode(n) && p == n.path)
  }

  /** p is the root, a directory node, or an ancestor of some node. */
  ghost predicate IsDirOf(log: seq<Node>, p: Path) {
    p == [] || exists n :: n in log && MakesDir(n, p)
  }

  /** An entry's size when it is a directory: the recursive total for the
      directory its path string names, zero when it names none. */
  ghost function RecursiveSize(log: seq<Node>, s: string): nat {
    var d := CleanBrowsePath(s);
    if Render(d) == s then TotalBelow(log, d) else 0
  }

  lemma {:induction false} NothingBelowNonDir(log: seq<Node>, d: Path)
    requires !IsDirOf(log, d)
    ensures TotalBelow(log, d) == 0
  {
    if log != [] {
      var n := log[|log| - 1];
      assert n in log;
      assert !MakesDir(n, d);
      assert forall m :: m in log[..|log| - 1] ==> m in log;
      NothingBelowNonDir(log[..|log| - 1], d);
    }
  }

  // Committed indexes and the tables they leave behind.

  datatype Commit = Committed(repo: string, snapshot: string, sid: nat, first: nat,
                           order: seq<Path>, log: seq<Node>)

  function IndexIn<T(==)>(s: seq<T>, x: T): (i: nat)
    requires x in s
    ensures i < |s| && s[i] == x
  {
    if s[0] == x then 0 else 1 + IndexIn(s[1..], x)
  }

  ghost predicate GoodOrder(order: seq<Path>, log: seq<Node>) {
    && order != [] && order[0] == []
    && Distinct(order)
    && (forall p :: p in order <==> IsDirOf(log, p))
  }

  ghost predicate GoodCommit(c: Commit) {
    && c.first > 0
    && GoodOrder(c.order, c.log)
    && (forall n :: n in c.log ==> n.path != [])
  }

  ghost predicate SameKey(c: Commit, repo: string, snapshot: string) {
    c.repo == repo && c.snapshot == snapshot
  }

  ghost predicate GoodHistory(cs: seq<Commit>) {
    && (forall i :: 0 <= i < |cs| ==> GoodCommit(cs[i]))
    && (forall i, j :: 0 <= i < j < |cs| ==> cs[i].first + |cs[i].order| <= cs[j].first)
    && (forall i, j :: 0 <= i < j < |cs| ==> cs[i].sid != cs[j].sid)
    && (forall i, j :: 0 <= i < j < |cs| ==> !SameKey(cs[i], cs[j].repo, cs[j].snapshot))
  }

  lemma ParentIsDir(log: seq<Node>, n: Node)
    requires n in log
    ensures IsDirOf(log, ParentOf(n))
  {
    assert MakesDir(n, ParentOf(n));
  }

  ghost function DidIn(first: nat, order: seq<Path>, p: Path): nat {
    if p in order then first + IndexIn(order, p) else 0
  }

  ghost function RowsOf(fold: char -> char, sid: nat, first: nat, order: seq<Path>, log: seq<Node>): seq<NodeRow> {
    if log == [] then []
    else
      var n := log[|log| - 1];
      RowsOf(fold, sid, first, order, log[..|log| - 1]) + [RowOf(fold, sid, DidIn(first, order, ParentOf(n)), n)]
  }

  ghost function CommitRows(fold: char -> char, c: Commit): seq<NodeRow> {
    RowsOf(fold, c.sid, c.first, c.order, c.log)
  }

  ghost function CommitDirs(c: Commit): seq<DirRow> {
    seq(|c.order|, i requires 0 <= i < |c.order| =>
      DirRow(c.first + i, c.sid, c.order[i], TotalBelow(c.log, c.order[i])))
  }

  ghost function NodeTable(fold: char -> char, cs: seq<Commit>): seq<NodeRow> {
    if cs == [] then [] else NodeTable(fold, cs[..|cs| - 1]) + CommitRows(fold, cs[|cs| - 1])
  }

  ghost function DirTable(cs: seq<Commit>): seq<DirRow> {
    if cs == [] then [] else DirTable(cs[..|cs| - 1]) + CommitDirs(cs[|cs| - 1])
  }

  ghost function SnapTable(cs: seq<Commit>): seq<SnapRow> {
    seq(|cs|, i requires 0 <= i < |cs| => SnapRow(cs[i].sid, cs[i].repo, cs[i].snapshot, |cs[i].log|, true))
  }

  // Selecting rows by directory ID alone, or by snapshot ID alone, picks out one commit.

  function HasParent(did: nat): NodeRow -> bool { (r: NodeRow) => r.parentDid == did }

  function HasSid(sid: nat): NodeRow -> bool { (r: NodeRow) => r.sid == sid }

  function InDir(d: Path): Node -> bool { (n: Node) => ParentOf(n) == d }

  lemma {:induction false} RowsShape(fold: char -> char, sid: nat, first: nat, order: seq<Path>, log: seq<Node>)
    ensures var rows := RowsOf(fold, sid, first, order, log);
      && |rows| == |log|
      && forall i :: 0 <= i < |log| ==>
           rows[i] == RowOf(fold, sid, DidIn(first, order, ParentOf(log[i])), log[i])
  {
    hide RowOf, DidIn, ParentOf;
    if log != [] {
      RowsShape(fold, sid, first, order, log[..|log| - 1]);
    }
  }

  lemma CommitRowsShape(fold: char -> char, c: Commit)
    requires GoodCommit(c)
    ensures |CommitRows(fold, c)| == |c.log|
    ensures forall r :: r in CommitRows(fold, c) ==>
              r.sid == c.sid && c.first <= r.parentDid < c.first + |c.order|
  {
    RowsShape(fold, c.sid, c.first, c.order, c.log);
    forall n | n in c.log ensures ParentOf(n) in c.order { ParentIsDir(c.log, n); }
  }

  lemma {:induction false} SelectOneCommit(fold: char -> char, cs: seq<Commit>, k: nat, keep: NodeRow -> bool)
    requires k < |cs|
    requires forall i, r :: 0 <= i < |cs| && i != k && r in CommitRows(fold, cs[i]) ==> !keep(r)
    ensures Filter(keep, NodeTable(fold, cs)) == Filter(keep, CommitRows(fold, cs[k]))
  {
    hide GoodHistory, CommitRows;
    var init, last := cs[..|cs| - 1], cs[|cs| - 1];
    FilterConcat(keep, NodeTable(fold, init), CommitRows(fold, last));
    if k == |cs| - 1 {
      SelectNoCommit(fold, init, keep);
    } else {
      SelectOneCommit(fold, init, k, keep);
      FilterNone(keep, CommitRows(fold, last));
    }
  }

  lemma {:induction false} SelectNoCommit(fold: char -> char, cs: seq<Commit>, keep: NodeRow -> bool)
    requires forall i, r :: 0 <= i < |cs| && r in CommitRows(fold, cs[i]) ==> !keep(r)
    ensures Filter(keep, NodeTable(fold, cs)) == []
  {
    if cs != [] {
      var init, last := cs[..|cs| - 1], cs[|cs| - 1];
      FilterConcat(keep, NodeTable(fold, init), CommitRows(fold, last));
      SelectNoCommit(fold, init, keep);
      FilterNone(keep, CommitRows(fold, last));
    }
  }

  lemma IndexInjective<T>(s: seq<T>, x: T, y: T)
    requires x in s && y in s
    ensures IndexIn(s, x) == IndexIn(s, y) ==> x == y
  {
  }

  lemma RowsSnoc(fold: char -> char, sid: nat, first: nat, order: seq<Path>, log: seq<Node>, n: Node)
    ensures RowsOf(fold, sid, first, order, log + [n])
         == RowsOf(fold, sid, first, order, log) + [RowOf(fold, sid, DidIn(first, order, ParentOf(n)), n)]
  {
    assert (log + [n])[..|log + [n]| - 1] == log;
  }

  lemma SelectRow(fold: char -> char, sid: nat, first: nat, order: seq<Path>, n: Node, d: Path)
    requires d in order && first > 0
    ensures var r := RowOf(fold, sid, DidIn(first, order, ParentOf(n)), n);
      One(HasParent(DidIn(first, order, d)), r) == if ParentOf(n) == d then [r] else []
  {
    if ParentOf(n) in order {
      IndexInjective(order, d, ParentOf(n));
    }
  }

  lemma SelectDirRowsSnoc(fold: char -> char, sid: nat, first: nat, order: seq<Path>, init: seq<Node>, n: Node, d: Path)
    requires d in order && first > 0
    requires Filter(HasParent(DidIn(first, order, d)), RowsOf(fold, sid, first, order, init))
          == RowsOf(fold, sid, first, order, Filter(InDir(d), init))
    ensures Filter(HasParent(DidIn(first, order, d)), RowsOf(fold, sid, first, order, init + [n]))
         == RowsOf(fold, sid, first, order, Filter(InDir(d), init + [n]))
  {
    var keep, kept := HasParent(DidIn(first, order, d)), Filter(InDir(d), init);
    var rows, r := RowsOf(fold, sid, first, order, init), RowOf(fold, sid, DidIn(first, order, ParentOf(n)), n);
    RowsSnoc(fold, sid, first, order, init, n);
    FilterSnoc(keep, rows, r);
    FilterSnoc(InDir(d), init, n);
    SelectRow(fold, sid, first, order, n, d);
    if ParentOf(n) == d {
      RowsSnoc(fold, sid, first, order, kept, n);
    } else {
      assert kept + [] == kept && Filter(keep, rows) + [] == Filter(keep, rows);
    }
  }

  lemma {:induction false} SelectDirRows(fold: char -> char, sid: nat, first: nat, order: seq<Path>, log: seq<Node>,
                                         d: Path)
    requires d in order && first > 0
    ensures Filter(HasParent(DidIn(first, order, d)), RowsOf(fold, sid, first, order, log))
         == RowsOf(fold, sid, first, order, Filter(InDir(d), log))
  {
    if log != [] {
      var init, n := log[..|log| - 1], log[|log| - 1];
      SelectDirRows(fold, sid, first, order, init, d);
      SelectDirRowsSnoc(fold, sid, first, order, init, n, d);
      assert log == init + [n];
    }
  }

  /** `WHERE parent_did = ?` needs no snapshot condition: over any committed
      history it returns exactly one snapshot's children of one directory. */
  lemma ParentDidSelectsChildren(fold: char -> char, cs: seq<Commit>, k: nat, d: Path)
    requires GoodHistory(cs) && k < |cs| && IsDirOf(cs[k].log, d)
    ensures Filter(HasParent(DidIn(cs[k].first, cs[k].order, d)), NodeTable(fold, cs))
         == RowsOf(fold, cs[k].sid, cs[k].first, cs[k].order, Filter(InDir(d), cs[k].log))
  {
    var c := cs[k];
    var keep := HasParent(DidIn(c.first, c.order, d));
    forall i, r | 0 <= i < |cs| && i != k && r in CommitRows(fold, cs[i]) ensures !keep(r) {
      CommitRowsShape(fold, cs[i]);
    }
    SelectOneCommit(fold, cs, k, keep);
    SelectDirRows(fold, c.sid, c.first, c.order, c.log, d);
  }

  lemma {:induction false} FilterAll<T>(keep: T -> bool, s: seq<T>)
    requires forall i :: 0 <= i < |s| ==> keep(s[i])
    ensures Filter(keep, s) == s
  {
    if s != [] {
      FilterAll(keep, s[..|s| - 1]);
    }
  }

  lemma SidSelectsCommit(fold: char -> char, cs: seq<Commit>, k: nat)
    requires GoodHistory(cs) && k < |cs|
    ensures Filter(HasSid(cs[k].sid), NodeTable(fold, cs)) == CommitRows(fold, cs[k])
  {
    var keep := HasSid(cs[k].sid);
    forall i, r | 0 <= i < |cs| && i != k && r in CommitRows(fold, cs[i]) ensures !keep(r) {
      CommitRowsShape(fold, cs[i]);
    }
    SelectOneCommit(fold, cs, k, keep);
    CommitRowsShape(fold, cs[k]);
    FilterAll(keep, CommitRows(fold, cs[k]));
  }

  // The directory table.

  lemma {:induction false} DirTableRows(cs: seq<Commit>)
    ensures forall r :: r in DirTable(cs) <==> exists i :: 0 <= i < |cs| && r in CommitDirs(cs[i])
  {
    if cs != [] {
      DirTableRows(cs[..|cs| - 1]);
      assert cs == cs[..|cs| - 1] + [cs[|cs| - 1]];
    }
  }

  /** (sid, path) and did are both keys of the directory table. */
  lemma DirRowLookup(cs: seq<Commit>, k: nat, r: DirRow)
    requires GoodHistory(cs) && k < |cs| && r in DirTable(cs)
    requires r.sid == cs[k].sid || cs[k].first <= r.did < cs[k].first + |cs[k].order|
    ensures r.path in cs[k].order && r.sid == cs[k].sid
    ensures r.did == DidIn(cs[k].first, cs[k].order, r.path)
    ensures r.subtreeSize == TotalBelow(cs[k].log, r.path)
  {
    DirTableRows(cs);
    var i :| 0 <= i < |cs| && r in CommitDirs(cs[i]);
    var j :| 0 <= j < |cs[i].order| && CommitDirs(cs[i])[j] == r;
    assert i == k;
    assert cs[k].order[IndexIn(cs[k].order, r.path)] == cs[k].order[j];
  }

  lemma DirRowExists(cs: seq<Commit>, k: nat, p: Path)
    requires GoodHistory(cs) && k < |cs| && p in cs[k].order
    ensures DirRow(DidIn(cs[k].first, cs[k].order, p), cs[k].sid, p, TotalBelow(cs[k].log, p)) in DirTable(cs)
  {
    DirTableRows(cs);
    var c, i := cs[k], IndexIn(cs[k].order, p);
    assert CommitDirs(c)[i] == DirRow(c.first + i, c.sid, p, TotalBelow(c.log, p));
  }
}
