/** The index writer of internal/browsedb (index.go and index_insert.go): a
    transaction that interns directories, keeps a one-entry parent cache,
    buffers rows in batches, folds sizes, and either commits all of it or
    leaves the tables as they were. Storage failures happen at any time. */
module BrowseIndex {
  import opened Wrappers
  import opened Sorting
  import opened Paths
  import opened BrowseRows
  import opened IndexFold

  datatype Error = AlreadyIndexed | DiskLimit | Storage

  const DISK_CHECK_ROWS := 10000
  const BATCH_ROWS := 1000
  const DIR_BATCH_ROWS := 1000

  /** The session database. `history` is ghost: the indexes committed so far. */
  class DB {
    const fold: char -> char
    const maxDiskBytes: nat
    const calm: bool              // nothing fails: no call, no stream, no disk ceiling
    var snapshots: seq<SnapRow>
    var dirs: seq<DirRow>
    var nodes: seq<NodeRow>
    ghost var history: seq<Commit>

    ghost predicate Valid()
      reads this
    {
      && GoodHistory(history)
      && snapshots == SnapTable(history)
      && dirs == DirTable(history)
      && nodes == NodeTable(fold, history)
    }

    constructor (fold: char -> char, maxDiskBytes: nat, calm: bool)
      ensures Valid() && history == []
      ensures this.fold == fold && this.maxDiskBytes == maxDiskBytes && this.calm == calm
    {
      this.fold := fold;
      this.maxDiskBytes := maxDiskBytes;
      this.calm := calm;
      snapshots, dirs, nodes, history := [], [], [], [];
    }

    /** Whether the next call fails. */
    method Fails() returns (failed: bool)
      ensures calm ==> !failed
    {
      failed := *;
      if calm {
        failed := false;
      }
    }

    /** The row for (repo, snapshot), which is unique. */
    method FindSnapshot(repo: string, snapshot: string) returns (row: Option<SnapRow>)
      requires Valid()
      ensures row.None? <==> forall c :: c in history ==> !SameKey(c, repo, snapshot)
      ensures row.Some? ==> exists k :: 0 <= k < |history| && SameKey(history[k], repo, snapshot)
                                        && row.value == snapshots[k]
      ensures row.Some? ==> row.value.indexed
    {
      for i := 0 to |snapshots|
        invariant forall j :: 0 <= j < i ==> !SameKey(history[j], repo, snapshot)
      {
        if snapshots[i].repo == repo && snapshots[i].snapshot == snapshot {
          assert SameKey(history[i], repo, snapshot);
          return Some(snapshots[i]);
        }
      }
      return None;
    }

    /** `SELECT COALESCE(MAX(did), 0) FROM dirs`. */
    method MaxDid() returns (m: nat)
      requires Valid()
      ensures forall i :: 0 <= i < |history| ==> history[i].first + |history[i].order| <= m + 1
    {
      m := 0;
      for i := 0 to |dirs|
        invariant forall j :: 0 <= j < i ==> dirs[j].did <= m
      {
        if dirs[i].did > m {
          m := dirs[i].did;
        }
      }
      forall i | 0 <= i < |history| ensures history[i].first + |history[i].order| <= m + 1 {
        var c := history[i];
        var p := c.order[|c.order| - 1];
        DirRowExists(history, i, p);
        IdxOf(c.order, |c.order| - 1);
      }
    }

    /** The row ID SQLite hands out: one past the largest. */
    method NextSid() returns (sid: nat)
      ensures forall j :: 0 <= j < |snapshots| ==> snapshots[j].sid < sid
    {
      sid := 1;
      for i := 0 to |snapshots|
        invariant forall j :: 0 <= j < i ==> snapshots[j].sid < sid
      {
        if snapshots[i].sid >= sid {
          sid := snapshots[i].sid + 1;
        }
      }
    }
  }

  class IndexTx {
    const db: DB
    const repo: string
    const snapshot: string
    var sid: nat
    var buf: seq<NodeRow>
    var dirBuf: seq<DirBufRow>
    var count: nat
    var insertedRows: nat
    var nextDID: nat
    var firstDID: nat
    var subtreeSizes: seq<nat>
    var sinceDiskCheck: nat
    var dirs: map<Path, nat>
    var cachedParent: string
    var cachedParentDID: nat
    var failed: Option<Error>

    // What SQLite holds for this transaction until it ends.
    var writtenNodes: seq<NodeRow>
    var writtenDirs: seq<DirRow>
    var done: bool

    ghost var order: seq<Path>    // interned directories, oldest first
    ghost var log: seq<Node>      // accepted nodes, oldest first
    ghost var cachedPath: Path

    // Predicates compared with `true` are handed on as one fact instead of
    // being taken apart at every call.

    /** Directory bookkeeping. */
    ghost predicate DirsValid()
      reads this
    {
      && Interned(firstDID, order, dirs, dirBuf) == true
      && |subtreeSizes| == |order|
      && nextDID == firstDID + |order|
    }

    /** The parent cache holds an interned directory and its ID. */
    ghost predicate CacheValid()
      reads this
    {
      cachedParent == Render(cachedPath) && cachedPath in dirs && dirs[cachedPath] == cachedParentDID
    }

    /** The buffered and written rows are those of the accepted nodes. */
    ghost predicate ContentValid()
      reads this, db
    {
      && Content(db.fold, sid, firstDID, order, subtreeSizes, writtenNodes + buf, log) == true
      && insertedRows == |writtenNodes| && count == |log|
      && writtenDirs == []
    }

    /** The transaction is new to the database it was begun on. */
    ghost predicate FreshIn(history: seq<Commit>)
      reads this
    {
      forall i :: 0 <= i < |history| ==>
        && history[i].first + |history[i].order| <= firstDID
        && history[i].sid != sid
        && !SameKey(history[i], repo, snapshot)
    }

    ghost predicate OpenValid()
      reads this, db
    {
      DirsValid() && CacheValid() && ContentValid()
    }

    /** Until its first failure, an open transaction is consistent. */
    ghost predicate TxValid()
      reads this, db
    {
      !done && (failed.None? ==> OpenValid() == true)
    }

    /** An open transaction that may still be committed. */
    ghost predicate Valid()
      reads this, db
    {
      TxValid() == true && db.Valid() == true && FreshIn(db.history) == true
    }

    constructor (db: DB, repo: string, snapshot: string, sid: nat, firstDID: nat)
      ensures this.db == db && this.repo == repo && this.snapshot == snapshot
      ensures this.sid == sid && this.firstDID == firstDID == nextDID
      ensures buf == [] && dirBuf == [] && subtreeSizes == [] && dirs == map[] && order == [] && log == []
      ensures count == 0 && insertedRows == 0 && writtenNodes == [] && writtenDirs == []
      ensures failed.None? && !done
    {
      this.db, this.repo, this.snapshot, this.sid, this.firstDID := db, repo, snapshot, sid, firstDID;
      buf, dirBuf, count, insertedRows, nextDID, subtreeSizes := [], [], 0, 0, firstDID, [];
      sinceDiskCheck, dirs, cachedParent, cachedParentDID, failed := 0, map[], "", 0, None;
      writtenNodes, writtenDirs, done := [], [], false;
      order, log, cachedPath := [], [], [];
    }

    method Append(p: Path, parentDID: nat) returns (did: nat)
      requires DirsValid() && p !in dirs
      requires if p == [] then parentDID == 0 else Parent(p) in dirs && parentDID == dirs[Parent(p)]
      modifies this`nextDID, this`dirs, this`dirBuf, this`subtreeSizes, this`order
      ensures DirsValid() && order == old(order) + [p] && subtreeSizes == old(subtreeSizes) + [0]
      ensures dirs == old(dirs)[p := did]
    {
      did := nextDID;
      var row := DirBufRow(did, parentDID, p, 0);
      InternOne(firstDID, order, dirs, dirBuf, p, row);
      nextDID := nextDID + 1;
      dirs := dirs[p := did];
      dirBuf := dirBuf + [row];
      subtreeSizes := subtreeSizes + [0];
      order := order + [p];
    }

    /** Interns p and every missing ancestor. */
    method EnsureCleanDir(p: Path) returns (did: nat)
      requires DirsValid()
      modifies this`nextDID, this`dirs, this`dirBuf, this`subtreeSizes, this`order
      ensures DirsValid() && p in dirs && dirs[p] == did
      ensures Grown(old(order), old(subtreeSizes), order, subtreeSizes, p)
      decreases |p|
    {
      if p in dirs {
        GrownAlready(firstDID, order, dirs, dirBuf, subtreeSizes, p);
        return dirs[p];
      }
      var parentDID := 0;
      InternedDistinct(firstDID, order, dirs, dirBuf);
      if p != [] {
        parentDID := EnsureCleanDir(Parent(p));
        UnderStep(p);
        GrownByOne(old(order), old(subtreeSizes), order, subtreeSizes, p);
      }
      did := Append(p, parentDID);
    }

    method CacheParent(parent: Path, did: nat)
      requires parent in dirs && dirs[parent] == did
      modifies this`cachedParent, this`cachedParentDID, this`cachedPath
      ensures CacheValid()
    {
      cachedParent, cachedParentDID, cachedPath := Render(parent), did, parent;
    }

    /** The parent's ID, from the one-entry cache when the bytes say it is a hit. */
    method ParentDID(p: Path) returns (did: nat)
      requires p != [] && DirsValid() && CacheValid()
      modifies this`nextDID, this`dirs, this`dirBuf, this`subtreeSizes, this`order
      modifies this`cachedParent, this`cachedParentDID, this`cachedPath
      ensures DirsValid() && CacheValid() && Parent(p) in dirs && dirs[Parent(p)] == did
      ensures Grown(old(order), old(subtreeSizes), order, subtreeSizes, Parent(p))
    {
      if SameParentPath(Render(p), cachedParent) {
        SameParentExact(p, cachedPath);
        GrownAlready(firstDID, order, dirs, dirBuf, subtreeSizes, Parent(p));
        return cachedParentDID;
      }
      did := EnsureCleanDir(Parent(p));
      CacheParent(Parent(p), did);
    }

    /** A directory node is interned and becomes the cached parent, since restic
        emits a directory just before its children. */
    method PlaceDir(p: Path) returns (parentDID: nat)
      requires p != [] && DirsValid() && CacheValid()
      modifies this`nextDID, this`dirs, this`dirBuf, this`subtreeSizes, this`order
      modifies this`cachedParent, this`cachedParentDID, this`cachedPath
      ensures DirsValid() && CacheValid() && Parent(p) in dirs && dirs[Parent(p)] == parentDID
      ensures Grown(old(order), old(subtreeSizes), order, subtreeSizes, p)
    {
      parentDID := ParentDID(p);
      ghost var order1, dirs1, dirBuf1, sizes1 := order, dirs, dirBuf, subtreeSizes;
      var did := EnsureCleanDir(p);
      GrownTwice(old(order), old(subtreeSizes), order1, sizes1, order, subtreeSizes, p);
      IdsStable(firstDID, order1, dirs1, dirBuf1, order, dirs, dirBuf, Parent(p));
      CacheParent(p, did);
    }

    /** The offset of an interned directory in the size accumulators. */
    lemma DidOffset(p: Path)
      requires DirsValid() && p in dirs
      ensures dirs[p] == DidIn(firstDID, order, p)
      ensures firstDID <= dirs[p] < firstDID + |order| && order[dirs[p] - firstDID] == p
    {
      InternedDistinct(firstDID, order, dirs, dirBuf);
      var i := IndexIn(order, p);
      assert InternedAt(firstDID, order[i], dirs, dirBuf[i], i);
      IdxOf(order, i);
    }

    /** Interns what n needs and credits its bytes to its parent. */
    method Place(n: Node) returns (parentDID: nat)
      requires n.path != [] && DirsValid() && CacheValid()
      modifies this`nextDID, this`dirs, this`dirBuf, this`subtreeSizes, this`order
      modifies this`cachedParent, this`cachedParentDID, this`cachedPath
      ensures DirsValid() && CacheValid() && ParentOf(n) in dirs && dirs[ParentOf(n)] == parentDID
      ensures Placed(old(order), old(subtreeSizes), order, subtreeSizes, n)
    {
      if IsDirNode(n) {
        parentDID := PlaceDir(n.path);
        PlacedDir(old(order), old(subtreeSizes), order, subtreeSizes, n);
      } else {
        parentDID := ParentDID(n.path);
        DidOffset(ParentOf(n));
        InternedDistinct(firstDID, order, dirs, dirBuf);
        var at := parentDID - firstDID;
        PlacedFile(old(order), old(subtreeSizes), order, subtreeSizes, n, at);
        subtreeSizes := subtreeSizes[at := subtreeSizes[at] + n.size];
      }
    }

    /** Hands the buffered rows to the database. */
    method Flush() returns (err: Option<Error>)
      modifies this`buf, this`writtenNodes, this`insertedRows, this`failed
      ensures err == failed && (old(failed).Some? ==> failed == old(failed))
      ensures db.calm && old(failed).None? ==> failed.None?
      ensures failed.None? ==> buf == [] && writtenNodes == old(writtenNodes) + old(buf)
      ensures failed.None? ==> insertedRows == old(insertedRows) + |old(buf)|
    {
      if failed.Some? {
        return failed;
      }
      var rows := buf;
      buf := [];
      var fails := db.Fails();
      if fails {
        failed := Some(Storage);
        return failed;
      }
      writtenNodes := writtenNodes + rows;
      insertedRows := insertedRows + |rows|;
      err := None;
    }

    method CheckDisk() returns (err: Option<Error>)
      ensures db.maxDiskBytes == 0 || db.calm ==> err.None?
    {
      if db.maxDiskBytes == 0 {
        return None;
      }
      err := *;
      if db.calm {
        err := None;
      }
    }

    /** Accepts one node of the stream; the first failure sticks. */
    method Add(raw: RawNode) returns (err: Option<Error>)
      requires TxValid()
      modifies this`nextDID, this`dirs, this`dirBuf, this`subtreeSizes, this`order
      modifies this`cachedParent, this`cachedParentDID, this`cachedPath
      modifies this`buf, this`log, this`count, this`writtenNodes, this`insertedRows
      modifies this`failed, this`sinceDiskCheck
      ensures TxValid()
      ensures old(failed).Some? ==> err == failed == old(failed) && log == old(log)
      ensures err.Some? ==> err == failed
      ensures db.calm && old(failed).None? ==> err.None?
      ensures err.None? ==> failed.None? && log == old(log) + if Clean(raw).path == [] then [] else [Clean(raw)]
    {
      hide Content, Interned;
      var n := Clean(raw);
      if failed.Some? {
        return failed;
      }
      if n.path == [] {
        return None;
      }
      Accept(n);
      err := AfterAdd();
    }

    /** The batch and disk-ceiling checks at the end of Add. */
    method AfterAdd() returns (err: Option<Error>)
      requires failed.None? && OpenValid() == true
      modifies this`buf, this`writtenNodes, this`insertedRows, this`failed, this`sinceDiskCheck
      ensures err == failed && (failed.None? ==> OpenValid() == true) && (db.calm ==> err.None?)
    {
      hide Content, Interned;
      if |buf| >= BATCH_ROWS {
        err := FlushOpen();
        if err.Some? {
          return;
        }
      }
      sinceDiskCheck := sinceDiskCheck + 1;
      if sinceDiskCheck >= DISK_CHECK_ROWS {
        sinceDiskCheck := 0;
        failed := CheckDisk();
      }
      err := failed;
    }

    method FlushOpen() returns (err: Option<Error>)
      requires failed.None? && OpenValid()
      modifies this`buf, this`writtenNodes, this`insertedRows, this`failed
      ensures err == failed && (failed.None? ==> OpenValid() && buf == []) && (db.calm ==> err.None?)
    {
      err := Flush();
      if err.None? {
        assert writtenNodes + buf == old(writtenNodes) + old(buf);
      }
    }

    method Accept(n: Node)
      requires OpenValid() && n.path != []
      modifies this`nextDID, this`dirs, this`dirBuf, this`subtreeSizes, this`order
      modifies this`cachedParent, this`cachedParentDID, this`cachedPath
      modifies this`buf, this`log, this`count
      ensures OpenValid() && log == old(log) + [n]
    {
      hide Content, Interned, Placed;
      ghost var rows := writtenNodes + buf;
      var parentDID := Place(n);
      DidOffset(ParentOf(n));
      InternedDistinct(firstDID, order, dirs, dirBuf);
      AcceptNode(db.fold, sid, firstDID, old(order), old(subtreeSizes), rows, log, n, order, subtreeSizes);
      var row := RowOf(db.fold, sid, parentDID, n);
      assert writtenNodes + (buf + [row]) == rows + [row];
      AddRow(n, row);
    }

    method AddRow(ghost n: Node, row: NodeRow)
      modifies this`buf, this`log, this`count
      ensures buf == old(buf) + [row] && log == old(log) + [n] && count == old(count) + 1
    {
      buf := buf + [row];
      log := log + [n];
      count := count + 1;
    }

    /** One backward pass: every child is visited before its parent. */
    method FoldSubtreeSizes()
      requires OpenValid() == true
      modifies this`subtreeSizes, this`dirBuf
      ensures |dirBuf| == |order|
      ensures forall i :: 0 <= i < |order| ==> dirBuf[i].did == firstDID + i && dirBuf[i].path == order[i]
      ensures forall i :: 0 <= i < |order| ==> dirBuf[i].subtreeSize == TotalBelow(log, order[i])
    {
      FoldUp();
      RecordSizes();
    }

    method FoldUp()
      requires OpenValid()
      modifies this`subtreeSizes
      ensures SizesAt(order, subtreeSizes, log, 0)
    {
      StartFold();
      var k := |dirBuf|;
      while k > 0
        invariant 0 <= k <= |order|
        invariant SizesAt(order, subtreeSizes, log, k)
      {
        k := k - 1;
        FoldOneStep(firstDID, order, dirs, dirBuf, subtreeSizes, log, k);
        var v := dirBuf[k];
        if v.parentDid >= firstDID {
          var at := v.parentDid - firstDID;
          subtreeSizes := subtreeSizes[at := subtreeSizes[at] + subtreeSizes[v.did - firstDID]];
        }
      }
    }

    lemma StartFold()
      requires OpenValid()
      ensures AllDirsIn(order, log) && SizesAt(order, subtreeSizes, log, |order|)
    {
      ContentDirs(order, log);
      forall j | 0 <= j < |order| ensures subtreeSizes[j] == Folded(order, log, order[j], |order|) {
        FoldedNothingYet(order, log, order[j]);
      }
    }

    method RecordSizes()
      requires Interned(firstDID, order, dirs, dirBuf) && SizesAt(order, subtreeSizes, log, 0)
      modifies this`dirBuf
      ensures |dirBuf| == |order|
      ensures forall i :: 0 <= i < |order| ==> dirBuf[i].did == firstDID + i && dirBuf[i].path == order[i]
      ensures forall i :: 0 <= i < |order| ==> dirBuf[i].subtreeSize == TotalBelow(log, order[i])
    {
      ghost var rows := dirBuf;
      for i := 0 to |dirBuf|
        invariant |dirBuf| == |rows|
        invariant forall j :: i <= j < |rows| ==> dirBuf[j] == rows[j]
        invariant forall j :: 0 <= j < i ==> dirBuf[j].did == firstDID + j && dirBuf[j].path == order[j]
        invariant forall j :: 0 <= j < i ==> dirBuf[j].subtreeSize == TotalBelow(log, order[j])
      {
        assert InternedAt(firstDID, order[i], dirs, rows[i], i);
        FoldedEverything(order, log, order[i]);
        dirBuf := dirBuf[i := dirBuf[i].(subtreeSize := subtreeSizes[dirBuf[i].did - firstDID])];
      }
    }

    /** Writes the directories in parameter-safe chunks. */
    method FlushDirs() returns (err: Option<Error>)
      requires failed.None? && writtenDirs == []
      modifies this`writtenDirs, this`dirBuf, this`failed
      ensures err == failed && (db.calm ==> err.None?)
      ensures failed.None? ==> writtenDirs == DirRowsOf(sid, old(dirBuf)) && dirBuf == []
    {
      ghost var all := dirBuf;
      assert [] + all == all;
      ghost var sent: seq<DirBufRow> := [];
      while |dirBuf| > 0
        invariant failed.None?
        invariant sent + dirBuf == all && writtenDirs == DirRowsOf(sid, sent)
        decreases |dirBuf|
      {
        var n := if |dirBuf| < DIR_BATCH_ROWS then |dirBuf| else DIR_BATCH_ROWS;
        var fails := db.Fails();
        if fails {
          failed := Some(Storage);
          return failed;
        }
        DirRowsConcat(sid, sent, dirBuf[..n]);
        writtenDirs := writtenDirs + DirRowsOf(sid, dirBuf[..n]);
        sent := sent + dirBuf[..n];
        dirBuf := dirBuf[n..];
      }
      assert sent == all;
      err := None;
    }

    lemma OpenedEmpty()
      requires DirsValid() && log == [] && writtenNodes == [] && buf == []
      requires Grown([], [], order, subtreeSizes, [])
      ensures Content(db.fold, sid, firstDID, order, subtreeSizes, writtenNodes + buf, log)
    {
      InternedDistinct(firstDID, order, dirs, dirBuf);
      assert [] in order;
      assert Under(order[0], []);
    }

    method OpenRoot()
      requires firstDID > 0 && nextDID == firstDID && !done
      requires order == [] && log == [] && dirs == map[] && dirBuf == [] && subtreeSizes == []
      requires writtenNodes == [] && buf == [] && writtenDirs == [] && insertedRows == count == 0
      modifies this`nextDID, this`dirs, this`dirBuf, this`subtreeSizes, this`order
      modifies this`cachedParent, this`cachedParentDID, this`cachedPath
      ensures TxValid()
    {
      hide Content, Interned;
      InternedEmpty(firstDID);
      var rootDID := EnsureCleanDir([]);
      CacheParent([], rootDID);
      OpenedEmpty();
    }

    /** What this transaction would add to the history. */
    ghost function ThisCommit(): Commit
      reads this
    {
      Committed(repo, snapshot, sid, firstDID, order, log)
    }

    lemma OpenIsGood()
      requires OpenValid() == true
      ensures GoodCommit(ThisCommit()) && insertedRows + |buf| == |log|
      ensures writtenNodes + buf == CommitRows(db.fold, ThisCommit())
    {
      InternedDistinct(firstDID, order, dirs, dirBuf);
      RowsShape(db.fold, sid, firstDID, order, log);
    }

    /** Commit up to the point where the tables change. */
    method Prepare() returns (err: Option<Error>)
      requires TxValid() == true
      modifies this`buf, this`dirBuf, this`insertedRows, this`subtreeSizes
      modifies this`failed, this`writtenNodes, this`writtenDirs
      ensures err == failed && (old(failed).Some? ==> failed == old(failed))
      ensures db.calm && old(failed).None? ==> err.None?
      ensures failed.None? ==> ReadyToApply()
    {
      hide Content, Interned, GoodHistory, NodeTable, DirTable, SnapTable, GoodCommit, CommitRows, CommitDirs;
      if failed.Some? {
        return failed;
      }
      err := FlushOpen();
      if err.Some? {
        return;
      }
      OpenIsGood();
      assert writtenNodes + [] == writtenNodes;
      FoldSubtreeSizes();
      ghost var rows := dirBuf;
      err := FlushDirs();
      if err.Some? {
        return;
      }
      DirRowsAreCommitDirs(ThisCommit(), rows);
      failed := CheckDisk();
      err := failed;
    }

    ghost predicate ReadyToApply()
      reads this, db
    {
      && GoodCommit(ThisCommit()) == true
      && insertedRows == |log| == count
      && writtenNodes == CommitRows(db.fold, ThisCommit())
      && writtenDirs == CommitDirs(ThisCommit())
    }

    /** The marker update and the database commit, which either may fail. */
    method Apply() returns (err: Option<Error>)
      requires failed.None? && ReadyToApply() && db.Valid() == true && FreshIn(db.history) == true
      modifies this`failed, db
      ensures db.Valid() && err == failed && (db.calm ==> err.None?)
      ensures err.None? ==> db.history == old(db.history) + [ThisCommit()]
      ensures err.None? ==> db.snapshots == old(db.snapshots) + [SnapRow(sid, repo, snapshot, count, true)]
      ensures err.Some? ==> unchanged(db)
    {
      hide Content, Interned, GoodHistory, NodeTable, DirTable, SnapTable, GoodCommit, CommitRows, CommitDirs;
      var fails := db.Fails();
      if fails {
        failed := Some(Storage);
        return failed;
      }
      HistorySnoc(db.fold, db.history, ThisCommit());
      db.snapshots := db.snapshots + [SnapRow(sid, repo, snapshot, insertedRows, true)];
      db.dirs := db.dirs + writtenDirs;
      db.nodes := db.nodes + writtenNodes;
      db.history := db.history + [ThisCommit()];
      err := None;
    }

    /** Terminal: everything is applied and marked indexed with the accepted
        count, or the tables stay as they were. */
    method Commit() returns (err: Option<Error>)
      requires Valid()
      modifies this, db
      ensures done && db.Valid()
      ensures old(failed).Some? ==> err == old(failed)
      ensures db.calm && old(failed).None? ==> err.None?
      ensures err.None? ==> db.history == old(db.history) + [old(ThisCommit())]
      ensures err.None? ==> db.snapshots == old(db.snapshots) + [SnapRow(sid, repo, snapshot, old(count), true)]
      ensures err.Some? ==> unchanged(db)
    {
      hide Content, Interned, GoodHistory, NodeTable, DirTable, SnapTable, GoodCommit, CommitRows, CommitDirs;
      err := Prepare();
      if err.None? {
        err := Apply();
      }
      done := true;
    }

    method Rollback()
      modifies this`done
      ensures done
    {
      done := true;
    }
  }

  lemma HistorySnoc(fold: char -> char, cs: seq<Commit>, c: Commit)
    requires GoodHistory(cs) && GoodCommit(c)
    requires forall i :: 0 <= i < |cs| ==>
               && cs[i].first + |cs[i].order| <= c.first
               && cs[i].sid != c.sid
               && !SameKey(cs[i], c.repo, c.snapshot)
    ensures GoodHistory(cs + [c])
    ensures NodeTable(fold, cs + [c]) == NodeTable(fold, cs) + CommitRows(fold, c)
    ensures DirTable(cs + [c]) == DirTable(cs) + CommitDirs(c)
    ensures SnapTable(cs + [c]) == SnapTable(cs) + [SnapRow(c.sid, c.repo, c.snapshot, |c.log|, true)]
  {
    assert (cs + [c])[..|cs|] == cs;
  }

  function DirRowsOf(sid: nat, rows: seq<DirBufRow>): seq<DirRow> {
    seq(|rows|, i requires 0 <= i < |rows| => DirRow(rows[i].did, sid, rows[i].path, rows[i].subtreeSize))
  }

  lemma DirRowsConcat(sid: nat, a: seq<DirBufRow>, b: seq<DirBufRow>)
    ensures DirRowsOf(sid, a + b) == DirRowsOf(sid, a) + DirRowsOf(sid, b)
  {
  }

  lemma DirRowsAreCommitDirs(c: Commit, rows: seq<DirBufRow>)
    requires |rows| == |c.order|
    requires forall i :: 0 <= i < |rows| ==> rows[i].did == c.first + i && rows[i].path == c.order[i]
    requires forall i :: 0 <= i < |rows| ==> rows[i].subtreeSize == TotalBelow(c.log, c.order[i])
    ensures DirRowsOf(c.sid, rows) == CommitDirs(c)
  {
  }

  /** The snapshot's ID: a committed snapshot is refused. No reservation ever
      outlives its transaction, so the reuse branch finds nothing to reuse. */
  method AllocSid(db: DB, repo: string, snapshot: string) returns (r: Result<nat, Error>)
    requires db.Valid()
    ensures r.Ok? ==> forall i :: 0 <= i < |db.history| ==>
              db.history[i].sid != r.value && !SameKey(db.history[i], repo, snapshot)
    ensures r.Err? && r.error != Storage ==>
              r.error == AlreadyIndexed && exists i :: 0 <= i < |db.history| && SameKey(db.history[i], repo, snapshot)
    ensures r.Err? && db.calm ==> r.error != Storage
  {
    var fails := db.Fails();
    if fails {
      return Err(Storage);
    }
    var row := db.FindSnapshot(repo, snapshot);
    assert forall i :: 0 <= i < |db.history| ==> db.snapshots[i].sid == db.history[i].sid;
    if row.Some? {
      var reserved := row.value;
      if reserved.indexed {
        return Err(AlreadyIndexed);
      }
      return Ok(reserved.sid);
    }
    fails := db.Fails();
    if fails {
      return Err(Storage);
    }
    var sid := db.NextSid();
    r := Ok(sid);
  }

  /** BeginIndex: allocSID, initNextDID and the root directory. */
  method BeginIndex(db: DB, repo: string, snapshot: string) returns (r: Result<IndexTx, Error>)
    requires db.Valid()
    ensures r.Ok? ==> fresh(r.value) && r.value.db == db && r.value.Valid() && r.value.failed.None?
    ensures r.Ok? ==> r.value.log == [] && r.value.repo == repo && r.value.snapshot == snapshot
    ensures r.Ok? || r.error == Storage <== forall c :: c in db.history ==> !SameKey(c, repo, snapshot)
    ensures r.Err? && db.calm ==> r.error != Storage
    ensures r.Ok? ==> forall c :: c in db.history ==> !SameKey(c, repo, snapshot)
  {
    hide Content, Interned, GoodHistory, NodeTable, DirTable, SnapTable;
    var fails := db.Fails();
    if fails {
      return Err(Storage);
    }
    var sid := AllocSid(db, repo, snapshot);
    if sid.Err? {
      return Err(sid.error);
    }
    var maxDid := db.MaxDid();
    var tx := new IndexTx(db, repo, snapshot, sid.value, maxDid + 1);
    tx.OpenRoot();
    r := Ok(tx);
  }

  /** The nodes of a stream that are kept: everything but the root record. */
  function Kept(stream: seq<RawNode>): seq<Node> {
    if stream == [] then []
    else
      var n := Clean(stream[|stream| - 1]);
      Kept(stream[..|stream| - 1]) + if n.path == [] then [] else [n]
  }

  /** A record becomes a node with its path cleaned and nothing else changed. */
  predicate IsNodeOf(n: Node, r: RawNode) {
    && n.path == CleanBrowsePath(r.path) && n.name == r.name && n.typ == r.typ && n.isDir == r.isDir
    && n.size == r.size && n.modTime == r.modTime && n.attrs == r.attrs
  }

  /** The nodes are those of the records that are not the root's, in order. */
  lemma {:induction false} KeptExact(stream: seq<RawNode>)
    ensures var records := Filter((r: RawNode) => CleanBrowsePath(r.path) != [], stream);
      |Kept(stream)| == |records| && forall i :: 0 <= i < |records| ==> IsNodeOf(Kept(stream)[i], records[i])
  {
    if stream != [] {
      var init, last := stream[..|stream| - 1], stream[|stream| - 1];
      KeptExact(init);
      assert stream == init + [last];
      FilterSnoc((r: RawNode) => CleanBrowsePath(r.path) != [], init, last);
      hide CleanBrowsePath, Filter;
    }
  }

  /** IndexSnapshot's use of the store: the stream may end early, fail or be
      incomplete, and then the deferred rollback runs; only a complete stream
      is committed, and it is committed whole. */
  method IndexSnapshot(db: DB, repo: string, snapshot: string, stream: seq<RawNode>, complete: bool)
    returns (ok: bool)
    requires db.Valid()
    modifies db
    ensures db.Valid() && (!ok ==> unchanged(db))
    ensures old(exists c :: c in db.history && SameKey(c, repo, snapshot)) ==> unchanged(db)
    ensures ok ==> unchanged(db) || (complete && |db.history| == |old(db.history)| + 1
                                     && old(db.history) <= db.history
                                     && SameKey(db.history[|old(db.history)|], repo, snapshot)
                                     && db.history[|old(db.history)|].log == Kept(stream))
    ensures ok ==> exists c :: c in db.history && SameKey(c, repo, snapshot)
    ensures db.calm ==> (ok <==> complete || old(exists c :: c in db.history && SameKey(c, repo, snapshot)))
  {
    hide GoodHistory, NodeTable, DirTable, SnapTable, Content, Interned;
    var row := db.FindSnapshot(repo, snapshot);
    if row.Some? {
      ghost var k :| 0 <= k < |db.history| && SameKey(db.history[k], repo, snapshot);
      assert db.history[k] in db.history;
      return true;
    }
    var begun := BeginIndex(db, repo, snapshot);
    if begun.Err? {
      return false;
    }
    var tx := begun.value;
    ok := Stream(tx, stream);
    if !ok || !complete {
      tx.Rollback();
      return false;
    }
    ghost var commit := tx.ThisCommit();
    var err := tx.Commit();
    if err.Some? {
      tx.Rollback();
      return false;
    }
    assert commit in db.history;
  }

  method Stream(tx: IndexTx, stream: seq<RawNode>) returns (ok: bool)
    requires tx.Valid() && tx.failed.None? && tx.log == []
    modifies tx
    ensures tx.Valid()
    ensures ok ==> tx.log == Kept(stream) && tx.failed.None?
    ensures tx.db.calm ==> ok
  {
    hide GoodHistory, NodeTable, DirTable, SnapTable, Content, Interned;
    assert stream[..0] == [];
    for i := 0 to |stream|
      invariant tx.Valid() && tx.failed.None? && tx.log == Kept(stream[..i])
    {
      var breaksOff := tx.db.Fails();
      if breaksOff {
        return false;
      }
      var err := tx.Add(stream[i]);
      if err.Some? {
        return false;
      }
      assert stream[..i + 1][..i] == stream[..i];
    }
    assert stream[..|stream|] == stream;
    ok := true;
  }
}
