/** SubtreeCounts and Search of internal/browsedb/queries.go: both walk one
    snapshot's node rows joined with their directories. */
module BrowseSearch {
  import opened Wrappers
  import opened Sorting
  import opened Paths
  import opened BrowseRows
  import opened BrowseIndex
  import opened BrowseQueries
  import opened Fuzzy

  /** The nodes below d for which pick holds. */
  ghost function CountBelow(log: seq<Node>, d: Path, pick: Node -> bool): nat {
    |Filter((n: Node) => Under(d, ParentOf(n)) && pick(n), log)|
  }

  predicate IsFileNode(n: Node)
    ensures IsFileNode(n) <==> n.typ == "file" || (n.typ == "" && !n.isDir)
  {
    NormalizeType(n.typ, n.isDir) == NODE_TYPE_FILE
  }

  lemma CountSnoc(log: seq<Node>, n: Node, d: Path, pick: Node -> bool)
    ensures CountBelow(log + [n], d, pick)
         == CountBelow(log, d, pick) + if Under(d, ParentOf(n)) && pick(n) then 1 else 0
  {
    FilterSnoc((m: Node) => Under(d, ParentOf(m)) && pick(m), log, n);
  }

  /** The rows of one snapshot are its nodes, in arrival order. */
  method SnapshotRows(db: DB, ghost k: nat, sid: nat) returns (rows: seq<NodeRow>)
    requires db.Valid() && k < |db.history| && sid == db.history[k].sid
    ensures |rows| == |db.history[k].log|
    ensures forall i :: 0 <= i < |rows| ==> var c := db.history[k];
              rows[i] == RowOf(db.fold, c.sid, DidIn(c.first, c.order, ParentOf(c.log[i])), c.log[i])
  {
    rows := SelectRows(db.nodes, HasSid(sid));
    ghost var c := db.history[k];
    SidSelectsCommit(db.fold, db.history, k);
    RowsShape(db.fold, c.sid, c.first, c.order, c.log);
  }

  lemma ParentRow(cs: seq<Commit>, k: nat, n: Node) returns (at: nat)
    requires GoodHistory(cs) && k < |cs| && n in cs[k].log
    ensures at < |DirTable(cs)| && DirTable(cs)[at].did == DidIn(cs[k].first, cs[k].order, ParentOf(n))
    ensures ParentOf(n) in cs[k].order
  {
    ParentIsDir(cs[k].log, n);
    DirRowExists(cs, k, ParentOf(n));
    hide DirTable, TotalBelow, DidIn;
    var want := DirRow(DidIn(cs[k].first, cs[k].order, ParentOf(n)), cs[k].sid, ParentOf(n),
                       TotalBelow(cs[k].log, ParentOf(n)));
    at :| 0 <= at < |DirTable(cs)| && DirTable(cs)[at] == want;
  }

  lemma ParentRowIs(cs: seq<Commit>, k: nat, n: Node, d: DirRow)
    requires GoodHistory(cs) && k < |cs| && ParentOf(n) in cs[k].order
    requires d in DirTable(cs) && d.did == DidIn(cs[k].first, cs[k].order, ParentOf(n))
    ensures d.sid == cs[k].sid && d.path == ParentOf(n)
  {
    DirRowLookup(cs, k, d);
    IndexInjective(cs[k].order, d.path, ParentOf(n));
  }

  /** `JOIN dirs d ON d.did = n.parent_did`. */
  method JoinDir(db: DB, ghost k: nat, ghost n: Node, did: nat) returns (d: DirRow)
    requires db.Valid() && k < |db.history| && n in db.history[k].log
    requires did == DidIn(db.history[k].first, db.history[k].order, ParentOf(n))
    ensures d.did == did && d.sid == db.history[k].sid && d.path == ParentOf(n)
  {
    hide GoodHistory, DirTable, NodeTable, SnapTable, DidIn;
    ghost var at := ParentRow(db.history, k, n);
    var i := 0;
    while db.dirs[i].did != did
      invariant 0 <= i <= at
      decreases at - i
    {
      i := i + 1;
    }
    d := db.dirs[i];
    ParentRowIs(db.history, k, n, d);
  }

  /** Recursive counts below dir, dir itself excluded; unknown when the
      snapshot has no committed index. */
  method SubtreeCounts(db: DB, repo: string, snapshot: string, dir: string)
    returns (r: Result<(nat, nat, bool), Error>)
    requires db.Valid()
    ensures r.Ok? ==> (r.value.2 <==> Indexed(db, repo, snapshot))
    ensures r.Ok? && !r.value.2 ==> r.value.0 == r.value.1 == 0
    ensures r.Ok? ==> forall k: nat :: Holds(db, k, repo, snapshot) ==>
              && r.value.0 == CountBelow(db.history[k].log, CleanBrowsePath(dir), IsFileNode)
              && r.value.1 == CountBelow(db.history[k].log, CleanBrowsePath(dir), IsDirNode)
    ensures db.calm ==> r.Ok?
  {
    hide GoodHistory, NodeTable, DirTable, SnapTable, CountBelow, CleanBrowsePath;
    var fails := db.Fails();
    if fails {
      return Err(Storage);
    }
    var root := CleanBrowsePath(dir);
    var sid := CommittedSid(db, repo, snapshot);
    if sid.None? {
      return Ok((0, 0, false));
    }
    ghost var k: nat :| Holds(db, k, repo, snapshot);
    var files, dirs := CountRows(db, k, sid.value, root);
    r := Ok((files, dirs, true));
    forall j: nat | Holds(db, j, repo, snapshot) ensures j == k {
      HoldsUnique(db, j, k, repo, snapshot);
    }
  }

  predicate InSubtree(root: Path, d: DirRow) {
    Render(d.path) == Render(root) || InByteRange(Render(d.path), SubtreePrefix(root), SubtreeUpper(root))
  }

  method CountRows(db: DB, ghost k: nat, sid: nat, root: Path) returns (files: nat, dirs: nat)
    requires db.Valid() && k < |db.history| && sid == db.history[k].sid
    ensures files == CountBelow(db.history[k].log, root, IsFileNode)
    ensures dirs == CountBelow(db.history[k].log, root, IsDirNode)
  {
    hide GoodHistory, NodeTable, DirTable, SnapTable, CountBelow, Render, SubtreePrefix, SubtreeUpper, InByteRange;
    var rows := SnapshotRows(db, k, sid);
    ghost var log := db.history[k].log;
    files, dirs := 0, 0;
    CountNone(root);
    assert log[..0] == [];
    for i := 0 to |rows|
      invariant files == CountBelow(log[..i], root, IsFileNode)
      invariant dirs == CountBelow(log[..i], root, IsDirNode)
    {
      var r := rows[i];
      assert log[i] in log && log[..i + 1] == log[..i] + [log[i]];
      CountSnoc(log[..i], log[i], root, IsFileNode);
      CountSnoc(log[..i], log[i], root, IsDirNode);
      var d := JoinDir(db, k, log[i], r.parentDid);
      SubtreeRangeExact(root, d.path);
      if d.sid == sid && InSubtree(root, d) {
        if r.typ == NODE_TYPE_FILE {
          files := files + 1;
        }
        if r.isDir {
          dirs := dirs + 1;
        }
      }
    }
    assert log[..|log|] == log;
  }

  lemma CountNone(root: Path)
    ensures CountBelow([], root, IsFileNode) == 0 && CountBelow([], root, IsDirNode) == 0
  {
  }

  // Search.

  /** The nodes whose name the scorer accepts, in arrival order, scored. */
  ghost function Ranked(fold: char -> char, log: seq<Node>, query: string): seq<FuzzyRank> {
    if log == [] then []
    else
      var n := log[|log| - 1];
      var m := ScoreMatch(fold, NameOf(n), query);
      Ranked(fold, log[..|log| - 1], query) + if m.None? then [] else [FuzzyRank(RawEntry(n), m.value.score)]
  }

  /** The nodes whose name matches. */
  function Matches(fold: char -> char, query: string): Node -> bool {
    (n: Node) =>
      ScoreMatch(fold, if n.name != "" then n.name else if n.path == [] then "/" else Base(n.path), query).Some?
  }

  lemma {:induction false} RankedCount(fold: char -> char, log: seq<Node>, query: string)
    ensures |Ranked(fold, log, query)| == |Filter(Matches(fold, query), log)|
  {
    hide ScoreMatch;
    if log != [] {
      var init, last := log[..|log| - 1], log[|log| - 1];
      RankedCount(fold, init, query);
      assert log == init + [last];
      FilterSnoc(Matches(fold, query), init, last);
    }
  }

  /** All matches, best first, cut at limit. */
  ghost function Best(fold: char -> char, log: seq<Node>, query: string, limit: nat): seq<Entry> {
    SizedAll(log, Map(EntryOfRank, Take(StableSort(BetterFuzzy, Ranked(fold, log, query)), limit)))
  }

  /** Best first, and a matching node is left out only for a full list of no
      worse ones; rows are the nodes' entries with directories sized. */
  ghost predicate BestFound(fold: char -> char, query: string, log: seq<Node>, limit: nat, rows: seq<Entry>) {
    && |rows| <= limit
    && (forall i, j :: 0 <= i < j < |rows| ==> NoWorse(fold, query, rows[i], rows[j]))
    && (forall r :: r in rows ==>
          ScoreMatch(fold, r.name, query).Some? && exists n :: n in log && r == Sized(log, RawEntry(n)))
    && (forall n :: n in log && ScoreMatch(fold, NameOf(n), query).Some? ==>
          || Sized(log, RawEntry(n)) in rows
          || (|rows| == limit && forall r :: r in rows ==> NoWorse(fold, query, r, RawEntry(n))))
  }

  lemma BestIsFound(fold: char -> char, log: seq<Node>, query: string, limit: nat)
    ensures BestFound(fold, query, log, limit, Best(fold, log, query, limit))
  {
    SearchAgreesWithRanking(fold, log, query, limit);
    var entries := Map(RawEntry, log);
    var top := Map(EntryOfRank, Take(StableSort(BetterFuzzy, Ranks(fold, entries, query)), limit));
    TopIsBest(fold, entries, query, limit);
    hide Best, Ranks, StableSort, Sized, ScoreMatch;
    SizedMatches(fold, log, query, limit, top);
  }

  lemma SizedMatches(fold: char -> char, log: seq<Node>, query: string, limit: nat, top: seq<Entry>)
    requires BestMatches(fold, query, Map(RawEntry, log), limit, top)
    ensures BestFound(fold, query, log, limit, SizedAll(log, top))
  {
    hide ScoreMatch, RecursiveSize, RawEntry, NoWorse;
    var rows, entries := SizedAll(log, top), Map(RawEntry, log);
    forall e ensures Sized(log, e).name == e.name && Sized(log, e).path == e.path {
    }
    forall i, j | 0 <= i < j < |rows| ensures NoWorse(fold, query, rows[i], rows[j]) {
      SameWorth(fold, query, top[i], rows[i], top[j], rows[j]);
    }
    forall r | r in rows
      ensures ScoreMatch(fold, r.name, query).Some? && exists n :: n in log && r == Sized(log, RawEntry(n))
    {
      var i :| 0 <= i < |rows| && rows[i] == r;
      assert top[i] in top && top[i] in entries;
      var k :| 0 <= k < |entries| && entries[k] == top[i];
      assert log[k] in log && r == Sized(log, RawEntry(log[k]));
    }
    forall n | n in log && ScoreMatch(fold, NameOf(n), query).Some? && Sized(log, RawEntry(n)) !in rows
      ensures |rows| == limit && forall r :: r in rows ==> NoWorse(fold, query, r, RawEntry(n))
    {
      var k :| 0 <= k < |log| && log[k] == n;
      NamedSo(n);
      assert entries[k] == RawEntry(n) && entries[k] in entries;
      assert forall i :: 0 <= i < |top| ==> rows[i] == Sized(log, top[i]) && rows[i] in rows;
      forall r | r in rows ensures NoWorse(fold, query, r, RawEntry(n)) {
        var i :| 0 <= i < |rows| && rows[i] == r;
        assert top[i] in top;
        SameWorth(fold, query, top[i], r, RawEntry(n), RawEntry(n));
      }
    }
  }

  lemma NamedSo(n: Node)
    ensures RawEntry(n).name == NameOf(n)
  {
  }

  lemma SameWorth(fold: char -> char, query: string, a: Entry, a': Entry, b: Entry, b': Entry)
    requires NoWorse(fold, query, a, b)
    requires a'.name == a.name && a'.path == a.path && b'.name == b.name && b'.path == b.path
    ensures NoWorse(fold, query, a', b')
  {
    hide ScoreMatch, StrLess;
  }

  datatype SearchResult = SearchResult(rows: seq<Entry>, total: nat)

  method Search(db: DB, space: char -> bool, repo: string, snapshot: string, query: string, limit: int)
    returns (r: Result<SearchResult, Error>)
    requires db.Valid() && LowersAscii(db.fold)
    ensures Blank(space, query) ==> r == Ok(SearchResult([], 0))
    ensures r.Ok? && !Indexed(db, repo, snapshot) ==> r.value == SearchResult([], 0)
    ensures r.Ok? && !Blank(space, query) ==> forall k: nat :: Holds(db, k, repo, snapshot) ==>
              var log := db.history[k].log;
              && r.value.total == |Ranked(db.fold, log, query)| == |Filter(Matches(db.fold, query), log)|
              && r.value.rows == Best(db.fold, log, query, if limit <= 0 then DEFAULT_SEARCH_LIMIT else limit)
              && BestFound(db.fold, query, log, if limit <= 0 then 200 else limit, r.value.rows)
    ensures db.calm ==> r.Ok?
  {
    hide GoodHistory, NodeTable, DirTable, SnapTable, Best, Ranked, BestFound, Filter;
    if Blank(space, query) {
      return Ok(SearchResult([], 0));
    }
    var cap := if limit <= 0 then DEFAULT_SEARCH_LIMIT else limit;
    var fails := db.Fails();
    if fails {
      return Err(Storage);
    }
    var sid := CommittedSid(db, repo, snapshot);
    if sid.None? {
      return Ok(SearchResult([], 0));
    }
    ghost var k: nat :| Holds(db, k, repo, snapshot);
    r := SearchCommitted(db, k, sid.value, query, cap);
    BestIsFound(db.fold, db.history[k].log, query, cap);
    RankedCount(db.fold, db.history[k].log, query);
    forall j: nat | Holds(db, j, repo, snapshot) ensures j == k {
      HoldsUnique(db, j, k, repo, snapshot);
    }
  }

  method SearchCommitted(db: DB, ghost k: nat, sid: nat, query: string, limit: nat)
    returns (r: Result<SearchResult, Error>)
    requires db.Valid() && LowersAscii(db.fold) && k < |db.history| && sid == db.history[k].sid
    requires query != "" && limit >= 1
    ensures r.Ok? ==> r.value.total == |Ranked(db.fold, db.history[k].log, query)|
    ensures r.Ok? ==> r.value.rows == Best(db.fold, db.history[k].log, query, limit)
    ensures db.calm ==> r.Ok?
  {
    var top, total := TopMatches(db, k, sid, query, limit);
    var filled := FillDirSizes(db, k, sid, Map(EntryOfRank, top));
    if filled.Err? {
      return Err(filled.error);
    }
    r := Ok(SearchResult(filled.value, total));
  }

  lemma RankedSnoc(fold: char -> char, log: seq<Node>, n: Node, query: string)
    ensures Ranked(fold, log + [n], query) == Ranked(fold, log, query)
      + var m := ScoreMatch(fold, NameOf(n), query);
        if m.None? then [] else [FuzzyRank(RawEntry(n), m.value.score)]
  {
    assert (log + [n])[..|log|] == log;
  }

  /** The scan: LIKE admits a row, the scorer ranks it, the buffer keeps it. */
  method TopMatches(db: DB, ghost k: nat, sid: nat, query: string, limit: nat)
    returns (top: seq<FuzzyRank>, total: nat)
    requires db.Valid() && LowersAscii(db.fold) && k < |db.history| && sid == db.history[k].sid
    requires query != "" && limit >= 1
    ensures total == |Ranked(db.fold, db.history[k].log, query)|
    ensures top == Take(StableSort(BetterFuzzy, Ranked(db.fold, db.history[k].log, query)), limit)
  {
    hide GoodHistory, NodeTable, DirTable, SnapTable, Ranked, Like, LikeTail, Lower, StableSort, LowersAscii;
    var pattern := LikeSubsequence(Lower(db.fold, query));
    var rows := SnapshotRows(db, k, sid);
    ghost var log := db.history[k].log;
    top, total := [], 0;
    NoneRanked(db.fold, query, limit);
    assert log[..0] == [];
    for i := 0 to |rows|
      invariant total == |Ranked(db.fold, log[..i], query)|
      invariant top == Take(StableSort(BetterFuzzy, Ranked(db.fold, log[..i], query)), limit)
    {
      ghost var n := log[i];
      assert n in log && log[..i + 1] == log[..i] + [n];
      RankedSnoc(db.fold, log[..i], n, query);
      PrefilterAgrees(db.fold, NameOf(n), query);
      var r := rows[i];
      if Like(pattern, r.nameCI) {
        var d := JoinDir(db, k, n, r.parentDid);
        var m := FuzzyScore(db.fold, r.name, query);
        if m.Some? {
          total := total + 1;
          var rank := FuzzyRank(EntryOfRow(Render(d.path), r), m.value.score);
          TopNSnoc(Ranked(db.fold, log[..i], query), rank, limit);
          top := InsertTopN(top, rank, limit);
        }
      } else {
        assert Ranked(db.fold, log[..i], query) + [] == Ranked(db.fold, log[..i], query);
      }
    }
    assert log[..|log|] == log;
  }

  lemma NoneRanked(fold: char -> char, query: string, limit: nat)
    ensures Ranked(fold, [], query) == []
    ensures Take(StableSort(BetterFuzzy, Ranked(fold, [], query)), limit) == []
  {
  }

  lemma {:induction false} RankedIsRanks(fold: char -> char, log: seq<Node>, query: string)
    ensures Ranked(fold, log, query) == Ranks(fold, Map(RawEntry, log), query)
  {
    hide ScoreMatch;
    if log != [] {
      var init, n := log[..|log| - 1], log[|log| - 1];
      RankedIsRanks(fold, init, query);
      var entries := Map(RawEntry, log);
      assert entries[..|entries| - 1] == Map(RawEntry, init);
      assert entries[|entries| - 1] == RawEntry(n) && RawEntry(n).name == NameOf(n);
    }
  }

  /** Streaming search and in-memory ranking agree: the rows Search returns are
      those RankFuzzy would pick from all the snapshot's entries, then sized. */
  lemma SearchAgreesWithRanking(fold: char -> char, log: seq<Node>, query: string, limit: nat)
    ensures Best(fold, log, query, limit) ==
            SizedAll(log, Map(EntryOfRank,
                              Take(StableSort(BetterFuzzy, Ranks(fold, Map(RawEntry, log), query)), limit)))
  {
    RankedIsRanks(fold, log, query);
  }
}
