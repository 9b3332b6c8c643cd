/** What the browser is shown, against what the session store holds
    (internal/browsedb under internal/tui/browse.go): a store that other indexing
    keeps growing answers for an indexed snapshot as it always did, so a run over
    it is a run over the store it ends with. */
module BrowseStore {
  import opened Wrappers
  import opened Sorting
  import opened Paths
  import opened BrowseRows
  import opened BrowseTui
  import BrowseIndex
  import BrowseQueries
  import BrowseSearch
  import Fuzzy

  // The store's answers.

  ghost predicate IndexedAt(cs: seq<Commit>, k: nat, repo: string, snapshot: string) {
    k < |cs| && SameKey(cs[k], repo, snapshot)
  }

  ghost predicate IsIndexed(cs: seq<Commit>, repo: string, snapshot: string) {
    exists k: nat :: IndexedAt(cs, k, repo, snapshot)
  }

  /** The nodes committed for a snapshot, none when it has no index. */
  ghost function LogOf(cs: seq<Commit>, repo: string, snapshot: string): seq<Node> {
    if IsIndexed(cs, repo, snapshot) then var k: nat :| IndexedAt(cs, k, repo, snapshot); cs[k].log else []
  }

  ghost function Matches(fold: char -> char, space: char -> bool, log: seq<Node>, query: string): Found {
    if Fuzzy.Blank(space, query) then Found([], 0)
    else Found(BrowseSearch.Best(fold, log, query, BrowseQueries.DEFAULT_SEARCH_LIMIT),
               |BrowseSearch.Ranked(fold, log, query)|)
  }

  ghost function StoreOf(fold: char -> char, space: char -> bool, cs: seq<Commit>): Store {
    Store((repo, snapshot, dir) => BrowseQueries.Listing(fold, LogOf(cs, repo, snapshot), CleanBrowsePath(dir)),
          (repo, snapshot, query) => Matches(fold, space, LogOf(cs, repo, snapshot), query))
  }

  lemma LogAt(cs: seq<Commit>, k: nat, repo: string, snapshot: string)
    requires GoodHistory(cs) && IndexedAt(cs, k, repo, snapshot)
    ensures LogOf(cs, repo, snapshot) == cs[k].log
  {
    hide GoodCommit;
    forall j: nat | IndexedAt(cs, j, repo, snapshot) ensures j == k {
      assert SameKey(cs[j], cs[k].repo, cs[k].snapshot) && SameKey(cs[k], cs[j].repo, cs[j].snapshot);
    }
  }

  lemma NothingListed(fold: char -> char, d: Path, query: string, limit: nat)
    ensures BrowseQueries.Listing(fold, [], d) == []
    ensures BrowseSearch.Ranked(fold, [], query) == [] && BrowseSearch.Best(fold, [], query, limit) == []
  {
  }

  lemma StoreAnswers(fold: char -> char, space: char -> bool, cs: seq<Commit>, repo: string, snapshot: string,
                     s: string)
    requires GoodHistory(cs)
    ensures var store := StoreOf(fold, space, cs);
      if k: nat :| IndexedAt(cs, k, repo, snapshot) then
        && store.list(repo, snapshot, s) == BrowseQueries.Listing(fold, cs[k].log, CleanBrowsePath(s))
        && store.search(repo, snapshot, s) == Matches(fold, space, cs[k].log, s)
      else store.list(repo, snapshot, s) == [] && store.search(repo, snapshot, s) == Found([], 0)
  {
    hide GoodHistory, BrowseQueries.Listing, BrowseSearch.Best, BrowseSearch.Ranked, CleanBrowsePath, SameKey;
    if k: nat :| IndexedAt(cs, k, repo, snapshot) {
      forall j: nat | IndexedAt(cs, j, repo, snapshot) ensures cs[j].log == cs[k].log {
        LogAt(cs, j, repo, snapshot);
        LogAt(cs, k, repo, snapshot);
      }
    } else {
      NothingListed(fold, CleanBrowsePath(s), s, BrowseQueries.DEFAULT_SEARCH_LIMIT);
    }
  }

  lemma HeldIsIndexed(db: BrowseIndex.DB, repo: string, snapshot: string)
    ensures forall k: nat :: BrowseQueries.Holds(db, k, repo, snapshot) <==> IndexedAt(db.history, k, repo, snapshot)
    ensures BrowseQueries.Indexed(db, repo, snapshot) <==> IsIndexed(db.history, repo, snapshot)
  {
    hide SameKey;
    assert forall k: nat :: BrowseQueries.Holds(db, k, repo, snapshot) <==> IndexedAt(db.history, k, repo, snapshot);
  }

  /** What a listing command runs. */
  method List(db: BrowseIndex.DB, space: char -> bool, repo: string, snapshot: string, dir: string)
    returns (r: Result<seq<Entry>, BrowseIndex.Error>)
    requires db.Valid()
    ensures r.Ok? ==> r.value == StoreOf(db.fold, space, db.history).list(repo, snapshot, dir)
    ensures db.calm ==> r.Ok?
  {
    StoreAnswers(db.fold, space, db.history, repo, snapshot, dir);
    HeldIsIndexed(db, repo, snapshot);
    hide *;
    r := BrowseQueries.ListDir(db, repo, snapshot, dir);
  }

  /** What a search command runs. */
  method Find(db: BrowseIndex.DB, space: char -> bool, repo: string, snapshot: string, query: string)
    returns (r: Result<Found, BrowseIndex.Error>)
    requires db.Valid() && Fuzzy.LowersAscii(db.fold)
    ensures r.Ok? ==> r.value == StoreOf(db.fold, space, db.history).search(repo, snapshot, query)
    ensures db.calm ==> r.Ok?
  {
    StoreAnswers(db.fold, space, db.history, repo, snapshot, query);
    HeldIsIndexed(db, repo, snapshot);
    hide StoreOf, IndexedAt, IsIndexed, BrowseQueries.Holds, BrowseQueries.Indexed, LogOf, GoodHistory, NodeTable;
    hide DirTable, SnapTable, BrowseSearch.Best, BrowseSearch.Ranked, BrowseSearch.BestFound, Fuzzy.Blank, Filter,
      BrowseQueries.Listing, CleanBrowsePath;
    var s := BrowseSearch.Search(db, space, repo, snapshot, query, BrowseQueries.DEFAULT_SEARCH_LIMIT);
    r := if s.Err? then Err(s.error) else Ok(Found(s.value.rows, s.value.total));
  }

  // Later indexing changes no answer.

  lemma LogStays(cs: seq<Commit>, later: seq<Commit>, repo: string, snapshot: string)
    requires GoodHistory(later) && cs <= later && IsIndexed(cs, repo, snapshot)
    ensures IsIndexed(later, repo, snapshot) && LogOf(later, repo, snapshot) == LogOf(cs, repo, snapshot)
  {
    hide GoodHistory;
    var k: nat :| IndexedAt(cs, k, repo, snapshot);
    assert IndexedAt(later, k, repo, snapshot);
    GoodPrefix(cs, later);
    LogAt(cs, k, repo, snapshot);
    LogAt(later, k, repo, snapshot);
  }

  lemma GoodPrefix(cs: seq<Commit>, later: seq<Commit>)
    requires GoodHistory(later) && cs <= later
    ensures GoodHistory(cs)
  {
    hide GoodCommit, SameKey;
  }

  /** IndexSnapshot for any pair, however it ends, leaves every listing and
      search of an indexed snapshot as it was. */
  method IndexAnother(db: BrowseIndex.DB, space: char -> bool, repo: string, snapshot: string,
                      stream: seq<RawNode>, complete: bool) returns (ok: bool)
    requires db.Valid()
    modifies db
    ensures db.Valid() && old(db.history) <= db.history
    ensures ok ==> IsIndexed(db.history, repo, snapshot)
    ensures forall r, s :: old(IsIndexed(db.history, r, s)) ==>
              && (forall d :: StoreOf(db.fold, space, db.history).list(r, s, d)
                              == old(StoreOf(db.fold, space, db.history)).list(r, s, d))
              && (forall q :: StoreOf(db.fold, space, db.history).search(r, s, q)
                              == old(StoreOf(db.fold, space, db.history)).search(r, s, q))
  {
    hide GoodHistory, NodeTable, DirTable, SnapTable, BrowseQueries.Listing, Matches, SameKey;
    ghost var before := db.history;
    ok := BrowseIndex.IndexSnapshot(db, repo, snapshot, stream, complete);
    assert before <= db.history;
    forall r, s | IsIndexed(before, r, s) ensures LogOf(db.history, r, s) == LogOf(before, r, s) {
      LogStays(before, db.history, r, s);
    }
    if ok {
      ghost var c :| c in db.history && SameKey(c, repo, snapshot);
      ghost var k :| 0 <= k < |db.history| && db.history[k] == c;
      assert IndexedAt(db.history, k, repo, snapshot);
    }
  }

  // Runs over a growing store.

  /** An event and the committed indexes at its moment. */
  datatype Tick = Tick(cs: seq<Commit>, e: Event)

  ghost function EnvOf(fold: char -> char, space: char -> bool, cs: seq<Commit>): Env {
    Env(fold, space, StoreOf(fold, space, cs))
  }

  /** Indexes are only ever added, and a success that IndexSnapshot reports is
      one that is committed. */
  ghost predicate Grows(cs: seq<Commit>, ts: seq<Tick>)
    decreases |ts|
  {
    && GoodHistory(cs)
    && (ts != [] ==> cs <= ts[0].cs && Truthful(ts[0]) && Grows(ts[0].cs, ts[1..]))
  }

  ghost predicate Truthful(t: Tick) {
    t.e.Deliver? && t.e.cmd.IndexCmd? && !t.e.failed ==> IsIndexed(t.cs, t.e.cmd.repo, t.e.cmd.snapshot)
  }

  ghost function LastOf(cs: seq<Commit>, ts: seq<Tick>): seq<Commit> {
    if ts == [] then cs else ts[|ts| - 1].cs
  }

  function EventsOf(ts: seq<Tick>): (es: seq<Event>)
    ensures |es| == |ts|
  {
    if ts == [] then [] else [ts[0].e] + EventsOf(ts[1..])
  }

  /** Each message carries what the store answers at its own moment. */
  ghost function RunOver(fold: char -> char, space: char -> bool, w: World, ts: seq<Tick>): Option<World>
    decreases |ts|
  {
    if ts == [] then Some(w)
    else
      var w' := Next(EnvOf(fold, space, ts[0].cs), w, ts[0].e);
      if w'.None? then None else RunOver(fold, space, w'.value, ts[1..])
  }

  /** Whatever is listed or searched is indexed by now. */
  ghost predicate Backed(w: World, cs: seq<Commit>) {
    && (w.b.indexed ==> IsIndexed(cs, w.b.repo, w.b.snapshot))
    && (forall c :: c in w.flight && !c.IndexCmd? ==> IsIndexed(cs, c.repo, c.snapshot))
  }

  lemma BackedLater(w: World, cs: seq<Commit>, later: seq<Commit>)
    requires Backed(w, cs) && GoodHistory(later) && cs <= later
    ensures Backed(w, later)
  {
    hide GoodHistory, IsIndexed;
    if w.b.indexed {
      LogStays(cs, later, w.b.repo, w.b.snapshot);
    }
    forall c | c in w.flight && !c.IndexCmd? ensures IsIndexed(later, c.repo, c.snapshot) {
      LogStays(cs, later, c.repo, c.snapshot);
    }
  }

  /** The snapshot stays, or is left, and what was started is for it. */
  ghost predicate Local(b: Browse, b': Browse, fx: multiset<Cmd>) {
    && (b'.indexed ==> b.indexed && b'.repo == b.repo && b'.snapshot == b.snapshot)
    && (forall c :: c in fx ==> c.repo == b.repo && c.snapshot == b.snapshot)
  }

  lemma ListAsksNothing(e1: Env, e2: Env, b: Browse, dir: string, selectPath: string)
    requires e1.fold == e2.fold
    ensures BeginListDir(e1, b, dir, selectPath) == BeginListDir(e2, b, dir, selectPath)
    ensures var (b', fx) := BeginListDir(e1, b, dir, selectPath); Local(b, b', fx)
  {
    hide SortedBrowseRows, IndexOfPath;
  }

  lemma FireAsksNothing(e1: Env, e2: Env, b: Browse)
    requires e1.space == e2.space
    ensures FireSearch(e1, b) == FireSearch(e2, b)
    ensures var (b', fx) := FireSearch(e1, b); Local(b, b', fx)
  {
    hide Fuzzy.Blank;
  }

  lemma AcceptAsksNothing(e1: Env, e2: Env, b: Browse)
    requires e1.fold == e2.fold
    ensures AcceptSearch(e1, b) == AcceptSearch(e2, b)
    ensures var (b', fx) := AcceptSearch(e1, b); Local(b, b', fx)
  {
    hide BeginListDir, DirOf;
    if b.searchCursor < |b.hits| {
      var target := b.hits[b.searchCursor].path;
      ListAsksNothing(e1, e2, b.(searching := false, suspended := true), DirOf(target), target);
    }
  }

  lemma SearchKeyAsksNothing(e1: Env, e2: Env, b: Browse, k: Key)
    requires e1.fold == e2.fold && e1.space == e2.space
    ensures SearchKey(e1, b, k) == SearchKey(e2, b, k)
    ensures var (b', fx) := SearchKey(e1, b, k); Local(b, b', fx)
  {
    hide AcceptSearch, FireSearch;
    match k
    case Accept => AcceptAsksNothing(e1, e2, b);
    case Rubout =>
      if b.query != "" {
        FireAsksNothing(e1, e2, b.(query := b.query[..|b.query| - 1]));
      }
    case Text(t) => FireAsksNothing(e1, e2, b.(query := b.query + t));
    case _ =>
  }

  lemma IdleKeyAsksNothing(e1: Env, e2: Env, b: Browse, k: Key)
    requires e1.fold == e2.fold
    ensures IdleKey(e1, b, k) == IdleKey(e2, b, k)
    ensures var (b', fx) := IdleKey(e1, b, k); Local(b, b', fx)
  {
    hide BeginListDir, DirOf, SortedBrowseRows, IndexOfPath;
    match k
    case Open =>
      if b.cursor < |b.rows| {
        ListAsksNothing(e1, e2, b, b.rows[b.cursor].path, "");
      }
    case ToParent => ListAsksNothing(e1, e2, b, DirOf(b.dir), b.dir);
    case _ =>
  }

  /** A key asks the store nothing; what it starts is for the snapshot on screen,
      and only once that is indexed. */
  lemma KeyAsksNothing(e1: Env, e2: Env, b: Browse, k: Key)
    requires e1.fold == e2.fold && e1.space == e2.space
    requires b.open && (b.searching || !b.loading ==> b.indexed)
    ensures HandleKey(e1, b, k) == HandleKey(e2, b, k)
    ensures var (b', fx) := HandleKey(e1, b, k); Local(b, b', fx) && (fx != multiset{} ==> b.indexed)
  {
    SearchKeyAsksNothing(e1, e2, b, k);
    IdleKeyAsksNothing(e1, e2, b, k);
    hide SearchKey, IdleKey;
  }

  lemma KeyBacked(env: Env, later: Env, w: World, k: Key, cs: seq<Commit>)
    requires env.fold == later.fold && env.space == later.space && Backed(w, cs) && Modes(w.b)
    ensures Next(env, w, Press(k)) == Next(later, w, Press(k))
    ensures Next(env, w, Press(k)).Some? ==> Backed(Next(env, w, Press(k)).value, cs)
  {
    if w.b.open {
      KeyAsksNothing(env, later, w.b, k);
    }
    hide HandleKey, IsIndexed;
  }

  lemma StartBacked(env: Env, later: Env, w: World, repo: string, snapshot: string, cs: seq<Commit>)
    requires env.fold == later.fold && env.space == later.space && Backed(w, cs)
    ensures Next(env, w, Start(repo, snapshot)) == Next(later, w, Start(repo, snapshot))
    ensures Next(env, w, Start(repo, snapshot)).Some? ==> Backed(Next(env, w, Start(repo, snapshot)).value, cs)
  {
    hide IsIndexed;
  }

  /** A message says now what it will say at the end, and leads on to what is
      indexed. */
  lemma MessageBacked(fold: char -> char, space: char -> bool, w: World, c: Cmd, failed: bool,
                      cs: seq<Commit>, later: seq<Commit>)
    requires GoodHistory(later) && cs <= later && Backed(w, cs) && Truthful(Tick(cs, Deliver(c, failed)))
    requires c in w.flight
    requires c.gen == w.b.gen ==> Tagged(w.b, c)
    ensures Take(EnvOf(fold, space, cs), w.b, c, failed) == Take(EnvOf(fold, space, later), w.b, c, failed)
    ensures var (b, fx) := Take(EnvOf(fold, space, cs), w.b, c, failed);
            Backed(World(b, w.flight - multiset{c} + fx), cs)
  {
    if !c.IndexCmd? {
      LogStays(cs, later, c.repo, c.snapshot);
    }
    hide GoodHistory, IsIndexed, LogOf, BrowseQueries.Listing, Matches, CleanBrowsePath, SortedBrowseRows, IndexOfPath;
  }

  lemma TickKeeps(fold: char -> char, space: char -> bool, w: World, t: Tick, later: seq<Commit>)
    requires GoodHistory(later) && t.cs <= later && Backed(w, t.cs) && Truthful(t)
    requires var env := EnvOf(fold, space, later); Screen(env, w.b) && Coming(env, w.b, w.flight)
    ensures Next(EnvOf(fold, space, t.cs), w, t.e) == Next(EnvOf(fold, space, later), w, t.e)
    ensures Next(EnvOf(fold, space, t.cs), w, t.e).Some? ==> Backed(Next(EnvOf(fold, space, t.cs), w, t.e).value, t.cs)
  {
    var now, last := EnvOf(fold, space, t.cs), EnvOf(fold, space, later);
    hide StoreOf, Coherent, Answers, GoodHistory, Truthful, Backed, HandleKey, StartBrowse, Take;
    match t.e
    case Press(k) => KeyBacked(now, last, w, k, t.cs);
    case Start(repo, snapshot) => StartBacked(now, last, w, repo, snapshot, t.cs);
    case Deliver(c, failed) =>
      if c in w.flight {
        assert c.gen == w.b.gen ==> Tagged(w.b, c);
        MessageBacked(fold, space, w, c, failed, t.cs, later);
      }
  }

  lemma {:induction false} GrowsTo(cs: seq<Commit>, ts: seq<Tick>)
    requires Grows(cs, ts)
    ensures cs <= LastOf(cs, ts) && GoodHistory(LastOf(cs, ts))
    decreases |ts|
  {
    hide GoodHistory, Truthful;
    if ts != [] {
      GrowsTo(ts[0].cs, ts[1..]);
    }
  }

  /** While a screen is used, the store may grow under it at every moment: the
      run is the same as over the store it ends with, as if nothing had ever been
      added. */
  lemma {:induction false} GrowingStore(fold: char -> char, space: char -> bool, w: World, cs: seq<Commit>,
                                        ts: seq<Tick>)
    requires Grows(cs, ts) && Backed(w, cs)
    requires var env := EnvOf(fold, space, LastOf(cs, ts)); Screen(env, w.b) && Coming(env, w.b, w.flight)
    ensures RunOver(fold, space, w, ts) == RunAll(EnvOf(fold, space, LastOf(cs, ts)), w, EventsOf(ts))
    ensures RunOver(fold, space, w, ts).Some? ==> Backed(RunOver(fold, space, w, ts).value, LastOf(cs, ts))
    decreases |ts|
  {
    hide GoodHistory, Truthful, Backed, Screen, Coming, Next, EnvOf;
    if ts != [] {
      var t, last := ts[0], LastOf(cs, ts);
      var env := EnvOf(fold, space, last);
      GrowsTo(t.cs, ts[1..]);
      assert LastOf(t.cs, ts[1..]) == last;
      BackedLater(w, cs, t.cs);
      GrowsNow(t.cs, ts[1..]);
      TickKeeps(fold, space, w, t, last);
      var w' := Next(env, w, t.e);
      assert EventsOf(ts)[0] == t.e && EventsOf(ts)[1..] == EventsOf(ts[1..]);
      if w'.Some? {
        NextKeeps(env, w, t.e);
        GrowingStore(fold, space, w'.value, t.cs, ts[1..]);
      }
    }
  }

  lemma GrowsNow(cs: seq<Commit>, ts: seq<Tick>)
    requires Grows(cs, ts)
    ensures GoodHistory(cs)
  {
  }

  // What is on screen.

  lemma SameNames(fold: char -> char, log: seq<Node>, m: Node, n: Node)
    requires ParentOf(m) == ParentOf(n) && !NodeBefore(fold, m, n)
    ensures !BrowseLess(fold, ByName, BrowseQueries.Sized(log, BrowseQueries.RawEntry(m)),
                        BrowseQueries.Sized(log, BrowseQueries.RawEntry(n)))
  {
    hide RecursiveSize, JoinBrowsePath, Render, BrowseName, NormalizeType;
    if NameOf(m) == NameOf(n) {
      StrLessTrichotomy(BrowseQueries.RawEntry(m).path, BrowseQueries.RawEntry(n).path);
    }
  }

  predicate NodeBefore(fold: char -> char, m: Node, n: Node) { BrowseQueries.NodeBefore(fold)(m, n) }

  /** A listing is in the order that the screen calls by name. */
  lemma ListingIsByName(fold: char -> char, log: seq<Node>, d: Path)
    ensures Sorted(Order(fold, ByName), BrowseQueries.Listing(fold, log, d))
  {
    BrowseQueries.ListingIsChildren(fold, log, d);
    var kids, es := BrowseQueries.Children(fold, log, d), BrowseQueries.Listing(fold, log, d);
    hide BrowseQueries.Children, BrowseLess, BrowseQueries.Sized, BrowseQueries.RawEntry;
    forall i, j | 0 <= i < j < |es| ensures !BrowseLess(fold, ByName, es[j], es[i]) {
      assert kids[i] in kids && kids[j] in kids && !NodeBefore(fold, kids[j], kids[i]);
      SameNames(fold, log, kids[j], kids[i]);
    }
  }

  /** In every run over a growing store: a listed directory is one of an indexed
      snapshot, its rows are exactly the entries of that snapshot's nodes, and
      they are sorted in the mode on screen, whichever it is. */
  lemma RowsAreTheSnapshot(fold: char -> char, space: char -> bool, w0: World, cs: seq<Commit>, ts: seq<Tick>)
    requires Initial(w0) && Grows(cs, ts) && RunOver(fold, space, w0, ts).Some?
    ensures var b, last := RunOver(fold, space, w0, ts).value.b, LastOf(cs, ts);
      b.dir in b.cache ==>
        && IsIndexed(last, b.repo, b.snapshot)
        && multiset(b.rows)
           == multiset(BrowseQueries.Listing(fold, LogOf(last, b.repo, b.snapshot), CleanBrowsePath(b.dir)))
        && forall i, j :: 0 <= i < j < |b.rows| ==> InOrder(fold, b.mode, b.rows[i], b.rows[j])
  {
    var env := EnvOf(fold, space, LastOf(cs, ts));
    GrowingStore(fold, space, w0, cs, ts);
    RunKeeps(env, w0, EventsOf(ts));
    var w := RunOver(fold, space, w0, ts).value;
    hide RunOver, RunAll, Grows, InOrder, BrowseQueries.Listing, Matches, LogOf, SortedBrowseRows, CleanBrowsePath;
    if w.b.dir in w.b.cache {
      var log := LogOf(LastOf(cs, ts), w.b.repo, w.b.snapshot);
      ListingIsByName(fold, log, CleanBrowsePath(w.b.dir));
      DisplayMeans(fold, BrowseQueries.Listing(fold, log, CleanBrowsePath(w.b.dir)), w.b.mode);
    }
  }
}
