/** Snapshot browsing as the object its methods update (internal/tui/browse.go,
    internal/tui/browsesearch.go). Its ghost field is the work in flight; every
    handler keeps the screen coherent and what it waits for on its way, and takes
    the system to the state that the runs are made of. */
module BrowseScreen {
  import opened Wrappers
  import opened Sorting
  import opened Paths
  import opened BrowseRows
  import opened BrowseTui
  import K = BrowseKeys
  import Fuzzy

  class BrowseModel {
    const env: Env
    var m: Browse
    ghost var flight: multiset<Cmd>

    ghost function Now(): World
      reads this
    {
      World(m, flight)
    }

    /** The screen is coherent, and what it waits for is in flight. */
    ghost predicate Valid()
      reads this
    {
      Screen(env, m) && Coming(env, m, flight)
    }

    constructor (env: Env)
      ensures this.env == env && Valid() && Initial(Now())
    {
      this.env, flight := env, multiset{};
      m := Browse(false, "", "", "", [], map[], 0, ByName, 0, false, false, false,
                  false, false, "", "", [], 0, false, 0);
    }

    // What the handlers share.

    method SupersedeBrowse()
      modifies this`m
      ensures m == Supersede(old(m))
    {
      m := m.(gen := m.gen + 1);
      if m.cancel {
        m := m.(cancel := false);
      }
    }

    method BeginBrowseOp()
      modifies this`m
      ensures m == BeginOp(old(m))
    {
      SupersedeBrowse();
      m := m.(cancel := true);
    }

    method ClearBrowseSearchResults()
      modifies this`m
      ensures m == ClearResults(old(m))
    {
      m := m.(hits := []);
      m := m.(total := 0);
      m := m.(searchErr := false);
    }

    method ExitBrowseSearch()
      modifies this`m
      ensures m == ExitSearch(old(m))
    {
      m := m.(searching := false, suspended := false);
      m := m.(query := "", shownQuery := "");
      m := m.(searchCursor := 0);
      ClearBrowseSearchResults();
    }

    method ClearBrowse()
      modifies this`m
      ensures m == Clear(old(m))
    {
      m := m.(rows := [], cache := map[]);
      m := m.(repo := "", snapshot := "", dir := "");
      m := m.(cursor := 0, mode := ByName);
      m := m.(indexed := false, loading := false, cancel := false);
      ExitBrowseSearch();
    }

    /** The indexing view: whatever was going on before is left behind, and the
        one index of the new generation is in flight. */
    method Start(repo: string, snapshot: string)
      requires Valid() && !m.open
      modifies this
      ensures Valid() && Next(env, old(Now()), Event.Start(repo, snapshot)) == Some(Now())
      ensures m.open && m.loading && !m.indexed && m.rows == [] && m.cache == map[]
      ensures (m.repo, m.snapshot, m.dir, m.mode, m.cursor) == (repo, snapshot, "/", ByName, 0)
      ensures m.gen == old(m).gen + 1 && !m.searching && !m.suspended
      ensures flight == old(flight) + multiset{IndexCmd(m.gen, repo, snapshot)}
    {
      ComingIsTame(env, m, flight);
      StartKeeps(env, m, flight, repo, snapshot);
      hide Screen, Coming;
      m := m.(repo := repo, snapshot := snapshot, dir := "/");
      m := m.(rows := [], cache := map[], cursor := 0, mode := ByName);
      m := m.(open := true);
      BeginBrowseOp();
      m := m.(loading := true, indexed := false);
      flight := flight + multiset{IndexCmd(m.gen, m.repo, m.snapshot)};
    }

    /** Wherever a listing may begin, the screen it leaves is valid: a cached
        directory is shown at once and ends the loading, and any other loads with
        its listing in flight while the old rows stay. */
    method ListDir(dir: string, selectPath: string)
      requires CanList(env, m) && Tame(m, flight)
      modifies this
      ensures Valid() && m.open && m.indexed && m.gen == old(m).gen + 1 && m.cache == old(m).cache
      ensures (m, flight) == var (b, fx) := BeginListDir(env, old(m), dir, selectPath); (b, old(flight) + fx)
      ensures dir in m.cache ==>
                && !m.loading && flight == old(flight)
                && m.rows == SortedBrowseRows(env.fold, env.store.list(m.repo, m.snapshot, dir), m.mode)
      ensures dir !in m.cache ==> m.loading && m.rows == old(m).rows
      ensures K.Lists(old(Now()), Now(), dir, selectPath)
    {
      ListDirKeeps(env, m, flight, dir, selectPath);
      K.ListMeaning(env, m, flight, dir, selectPath);
      hide K.Lists;
      hide Screen, Coming, SortedBrowseRows, IndexOfPath;
      if dir in m.cache {
        var rows := m.cache[dir];
        SupersedeBrowse();
        m := m.(loading := false, dir := dir);
        m := m.(rows := SortedBrowseRows(env.fold, rows, m.mode));
        m := m.(cursor := IndexOfPath(m.rows, selectPath));
        assert flight + multiset{} == flight;
        return;
      }
      BeginBrowseOp();
      m := m.(loading := true);
      flight := flight + multiset{ListCmd(m.gen, m.repo, m.snapshot, dir, selectPath)};
    }

    /** From any screen: browsing ends, no name is kept, and nothing in flight can
        touch what comes next. */
    method LeaveBrowse()
      requires Tame(m, flight)
      modifies this`m
      ensures Valid() && m == BrowseBack(old(m))
      ensures !m.open && m.rows == [] && m.cache == map[] && m.hits == [] && m.total == 0
      ensures m.repo == m.snapshot == m.dir == m.query == m.shownQuery == ""
      ensures !m.indexed && !m.loading && !m.searching && !m.suspended && !m.cancel && !m.searchErr
      ensures m.mode == ByName && m.cursor == m.searchCursor == 0
      ensures forall c :: c in flight ==> c.gen < m.gen
    {
      LeaveKeeps(env, m, flight);
      assert flight + multiset{} == flight;
      hide Screen, Coming;
      SupersedeBrowse();
      m := m.(open := false);
      ClearBrowse();
    }

    // Messages. Each was sent by a command in flight, which is then gone.

    method ApplyBrowseIndexed(ghost c: Cmd, gen: nat, failed: bool)
      requires Valid() && c in flight && c.IndexCmd? && c.gen == gen
      modifies this
      ensures Valid() && Next(env, old(Now()), Deliver(c, failed)) == Some(Now())
      ensures gen != old(m).gen ==> m == old(m)
      ensures gen == old(m).gen ==>
                if failed then !m.open
                else m.indexed && K.Lists(World(old(m), old(flight) - multiset{c}), Now(), "/", "")
    {
      hide Screen, Coming, CanList, BeginListDir, Tame;
      ghost var before := World(m, flight - multiset{c});
      IndexTaken(env, m, flight, c, failed);
      hide Clear;
      flight := flight - multiset{c};
      assert flight + multiset{} == flight;
      if gen != m.gen {
        return;
      }
      if failed {
        LeaveBrowse();
        return;
      }
      m := m.(indexed := true);
      ghost var indexed := Now();
      ListDir("/", "");
      assert K.Lists(indexed, Now(), "/", "") ==> K.Lists(before, Now(), "/", "");
    }

    method ApplyBrowseDir(ghost c: Cmd, gen: nat, dir: string, selectPath: string, listing: Option<seq<Entry>>)
      requires Valid() && c in flight && c.ListCmd? && (c.gen, c.dir, c.selectPath) == (gen, dir, selectPath)
      requires listing.Some? ==> listing.value == env.store.list(c.repo, c.snapshot, dir)
      modifies this
      ensures Valid() && Next(env, old(Now()), Deliver(c, listing.None?)) == Some(Now())
      ensures gen != old(m).gen ==> m == old(m)
      ensures gen == old(m).gen ==> !m.loading && (m.dir == if listing.Some? then dir else old(m).dir)
      ensures gen == old(m).gen && listing.Some? ==>
                m.cache == old(m).cache[dir := listing.value]
      ensures gen == old(m).gen && listing.None? ==> m == old(m).(loading := false)
      ensures gen == old(m).gen && listing.Some? && K.Holds(listing.value, selectPath) ==>
                SelectedPath(m) == selectPath
    {
      K.ArrivalMeaning(env, m, gen, dir, selectPath, listing);
      hide K.Holds, SelectedPath;
      TakeKeeps(env, m, flight, c, listing.None?);
      flight := flight - multiset{c};
      assert flight + multiset{} == flight;
      hide Screen, Coming, SortedBrowseRows, IndexOfPath;
      if gen != m.gen {
        return;
      }
      m := m.(loading := false);
      if listing.None? {
        return;
      }
      m := m.(dir := dir);
      m := m.(cache := m.cache[dir := listing.value]);
      m := m.(rows := SortedBrowseRows(env.fold, listing.value, m.mode));
      m := m.(cursor := IndexOfPath(m.rows, selectPath));
    }

    method ApplyBrowseSearch(ghost c: Cmd, gen: nat, query: string, found: Option<Found>)
      requires Valid() && c in flight && c.SearchCmd? && (c.gen, c.query) == (gen, query)
      requires found.Some? ==> found.value == env.store.search(c.repo, c.snapshot, query)
      modifies this
      ensures Valid() && Next(env, old(Now()), Deliver(c, found.None?)) == Some(Now())
      ensures gen != old(m).gen || query != old(m).query ==> m == old(m)
      ensures m != old(m) ==> m.searching && m.shownQuery == m.query
      ensures gen == old(m).gen && old(m).searching && query == old(m).query ==>
                && m.shownQuery == query && m.searchErr == found.None?
                && if found.Some? then m.hits == found.value.rows && m.total == found.value.total
                   else m.hits == [] && m.total == 0
    {
      TakeKeeps(env, m, flight, c, found.None?);
      flight := flight - multiset{c};
      assert flight + multiset{} == flight;
      hide Screen, Coming;
      if gen != m.gen || !m.searching || query != m.query {
        return;
      }
      m := m.(shownQuery := query);
      if found.None? {
        ClearBrowseSearchResults();
        m := m.(searchErr := true);
        return;
      }
      m := m.(searchErr := false);
      m := m.(hits := found.value.rows, total := found.value.total);
      m := m.(searchCursor := ClampCursor(m.searchCursor, |m.hits|));
    }

    // Keys.

    /** The same listing in the next mode, on the same path. */
    method CycleBrowseSort()
      requires Valid()
      modifies this`m
      ensures Valid() && m == CycleSort(env, old(m))
      ensures m.cache == old(m).cache && multiset(m.rows) == multiset(old(m).rows)
      ensures old(m).dir in old(m).cache && SelectedPath(old(m)) != "" ==> SelectedPath(m) == SelectedPath(old(m))
    {
      CycleSortKeeps(env, m, flight);
      CycleShows(env, m);
      assert flight + multiset{} == flight;
      hide Screen, Coming, SortedBrowseRows, IndexOfPath, SelectedPath;
      if m.dir !in m.cache {
        return;
      }
      var b := m;
      m := m.(mode := NextMode(m.mode));
      m := m.(rows := SortedBrowseRows(env.fold, m.cache[m.dir], m.mode));
      m := m.(cursor := IndexOfPath(m.rows, SelectedPath(b)));
    }

    /** With any new query: the old search's answer can no longer arrive, and a
        query that is not blank has its own in flight. */
    method FireBrowseSearch()
      requires Screen(env, m) && m.searching && Tame(m, flight)
      modifies this
      ensures Valid() && m.gen == old(m).gen + 1 && m.searching && m.query == old(m).query
      ensures (m, flight) == var (b, fx) := FireSearch(env, old(m)); (b, old(flight) + fx)
      ensures m.shownQuery == m.query || SearchCmd(m.gen, m.repo, m.snapshot, m.query) in flight
    {
      FireKeeps(env, m, flight);
      assert flight + multiset{} == flight;
      hide Screen, Coming, Fuzzy.Blank;
      m := m.(searchCursor := 0);
      if Fuzzy.Blank(env.space, m.query) {
        SupersedeBrowse();
        ClearBrowseSearchResults();
        m := m.(shownQuery := m.query);
        return;
      }
      BeginBrowseOp();
      flight := flight + multiset{SearchCmd(m.gen, m.repo, m.snapshot, m.query)};
    }

    /** A match of the store for the query on screen opens its directory with the
        search parked; results of an older query open nothing. */
    method AcceptBrowseSearch()
      requires Valid() && m.searching
      modifies this
      ensures Valid()
      ensures (m, flight) == var (b, fx) := AcceptSearch(env, old(m)); (b, old(flight) + fx)
      ensures m.suspended ==> old(m).shownQuery == old(m).query && old(m).searchCursor < |old(m).hits|
      ensures K.SearchKeyMeans(env, old(Now()), Accept, Now())
    {
      SearchingIsOpen(env, m);
      K.AcceptMeaning(env, m, flight);
      hide K.SearchKeyMeans;
      ComingIsTame(env, m, flight);
      AcceptKeeps(env, m, flight);
      if m.shownQuery == m.query {
        AcceptCanList(env, m);
      }
      assert flight + multiset{} == flight;
      hide Screen, Coming, CanList, BeginListDir, ExitSearch, DirOf;
      if m.shownQuery != m.query {
        return;
      }
      if m.searchCursor >= |m.hits| {
        SupersedeBrowse();
        ExitBrowseSearch();
        return;
      }
      var target := m.hits[m.searchCursor].path;
      m := m.(searching := false);
      m := m.(suspended := true);
      ListDir(DirOf(target), target);
    }

    /** The parked search comes back as it was, and a listing still loading cannot
        replace what is under it. */
    method RestoreBrowseSearch()
      requires Valid() && m.suspended
      modifies this`m
      ensures Valid() && m == RestoreSearch(old(m))
      ensures m.searching && !m.loading && (m.query, m.hits, m.total) == old((m.query, m.hits, m.total))
    {
      RestoreKeeps(env, m, flight);
      assert flight + multiset{} == flight;
      hide Screen, Coming;
      if m.loading {
        SupersedeBrowse();
        m := m.(loading := false);
      }
      m := m.(searching := true);
      m := m.(suspended := false);
    }

    method PressSearchKey(k: Key)
      requires Valid() && m.searching
      modifies this
      ensures Valid()
      ensures (m, flight) == var (b, fx) := SearchKey(env, old(m), k); (b, old(flight) + fx)
    {
      ComingIsTame(env, m, flight);
      SearchKeyKeeps(env, m, flight, k);
      SearchingScreen(env, m);
      assert flight + multiset{} == flight;
      hide Screen, Coming, FireSearch, AcceptSearch, ExitSearch;
      match k
      case Accept => AcceptBrowseSearch();
      case Cancel =>
        SupersedeBrowse();
        ExitBrowseSearch();
      case SearchMoveTo(c) => m := m.(searchCursor := ClampCursor(c, |m.hits|));
      case Rubout =>
        if m.query != "" {
          m := m.(query := m.query[..|m.query| - 1]);
          FireBrowseSearch();
        }
      case Text(t) =>
        if t != "" {
          m := m.(query := m.query + t);
          FireBrowseSearch();
        }
      case _ =>
    }

    method PressIdleKey(k: Key)
      requires Valid() && !m.searching && !m.loading && m.open
      modifies this
      ensures Valid()
      ensures (m, flight) == var (b, fx) := IdleKey(env, old(m), k); (b, old(flight) + fx)
    {
      ComingIsTame(env, m, flight);
      IdleKeyKeeps(env, m, flight, k);
      IdleScreen(env, m);
      assert flight + multiset{} == flight;
      hide Screen, Coming, CanList, BeginListDir, CycleSort, ExitSearch, DirOf;
      match k
      case MoveTo(c) => m := m.(cursor := ClampCursor(c, |m.rows|));
      case Open =>
        if m.cursor < |m.rows| && m.rows[m.cursor].isDir {
          ListDir(m.rows[m.cursor].path, "");
        }
      case ToParent =>
        if m.dir != "" && m.dir != "/" {
          ListDir(DirOf(m.dir), m.dir);
        }
      case Sort => CycleBrowseSort();
      case Search =>
        if m.indexed {
          ExitBrowseSearch();
          m := m.(searching := true);
        }
      case _ =>
    }

    /** handleBrowseKey. */
    method Press(k: Key)
      requires Valid() && m.open
      modifies this
      ensures Valid() && Next(env, old(Now()), Event.Press(k)) == Some(Now())
      ensures K.KeyMeans(env, old(Now()), k, Now())
    {
      K.KeyMeaning(env, Now(), k);
      hide K.KeyMeans;
      ComingIsTame(env, m, flight);
      assert flight + multiset{} == flight;
      hide Screen, Coming, SearchKey, IdleKey, BrowseBack, RestoreSearch;
      if m.searching {
        PressSearchKey(k);
      } else if k.Quit? {
        LeaveBrowse();
      } else if k.Back? {
        if m.suspended {
          RestoreBrowseSearch();
        } else {
          LeaveBrowse();
        }
      } else if !m.loading {
        PressIdleKey(k);
      }
    }

    /** What a command does in the background, and then its message. */
    method Receive(c: Cmd, failed: bool)
      requires Valid() && c in flight
      modifies this
      ensures Valid() && Next(env, old(Now()), Deliver(c, failed)) == Some(Now())
    {
      hide Screen, Coming, Take;
      match c
      case IndexCmd(gen, _, _) => ApplyBrowseIndexed(c, gen, failed);
      case ListCmd(gen, repo, snapshot, dir, selectPath) =>
        ApplyBrowseDir(c, gen, dir, selectPath, if failed then None else Some(env.store.list(repo, snapshot, dir)));
      case SearchCmd(gen, repo, snapshot, query) =>
        ApplyBrowseSearch(c, gen, query, if failed then None else Some(env.store.search(repo, snapshot, query)));
    }

    /** The event loop, over any events that can happen in turn. */
    method Run(es: seq<Event>)
      requires Valid() && RunAll(env, Now(), es).Some?
      modifies this
      ensures Valid() && RunAll(env, old(Now()), es) == Some(Now())
    {
      ghost var end := RunAll(env, Now(), es);
      assert es[0..] == es;
      for i := 0 to |es|
        invariant Valid() && RunAll(env, Now(), es[i..]) == end
      {
        RunHead(env, Now(), es[i..]);
        assert es[i..][1..] == es[i + 1..];
        hide Screen, Coming, Next, RunAll;
        match es[i]
        case Start(repo, snapshot) => Start(repo, snapshot);
        case Press(k) => Press(k);
        case Deliver(c, failed) => Receive(c, failed);
      }
    }
  }

  lemma RunHead(env: Env, w: World, es: seq<Event>)
    requires RunAll(env, w, es).Some? && es != []
    ensures Next(env, w, es[0]).Some? && RunAll(env, Next(env, w, es[0]).value, es[1..]) == RunAll(env, w, es)
    ensures es[0].Start? ==> !w.b.open
    ensures es[0].Press? ==> w.b.open
    ensures es[0].Deliver? ==> es[0].cmd in w.flight
  {
    hide StartBrowse, HandleKey, Take;
  }

  lemma IndexTaken(env: Env, b: Browse, flight: multiset<Cmd>, c: Cmd, failed: bool)
    requires Screen(env, b) && Coming(env, b, flight) && c in flight && c.IndexCmd?
    ensures Tame(b, flight - multiset{c})
    ensures var (b', fx) := ApplyIndexed(env, b, c.gen, failed);
            Screen(env, b') && Coming(env, b', flight - multiset{c} + fx)
    ensures c.gen == b.gen ==>
              b.open && CanList(env, b.(indexed := true)) && Tame(b.(indexed := true), flight - multiset{c})
  {
    TakeKeeps(env, b, flight, c, failed);
    ComingIsTame(env, b, flight);
    if c.gen == b.gen {
      CurrentGone(env, b, flight, c);
    }
    hide Coming, SortedBrowseRows, ApplyIndexed;
  }

  lemma AcceptCanList(env: Env, b: Browse)
    requires Screen(env, b) && b.searching && b.shownQuery == b.query
    ensures CanList(env, b.(searching := false, suspended := true))
  {
    hide SortedBrowseRows;
  }

  lemma SearchingIsOpen(env: Env, b: Browse)
    requires Screen(env, b) && b.searching
    ensures b.open
  {
    hide SortedBrowseRows;
  }

  lemma SearchingScreen(env: Env, b: Browse)
    requires Screen(env, b) && b.searching
    ensures forall q :: Screen(env, b.(query := q))
  {
    hide SortedBrowseRows;
  }

  lemma CycleShows(env: Env, b: Browse)
    requires Screen(env, b)
    ensures multiset(CycleSort(env, b).rows) == multiset(b.rows)
    ensures b.dir in b.cache && SelectedPath(b) != "" ==> SelectedPath(CycleSort(env, b)) == SelectedPath(b)
  {
    hide SortedBrowseRows, IndexOfPath, Sorted, Order, Answers, Modes;
    if b.dir in b.cache {
      DisplayOrder(env.fold, b.cache[b.dir], b.mode);
      DisplayOrder(env.fold, b.cache[b.dir], NextMode(b.mode));
      if SelectedPath(b) != "" {
        CycleKeepsSelection(env, b);
      }
    }
  }
}
