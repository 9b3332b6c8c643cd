/** What each key of the browser is for (internal/tui/browse.go,
    internal/tui/browsesearch.go), in terms of paths and without regard to how
    the handlers get there. */
module BrowseKeys {
  import opened Wrappers
  import opened Sorting
  import opened Paths
  import opened BrowseRows
  import opened BrowseTui
  import Fuzzy

  /** The cursor is on the path asked for if it is there, and first if none was. */
  predicate CursorOn(b: Browse, selectPath: string) {
    && ((exists i :: 0 <= i < |b.rows| && b.rows[i].path == selectPath) && selectPath != "" ==>
          SelectedPath(b) == selectPath)
    && (selectPath == "" ==> b.cursor == 0)
  }

  /** A directory of the snapshot on screen is shown at once when it has been
      listed before, and asked for otherwise. */
  predicate Lists(w: World, w': World, dir: string, selectPath: string) {
    && w'.b.open && w'.b.repo == w.b.repo && w'.b.snapshot == w.b.snapshot && w'.b.mode == w.b.mode
    && if dir in w.b.cache then
         && w'.flight == w.flight && !w'.b.loading && !w'.b.cancel
         && w'.b.dir == dir && CursorOn(w'.b, selectPath)
       else
         && w'.flight == w.flight + multiset{ListCmd(w'.b.gen, w.b.repo, w.b.snapshot, dir, selectPath)}
         && w'.b.loading && w'.b.cancel && w'.b.dir == w.b.dir
  }

  /** A new query is shown as answered when blank, and asked for otherwise. */
  predicate Asks(env: Env, w: World, w': World, query: string) {
    && w'.b.searching && w'.b.query == query && w'.b.searchCursor == 0
    && if Fuzzy.Blank(env.space, query) then
         && w'.flight == w.flight && !w'.b.cancel
         && w'.b.shownQuery == query && w'.b.hits == [] && w'.b.total == 0
       else
         && w'.flight == w.flight + multiset{SearchCmd(w'.b.gen, w.b.repo, w.b.snapshot, query)}
         && w'.b.cancel && w'.b.shownQuery == w.b.shownQuery && w'.b.hits == w.b.hits
  }

  predicate SameListing(b: Browse, b': Browse) {
    && b'.open == b.open && b'.dir == b.dir && b'.rows == b.rows && b'.cache == b.cache && b'.cursor == b.cursor
    && b'.mode == b.mode && b'.indexed == b.indexed
  }

  /** In the search overlay: accepting a match lists the directory it is in, with
      the cursor on it; cancelling leaves the listing below as it was; typing and
      deleting change the query. */
  ghost predicate SearchKeyMeans(env: Env, w: World, k: Key, w': World) {
    var b, b' := w.b, w'.b;
    match k
    case Accept =>
      if b.shownQuery != b.query then w' == w
      else if b.searchCursor >= |b.hits| then SameListing(b, b') && !b'.searching && !b'.suspended
      else
        b'.suspended && b'.query == b.query && b'.hits == b.hits
        && forall p: Path :: p != [] && b.hits[b.searchCursor].path == Render(p) ==>
             Lists(w, w', Render(Parent(p)), Render(p))
    case Cancel =>
      && SameListing(b, b') && !b'.searching && !b'.suspended && b'.query == "" && b'.hits == []
      && b'.gen == b.gen + 1 && w'.flight == w.flight
    case SearchMoveTo(c) =>
      w' == w.(b := b.(searchCursor := if c < |b.hits| then c else if b.hits == [] then 0 else |b.hits| - 1))
    case Rubout => if b.query == "" then w' == w else Asks(env, w, w', b.query[..|b.query| - 1])
    case Text(t) => if t == "" then w' == w else Asks(env, w, w', b.query + t)
    case _ => w' == w
  }

  /** On a settled listing: open goes into the selected directory, to-parent to
      the directory above with the cursor on the one left, sort to the next of
      name, size and time with the same entries. */
  ghost predicate IdleKeyMeans(w: World, k: Key, w': World) {
    var b, b' := w.b, w'.b;
    match k
    case MoveTo(c) =>
      w' == w.(b := b.(cursor := if c < |b.rows| then c else if b.rows == [] then 0 else |b.rows| - 1))
    case Open =>
      if b.cursor < |b.rows| && b.rows[b.cursor].isDir then Lists(w, w', b.rows[b.cursor].path, "") else w' == w
    case ToParent =>
      if b.dir == "" || b.dir == "/" then w' == w
      else forall p: Path :: p != [] && b.dir == Render(p) ==> Lists(w, w', Render(Parent(p)), b.dir)
    case Sort =>
      if b.dir !in b.cache then w' == w
      else
        && w'.flight == w.flight && b'.dir == b.dir && b'.cache == b.cache && b'.gen == b.gen
        && b'.mode == (if b.mode == ByName then BySize else if b.mode == BySize then ByModified else ByName)
        && multiset(b'.rows) == multiset(b.cache[b.dir])
    case Search =>
      if !b.indexed then w' == w
      else
        && SameListing(b, b') && b'.searching && b'.query == "" && b'.hits == [] && b'.gen == b.gen
        && w'.flight == w.flight
    case _ => w' == w
  }

  ghost predicate KeyMeans(env: Env, w: World, k: Key, w': World) {
    var b, b' := w.b, w'.b;
    if b.searching then SearchKeyMeans(env, w, k, w')
    else if k.Quit? || (k.Back? && !b.suspended) then !b'.open && w'.flight == w.flight
    else if k.Back? then
      && SameListing(b, b') && b'.searching && !b'.suspended && !b'.loading && w'.flight == w.flight
      && b'.query == b.query && b'.hits == b.hits && b'.searchCursor == b.searchCursor
    else if b.loading then w' == w
    else IdleKeyMeans(w, k, w')
  }

  /** The parent of a path, by its string. */
  lemma DirOfIsParent(p: Path)
    requires p != []
    ensures DirOf(Render(p)) == Render(Parent(p))
  {
    CleanUndoesRender(p);
    CleanUndoesRender([]);
  }

  lemma SortedHolds(fold: char -> char, rows: seq<Entry>, mode: SortMode, selectPath: string)
    ensures var sorted := SortedBrowseRows(fold, rows, mode);
            (exists i :: 0 <= i < |sorted| && sorted[i].path == selectPath)
            <==> exists i :: 0 <= i < |rows| && rows[i].path == selectPath
    ensures multiset(SortedBrowseRows(fold, rows, mode)) == multiset(rows)
  {
    DisplayOrder(fold, rows, mode);
    hide SortedBrowseRows;
    var sorted := SortedBrowseRows(fold, rows, mode);
    if i :| 0 <= i < |sorted| && sorted[i].path == selectPath {
      assert sorted[i] in multiset(rows);
      var j :| 0 <= j < |rows| && rows[j] == sorted[i];
    }
    if i :| 0 <= i < |rows| && rows[i].path == selectPath {
      assert rows[i] in multiset(sorted);
      var j :| 0 <= j < |sorted| && sorted[j] == rows[i];
    }
  }

  predicate Holds(rows: seq<Entry>, path: string) {
    path != "" && exists i :: 0 <= i < |rows| && rows[i].path == path
  }

  /** A listing that arrives and holds the path it was asked for shows it
      selected. */
  lemma ArrivalMeaning(env: Env, b: Browse, gen: nat, dir: string, selectPath: string, listing: Option<seq<Entry>>)
    ensures var b' := ApplyDir(env, b, gen, dir, selectPath, listing);
      gen == b.gen && listing.Some? && Holds(listing.value, selectPath) ==> SelectedPath(b') == selectPath
  {
    if listing.Some? {
      SortedHolds(env.fold, listing.value, b.mode, selectPath);
    }
    hide SortedBrowseRows;
  }

  lemma ListMeaning(env: Env, b: Browse, flight: multiset<Cmd>, dir: string, selectPath: string)
    requires b.open
    ensures var (b', fx) := BeginListDir(env, b, dir, selectPath);
            Lists(World(b, flight), World(b', flight + fx), dir, selectPath)
  {
    hide SortedBrowseRows;
    assert flight + multiset{} == flight;
  }

  lemma FireMeaning(env: Env, b: Browse, flight: multiset<Cmd>, query: string)
    requires b.searching
    ensures var (b', fx) := FireSearch(env, b.(query := query));
            Asks(env, World(b, flight), World(b', flight + fx), query)
  {
    hide Fuzzy.Blank;
    assert flight + multiset{} == flight;
  }

  lemma AcceptMeaning(env: Env, b: Browse, flight: multiset<Cmd>)
    requires b.searching && b.open
    ensures var (b', fx) := AcceptSearch(env, b);
            SearchKeyMeans(env, World(b, flight), Accept, World(b', flight + fx))
  {
    assert flight + multiset{} == flight;
    if b.shownQuery == b.query && b.searchCursor < |b.hits| {
      var target := b.hits[b.searchCursor].path;
      var s := b.(searching := false, suspended := true);
      ListMeaning(env, s, flight, DirOf(target), target);
      forall p: Path | p != [] && target == Render(p) ensures DirOf(target) == Render(Parent(p)) {
        DirOfIsParent(p);
      }
      hide DirOf, Render, SortedBrowseRows, IndexOfPath;
    }
  }

  lemma SearchKeyMeaning(env: Env, b: Browse, flight: multiset<Cmd>, k: Key)
    requires b.searching && b.open
    ensures var (b', fx) := SearchKey(env, b, k); SearchKeyMeans(env, World(b, flight), k, World(b', flight + fx))
  {
    hide AcceptSearch, FireSearch, Asks, Render, Lists;
    assert flight + multiset{} == flight;
    match k
    case Accept => AcceptMeaning(env, b, flight);
    case Rubout =>
      if b.query != "" {
        FireMeaning(env, b, flight, b.query[..|b.query| - 1]);
      }
    case Text(t) => FireMeaning(env, b, flight, b.query + t);
    case _ =>
  }

  lemma IdleKeyMeaning(env: Env, b: Browse, flight: multiset<Cmd>, k: Key)
    requires b.open
    ensures var (b', fx) := IdleKey(env, b, k); IdleKeyMeans(World(b, flight), k, World(b', flight + fx))
  {
    hide BeginListDir, SortedBrowseRows, IndexOfPath, Render, DirOf, Lists;
    assert flight + multiset{} == flight;
    match k
    case Open =>
      if b.cursor < |b.rows| {
        ListMeaning(env, b, flight, b.rows[b.cursor].path, "");
      }
    case ToParent =>
      ListMeaning(env, b, flight, DirOf(b.dir), b.dir);
      forall p: Path | p != [] && b.dir == Render(p) ensures DirOf(b.dir) == Render(Parent(p)) {
        DirOfIsParent(p);
      }
    case Sort =>
      if b.dir in b.cache {
        SortedHolds(env.fold, b.cache[b.dir], NextMode(b.mode), "");
      }
    case _ =>
  }

  lemma KeyMeaning(env: Env, w: World, k: Key)
    requires w.b.open
    ensures var (b', fx) := HandleKey(env, w.b, k); KeyMeans(env, w, k, World(b', w.flight + fx))
  {
    hide SearchKey, IdleKey, SearchKeyMeans, IdleKeyMeans;
    assert w.flight + multiset{} == w.flight;
    if w.b.searching {
      SearchKeyMeaning(env, w.b, w.flight, k);
    } else {
      IdleKeyMeaning(env, w.b, w.flight, k);
    }
  }
}
