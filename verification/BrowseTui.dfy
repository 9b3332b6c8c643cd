/** Snapshot browsing in the terminal UI (internal/tui/browse.go,
    internal/tui/browsesearch.go): generations, the listing cache and the search
    overlay, under keys and arbitrarily late messages. */
module BrowseTui {
  import opened Wrappers
  import opened Sorting
  import opened Paths
  import opened BrowseRows
  import Fuzzy

  // Display order (internal/tui/arrange.go).

  datatype SortMode = ByName | BySize | ByModified

  function NextMode(m: SortMode): SortMode {
    match m case ByName => BySize case BySize => ByModified case ByModified => ByName
  }

  predicate After(a: ModTime, b: ModTime)
    requires a.Known? && b.Known?
  {
    a.unix > b.unix || (a.unix == b.unix && a.nanos > b.nanos)
  }

  predicate NameLess(fold: char -> char, a: Entry, b: Entry) {
    if Lower(fold, a.name) != Lower(fold, b.name) then StrLess(Lower(fold, a.name), Lower(fold, b.name))
    else if a.name != b.name then StrLess(a.name, b.name)
    else StrLess(a.path, b.path)
  }

  /** What the mode compares before names: sizes descending, or known times,
      newest first, then unknown ones. */
  predicate KeyLess(mode: SortMode, a: Entry, b: Entry) {
    match mode
    case ByName => false
    case BySize => a.size > b.size
    case ByModified =>
      a.modTime.Known? && (b.modTime.Unknown? || After(a.modTime, b.modTime))
  }

  predicate BrowseLess(fold: char -> char, mode: SortMode, a: Entry, b: Entry) {
    if a.isDir != b.isDir then a.isDir
    else if KeyLess(mode, a, b) then true
    else if KeyLess(mode, b, a) then false
    else NameLess(fold, a, b)
  }

  function Order(fold: char -> char, mode: SortMode): (Entry, Entry) -> bool {
    (a, b) => BrowseLess(fold, mode, a, b)
  }

  function SortedBrowseRows(fold: char -> char, canonical: seq<Entry>, mode: SortMode): seq<Entry> {
    if mode == ByName then canonical else StableSort(Order(fold, mode), canonical)
  }

  // The browse fields of the root model.

  datatype Browse = Browse(
    open: bool, repo: string, snapshot: string, dir: string, rows: seq<Entry>, cache: map<string, seq<Entry>>,
    cursor: nat, mode: SortMode, gen: nat, cancel: bool, loading: bool, indexed: bool,
    searching: bool, suspended: bool, query: string, shownQuery: string,
    hits: seq<Entry>, total: nat, searchErr: bool, searchCursor: nat)

  /** Work in flight, tagged with its generation; it delivers one message. */
  datatype Cmd =
    | IndexCmd(gen: nat, repo: string, snapshot: string)
    | ListCmd(gen: nat, repo: string, snapshot: string, dir: string, selectPath: string)
    | SearchCmd(gen: nat, repo: string, snapshot: string, query: string)

  datatype Found = Found(rows: seq<Entry>, total: nat)

  /** The session store, which never changes what an indexed snapshot holds. */
  datatype Store = Store(list: (string, string, string) -> seq<Entry>, search: (string, string, string) -> Found)

  datatype Env = Env(fold: char -> char, space: char -> bool, store: Store)

  function IndexOfPath(rows: seq<Entry>, p: string): (r: nat)
    ensures rows != [] ==> r < |rows|
    ensures (exists i :: 0 <= i < |rows| && rows[i].path == p) ==> r < |rows| && (p != "" ==> rows[r].path == p)
  {
    if p == "" then 0
    else
      var i := FirstWith(rows, p);
      if i < |rows| then i else 0
  }

  function FirstWith(rows: seq<Entry>, p: string): (r: nat)
    ensures r <= |rows| && (r < |rows| ==> rows[r].path == p)
    ensures forall i :: 0 <= i < r ==> rows[i].path != p
  {
    if rows == [] || rows[0].path == p then 0 else 1 + FirstWith(rows[1..], p)
  }

  function DirOf(p: string): string {
    var c := CleanBrowsePath(p);
    if c == [] then "/" else Render(Parent(c))
  }

  function ClampCursor(i: nat, total: nat): nat { if i < total then i else if total == 0 then 0 else total - 1 }

  // The methods, as functions.

  function Supersede(b: Browse): Browse { b.(gen := b.gen + 1, cancel := false) }

  function BeginOp(b: Browse): Browse { Supersede(b).(cancel := true) }

  function ClearResults(b: Browse): Browse { b.(hits := [], total := 0, searchErr := false) }

  function ExitSearch(b: Browse): Browse {
    ClearResults(b.(searching := false, suspended := false, query := "", shownQuery := "", searchCursor := 0))
  }

  function Clear(b: Browse): Browse {
    ExitSearch(b.(rows := [], cache := map[], repo := "", snapshot := "", dir := "", cursor := 0, mode := ByName,
                  indexed := false, loading := false, cancel := false))
  }

  function BeginIndex(b: Browse): (Browse, multiset<Cmd>) {
    var s := BeginOp(b);
    (s.(loading := true, indexed := false), multiset{IndexCmd(s.gen, s.repo, s.snapshot)})
  }

  function StartBrowse(b: Browse, repo: string, snapshot: string): (Browse, multiset<Cmd>) {
    BeginIndex(b.(repo := repo, snapshot := snapshot, dir := "/", rows := [], cache := map[], cursor := 0,
                  mode := ByName, open := true))
  }

  function BeginListDir(env: Env, b: Browse, dir: string, selectPath: string): (Browse, multiset<Cmd>) {
    if dir in b.cache then
      var rows := SortedBrowseRows(env.fold, b.cache[dir], b.mode);
      (Supersede(b).(loading := false, dir := dir, rows := rows, cursor := IndexOfPath(rows, selectPath)), multiset{})
    else
      var s := BeginOp(b);
      (s.(loading := true), multiset{ListCmd(s.gen, s.repo, s.snapshot, dir, selectPath)})
  }

  function ApplyIndexed(env: Env, b: Browse, gen: nat, failed: bool): (Browse, multiset<Cmd>) {
    if gen != b.gen then (b, multiset{})
    else if failed then (Clear(Supersede(b).(open := false)), multiset{})
    else BeginListDir(env, b.(indexed := true), "/", "")
  }

  function ApplyDir(env: Env, b: Browse, gen: nat, dir: string, selectPath: string,
                    listing: Option<seq<Entry>>): Browse {
    if gen != b.gen then b
    else if listing.None? then b.(loading := false)
    else
      var rows := SortedBrowseRows(env.fold, listing.value, b.mode);
      b.(loading := false, dir := dir, cache := b.cache[dir := listing.value], rows := rows,
         cursor := IndexOfPath(rows, selectPath))
  }

  function BrowseBack(b: Browse): Browse { Clear(Supersede(b).(open := false)) }

  function SelectedPath(b: Browse): string { if b.cursor < |b.rows| then b.rows[b.cursor].path else "" }

  function CycleSort(env: Env, b: Browse): Browse {
    if b.dir !in b.cache then b
    else
      var rows := SortedBrowseRows(env.fold, b.cache[b.dir], NextMode(b.mode));
      b.(mode := NextMode(b.mode), rows := rows, cursor := IndexOfPath(rows, SelectedPath(b)))
  }

  function OpenSearch(b: Browse): Browse { if b.indexed then ExitSearch(b).(searching := true) else b }

  function FireSearch(env: Env, b: Browse): (Browse, multiset<Cmd>) {
    var c := b.(searchCursor := 0);
    if Fuzzy.Blank(env.space, b.query) then (ClearResults(Supersede(c)).(shownQuery := b.query), multiset{})
    else
      var s := BeginOp(c);
      (s, multiset{SearchCmd(s.gen, s.repo, s.snapshot, s.query)})
  }

  function ApplySearch(b: Browse, gen: nat, query: string, found: Option<Found>): Browse {
    if gen != b.gen || !b.searching || query != b.query then b
    else if found.None? then ClearResults(b.(shownQuery := query)).(searchErr := true)
    else b.(shownQuery := query, searchErr := false, hits := found.value.rows, total := found.value.total,
            searchCursor := ClampCursor(b.searchCursor, |found.value.rows|))
  }

  function CancelSearch(b: Browse): Browse { ExitSearch(Supersede(b)) }

  function AcceptSearch(env: Env, b: Browse): (Browse, multiset<Cmd>) {
    if b.shownQuery != b.query then (b, multiset{})
    else if b.searchCursor >= |b.hits| then (CancelSearch(b), multiset{})
    else
      var target := b.hits[b.searchCursor].path;
      BeginListDir(env, b.(searching := false, suspended := true), DirOf(target), target)
  }

  function RestoreSearch(b: Browse): Browse {
    var s := if b.loading then Supersede(b).(loading := false) else b;
    s.(searching := true, suspended := false)
  }

  function Sent(cmd: Option<Cmd>): multiset<Cmd> { if cmd.Some? then multiset{cmd.value} else multiset{} }

  // Keys.

  datatype Key =
    | Back | Quit | MoveTo(cursor: nat) | Open | ToParent | Sort | Search | OtherKey
    | Text(text: string) | Rubout | Accept | Cancel | SearchMoveTo(cursor: nat)

  function SearchKey(env: Env, b: Browse, k: Key): (Browse, multiset<Cmd>) {
    match k
    case Accept => AcceptSearch(env, b)
    case Cancel => (CancelSearch(b), multiset{})
    case SearchMoveTo(c) => (b.(searchCursor := ClampCursor(c, |b.hits|)), multiset{})
    case Rubout => if b.query == "" then (b, multiset{}) else FireSearch(env, b.(query := b.query[..|b.query| - 1]))
    case Text(t) => if t == "" then (b, multiset{}) else FireSearch(env, b.(query := b.query + t))
    case _ => (b, multiset{})
  }

  function IdleKey(env: Env, b: Browse, k: Key): (Browse, multiset<Cmd>) {
    match k
    case MoveTo(c) => (b.(cursor := ClampCursor(c, |b.rows|)), multiset{})
    case Open =>
      if b.cursor < |b.rows| && b.rows[b.cursor].isDir then BeginListDir(env, b, b.rows[b.cursor].path, "")
      else (b, multiset{})
    case ToParent =>
      if b.dir == "" || b.dir == "/" then (b, multiset{}) else BeginListDir(env, b, DirOf(b.dir), b.dir)
    case Sort => (CycleSort(env, b), multiset{})
    case Search => (OpenSearch(b), multiset{})
    case _ => (b, multiset{})
  }

  /** The search overlay takes keys first; a loading listing takes none but the
      ways out. */
  function HandleKey(env: Env, b: Browse, k: Key): (Browse, multiset<Cmd>) {
    if b.searching then SearchKey(env, b, k)
    else if k.Quit? then (BrowseBack(b), multiset{})
    else if k.Back? then (if b.suspended then RestoreSearch(b) else BrowseBack(b), multiset{})
    else if b.loading then (b, multiset{})
    else IdleKey(env, b, k)
  }

  // Runs.

  datatype World = World(b: Browse, flight: multiset<Cmd>)

  datatype Event = Start(repo: string, snapshot: string) | Press(k: Key) | Deliver(cmd: Cmd, failed: bool)

  function Next(env: Env, w: World, e: Event): Option<World> {
    match e
    case Start(repo, snapshot) =>
      if w.b.open then None
      else var (b, fx) := StartBrowse(w.b, repo, snapshot); Some(World(b, w.flight + fx))
    case Press(k) =>
      if !w.b.open then None
      else var (b, fx) := HandleKey(env, w.b, k); Some(World(b, w.flight + fx))
    case Deliver(cmd, failed) =>
      if cmd !in w.flight then None
      else
        var (b, fx) := Take(env, w.b, cmd, failed);
        Some(World(b, w.flight - multiset{cmd} + fx))
  }

  /** The message a command delivers, applied to whatever is on screen now. */
  function Take(env: Env, b: Browse, cmd: Cmd, failed: bool): (Browse, multiset<Cmd>) {
    match cmd
    case IndexCmd(gen, _, _) => ApplyIndexed(env, b, gen, failed)
    case ListCmd(gen, repo, snapshot, dir, selectPath) =>
      (ApplyDir(env, b, gen, dir, selectPath, if failed then None else Some(env.store.list(repo, snapshot, dir))),
       multiset{})
    case SearchCmd(gen, repo, snapshot, query) =>
      (ApplySearch(b, gen, query, if failed then None else Some(env.store.search(repo, snapshot, query))), multiset{})
  }

  // What holds at every moment.

  /** Every cached listing is the store's for the snapshot on screen, and the
      rows are the cached listing in display order (none before the first). */
  ghost predicate Coherent(env: Env, b: Browse) {
    && (forall d :: d in b.cache ==> b.cache[d] == env.store.list(b.repo, b.snapshot, d))
    && b.rows == if b.dir in b.cache then SortedBrowseRows(env.fold, b.cache[b.dir], b.mode) else []
  }

  /** Search results are cleared or answer the query they are shown for. */
  ghost predicate Answers(env: Env, b: Browse) {
    (b.hits == [] && b.total == 0) || Found(b.hits, b.total) == env.store.search(b.repo, b.snapshot, b.shownQuery)
  }

  predicate Modes(b: Browse) {
    && (b.searching || b.suspended ==> b.open && b.indexed)
    && !(b.searching && b.suspended)
    && (b.searching ==> !b.loading)
    && (b.suspended ==> b.shownQuery == b.query)
    && (b.open && !b.indexed ==> b.loading)
    && (!b.indexed ==> b.cache == map[])
    && (!b.searching && !b.suspended ==> b.query == "" && b.shownQuery == "" && b.hits == [] && b.total == 0)
    && (!b.open ==> !b.loading && b.rows == [] && b.cache == map[] && b.hits == [])
  }

  /** What is waited for is coming: a loading screen has its index or listing in
      flight, an unanswered query its search. */
  ghost predicate Coming(env: Env, b: Browse, flight: multiset<Cmd>) {
    && (forall c :: c in flight ==> c.gen <= b.gen)
    && (forall c :: c in flight && c.gen == b.gen ==> flight[c] == 1 && Tagged(b, c))
    && (forall c, d :: c in flight && d in flight && c.gen == d.gen == b.gen ==> c == d)
    && (b.loading ==> exists c :: c in flight && c.gen == b.gen && (if b.indexed then c.ListCmd? else c.IndexCmd?))
    && (b.searching && b.shownQuery != b.query ==> SearchCmd(b.gen, b.repo, b.snapshot, b.query) in flight)
  }

  /** A command of the current generation belongs to what is on screen. */
  predicate Tagged(b: Browse, c: Cmd) {
    && b.open && c.repo == b.repo && c.snapshot == b.snapshot
    && match c
       case IndexCmd(_, _, _) => b.loading && !b.indexed
       case ListCmd(_, _, _, _, _) => b.loading && b.indexed
       case SearchCmd(_, _, _, query) => b.searching && query == b.query
  }

  ghost predicate Screen(env: Env, b: Browse) { Coherent(env, b) && Answers(env, b) && Modes(b) }

  /** Nothing in flight is of a later generation. */
  predicate Tame(b: Browse, flight: multiset<Cmd>) { forall c :: c in flight ==> c.gen <= b.gen }

  lemma ComingIsTame(env: Env, b: Browse, flight: multiset<Cmd>)
    requires Coming(env, b, flight)
    ensures Tame(b, flight)
  {
  }

  lemma QuietComing(env: Env, b: Browse, b': Browse, flight: multiset<Cmd>)
    requires Tame(b, flight) && b'.gen == b.gen + 1
    requires !b'.loading && (b'.searching ==> b'.shownQuery == b'.query)
    ensures Coming(env, b', flight + multiset{})
  {
    assert flight + multiset{} == flight;
  }

  lemma BeginComing(env: Env, b: Browse, b': Browse, flight: multiset<Cmd>, c: Cmd)
    requires Tame(b, flight) && b'.gen == b.gen + 1 && c.gen == b'.gen && Tagged(b', c)
    requires b'.loading ==> if b'.indexed then c.ListCmd? else c.IndexCmd?
    requires b'.searching && b'.shownQuery != b'.query ==> c == SearchCmd(b'.gen, b'.repo, b'.snapshot, b'.query)
    ensures Coming(env, b', flight + multiset{c})
  {
    assert c in flight + multiset{c};
  }

  lemma SameComing(env: Env, b: Browse, b': Browse, flight: multiset<Cmd>)
    requires Coming(env, b, flight)
    requires (b'.gen, b'.open, b'.repo, b'.snapshot) == (b.gen, b.open, b.repo, b.snapshot)
    requires (b'.loading, b'.indexed, b'.searching, b'.query, b'.shownQuery)
          == (b.loading, b.indexed, b.searching, b.query, b.shownQuery)
    ensures Coming(env, b', flight + multiset{})
  {
    assert flight + multiset{} == flight;
    assert forall c :: Tagged(b, c) == Tagged(b', c);
  }

  /** Where a listing may begin: an indexed snapshot without the overlay. */
  ghost predicate CanList(env: Env, b: Browse) {
    && Coherent(env, b) && Answers(env, b) && b.open && b.indexed && !b.searching
    && (b.suspended ==> b.shownQuery == b.query)
    && (!b.suspended ==> b.query == "" && b.shownQuery == "" && b.hits == [] && b.total == 0)
  }

  lemma ListDirKeeps(env: Env, b: Browse, flight: multiset<Cmd>, dir: string, selectPath: string)
    requires Tame(b, flight) && CanList(env, b)
    ensures var (b', fx) := BeginListDir(env, b, dir, selectPath); Screen(env, b') && Coming(env, b', flight + fx)
  {
    hide SortedBrowseRows, IndexOfPath, Coming;
    var (b', fx) := BeginListDir(env, b, dir, selectPath);
    if dir in b.cache {
      QuietComing(env, b, b', flight);
    } else {
      BeginComing(env, b, b', flight, ListCmd(b'.gen, b'.repo, b'.snapshot, dir, selectPath));
    }
  }

  lemma FireKeeps(env: Env, b: Browse, flight: multiset<Cmd>)
    requires Tame(b, flight) && Screen(env, b) && b.searching
    ensures var (b', fx) := FireSearch(env, b); Screen(env, b') && Coming(env, b', flight + fx)
  {
    hide SortedBrowseRows, Coming, Fuzzy.Blank;
    var (b', fx) := FireSearch(env, b);
    if Fuzzy.Blank(env.space, b.query) {
      QuietComing(env, b, b', flight);
    } else {
      BeginComing(env, b, b', flight, SearchCmd(b'.gen, b'.repo, b'.snapshot, b'.query));
    }
  }

  lemma CancelSearchKeeps(env: Env, b: Browse, flight: multiset<Cmd>)
    requires Tame(b, flight) && Screen(env, b) && b.searching
    ensures Screen(env, CancelSearch(b)) && Coming(env, CancelSearch(b), flight + multiset{})
  {
    hide SortedBrowseRows, Coming;
    QuietComing(env, b, CancelSearch(b), flight);
  }

  lemma AcceptKeeps(env: Env, b: Browse, flight: multiset<Cmd>)
    requires Coming(env, b, flight) && Screen(env, b) && b.searching
    ensures var (b', fx) := AcceptSearch(env, b); Screen(env, b') && Coming(env, b', flight + fx)
  {
    ComingIsTame(env, b, flight);
    hide Coming, SortedBrowseRows, BeginListDir, CancelSearch, DirOf;
    if b.shownQuery != b.query {
      SameComing(env, b, b, flight);
    } else if b.searchCursor >= |b.hits| {
      CancelSearchKeeps(env, b, flight);
    } else {
      var target := b.hits[b.searchCursor].path;
      ListDirKeeps(env, b.(searching := false, suspended := true), flight, DirOf(target), target);
    }
  }

  lemma SearchKeyKeeps(env: Env, b: Browse, flight: multiset<Cmd>, k: Key)
    requires Coming(env, b, flight) && Screen(env, b) && b.searching
    ensures var (b', fx) := SearchKey(env, b, k); Screen(env, b') && Coming(env, b', flight + fx)
  {
    ComingIsTame(env, b, flight);
    hide Coming, SortedBrowseRows, FireSearch, AcceptSearch, CancelSearch;
    match k
    case Accept => AcceptKeeps(env, b, flight);
    case Cancel => CancelSearchKeeps(env, b, flight);
    case Rubout =>
      if b.query == "" {
        SameComing(env, b, b, flight);
      } else {
        FireKeeps(env, b.(query := b.query[..|b.query| - 1]), flight);
      }
    case Text(t) =>
      if t == "" {
        SameComing(env, b, b, flight);
      } else {
        FireKeeps(env, b.(query := b.query + t), flight);
      }
    case _ => SameComing(env, b, SearchKey(env, b, k).0, flight);
  }

  lemma CycleSortKeeps(env: Env, b: Browse, flight: multiset<Cmd>)
    requires Coming(env, b, flight) && Screen(env, b)
    ensures Screen(env, CycleSort(env, b)) && Coming(env, CycleSort(env, b), flight + multiset{})
  {
    hide Coming, SortedBrowseRows;
    SameComing(env, b, CycleSort(env, b), flight);
  }

  lemma OpenSearchKeeps(env: Env, b: Browse, flight: multiset<Cmd>)
    requires Coming(env, b, flight) && Screen(env, b) && !b.searching && !b.loading && b.open
    ensures Screen(env, OpenSearch(b)) && Coming(env, OpenSearch(b), flight + multiset{})
  {
    hide SortedBrowseRows;
    assert flight + multiset{} == flight;
    assert forall c :: c in flight && c.gen == b.gen ==> !Tagged(b, c);
  }

  lemma IdleScreen(env: Env, b: Browse)
    requires Screen(env, b) && !b.searching && !b.loading && b.open
    ensures CanList(env, b)
    ensures forall c :: Screen(env, b.(cursor := c))
  {
    hide SortedBrowseRows;
  }

  lemma IdleKeyKeeps(env: Env, b: Browse, flight: multiset<Cmd>, k: Key)
    requires Coming(env, b, flight) && Screen(env, b) && !b.searching && !b.loading && b.open
    ensures var (b', fx) := IdleKey(env, b, k); Screen(env, b') && Coming(env, b', flight + fx)
  {
    ComingIsTame(env, b, flight);
    IdleScreen(env, b);
    hide Coming, Screen, CanList, BeginListDir, CycleSort, OpenSearch;
    match k
    case Open =>
      if b.cursor < |b.rows| && b.rows[b.cursor].isDir {
        ListDirKeeps(env, b, flight, b.rows[b.cursor].path, "");
      } else {
        SameComing(env, b, b, flight);
      }
    case ToParent =>
      if b.dir == "" || b.dir == "/" {
        SameComing(env, b, b, flight);
      } else {
        ListDirKeeps(env, b, flight, DirOf(b.dir), b.dir);
      }
    case Sort => CycleSortKeeps(env, b, flight);
    case Search => OpenSearchKeeps(env, b, flight);
    case _ => SameComing(env, b, IdleKey(env, b, k).0, flight);
  }

  lemma LeaveKeeps(env: Env, b: Browse, flight: multiset<Cmd>)
    requires Tame(b, flight)
    ensures Screen(env, BrowseBack(b)) && Coming(env, BrowseBack(b), flight + multiset{})
  {
    hide Coming;
    QuietComing(env, b, BrowseBack(b), flight);
  }

  lemma RestoreKeeps(env: Env, b: Browse, flight: multiset<Cmd>)
    requires Coming(env, b, flight) && Screen(env, b) && b.suspended
    ensures Screen(env, RestoreSearch(b)) && Coming(env, RestoreSearch(b), flight + multiset{})
  {
    hide SortedBrowseRows;
    if b.loading {
      ComingIsTame(env, b, flight);
      hide Coming;
      QuietComing(env, b, RestoreSearch(b), flight);
    } else {
      assert flight + multiset{} == flight;
      assert forall c :: c in flight && c.gen == b.gen ==> !Tagged(b, c);
    }
  }

  lemma KeyKeeps(env: Env, b: Browse, flight: multiset<Cmd>, k: Key)
    requires Coming(env, b, flight) && Screen(env, b) && b.open
    ensures var (b', fx) := HandleKey(env, b, k); Screen(env, b') && Coming(env, b', flight + fx)
  {
    ComingIsTame(env, b, flight);
    hide Coming, Screen, SearchKey, IdleKey, BrowseBack, RestoreSearch;
    if b.searching {
      SearchKeyKeeps(env, b, flight, k);
    } else if k.Quit? || (k.Back? && !b.suspended) {
      LeaveKeeps(env, b, flight);
    } else if k.Back? {
      RestoreKeeps(env, b, flight);
    } else if b.loading {
      SameComing(env, b, b, flight);
    } else {
      IdleKeyKeeps(env, b, flight, k);
    }
  }

  /** Delivering a message of another generation. */
  lemma StaleKeeps(env: Env, b: Browse, flight: multiset<Cmd>, c: Cmd)
    requires Coming(env, b, flight) && c in flight && c.gen != b.gen
    ensures Coming(env, b, flight - multiset{c})
  {
    var rest := flight - multiset{c};
    if b.loading {
      var d :| d in flight && d.gen == b.gen && (if b.indexed then d.ListCmd? else d.IndexCmd?);
      assert d in rest;
    }
  }

  /** Delivering the current one leaves no other of its generation. */
  lemma CurrentGone(env: Env, b: Browse, flight: multiset<Cmd>, c: Cmd)
    requires Coming(env, b, flight) && c in flight && c.gen == b.gen
    ensures Tagged(b, c)
    ensures forall d :: d in flight - multiset{c} ==> d.gen < b.gen
  {
  }

  /** With nothing of the current generation in flight and nothing waited for. */
  lemma IdleComing(env: Env, b: Browse, b': Browse, flight: multiset<Cmd>)
    requires forall d :: d in flight ==> d.gen < b.gen
    requires b'.gen == b.gen && !b'.loading && (b'.searching ==> b'.shownQuery == b'.query)
    ensures Coming(env, b', flight + multiset{})
  {
    assert flight + multiset{} == flight;
  }

  lemma IndexedKeeps(env: Env, b: Browse, flight: multiset<Cmd>, c: Cmd, failed: bool)
    requires Coming(env, b, flight) && Screen(env, b) && c in flight && c.gen == b.gen && c.IndexCmd?
    ensures var (b', fx) := ApplyIndexed(env, b, c.gen, failed);
            Screen(env, b') && Coming(env, b', flight - multiset{c} + fx)
  {
    CurrentGone(env, b, flight, c);
    hide Coming, SortedBrowseRows, BeginListDir;
    var rest := flight - multiset{c};
    assert Tame(b, rest);
    if failed {
      LeaveKeeps(env, b, rest);
    } else {
      ListDirKeeps(env, b.(indexed := true), rest, "/", "");
    }
  }

  lemma DirKeeps(env: Env, b: Browse, flight: multiset<Cmd>, c: Cmd, failed: bool)
    requires Coming(env, b, flight) && Screen(env, b) && c in flight && c.gen == b.gen && c.ListCmd?
    ensures var (b', fx) := Take(env, b, c, failed);
            Screen(env, b') && Coming(env, b', flight - multiset{c} + fx)
  {
    CurrentGone(env, b, flight, c);
    hide Coming, SortedBrowseRows, IndexOfPath;
    IdleComing(env, b, Take(env, b, c, failed).0, flight - multiset{c});
  }

  lemma SearchKeeps(env: Env, b: Browse, flight: multiset<Cmd>, c: Cmd, failed: bool)
    requires Coming(env, b, flight) && Screen(env, b) && c in flight && c.gen == b.gen && c.SearchCmd?
    ensures var (b', fx) := Take(env, b, c, failed);
            Screen(env, b') && Coming(env, b', flight - multiset{c} + fx)
  {
    CurrentGone(env, b, flight, c);
    hide Coming, SortedBrowseRows;
    IdleComing(env, b, Take(env, b, c, failed).0, flight - multiset{c});
  }

  lemma TakeKeeps(env: Env, b: Browse, flight: multiset<Cmd>, c: Cmd, failed: bool)
    requires Coming(env, b, flight) && Screen(env, b) && c in flight
    ensures var (b', fx) := Take(env, b, c, failed);
            Screen(env, b') && Coming(env, b', flight - multiset{c} + fx)
  {
    hide Coming, Screen, BeginListDir, Clear;
    if c.gen != b.gen {
      StaleKeeps(env, b, flight, c);
      assert flight - multiset{c} + multiset{} == flight - multiset{c};
    } else {
      match c
      case IndexCmd(_, _, _) => IndexedKeeps(env, b, flight, c, failed);
      case ListCmd(_, _, _, _, _) => DirKeeps(env, b, flight, c, failed);
      case SearchCmd(_, _, _, _) => SearchKeeps(env, b, flight, c, failed);
    }
  }

  lemma StartKeeps(env: Env, b: Browse, flight: multiset<Cmd>, repo: string, snapshot: string)
    requires Tame(b, flight) && Screen(env, b) && !b.open
    ensures var (b', fx) := StartBrowse(b, repo, snapshot); Screen(env, b') && Coming(env, b', flight + fx)
  {
    hide Coming;
    var b' := StartBrowse(b, repo, snapshot).0;
    BeginComing(env, b, b', flight, IndexCmd(b'.gen, repo, snapshot));
  }

  lemma NextKeeps(env: Env, w: World, e: Event)
    requires Screen(env, w.b) && Coming(env, w.b, w.flight) && Next(env, w, e).Some?
    ensures Screen(env, Next(env, w, e).value.b) && Coming(env, Next(env, w, e).value.b, Next(env, w, e).value.flight)
  {
    ComingIsTame(env, w.b, w.flight);
    hide Coming, Screen, StartBrowse, HandleKey, Take;
    match e
    case Start(repo, snapshot) => StartKeeps(env, w.b, w.flight, repo, snapshot);
    case Press(k) => KeyKeeps(env, w.b, w.flight, k);
    case Deliver(c, failed) => TakeKeeps(env, w.b, w.flight, c, failed);
  }

  function RunAll(env: Env, w: World, es: seq<Event>): Option<World>
    decreases |es|
  {
    if es == [] then Some(w)
    else
      var w' := Next(env, w, es[0]);
      if w'.None? then None else RunAll(env, w'.value, es[1..])
  }

  predicate Initial(w: World) {
    && w.flight == multiset{} && !w.b.open && !w.b.loading && !w.b.indexed && !w.b.searching && !w.b.suspended
    && w.b.rows == [] && w.b.cache == map[] && w.b.hits == [] && w.b.total == 0 && w.b.query == w.b.shownQuery == ""
  }

  lemma {:induction false} RunKeeps(env: Env, w: World, es: seq<Event>)
    requires Screen(env, w.b) && Coming(env, w.b, w.flight) && RunAll(env, w, es).Some?
    ensures var w' := RunAll(env, w, es).value; Screen(env, w'.b) && Coming(env, w'.b, w'.flight)
    decreases |es|
  {
    hide Screen, Coming, Next;
    if es != [] {
      NextKeeps(env, w, es[0]);
      RunKeeps(env, Next(env, w, es[0]).value, es[1..]);
    }
  }

  /** In every run of keys, starts and late messages: each cached listing is the
      store's for the snapshot on screen; the rows are that listing in display
      order; search results answer the query they are shown for; a loading
      screen has the one message in flight that ends the loading, and an
      unanswered query its search, so nothing waits for ever; the overlay is
      open only on an indexed, settled listing; and a closed browser keeps no
      names. */
  lemma BrowseIsCoherent(env: Env, w0: World, es: seq<Event>)
    requires Initial(w0) && RunAll(env, w0, es).Some?
    ensures var w := RunAll(env, w0, es).value; var b := w.b;
      && (forall d :: d in b.cache ==> b.cache[d] == env.store.list(b.repo, b.snapshot, d))
      && (b.rows == if b.dir in b.cache then SortedBrowseRows(env.fold, b.cache[b.dir], b.mode) else [])
      && ((b.hits == [] && b.total == 0)
          || Found(b.hits, b.total) == env.store.search(b.repo, b.snapshot, b.shownQuery))
      && (b.loading ==> exists c :: c in w.flight && c.gen == b.gen && (if b.indexed then c.ListCmd? else c.IndexCmd?))
      && (b.searching && b.shownQuery != b.query ==> SearchCmd(b.gen, b.repo, b.snapshot, b.query) in w.flight)
      && (b.searching ==> !b.loading && b.indexed && b.open)
      && (!b.open ==> !b.loading && b.rows == [] && b.cache == map[] && b.hits == [])
  {
    hide SortedBrowseRows, RunAll;
    assert Coming(env, w0.b, w0.flight);
    RunKeeps(env, w0, es);
  }

  /** The message a loading screen waits for does end the loading. */
  lemma LoadingEnds(env: Env, b: Browse, flight: multiset<Cmd>, c: Cmd, failed: bool)
    requires Screen(env, b) && Coming(env, b, flight) && b.loading && c in flight && c.gen == b.gen
    ensures var (b', fx) := Take(env, b, c, failed);
            !b'.loading || (c.IndexCmd? && b'.indexed && exists d :: d in fx && d.ListCmd? && d.gen == b'.gen)
  {
    hide SortedBrowseRows;
    assert Tagged(b, c);
    var (b', fx) := Take(env, b, c, failed);
    if c.IndexCmd? && !failed && "/" !in b.cache {
      assert ListCmd(b'.gen, b'.repo, b'.snapshot, "/", "") in fx;
    }
  }

  // Display order.

  lemma KeyLessIsStrictWeak(mode: SortMode)
    ensures forall a, b: Entry :: KeyLess(mode, a, b) ==> !KeyLess(mode, b, a)
    ensures forall a, b, c: Entry :: KeyLess(mode, a, c) ==> KeyLess(mode, a, b) || KeyLess(mode, b, c)
  {
  }

  lemma OrderIsStrictWeak(fold: char -> char, mode: SortMode)
    ensures StrictWeakOrder(Order(fold, mode))
  {
    StrLessIsStrictWeak();
    KeyLessIsStrictWeak(mode);
    hide StrLess, KeyLess, Lower;
    forall a, b ensures NameLess(fold, a, b) ==> !NameLess(fold, b, a) {
      StrLessTrichotomy(Lower(fold, a.name), Lower(fold, b.name));
      StrLessTrichotomy(a.name, b.name);
      StrLessTrichotomy(a.path, b.path);
    }
    forall a, b, c | NameLess(fold, a, c) ensures NameLess(fold, a, b) || NameLess(fold, b, c) {
    }
  }

  /** Every mode shows the same entries, directories first; only entries of one
      path could tie. */
  lemma DisplayOrder(fold: char -> char, canonical: seq<Entry>, mode: SortMode)
    ensures multiset(SortedBrowseRows(fold, canonical, mode)) == multiset(canonical)
    ensures mode != ByName ==> Sorted(Order(fold, mode), SortedBrowseRows(fold, canonical, mode))
    ensures Sorted(Order(fold, ByName), canonical) ==>
              Sorted(Order(fold, mode), SortedBrowseRows(fold, canonical, mode))
  {
    OrderIsStrictWeak(fold, mode);
    StableSortSorts(Order(fold, mode), canonical);
  }

  /** By folded name, then name, then path. */
  predicate NamesInOrder(fold: char -> char, a: Entry, b: Entry) {
    var x, y := Lower(fold, a.name), Lower(fold, b.name);
    !StrLess(y, x) && (x == y ==> !StrLess(b.name, a.name) && (a.name == b.name ==> !StrLess(b.path, a.path)))
  }

  /** a may come before b: directories first; by size the larger first; by time
      known times first and of these the later; and otherwise by name. */
  predicate InOrder(fold: char -> char, mode: SortMode, a: Entry, b: Entry) {
    && (b.isDir ==> a.isDir)
    && (a.isDir == b.isDir ==>
          match mode
          case ByName => NamesInOrder(fold, a, b)
          case BySize => a.size >= b.size && (a.size == b.size ==> NamesInOrder(fold, a, b))
          case ByModified =>
            && (b.modTime.Known? ==> a.modTime.Known? && !Later(b.modTime, a.modTime))
            && ((b.modTime.Known? && !Later(a.modTime, b.modTime)) || a.modTime.Unknown? ==> NamesInOrder(fold, a, b)))
  }

  predicate Later(a: ModTime, b: ModTime)
    requires a.Known? && b.Known?
  {
    b.unix < a.unix || (a.unix == b.unix && b.nanos < a.nanos)
  }

  lemma OrderMeans(fold: char -> char, mode: SortMode, a: Entry, b: Entry)
    requires !BrowseLess(fold, mode, b, a)
    ensures InOrder(fold, mode, a, b)
  {
    StrLessTrichotomy(Lower(fold, a.name), Lower(fold, b.name));
    StrLessTrichotomy(a.name, b.name);
    hide StrLess, Lower;
  }

  /** What is on screen in each mode, spelled out. */
  lemma DisplayMeans(fold: char -> char, canonical: seq<Entry>, mode: SortMode)
    requires Sorted(Order(fold, ByName), canonical)
    ensures var rows := SortedBrowseRows(fold, canonical, mode);
      && multiset(rows) == multiset(canonical)
      && forall i, j :: 0 <= i < j < |rows| ==> InOrder(fold, mode, rows[i], rows[j])
  {
    DisplayOrder(fold, canonical, mode);
    hide SortedBrowseRows, BrowseLess, InOrder;
    var rows := SortedBrowseRows(fold, canonical, mode);
    forall i, j | 0 <= i < j < |rows| ensures InOrder(fold, mode, rows[i], rows[j]) {
      OrderMeans(fold, mode, rows[i], rows[j]);
    }
  }

  /** Cycling the sort keeps the cursor on the selected path. */
  lemma CycleKeepsSelection(env: Env, b: Browse)
    requires Coherent(env, b) && b.cursor < |b.rows| && b.rows[b.cursor].path != ""
    ensures var b' := CycleSort(env, b);
            b'.cursor < |b'.rows| && b'.rows[b'.cursor].path == b.rows[b.cursor].path
  {
    var e := b.rows[b.cursor];
    DisplayOrder(env.fold, b.cache[b.dir], b.mode);
    DisplayOrder(env.fold, b.cache[b.dir], NextMode(b.mode));
    hide SortedBrowseRows;
    var rows := SortedBrowseRows(env.fold, b.cache[b.dir], NextMode(b.mode));
    assert e in multiset(b.rows) && e in multiset(rows);
    var i :| 0 <= i < |rows| && rows[i] == e;
  }
}
