/** Grouping and collapsing the snapshot list (internal/tui/snapgroup.go): the
    display is a rearrangement that loses nothing and keeps the selection. */
module SnapGroup {
  import opened Sorting
  import opened Wrappers
  import BrowseRows

  datatype Snapshot = Snapshot(id: string, hostname: string, tags: seq<string>, paths: seq<string>, tree: string)

  datatype GroupMode = Off | Host | Tags | Paths

  function NextMode(m: GroupMode): GroupMode {
    match m case Off => Host case Host => Tags case Tags => Paths case Paths => Off
  }

  datatype SnapNode = SnapNode(head: Snapshot, count: nat, peers: seq<Snapshot>)

  datatype SnapSection = SnapSection(key: string, nodes: seq<SnapNode>, rawCount: nat, noKey: bool)

  datatype SnapDisplay = SnapDisplay(nodes: seq<SnapNode>, sections: seq<SnapSection>)

  // Keys.

  function Join(ss: seq<string>, sep: char): string {
    if ss == [] then "" else if |ss| == 1 then ss[0] else ss[0] + [sep] + Join(ss[1..], sep)
  }

  function SortedCopy(ss: seq<string>): seq<string> { StableSort(StrLess, ss) }

  const NUL := '\0'
  const SOH := '\U{01}'

  function SectionKey(s: Snapshot, mode: GroupMode): Option<string> {
    match mode
    case Host => if s.hostname == "" then None else Some(s.hostname)
    case Tags => if s.tags == [] then None else Some(Join(SortedCopy(s.tags), NUL))
    case Paths => if s.paths == [] then None else Some(Join(SortedCopy(s.paths), NUL))
    case Off => None
  }

  function SourceKey(s: Snapshot): string {
    s.hostname + [SOH] + Join(SortedCopy(s.tags), NUL) + [SOH] + Join(SortedCopy(s.paths), NUL)
  }

  predicate Collapsible(a: Snapshot, b: Snapshot) {
    a.tree != "" && b.tree != "" && a.tree == b.tree && SourceKey(a) == SourceKey(b)
  }

  lemma JoinHasSep(ss: seq<string>, sep: char)
    requires |ss| > 1
    ensures sep in Join(ss, sep)
  {
    assert Join(ss, sep)[|ss[0]|] == sep;
  }

  lemma {:induction false} CutAtFirst(a: string, x: string, b: string, y: string, sep: char)
    requires sep !in a && sep !in b && a + [sep] + x == b + [sep] + y
    ensures a == b && x == y
  {
    if a == "" || b == "" {
      assert (a + [sep] + x)[0] == (b + [sep] + y)[0];
      assert a == "" ==> (a + [sep] + x)[0] == sep;
      assert b == "" ==> (b + [sep] + y)[0] == sep;
      assert a == b;
      assert x == (a + [sep] + x)[1..] && y == (b + [sep] + y)[1..];
    } else {
      assert a[0] == (a + [sep] + x)[0] == (b + [sep] + y)[0] == b[0];
      assert (a + [sep] + x)[1..] == a[1..] + [sep] + x && (b + [sep] + y)[1..] == b[1..] + [sep] + y;
      CutAtFirst(a[1..], x, b[1..], y, sep);
      assert a == [a[0]] + a[1..] && b == [b[0]] + b[1..];
    }
  }

  /** Joined lists are told apart as long as no element contains the separator. */
  lemma {:induction false} JoinInjective(a: seq<string>, b: seq<string>, sep: char)
    requires a != [] && b != [] && Join(a, sep) == Join(b, sep)
    requires (forall i :: 0 <= i < |a| ==> sep !in a[i]) && forall i :: 0 <= i < |b| ==> sep !in b[i]
    ensures a == b
  {
    if |a| > 1 {
      JoinHasSep(a, sep);
    }
    if |b| > 1 {
      JoinHasSep(b, sep);
    }
    if |a| > 1 && |b| > 1 {
      CutAtFirst(a[0], Join(a[1..], sep), b[0], Join(b[1..], sep), sep);
      JoinInjective(a[1..], b[1..], sep);
      assert a == [a[0]] + a[1..] && b == [b[0]] + b[1..];
    }
  }

  /** Lists without NUL join to one key exactly when they have the same elements,
      in whatever order. */
  lemma SameJoin(a: seq<string>, b: seq<string>)
    requires a != [] && b != []
    requires (forall t :: t in a ==> NUL !in t) && forall t :: t in b ==> NUL !in t
    ensures Join(SortedCopy(a), NUL) == Join(SortedCopy(b), NUL) <==> multiset(a) == multiset(b)
  {
    StrLessIsStrictWeak();
    StableSortSorts(StrLess, a);
    StableSortSorts(StrLess, b);
    var x, y := SortedCopy(a), SortedCopy(b);
    hide StableSort, Join;
    forall i | 0 <= i < |x| ensures NUL !in x[i] {
      assert x[i] in multiset(a);
    }
    forall i | 0 <= i < |y| ensures NUL !in y[i] {
      assert y[i] in multiset(b);
    }
    if Join(x, NUL) == Join(y, NUL) {
      JoinInjective(x, y, NUL);
    }
    if multiset(a) == multiset(b) {
      SortedUnique(StrLess, x, y);
    }
  }

  /** Two tagged snapshots share a section exactly when they have the same tags,
      in whatever order, provided no tag contains NUL. */
  lemma SameTagSection(a: Snapshot, b: Snapshot)
    requires a.tags != [] && b.tags != []
    requires (forall t :: t in a.tags ==> NUL !in t) && forall t :: t in b.tags ==> NUL !in t
    ensures SectionKey(a, Tags) == SectionKey(b, Tags) <==> multiset(a.tags) == multiset(b.tags)
  {
    SameJoin(a.tags, b.tags);
    hide SortedCopy, Join;
  }

  predicate NulFree(s: Snapshot) {
    (forall t :: t in s.tags ==> NUL !in t) && forall p :: p in s.paths ==> NUL !in p
  }

  /** What two snapshots of one section have in common, mode by mode; those
      without a host, tag or path have no key. */
  lemma SameSection(a: Snapshot, b: Snapshot)
    requires NulFree(a) && NulFree(b)
    ensures SectionKey(a, Host) == SectionKey(b, Host) <==> a.hostname == b.hostname
    ensures SectionKey(a, Tags) == SectionKey(b, Tags) <==> multiset(a.tags) == multiset(b.tags)
    ensures SectionKey(a, Paths) == SectionKey(b, Paths) <==> multiset(a.paths) == multiset(b.paths)
    ensures SectionKey(a, Host).None? <==> a.hostname == ""
    ensures SectionKey(a, Tags).None? <==> a.tags == []
    ensures SectionKey(a, Paths).None? <==> a.paths == []
    ensures a.hostname != "" ==> SectionKey(a, Host) == Some(a.hostname)
    ensures forall t :: a.tags == [t] ==> SectionKey(a, Tags) == Some(t)
    ensures forall p :: a.paths == [p] ==> SectionKey(a, Paths) == Some(p)
  {
    if a.tags != [] && b.tags != [] {
      SameJoin(a.tags, b.tags);
    }
    if a.paths != [] && b.paths != [] {
      SameJoin(a.paths, b.paths);
    }
    assert forall t: string :: SortedCopy([t]) == [t] && Join([t], NUL) == t by {
      StrLessIsStrictWeak();
      forall t: string ensures SortedCopy([t]) == [t] && Join([t], NUL) == t {
        SortedIsFixed(StrLess, [t]);
      }
    }
    hide SortedCopy, Join;
  }

  predicate Without(ss: seq<string>, c: char) { forall x :: x in ss ==> c !in x && x != "" }

  lemma {:induction false} JoinWithout(ss: seq<string>, sep: char, c: char)
    requires Without(ss, c) && sep != c
    ensures c !in Join(ss, sep)
  {
    if ss == [] {
    } else {
      assert ss[0] in ss;
      if |ss| > 1 {
        assert forall x :: x in ss[1..] ==> x in ss;
        JoinWithout(ss[1..], sep, c);
      }
    }
  }

  /** Joining the sorted list tells multisets apart when no element is empty or
      contains the separator. */
  lemma SortedJoinExact(a: seq<string>, b: seq<string>, sep: char)
    requires Without(a, sep) && Without(b, sep)
    ensures Join(SortedCopy(a), sep) == Join(SortedCopy(b), sep) <==> multiset(a) == multiset(b)
  {
    var x, y := SortedCopy(a), SortedCopy(b);
    SortedWithout(a, sep);
    SortedWithout(b, sep);
    StrLessIsStrictWeak();
    StableSortSorts(StrLess, a);
    StableSortSorts(StrLess, b);
    JoinIsEmpty(x, sep);
    JoinIsEmpty(y, sep);
    hide StableSort, Join, Without;
    assert |x| == |multiset(x)| == |multiset(a)| == |a| && |y| == |multiset(y)| == |multiset(b)| == |b|;
    if Join(x, sep) == Join(y, sep) && x != [] && y != [] {
      JoinInjective(x, y, sep);
    }
    if multiset(a) == multiset(b) {
      SortedUnique(StrLess, x, y);
    }
  }

  lemma SortedWithout(ss: seq<string>, c: char)
    requires Without(ss, c)
    ensures Without(SortedCopy(ss), c)
    ensures forall i :: 0 <= i < |SortedCopy(ss)| ==> c !in SortedCopy(ss)[i]
  {
    StrLessIsStrictWeak();
    StableSortSorts(StrLess, ss);
    hide StableSort;
    forall x | x in SortedCopy(ss) ensures x in ss {
      assert x in multiset(SortedCopy(ss));
    }
  }

  lemma JoinIsEmpty(ss: seq<string>, sep: char)
    requires Without(ss, sep)
    ensures Join(ss, sep) == "" <==> ss == []
  {
    if ss != [] {
      assert ss[0] in ss;
    }
  }

  /** No tag or path is empty, and none contains what its list is joined with. */
  predicate Separable(s: Snapshot) {
    SOH !in s.hostname && Without(s.tags, NUL) && Without(s.tags, SOH) && Without(s.paths, NUL)
  }

  /** Snapshots collapse exactly when they have the same known tree and come from
      the same host, tags and paths, in whatever order these are. */
  lemma CollapsibleExact(a: Snapshot, b: Snapshot)
    requires Separable(a) && Separable(b)
    ensures Collapsible(a, b) <==>
            && a.tree == b.tree != "" && a.hostname == b.hostname
            && multiset(a.tags) == multiset(b.tags) && multiset(a.paths) == multiset(b.paths)
  {
    SortedJoinExact(a.tags, b.tags, NUL);
    SortedJoinExact(a.paths, b.paths, NUL);
    SortedWithout(a.tags, SOH);
    SortedWithout(b.tags, SOH);
    JoinWithout(SortedCopy(a.tags), NUL, SOH);
    JoinWithout(SortedCopy(b.tags), NUL, SOH);
    hide Join, SortedCopy, Without;
    var t, p := Join(SortedCopy(a.tags), NUL), Join(SortedCopy(a.paths), NUL);
    var u, q := Join(SortedCopy(b.tags), NUL), Join(SortedCopy(b.paths), NUL);
    assert SourceKey(a) == a.hostname + [SOH] + (t + [SOH] + p) && SourceKey(b) == b.hostname + [SOH] + (u + [SOH] + q);
    if SourceKey(a) == SourceKey(b) {
      CutAtFirst(a.hostname, t + [SOH] + p, b.hostname, u + [SOH] + q, SOH);
      CutAtFirst(t, p, u, q, SOH);
    }
  }

  /** An empty tag is the same as none to the key. */
  lemma EmptyTagIsNone(s: Snapshot)
    requires s.tree != "" && s.tags == []
    ensures Collapsible(s, s.(tags := [""]))
  {
    assert StableSort(StrLess, [""]) == [""] by {
      StrLessIsStrictWeak();
      SortedIsFixed(StrLess, [""]);
    }
  }

  // Collapsing.

  /** The next snapshot joins the last run or starts one. */
  function RunStep(before: seq<SnapNode>, next: Snapshot): seq<SnapNode> {
    if before != [] && Collapsible(before[|before| - 1].head, next) then
      var cur := before[|before| - 1];
      before[..|before| - 1] + [SnapNode(cur.head, cur.count + 1, cur.peers + [next])]
    else before + [SnapNode(next, 0, [])]
  }

  function Runs(snaps: seq<Snapshot>): seq<SnapNode> {
    if snaps == [] then [] else RunStep(Runs(snaps[..|snaps| - 1]), snaps[|snaps| - 1])
  }

  lemma RunsSnoc(snaps: seq<Snapshot>, next: Snapshot)
    ensures Runs(snaps + [next]) == RunStep(Runs(snaps), next)
    ensures Runs([]) == []
  {
    assert (snaps + [next])[..|snaps|] == snaps;
  }

  lemma RunStepLast(most: seq<SnapNode>, cur: SnapNode, next: Snapshot)
    ensures RunStep(most + [cur], next) ==
            if Collapsible(cur.head, next) then most + [SnapNode(cur.head, cur.count + 1, cur.peers + [next])]
            else most + [cur] + [SnapNode(next, 0, [])]
  {
    assert (most + [cur])[..|most|] == most;
    hide Collapsible;
  }

  method CollapseTreeRuns(snaps: seq<Snapshot>) returns (out: seq<SnapNode>)
    ensures out == Runs(snaps)
  {
    if |snaps| == 0 {
      return [];
    }
    out := [];
    var cur := SnapNode(snaps[0], 0, []);
    RunsSnoc([], snaps[0]);
    assert snaps[..1] == [] + [snaps[0]];
    hide Collapsible, Runs, RunStep;
    for i := 1 to |snaps|
      invariant out + [cur] == Runs(snaps[..i])
    {
      var next := snaps[i];
      assert snaps[..i + 1] == snaps[..i] + [next];
      RunsSnoc(snaps[..i], next);
      RunStepLast(out, cur, next);
      if Collapsible(cur.head, next) {
        cur := SnapNode(cur.head, cur.count + 1, cur.peers + [next]);
      } else {
        out := out + [cur];
        cur := SnapNode(next, 0, []);
      }
    }
    out := out + [cur];
    assert snaps[..|snaps|] == snaps;
  }

  function Members(n: SnapNode): seq<Snapshot> { [n.head] + n.peers }

  function Flat(nodes: seq<SnapNode>): seq<Snapshot> {
    if nodes == [] then [] else Flat(nodes[..|nodes| - 1]) + Members(nodes[|nodes| - 1])
  }

  lemma FlatSnoc(nodes: seq<SnapNode>, n: SnapNode)
    ensures Flat(nodes + [n]) == Flat(nodes) + Members(n)
  {
    assert (nodes + [n])[..|nodes|] == nodes;
  }

  lemma {:induction false} FlatConcat(a: seq<SnapNode>, b: seq<SnapNode>)
    ensures Flat(a + b) == Flat(a) + Flat(b)
  {
    if b == [] {
      assert a + b == a && Flat(a) + [] == Flat(a);
    } else {
      var init, last := b[..|b| - 1], b[|b| - 1];
      FlatConcat(a, init);
      FlatSnoc(a + init, last);
      FlatSnoc(init, last);
      hide Flat, Members;
      assert a + b == a + init + [last] && b == init + [last];
      assert Flat(a) + Flat(init) + Members(last) == Flat(a) + (Flat(init) + Members(last));
    }
  }

  predicate Run(n: SnapNode) {
    n.count == |n.peers| && forall j :: 0 <= j < |n.peers| ==> Collapsible(n.head, n.peers[j])
  }

  /** The nodes are maximal runs: each peer collapses into its head and no head
      collapses into the one before. */
  predicate MaximalRuns(nodes: seq<SnapNode>) {
    nodes == [] ||
    var init, last := nodes[..|nodes| - 1], nodes[|nodes| - 1];
    MaximalRuns(init) && Run(last) && (init == [] || !Collapsible(init[|init| - 1].head, last.head))
  }

  lemma MaximalSnoc(nodes: seq<SnapNode>, n: SnapNode)
    ensures MaximalRuns(nodes + [n]) <==>
            MaximalRuns(nodes) && Run(n) && (nodes == [] || !Collapsible(nodes[|nodes| - 1].head, n.head))
  {
    assert (nodes + [n])[..|nodes|] == nodes;
    hide Collapsible, Run;
  }

  lemma RunGrows(most: seq<SnapNode>, cur: SnapNode, next: Snapshot)
    requires MaximalRuns(most + [cur]) && Collapsible(cur.head, next)
    ensures var grown := SnapNode(cur.head, cur.count + 1, cur.peers + [next]);
            MaximalRuns(most + [grown]) && Flat(most + [grown]) == Flat(most + [cur]) + [next]
  {
    var grown := SnapNode(cur.head, cur.count + 1, cur.peers + [next]);
    FlatSnoc(most, cur);
    FlatSnoc(most, grown);
    MaximalSnoc(most, cur);
    MaximalSnoc(most, grown);
    hide Flat, MaximalRuns, Collapsible;
    assert Members(grown) == Members(cur) + [next];
    assert Flat(most) + (Members(cur) + [next]) == Flat(most) + Members(cur) + [next];
  }

  lemma RunStarts(before: seq<SnapNode>, next: Snapshot)
    requires MaximalRuns(before) && (before != [] ==> !Collapsible(before[|before| - 1].head, next))
    ensures MaximalRuns(before + [SnapNode(next, 0, [])])
    ensures Flat(before + [SnapNode(next, 0, [])]) == Flat(before) + [next]
  {
    FlatSnoc(before, SnapNode(next, 0, []));
    MaximalSnoc(before, SnapNode(next, 0, []));
    hide Flat, MaximalRuns, Collapsible;
    assert Members(SnapNode(next, 0, [])) == [next];
  }

  lemma RunsStep(init: seq<Snapshot>, next: Snapshot, before: seq<SnapNode>)
    requires before == Runs(init) && MaximalRuns(before) && Flat(before) == init
    ensures MaximalRuns(Runs(init + [next])) && Flat(Runs(init + [next])) == init + [next]
  {
    RunsSnoc(init, next);
    hide Collapsible, Flat, MaximalRuns, Runs;
    if before != [] {
      var most, cur := before[..|before| - 1], before[|before| - 1];
      assert before == most + [cur];
      RunStepLast(most, cur, next);
      if Collapsible(cur.head, next) {
        RunGrows(most, cur, next);
      }
    }
    if before == [] || !Collapsible(before[|before| - 1].head, next) {
      RunStarts(before, next);
    }
  }

  /** Collapsing loses and reorders nothing, and its runs are maximal. */
  lemma {:induction false} RunsConserve(snaps: seq<Snapshot>)
    ensures Flat(Runs(snaps)) == snaps && MaximalRuns(Runs(snaps))
  {
    if snaps == [] {
      RunsSnoc([], Snapshot("", "", [], [], ""));
    } else {
      hide Runs, Flat, MaximalRuns;
      var init, next := snaps[..|snaps| - 1], snaps[|snaps| - 1];
      assert snaps == init + [next];
      RunsConserve(init);
      RunsStep(init, next, Runs(init));
    }
  }

  function Single(s: Snapshot): SnapNode { SnapNode(s, 0, []) }

  function Singles(snaps: seq<Snapshot>): seq<SnapNode> { Map(Single, snaps) }

  lemma {:induction false} SinglesConserve(snaps: seq<Snapshot>)
    ensures Flat(Singles(snaps)) == snaps
  {
    if snaps != [] {
      var init, last := snaps[..|snaps| - 1], snaps[|snaps| - 1];
      SinglesConserve(init);
      assert snaps == init + [last] && Singles(snaps) == Singles(init) + [Single(last)];
      FlatSnoc(Singles(init), Single(last));
    }
  }

  function Nodes(snaps: seq<Snapshot>, collapse: bool): seq<SnapNode> {
    if collapse then Runs(snaps) else Singles(snaps)
  }

  lemma NodesConserve(snaps: seq<Snapshot>, collapse: bool)
    ensures Flat(Nodes(snaps, collapse)) == snaps
  {
    RunsConserve(snaps);
    SinglesConserve(snaps);
  }

  // Grouping.

  function HasKey(mode: GroupMode, key: Option<string>): Snapshot -> bool {
    (s: Snapshot) => SectionKey(s, mode) == key
  }

  predicate KeyLess(fold: char -> char, a: string, b: string) {
    var la, lb := BrowseRows.Lower(fold, a), BrowseRows.Lower(fold, b);
    if la != lb then StrLess(la, lb) else StrLess(a, b)
  }

  function KeyOrder(fold: char -> char): (string, string) -> bool { (a, b) => KeyLess(fold, a, b) }

  /** The keys present, each once, in order of first appearance. */
  function KeysOf(snaps: seq<Snapshot>, mode: GroupMode): seq<string> {
    if snaps == [] then []
    else
      var before, k := KeysOf(snaps[..|snaps| - 1], mode), SectionKey(snaps[|snaps| - 1], mode);
      if k.None? || k.value in before then before else before + [k.value]
  }

  function SectionFor(snaps: seq<Snapshot>, mode: GroupMode, collapse: bool, key: Option<string>): SnapSection {
    var own := Filter(HasKey(mode, key), snaps);
    SnapSection(if key.Some? then key.value else "", Nodes(own, collapse), |own|, key.None?)
  }

  function Keyed(snaps: seq<Snapshot>, mode: GroupMode, collapse: bool): string -> SnapSection {
    k => SectionFor(snaps, mode, collapse, Some(k))
  }

  /** One section per key, in key order, and the keyless one last. */
  function SectionsBy(fold: char -> char, snaps: seq<Snapshot>, mode: GroupMode, collapse: bool): seq<SnapSection> {
    Map(Keyed(snaps, mode, collapse), StableSort(KeyOrder(fold), KeysOf(snaps, mode)))
    + (if Filter(HasKey(mode, None), snaps) == [] then [] else [SectionFor(snaps, mode, collapse, None)])
  }

  function SectionNodes(sections: seq<SnapSection>): seq<SnapNode> {
    if sections == [] then [] else SectionNodes(sections[..|sections| - 1]) + sections[|sections| - 1].nodes
  }

  function Display(fold: char -> char, snaps: seq<Snapshot>, mode: GroupMode, collapse: bool): SnapDisplay {
    if mode == Off then SnapDisplay(Nodes(snaps, collapse), [])
    else
      var sections := SectionsBy(fold, snaps, mode, collapse);
      SnapDisplay(SectionNodes(sections), sections)
  }

  lemma {:induction false} KeysOfExact(snaps: seq<Snapshot>, mode: GroupMode)
    ensures Distinct(KeysOf(snaps, mode))
    ensures forall k :: k in KeysOf(snaps, mode) <==> exists s :: s in snaps && SectionKey(s, mode) == Some(k)
  {
    hide SectionKey;
    if snaps != [] {
      KeysOfExact(snaps[..|snaps| - 1], mode);
      assert snaps == snaps[..|snaps| - 1] + [snaps[|snaps| - 1]];
    }
  }

  lemma KeyOrderIsStrictWeak(fold: char -> char)
    ensures StrictWeakOrder(KeyOrder(fold))
    ensures forall a, b :: a != b ==> KeyOrder(fold)(a, b) || KeyOrder(fold)(b, a)
  {
    StrLessIsStrictWeak();
    hide StrLess, BrowseRows.Lower;
    forall a, b ensures KeyLess(fold, a, b) ==> !KeyLess(fold, b, a) {
      StrLessTrichotomy(BrowseRows.Lower(fold, a), BrowseRows.Lower(fold, b));
      StrLessTrichotomy(a, b);
    }
  }

  // The methods.

  method SectionKeysSorted(fold: char -> char, ghost snaps: seq<Snapshot>, ghost mode: GroupMode, keys: set<string>)
    returns (sorted: seq<string>)
    requires forall k :: k in keys <==> k in KeysOf(snaps, mode)
    ensures sorted == StableSort(KeyOrder(fold), KeysOf(snaps, mode))
  {
    hide KeyOrder, KeysOf, StableSort;
    var listed := [];
    var todo := keys;
    while todo != {}
      invariant todo <= keys && Distinct(listed)
      invariant forall k :: k in listed <==> k in keys && k !in todo
    {
      var k :| k in todo;
      todo := todo - {k};
      listed := listed + [k];
    }
    sorted := StableSort(KeyOrder(fold), listed);
    KeysOfExact(snaps, mode);
    SameMembersPermute(listed, KeysOf(snaps, mode));
    KeyOrderIsStrictWeak(fold);
    StableSortSorts(KeyOrder(fold), listed);
    StableSortSorts(KeyOrder(fold), KeysOf(snaps, mode));
    hide StrictWeakOrder;
    SortedUnique(KeyOrder(fold), sorted, StableSort(KeyOrder(fold), KeysOf(snaps, mode)));
  }

  /** The buckets: the snapshots of each key, and those without one. */
  method Buckets(snaps: seq<Snapshot>, mode: GroupMode)
    returns (byKey: map<string, seq<Snapshot>>, fallback: seq<Snapshot>)
    ensures forall k :: k in byKey <==> k in KeysOf(snaps, mode)
    ensures forall k :: k in byKey ==> byKey[k] == Filter(HasKey(mode, Some(k)), snaps)
    ensures fallback == Filter(HasKey(mode, None), snaps)
  {
    hide SectionKey, HasKey, KeysOf, Filter;
    byKey, fallback := map[], [];
    assert snaps[..0] == [];
    NoBuckets(mode);
    for i := 0 to |snaps|
      invariant forall k :: k in byKey <==> k in KeysOf(snaps[..i], mode)
      invariant forall k :: k in byKey ==> byKey[k] == Filter(HasKey(mode, Some(k)), snaps[..i])
      invariant fallback == Filter(HasKey(mode, None), snaps[..i])
    {
      var s := snaps[i];
      assert snaps[..i + 1] == snaps[..i] + [s];
      BucketsSnoc(snaps[..i], s, mode);
      var key := SectionKey(s, mode);
      if key.None? {
        fallback := fallback + [s];
      } else {
        if key.value !in byKey {
          byKey := byKey[key.value := []];
        }
        byKey := byKey[key.value := byKey[key.value] + [s]];
      }
    }
    assert snaps[..|snaps|] == snaps;
  }

  lemma NoBuckets(mode: GroupMode)
    ensures KeysOf([], mode) == [] && forall key :: Filter(HasKey(mode, key), []) == []
  {
  }

  lemma KeysSnoc(snaps: seq<Snapshot>, s: Snapshot, mode: GroupMode)
    ensures forall k :: k in KeysOf(snaps + [s], mode) <==> k in KeysOf(snaps, mode) || SectionKey(s, mode) == Some(k)
  {
    assert (snaps + [s])[..|snaps|] == snaps;
    hide SectionKey;
  }

  lemma BucketsSnoc(snaps: seq<Snapshot>, s: Snapshot, mode: GroupMode)
    ensures forall key: Option<string> :: Filter(HasKey(mode, key), snaps + [s]) ==
              if SectionKey(s, mode) == key then Filter(HasKey(mode, key), snaps) + [s]
              else Filter(HasKey(mode, key), snaps)
    ensures forall k :: k !in KeysOf(snaps, mode) ==> Filter(HasKey(mode, Some(k)), snaps) == []
    ensures forall k :: k in KeysOf(snaps + [s], mode) <==> k in KeysOf(snaps, mode) || SectionKey(s, mode) == Some(k)
  {
    KeysSnoc(snaps, s, mode);
    KeysOfExact(snaps, mode);
    hide SectionKey, Filter, KeysOf, Distinct;
    forall key: Option<string> ensures Filter(HasKey(mode, key), snaps + [s]) ==
      if SectionKey(s, mode) == key then Filter(HasKey(mode, key), snaps) + [s] else Filter(HasKey(mode, key), snaps)
    {
      FilterSnoc(HasKey(mode, key), snaps, s);
      assert Filter(HasKey(mode, key), snaps) + [] == Filter(HasKey(mode, key), snaps);
    }
    forall k | k !in KeysOf(snaps, mode) ensures Filter(HasKey(mode, Some(k)), snaps) == [] {
      FilterNone(HasKey(mode, Some(k)), snaps);
    }
  }

  method SnapNodes(snaps: seq<Snapshot>, collapse: bool) returns (nodes: seq<SnapNode>)
    ensures nodes == Nodes(snaps, collapse)
  {
    if collapse {
      nodes := CollapseTreeRuns(snaps);
      return;
    }
    nodes := [];
    for i := 0 to |snaps|
      invariant nodes == Singles(snaps[..i])
    {
      nodes := nodes + [Single(snaps[i])];
    }
    assert snaps[..|snaps|] == snaps;
  }

  method SnapSectionsBy(fold: char -> char, snaps: seq<Snapshot>, mode: GroupMode, collapse: bool)
    returns (out: seq<SnapSection>)
    ensures out == SectionsBy(fold, snaps, mode, collapse)
  {
    hide KeysOf, Filter, StableSort, Nodes, KeyOrder, SectionKey, Distinct;
    var byKey, fallback := Buckets(snaps, mode);
    var keys := SectionKeysSorted(fold, snaps, mode, byKey.Keys);
    SortedKeysPresent(fold, snaps, mode);
    out := [];
    for i := 0 to |keys|
      invariant out == Map(Keyed(snaps, mode, collapse), keys[..i])
    {
      var own := byKey[keys[i]];
      var nodes := SnapNodes(own, collapse);
      out := out + [SnapSection(keys[i], nodes, |own|, false)];
    }
    assert keys[..|keys|] == keys;
    if |fallback| > 0 {
      var nodes := SnapNodes(fallback, collapse);
      out := out + [SnapSection("", nodes, |fallback|, true)];
    }
  }

  lemma SortedKeysPresent(fold: char -> char, snaps: seq<Snapshot>, mode: GroupMode)
    ensures var keys := StableSort(KeyOrder(fold), KeysOf(snaps, mode));
            Distinct(keys) && forall k :: k in keys <==> k in KeysOf(snaps, mode)
  {
    hide KeyOrder, KeysOf, StableSort;
    var keys := StableSort(KeyOrder(fold), KeysOf(snaps, mode));
    KeyOrderIsStrictWeak(fold);
    StableSortSorts(KeyOrder(fold), KeysOf(snaps, mode));
    KeysOfExact(snaps, mode);
    PermutedDistinct(KeysOf(snaps, mode), keys);
    forall k ensures k in keys <==> k in KeysOf(snaps, mode) {
      assert k in keys <==> k in multiset(KeysOf(snaps, mode));
    }
  }

  method BuildSnapDisplay(fold: char -> char, snaps: seq<Snapshot>, mode: GroupMode, collapse: bool)
    returns (d: SnapDisplay)
    ensures d == Display(fold, snaps, mode, collapse)
  {
    hide SectionsBy;
    if mode == Off {
      var nodes := SnapNodes(snaps, collapse);
      return SnapDisplay(nodes, []);
    }
    var sections := SnapSectionsBy(fold, snaps, mode, collapse);
    var flat := [];
    for i := 0 to |sections|
      invariant flat == SectionNodes(sections[..i])
    {
      assert sections[..i + 1][..i] == sections[..i];
      flat := flat + sections[i].nodes;
    }
    assert sections[..|sections|] == sections;
    d := SnapDisplay(flat, sections);
  }

  // What the display promises.

  function Raw(nodes: seq<SnapNode>): nat {
    if nodes == [] then 0 else Raw(nodes[..|nodes| - 1]) + 1 + nodes[|nodes| - 1].count
  }

  lemma {:induction false} RunsCount(nodes: seq<SnapNode>)
    requires MaximalRuns(nodes)
    ensures forall i :: 0 <= i < |nodes| ==> nodes[i].count == |nodes[i].peers|
  {
    if nodes != [] {
      var init := nodes[..|nodes| - 1];
      RunsCount(init);
      assert forall i :: 0 <= i < |init| ==> nodes[i] == init[i];
    }
  }

  lemma {:induction false} RawCounts(nodes: seq<SnapNode>)
    requires forall i :: 0 <= i < |nodes| ==> nodes[i].count == |nodes[i].peers|
    ensures Raw(nodes) == |Flat(nodes)|
  {
    if nodes != [] {
      RawCounts(nodes[..|nodes| - 1]);
    }
  }

  predicate Uncollapsed(nodes: seq<SnapNode>) { forall i :: 0 <= i < |nodes| ==> nodes[i].peers == [] }

  lemma SinglesAlone(snaps: seq<Snapshot>)
    ensures Uncollapsed(Singles(snaps))
  {
    forall i | 0 <= i < |Singles(snaps)| ensures Singles(snaps)[i].peers == [] {
      assert Singles(snaps)[i] == Single(snaps[i]);
    }
  }

  /** A section holds exactly its key's snapshots, in list order; its badge is
      the sum over its nodes of one and the collapsed peers; and when collapsed
      its runs are maximal. */
  lemma SectionConserves(snaps: seq<Snapshot>, mode: GroupMode, collapse: bool, key: Option<string>)
    ensures var s := SectionFor(snaps, mode, collapse, key);
      && Flat(s.nodes) == Filter(HasKey(mode, key), snaps)
      && s.rawCount == Raw(s.nodes) == |Flat(s.nodes)|
      && (if collapse then MaximalRuns(s.nodes) else Uncollapsed(s.nodes))
  {
    var own := Filter(HasKey(mode, key), snaps);
    NodesConserve(own, collapse);
    RunsConserve(own);
    SinglesAlone(own);
    hide Filter, Flat, Runs, MaximalRuns, Uncollapsed;
    RunsCount(Runs(own));
    forall i | 0 <= i < |Nodes(own, collapse)|
      ensures Nodes(own, collapse)[i].count == |Nodes(own, collapse)[i].peers|
    {
      if !collapse {
        assert Nodes(own, collapse)[i] == Single(own[i]);
      }
    }
    RawCounts(Nodes(own, collapse));
  }

  function FlatSections(sections: seq<SnapSection>): seq<Snapshot> { Flat(SectionNodes(sections)) }

  lemma SectionsSnoc(sections: seq<SnapSection>, s: SnapSection)
    ensures FlatSections(sections + [s]) == FlatSections(sections) + Flat(s.nodes)
  {
    assert (sections + [s])[..|sections|] == sections;
    FlatConcat(SectionNodes(sections), s.nodes);
  }

  /** One more section adds its key's snapshots. */
  lemma KeyedSnoc(snaps: seq<Snapshot>, mode: GroupMode, collapse: bool, init: seq<string>, k: string, x: Snapshot)
    ensures multiset(FlatSections(Map(Keyed(snaps, mode, collapse), init + [k])))[x] ==
            multiset(FlatSections(Map(Keyed(snaps, mode, collapse), init)))[x]
            + if SectionKey(x, mode) == Some(k) then multiset(snaps)[x] else 0
  {
    var before, section := Map(Keyed(snaps, mode, collapse), init), SectionFor(snaps, mode, collapse, Some(k));
    SectionConserves(snaps, mode, collapse, Some(k));
    FilterCount(HasKey(mode, Some(k)), snaps, x);
    hide SectionKey, SectionFor, Flat, FlatSections, Filter, MaximalRuns, Uncollapsed;
    assert Map(Keyed(snaps, mode, collapse), init + [k]) == before + [section];
    SectionsSnoc(before, section);
  }

  /** In the sections of some keys a snapshot occurs as often as in the list, if
      its key is among them, and not at all otherwise. */
  lemma {:induction false} KeyedCount(snaps: seq<Snapshot>, mode: GroupMode, collapse: bool, keys: seq<string>,
                                      x: Snapshot)
    requires Distinct(keys)
    ensures multiset(FlatSections(Map(Keyed(snaps, mode, collapse), keys)))[x] ==
            if SectionKey(x, mode).Some? && SectionKey(x, mode).value in keys then multiset(snaps)[x] else 0
  {
    if keys == [] {
      assert FlatSections(Map(Keyed(snaps, mode, collapse), [])) == [];
    } else {
      var init, k := keys[..|keys| - 1], keys[|keys| - 1];
      LastIsNew(keys);
      hide *;
      KeyedCount(snaps, mode, collapse, init, x);
      KeyedSnoc(snaps, mode, collapse, init, k, x);
    }
  }

  lemma LastIsNew(keys: seq<string>)
    requires Distinct(keys) && keys != []
    ensures var init, k := keys[..|keys| - 1], keys[|keys| - 1];
            Distinct(init) && k !in init && keys == init + [k] && forall x :: x in keys <==> x in init || x == k
  {
    assert keys == keys[..|keys| - 1] + [keys[|keys| - 1]];
  }

  lemma SectionsCount(fold: char -> char, snaps: seq<Snapshot>, mode: GroupMode, collapse: bool, x: Snapshot)
    ensures multiset(FlatSections(SectionsBy(fold, snaps, mode, collapse)))[x] == multiset(snaps)[x]
  {
    hide SectionKey, SectionFor, KeysOf, StableSort, KeyOrder, FlatSections;
    var keys := StableSort(KeyOrder(fold), KeysOf(snaps, mode));
    SortedKeysPresent(fold, snaps, mode);
    KeyedCount(snaps, mode, collapse, keys, x);
    var keyed := Map(Keyed(snaps, mode, collapse), keys);
    FilterCount(HasKey(mode, None), snaps, x);
    if Filter(HasKey(mode, None), snaps) == [] {
      assert keyed + [] == keyed;
    } else {
      SectionsSnoc(keyed, SectionFor(snaps, mode, collapse, None));
      SectionConserves(snaps, mode, collapse, None);
    }
    hide Filter;
    KeysOfExact(snaps, mode);
    if x in snaps && SectionKey(x, mode).Some? {
      assert SectionKey(x, mode).value in keys;
    }
    if x !in snaps {
      assert multiset(snaps)[x] == 0;
    }
  }

  /** The display is a permutation of the list, and the list itself ungrouped. */
  lemma DisplayConserves(fold: char -> char, snaps: seq<Snapshot>, mode: GroupMode, collapse: bool)
    ensures multiset(Flat(Display(fold, snaps, mode, collapse).nodes)) == multiset(snaps)
    ensures mode == Off ==> Flat(Display(fold, snaps, mode, collapse).nodes) == snaps
  {
    NodesConserve(snaps, collapse);
    hide SectionsBy, Flat;
    if mode != Off {
      forall x ensures multiset(FlatSections(SectionsBy(fold, snaps, mode, collapse)))[x] == multiset(snaps)[x] {
        SectionsCount(fold, snaps, mode, collapse, x);
      }
    }
  }

  /** Ungrouped, the nodes are the list's runs or its single snapshots. */
  lemma UngroupedDisplay(fold: char -> char, snaps: seq<Snapshot>, collapse: bool)
    ensures var d := Display(fold, snaps, Off, collapse);
            d.sections == [] && if collapse then MaximalRuns(d.nodes) else Uncollapsed(d.nodes)
  {
    RunsConserve(snaps);
    SinglesAlone(snaps);
    hide Runs, MaximalRuns, Uncollapsed;
  }

  predicate InSection(section: SnapSection, s: Snapshot, mode: GroupMode) {
    SectionKey(s, mode) == if section.noKey then None else Some(section.key)
  }

  /** A keyed section comes before another when its key is less without regard to
      case, or equal so and less byte by byte; the keyless one comes last. */
  predicate SectionBefore(fold: char -> char, a: SnapSection, b: SnapSection) {
    !a.noKey
    && (b.noKey
        || var x, y := BrowseRows.Lower(fold, a.key), BrowseRows.Lower(fold, b.key);
           StrLess(x, y) || (x == y && StrLess(a.key, b.key)))
  }

  lemma SectionHolds(snaps: seq<Snapshot>, mode: GroupMode, collapse: bool, key: Option<string>)
    ensures var s := SectionFor(snaps, mode, collapse, key);
      && (s.noKey <==> key.None?) && (key.Some? ==> s.key == key.value)
      && (forall x :: x in Flat(s.nodes) <==> x in snaps && InSection(s, x, mode))
  {
    SectionConserves(snaps, mode, collapse, key);
    hide SectionKey, Flat, Nodes;
    FilterMembers(HasKey(mode, key), snaps);
  }

  /** The sections, each with the key it stands for. */
  lemma SectionAt(fold: char -> char, snaps: seq<Snapshot>, mode: GroupMode, collapse: bool, i: nat)
    requires i < |SectionsBy(fold, snaps, mode, collapse)|
    ensures var keys := StableSort(KeyOrder(fold), KeysOf(snaps, mode));
      && i <= |keys|
      && SectionsBy(fold, snaps, mode, collapse)[i]
         == SectionFor(snaps, mode, collapse, if i < |keys| then Some(keys[i]) else None)
      && |SectionsBy(fold, snaps, mode, collapse)| <= |keys| + 1
  {
    hide StableSort, KeysOf, KeyOrder, SectionFor, Filter;
  }

  /** Grouped, the sections are in order, and each holds the snapshots of the
      list that have its key. */
  lemma GroupedDisplay(fold: char -> char, snaps: seq<Snapshot>, mode: GroupMode, collapse: bool)
    requires mode != Off
    ensures var sections := Display(fold, snaps, mode, collapse).sections;
      && (forall i, x :: 0 <= i < |sections| ==>
            (x in Flat(sections[i].nodes) <==> x in snaps && InSection(sections[i], x, mode)))
      && (forall i, j :: 0 <= i < j < |sections| ==> SectionBefore(fold, sections[i], sections[j]))
  {
    var keys := StableSort(KeyOrder(fold), KeysOf(snaps, mode));
    var sections := SectionsBy(fold, snaps, mode, collapse);
    SortedKeysPresent(fold, snaps, mode);
    KeyOrderIsStrictWeak(fold);
    StableSortSorts(KeyOrder(fold), KeysOf(snaps, mode));
    hide SectionsBy, SectionFor, InSection, Flat, StableSort, KeysOf, KeyOrder, StrictWeakOrder, Sorted, Distinct,
      KeyLess, SectionNodes;
    forall i | 0 <= i < |sections|
      ensures forall x :: x in Flat(sections[i].nodes) <==> x in snaps && InSection(sections[i], x, mode)
    {
      SectionAt(fold, snaps, mode, collapse, i);
      SectionHolds(snaps, mode, collapse, if i < |keys| then Some(keys[i]) else None);
    }
    forall i, j | 0 <= i < j < |sections| ensures SectionBefore(fold, sections[i], sections[j]) {
      SectionAt(fold, snaps, mode, collapse, i);
      SectionAt(fold, snaps, mode, collapse, j);
      SectionHolds(snaps, mode, collapse, Some(keys[i]));
      SectionHolds(snaps, mode, collapse, if j < |keys| then Some(keys[j]) else None);
      if j < |keys| {
        KeysAscend(fold, keys, i, j);
        LessIsBefore(fold, sections[i], sections[j]);
      }
    }
  }

  lemma LessIsBefore(fold: char -> char, a: SnapSection, b: SnapSection)
    requires !a.noKey && KeyLess(fold, a.key, b.key)
    ensures SectionBefore(fold, a, b)
  {
    hide StrLess, BrowseRows.Lower;
  }

  lemma KeysAscend(fold: char -> char, keys: seq<string>, i: nat, j: nat)
    requires Distinct(keys) && Sorted(KeyOrder(fold), keys) && i < j < |keys|
    ensures KeyLess(fold, keys[i], keys[j])
  {
    KeyOrderIsStrictWeak(fold);
    hide KeyLess;
    assert keys[i] != keys[j] && !KeyOrder(fold)(keys[j], keys[i]);
  }

  /** Maximal runs are unique, so collapsing is the only way to get them. */
  lemma {:induction false} RunsAreUnique(snaps: seq<Snapshot>, nodes: seq<SnapNode>)
    requires Flat(nodes) == snaps && MaximalRuns(nodes)
    ensures nodes == Runs(snaps)
    decreases |snaps|
  {
    if nodes == [] {
    } else {
      var init, n := nodes[..|nodes| - 1], nodes[|nodes| - 1];
      assert nodes == init + [n];
      FlatSnoc(init, n);
      MaximalSnoc(init, n);
      hide Runs, MaximalRuns, Collapsible;
      if n.peers == [] {
        assert snaps == Flat(init) + [n.head];
        RunsAreUnique(Flat(init), init);
        LastStarts(init, n);
      } else {
        FlatSnoc(init, Shorter(n));
        ShorterStaysMaximal(init, n);
        var next := n.peers[|n.peers| - 1];
        assert n.peers == Shorter(n).peers + [next];
        assert snaps == Flat(init + [Shorter(n)]) + [next];
        RunsAreUnique(Flat(init + [Shorter(n)]), init + [Shorter(n)]);
        LastGrows(Flat(init + [Shorter(n)]), init, Shorter(n), next);
      }
    }
  }

  lemma LastStarts(init: seq<SnapNode>, n: SnapNode)
    requires n.peers == [] && MaximalRuns(init + [n]) && Runs(Flat(init)) == init
    ensures Runs(Flat(init) + [n.head]) == init + [n]
  {
    RunsSnoc(Flat(init), n.head);
    MaximalSnoc(init, n);
    hide Collapsible, Flat, Runs, MaximalRuns;
  }

  lemma LastGrows(flat: seq<Snapshot>, init: seq<SnapNode>, short: SnapNode, next: Snapshot)
    requires Collapsible(short.head, next) && Runs(flat) == init + [short]
    ensures Runs(flat + [next]) == init + [SnapNode(short.head, short.count + 1, short.peers + [next])]
  {
    RunsSnoc(flat, next);
    RunStepLast(init, short, next);
    hide Collapsible, Runs, RunStep;
  }

  function Shorter(n: SnapNode): SnapNode
    requires n.peers != []
  {
    SnapNode(n.head, |n.peers| - 1, n.peers[..|n.peers| - 1])
  }

  lemma ShorterStaysMaximal(init: seq<SnapNode>, n: SnapNode)
    requires n.peers != [] && MaximalRuns(init + [n])
    ensures MaximalRuns(init + [Shorter(n)])
  {
    MaximalSnoc(init, n);
    MaximalSnoc(init, Shorter(n));
    hide MaximalRuns, Collapsible;
  }

  // Marks and the cursor.

  predicate Contains(n: SnapNode, id: string) { exists s :: s in Members(n) && s.id == id }

  /** The head that stands for a snapshot on display. */
  function HeadOf(nodes: seq<SnapNode>, id: string): Option<Snapshot> {
    if nodes == [] then None
    else if Contains(nodes[|nodes| - 1], id) then Some(nodes[|nodes| - 1].head)
    else HeadOf(nodes[..|nodes| - 1], id)
  }

  predicate HasId(ms: seq<Snapshot>, id: string) { exists m :: m in ms && m.id == id }

  function Normalized(marks: seq<Snapshot>, nodes: seq<SnapNode>): seq<Snapshot> {
    if marks == [] then []
    else
      var before, h := Normalized(marks[..|marks| - 1], nodes), HeadOf(nodes, marks[|marks| - 1].id);
      if h.None? || HasId(before, h.value.id) then before else before + [h.value]
  }

  method HeadsById(nodes: seq<SnapNode>) returns (headById: map<string, Snapshot>)
    ensures forall id :: id in headById <==> HeadOf(nodes, id).Some?
    ensures forall id :: id in headById ==> HeadOf(nodes, id) == Some(headById[id])
  {
    headById := map[];
    for i := 0 to |nodes|
      invariant forall id :: id in headById <==> HeadOf(nodes[..i], id).Some?
      invariant forall id :: id in headById ==> HeadOf(nodes[..i], id) == Some(headById[id])
    {
      assert nodes[..i + 1][..i] == nodes[..i];
      headById := WithNode(headById, nodes[i]);
    }
    assert nodes[..|nodes|] == nodes;
  }

  /** Entries for the head and each peer of one node. */
  method WithNode(headById: map<string, Snapshot>, n: SnapNode) returns (r: map<string, Snapshot>)
    ensures forall id :: id in r <==> id in headById || Contains(n, id)
    ensures forall id :: id in r ==> r[id] == if Contains(n, id) then n.head else headById[id]
  {
    r := headById[n.head.id := n.head];
    ghost var done := [n.head];
    for i := 0 to |n.peers|
      invariant done == [n.head] + n.peers[..i]
      invariant forall id :: id in r <==> id in headById || HasId(done, id)
      invariant forall id :: id in r ==> r[id] == if HasId(done, id) then n.head else headById[id]
    {
      var p := n.peers[i];
      assert forall id :: HasId(done + [p], id) <==> HasId(done, id) || p.id == id by {
        assert forall m :: m in done + [p] <==> m in done || m == p;
      }
      r := r[p.id := n.head];
      done := done + [p];
    }
    assert n.peers[..|n.peers|] == n.peers;
  }

  method NormalizedDetailMarks(marks: seq<Snapshot>, d: SnapDisplay) returns (out: seq<Snapshot>)
    ensures out == Normalized(marks, d.nodes)
  {
    hide HeadOf;
    var headById := HeadsById(d.nodes);
    out := [];
    var seen: set<string> := {};
    for i := 0 to |marks|
      invariant out == Normalized(marks[..i], d.nodes)
      invariant forall id :: id in seen <==> HasId(out, id)
    {
      assert marks[..i + 1][..i] == marks[..i];
      if marks[i].id in headById {
        var mapped := headById[marks[i].id];
        if mapped.id !in seen {
          seen := seen + {mapped.id};
          assert forall m :: m in out + [mapped] <==> m in out || m == mapped;
          out := out + [mapped];
        }
      }
    }
    assert marks[..|marks|] == marks;
  }

  ghost predicate UniqueIds(snaps: seq<Snapshot>) {
    forall i, j :: 0 <= i < j < |snaps| ==> snaps[i].id != snaps[j].id
  }

  lemma {:induction false} FlatMembers(nodes: seq<SnapNode>, s: Snapshot)
    ensures s in Flat(nodes) <==> exists i :: 0 <= i < |nodes| && s in Members(nodes[i])
  {
    if nodes != [] {
      var init := nodes[..|nodes| - 1];
      FlatMembers(init, s);
      if i :| 0 <= i < |nodes| && s in Members(nodes[i]) {
        assert i < |init| ==> init[i] == nodes[i];
      }
      if i :| 0 <= i < |init| && s in Members(init[i]) {
        assert nodes[i] == init[i];
      }
    }
  }

  /** Heads stand for themselves when no snapshot is on display twice. */
  lemma {:induction false} HeadOfHead(nodes: seq<SnapNode>, i: nat)
    requires i < |nodes| && UniqueIds(Flat(nodes))
    ensures HeadOf(nodes, nodes[i].head.id) == Some(nodes[i].head)
  {
    var init, last := nodes[..|nodes| - 1], nodes[|nodes| - 1];
    if i == |init| {
      assert last.head in Members(last);
    } else {
      FlatMembers(init, nodes[i].head);
      assert init[i] == nodes[i] && nodes[i].head in Members(init[i]);
      Disjoint(Flat(init), Members(last), nodes[i].head);
      HeadOfHead(init, i);
    }
  }

  lemma Disjoint(a: seq<Snapshot>, b: seq<Snapshot>, s: Snapshot)
    requires UniqueIds(a + b) && s in a
    ensures forall t :: t in b ==> t.id != s.id
    ensures UniqueIds(a)
  {
    var i :| 0 <= i < |a| && a[i] == s;
    assert (a + b)[i] == s;
    forall t | t in b ensures t.id != s.id {
      var j :| 0 <= j < |b| && b[j] == t;
      assert (a + b)[|a| + j] == t;
    }
    forall x, y | 0 <= x < y < |a| ensures a[x].id != a[y].id {
      assert (a + b)[x] == a[x] && (a + b)[y] == a[y];
    }
  }

  lemma {:induction false} HeadOfIsHead(nodes: seq<SnapNode>, id: string)
    requires HeadOf(nodes, id).Some?
    ensures exists i :: 0 <= i < |nodes| && nodes[i].head == HeadOf(nodes, id).value && Contains(nodes[i], id)
  {
    if !Contains(nodes[|nodes| - 1], id) {
      var init := nodes[..|nodes| - 1];
      HeadOfIsHead(init, id);
      var i :| 0 <= i < |init| && init[i].head == HeadOf(init, id).value && Contains(init[i], id);
      assert nodes[i] == init[i];
    }
  }

  predicate IsHead(nodes: seq<SnapNode>, r: Snapshot) {
    exists i :: 0 <= i < |nodes| && nodes[i].head == r
  }

  /** Marks become distinct heads, and every mark on display is kept as one. */
  lemma {:induction false} MarksAreHeads(marks: seq<Snapshot>, nodes: seq<SnapNode>)
    ensures var out := Normalized(marks, nodes);
      && UniqueIds(out) && |out| <= |marks|
      && (forall r :: r in out ==> IsHead(nodes, r))
      && (forall m :: m in marks && HeadOf(nodes, m.id).Some? ==> HasId(out, HeadOf(nodes, m.id).value.id))
  {
    hide HeadOf;
    if marks != [] {
      var init, last := marks[..|marks| - 1], marks[|marks| - 1];
      MarksAreHeads(init, nodes);
      assert marks == init + [last];
      var before, h := Normalized(init, nodes), HeadOf(nodes, last.id);
      if h.Some? {
        HeadOfIsHead(nodes, last.id);
        assert forall m :: m in before + [h.value] <==> m in before || m == h.value;
      }
    }
  }

  /** A prefix of distinct heads normalizes to itself. */
  lemma {:induction false} HeadsAreNormal(marks: seq<Snapshot>, nodes: seq<SnapNode>)
    requires UniqueIds(Flat(nodes)) && UniqueIds(marks)
    requires forall r :: r in marks ==> IsHead(nodes, r)
    ensures Normalized(marks, nodes) == marks
  {
    hide HeadOf, Flat;
    if marks != [] {
      var init, last := marks[..|marks| - 1], marks[|marks| - 1];
      assert marks == init + [last];
      HeadsAreNormal(init, nodes);
      assert last in marks && IsHead(nodes, last);
      var i :| 0 <= i < |nodes| && nodes[i].head == last;
      HeadOfHead(nodes, i);
      forall m | m in init ensures m.id != last.id {
        var j :| 0 <= j < |init| && init[j] == m;
        assert marks[j] == m;
      }
    }
  }

  /** Normalizing marks twice is normalizing them once. */
  lemma NormalizingIsIdempotent(marks: seq<Snapshot>, nodes: seq<SnapNode>)
    requires UniqueIds(Flat(nodes))
    ensures Normalized(Normalized(marks, nodes), nodes) == Normalized(marks, nodes)
  {
    hide Flat, Normalized;
    MarksAreHeads(marks, nodes);
    HeadsAreNormal(Normalized(marks, nodes), nodes);
  }

  // The cursor.

  function ClampCursor(i: int, total: nat): (r: nat)
    ensures 0 <= i < total ==> r == i
    ensures i >= total > 0 ==> r == total - 1
    ensures i < 0 || total == 0 ==> r == 0
  {
    var j := if i >= total then total - 1 else i;
    if j < 0 then 0 else j
  }

  method IndexOfSnap(nodes: seq<SnapNode>, id: string) returns (r: nat)
    ensures id != "" && (exists i :: 0 <= i < |nodes| && Contains(nodes[i], id)) ==>
              r < |nodes| && Contains(nodes[r], id)
    ensures id == "" || (forall i :: 0 <= i < |nodes| ==> !Contains(nodes[i], id)) ==> r == 0
    ensures nodes == [] || r < |nodes|
  {
    if id == "" {
      return 0;
    }
    for i := 0 to |nodes|
      invariant forall j :: 0 <= j < i ==> !Contains(nodes[j], id)
    {
      if Contains(nodes[i], id) {
        return i;
      }
    }
    r := 0;
  }

  /** A snapshot on one display is on every other of the same list. */
  lemma StaysOnDisplay(fold: char -> char, snaps: seq<Snapshot>, mode: GroupMode, collapse: bool,
                       mode': GroupMode, collapse': bool, at: nat)
    requires at < |Display(fold, snaps, mode, collapse).nodes|
    ensures var id, nodes := Display(fold, snaps, mode, collapse).nodes[at].head.id,
              Display(fold, snaps, mode', collapse').nodes;
            exists i :: 0 <= i < |nodes| && Contains(nodes[i], id)
  {
    var nodes, nodes' := Display(fold, snaps, mode, collapse).nodes, Display(fold, snaps, mode', collapse').nodes;
    DisplayConserves(fold, snaps, mode, collapse);
    DisplayConserves(fold, snaps, mode', collapse');
    hide Display, Flat;
    var s := nodes[at].head;
    FlatMembers(nodes, s);
    assert s in Members(nodes[at]) && s in Flat(nodes);
    assert s in multiset(Flat(nodes)) && s in multiset(Flat(nodes'));
    FlatMembers(nodes', s);
    var i :| 0 <= i < |nodes'| && s in Members(nodes'[i]);
    assert Contains(nodes'[i], s.id);
  }

  /** The detail view's fields that grouping and collapsing assign. */
  class SnapView {
    const fold: char -> char
    const snaps: seq<Snapshot>
    var mode: GroupMode
    var collapse: bool
    var cursor: nat
    var marks: seq<Snapshot>

    constructor (fold: char -> char, snaps: seq<Snapshot>)
      ensures this.fold == fold && this.snaps == snaps
      ensures mode == Off && !collapse && cursor == 0 && marks == []
    {
      this.fold, this.snaps := fold, snaps;
      mode, collapse, cursor, marks := Off, false, 0, [];
    }

    ghost function Shown(): seq<SnapNode>
      reads this
    {
      Display(fold, snaps, mode, collapse).nodes
    }

    /** The id of the selected head, or empty on an empty display. */
    ghost function Anchor(): string
      reads this
    {
      if Shown() == [] then "" else Shown()[ClampCursor(cursor, |Shown()|)].head.id
    }

    method AnchorId() returns (id: string)
      ensures id == Anchor()
    {
      var d := BuildSnapDisplay(fold, snaps, mode, collapse);
      id := if |d.nodes| == 0 then "" else d.nodes[ClampCursor(cursor, |d.nodes|)].head.id;
    }

    /** Marks normalized and the cursor put back on the node that now holds the
        anchor. */
    method Reanchor(anchorId: string)
      modifies this`marks, this`cursor
      ensures marks == Normalized(old(marks), Shown())
      ensures Shown() != [] ==> cursor < |Shown()|
      ensures anchorId != "" && (exists i :: 0 <= i < |Shown()| && Contains(Shown()[i], anchorId)) ==>
                Contains(Shown()[cursor], anchorId)
    {
      hide Display;
      var d := BuildSnapDisplay(fold, snaps, mode, collapse);
      if |marks| != 0 {
        marks := NormalizedDetailMarks(marks, d);
      }
      var at := IndexOfSnap(d.nodes, anchorId);
      cursor := ClampCursor(at, |d.nodes|);
    }

    method CycleSnapGroup()
      modifies this
      ensures collapse == old(collapse)
      ensures mode == match old(mode) case Off => Host case Host => Tags case Tags => Paths case Paths => Off
      ensures marks == Normalized(old(marks), Shown())
      ensures old(Shown()) != [] && old(Anchor()) != "" ==>
                cursor < |Shown()| && Contains(Shown()[cursor], old(Anchor()))
    {
      hide Display;
      var anchorId := AnchorId();
      ghost var mode0, collapse0, at := mode, collapse, ClampCursor(cursor, |Shown()|);
      mode := NextMode(mode);
      if Display(fold, snaps, mode0, collapse0).nodes != [] {
        StaysOnDisplay(fold, snaps, mode0, collapse0, mode, collapse, at);
      }
      Reanchor(anchorId);
    }

    method CycleSnapCollapse()
      modifies this
      ensures collapse == !old(collapse) && mode == old(mode)
      ensures marks == Normalized(old(marks), Shown())
      ensures old(Shown()) != [] && old(Anchor()) != "" ==>
                cursor < |Shown()| && Contains(Shown()[cursor], old(Anchor()))
    {
      hide Display;
      var anchorId := AnchorId();
      ghost var mode0, collapse0, at := mode, collapse, ClampCursor(cursor, |Shown()|);
      collapse := !collapse;
      if Display(fold, snaps, mode0, collapse0).nodes != [] {
        StaysOnDisplay(fold, snaps, mode0, collapse0, mode, collapse, at);
      }
      Reanchor(anchorId);
    }
  }
}
