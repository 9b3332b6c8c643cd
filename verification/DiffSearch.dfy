/** The diff search's own merge of duplicate records
    (internal/tui/snapshotdiffsearch.go), and its agreement with the tree. */
module DiffSearch {
  import B = BrowseRows
  import opened DiffModel
  import opened DiffTree
  import opened Fuzzy
  import opened Paths
  import opened Sorting
  import opened Wrappers

  datatype Merge = Merge(kinds: set<Kind>, modifier: string, isDir: bool, dup: bool)

  /** The merge that the records of p make. */
  function MergeAt(es: seq<DiffEntry>, p: Path): Merge {
    var rs := Records(es, p);
    Merge(KindsAt(es, p), if rs == [] then "" else rs[0].modifier, SomeDir(es, p), |rs| > 1)
  }

  function SearchRow(p: Path, m: Merge): DiffRow {
    DiffRow(Render(p), p, PrimaryChangeType(m.kinds), m.kinds, if m.dup then ModifierString(m.kinds) else m.modifier,
            m.isDir, NO_STATS)
  }

  function RankOf(fold: char -> char, p: Path, m: Merge, query: string): FuzzyRank {
    var score := ScoreMatch(fold, Render(p), query);
    FuzzyRank(B.Entry(Render(p), Render(p), "", m.isDir, 0, B.ModTime.Unknown, B.Attrs("", 0, 0, false, "")),
              if score.Some? then score.value.score else 0)
  }

  /** A search row shows the kinds, type and marker of the tree's row for the
      path, and the same directory flag exactly when the last record of a path
      that has a directory record is one. */
  lemma SameAsTreeRow(es: seq<DiffEntry>, p: Path)
    requires Mentions(es, p)
    ensures Records(es, p) != []
    ensures var s, t, last := SearchRow(p, MergeAt(es, p)), RowOf(es, p), Records(es, p)[|Records(es, p)| - 1];
      && s.path == t.path && s.kinds == t.kinds && s.typ == t.typ && s.modifier == t.modifier
      && (s.isDir == t.isDir <==> (SomeDir(es, p) ==> last.isDir))
  {
    RecordsMembers(es, p);
    var rs := Records(es, p);
    assert rs[|rs| - 1] in rs;
  }

  method MergeRecords(es: seq<DiffEntry>) returns (byPath: map<Path, Merge>, order: seq<Path>)
    ensures byPath.Keys == PathsOf(es)
    ensures forall p :: p in byPath ==> byPath[p] == MergeAt(es, p)
    ensures Distinct(order) && forall p :: p in order <==> p in byPath
  {
    hide MergeAt, Mentions;
    byPath, order := map[], [];
    NothingMerged();
    for i := 0 to |es|
      invariant forall p :: p in byPath <==> Mentions(es[..i], p)
      invariant forall p :: p in byPath ==> byPath[p] == MergeAt(es[..i], p)
      invariant Distinct(order) && forall p :: p in order <==> p in byPath
    {
      var e := es[i];
      assert es[..i + 1] == es[..i] + [e];
      MergesSnoc(es[..i], e);
      if e.path in byPath {
        byPath := byPath[e.path := Again(byPath[e.path], e)];
      } else {
        byPath := byPath[e.path := Merge(e.kinds, e.modifier, e.isDir, false)];
        order := order + [e.path];
      }
    }
    assert es[..|es|] == es;
    forall p ensures p in PathsOf(es) <==> Mentions(es, p) {
      PathsAreMentioned(es, p);
    }
  }

  /** A further record of a path already seen. */
  function Again(m: Merge, e: DiffEntry): Merge {
    Merge(m.kinds + e.kinds, m.modifier, m.isDir || e.isDir, true)
  }

  lemma NothingMerged()
    ensures forall p :: !Mentions([], p)
  {
  }

  lemma MergesSnoc(es: seq<DiffEntry>, e: DiffEntry)
    ensures forall p :: Mentions(es + [e], p) <==> Mentions(es, p) || p == e.path
    ensures forall p :: Mentions(es + [e], p) ==>
              MergeAt(es + [e], p) ==
              if p != e.path then MergeAt(es, p)
              else if Mentions(es, p) then Again(MergeAt(es, p), e)
              else Merge(e.kinds, e.modifier, e.isDir, false)
  {
    hide MergeAt, Mentions, Again;
    forall p ensures Mentions(es + [e], p) <==> Mentions(es, p) || p == e.path {
      MentionsSnoc(es, e, p);
    }
    forall p | Mentions(es + [e], p)
      ensures MergeAt(es + [e], p) ==
              if p != e.path then MergeAt(es, p)
              else if Mentions(es, p) then Again(MergeAt(es, p), e)
              else Merge(e.kinds, e.modifier, e.isDir, false)
    {
      MergeSnoc(es, e, p);
    }
  }

  lemma MergeSnoc(es: seq<DiffEntry>, e: DiffEntry, p: Path)
    requires Mentions(es, p) || p == e.path
    ensures Mentions(es + [e], p)
    ensures MergeAt(es + [e], p) ==
            if p != e.path then MergeAt(es, p)
            else if Mentions(es, p) then Again(MergeAt(es, p), e)
            else Merge(e.kinds, e.modifier, e.isDir, false)
  {
    hide SomeDir, KindsAt;
    RecordsSnoc(es, e, p);
    KindsSnoc(es, e, p);
    MentionsSnoc(es, e, p);
    RecordsMembers(es, p);
    RecordsMembers(es + [e], p);
    if !Mentions(es, p) {
      NoKindsUnmentioned(es, p);
      assert KindsAt(es, p) + e.kinds == e.kinds;
      NoDirUnmentioned(es, p);
    }
  }

  lemma NoDirUnmentioned(es: seq<DiffEntry>, p: Path)
    requires !Mentions(es, p)
    ensures !SomeDir(es, p)
  {
  }

  /** The paths the search finds. */
  ghost predicate Hit(fold: char -> char, es: seq<DiffEntry>, query: string, filter: set<Kind>, p: Path) {
    Mentions(es, p) && KindsAt(es, p) * filter != {} && ScoreMatch(fold, Render(p), query).Some?
  }

  function Ranker(fold: char -> char, es: seq<DiffEntry>, query: string): Path -> FuzzyRank {
    p => RankOf(fold, p, MergeAt(es, p), query)
  }

  function Outranks(fold: char -> char, es: seq<DiffEntry>, query: string): (Path, Path) -> bool {
    (p, q) => BetterFuzzy(RankOf(fold, p, MergeAt(es, p), query), RankOf(fold, q, MergeAt(es, q), query))
  }

  /** The best `limit` hits (all of them when limit is 0), best first. */
  ghost predicate TopHits(fold: char -> char, es: seq<DiffEntry>, query: string, filter: set<Kind>, limit: nat,
                          rows: seq<DiffRow>, total: nat) {
    && total == |set p | p in PathsOf(es) && Hit(fold, es, query, filter, p)|
    && |rows| == (if 0 < limit < total then limit else total)
    && (forall i :: 0 <= i < |rows| ==>
          Hit(fold, es, query, filter, rows[i].path) && rows[i] == SearchRow(rows[i].path, MergeAt(es, rows[i].path)))
    && (forall i, j :: 0 <= i < j < |rows| ==>
          rows[i].path != rows[j].path && NoWorseHit(fold, query, rows[i].path, rows[j].path))
    && (forall i, p :: 0 <= i < |rows| && Hit(fold, es, query, filter, p) && (forall r :: r in rows ==> r.path != p) ==>
          NoWorseHit(fold, query, rows[i].path, p))
  }

  /** Both path strings match, and p's match is worth at least q's; with equal
      worth it is no longer, and with equal length it is not greater. */
  ghost predicate NoWorseHit(fold: char -> char, query: string, p: Path, q: Path) {
    var s, t := ScoreMatch(fold, Render(p), query), ScoreMatch(fold, Render(q), query);
    && s.Some? && t.Some? && s.value.score >= t.value.score
    && (s.value.score == t.value.score ==> |Render(p)| <= |Render(q)|)
    && (s.value.score == t.value.score && |Render(p)| == |Render(q)| ==> !StrLess(Render(q), Render(p)))
  }

  lemma NotOutranked(fold: char -> char, es: seq<DiffEntry>, query: string, filter: set<Kind>, p: Path, q: Path)
    requires Hit(fold, es, query, filter, p) && Hit(fold, es, query, filter, q) && !Outranks(fold, es, query)(q, p)
    ensures NoWorseHit(fold, query, p, q)
  {
    hide ScoreMatch, StrLess, Render, MergeAt;
  }

  /** `ranks` are the ranks of `hits`, and rowsByPath holds their rows. */
  ghost predicate Scanned(fold: char -> char, es: seq<DiffEntry>, query: string, hits: seq<Path>,
                          ranks: seq<FuzzyRank>, rowsByPath: map<string, DiffRow>) {
    && Distinct(hits) && ranks == Map(Ranker(fold, es, query), hits)
    && (forall p :: p in hits ==>
          Render(p) in rowsByPath && rowsByPath[Render(p)] == SearchRow(p, MergeAt(es, p)))
  }

  lemma ScannedGrows(fold: char -> char, es: seq<DiffEntry>, query: string, hits: seq<Path>,
                     ranks: seq<FuzzyRank>, rowsByPath: map<string, DiffRow>, p: Path)
    requires Scanned(fold, es, query, hits, ranks, rowsByPath) && p !in hits
    ensures Scanned(fold, es, query, hits + [p], ranks + [RankOf(fold, p, MergeAt(es, p), query)],
                    rowsByPath[Render(p) := SearchRow(p, MergeAt(es, p))])
  {
    hide RankOf, MergeAt, SearchRow;
    forall q | q in hits ensures Render(q) != Render(p) {
      RenderInjective(q, p);
    }
    assert Map(Ranker(fold, es, query), hits + [p])
        == Map(Ranker(fold, es, query), hits) + [RankOf(fold, p, MergeAt(es, p), query)];
  }

  method ScanHits(fold: char -> char, es: seq<DiffEntry>, query: string, filter: set<Kind>)
    returns (ranks: seq<FuzzyRank>, rowsByPath: map<string, DiffRow>, ghost hits: seq<Path>)
    ensures Scanned(fold, es, query, hits, ranks, rowsByPath)
    ensures forall p :: p in hits <==> Hit(fold, es, query, filter, p)
  {
    hide KindsAt, MergeAt, SearchRow, RankOf, Scanned;
    var byPath, order := MergeRecords(es);
    ranks, rowsByPath, hits := [], map[], [];
    NothingScanned(fold, es, query);
    for i := 0 to |order|
      invariant Scanned(fold, es, query, hits, ranks, rowsByPath)
      invariant forall p :: p in hits <==> p in order[..i] && Hit(fold, es, query, filter, p)
    {
      var p := order[i];
      assert p in order && order[..i + 1] == order[..i] + [p] && p !in order[..i];
      MergedKinds(es, p);
      var m := byPath[p];
      if m.kinds * filter != {} {
        var score := FuzzyScore(fold, Render(p), query);
        if score.Some? {
          ScannedGrows(fold, es, query, hits, ranks, rowsByPath, p);
          rowsByPath := rowsByPath[Render(p) := SearchRow(p, m)];
          ranks := ranks + [RankOf(fold, p, m, query)];
          hits := hits + [p];
        }
      }
    }
    assert order[..|order|] == order;
    forall p | Hit(fold, es, query, filter, p) ensures p in order {
      PathsAreMentioned(es, p);
    }
  }

  lemma MergedKinds(es: seq<DiffEntry>, p: Path)
    requires Mentions(es, p)
    ensures MergeAt(es, p).kinds == KindsAt(es, p)
  {
  }

  method RankDiffSearchRows(fold: char -> char, space: char -> bool, es: seq<DiffEntry>, query: string,
                            filter: set<Kind>, limit: nat) returns (rows: seq<DiffRow>, total: nat)
    ensures Blank(space, query) ==> rows == [] && total == 0
    ensures !Blank(space, query) ==> TopHits(fold, es, query, filter, limit, rows, total)
  {
    hide TopHits;
    if Blank(space, query) {
      return [], 0;
    }
    rows, total := RankHits(fold, es, query, filter, limit);
  }

  method RankHits(fold: char -> char, es: seq<DiffEntry>, query: string, filter: set<Kind>, limit: nat)
    returns (rows: seq<DiffRow>, total: nat)
    ensures TopHits(fold, es, query, filter, limit, rows, total)
  {
    hide Hit, BetterFuzzy, TopHits, NoWorseHit, Scanned, Ranker, Outranks, StableSort, SearchRow, MergeAt;
    var ranks, rowsByPath;
    ghost var hits;
    ranks, rowsByPath, hits := ScanHits(fold, es, query, filter);
    SortedHits(fold, es, query, hits, ranks, rowsByPath);
    var best := StableSort(BetterFuzzy, ranks);
    total := |best|;
    if limit > 0 && |best| > limit {
      best := best[..limit];
    }
    rows := RowsOf(best, rowsByPath);
    TopOfSorted(fold, es, query, filter, limit, hits, rows);
  }

  method RowsOf(best: seq<FuzzyRank>, rowsByPath: map<string, DiffRow>) returns (rows: seq<DiffRow>)
    requires forall i :: 0 <= i < |best| ==> best[i].entry.path in rowsByPath
    ensures |rows| == |best| && forall i :: 0 <= i < |best| ==> rows[i] == rowsByPath[best[i].entry.path]
  {
    rows := [];
    for i := 0 to |best|
      invariant |rows| == i && forall j :: 0 <= j < i ==> rows[j] == rowsByPath[best[j].entry.path]
    {
      rows := rows + [rowsByPath[best[i].entry.path]];
    }
  }

  lemma NothingScanned(fold: char -> char, es: seq<DiffEntry>, query: string)
    ensures Scanned(fold, es, query, [], [], map[])
  {
  }

  /** The sorted ranks are the ranks of the sorted hits. */
  lemma SortedHits(fold: char -> char, es: seq<DiffEntry>, query: string, hits: seq<Path>,
                   ranks: seq<FuzzyRank>, rowsByPath: map<string, DiffRow>)
    requires Scanned(fold, es, query, hits, ranks, rowsByPath)
    ensures Distinct(hits)
    ensures var best, sorted := StableSort(BetterFuzzy, ranks), StableSort(Outranks(fold, es, query), hits);
      && |best| == |sorted| == |hits|
      && forall i :: 0 <= i < |best| ==>
           && best[i].entry.path in rowsByPath
           && rowsByPath[best[i].entry.path] == SearchRow(sorted[i], MergeAt(es, sorted[i]))
  {
    hide StableSort, MergeAt, SearchRow;
    var lt := Outranks(fold, es, query);
    SortMapped(Ranker(fold, es, query), BetterFuzzy, lt, hits);
    OutranksIsStrictWeak(fold, es, query);
    StableSortSorts(lt, hits);
    var sorted := StableSort(lt, hits);
    forall i | 0 <= i < |sorted| ensures sorted[i] in hits {
      assert sorted[i] in multiset(hits);
    }
  }

  lemma OutranksIsStrictWeak(fold: char -> char, es: seq<DiffEntry>, query: string)
    ensures StrictWeakOrder(Outranks(fold, es, query))
  {
    BetterFuzzyIsStrictWeak();
    hide BetterFuzzy, RankOf, MergeAt;
  }

  lemma SearchRowPath(p: Path, m: Merge)
    ensures SearchRow(p, m).path == p
  {
  }

  lemma TopOfSorted(fold: char -> char, es: seq<DiffEntry>, query: string, filter: set<Kind>, limit: nat,
                    hits: seq<Path>, rows: seq<DiffRow>)
    requires Distinct(hits) && forall p :: p in hits <==> Hit(fold, es, query, filter, p)
    requires |rows| == if 0 < limit < |hits| then limit else |hits|
    requires var sorted := StableSort(Outranks(fold, es, query), hits); |sorted| == |hits|
    requires var sorted := StableSort(Outranks(fold, es, query), hits);
             forall i :: 0 <= i < |rows| ==> rows[i] == SearchRow(sorted[i], MergeAt(es, sorted[i]))
    ensures TopHits(fold, es, query, filter, limit, rows, |hits|)
  {
    hide MergeAt, StableSort, Outranks, Hit, SearchRow, NoWorseHit;
    var lt := Outranks(fold, es, query);
    var sorted := StableSort(lt, hits);
    OutranksIsStrictWeak(fold, es, query);
    StableSortSorts(lt, hits);
    PermutedDistinct(hits, sorted);
    hide StrictWeakOrder;
    forall p ensures p in sorted <==> p in hits {
      assert p in sorted <==> p in multiset(hits);
    }
    CountHits(fold, es, query, filter, hits);
    forall i | 0 <= i < |rows| ensures rows[i].path == sorted[i] && Hit(fold, es, query, filter, sorted[i]) {
      SearchRowPath(sorted[i], MergeAt(es, sorted[i]));
      assert sorted[i] in sorted;
    }
    forall i, p | 0 <= i < |rows| && Hit(fold, es, query, filter, p) && (forall r :: r in rows ==> r.path != p)
      ensures NoWorseHit(fold, query, rows[i].path, p)
    {
      UnlistedIsLater(sorted, rows, p);
      assert !lt(p, rows[i].path);
      NotOutranked(fold, es, query, filter, rows[i].path, p);
    }
    forall i, j | 0 <= i < j < |rows| ensures NoWorseHit(fold, query, rows[i].path, rows[j].path) {
      assert !lt(sorted[j], sorted[i]);
      NotOutranked(fold, es, query, filter, rows[i].path, rows[j].path);
    }
  }

  lemma UnlistedIsLater(sorted: seq<Path>, rows: seq<DiffRow>, p: Path)
    requires p in sorted && |rows| <= |sorted| && forall i :: 0 <= i < |rows| ==> rows[i].path == sorted[i]
    requires forall r :: r in rows ==> r.path != p
    ensures exists m :: |rows| <= m < |sorted| && sorted[m] == p
  {
    var m :| 0 <= m < |sorted| && sorted[m] == p;
    forall j | 0 <= j < |rows| ensures sorted[j] != p {
      assert rows[j] in rows;
    }
  }

  lemma CountHits(fold: char -> char, es: seq<DiffEntry>, query: string, filter: set<Kind>, hits: seq<Path>)
    requires Distinct(hits) && forall p :: p in hits <==> Hit(fold, es, query, filter, p)
    ensures |hits| == |set p | p in PathsOf(es) && Hit(fold, es, query, filter, p)|
  {
    DistinctSize(hits);
    forall p | Hit(fold, es, query, filter, p) ensures p in PathsOf(es) {
      PathsAreMentioned(es, p);
    }
    hide Hit;
    assert (set p | p in hits) == set p | p in PathsOf(es) && Hit(fold, es, query, filter, p);
  }
}
