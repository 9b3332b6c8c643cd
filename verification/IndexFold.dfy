/** What an index transaction's directory state must satisfy, and why one
    backward pass over the directories turns per-directory byte counts into
    recursive ones (internal/browsedb/index.go, foldSubtreeSizes). */
module IndexFold {
  import opened Sorting
  import opened Paths
  import opened BrowseRows

  datatype DirBufRow = DirBufRow(did: nat, parentDid: nat, path: Path, subtreeSize: nat)

  /** Interned directories: contiguous IDs from first, in the order the paths
      were met, every parent before its children, the root's parent ID zero. */
  ghost predicate Interned(first: nat, order: seq<Path>, dirs: map<Path, nat>, dirBuf: seq<DirBufRow>) {
    && first > 0 && |dirBuf| == |order|
    && (forall p :: p in dirs ==> p in order)
    && (forall i {:trigger InternedAt(first, order[i], dirs, dirBuf[i], i)} ::
          0 <= i < |order| ==> InternedAt(first, order[i], dirs, dirBuf[i], i))
  }

  lemma InternedEmpty(first: nat)
    requires first > 0
    ensures Interned(first, [], map[], [])
  {
  }

  ghost predicate InternedAt(first: nat, p: Path, dirs: map<Path, nat>, r: DirBufRow, i: nat) {
    && p in dirs && dirs[p] == first + i
    && r.did == first + i && r.path == p
    && ParentKnown(first, dirs, r)
  }

  lemma InternedDistinct(first: nat, order: seq<Path>, dirs: map<Path, nat>, dirBuf: seq<DirBufRow>)
    requires Interned(first, order, dirs, dirBuf)
    ensures Distinct(order)
    ensures forall p :: p in order <==> p in dirs
  {
    forall i, j | 0 <= i < j < |order| ensures order[i] != order[j] {
      assert InternedAt(first, order[i], dirs, dirBuf[i], i) && InternedAt(first, order[j], dirs, dirBuf[j], j);
    }
    forall p | p in order ensures p in dirs {
      assert InternedAt(first, p, dirs, dirBuf[IndexIn(order, p)], IndexIn(order, p));
    }
  }

  ghost predicate ParentKnown(first: nat, dirs: map<Path, nat>, r: DirBufRow) {
    if r.path == [] then r.parentDid == 0
    else Parent(r.path) in dirs && r.parentDid == dirs[Parent(r.path)] && first <= r.parentDid < r.did
  }

  lemma {:induction false} PrefixesInterned(first: nat, order: seq<Path>, dirs: map<Path, nat>, dirBuf: seq<DirBufRow>,
                                            p: Path, q: Path)
    requires Interned(first, order, dirs, dirBuf) && p in dirs && Under(q, p)
    ensures q in dirs
  {
    if p != q {
      var i := IndexIn(order, p);
      assert InternedAt(first, order[i], dirs, dirBuf[i], i);
      assert Under(q, Parent(p));
      PrefixesInterned(first, order, dirs, dirBuf, Parent(p), q);
    }
  }

  lemma UnderStep(p: Path)
    requires p != []
    ensures !Under(p, Parent(p))
    ensures forall q :: Under(q, p) <==> q == p || Under(q, Parent(p))
  {
  }

  /** Appending one directory whose parent is already interned. */
  lemma InternOne(first: nat, order: seq<Path>, dirs: map<Path, nat>, dirBuf: seq<DirBufRow>,
                  p: Path, r: DirBufRow)
    requires Interned(first, order, dirs, dirBuf) && p !in dirs
    requires r.path == p && r.did == first + |order|
    requires if p == [] then r.parentDid == 0 else Parent(p) in dirs && r.parentDid == dirs[Parent(p)]
    ensures Interned(first, order + [p], dirs[p := r.did], dirBuf + [r])
  {
    var order', dirs', dirBuf' := order + [p], dirs[p := r.did], dirBuf + [r];
    InternedDistinct(first, order, dirs, dirBuf);
    forall i | 0 <= i < |order'|
      ensures InternedAt(first, order'[i], dirs', dirBuf'[i], i)
    {
      if i < |order| {
        assert InternedAt(first, order[i], dirs, dirBuf[i], i);
      } else if p != [] {
        var j := IndexIn(order, Parent(p));
        assert InternedAt(first, order[j], dirs, dirBuf[j], j);
      }
    }
  }

  /** The directory state after interning p: only p and its ancestors are new,
      and new directories own no bytes yet. */
  ghost predicate Grown(order: seq<Path>, sizes: seq<nat>, order': seq<Path>, sizes': seq<nat>, p: Path) {
    && order <= order' && sizes <= sizes' && |sizes| == |order| && |sizes'| == |order'|
    && (forall q :: q in order' <==> q in order || Under(q, p))
    && (forall i :: |order| <= i < |order'| ==> sizes'[i] == 0)
  }

  lemma GrownAlready(first: nat, order: seq<Path>, dirs: map<Path, nat>, dirBuf: seq<DirBufRow>, sizes: seq<nat>,
                     p: Path)
    requires Interned(first, order, dirs, dirBuf) && |sizes| == |order| && p in dirs
    ensures Grown(order, sizes, order, sizes, p)
  {
    InternedDistinct(first, order, dirs, dirBuf);
    forall q | Under(q, p) ensures q in order {
      PrefixesInterned(first, order, dirs, dirBuf, p, q);
    }
  }

  lemma GrownByOne(order: seq<Path>, sizes: seq<nat>, order': seq<Path>, sizes': seq<nat>, p: Path)
    requires p != [] && Grown(order, sizes, order', sizes', Parent(p))
    ensures Grown(order, sizes, order' + [p], sizes' + [0], p)
  {
    UnderStep(p);
  }

  lemma GrownTwice(a: seq<Path>, sa: seq<nat>, b: seq<Path>, sb: seq<nat>, c: seq<Path>, sc: seq<nat>, p: Path)
    requires p != [] && Grown(a, sa, b, sb, Parent(p)) && Grown(b, sb, c, sc, p)
    ensures Grown(a, sa, c, sc, p)
  {
    UnderStep(p);
    forall i | |a| <= i < |c| ensures sc[i] == 0 {
      if i < |b| { assert sc[i] == sb[i]; }
    }
  }

  /** Interning more directories never moves an ID. */
  lemma IdsStable(first: nat, order: seq<Path>, dirs: map<Path, nat>, dirBuf: seq<DirBufRow>,
                  order': seq<Path>, dirs': map<Path, nat>, dirBuf': seq<DirBufRow>, p: Path)
    requires Interned(first, order, dirs, dirBuf) && Interned(first, order', dirs', dirBuf')
    requires order <= order' && p in dirs
    ensures p in dirs' && dirs'[p] == dirs[p]
  {
    var i := IndexIn(order, p);
    assert InternedAt(first, order[i], dirs, dirBuf[i], i);
    assert InternedAt(first, order'[i], dirs', dirBuf'[i], i);
  }

  ghost function IdxIn(order: seq<Path>, p: Path): nat {
    if p in order then IndexIn(order, p) else 0
  }

  lemma IdxOf(order: seq<Path>, i: nat)
    requires Distinct(order) && i < |order|
    ensures order[i] in order && IdxIn(order, order[i]) == i
  {
  }

  /** The child of d on the way down to a directory below it. */
  ghost function Step(d: Path, p: Path): Path
    requires Below(d, p)
  {
    p[..|d| + 1]
  }

  /** Whether n's bytes have reached d once every directory from index k on has
      been folded into its parent. */
  ghost predicate Reached(order: seq<Path>, n: Node, d: Path, k: nat) {
    && !IsDirNode(n)
    && (ParentOf(n) == d || (Below(d, ParentOf(n)) && IdxIn(order, Step(d, ParentOf(n))) >= k))
  }

  ghost function Folded(order: seq<Path>, log: seq<Node>, d: Path, k: nat): nat {
    if log == [] then 0
    else
      var n := log[|log| - 1];
      Folded(order, log[..|log| - 1], d, k) + if Reached(order, n, d, k) then n.size else 0
  }

  ghost predicate ParentsFirst(order: seq<Path>) {
    && Distinct(order)
    && forall i :: 0 <= i < |order| && order[i] != [] ==>
         Parent(order[i]) in order && IdxIn(order, Parent(order[i])) < i
  }

  lemma InternedParentsFirst(first: nat, order: seq<Path>, dirs: map<Path, nat>, dirBuf: seq<DirBufRow>)
    requires Interned(first, order, dirs, dirBuf)
    ensures ParentsFirst(order)
  {
    InternedDistinct(first, order, dirs, dirBuf);
    forall i | 0 <= i < |order| && order[i] != []
      ensures Parent(order[i]) in order && IdxIn(order, Parent(order[i])) < i
    {
      assert InternedAt(first, order[i], dirs, dirBuf[i], i);
      var j := IndexIn(order, Parent(order[i]));
      assert InternedAt(first, order[j], dirs, dirBuf[j], j);
    }
  }

  ghost predicate AllDirsIn(order: seq<Path>, log: seq<Node>) {
    forall n, q :: n in log && Under(q, ParentOf(n)) ==> q in order
  }

  lemma {:induction false} FoldedNothingYet(order: seq<Path>, log: seq<Node>, d: Path)
    requires order != []
    ensures Folded(order, log, d, |order|) == TotalIn(log, d)
  {
    if log != [] {
      FoldedNothingYet(order, log[..|log| - 1], d);
    }
  }

  lemma {:induction false} FoldedEverything(order: seq<Path>, log: seq<Node>, d: Path)
    ensures Folded(order, log, d, 0) == TotalBelow(log, d)
  {
    if log != [] {
      FoldedEverything(order, log[..|log| - 1], d);
    }
  }

  /** When index i is about to be folded, everything below it has arrived. */
  lemma {:induction false} FoldedComplete(order: seq<Path>, log: seq<Node>, i: nat)
    requires ParentsFirst(order) && i < |order| && AllDirsIn(order, log)
    ensures Folded(order, log, order[i], i + 1) == TotalBelow(log, order[i])
  {
    if log != [] {
      var n, d := log[|log| - 1], order[i];
      FoldedComplete(order, log[..|log| - 1], i);
      assert n in log;
      if Below(d, ParentOf(n)) {
        var c := Step(d, ParentOf(n));
        assert Under(c, ParentOf(n)) && Parent(c) == d;
        assert order[IndexIn(order, c)] == c;
        IdxOf(order, i);
      }
    }
  }

  lemma ReachedStep(order: seq<Path>, n: Node, i: nat, d: Path)
    requires ParentsFirst(order) && i < |order|
    requires forall q :: Under(q, ParentOf(n)) ==> q in order
    ensures Reached(order, n, d, i) <==>
            Reached(order, n, d, i + 1)
            || (!IsDirNode(n) && order[i] != [] && d == Parent(order[i]) && Under(order[i], ParentOf(n)))
    ensures !(Reached(order, n, d, i + 1)
              && order[i] != [] && d == Parent(order[i]) && Under(order[i], ParentOf(n)))
  {
    IdxOf(order, i);
    assert order[i] != [] && d == Parent(order[i]) && Under(order[i], ParentOf(n)) ==> Below(d, ParentOf(n));
    if Below(d, ParentOf(n)) {
      var c := Step(d, ParentOf(n));
      assert Under(c, ParentOf(n)) && Parent(c) == d;
      if order[i] != [] && d == Parent(order[i]) && Under(order[i], ParentOf(n)) {
        assert c == order[i];
      }
    }
  }

  /** Folding index i adds its recursive total to its parent and to nothing else. */
  lemma {:induction false} FoldedStep(order: seq<Path>, log: seq<Node>, i: nat, d: Path)
    requires ParentsFirst(order) && i < |order| && AllDirsIn(order, log)
    ensures Folded(order, log, d, i)
         == Folded(order, log, d, i + 1)
            + if order[i] != [] && d == Parent(order[i]) then TotalBelow(log, order[i]) else 0
  {
    if log != [] {
      var n := log[|log| - 1];
      FoldedStep(order, log[..|log| - 1], i, d);
      assert n in log;
      ReachedStep(order, n, i, d);
    }
  }

  /** One iteration of the backward loop, as the code performs it. */
  ghost function FoldOne(first: nat, sizes: seq<nat>, r: DirBufRow): (sizes': seq<nat>)
    requires first <= r.did < first + |sizes| && r.parentDid < first + |sizes|
    ensures |sizes'| == |sizes|
  {
    if r.parentDid < first then sizes
    else sizes[r.parentDid - first := sizes[r.parentDid - first] + sizes[r.did - first]]
  }

  ghost predicate SizesAt(order: seq<Path>, sizes: seq<nat>, log: seq<Node>, k: nat) {
    |sizes| == |order| && forall j :: 0 <= j < |order| ==> sizes[j] == Folded(order, log, order[j], k)
  }

  /** What the loop reads at index i, in terms of offsets from first. */
  lemma FoldOffsets(first: nat, order: seq<Path>, dirs: map<Path, nat>, dirBuf: seq<DirBufRow>, i: nat)
    requires Interned(first, order, dirs, dirBuf) && i < |order|
    ensures i < |dirBuf| && dirBuf[i].did == first + i
    ensures order[i] == [] ==> dirBuf[i].parentDid < first
    ensures order[i] != [] ==> first <= dirBuf[i].parentDid < first + i
                               && order[dirBuf[i].parentDid - first] == Parent(order[i])
    ensures forall j :: 0 <= j < |order| && order[i] != [] && order[j] == Parent(order[i]) ==>
              j == dirBuf[i].parentDid - first
  {
    InternedDistinct(first, order, dirs, dirBuf);
    assert InternedAt(first, order[i], dirs, dirBuf[i], i);
    if order[i] != [] {
      var p := IndexIn(order, Parent(order[i]));
      assert InternedAt(first, order[p], dirs, dirBuf[p], p);
    }
  }

  lemma FoldOneStep(first: nat, order: seq<Path>, dirs: map<Path, nat>, dirBuf: seq<DirBufRow>,
                    sizes: seq<nat>, log: seq<Node>, i: nat)
    requires Interned(first, order, dirs, dirBuf) && i < |order|
    requires AllDirsIn(order, log) && SizesAt(order, sizes, log, i + 1)
    ensures first <= dirBuf[i].did < first + |sizes| && dirBuf[i].parentDid < first + |sizes|
    ensures SizesAt(order, FoldOne(first, sizes, dirBuf[i]), log, i)
  {
    hide Folded, TotalBelow, Interned, IsDirOf, ParentsFirst, AllDirsIn;
    FoldOffsets(first, order, dirs, dirBuf, i);
    InternedParentsFirst(first, order, dirs, dirBuf);
    FoldedComplete(order, log, i);
    var sizes' := FoldOne(first, sizes, dirBuf[i]);
    assert |sizes'| == |order|;
    forall j | 0 <= j < |order|
      ensures sizes'[j] == Folded(order, log, order[j], i)
    {
      FoldedStep(order, log, i, order[j]);
    }
  }

  lemma ContentDirs(order: seq<Path>, log: seq<Node>)
    requires forall p :: p in order <==> IsDirOf(log, p)
    ensures AllDirsIn(order, log)
  {
    forall n, q | n in log && Under(q, ParentOf(n)) ensures q in order {
      assert MakesDir(n, q);
    }
  }

  // One accepted node.

  lemma DirsOfSnoc(log: seq<Node>, n: Node, p: Path)
    ensures IsDirOf(log + [n], p) <==> IsDirOf(log, p) || MakesDir(n, p)
  {
    if IsDirOf(log, p) && p != [] {
      var m :| m in log && MakesDir(m, p);
      assert m in log + [n];
    }
    if MakesDir(n, p) {
      assert n in log + [n];
    }
  }

  lemma TotalInSnoc(log: seq<Node>, n: Node, d: Path)
    ensures TotalIn(log + [n], d) == TotalIn(log, d) + if !IsDirNode(n) && d == ParentOf(n) then n.size else 0
  {
    assert (log + [n])[..|log|] == log;
  }

  lemma {:induction false} NothingInNonDir(log: seq<Node>, d: Path)
    requires !IsDirOf(log, d)
    ensures TotalIn(log, d) == 0
  {
    if log != [] {
      var n := log[|log| - 1];
      assert n in log && !MakesDir(n, d);
      assert forall m :: m in log[..|log| - 1] ==> m in log;
      NothingInNonDir(log[..|log| - 1], d);
    }
  }

  lemma {:induction false} RowsStable(fold: char -> char, sid: nat, first: nat, order: seq<Path>, more: seq<Path>,
                                      log: seq<Node>)
    requires forall n :: n in log ==> ParentOf(n) in order
    ensures RowsOf(fold, sid, first, order, log) == RowsOf(fold, sid, first, order + more, log)
  {
    if log != [] {
      var d := ParentOf(log[|log| - 1]);
      assert log[|log| - 1] in log;
      RowsStable(fold, sid, first, order, more, log[..|log| - 1]);
      assert DidIn(first, order, d) == DidIn(first, order + more, d) by {
        IndexStable(order, more, d);
      }
    }
  }

  lemma {:induction false} IndexStable<T>(s: seq<T>, more: seq<T>, x: T)
    requires x in s
    ensures x in s + more && IndexIn(s + more, x) == IndexIn(s, x)
  {
    if s[0] != x {
      assert (s + more)[1..] == s[1..] + more;
      IndexStable(s[1..], more, x);
    }
  }

  /** What the tables-to-be of an open transaction say about its accepted nodes. */
  ghost predicate Content(fold: char -> char, sid: nat, first: nat, order: seq<Path>, sizes: seq<nat>,
                          rows: seq<NodeRow>, log: seq<Node>)
  {
    && |sizes| == |order| && order != [] && order[0] == []
    && (forall p :: p in order <==> IsDirOf(log, p))
    && (forall n :: n in log ==> n.path != [])
    && (forall i :: 0 <= i < |order| ==> sizes[i] == TotalIn(log, order[i]))
    && rows == RowsOf(fold, sid, first, order, log)
  }

  ghost function Own(n: Node, d: Path): nat {
    if !IsDirNode(n) && d == ParentOf(n) then n.size else 0
  }

  /** The directory state after accepting n. */
  ghost predicate Placed(order: seq<Path>, sizes: seq<nat>, order': seq<Path>, sizes': seq<nat>, n: Node) {
    && order <= order' && |sizes| == |order| && |sizes'| == |order'|
    && (forall q :: q in order' <==> q in order || MakesDir(n, q))
    && (forall i :: 0 <= i < |order'| ==>
          sizes'[i] == (if i < |order| then sizes[i] else 0) + Own(n, order'[i]))
  }

  lemma PlacedDir(order: seq<Path>, sizes: seq<nat>, order': seq<Path>, sizes': seq<nat>, n: Node)
    requires n.path != [] && IsDirNode(n) && Grown(order, sizes, order', sizes', n.path)
    ensures Placed(order, sizes, order', sizes', n)
  {
    UnderStep(n.path);
  }

  lemma PlacedFile(order: seq<Path>, sizes: seq<nat>, order': seq<Path>, sizes': seq<nat>, n: Node, at: nat)
    requires n.path != [] && !IsDirNode(n) && Grown(order, sizes, order', sizes', ParentOf(n))
    requires Distinct(order') && at < |order'| && order'[at] == ParentOf(n)
    ensures Placed(order, sizes, order', sizes'[at := sizes'[at] + n.size], n)
  {
  }

  lemma AcceptSizes(order: seq<Path>, sizes: seq<nat>, log: seq<Node>, n: Node, order': seq<Path>, sizes': seq<nat>)
    requires |sizes| == |order| && |sizes'| == |order'| && order <= order' && Distinct(order')
    requires forall p :: p in order <==> IsDirOf(log, p)
    requires forall i :: 0 <= i < |order| ==> sizes[i] == TotalIn(log, order[i])
    requires forall i :: 0 <= i < |order'| ==>
               sizes'[i] == (if i < |order| then sizes[i] else 0) + Own(n, order'[i])
    ensures forall i :: 0 <= i < |order'| ==> sizes'[i] == TotalIn(log + [n], order'[i])
  {
    forall i | 0 <= i < |order'| ensures sizes'[i] == TotalIn(log + [n], order'[i]) {
      TotalInSnoc(log, n, order'[i]);
      if i < |order| {
        assert order'[i] == order[i];
      } else {
        forall j | 0 <= j < |order| ensures order[j] != order'[i] {
          assert order[j] == order'[j];
        }
        NothingInNonDir(log, order'[i]);
      }
    }
  }

  lemma AcceptRows(fold: char -> char, sid: nat, first: nat, order: seq<Path>, log: seq<Node>, n: Node,
                   order': seq<Path>)
    requires order <= order'
    requires forall p :: p in order <==> IsDirOf(log, p)
    ensures RowsOf(fold, sid, first, order', log + [n])
         == RowsOf(fold, sid, first, order, log) + [RowOf(fold, sid, DidIn(first, order', ParentOf(n)), n)]
  {
    RowsSnoc(fold, sid, first, order', log, n);
    forall m | m in log ensures ParentOf(m) in order { ParentIsDir(log, m); }
    RowsStable(fold, sid, first, order, order'[|order|..], log);
    assert order + order'[|order|..] == order';
  }

  lemma AcceptNode(fold: char -> char, sid: nat, first: nat, order: seq<Path>, sizes: seq<nat>,
                   rows: seq<NodeRow>, log: seq<Node>, n: Node, order': seq<Path>, sizes': seq<nat>)
    requires Content(fold, sid, first, order, sizes, rows, log)
    requires n.path != [] && Distinct(order') && Placed(order, sizes, order', sizes', n)
    ensures Content(fold, sid, first, order', sizes',
                    rows + [RowOf(fold, sid, DidIn(first, order', ParentOf(n)), n)], log + [n])
  {
    AcceptSizes(order, sizes, log, n, order', sizes');
    AcceptRows(fold, sid, first, order, log, n, order');
    forall p ensures p in order' <==> IsDirOf(log + [n], p) {
      DirsOfSnoc(log, n, p);
    }
  }
}
