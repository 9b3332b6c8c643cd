/** Stable sorting by a strict weak order, as sort.SliceStable and SQLite's
    ORDER BY over an index do it, and the byte order on strings. */
module Sorting {

  ghost predicate StrictWeakOrder<T(!new)>(lt: (T, T) -> bool) {
    && (forall x :: !lt(x, x))
    && (forall x, y, z :: lt(x, y) && lt(y, z) ==> lt(x, z))
    && (forall x, y, z :: lt(x, z) ==> lt(x, y) || lt(y, z))
  }

  ghost predicate Sorted<T(!new)>(lt: (T, T) -> bool, s: seq<T>) {
    forall i, j :: 0 <= i < j < |s| ==> !lt(s[j], s[i])
  }

  /** The number of leading elements that x does not precede. */
  function Place<T>(lt: (T, T) -> bool, x: T, s: seq<T>): (k: nat)
    ensures k <= |s|
    ensures forall i :: 0 <= i < k ==> !lt(x, s[i])
    ensures k < |s| ==> lt(x, s[k])
  {
    if s == [] || lt(x, s[0]) then 0 else 1 + Place(lt, x, s[1..])
  }

  function Insert<T>(lt: (T, T) -> bool, x: T, s: seq<T>): seq<T> {
    var k := Place(lt, x, s);
    s[..k] + [x] + s[k..]
  }

  function StableSort<T>(lt: (T, T) -> bool, s: seq<T>): seq<T> {
    if s == [] then [] else Insert(lt, s[|s| - 1], StableSort(lt, s[..|s| - 1]))
  }

  /** From its place on, x precedes every element of a sorted sequence, so a
      binary search for the first such element finds Place. */
  lemma PlaceIsMonotone<T(!new)>(lt: (T, T) -> bool, x: T, s: seq<T>)
    requires StrictWeakOrder(lt) && Sorted(lt, s)
    ensures forall i :: 0 <= i < |s| ==> (lt(x, s[i]) <==> Place(lt, x, s) <= i)
  {
    var k := Place(lt, x, s);
    forall i | k < i < |s| ensures lt(x, s[i]) {
      assert lt(x, s[k]) && !lt(s[i], s[k]);
    }
  }

  lemma InsertKeepsSorted<T(!new)>(lt: (T, T) -> bool, x: T, s: seq<T>)
    requires StrictWeakOrder(lt) && Sorted(lt, s)
    ensures Sorted(lt, Insert(lt, x, s))
  {
    PlaceIsMonotone(lt, x, s);
  }

  lemma {:induction false} StableSortSorts<T(!new)>(lt: (T, T) -> bool, s: seq<T>)
    requires StrictWeakOrder(lt)
    ensures Sorted(lt, StableSort(lt, s))
    ensures |StableSort(lt, s)| == |s|
    ensures multiset(StableSort(lt, s)) == multiset(s)
  {
    if s == [] {
    } else {
      var init, x := s[..|s| - 1], s[|s| - 1];
      StableSortSorts(lt, init);
      InsertKeepsSorted(lt, x, StableSort(lt, init));
      var t := StableSort(lt, init);
      var k := Place(lt, x, t);
      assert t == t[..k] + t[k..];
      assert s == init + [x];
    }
  }

  function Filter<T>(keep: T -> bool, s: seq<T>): (r: seq<T>)
    ensures |r| <= |s|
  {
    if s == [] then []
    else Filter(keep, s[..|s| - 1]) + if keep(s[|s| - 1]) then [s[|s| - 1]] else []
  }

  lemma {:induction false} FilterMembers<T(!new)>(keep: T -> bool, s: seq<T>)
    ensures forall x :: x in Filter(keep, s) <==> x in s && keep(x)
  {
    if s != [] {
      FilterMembers(keep, s[..|s| - 1]);
      assert s == s[..|s| - 1] + [s[|s| - 1]];
    }
  }

  lemma {:induction false} FilterConcat<T>(keep: T -> bool, a: seq<T>, b: seq<T>)
    ensures Filter(keep, a + b) == Filter(keep, a) + Filter(keep, b)
  {
    if b == [] {
      assert a + b == a;
    } else {
      var b', y := b[..|b| - 1], b[|b| - 1];
      FilterConcat(keep, a, b');
      assert (a + b)[..|a + b| - 1] == a + b';
      var last := if keep(y) then [y] else [];
      assert Filter(keep, a + b) == Filter(keep, a + b') + last;
      assert Filter(keep, b) == Filter(keep, b') + last;
    }
  }

  lemma {:induction false} FilterCount<T>(keep: T -> bool, s: seq<T>, x: T)
    ensures multiset(Filter(keep, s))[x] == if keep(x) then multiset(s)[x] else 0
  {
    if s != [] {
      FilterCount(keep, s[..|s| - 1], x);
      assert s == s[..|s| - 1] + [s[|s| - 1]];
    }
  }

  function Ties<T>(lt: (T, T) -> bool, x: T): T -> bool {
    y => !lt(x, y) && !lt(y, x)
  }

  lemma {:induction false} FilterNone<T>(keep: T -> bool, s: seq<T>)
    requires forall i :: 0 <= i < |s| ==> !keep(s[i])
    ensures Filter(keep, s) == []
  {
    if s != [] {
      FilterNone(keep, s[..|s| - 1]);
    }
  }

  function One<T>(keep: T -> bool, y: T): seq<T> {
    if keep(y) then [y] else []
  }

  lemma FilterSnoc<T>(keep: T -> bool, s: seq<T>, x: T)
    ensures Filter(keep, s + [x]) == Filter(keep, s) + One(keep, x)
  {
    assert (s + [x])[..|s|] == s;
  }

  lemma FilterInserted<T>(keep: T -> bool, a: seq<T>, y: T, b: seq<T>)
    ensures Filter(keep, a + [y] + b) == Filter(keep, a) + One(keep, y) + Filter(keep, b)
  {
    FilterConcat(keep, a + [y], b);
    assert (a + [y])[..|a|] == a;
  }

  lemma ConcatSwap<T>(a: seq<T>, b: seq<T>, c: seq<T>)
    requires b == [] || c == []
    ensures a + b + c == a + c + b
  {
  }

  lemma InsertAmongTies<T>(tie: T -> bool, a: seq<T>, y: T, b: seq<T>)
    requires tie(y) ==> forall i :: 0 <= i < |b| ==> !tie(b[i])
    ensures Filter(tie, a + [y] + b) == Filter(tie, a + b) + One(tie, y)
  {
    FilterInserted(tie, a, y, b);
    FilterConcat(tie, a, b);
    if tie(y) {
      FilterNone(tie, b);
    }
    ConcatSwap(Filter(tie, a), One(tie, y), Filter(tie, b));
  }

  lemma InsertAt<T(!new)>(lt: (T, T) -> bool, y: T, t: seq<T>)
    ensures var k := Place(lt, y, t); Insert(lt, y, t) == t[..k] + [y] + t[k..]
  {
  }

  lemma InsertKeepsTieOrder<T(!new)>(lt: (T, T) -> bool, y: T, t: seq<T>, x: T)
    requires StrictWeakOrder(lt) && Sorted(lt, t)
    ensures Filter(Ties(lt, x), Insert(lt, y, t)) == Filter(Ties(lt, x), t) + One(Ties(lt, x), y)
  {
    hide Filter, Sorted, Insert;
    PlaceIsMonotone(lt, y, t);
    var k := Place(lt, y, t);
    var a, b, tie := t[..k], t[k..], Ties(lt, x);
    assert t == a + b && Insert(lt, y, t) == a + [y] + b by {
      InsertAt(lt, y, t);
    }
    forall i | 0 <= i < |b| && tie(y) ensures !tie(b[i]) {
      assert b[i] == t[k + i] && lt(y, t[k + i]);
      assert lt(y, x) || lt(x, t[k + i]);
    }
    InsertAmongTies(tie, a, y, b);
  }

  /** Stability: elements that tie with x keep their input order. */
  lemma {:induction false} StableSortKeepsTieOrder<T(!new)>(lt: (T, T) -> bool, s: seq<T>, x: T)
    requires StrictWeakOrder(lt)
    ensures Filter(Ties(lt, x), StableSort(lt, s)) == Filter(Ties(lt, x), s)
  {
    if s != [] {
      var init, y := s[..|s| - 1], s[|s| - 1];
      StableSortKeepsTieOrder(lt, init, x);
      StableSortSorts(lt, init);
      InsertKeepsTieOrder(lt, y, StableSort(lt, init), x);
    }
  }

  lemma SameFirst<T(!new)>(lt: (T, T) -> bool, a: seq<T>, b: seq<T>)
    requires Sorted(lt, a) && Sorted(lt, b) && multiset(a) == multiset(b) && a != [] && b != []
    requires forall x, y :: x in a && y in a && x != y ==> lt(x, y) || lt(y, x)
    ensures a[0] == b[0]
  {
    assert a[0] in multiset(b) && b[0] in multiset(a);
    assert forall i :: 0 <= i < |a| ==> i == 0 || !lt(a[i], a[0]);
    assert forall i :: 0 <= i < |b| ==> i == 0 || !lt(b[i], b[0]);
  }

  /** Sorting is canonical when distinct elements never tie. */
  lemma {:induction false} SortedUnique<T(!new)>(lt: (T, T) -> bool, a: seq<T>, b: seq<T>)
    requires StrictWeakOrder(lt) && Sorted(lt, a) && Sorted(lt, b)
    requires multiset(a) == multiset(b)
    requires forall x, y :: x in a && y in a && x != y ==> lt(x, y) || lt(y, x)
    ensures a == b
  {
    assert |a| == |multiset(a)| == |multiset(b)| == |b|;
    if a == [] {
    } else {
      SameFirst(lt, a, b);
      assert a == [a[0]] + a[1..] && b == [b[0]] + b[1..];
      assert multiset(a[1..]) == multiset(a) - multiset{a[0]};
      assert multiset(b[1..]) == multiset(b) - multiset{b[0]};
      SortedUnique(lt, a[1..], b[1..]);
    }
  }

  ghost predicate Distinct<T(!new)>(s: seq<T>) {
    forall i, j :: 0 <= i < j < |s| ==> s[i] != s[j]
  }

  lemma {:induction false} DistinctSize<T(!new)>(s: seq<T>)
    requires Distinct(s)
    ensures |s| == |set x | x in s|
  {
    if s != [] {
      var init, last := s[..|s| - 1], s[|s| - 1];
      DistinctSize(init);
      assert s == init + [last];
      assert (set x | x in s) == (set x | x in init) + {last};
    }
  }

  lemma {:induction false} DistinctCount<T(!new)>(s: seq<T>, x: T)
    requires Distinct(s)
    ensures multiset(s)[x] == if x in s then 1 else 0
  {
    if s != [] {
      var init := s[..|s| - 1];
      DistinctCount(init, x);
      assert s == init + [s[|s| - 1]];
    }
  }

  lemma {:induction false} CountDistinct<T(!new)>(s: seq<T>)
    requires forall x :: multiset(s)[x] <= 1
    ensures Distinct(s)
  {
    if s != [] {
      var init, last := s[..|s| - 1], s[|s| - 1];
      assert s == init + [last];
      assert forall x :: multiset(s)[x] == multiset(init)[x] + multiset{last}[x];
      CountDistinct(init);
      assert multiset(init)[last] == 0 && last !in init;
    }
  }

  lemma PermutedDistinct<T(!new)>(a: seq<T>, b: seq<T>)
    requires multiset(a) == multiset(b) && Distinct(a)
    ensures Distinct(b)
  {
    forall x ensures multiset(b)[x] <= 1 {
      DistinctCount(a, x);
    }
    CountDistinct(b);
  }

  lemma SameMembersPermute<T(!new)>(a: seq<T>, b: seq<T>)
    requires Distinct(a) && Distinct(b) && forall x :: x in a <==> x in b
    ensures multiset(a) == multiset(b)
  {
    forall x ensures multiset(a)[x] == multiset(b)[x] {
      DistinctCount(a, x);
      DistinctCount(b, x);
    }
  }

  /** Sorting what is sorted changes nothing. */
  lemma {:induction false} SortedIsFixed<T(!new)>(lt: (T, T) -> bool, s: seq<T>)
    requires StrictWeakOrder(lt) && Sorted(lt, s)
    ensures StableSort(lt, s) == s
  {
    if s != [] {
      var init, x := s[..|s| - 1], s[|s| - 1];
      SortedIsFixed(lt, init);
      PlaceIsMonotone(lt, x, init);
      assert Place(lt, x, init) == |init|;
      assert init[..|init|] + [x] + init[|init|..] == s;
    }
  }

  lemma {:induction false} FilterKeepsSorted<T(!new)>(lt: (T, T) -> bool, keep: T -> bool, s: seq<T>)
    requires Sorted(lt, s)
    ensures Sorted(lt, Filter(keep, s))
  {
    if s != [] {
      var init := s[..|s| - 1];
      FilterKeepsSorted(lt, keep, init);
      FilterMembers(keep, init);
      var f := Filter(keep, init);
      forall i | 0 <= i < |f| ensures !lt(s[|s| - 1], f[i]) {
        assert f[i] in init;
      }
    }
  }

  function Map<S, T>(f: S -> T, s: seq<S>): seq<T> {
    seq(|s|, i requires 0 <= i < |s| => f(s[i]))
  }

  lemma {:induction false} PlaceOfMapped<S(!new), T>(f: S -> T, lt: (T, T) -> bool, lt': (S, S) -> bool, x: S,
                                                     s: seq<S>)
    requires forall a, b :: lt(f(a), f(b)) == lt'(a, b)
    ensures Place(lt, f(x), Map(f, s)) == Place(lt', x, s)
  {
    if s != [] {
      assert Map(f, s)[1..] == Map(f, s[1..]);
      PlaceOfMapped(f, lt, lt', x, s[1..]);
    }
  }

  lemma InsertMapped<S(!new), T>(f: S -> T, lt: (T, T) -> bool, lt': (S, S) -> bool, x: S, s: seq<S>)
    requires forall a, b :: lt(f(a), f(b)) == lt'(a, b)
    ensures Insert(lt, f(x), Map(f, s)) == Map(f, Insert(lt', x, s))
  {
    PlaceOfMapped(f, lt, lt', x, s);
    hide Place;
    var k := Place(lt', x, s);
    assert Map(f, s[..k] + [x] + s[k..]) == Map(f, s)[..k] + [f(x)] + Map(f, s)[k..];
  }

  /** Sorting mapped elements is mapping the sorted ones. */
  lemma {:induction false} SortMapped<S(!new), T>(f: S -> T, lt: (T, T) -> bool, lt': (S, S) -> bool, s: seq<S>)
    requires forall a, b :: lt(f(a), f(b)) == lt'(a, b)
    ensures StableSort(lt, Map(f, s)) == Map(f, StableSort(lt', s))
  {
    if s != [] {
      var init, x := s[..|s| - 1], s[|s| - 1];
      SortMapped(f, lt, lt', init);
      assert Map(f, s)[..|s| - 1] == Map(f, init);
      InsertMapped(f, lt, lt', x, StableSort(lt', init));
    }
  }

  // Go's < on strings and SQLite's BINARY collation.

  predicate StrLess(a: string, b: string) {
    if b == "" then false
    else if a == "" then true
    else if a[0] != b[0] then a[0] < b[0]
    else StrLess(a[1..], b[1..])
  }

  /** a comes before b when it is a proper prefix of b or smaller at the first
      place where they differ. */
  lemma {:induction false} StrLessExact(a: string, b: string)
    ensures StrLess(a, b) <==> exists n: nat :: FirstDifference(a, b, n) && (n == |a| || a[n] < b[n])
  {
    if a != "" && b != "" && a[0] == b[0] {
      StrLessExact(a[1..], b[1..]);
      if n: nat :| FirstDifference(a[1..], b[1..], n) && (n == |a[1..]| || a[1..][n] < b[1..][n]) {
        assert a[..n + 1] == [a[0]] + a[1..][..n] && b[..n + 1] == [b[0]] + b[1..][..n];
        assert FirstDifference(a, b, n + 1);
      }
      if n: nat :| FirstDifference(a, b, n) && (n == |a| || a[n] < b[n]) {
        assert n > 0;
        assert a[1..][..n - 1] == a[..n][1..] && b[1..][..n - 1] == b[..n][1..];
        assert FirstDifference(a[1..], b[1..], n - 1);
      }
    } else if b != "" {
      assert a[..0] == b[..0];
      assert FirstDifference(a, b, 0);
    }
  }

  /** a and b agree up to n, where a ends or differs, and b goes on. */
  predicate FirstDifference(a: string, b: string, n: nat) {
    n <= |a| && n < |b| && a[..n] == b[..n] && (n == |a| || a[n] != b[n])
  }

  lemma {:induction false} StrLessTrichotomy(a: string, b: string)
    ensures !StrLess(a, a)
    ensures StrLess(a, b) ==> !StrLess(b, a)
    ensures a != b ==> StrLess(a, b) || StrLess(b, a)
  {
    if a != "" {
      StrLessTrichotomy(a[1..], if b == "" then "" else b[1..]);
    }
    if a != "" && b != "" {
      assert a == [a[0]] + a[1..] && b == [b[0]] + b[1..];
    }
  }

  lemma {:induction false} StrLessTransitive(a: string, b: string, c: string)
    requires StrLess(a, b) && StrLess(b, c)
    ensures StrLess(a, c)
  {
    if a != "" && a[0] == b[0] == c[0] {
      StrLessTransitive(a[1..], b[1..], c[1..]);
    }
  }

  lemma StrLessIsStrictWeak()
    ensures StrictWeakOrder(StrLess)
    ensures forall a, b :: a != b ==> StrLess(a, b) || StrLess(b, a)
  {
    forall a, b ensures !StrLess(a, a) && (a != b ==> StrLess(a, b) || StrLess(b, a)) {
      StrLessTrichotomy(a, b);
    }
    forall a, b, c | StrLess(a, b) && StrLess(b, c) ensures StrLess(a, c) {
      StrLessTransitive(a, b, c);
    }
    forall a, b, c | StrLess(a, c) ensures StrLess(a, b) || StrLess(b, c) {
      if !StrLess(a, b) && a != b {
        StrLessTransitive(b, a, c);
      }
    }
  }
}
