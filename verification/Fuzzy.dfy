/** Filename search: the scorer and ranking of internal/model/fuzzy.go, and the
    LIKE prefilter and streaming top-N of internal/browsedb/queries.go. Case
    folding is any function on characters. */
module Fuzzy {
  import opened Wrappers
  import opened Sorting
  import opened BrowseRows

  const MATCH_BONUS := 16
  const CONTIGUITY_BONUS := 8
  const START_BONUS := 16
  const BOUNDARY_BONUS := 8
  const EXACT_CASE_BONUS := 2
  const LENGTH_PENALTY := 1

  datatype FuzzyMatch = FuzzyMatch(score: int, positions: seq<nat>)

  predicate IsWordBoundary(c: char) { c in {'/', '.', '-', '_', ' '} }

  /** ps are increasing positions at which cand spells query, up to case. */
  ghost predicate Spells(fold: char -> char, cand: string, query: string, ps: seq<nat>) {
    && |ps| == |query|
    && (forall i :: 0 <= i < |ps| ==> ps[i] < |cand| && fold(cand[ps[i]]) == fold(query[i]))
    && (forall i, j :: 0 <= i < j < |ps| ==> ps[i] < ps[j])
  }

  /** What one matched rune earns; prev is the position matched before it. */
  function Points(cand: string, qc: char, at: nat, prev: int): int
    requires at < |cand|
  {
    MATCH_BONUS
    + (if at == 0 then START_BONUS
       else if at == prev + 1 then CONTIGUITY_BONUS
       else if IsWordBoundary(cand[at - 1]) then BOUNDARY_BONUS
       else 0)
    + if cand[at] == qc then EXACT_CASE_BONUS else 0
  }

  function ScoreOf(cand: string, query: string, ps: seq<nat>): int
    requires |ps| <= |query| && forall i :: 0 <= i < |ps| ==> ps[i] < |cand|
  {
    if ps == [] then 0
    else
      var k := |ps| - 1;
      ScoreOf(cand, query, ps[..k]) + Points(cand, query[k], ps[k], if k == 0 then -2 else ps[k - 1])
  }

  /** Leftmost matching from position ci on. */
  function Greedy(fold: char -> char, cand: string, query: string, ci: nat): (r: Option<seq<nat>>)
    ensures r.Some? ==> |r.value| == |query| && forall i :: 0 <= i < |query| ==> ci <= r.value[i] < |cand|
    decreases |cand| - ci, |query|
  {
    if query == "" then Some([])
    else if ci >= |cand| then None
    else if fold(cand[ci]) == fold(query[0]) then
      var rest := Greedy(fold, cand, query[1..], ci + 1);
      if rest.None? then None else Some([ci] + rest.value)
    else Greedy(fold, cand, query, ci + 1)
  }

  lemma {:induction false} GreedySpells(fold: char -> char, cand: string, query: string, ci: nat)
    requires Greedy(fold, cand, query, ci).Some?
    ensures Spells(fold, cand, query, Greedy(fold, cand, query, ci).value)
    decreases |cand| - ci, |query|
  {
    if query != "" && ci < |cand| {
      if fold(cand[ci]) == fold(query[0]) {
        GreedySpells(fold, cand, query[1..], ci + 1);
        var rest := Greedy(fold, cand, query[1..], ci + 1).value;
        assert forall i :: 0 < i < |query| ==> query[i] == query[1..][i - 1] && ([ci] + rest)[i] == rest[i - 1];
      } else {
        GreedySpells(fold, cand, query, ci + 1);
      }
    }
  }

  /** No way of spelling the query is anywhere to the left of the greedy one. */
  lemma {:induction false} GreedyIsLeftmost(fold: char -> char, cand: string, query: string, ci: nat, qs: seq<nat>)
    requires Spells(fold, cand, query, qs) && (qs != [] ==> ci <= qs[0])
    ensures Greedy(fold, cand, query, ci).Some?
    ensures forall i :: 0 <= i < |qs| ==> Greedy(fold, cand, query, ci).value[i] <= qs[i]
    decreases |cand| - ci, |query|
  {
    if query != "" {
      if fold(cand[ci]) == fold(query[0]) {
        assert Spells(fold, cand, query[1..], qs[1..]) by {
          assert forall i :: 0 <= i < |qs| - 1 ==> qs[1..][i] == qs[i + 1] && query[1..][i] == query[i + 1];
        }
        GreedyIsLeftmost(fold, cand, query[1..], ci + 1, qs[1..]);
        var rest := Greedy(fold, cand, query[1..], ci + 1).value;
        forall i | 0 <= i < |qs| ensures ([ci] + rest)[i] <= qs[i] {
          if i > 0 { assert rest[i - 1] <= qs[1..][i - 1]; }
        }
      } else {
        GreedyIsLeftmost(fold, cand, query, ci + 1, qs);
      }
    }
  }

  /** FuzzyScore as a function: its positions are leftmost, its score theirs. */
  function ScoreMatch(fold: char -> char, cand: string, query: string): Option<FuzzyMatch> {
    var ps := Greedy(fold, cand, query, 0);
    if query == "" || ps.None? then None
    else Some(FuzzyMatch(ScoreOf(cand, query, ps.value) - LENGTH_PENALTY * |cand|, ps.value))
  }

  lemma ScorerExact(fold: char -> char, cand: string, query: string)
    ensures ScoreMatch(fold, cand, query).Some? <==> query != "" && exists ps :: Spells(fold, cand, query, ps)
    ensures ScoreMatch(fold, cand, query).Some? ==>
              var ps := ScoreMatch(fold, cand, query).value.positions;
              && Spells(fold, cand, query, ps)
              && forall qs :: Spells(fold, cand, query, qs) ==> forall i :: 0 <= i < |qs| ==> ps[i] <= qs[i]
  {
    if Greedy(fold, cand, query, 0).Some? {
      GreedySpells(fold, cand, query, 0);
    }
    forall qs | Spells(fold, cand, query, qs)
      ensures Greedy(fold, cand, query, 0).Some?
      ensures forall i :: 0 <= i < |qs| ==> Greedy(fold, cand, query, 0).value[i] <= qs[i]
    {
      GreedyIsLeftmost(fold, cand, query, 0, qs);
    }
  }

  ghost predicate Continues(fold: char -> char, cand: string, query: string, done: seq<nat>, qi: nat, ci: nat) {
    qi <= |query| && Greedy(fold, cand, query, 0)
      == var rest := Greedy(fold, cand, query[qi..], ci);
         if rest.None? then None else Some(done + rest.value)
  }

  lemma Start(fold: char -> char, cand: string, query: string)
    ensures Continues(fold, cand, query, [], 0, 0)
  {
    assert query[0..] == query;
    var all := Greedy(fold, cand, query, 0);
    assert all.Some? ==> [] + all.value == all.value;
  }

  lemma Skip(fold: char -> char, cand: string, query: string, done: seq<nat>, qi: nat, ci: nat)
    requires Continues(fold, cand, query, done, qi, ci) && qi < |query| && ci < |cand|
    requires fold(cand[ci]) != fold(query[qi])
    ensures Continues(fold, cand, query, done, qi, ci + 1)
  {
  }

  lemma Finish(fold: char -> char, cand: string, query: string, done: seq<nat>, qi: nat, ci: nat)
    requires Continues(fold, cand, query, done, qi, ci)
    ensures qi == |query| ==> Greedy(fold, cand, query, 0) == Some(done)
    ensures qi < |query| && ci >= |cand| ==> Greedy(fold, cand, query, 0) == None
  {
    assert done + [] == done;
  }

  lemma ScoreSnoc(cand: string, query: string, done: seq<nat>, at: nat)
    requires |done| < |query| && at < |cand| && forall i :: 0 <= i < |done| ==> done[i] < |cand|
    ensures ScoreOf(cand, query, done + [at])
         == ScoreOf(cand, query, done)
            + Points(cand, query[|done|], at, if done == [] then -2 else done[|done| - 1])
  {
    assert (done + [at])[..|done|] == done;
  }

  method FuzzyScore(fold: char -> char, candidate: string, query: string) returns (r: Option<FuzzyMatch>)
    ensures r == ScoreMatch(fold, candidate, query)
  {
    hide Greedy, Continues, ScoreOf, Points;
    if |query| == 0 {
      return None;
    }
    var positions: seq<nat> := [];
    var score, prev, ci := 0, -2, 0;
    Start(fold, candidate, query);
    ScoreNone(candidate, query);
    for qi := 0 to |query|
      invariant ci <= |candidate| && |positions| == qi
      invariant forall i :: 0 <= i < qi ==> positions[i] < |candidate|
      invariant prev == if qi == 0 then -2 else positions[qi - 1]
      invariant score == ScoreOf(candidate, query, positions)
      invariant Continues(fold, candidate, query, positions, qi, ci)
    {
      var matched := false;
      var ql := fold(query[qi]);
      while ci < |candidate| && !matched
        invariant ci <= |candidate|
        invariant |positions| == if matched then qi + 1 else qi
        invariant forall i :: 0 <= i < |positions| ==> positions[i] < |candidate|
        invariant prev == if positions == [] then -2 else positions[|positions| - 1]
        invariant score == ScoreOf(candidate, query, positions)
        invariant Continues(fold, candidate, query, positions, |positions|, ci)
        decreases |candidate| - ci
      {
        if fold(candidate[ci]) == ql {
          ScoreSnoc(candidate, query, positions, ci);
          Extend(fold, candidate, query, positions, qi, ci);
          score := score + Points(candidate, query[qi], ci, prev);
          positions := positions + [ci];
          prev := ci;
          matched := true;
        } else {
          Skip(fold, candidate, query, positions, qi, ci);
        }
        ci := ci + 1;
      }
      if !matched {
        Finish(fold, candidate, query, positions, qi, ci);
        return None;
      }
    }
    Finish(fold, candidate, query, positions, |query|, ci);
    r := Some(FuzzyMatch(score - LENGTH_PENALTY * |candidate|, positions));
  }

  lemma ScoreNone(cand: string, query: string)
    ensures ScoreOf(cand, query, []) == 0
  {
  }

  lemma Extend(fold: char -> char, cand: string, query: string, done: seq<nat>, qi: nat, ci: nat)
    requires Continues(fold, cand, query, done, qi, ci) && qi < |query| && ci < |cand|
    requires fold(cand[ci]) == fold(query[qi])
    ensures Continues(fold, cand, query, done + [ci], qi + 1, ci + 1)
  {
    assert query[qi..][1..] == query[qi + 1..];
    var rest := Greedy(fold, cand, query[qi + 1..], ci + 1);
    if rest.Some? {
      assert done + ([ci] + rest.value) == done + [ci] + rest.value;
    }
  }

  /** How many of the first n indices p picks. */
  function CountIf(n: nat, p: nat -> bool): nat {
    if n == 0 then 0 else CountIf(n - 1, p) + if p(n - 1) then 1 else 0
  }

  /** A matched rune starts the name, */
  function Starts(ps: seq<nat>): nat -> bool { (i: nat) => i < |ps| && ps[i] == 0 }

  /** follows the one matched before, */
  function Follows(ps: seq<nat>): nat -> bool { (i: nat) => 0 < i < |ps| && 0 < ps[i] == ps[i - 1] + 1 }

  /** comes right after a separator without following one, */
  function AfterSeparator(cand: string, ps: seq<nat>): nat -> bool {
    (i: nat) => i < |ps| && 0 < ps[i] <= |cand| && !Follows(ps)(i) && cand[ps[i] - 1] in {'/', '.', '-', '_', ' '}
  }

  /** or has the case asked for. */
  function ExactCase(cand: string, query: string, ps: seq<nat>): nat -> bool {
    (i: nat) => i < |ps| && i < |query| && ps[i] < |cand| && cand[ps[i]] == query[i]
  }

  function Bonus(b: bool, n: nat): nat { if b then n else 0 }

  /** Increasing positions in the name, for no more runes than the query has. */
  predicate Ascending(cand: string, query: string, ps: seq<nat>) {
    && |ps| <= |query| && (forall i :: 0 <= i < |ps| ==> ps[i] < |cand|)
    && forall i, j :: 0 <= i < j < |ps| ==> ps[i] < ps[j]
  }

  lemma PointsWeighted(cand: string, query: string, ps: seq<nat>, k: nat)
    requires k < |ps| && Ascending(cand, query, ps)
    ensures Points(cand, query[k], ps[k], if k == 0 then -2 else ps[k - 1])
         == 16 + Bonus(Starts(ps)(k), 16) + Bonus(Follows(ps)(k), 8)
            + Bonus(AfterSeparator(cand, ps)(k), 8) + Bonus(ExactCase(cand, query, ps)(k), 2)
  {
  }

  /** What the first n matched runes are worth, with the weights written out. */
  function Weighted(cand: string, query: string, ps: seq<nat>, n: nat): int {
    16 * n + 16 * CountIf(n, Starts(ps)) + 8 * CountIf(n, Follows(ps))
    + 8 * CountIf(n, AfterSeparator(cand, ps)) + 2 * CountIf(n, ExactCase(cand, query, ps))
  }

  lemma {:induction false} ScoreIsWeighted(cand: string, query: string, ps: seq<nat>, n: nat)
    requires n <= |ps| && Ascending(cand, query, ps)
    ensures ScoreOf(cand, query, ps[..n]) == Weighted(cand, query, ps, n)
  {
    hide *;
    if n == 0 {
      assert ps[..0] == [];
      ScoreNone(cand, query);
      NothingWeighted(cand, query, ps);
    } else {
      ScoreIsWeighted(cand, query, ps, n - 1);
      WeightedStep(cand, query, ps, n - 1);
    }
  }

  lemma NothingWeighted(cand: string, query: string, ps: seq<nat>)
    ensures Weighted(cand, query, ps, 0) == 0
  {
    hide Starts, Follows, AfterSeparator, ExactCase;
  }

  lemma CountStep(n: nat, p: nat -> bool)
    ensures CountIf(n + 1, p) == CountIf(n, p) + Bonus(p(n), 1)
  {
  }

  lemma WeightedStep(cand: string, query: string, ps: seq<nat>, k: nat)
    requires k < |ps| && Ascending(cand, query, ps)
    ensures ScoreOf(cand, query, ps[..k + 1]) - ScoreOf(cand, query, ps[..k])
         == Weighted(cand, query, ps, k + 1) - Weighted(cand, query, ps, k)
  {
    assert ps[..k + 1] == ps[..k] + [ps[k]];
    hide ScoreOf, Points, Starts, Follows, AfterSeparator, ExactCase, CountIf;
    ScoreSnoc(cand, query, ps[..k], ps[k]);
    PointsWeighted(cand, query, ps, k);
    CountStep(k, Starts(ps));
    CountStep(k, Follows(ps));
    CountStep(k, AfterSeparator(cand, ps));
    CountStep(k, ExactCase(cand, query, ps));
  }

  /** So much for the matched runes, less one for each rune of the name. */
  lemma MatchIsWeighted(fold: char -> char, cand: string, query: string)
    requires ScoreMatch(fold, cand, query).Some?
    ensures var m, n := ScoreMatch(fold, cand, query).value, |query|;
      m.score == 16 * n + 16 * CountIf(n, Starts(m.positions)) + 8 * CountIf(n, Follows(m.positions))
                 + 8 * CountIf(n, AfterSeparator(cand, m.positions))
                 + 2 * CountIf(n, ExactCase(cand, query, m.positions)) - |cand|
  {
    GreedySpells(fold, cand, query, 0);
    var ps := Greedy(fold, cand, query, 0).value;
    ScoreIsWeighted(cand, query, ps, |query|);
    assert ps[..|query|] == ps;
    hide ScoreOf, CountIf, Greedy;
  }

  // The SQL prefilter.

  function AsciiLower(c: char): (r: char)
    ensures r as int == if 65 <= c as int <= 90 then c as int + 32 else c as int
  {
    if 'A' <= c <= 'Z' then c - 'A' + 'a' else c
  }

  /** SQLite's LIKE with ESCAPE '\', which ignores ASCII case. */
  predicate Like(pattern: string, s: string)
    decreases |pattern| + |s|
  {
    if pattern == "" then s == ""
    else if pattern[0] == '\\' then
      |pattern| > 1 && s != "" && AsciiLower(pattern[1]) == AsciiLower(s[0]) && Like(pattern[2..], s[1..])
    else if pattern[0] == '%' then
      Like(pattern[1..], s) || (s != "" && Like(pattern, s[1..]))
    else if pattern[0] == '_' then
      s != "" && Like(pattern[1..], s[1..])
    else
      s != "" && AsciiLower(pattern[0]) == AsciiLower(s[0]) && Like(pattern[1..], s[1..])
  }

  function EscapeLike(c: char): string {
    if c in {'%', '_', '\\'} then ['\\', c] else [c]
  }

  function LikeTail(q: string): string {
    if q == "" then "" else LikeTail(q[..|q| - 1]) + EscapeLike(q[|q| - 1]) + "%"
  }

  method LikeSubsequence(q: string) returns (pattern: string)
    ensures pattern == "%" + LikeTail(q)
  {
    pattern := "%";
    assert q[..0] == "" && "%" + "" == "%";
    for i := 0 to |q|
      invariant pattern == "%" + LikeTail(q[..i])
    {
      if q[i] in {'%', '_', '\\'} {
        pattern := pattern + ['\\'];
      }
      pattern := pattern + [q[i]];
      pattern := pattern + "%";
      assert q[..i + 1][..i] == q[..i];
      assert pattern == "%" + (LikeTail(q[..i]) + EscapeLike(q[i]) + "%");
    }
    assert q[..|q|] == q;
  }

  predicate Subsequence(fold: char -> char, q: string, s: string) {
    q == "" || (s != "" && ((fold(q[0]) == fold(s[0]) && Subsequence(fold, q[1..], s[1..]))
                            || Subsequence(fold, q, s[1..])))
  }

  lemma LikeTailSnoc(q: string, c: char)
    ensures LikeTail(q + [c]) == LikeTail(q) + EscapeLike(c) + "%"
    ensures LikeTail("") == ""
  {
    assert (q + [c])[..|q|] == q;
  }

  lemma {:induction false} LikeTailHead(q: string)
    requires q != ""
    ensures LikeTail(q) == EscapeLike(q[0]) + "%" + LikeTail(q[1..])
  {
    hide LikeTail, EscapeLike;
    var init, c := q[..|q| - 1], q[|q| - 1];
    assert q == init + [c];
    LikeTailSnoc(init, c);
    if |q| == 1 {
      assert init == "" && q[1..] == "";
      assert "" + EscapeLike(c) + "%" + "" == EscapeLike(c) + "%";
    } else {
      LikeTailHead(init);
      assert q[1..] == init[1..] + [c];
      LikeTailSnoc(init[1..], c);
      LikeAssoc(EscapeLike(q[0]) + "%", LikeTail(init[1..]), EscapeLike(c), "%");
    }
  }

  lemma LikeAssoc(a: string, b: string, c: string, d: string)
    ensures a + b + c + d == a + (b + c + d)
  {
  }

  lemma {:induction false} LikeIsSubsequence(q: string, s: string)
    ensures Like("%" + LikeTail(q), s) <==> Subsequence(AsciiLower, q, s)
    decreases |q| + |s|
  {
    var tail := LikeTail(q);
    assert ("%" + tail)[1..] == tail;
    if q == "" {
      if s != "" {
        LikeIsSubsequence(q, s[1..]);
      }
    } else {
      LikeTailHead(q);
      var rest := "%" + LikeTail(q[1..]);
      assert tail == EscapeLike(q[0]) + rest;
      if s != "" {
        assert tail[|EscapeLike(q[0])|..] == rest;
        LikeIsSubsequence(q[1..], s[1..]);
        LikeIsSubsequence(q, s[1..]);
      }
    }
  }

  lemma {:induction false} GreedyIsSubsequence(fold: char -> char, cand: string, query: string, ci: nat)
    requires ci <= |cand|
    ensures Greedy(fold, cand, query, ci).Some? <==> Subsequence(fold, query, cand[ci..])
    decreases |cand| - ci, |query|
  {
    if query != "" && ci < |cand| {
      assert cand[ci..][1..] == cand[ci + 1..];
      GreedyIsSubsequence(fold, cand, query, ci + 1);
      GreedyIsSubsequence(fold, cand, query[1..], ci + 1);
      if Subsequence(fold, query, cand[ci + 1..]) {
        DropFirst(fold, query, cand[ci + 1..]);
      }
    }
  }

  lemma {:induction false} DropFirst(fold: char -> char, q: string, s: string)
    requires q != "" && Subsequence(fold, q, s)
    ensures Subsequence(fold, q[1..], s)
  {
    if fold(q[0]) == fold(s[0]) && Subsequence(fold, q[1..], s[1..]) {
    } else {
      DropFirst(fold, q, s[1..]);
    }
  }

  /** No folded character is an upper-case ASCII letter. */
  ghost predicate LowersAscii(fold: char -> char) {
    forall c :: !('A' <= fold(c) <= 'Z')
  }

  lemma {:induction false} FoldedSubsequence(fold: char -> char, q: string, s: string)
    requires LowersAscii(fold)
    ensures Subsequence(AsciiLower, Lower(fold, q), Lower(fold, s)) <==> Subsequence(fold, q, s)
  {
    if q != "" && s != "" {
      assert Lower(fold, q)[1..] == Lower(fold, q[1..]);
      assert Lower(fold, s)[1..] == Lower(fold, s[1..]);
      FoldedSubsequence(fold, q[1..], s[1..]);
      FoldedSubsequence(fold, q, s[1..]);
    }
  }

  /** The prefilter and the scorer accept the same names. */
  lemma PrefilterAgrees(fold: char -> char, name: string, query: string)
    requires LowersAscii(fold) && query != ""
    ensures Like("%" + LikeTail(Lower(fold, query)), Lower(fold, name))
       <==> ScoreMatch(fold, name, query).Some?
    ensures ScoreMatch(fold, name, query).Some? <==> Subsequence(fold, query, name)
  {
    LikeIsSubsequence(Lower(fold, query), Lower(fold, name));
    FoldedSubsequence(fold, query, name);
    GreedyIsSubsequence(fold, name, query, 0);
    assert name[0..] == name;
  }

  /** strings.TrimSpace leaves nothing. */
  predicate Blank(space: char -> bool, q: string) {
    forall i :: 0 <= i < |q| ==> space(q[i])
  }

  // Ranking.

  datatype FuzzyRank = FuzzyRank(entry: Entry, score: int)

  predicate BetterFuzzy(a: FuzzyRank, b: FuzzyRank) {
    if a.score != b.score then a.score > b.score
    else if |a.entry.name| != |b.entry.name| then |a.entry.name| < |b.entry.name|
    else StrLess(a.entry.path, b.entry.path)
  }

  lemma BetterFuzzyIsStrictWeak()
    ensures StrictWeakOrder(BetterFuzzy)
  {
    StrLessIsStrictWeak();
  }

  /** Two distinct paths never tie, so the ranking is deterministic. */
  lemma RankTiesOnPath(a: FuzzyRank, b: FuzzyRank)
    requires !BetterFuzzy(a, b) && !BetterFuzzy(b, a)
    ensures a.entry.path == b.entry.path
  {
    StrLessTrichotomy(a.entry.path, b.entry.path);
  }

  function Take<T>(s: seq<T>, n: nat): seq<T> { if |s| <= n then s else s[..n] }

  /** sort.Search for the first entry r outranks. */
  method SearchPlace(top: seq<FuzzyRank>, r: FuzzyRank) returns (i: nat)
    requires Sorted(BetterFuzzy, top)
    ensures i == Place(BetterFuzzy, r, top)
  {
    BetterFuzzyIsStrictWeak();
    PlaceIsMonotone(BetterFuzzy, r, top);
    var j := |top|;
    i := 0;
    while i < j
      invariant i <= Place(BetterFuzzy, r, top) <= j <= |top|
    {
      var h := (i + j) / 2;
      if !BetterFuzzy(r, top[h]) {
        i := h + 1;
      } else {
        j := h;
      }
    }
  }

  method InsertTopN(top: seq<FuzzyRank>, r: FuzzyRank, limit: nat) returns (out: seq<FuzzyRank>)
    requires 1 <= limit && |top| <= limit && Sorted(BetterFuzzy, top)
    ensures out == Take(Insert(BetterFuzzy, r, top), limit)
  {
    BetterFuzzyIsStrictWeak();
    PlaceIsMonotone(BetterFuzzy, r, top);
    if |top| >= limit && !BetterFuzzy(r, top[|top| - 1]) {
      return top;
    }
    var i := SearchPlace(top, r);
    if |top| < limit {
      return top[..i] + [r] + top[i..];
    }
    out := top[..i] + [r] + top[i..|top| - 1];
  }

  lemma CutInserted<T>(s: seq<T>, r: T, k: nat, limit: nat)
    requires limit < |s| && k <= |s|
    ensures (s[..k] + [r] + s[k..])[..limit]
         == if k < limit then (s[..limit][..k] + [r] + s[..limit][k..])[..limit] else s[..limit]
  {
  }

  /** Dropping what falls off the end early never changes the first `limit`. */
  lemma TopNStep<T(!new)>(lt: (T, T) -> bool, s: seq<T>, r: T, limit: nat)
    requires StrictWeakOrder(lt) && Sorted(lt, s)
    ensures Take(Insert(lt, r, Take(s, limit)), limit) == Take(Insert(lt, r, s), limit)
  {
    if |s| > limit {
      PlaceIsMonotone(lt, r, s);
      PlaceIsMonotone(lt, r, s[..limit]);
      hide Place, StrictWeakOrder, Sorted;
      var k, k' := Place(lt, r, s), Place(lt, r, s[..limit]);
      if k < limit {
        assert lt(r, s[..limit][k]);
        assert k == k';
      } else {
        assert forall i :: 0 <= i < limit ==> s[..limit][i] == s[i];
        assert (s[..limit] + [r] + s[..limit][limit..])[..limit] == s[..limit];
      }
      CutInserted(s, r, k, limit);
    }
  }

  lemma TopNSnoc(ranks: seq<FuzzyRank>, r: FuzzyRank, limit: nat)
    ensures Sorted(BetterFuzzy, Take(StableSort(BetterFuzzy, ranks), limit))
    ensures Take(Insert(BetterFuzzy, r, Take(StableSort(BetterFuzzy, ranks), limit)), limit)
         == Take(StableSort(BetterFuzzy, ranks + [r]), limit)
  {
    BetterFuzzyIsStrictWeak();
    StableSortSorts(BetterFuzzy, ranks);
    TopNStep(BetterFuzzy, StableSort(BetterFuzzy, ranks), r, limit);
    assert (ranks + [r])[..|ranks|] == ranks;
  }

  /** The stream kept to its best `limit` entries is the stable sort's prefix. */
  method StreamTopN(ranks: seq<FuzzyRank>, limit: nat) returns (top: seq<FuzzyRank>)
    requires limit >= 1
    ensures top == Take(StableSort(BetterFuzzy, ranks), limit)
  {
    top := [];
    for i := 0 to |ranks|
      invariant top == Take(StableSort(BetterFuzzy, ranks[..i]), limit)
    {
      TopNSnoc(ranks[..i], ranks[i], limit);
      assert ranks[..i + 1] == ranks[..i] + [ranks[i]];
      top := InsertTopN(top, ranks[i], limit);
    }
    assert ranks[..|ranks|] == ranks;
  }

  /** The entries whose name the scorer accepts, in their order, scored. */
  function Ranks(fold: char -> char, entries: seq<Entry>, query: string): seq<FuzzyRank> {
    if entries == [] then []
    else
      var e := entries[|entries| - 1];
      var m := ScoreMatch(fold, e.name, query);
      Ranks(fold, entries[..|entries| - 1], query) + if m.None? then [] else [FuzzyRank(e, m.value.score)]
  }

  function EntryOfRank(r: FuzzyRank): Entry { r.entry }

  /** Both names match, and a's match is worth at least b's; with equal worth its
      name is no longer, and with equal length its path is not greater. */
  ghost predicate NoWorse(fold: char -> char, query: string, a: Entry, b: Entry) {
    var s, t := ScoreMatch(fold, a.name, query), ScoreMatch(fold, b.name, query);
    && s.Some? && t.Some? && s.value.score >= t.value.score
    && (s.value.score == t.value.score ==> |a.name| <= |b.name|)
    && (s.value.score == t.value.score && |a.name| == |b.name| ==> !StrLess(b.path, a.path))
  }

  /** Best first, and a match is left out only for a full list of no worse ones. */
  ghost predicate BestMatches(fold: char -> char, query: string, entries: seq<Entry>, limit: nat, rows: seq<Entry>) {
    && |rows| <= limit
    && (forall i, j :: 0 <= i < j < |rows| ==> NoWorse(fold, query, rows[i], rows[j]))
    && (forall e :: e in rows ==> e in entries && ScoreMatch(fold, e.name, query).Some?)
    && (forall e :: e in entries && ScoreMatch(fold, e.name, query).Some? ==>
          e in rows || (|rows| == limit && forall r :: r in rows ==> NoWorse(fold, query, r, e)))
  }

  /** A rank with the score of its entry's name. */
  ghost predicate Scored(fold: char -> char, query: string, r: FuzzyRank) {
    var m := ScoreMatch(fold, r.entry.name, query); m.Some? && r.score == m.value.score
  }

  lemma {:induction false} RanksMembers(fold: char -> char, entries: seq<Entry>, query: string)
    ensures forall r :: r in Ranks(fold, entries, query) ==> Scored(fold, query, r) && r.entry in entries
    ensures forall e :: e in entries && ScoreMatch(fold, e.name, query).Some? ==>
              exists r :: r in Ranks(fold, entries, query) && r.entry == e
  {
    hide ScoreMatch;
    if entries != [] {
      var init, e := entries[..|entries| - 1], entries[|entries| - 1];
      RanksMembers(fold, init, query);
      assert entries == init + [e];
      var m := ScoreMatch(fold, e.name, query);
      if m.Some? {
        assert FuzzyRank(e, m.value.score) in Ranks(fold, entries, query);
      }
    }
  }

  lemma RankedNoWorse(fold: char -> char, query: string, r: FuzzyRank, s: FuzzyRank)
    requires Scored(fold, query, r) && Scored(fold, query, s) && !BetterFuzzy(s, r)
    ensures NoWorse(fold, query, r.entry, s.entry)
  {
    hide ScoreMatch, StrLess;
  }

  lemma SortedNoWorse(fold: char -> char, query: string, sorted: seq<FuzzyRank>)
    requires Sorted(BetterFuzzy, sorted) && forall r :: r in sorted ==> Scored(fold, query, r)
    ensures forall i, j :: 0 <= i < j < |sorted| ==> NoWorse(fold, query, sorted[i].entry, sorted[j].entry)
  {
    hide BetterFuzzy, NoWorse, Scored;
    forall i, j | 0 <= i < j < |sorted| ensures NoWorse(fold, query, sorted[i].entry, sorted[j].entry) {
      RankedNoWorse(fold, query, sorted[i], sorted[j]);
    }
  }

  lemma TopOfSorted(fold: char -> char, entries: seq<Entry>, query: string, limit: nat, sorted: seq<FuzzyRank>)
    requires forall i, j :: 0 <= i < j < |sorted| ==> NoWorse(fold, query, sorted[i].entry, sorted[j].entry)
    requires forall r :: r in sorted ==> Scored(fold, query, r) && r.entry in entries
    requires forall e :: e in entries && ScoreMatch(fold, e.name, query).Some? ==>
               exists k :: 0 <= k < |sorted| && sorted[k].entry == e
    ensures BestMatches(fold, query, entries, limit, Map(EntryOfRank, Take(sorted, limit)))
  {
    hide ScoreMatch, NoWorse;
    var rows := Map(EntryOfRank, Take(sorted, limit));
    assert forall i :: 0 <= i < |rows| ==> rows[i] == sorted[i].entry;
    forall e | e in rows ensures e in entries && ScoreMatch(fold, e.name, query).Some? {
      var i :| 0 <= i < |rows| && rows[i] == e;
      assert sorted[i] in sorted;
    }
    forall e | e in entries && ScoreMatch(fold, e.name, query).Some? && e !in rows
      ensures |rows| == limit && forall r :: r in rows ==> NoWorse(fold, query, r, e)
    {
      var k :| 0 <= k < |sorted| && sorted[k].entry == e;
      assert forall i :: 0 <= i < |rows| ==> rows[i] in rows;
    }
  }

  /** The first `limit` of the stable sort are the best matches. */
  lemma TopIsBest(fold: char -> char, entries: seq<Entry>, query: string, limit: nat)
    ensures BestMatches(fold, query, entries, limit,
                        Map(EntryOfRank, Take(StableSort(BetterFuzzy, Ranks(fold, entries, query)), limit)))
  {
    var ranks := Ranks(fold, entries, query);
    var sorted := StableSort(BetterFuzzy, ranks);
    BetterFuzzyIsStrictWeak();
    StableSortSorts(BetterFuzzy, ranks);
    RanksMembers(fold, entries, query);
    hide BetterFuzzy, StableSort, Ranks, ScoreMatch, NoWorse, Sorted, StrictWeakOrder, BestMatches, Scored;
    forall r ensures r in sorted <==> r in ranks {
      assert r in multiset(sorted) <==> r in multiset(ranks);
    }
    SortedNoWorse(fold, query, sorted);
    forall e | e in entries && ScoreMatch(fold, e.name, query).Some?
      ensures exists k :: 0 <= k < |sorted| && sorted[k].entry == e
    {
      var r :| r in ranks && r.entry == e;
      var k :| 0 <= k < |sorted| && sorted[k] == r;
    }
    TopOfSorted(fold, entries, query, limit, sorted);
  }

  lemma {:induction false} RanksAtMost(fold: char -> char, entries: seq<Entry>, query: string)
    ensures |Ranks(fold, entries, query)| <= |entries|
  {
    hide ScoreMatch;
    if entries != [] {
      RanksAtMost(fold, entries[..|entries| - 1], query);
    }
  }

  lemma AllRanked(fold: char -> char, entries: seq<Entry>, query: string)
    ensures var sorted := StableSort(BetterFuzzy, Ranks(fold, entries, query));
            |sorted| <= |entries| && Take(sorted, |entries|) == sorted
  {
    var ranks := Ranks(fold, entries, query);
    BetterFuzzyIsStrictWeak();
    StableSortSorts(BetterFuzzy, ranks);
    RanksAtMost(fold, entries, query);
    hide BetterFuzzy, Ranks, StableSort;
    assert |StableSort(BetterFuzzy, ranks)| == |multiset(StableSort(BetterFuzzy, ranks))| == |ranks|;
  }

  method ScoreEntries(fold: char -> char, entries: seq<Entry>, query: string) returns (ranks: seq<FuzzyRank>)
    ensures ranks == Ranks(fold, entries, query)
  {
    hide ScoreMatch;
    ranks := [];
    for i := 0 to |entries|
      invariant ranks == Ranks(fold, entries[..i], query)
    {
      var m := FuzzyScore(fold, entries[i].name, query);
      assert entries[..i + 1][..i] == entries[..i];
      if m.Some? {
        ranks := ranks + [FuzzyRank(entries[i], m.value.score)];
      }
    }
    assert entries[..|entries|] == entries;
  }

  /** The in-memory ranking: sort everything, then cut. */
  method RankFuzzy(fold: char -> char, space: char -> bool, entries: seq<Entry>, query: string, limit: int)
    returns (out: seq<Entry>)
    ensures Blank(space, query) ==> out == []
    ensures !Blank(space, query) ==>
              var sorted := StableSort(BetterFuzzy, Ranks(fold, entries, query));
              out == Map(EntryOfRank, if limit > 0 then Take(sorted, limit) else sorted)
    ensures !Blank(space, query) ==>
              BestMatches(fold, query, entries, if limit > 0 then limit else |entries|, out)
  {
    TopIsBest(fold, entries, query, if limit > 0 then limit else |entries|);
    AllRanked(fold, entries, query);
    hide ScoreMatch, StableSort, BestMatches, BetterFuzzy, Ranks, Blank;
    if Blank(space, query) {
      return [];
    }
    var ranks := ScoreEntries(fold, entries, query);
    ranks := StableSort(BetterFuzzy, ranks);
    if limit > 0 && |ranks| > limit {
      ranks := ranks[..limit];
    }
    out := [];
    for i := 0 to |ranks|
      invariant |out| == i && forall j :: 0 <= j < i ==> out[j] == EntryOfRank(ranks[j])
    {
      out := out + [ranks[i].entry];
    }
    assert out == Map(EntryOfRank, ranks);
  }
}
