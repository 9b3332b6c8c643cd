/** What restic is asked for and what it restores (internal/app/extract.go,
    internal/resticx/extract_tree.go): the request rebased onto the source's
    parent, delivered as patterns, and matched against the snapshot. */
module ExtractRestore {
  import opened Paths
  import opened Sorting
  import opened Wrappers
  import opened ExtractPlan
  import IncludeArgs
  import N = Normalize

  // Rebasing.

  function TrimPrefix(s: string, prefix: string): string { if prefix <= s then s[|prefix|..] else s }

  function ExtractTreeParams(req: Request, staging: string): IncludeArgs.Params {
    var src := CleanBrowsePath(req.source);
    if src == [] then IncludeArgs.Params(req.snapshotId, "", staging, req.includePaths, false)
    else
      var base := "/" + Base(src);
      IncludeArgs.Params(
        req.snapshotId, Render(Parent(src)), staging,
        if req.includePaths == [] then [base]
        else
          seq(|req.includePaths|, i requires 0 <= i < |req.includePaths| =>
            base + TrimPrefix(req.includePaths[i], req.source)),
        false)
  }

  /** Rebasing a path string is replacing the source's path by its last element. */
  lemma RebaseExact(src: Path, inc: Path)
    requires src != [] && Under(src, inc)
    ensures "/" + Base(src) + TrimPrefix(Render(inc), Render(src)) == Render([Base(src)] + inc[|src|..])
  {
    var rest := inc[|src|..];
    assert inc == src + rest;
    RenderTailConcat(src, rest);
    assert Render(inc)[|Render(src)|..] == RenderTail(rest);
    assert ([Base(src)] + rest)[1..] == rest;
    assert RenderTail([Base(src)] + rest) == "/" + Base(src) + RenderTail(rest);
  }

  lemma SourceParts(req: Request, cfgRoot: string)
    requires Rejected(cfgRoot, req).None?
    ensures var src := CleanBrowsePath(req.source);
            req.source == Render(src) && NUL !in req.source
            && (src != [] ==> NUL !in Base(src) && NUL !in Render(Parent(src)))
  {
    hide SlugOf, IncludesOk, CleanBrowsePath, WantName;
    var src := CleanBrowsePath(req.source);
    if src != [] {
      RenderTailSnoc(Parent(src), Base(src));
      assert src == Parent(src) + [Base(src)];
      NoNulParts(RenderTail(Parent(src)), Base(src));
    }
  }

  lemma NoNulParts(a: string, b: string)
    requires NUL !in a + "/" + b
    ensures NUL !in a && NUL !in b
  {
    forall i | 0 <= i < |a| ensures a[i] != NUL {
      assert a[i] == (a + "/" + b)[i];
    }
    forall i | 0 <= i < |b| ensures b[i] != NUL {
      assert b[i] == (a + "/" + b)[|a| + 1 + i];
    }
  }

  lemma IncludeParts(req: Request, cfgRoot: string, i: nat)
    requires Rejected(cfgRoot, req).None? && i < |req.includePaths|
    ensures var src, inc := CleanBrowsePath(req.source), CleanBrowsePath(req.includePaths[i]);
            inc != [] && Under(src, inc) && req.includePaths[i] == Render(inc) && NUL !in req.includePaths[i]
  {
    hide SlugOf, CleanBrowsePath, WantName, UnderBytes;
    assert IncludeOk(req.source, req.includePaths[i]);
    UnderBytesExact(CleanBrowsePath(req.source), CleanBrowsePath(req.includePaths[i]));
  }

  /** The paths that the rebased includes name, below the rebased source. */
  function RebasedPath(src: Path, inc: Path): Path
    requires Under(src, inc)
  {
    if src == [] then inc else [Base(src)] + inc[|src|..]
  }

  lemma RebasedString(req: Request, cfgRoot: string, i: nat)
    requires Rejected(cfgRoot, req).None? && i < |req.includePaths|
    ensures var src, inc := CleanBrowsePath(req.source), CleanBrowsePath(req.includePaths[i]);
      && Under(src, inc) && inc != []
      && ExtractTreeParams(req, "").includePaths[i] == Render(RebasedPath(src, inc))
      && NUL !in Render(RebasedPath(src, inc))
  {
    IncludeParts(req, cfgRoot, i);
    SourceParts(req, cfgRoot);
    hide CleanBrowsePath, Rejected, Render;
    var src, inc := CleanBrowsePath(req.source), CleanBrowsePath(req.includePaths[i]);
    if src != [] {
      RebaseExact(src, inc);
      NoNulTail(req.includePaths[i], req.source);
      assert NUL !in "/" + Base(src) + TrimPrefix(req.includePaths[i], req.source);
    }
  }

  lemma NoNulTail(s: string, prefix: string)
    requires NUL !in s
    ensures NUL !in TrimPrefix(s, prefix)
  {
  }

  lemma RenderedIsClean(p: Path)
    requires p != [] && NUL !in Render(p)
    ensures IncludeArgs.IncludeClean(Render(p))
  {
    CleanUndoesRender(p);
    RenderInjective(p, []);
  }

  /** Whatever planning accepts, restic's argument checks accept rebased. */
  lemma ParamsAreValid(req: Request, cfgRoot: string, staging: string)
    requires Rejected(cfgRoot, req).None? && IsAbs(staging)
    ensures IncludeArgs.Invalid(ExtractTreeParams(req, staging)).None?
  {
    var p, src := ExtractTreeParams(req, staging), CleanBrowsePath(req.source);
    SourceParts(req, cfgRoot);
    assert Hex(req.snapshotId, 64);
    if src != [] {
      CleanUndoesRender(Parent(src));
    }
    hide CleanBrowsePath, Rejected, Render, IncludeArgs.IncludeClean;
    forall i | 0 <= i < |p.includePaths| ensures IncludeArgs.IncludeClean(p.includePaths[i]) {
      if req.includePaths == [] {
        BaseInclude(src);
        RenderedIsClean([Base(src)]);
      } else {
        RebasedString(req, cfgRoot, i);
        RenderedIsClean(RebasedPath(src, CleanBrowsePath(req.includePaths[i])));
      }
    }
  }

  lemma BaseInclude(src: Path)
    requires src != []
    ensures "/" + Base(src) == Render([Base(src)])
    ensures NUL !in Base(src) ==> NUL !in Render([Base(src)])
  {
    assert RenderTail([Base(src)][1..]) == "";
    assert "/" + Base(src) + "" == "/" + Base(src);
  }

  // What restic restores into staging.

  const PRIVATE_MODE := N.Mode(true, true, true, 0)

  /** An include selects its path, what lies below it, and, when it exists, the
      directories above it. */
  predicate Wanted(snap: N.Tree, from: Path, incs: seq<Path>, q: Path) {
    incs == [] || exists i :: 0 <= i < |incs| && (Under(incs[i], q) || (Under(q, incs[i]) && from + incs[i] in snap))
  }

  /** The tree below `from`, filtered, in a fresh private directory. */
  function Restored(snap: N.Tree, from: Path, incs: seq<Path>): N.Tree {
    (map q | q in (set p | p in snap && Below(from, p) && Wanted(snap, from, incs, p[|from|..]) :: p[|from|..])
             && from + q in snap :: snap[from + q])
    [[] := N.DirNode(PRIVATE_MODE)]
  }

  lemma RestoredAt(snap: N.Tree, from: Path, incs: seq<Path>, q: Path)
    requires q != []
    ensures q in Restored(snap, from, incs) <==> from + q in snap && Wanted(snap, from, incs, q)
    ensures q in Restored(snap, from, incs) ==> Restored(snap, from, incs)[q] == snap[from + q]
  {
    hide Wanted;
    assert (from + q)[|from|..] == q && Below(from, from + q);
    if q in Restored(snap, from, incs) {
      var p :| p in snap && Below(from, p) && Wanted(snap, from, incs, p[|from|..]) && p[|from|..] == q;
      assert p == from + q;
    }
  }

  function SourceOf(req: Request): Path { CleanBrowsePath(req.source) }

  function IncludesOf(req: Request): seq<Path> {
    seq(|req.includePaths|, i requires 0 <= i < |req.includePaths| => CleanBrowsePath(req.includePaths[i]))
  }

  /** The snapshot paths that the request asks for. */
  predicate Selected(req: Request, snap: N.Tree, p: Path) {
    p in snap && Under(SourceOf(req), p) && Wanted(snap, [], IncludesOf(req), p)
  }

  function ParamIncludes(p: IncludeArgs.Params): seq<Path> {
    seq(|p.includePaths|, i requires 0 <= i < |p.includePaths| => CleanBrowsePath(p.includePaths[i]))
  }

  /** What restic is asked for, read back from the strings it is given. */
  function RestoredFor(req: Request, snap: N.Tree): N.Tree {
    var p := ExtractTreeParams(req, "");
    Restored(snap, if p.source == "" then [] else CleanBrowsePath(p.source), ParamIncludes(p))
  }

  lemma SuffixOrder(src: Path, a: Path, b: Path)
    requires Under(src, a) && Under(src, b)
    ensures Under(RebasedPath(src, a), RebasedPath(src, b)) <==> Under(a, b)
  {
    assert a == src + a[|src|..] && b == src + b[|src|..];
    if src != [] {
      var x, y := [Base(src)] + a[|src|..], [Base(src)] + b[|src|..];
      if Under(x, y) {
        assert a[|src|..] == x[1..] && b[|src|..] == y[1..];
      }
      if Under(a, b) {
        assert b[..|a|] == a;
      }
    }
  }

  lemma RebasedIncludes(req: Request, cfgRoot: string)
    requires Rejected(cfgRoot, req).None?
    ensures var p, src := ExtractTreeParams(req, ""), SourceOf(req);
      && (if src == [] then p.source == "" else p.source != "" && CleanBrowsePath(p.source) == Parent(src))
      && (src != [] && req.includePaths == [] ==>
            |p.includePaths| == 1 && CleanBrowsePath(p.includePaths[0]) == [Base(src)])
      && (src == [] || req.includePaths != [] ==> |p.includePaths| == |req.includePaths|)
      && forall i :: 0 <= i < |req.includePaths| ==>
           Under(src, IncludesOf(req)[i]) && CleanBrowsePath(p.includePaths[i]) == RebasedPath(src, IncludesOf(req)[i])
  {
    var p, src := ExtractTreeParams(req, ""), SourceOf(req);
    if src != [] {
      CleanUndoesRender(Parent(src));
      BaseInclude(src);
      CleanUndoesRender([Base(src)]);
    }
    hide CleanBrowsePath, Rejected, Render;
    forall i | 0 <= i < |req.includePaths|
      ensures Under(src, IncludesOf(req)[i])
      ensures CleanBrowsePath(p.includePaths[i]) == RebasedPath(src, IncludesOf(req)[i])
    {
      RebasedString(req, cfgRoot, i);
      CleanUndoesRender(RebasedPath(src, IncludesOf(req)[i]));
    }
  }

  /** Rebased includes want exactly the rebased paths. */
  lemma WantedRebased(req: Request, cfgRoot: string, snap: N.Tree, p: Path)
    requires Rejected(cfgRoot, req).None? && Under(SourceOf(req), p)
    ensures var src, prm := SourceOf(req), ExtractTreeParams(req, "");
            Wanted(snap, if src == [] then [] else Parent(src), ParamIncludes(prm), RebasedPath(src, p))
            <==> Wanted(snap, [], IncludesOf(req), p)
  {
    hide CleanBrowsePath, Rejected, ExtractTreeParams;
    var src, prm := SourceOf(req), ExtractTreeParams(req, "");
    var from := if src == [] then [] else Parent(src);
    var incs, rebased := IncludesOf(req), ParamIncludes(prm);
    RebasedIncludes(req, cfgRoot);
    if incs == [] {
      if src != [] {
        assert rebased[0] == [Base(src)] && Under(rebased[0], RebasedPath(src, p));
      }
    } else {
      forall i | 0 <= i < |incs|
        ensures Under(src, incs[i]) && rebased[i] == RebasedPath(src, incs[i])
        ensures Under(rebased[i], RebasedPath(src, p)) <==> Under(incs[i], p)
        ensures Under(RebasedPath(src, p), rebased[i]) <==> Under(p, incs[i])
        ensures from + rebased[i] == [] + incs[i]
      {
        SuffixOrder(src, incs[i], p);
        SuffixOrder(src, p, incs[i]);
        RebasedWhole(src, incs[i]);
      }
      assert |rebased| == |incs|;
    }
  }

  lemma RebasedWhole(src: Path, p: Path)
    requires Under(src, p)
    ensures (if src == [] then [] else Parent(src)) + RebasedPath(src, p) == p
  {
    if src != [] {
      assert p == src + p[|src|..] && src == Parent(src) + [Base(src)];
      assert Parent(src) + ([Base(src)] + p[|src|..]) == Parent(src) + [Base(src)] + p[|src|..];
    }
  }

  /** Staging holds each selected path at its rebased place, unchanged, and
      nothing else below the source's place. */
  lemma StagingMirrors(req: Request, cfgRoot: string, snap: N.Tree, p: Path)
    requires Rejected(cfgRoot, req).None? && Under(SourceOf(req), p) && RebasedPath(SourceOf(req), p) != []
    ensures RebasedPath(SourceOf(req), p) in RestoredFor(req, snap) <==> Selected(req, snap, p)
    ensures Selected(req, snap, p) ==> RestoredFor(req, snap)[RebasedPath(SourceOf(req), p)] == snap[p]
  {
    var src, prm := SourceOf(req), ExtractTreeParams(req, "");
    RebasedIncludes(req, cfgRoot);
    WantedRebased(req, cfgRoot, snap, p);
    RebasedWhole(src, p);
    hide CleanBrowsePath, Rejected, ExtractTreeParams, Wanted;
    var from := if src == [] then [] else Parent(src);
    RestoredAt(snap, from, ParamIncludes(prm), RebasedPath(src, p));
  }

  /** Staging is a well-formed tree with a directory at its root. */
  lemma RestoredIsTree(snap: N.Tree, from: Path, incs: seq<Path>)
    requires N.PrefixClosed(snap)
    ensures [] in Restored(snap, from, incs) && Restored(snap, from, incs)[[]].DirNode?
    ensures N.PrefixClosed(Restored(snap, from, incs))
  {
    var t := Restored(snap, from, incs);
    forall q, n | q in t && 0 <= n < |q| ensures q[..n] in t && t[q[..n]].DirNode? {
      if n > 0 {
        RestoredAt(snap, from, incs, q);
        RestoredAt(snap, from, incs, q[..n]);
        assert (from + q)[..|from| + n] == from + q[..n];
        WantedAbove(snap, from, incs, q, n);
      }
    }
  }

  lemma InSnapshot(snap: N.Tree, from: Path, a: Path, q: Path)
    requires N.PrefixClosed(snap) && Under(a, q) && from + q in snap
    ensures from + a in snap
  {
    assert (from + q)[..|from| + |a|] == from + a;
    if |a| == |q| {
      assert a == q;
    }
  }

  lemma WantedAbove(snap: N.Tree, from: Path, incs: seq<Path>, q: Path, n: nat)
    requires Wanted(snap, from, incs, q) && from + q in snap && n < |q| && N.PrefixClosed(snap)
    ensures Wanted(snap, from, incs, q[..n])
  {
    if incs != [] {
      var i :| 0 <= i < |incs| && (Under(incs[i], q) || (Under(q, incs[i]) && from + incs[i] in snap));
      if Under(incs[i], q) && |incs[i]| > n {
        assert Under(q[..n], incs[i]);
        InSnapshot(snap, from, incs[i], q);
      } else if Under(incs[i], q) {
        assert incs[i] == q[..|incs[i]|] == q[..n][..|incs[i]|];
      } else {
        assert q[..n] == incs[i][..n];
      }
      assert Under(incs[i], q[..n]) || (Under(q[..n], incs[i]) && from + incs[i] in snap);
    }
  }

  // Matching.

  /** restic's include filter on an absolute pattern: its elements match the
      first elements of the path, which lies at or below what they name. */
  predicate Selects(pat: string, q: Path) {
    var parts := Split(pat);
    |parts| <= |q| + 1 && forall i :: 0 < i < |parts| ==> IncludeArgs.Match(parts[i], q[i - 1])
  }

  /** The literal pattern of a path selects what lies at or below it. */
  lemma SelectsExact(inc: Path, q: Path)
    requires inc != []
    ensures Selects(IncludeArgs.Escape(Render(inc)), q) <==> Under(inc, q)
  {
    SplitRenderTail(inc);
    IncludeArgs.EscapeKeepsComponents(Render(inc));
    assert Split(Render(inc)) == [""] + inc;
    var parts, names := Split(IncludeArgs.Escape(Render(inc))), [""] + inc;
    hide Split, Render, RenderTail, IncludeArgs.Match, IncludeArgs.Escape;
    forall i | 0 < i < |parts| && i - 1 < |q|
      ensures IncludeArgs.Match(parts[i], q[i - 1]) <==> q[i - 1] == inc[i - 1]
    {
      assert parts[i] == IncludeArgs.Escape(names[i]);
      IncludeArgs.EscapedMatchesOnlyItself(inc[i - 1], q[i - 1]);
    }
    if Under(inc, q) {
      assert forall j :: 0 <= j < |inc| ==> q[..|inc|][j] == inc[j];
    }
    if Selects(IncludeArgs.Escape(Render(inc)), q) {
      forall j | 0 <= j < |inc| ensures q[j] == inc[j] {
        assert IncludeArgs.Match(parts[j + 1], q[j]);
      }
      assert q[..|inc|] == inc;
    }
  }

  /** What a pattern list has restored: the nodes it selects and the directories
      above them. No pattern at all restores everything. */
  predicate Delivered(snap: N.Tree, from: Path, pats: seq<string>, q: Path) {
    pats == [] || exists pat, p ::
      pat in pats && p in snap && Under(from, p) && Selects(pat, p[|from|..]) && Under(q, p[|from|..])
  }

  lemma DeliveredBy(snap: N.Tree, from: Path, pats: seq<string>, q: Path, pat: string, r: Path)
    requires pat in pats && from + r in snap && Selects(pat, r) && Under(q, r)
    ensures Delivered(snap, from, pats, q)
  {
    assert Under(from, from + r) && (from + r)[|from|..] == r;
  }

  /** An include wants exactly what its pattern delivers. */
  lemma IncludeDelivers(snap: N.Tree, from: Path, inc: Path, q: Path)
    requires N.PrefixClosed(snap) && inc != [] && from + q in snap
    ensures Under(inc, q) || (Under(q, inc) && from + inc in snap)
       <==> exists r :: from + r in snap && Selects(IncludeArgs.Escape(Render(inc)), r) && Under(q, r)
  {
    hide Selects, Render, IncludeArgs.Escape;
    SelectsExact(inc, q);
    SelectsExact(inc, inc);
    if r :| from + r in snap && Selects(IncludeArgs.Escape(Render(inc)), r) && Under(q, r) {
      SelectsExact(inc, r);
      InSnapshot(snap, from, inc, r);
      Comparable(inc, q, r);
    }
  }

  lemma Comparable(a: Path, b: Path, r: Path)
    requires Under(a, r) && Under(b, r)
    ensures Under(a, b) || Under(b, a)
  {
    if |a| <= |b| {
      assert b[..|a|] == r[..|a|];
    } else {
      assert a[..|b|] == r[..|b|];
    }
  }

  /** The patterns of a list of includes, in any order and by either way of
      delivery, restore what the includes want. */
  lemma DeliveredExactly(snap: N.Tree, from: Path, incs: seq<Path>, strs: seq<string>, pats: seq<string>, q: Path)
    requires N.PrefixClosed(snap) && from + q in snap
    requires |strs| == |incs| && forall i :: 0 <= i < |incs| ==> incs[i] != [] && strs[i] == Render(incs[i])
    requires multiset(pats) == multiset(IncludeArgs.Escaped(strs))
    ensures Delivered(snap, from, pats, q) <==> Wanted(snap, from, incs, q)
  {
    hide Selects, Render, IncludeArgs.Escape;
    var escaped := IncludeArgs.Escaped(strs);
    assert |pats| == |multiset(pats)| == |escaped|;
    if Wanted(snap, from, incs, q) && incs != [] {
      var i :| 0 <= i < |incs| && (Under(incs[i], q) || (Under(q, incs[i]) && from + incs[i] in snap));
      IncludeDelivers(snap, from, incs[i], q);
      assert escaped[i] in multiset(pats);
      var r :| from + r in snap && Selects(escaped[i], r) && Under(q, r);
      DeliveredBy(snap, from, pats, q, escaped[i], r);
    }
    if Delivered(snap, from, pats, q) && pats != [] {
      var pat, p :|
        pat in pats && p in snap && Under(from, p) && Selects(pat, p[|from|..]) && Under(q, p[|from|..]);
      assert pat in multiset(escaped) && from + p[|from|..] == p;
      var i :| 0 <= i < |escaped| && escaped[i] == pat;
      IncludeDelivers(snap, from, incs[i], q);
    }
  }

  // The restore, from the arguments and the pattern file alone.

  /** The argument that follows a flag or command. */
  function ArgAfter(flag: string, argv: seq<string>): string
    decreases |argv|
  {
    if |argv| < 2 then "" else if argv[0] == flag then argv[1] else ArgAfter(flag, argv[1..])
  }

  /** All the patterns restic has: those of the file, when an argument names it,
      and those of the flags. */
  function PatternsOf(space: char -> bool, expand: string -> string, a: IncludeArgs.Args): seq<string> {
    (if ArgAfter("--include-file", a.argv) == "/dev/fd/4" then IncludeArgs.ReadPatterns(space, expand, a.patterns)
     else [])
    + IncludeArgs.IncludeValues(a.argv)
  }

  /** Of `restore id:subtree` the id, */
  function SnapshotArg(argv: seq<string>): string {
    var arg := ArgAfter("restore", argv);
    if |arg| <= 64 then arg else arg[..64]
  }

  /** and the subtree, the whole snapshot when there is none. */
  function SubtreeArg(argv: seq<string>): Path {
    var arg := ArgAfter("restore", argv);
    if |arg| <= 65 then [] else CleanBrowsePath(arg[65..])
  }

  function TargetArg(argv: seq<string>): Path { CleanBrowsePath(ArgAfter("--target", argv)) }

  function RestoredBy(space: char -> bool, expand: string -> string, snap: N.Tree, a: IncludeArgs.Args): N.Tree {
    var from, pats := SubtreeArg(a.argv), PatternsOf(space, expand, a);
    (map q | q in (set p | p in snap && Below(from, p) && Delivered(snap, from, pats, p[|from|..]) :: p[|from|..])
             && from + q in snap :: snap[from + q])
    [[] := N.DirNode(PRIVATE_MODE)]
  }

  lemma RestoredByAt(space: char -> bool, expand: string -> string, snap: N.Tree, a: IncludeArgs.Args, q: Path)
    requires q != []
    ensures var from := SubtreeArg(a.argv);
      && (q in RestoredBy(space, expand, snap, a) <==>
          from + q in snap && Delivered(snap, from, PatternsOf(space, expand, a), q))
      && (q in RestoredBy(space, expand, snap, a) ==> RestoredBy(space, expand, snap, a)[q] == snap[from + q])
  {
    hide Delivered, SubtreeArg, PatternsOf;
    var from, pats := SubtreeArg(a.argv), PatternsOf(space, expand, a);
    assert (from + q)[|from|..] == q && Below(from, from + q);
    if q in RestoredBy(space, expand, snap, a) {
      var p :| p in snap && Below(from, p) && Delivered(snap, from, pats, p[|from|..]) && p[|from|..] == q;
      assert p == from + q;
    }
  }

  lemma SkipArg(flag: string, x: string, argv: seq<string>)
    requires x != flag && argv != []
    ensures ArgAfter(flag, [x] + argv) == ArgAfter(flag, argv)
  {
    assert ([x] + argv)[1..] == argv;
  }

  lemma TakeArg(flag: string, x: string, argv: seq<string>)
    ensures ArgAfter(flag, [flag, x] + argv) == x
  {
  }

  /** What restic is told, read back from the arguments. */
  lemma BaseArgsReadBack(p: IncludeArgs.Params, rest: seq<string>)
    requires IncludeArgs.Invalid(p).None?
    ensures var argv := IncludeArgs.BaseArgs(p) + rest;
      && SnapshotArg(argv) == p.snapshotId
      && SubtreeArg(argv) == (if p.source == "" then [] else CleanBrowsePath(p.source))
      && TargetArg(argv) == CleanBrowsePath(p.target)
      && ArgAfter("--overwrite", argv) == "never" && "--no-lock" in argv && "--json" in argv
  {
    hide CleanBrowsePath, IncludeArgs.SourceClean, IncludeArgs.IncludeClean, ArgAfter;
    var ref := if p.source != "" && p.source != "/" then p.snapshotId + ":" + p.source else p.snapshotId;
    var t2 := ["--overwrite", "never"] + (["--json"] + rest);
    var t1 := ["--target", p.target] + t2;
    var t0 := ["restore", ref] + t1;
    RootIsClean();
    assert HexChar(p.snapshotId[0]) && ref[0] == p.snapshotId[0] && ref[..64] == p.snapshotId;
    assert p.target[0] == '/';
    if p.source != "" && p.source != "/" {
      assert ref[65..] == p.source;
    }
    forall flag | flag == "restore" || flag == "--target" || flag == "--overwrite"
      ensures ArgAfter(flag, IncludeArgs.BaseArgs(p) + rest) == ArgAfter(flag, t0)
    {
      SkipArg(flag, "--no-cache", t0);
      SkipArg(flag, "--no-lock", t0);
      SkipArg(flag, "--no-lock", ["--no-cache"] + t0);
      assert IncludeArgs.BaseArgs(p) + rest ==
        if p.noCache then ["--no-lock"] + (["--no-cache"] + t0) else ["--no-lock"] + t0;
    }
    TakeArg("restore", ref, t1);
    SkipTwo("--target", "restore", ref, t1);
    TakeArg("--target", p.target, t2);
    SkipTwo("--overwrite", "restore", ref, t1);
    SkipTwo("--overwrite", "--target", p.target, t2);
    TakeArg("--overwrite", "never", ["--json"] + rest);
  }

  lemma SkipTwo(flag: string, x: string, y: string, argv: seq<string>)
    requires x != flag && y != flag && argv != []
    ensures ArgAfter(flag, [x, y] + argv) == ArgAfter(flag, argv)
  {
    SkipArg(flag, y, argv);
    SkipArg(flag, x, [y] + argv);
    assert [x, y] + argv == [x] + ([y] + argv);
  }

  lemma {:induction false} SkipAll(flag: string, a: seq<string>, b: seq<string>)
    requires flag !in a
    ensures ArgAfter(flag, a + b) == ArgAfter(flag, b)
  {
    if a == [] {
      assert a + b == b;
    } else {
      SkipAll(flag, a[1..], b);
      assert a + b == [a[0]] + (a[1..] + b);
      if a[1..] + b != [] {
        SkipArg(flag, a[0], a[1..] + b);
      }
    }
  }

  lemma {:induction false} FlaggedHolds(pats: seq<string>, x: string)
    ensures x in IncludeArgs.Flagged(pats) ==> x == "--include" || x in pats
  {
    if pats != [] {
      var init, last := pats[..|pats| - 1], pats[|pats| - 1];
      FlaggedHolds(init, x);
      assert pats == init + [last];
    }
  }

  /** No argument but the one that says so reads as the flag for the file, or
      as the one that turns the cache off. */
  lemma BaseNamesNoFile(p: IncludeArgs.Params)
    requires IncludeArgs.Invalid(p).None?
    ensures "--include-file" !in IncludeArgs.BaseArgs(p)
    ensures "--no-cache" in IncludeArgs.BaseArgs(p) <==> p.noCache
  {
    hide CleanBrowsePath, IncludeArgs.SourceClean, IncludeArgs.IncludeClean;
    var ref := if p.source != "" && p.source != "/" then p.snapshotId + ":" + p.source else p.snapshotId;
    assert HexChar(p.snapshotId[0]) && ref[0] == p.snapshotId[0];
    assert p.target[0] == '/';
  }

  lemma FlagsNameNothing(space: char -> bool, p: IncludeArgs.Params, x: string)
    requires IncludeArgs.Invalid(p).None? && x != "" && x[0] == '-' && x != "--include"
    ensures x !in IncludeArgs.Flagged(IncludeArgs.ArgvPatterns(space, p.includePaths))
  {
    hide IncludeArgs.OnArgv, IncludeArgs.Flagged, IncludeArgs.Escape, CleanString, Filter;
    var incs := p.includePaths;
    var own := if |incs| == 1 then incs else Filter(IncludeArgs.OnArgv(space), incs);
    FilterMembers(IncludeArgs.OnArgv(space), incs);
    forall i | 0 <= i < |own| ensures IncludeArgs.Escape(own[i]) != x {
      assert own[i] in incs;
      IncludeArgs.EscapeEnds(own[i]);
    }
    FlaggedHolds(IncludeArgs.Escaped(own), x);
  }

  lemma FileIsNamed(space: char -> bool, p: IncludeArgs.Params)
    requires IncludeArgs.Invalid(p).None?
    ensures ArgAfter("--include-file", IncludeArgs.ArgsOf(space, p).argv) ==
            if IncludeArgs.FilePatterns(space, p.includePaths) == [] then "" else "/dev/fd/4"
    ensures "--no-cache" in IncludeArgs.ArgsOf(space, p).argv <==> p.noCache
  {
    BaseNamesNoFile(p);
    FlagsNameNothing(space, p, "--include-file");
    FlagsNameNothing(space, p, "--no-cache");
    hide IncludeArgs.BaseArgs, IncludeArgs.Flagged, IncludeArgs.FilePatterns, IncludeArgs.ArgvPatterns,
      IncludeArgs.Invalid, IncludeArgs.Lines;
    var before := IncludeArgs.BaseArgs(p) + IncludeArgs.Flagged(IncludeArgs.ArgvPatterns(space, p.includePaths));
    var named := IncludeArgs.FilePatterns(space, p.includePaths) != [];
    var tail: seq<string> := if named then ["--include-file", "/dev/fd/4"] else [];
    assert IncludeArgs.ArgsOf(space, p).argv == before + tail;
    SkipAll("--include-file", before, tail);
    if named {
      TakeArg("--include-file", "/dev/fd/4", []);
      assert ["--include-file", "/dev/fd/4"] + [] == tail;
    }
  }

  lemma RootIsClean()
    ensures CleanBrowsePath("/") == []
  {
    CleanUndoesRender([]);
  }

  lemma ParamStrings(req: Request, cfgRoot: string)
    requires Rejected(cfgRoot, req).None?
    ensures var p, incs := ExtractTreeParams(req, ""), ParamIncludes(ExtractTreeParams(req, ""));
            |incs| == |p.includePaths| && forall i :: 0 <= i < |incs| ==>
              incs[i] != [] && p.includePaths[i] == Render(incs[i])
  {
    var p, src := ExtractTreeParams(req, ""), SourceOf(req);
    forall i | 0 <= i < |p.includePaths|
      ensures CleanBrowsePath(p.includePaths[i]) != []
      ensures p.includePaths[i] == Render(CleanBrowsePath(p.includePaths[i]))
    {
      if req.includePaths == [] {
        BaseInclude(src);
        CleanUndoesRender([Base(src)]);
      } else {
        RebasedString(req, cfgRoot, i);
        CleanUndoesRender(RebasedPath(src, CleanBrowsePath(req.includePaths[i])));
      }
    }
  }

  /** Rebased, escaped, delivered by file or flag, read back and matched: restic
      restores from the snapshot asked for exactly what the request wants, into
      the staging directory. */
  lemma DeliveryRestores(space: char -> bool, expand: string -> string, req: Request, cfgRoot: string,
                         staging: Path, snap: N.Tree)
    requires IncludeArgs.SpaceOk(space) && IncludeArgs.ExpandOk(expand)
    requires Rejected(cfgRoot, req).None? && N.PrefixClosed(snap)
    ensures var args := IncludeArgs.ArgsOf(space, ExtractTreeParams(req, Render(staging)));
      && TargetArg(args.argv) == staging
      && SnapshotArg(args.argv) == req.snapshotId
      && "--no-lock" in args.argv && "--no-cache" !in args.argv
      && RestoredBy(space, expand, snap, args) == RestoredFor(req, snap)
  {
    var p := ExtractTreeParams(req, Render(staging));
    var a := IncludeArgs.ArgsOf(space, p);
    ParamsAreValid(req, cfgRoot, Render(staging));
    IncludeArgs.DeliveryRoundTrip(space, expand, p);
    FileIsNamed(space, p);
    ParamStrings(req, cfgRoot);
    ArgsBegin(space, p);
    BaseArgsReadBack(p, a.argv[|IncludeArgs.BaseArgs(p)|..]);
    CleanUndoesRender(staging);
    var from := if p.source == "" then [] else CleanBrowsePath(p.source);
    hide CleanBrowsePath, Render, Rejected, SubtreeArg, TargetArg, SnapshotArg, IncludeArgs.ArgsOf;
    SameTree(space, expand, req, snap, a, from, p.includePaths);
  }

  lemma ArgsBegin(space: char -> bool, p: IncludeArgs.Params)
    ensures var argv, base := IncludeArgs.ArgsOf(space, p).argv, IncludeArgs.BaseArgs(p);
            |base| <= |argv| && argv == base + argv[|base|..]
  {
    hide IncludeArgs.BaseArgs, IncludeArgs.Flagged;
  }

  lemma SameTree(space: char -> bool, expand: string -> string, req: Request, snap: N.Tree, a: IncludeArgs.Args,
                 from: Path, strs: seq<string>)
    requires N.PrefixClosed(snap) && SubtreeArg(a.argv) == from
    requires var p := ExtractTreeParams(req, "");
      && p.includePaths == strs && from == if p.source == "" then [] else CleanBrowsePath(p.source)
    requires var incs := ParamIncludes(ExtractTreeParams(req, ""));
      |incs| == |strs| && forall i :: 0 <= i < |incs| ==> incs[i] != [] && strs[i] == Render(incs[i])
    requires multiset(PatternsOf(space, expand, a)) == multiset(IncludeArgs.Escaped(strs))
    ensures RestoredBy(space, expand, snap, a) == RestoredFor(req, snap)
  {
    hide ExtractTreeParams, Render, CleanBrowsePath, Delivered, Wanted, Restored, RestoredBy, PatternsOf;
    var incs := ParamIncludes(ExtractTreeParams(req, ""));
    var x, y := RestoredBy(space, expand, snap, a), RestoredFor(req, snap);
    RestoredRoots(space, expand, snap, a, from, incs);
    forall q | q != [] ensures (q in x <==> q in y) && (q in x ==> x[q] == y[q]) {
      RestoredAt(snap, from, incs, q);
      RestoredByAt(space, expand, snap, a, q);
      if from + q in snap {
        DeliveredExactly(snap, from, incs, strs, PatternsOf(space, expand, a), q);
      }
    }
    assert x.Keys == y.Keys;
  }

  lemma RestoredRoots(space: char -> bool, expand: string -> string, snap: N.Tree, a: IncludeArgs.Args,
                      from: Path, incs: seq<Path>)
    ensures [] in Restored(snap, from, incs) && Restored(snap, from, incs)[[]] == N.DirNode(PRIVATE_MODE)
    ensures [] in RestoredBy(space, expand, snap, a)
    ensures RestoredBy(space, expand, snap, a)[[]] == N.DirNode(PRIVATE_MODE)
  {
    hide Wanted, Delivered;
  }
}
