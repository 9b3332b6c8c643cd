/** Extracting both sides of a diff (openDiffExtract in
    internal/tui/snapshotdiff.go): which requests are opened, when none can be,
    and that together with the pipeline they restore exactly the selected
    changes. */
module DiffRequests {
  import opened DiffModel
  import opened Paths
  import opened Wrappers
  import D = DiffExtract
  import M = ExtractModal
  import N = Normalize
  import P = ExtractPlan
  import R = ExtractRestore
  import T = DiffTree
  import X = ExtractPipeline

  /** The diff on screen: its repository, the full IDs of its two snapshots, and
      the remembered target root, empty when there is none. */
  datatype Pair = Pair(repo: string, older: string, newer: string, memo: string)

  datatype Opening = NoRow | ShortIds | Nothing | OverBudget | BadName | Refused(field: P.Field)
                   | Opened(reqs: seq<P.Request>)

  function Rendered(ps: seq<Path>): (r: seq<string>)
    ensures |r| == |ps| && forall i :: 0 <= i < |ps| ==> r[i] == Render(ps[i])
  {
    seq(|ps|, i requires 0 <= i < |ps| => Render(ps[i]))
  }

  predicate Fits(incs: seq<string>) { |incs| <= P.MAX_INCLUDES && P.TotalBytes(incs) <= P.MAX_INCLUDE_BYTES }

  method DiffIncludesOverBudget(incs: seq<string>) returns (over: bool)
    ensures over <==> !Fits(incs)
  {
    if |incs| > P.MAX_INCLUDES {
      return true;
    }
    var total := 0;
    for i := 0 to |incs|
      invariant total + P.TotalBytes(incs[i..]) == P.TotalBytes(incs)
    {
      assert incs[i..][0] == incs[i] && incs[i..][1..] == incs[i + 1..];
      total := total + ByteLen(incs[i]);
    }
    over := total > P.MAX_INCLUDE_BYTES;
  }

  predicate LongIds(pair: Pair) { |pair.older| >= 8 && |pair.newer| >= 8 }

  function Container(pair: Pair): string
    requires LongIds(pair)
  {
    "diff-" + pair.older[..8] + "-" + pair.newer[..8]
  }

  function SideRequest(pair: Pair, side: D.Side, root: Path, name: string, incs: seq<Path>): P.Request
    requires LongIds(pair)
  {
    var id := if side.First? then pair.older else pair.newer;
    P.Request(pair.repo, id, id[..8], Render(root), name, P.ExtractDirectoryTree, false, pair.memo, Container(pair),
              Rendered(incs), false)
  }

  /** One request per side that has something to restore, the older side first. */
  function SideRequests(pair: Pair, root: Path, name: string, s: D.DiffExtractSet): seq<P.Request>
    requires LongIds(pair)
  {
    (if s.first != [] then [SideRequest(pair, D.First, root, name, s.first)] else [])
    + (if s.second != [] then [SideRequest(pair, D.Second, root, name, s.second)] else [])
  }

  function FirstRefusal(cfg: M.Cfg, reqs: seq<P.Request>): Option<P.Field>
    requires P.HashOk(cfg.hash16)
  {
    if reqs == [] then None
    else
      var plan := M.PlanOf(cfg, reqs[0]);
      if plan.Err? then Some(plan.error) else FirstRefusal(cfg, reqs[1..])
  }

  /** What is opened for a selection, or the first reason why nothing is. */
  function Decide(cfg: M.Cfg, pair: Pair, root: Path, s: D.DiffExtractSet): Opening
    requires P.HashOk(cfg.hash16) && LongIds(pair)
  {
    var name := P.SlugOf(T.DiffNameOf(root));
    if s.first == [] && s.second == [] then Nothing
    else if !Fits(Rendered(s.first)) || !Fits(Rendered(s.second)) then OverBudget
    else if name == "" then BadName
    else
      var reqs := SideRequests(pair, root, name, s);
      var bad, dir := FirstRefusal(cfg, reqs), P.ExtractDiffTargetDir(cfg.root, reqs[0]);
      if bad.Some? then Refused(bad.value) else if dir.Err? then Refused(dir.error) else Opened(reqs)
  }

  /** What is opened: one tree extraction per side with something to restore, the
      removed and changed paths from the older snapshot and the added and changed
      ones from the newer, all into the one directory named after the pair. */
  predicate OpenedFor(pair: Pair, root: Path, s: D.DiffExtractSet, reqs: seq<P.Request>)
    requires LongIds(pair)
  {
    && |reqs| == (if s.first != [] then 1 else 0) + (if s.second != [] then 1 else 0)
    && (s.first != [] ==> reqs[0].snapshotId == pair.older && reqs[0].includePaths == Rendered(s.first))
    && (s.second != [] ==>
          reqs[|reqs| - 1].snapshotId == pair.newer && reqs[|reqs| - 1].includePaths == Rendered(s.second))
    && forall r :: r in reqs ==>
         && r.repo == pair.repo && r.source == Render(root) && r.targetRoot == pair.memo
         && r.diffContainer == "diff-" + pair.older[..8] + "-" + pair.newer[..8]
         && |r.snapshotId| >= 8 && r.snapshotShort == r.snapshotId[..8]
         && r.sourceName == P.SlugOf(if root == [] then "/" else Base(root))
         && r.mode.ExtractDirectoryTree? && !r.wasRegularFile && !r.privileged
  }

  /** newExtractDiffModel's planning of every side before the modal opens. */
  method PlanSides(cfg: M.Cfg, reqs: seq<P.Request>) returns (bad: Option<P.Field>)
    requires P.HashOk(cfg.hash16)
    ensures bad == FirstRefusal(cfg, reqs)
  {
    hide M.PlanOf;
    for i := 0 to |reqs|
      invariant FirstRefusal(cfg, reqs[i..]) == FirstRefusal(cfg, reqs)
    {
      assert reqs[i..][0] == reqs[i] && reqs[i..][1..] == reqs[i + 1..];
      var plan := M.PlanOf(cfg, reqs[i]);
      if plan.Err? {
        return Some(plan.error);
      }
    }
    assert reqs[|reqs|..] == [];
    bad := None;
  }

  method OpenDiffExtract(cfg: M.Cfg, es: seq<DiffEntry>, row: Option<DiffRow>, filter: set<Kind>, pair: Pair)
    returns (r: Opening, s: D.DiffExtractSet)
    requires P.HashOk(cfg.hash16)
    ensures row.None? ==> r == NoRow
    ensures row.Some? && (|pair.older| < 8 || |pair.newer| < 8) ==> r == ShortIds
    ensures row.Some? && LongIds(pair) ==>
              D.Exact(es, row.value.path, filter, s) && r == Decide(cfg, pair, row.value.path, s)
    ensures r.Opened? ==> LongIds(pair) && OpenedFor(pair, row.value.path, s, r.reqs)
  {
    hide D.Exact, P.PlanExtractPaths, P.ExtractDiffTargetDir, P.SlugOf, FirstRefusal, Fits;
    s := D.DiffExtractSet([], [], 0, 0);
    if row.None? {
      return NoRow, s;
    }
    if |pair.older| < 8 || |pair.newer| < 8 {
      return ShortIds, s;
    }
    var root := row.value.path;
    s := D.DiffExtractIncludes(es, root, filter);
    if |s.first| == 0 && |s.second| == 0 {
      return Nothing, s;
    }
    var over := DiffIncludesOverBudget(Rendered(s.first));
    if !over {
      over := DiffIncludesOverBudget(Rendered(s.second));
    }
    if over {
      return OverBudget, s;
    }
    var name := P.SanitizeExtractSlug(T.DiffNameOf(root));
    if name.None? {
      return BadName, s;
    }
    var reqs: seq<P.Request> := [];
    if |s.first| > 0 {
      reqs := reqs + [SideRequest(pair, D.First, root, name.value, s.first)];
    }
    if |s.second| > 0 {
      reqs := reqs + [SideRequest(pair, D.Second, root, name.value, s.second)];
    }
    assert reqs == SideRequests(pair, root, name.value, s);
    var bad := PlanSides(cfg, reqs);
    if bad.Some? {
      return Refused(bad.value), s;
    }
    var dir := P.ExtractDiffTargetDir(cfg.root, reqs[0]);
    if dir.Err? {
      return Refused(dir.error), s;
    }
    r := Opened(reqs);
  }

  // When a diff extraction opens.

  /** Paths as restic can report them, and full snapshot IDs. */
  predicate Reported(es: seq<DiffEntry>, root: Path, pair: Pair) {
    && P.Hex(pair.older, 64) && P.Hex(pair.newer, 64)
    && P.NUL !in Render(root) && forall e :: e in es ==> P.NUL !in Render(e.path)
  }

  /** What is left for a request to be refused for. */
  predicate Openable(cfg: M.Cfg, pair: Pair, root: Path)
    requires LongIds(pair)
  {
    && P.SlugOf(T.DiffNameOf(root)) != "" && P.SlugOf(pair.repo) != ""
    && pair.older[..8] != pair.newer[..8]
    && P.IsAbs(if pair.memo != "" then pair.memo else cfg.root)
  }

  lemma ContainerIsPair(pair: Pair)
    requires P.Hex(pair.older, 64) && P.Hex(pair.newer, 64)
    ensures var c := Container(pair);
            P.PairContainer(c) && c[5..13] == pair.older[..8] && c[14..] == pair.newer[..8]
  {
    var c := Container(pair);
    assert c[..5] == "diff-" && c[5..13] == pair.older[..8] && c[13] == '-' && c[14..] == pair.newer[..8];
  }

  lemma ListIsPlannable(es: seq<DiffEntry>, root: Path, filter: set<Kind>, side: D.Side, list: seq<Path>, count: nat)
    requires AllParsed(es) && D.ExactOn(es, root, filter, side, list, count) && Fits(Rendered(list))
    requires forall e :: e in es ==> P.NUL !in Render(e.path)
    ensures P.IncludesOk(Render(root), Rendered(list))
  {
    forall i | 0 <= i < |list| ensures P.IncludeOk(Render(root), Rendered(list)[i]) {
      assert D.Listed(es, root, filter, side, list[i]);
      var e :| e in es && e.path == list[i];
      D.ListedIsPlannable(es, root, filter, side, list, count, list[i]);
    }
  }

  /** The fields that are right whatever else is. */
  lemma SideFields(root: Path, pair: Pair, side: D.Side, list: seq<Path>)
    requires P.Hex(pair.older, 64) && P.Hex(pair.newer, 64) && P.SlugOf(T.DiffNameOf(root)) != ""
    ensures var req := SideRequest(pair, side, root, P.SlugOf(T.DiffNameOf(root)), list);
      && P.Hex(req.snapshotId, 64) && P.Hex(req.snapshotShort, 8) && req.snapshotShort == req.snapshotId[..8]
      && req.diffContainer != "" && P.PairContainer(req.diffContainer)
      && (P.ContainerOk(req.diffContainer, req.snapshotShort) <==> pair.older[..8] != pair.newer[..8])
      && req.source != "" && req.source == P.CleanString(req.source)
      && P.WantName(req) == req.sourceName && '/' !in req.sourceName && req.sourceName[0] != '.'
  {
    ContainerIsPair(pair);
    CleanUndoesRender(root);
    RootHasNoSlug(root);
    P.SlugIsComponent(T.DiffNameOf(root));
    hide Render, CleanBrowsePath, P.SlugOf, Rendered, P.PairContainer;
  }

  /** One side plans exactly when nothing is left to refuse it for. */
  lemma SidePlans(cfg: M.Cfg, es: seq<DiffEntry>, root: Path, filter: set<Kind>, pair: Pair, side: D.Side,
                  list: seq<Path>, count: nat)
    requires P.HashOk(cfg.hash16) && AllParsed(es) && Reported(es, root, pair)
    requires D.ExactOn(es, root, filter, side, list, count) && Fits(Rendered(list))
    requires P.SlugOf(T.DiffNameOf(root)) != ""
    ensures var req := SideRequest(pair, side, root, P.SlugOf(T.DiffNameOf(root)), list);
      && (M.PlanOf(cfg, req).Ok? <==> Openable(cfg, pair, root))
      && (Openable(cfg, pair, root) ==> P.ExtractDiffTargetDir(cfg.root, req).Ok?)
  {
    ListIsPlannable(es, root, filter, side, list, count);
    SideFields(root, pair, side, list);
    var req := SideRequest(pair, side, root, P.SlugOf(T.DiffNameOf(root)), list);
    M.PlanRejected(cfg, req);
    hide Render, CleanBrowsePath, P.SlugOf, P.IncludesOk, P.CleanString, P.WantName, D.ExactOn, Rendered, P.Hex,
      P.ContainerOk, Fits, M.PlanOf, AllParsed;
  }

  /** The root of the tree has no name to extract under. */
  lemma RootHasNoSlug(root: Path)
    ensures P.SlugOf(T.DiffNameOf(root)) != "" ==> root != []
    ensures Render(root) != ""
  {
    assert "/"[1..] == "" && "-"[1..] == "";
    assert P.Dashed("/", false) == "-";
  }

  /** A diff extraction opens exactly when something is selected within the
      limits, the row's and the repository's names leave a slug, the two short
      IDs differ, and the target root is absolute. */
  lemma OpensExactly(cfg: M.Cfg, es: seq<DiffEntry>, root: Path, filter: set<Kind>, pair: Pair, s: D.DiffExtractSet)
    requires P.HashOk(cfg.hash16) && AllParsed(es) && Reported(es, root, pair) && D.Exact(es, root, filter, s)
    ensures Decide(cfg, pair, root, s).Opened? <==>
            && (s.first != [] || s.second != [])
            && Fits(Rendered(s.first)) && Fits(Rendered(s.second)) && Openable(cfg, pair, root)
  {
    assert LongIds(pair);
    hide P.SlugOf, Reported, Fits, P.ExtractDiffTargetDir, D.Exact, SideRequests, FirstRefusal, Rendered, T.DiffNameOf,
      P.HashOk, AllParsed;
    if P.SlugOf(T.DiffNameOf(root)) != "" && Fits(Rendered(s.first)) && Fits(Rendered(s.second))
       && (s.first != [] || s.second != [])
    {
      RequestsPlan(cfg, es, root, filter, pair, s);
    }
  }

  /** The requests plan, all of them or none. */
  lemma RequestsPlan(cfg: M.Cfg, es: seq<DiffEntry>, root: Path, filter: set<Kind>, pair: Pair, s: D.DiffExtractSet)
    requires P.HashOk(cfg.hash16) && AllParsed(es) && Reported(es, root, pair) && D.Exact(es, root, filter, s)
    requires P.SlugOf(T.DiffNameOf(root)) != "" && Fits(Rendered(s.first)) && Fits(Rendered(s.second))
    requires s.first != [] || s.second != []
    ensures var reqs := SideRequests(pair, root, P.SlugOf(T.DiffNameOf(root)), s);
      && reqs != [] && (FirstRefusal(cfg, reqs).None? <==> Openable(cfg, pair, root))
      && (Openable(cfg, pair, root) ==> P.ExtractDiffTargetDir(cfg.root, reqs[0]).Ok?)
  {
    assert LongIds(pair);
    SidePlans(cfg, es, root, filter, pair, D.First, s.first, s.firstCount);
    SidePlans(cfg, es, root, filter, pair, D.Second, s.second, s.secondCount);
    SidesListed(pair, root, P.SlugOf(T.DiffNameOf(root)), s);
    hide *;
    TwoRefusals(cfg, SideRequests(pair, root, P.SlugOf(T.DiffNameOf(root)), s));
  }

  lemma SidesListed(pair: Pair, root: Path, name: string, s: D.DiffExtractSet)
    requires LongIds(pair) && (s.first != [] || s.second != [])
    ensures var reqs := SideRequests(pair, root, name, s);
      && 1 <= |reqs| <= 2
      && forall i :: 0 <= i < |reqs| ==>
           || reqs[i] == SideRequest(pair, D.First, root, name, s.first)
           || reqs[i] == SideRequest(pair, D.Second, root, name, s.second)
  {
    hide SideRequest;
  }

  lemma TwoRefusals(cfg: M.Cfg, reqs: seq<P.Request>)
    requires P.HashOk(cfg.hash16) && 1 <= |reqs| <= 2
    ensures FirstRefusal(cfg, reqs).None? <==> forall i :: 0 <= i < |reqs| ==> M.PlanOf(cfg, reqs[i]).Ok?
  {
    hide M.PlanOf;
    if |reqs| == 2 {
      assert reqs[1..] == [reqs[1]] && reqs[1..][1..] == [];
    } else {
      assert reqs[1..] == [];
    }
  }

  /** What was opened is a pair that the modal accepts: everything proved about
      its runs applies, and its two sides publish apart. */
  lemma OpenedIsPair(cfg: M.Cfg, pair: Pair, root: Path, s: D.DiffExtractSet, w: M.World)
    requires P.HashOk(cfg.hash16) && LongIds(pair) && Decide(cfg, pair, root, s).Opened? && !w.active
    ensures var reqs := Decide(cfg, pair, root, s).reqs;
      && M.CanOpen(cfg, w, reqs, true) && 1 <= |reqs| <= 2
      && (|reqs| == 2 ==>
            && reqs[0].snapshotId == pair.older && reqs[1].snapshotId == pair.newer
            && M.Side(reqs[0]) != M.Side(reqs[1])
            && !Under(M.PlanOf(cfg, reqs[0]).value.final, M.PlanOf(cfg, reqs[1]).value.final)
            && !Under(M.PlanOf(cfg, reqs[1]).value.final, M.PlanOf(cfg, reqs[0]).value.final))
  {
    hide P.SlugOf, Fits, M.PlanOf, P.ExtractDiffTargetDir;
    var reqs := Decide(cfg, pair, root, s).reqs;
    TwoRefusals(cfg, reqs);
    if |reqs| == 2 {
      SidesApart(cfg, reqs[0], reqs[1]);
    }
  }

  /** Two sides of one pair never publish into each other. */
  lemma SidesApart(cfg: M.Cfg, a: P.Request, b: P.Request)
    requires P.HashOk(cfg.hash16) && M.PlanOf(cfg, a).Ok? && M.PlanOf(cfg, b).Ok?
    requires a.repo == b.repo && a.targetRoot == b.targetRoot && a.diffContainer == b.diffContainer != ""
    requires a.diffContainer[5..13] == a.snapshotShort && a.diffContainer[14..] == b.snapshotShort
    ensures a.snapshotShort != b.snapshotShort
    ensures !Under(M.PlanOf(cfg, a).value.final, M.PlanOf(cfg, b).value.final)
    ensures !Under(M.PlanOf(cfg, b).value.final, M.PlanOf(cfg, a).value.final)
  {
    hide CleanBrowsePath, P.SlugOf, P.IncludesOk, P.WantName;
    P.FinalParts(cfg.root, cfg.hash16, a);
    P.FinalParts(cfg.root, cfg.hash16, b);
    var n := |P.RepoDir(cfg.root, a)|;
    var x, y := M.PlanOf(cfg, a).value.final, M.PlanOf(cfg, b).value.final;
    assert x[n + 1] == a.snapshotShort && y[n + 1] == b.snapshotShort;
  }

  // What a side restores.

  lemma RequestPaths(req: P.Request, root: Path, list: seq<Path>)
    requires req.source == Render(root) && req.includePaths == Rendered(list)
    ensures R.SourceOf(req) == root && R.IncludesOf(req) == list
  {
    CleanUndoesRender(root);
    forall i | 0 <= i < |list| ensures R.IncludesOf(req)[i] == list[i] {
      CleanUndoesRender(list[i]);
    }
  }

  /** Every eligible path that the side's snapshot has is selected for restoring. */
  lemma EligibleIsSelected(es: seq<DiffEntry>, root: Path, filter: set<Kind>, side: D.Side, list: seq<Path>, count: nat,
                           req: P.Request, snap: N.Tree, p: Path)
    requires D.ExactOn(es, root, filter, side, list, count) && D.Eligible(es, root, filter, side, p) && p in snap
    requires req.source == Render(root) && req.includePaths == Rendered(list)
    ensures R.Selected(req, snap, p)
  {
    RequestPaths(req, root, list);
    D.EligibleIsRestored(es, root, filter, side, list, count, p);
    hide D.ExactOn, D.PureDir;
    var d :| d in list && Under(d, p);
    var i :| 0 <= i < |list| && list[i] == d;
    assert Under(list[i], p);
  }

  /** The records say which paths of the snapshot are directories. */
  predicate Faithful(es: seq<DiffEntry>, snap: N.Tree) {
    forall e :: e in es && e.path in snap ==> (snap[e.path].DirNode? <==> SomeDir(es, e.path))
  }

  /** Nothing unchanged is restored: a path that is not a directory is selected
      only if it is eligible itself or lies below a directory that only this
      side has. */
  lemma SelectedIsChanged(es: seq<DiffEntry>, root: Path, filter: set<Kind>, side: D.Side, list: seq<Path>, count: nat,
                          req: P.Request, snap: N.Tree, p: Path)
    requires D.ExactOn(es, root, filter, side, list, count) && list != [] && N.PrefixClosed(snap) && Faithful(es, snap)
    requires req.source == Render(root) && req.includePaths == Rendered(list)
    requires R.Selected(req, snap, p) && !snap[p].DirNode?
    ensures D.Eligible(es, root, filter, side, p) || exists d :: Below(d, p) && D.PureDir(es, root, filter, side, d)
  {
    hide D.ExactOn, D.Eligible, D.PureDir, Faithful, N.PrefixClosed;
    RequestPaths(req, root, list);
    var i := IncludedBy(snap, list, p);
    LeafIsNotAbove(snap, p, list[i]);
    ListedIsEligible(es, root, filter, side, list, count, list[i]);
    if list[i] != p {
      ListedDirIsPure(es, root, filter, side, list, count, snap, list[i], p);
    }
  }

  lemma IncludedBy(snap: N.Tree, list: seq<Path>, p: Path) returns (i: nat)
    requires list != [] && R.Wanted(snap, [], list, p)
    ensures i < |list| && (Under(list[i], p) || (Under(p, list[i]) && list[i] in snap))
  {
    i :| 0 <= i < |list| && (Under(list[i], p) || (Under(p, list[i]) && [] + list[i] in snap));
    assert [] + list[i] == list[i];
  }

  lemma ListedIsEligible(es: seq<DiffEntry>, root: Path, filter: set<Kind>, side: D.Side, list: seq<Path>, count: nat,
                         l: Path)
    requires D.ExactOn(es, root, filter, side, list, count) && l in list
    ensures D.Eligible(es, root, filter, side, l)
  {
    hide D.Eligible;
    assert D.Listed(es, root, filter, side, l);
  }

  lemma ListedDirIsPure(es: seq<DiffEntry>, root: Path, filter: set<Kind>, side: D.Side, list: seq<Path>, count: nat,
                        snap: N.Tree, l: Path, p: Path)
    requires D.ExactOn(es, root, filter, side, list, count) && l in list && N.PrefixClosed(snap) && Faithful(es, snap)
    requires p in snap && Below(l, p)
    ensures D.PureDir(es, root, filter, side, l)
  {
    hide KindsAt, SomeDir, N.PrefixClosed;
    ListedIsEligible(es, root, filter, side, list, count, l);
    D.ListedIsMinimal(es, root, filter, side, list, count, l);
    hide D.ExactOn;
    DirAbove(snap, l, p);
    var e :| e in es && e.path == l;
    D.SingleKind(D.PureKind(side), filter);
  }

  lemma DirAbove(snap: N.Tree, l: Path, p: Path)
    requires N.PrefixClosed(snap) && p in snap && Below(l, p)
    ensures l in snap && snap[l].DirNode?
  {
    N.PrefixSlice(l, p);
    assert p[..|l|] in snap;
  }

  lemma LeafIsNotAbove(snap: N.Tree, p: Path, l: Path)
    requires N.PrefixClosed(snap) && p in snap && !snap[p].DirNode?
    ensures Under(p, l) && l in snap ==> l == p
  {
    if Below(p, l) {
      N.PrefixSlice(p, l);
      assert l in snap ==> l[..|p|] in snap && snap[l[..|p|]].DirNode?;
    }
  }

  /** With the mirror theorem: after a side was extracted, each of its eligible
      paths that is not an unsafe link is under the pair's directory and the
      side's short ID, followed by its own path, as it was in the snapshot. */
  lemma EligibleIsPublished(cfgRoot: string, es: seq<DiffEntry>, root: Path, filter: set<Kind>, side: D.Side,
                            list: seq<Path>, count: nat, req: P.Request, staging: Path, policy: N.Policy,
                            snap: N.Tree, files: N.Tree, p: Path)
    requires D.ExactOn(es, root, filter, side, list, count) && D.Eligible(es, root, filter, side, p) && p in snap
    requires P.Rejected(cfgRoot, req).None? && req.source == Render(root) && req.includePaths == Rendered(list)
    requires R.SourceOf(req) == root && X.MirroredAt(req, cfgRoot, staging, policy, snap, files, p)
    requires policy.Keep? || !X.UnsafeAt(req, staging, snap, p)
    ensures req.diffContainer != "" ==>
              var at := P.RepoDir(cfgRoot, req) + [req.diffContainer, req.snapshotShort] + p;
              at in files && files[at] == snap[p]
  {
    EligibleIsSelected(es, root, filter, side, list, count, req, snap, p);
    hide D.ExactOn, D.Eligible, R.Selected, P.Rejected, P.RepoDir, X.UnsafeAt, R.RestoredFor;
    if req.diffContainer != "" {
      assert P.SnapDir(cfgRoot, req) == P.RepoDir(cfgRoot, req) + [req.diffContainer, req.snapshotShort];
    }
  }
}
