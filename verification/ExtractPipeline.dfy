/** Restore, normalize, publish (internal/app/extract.go): the published tree is
    the snapshot's selected subtree, path for path. */
module ExtractPipeline {
  import opened Paths
  import opened Sorting
  import opened Wrappers
  import opened ExtractPlan
  import opened ExtractRestore
  import IncludeArgs
  import N = Normalize

  // Publishing on a file system.

  datatype PipelineError =
    | TargetParent | StagingExists | StagingFailed | RestoreFailed | NormalizeFailed(why: N.Failure)
    | FinalExists | StatFailed | PublishFailed

  /** Everything in a is in b, unchanged. */
  predicate Keeps(a: N.Tree, b: N.Tree) { forall q :: q in a ==> q in b && b[q] == a[q] }

  /** No file is in the way of creating p's directories. */
  predicate Reachable(t: N.Tree, p: Path) {
    forall n {:trigger p[..n]} :: 0 <= n <= |p| && p[..n] in t ==> t[p[..n]].DirNode?
  }

  predicate NothingBelow(t: N.Tree, p: Path) { forall q :: q in t ==> !Below(p, q) }

  /** b is a with the subtree of s at node put at final. */
  predicate Placed(a: N.Tree, s: N.Tree, node: Path, final: Path, b: N.Tree) {
    && (forall q :: q in a && !Under(final, q) ==> q in b && b[q] == a[q])
    && (forall q :: q in b ==>
          if Under(final, q) then node + q[|final|..] in s && b[q] == s[node + q[|final|..]] else q in a)
    && (forall r :: r in s && Under(node, r) ==> final + r[|node|..] in b)
  }

  function Subtree(s: N.Tree, node: Path, final: Path): N.Tree {
    map q | q in (set r | r in s && Under(node, r) :: final + r[|node|..]) && node + q[|final|..] in s
      :: s[node + q[|final|..]]
  }

  lemma SubtreeAt(s: N.Tree, node: Path, final: Path, q: Path)
    ensures q in Subtree(s, node, final) <==> Under(final, q) && node + q[|final|..] in s
    ensures q in Subtree(s, node, final) ==> Subtree(s, node, final)[q] == s[node + q[|final|..]]
  {
    if Under(final, q) && node + q[|final|..] in s {
      var r := node + q[|final|..];
      assert r[|node|..] == q[|final|..] && q == final + q[|final|..];
      assert Under(node, r) && q == final + r[|node|..];
    }
    if r :| r in s && Under(node, r) && q == final + r[|node|..] {
      assert Under(final, q);
    }
  }

  lemma AbsentHasNothing(a: N.Tree, final: Path)
    requires N.PrefixClosed(a) && final !in a
    ensures forall q :: q in a ==> !Under(final, q)
  {
    forall q | q in a ensures !Under(final, q) {
      if |final| < |q| {
        assert q[..|final|] in a;
      } else if |final| == |q| {
        assert q[..|final|] == q;
      }
      N.PrefixSlice(final, q);
    }
  }

  lemma UnderPrefix(final: Path, r: Path, n: nat)
    requires n <= |r|
    ensures Under(final, r[..n]) ==> Under(final, r) && |final| <= n
  {
  }

  lemma MovedIsPlaced(a: N.Tree, s: N.Tree, node: Path, final: Path)
    requires NothingBelow(a, final)
    ensures Placed(a, s, node, final, (a - {final}) + Subtree(s, node, final))
    ensures Keeps(a - {final}, (a - {final}) + Subtree(s, node, final))
  {
    hide Subtree;
    var sub := Subtree(s, node, final);
    forall q ensures q in sub <==> Under(final, q) && node + q[|final|..] in s {
      SubtreeAt(s, node, final, q);
    }
    forall q | q in sub ensures sub[q] == s[node + q[|final|..]] {
      SubtreeAt(s, node, final, q);
    }
    forall q | q in a && Under(final, q) ensures q == final {
      assert !Below(final, q);
    }
    forall r | r in s && Under(node, r) ensures final + r[|node|..] in sub {
      assert (final + r[|node|..])[|final|..] == r[|node|..] && node + r[|node|..] == r;
    }
  }

  lemma LinkedIsPlaced(a: N.Tree, s: N.Tree, node: Path, final: Path)
    requires N.PrefixClosed(a) && final !in a && node in s && !s[node].DirNode? && N.PrefixClosed(s)
    ensures Placed(a, s, node, final, a[final := s[node]])
  {
    var b := a[final := s[node]];
    AbsentHasNothing(a, final);
    forall r | r in s && Under(node, r) ensures r == node {
      if Below(node, r) {
        N.LeafAlone(s, node, r);
      }
    }
    assert final + [] == final && node + [] == node && final[|final|..] == [] && node[|node|..] == [];
  }

  /** Nothing of t lies at or below p. */
  predicate Clear(t: N.Tree, p: Path) { forall q :: q in t ==> !Under(p, q) }

  predicate Apart(a: Path, b: Path) { !Under(a, b) && !Under(b, a) }

  lemma BelowApart(a: Path, b: Path, q: Path)
    requires Apart(a, b) && (Under(b, q) || Under(q, b))
    ensures !Under(a, q)
  {
    if Under(a, q) && Under(b, q) {
      Comparable(a, b, q);
      assert false;
    }
  }

  lemma AboveClear(a: Path, q: Path, p: Path)
    requires Under(q, p)
    ensures Under(a, q) ==> Under(a, p)
  {
    if Under(a, q) {
      assert p[..|a|] == q[..|a|];
    }
  }

  /** A file system, seen from one staging path. */
  class FileSystem {
    const staging: Path
    const calm: bool              // no call fails, and no other process interferes
    var files: N.Tree             // everything outside the staging path
    var stage: Option<N.Tree>     // what is at the staging path, if anything

    ghost predicate Valid()
      reads this
    {
      && staging != [] && Clear(files, staging)
      && [] in files && files[[]].DirNode? && N.PrefixClosed(files)
    }

    method Fails() returns (failed: bool)
      ensures calm ==> !failed
    {
      failed := *;
      if calm {
        failed := false;
      }
    }

    /** Creates the missing directories on the way to p. */
    method MkdirAll(p: Path) returns (ok: bool)
      requires Valid() && !Under(staging, p)
      modifies this`files
      ensures Valid() && Keeps(old(files), files)
      ensures forall q :: q in files && q !in old(files) ==> Under(q, p) && files[q].DirNode?
      ensures ok ==> p in files && files[p].DirNode?
      ensures calm ==> (ok <==> Reachable(old(files), p))
    {
      for n := 0 to |p|
        invariant Valid() && Keeps(old(files), files)
        invariant p[..n] in files && files[p[..n]].DirNode?
        invariant forall q :: q in files && q !in old(files) ==> Under(q, p) && files[q].DirNode?
      {
        var q := p[..n + 1];
        if q in files {
          if !files[q].DirNode? {
            assert q in old(files) && !Reachable(old(files), p);
            return false;
          }
        } else {
          var fails := Fails();
          if fails {
            return false;
          }
          assert Parent(q) == p[..n];
          AboveClear(staging, q, p);
          ChildKeepsClosed(files, q, N.DirNode(PRIVATE_MODE));
          files := files[q := N.DirNode(PRIVATE_MODE)];
        }
      }
      assert p[..|p|] == p;
      ok := true;
      WayIsDirs(files, p);
    }

    /** What other processes may do meanwhile: create files, here never remove. */
    method Others()
      requires Valid()
      modifies this`files
      ensures Valid() && Keeps(old(files), files) && (calm ==> files == old(files))
    {
      var extra: N.Tree := *;
      if !calm && N.PrefixClosed(extra + files) && Clear(extra, staging) {
        files := extra + files;
      }
    }

    /** A hard link: refuses an occupied target. */
    method LinkNode(node: Path, final: Path) returns (err: Option<PipelineError>)
      requires Valid() && stage.Some? && N.PrefixClosed(stage.value)
      requires final != [] && Parent(final) in files && files[Parent(final)].DirNode? && Apart(staging, final)
      requires node in stage.value && !stage.value[node].DirNode?
      modifies this`files
      ensures Valid() && Keeps(old(files), files)
      ensures err.Some? ==> files == old(files)
      ensures final in old(files) ==> err.Some?
      ensures err == Some(FinalExists) ==> final in files
      ensures err != Some(StagingExists)
      ensures err.None? ==> Placed(old(files), stage.value, node, final, files)
      ensures calm && final !in old(files) ==> err.None?
    {
      if final in files {
        return Some(FinalExists);
      }
      var fails := Fails();
      if fails {
        return Some(PublishFailed);
      }
      ChildKeepsClosed(files, final, stage.value[node]);
      LinkedIsPlaced(files, stage.value, node, final);
      files := files[final := stage.value[node]];
      err := None;
    }

    /** rename(2) of a directory: an absent or empty directory may be replaced. */
    method RenameDir(node: Path, final: Path) returns (err: Option<PipelineError>)
      requires Valid() && stage.Some? && N.PrefixClosed(stage.value)
      requires final != [] && Parent(final) in files && files[Parent(final)].DirNode? && Apart(staging, final)
      modifies this
      ensures Valid()
      ensures err.Some? ==> files == old(files) && stage == old(stage)
      ensures err != Some(StagingExists) && err != Some(FinalExists)
      ensures err.None? ==>
                && node in old(stage).value && Placed(old(files), old(stage).value, node, final, files)
                && (final in old(files) ==> old(files)[final].DirNode? && NothingBelow(old(files), final))
                && Keeps(old(files) - {final}, files)
                && (node == [] <==> stage.None?)
                && (stage.Some? ==>
                      stage.value == map r | r in old(stage).value && !Under(node, r) :: old(stage).value[r])
      ensures calm && node in old(stage).value && old(stage).value[node].DirNode? && final !in old(files) ==> err.None?
    {
      var s := stage.value;
      if final !in files {
        AbsentHasNothing(files, final);
      }
      if node !in s || !s[node].DirNode? || (final in files && !files[final].DirNode?) || !NothingBelow(files, final) {
        return Some(PublishFailed);
      }
      var fails := Fails();
      if fails {
        return Some(PublishFailed);
      }
      MovedIsPlaced(files, s, node, final);
      MovedIsClosed(files, s, node, final);
      MovedIsClear(files, s, node, final, staging);
      files := (files - {final}) + Subtree(s, node, final);
      stage := if node == [] then None else Some(map r | r in s && !Under(node, r) :: s[r]);
      err := None;
    }
  }

  lemma WayIsDirs(t: N.Tree, p: Path)
    requires N.PrefixClosed(t) && p in t && t[p].DirNode?
    ensures forall n {:trigger p[..n]} :: 0 <= n <= |p| ==> p[..n] in t && t[p[..n]].DirNode?
  {
    assert p[..|p|] == p;
  }

  /** Best-effort removals after publishing: a linked node and an empty shell. */
  method RemoveShell(fs: FileSystem, node: Path, linked: bool)
    modifies fs`stage
    ensures fs.stage.Some? ==> old(fs.stage).Some? && fs.stage.value.Keys <= old(fs.stage).value.Keys
  {
    if fs.stage.Some? && linked && node in fs.stage.value {
      if * {
        fs.stage := Some(fs.stage.value - {node});
      }
    }
    if node != [] && fs.stage.Some? && fs.stage.value.Keys == {[]} {
      if * {
        fs.stage := None;
      }
    }
  }

  lemma ChildKeepsClosed(t: N.Tree, q: Path, x: N.FsNode)
    requires N.PrefixClosed(t) && q != [] && q !in t && Parent(q) in t && t[Parent(q)].DirNode?
    ensures N.PrefixClosed(t[q := x])
  {
    var t' := t[q := x];
    forall r, n | r in t' && 0 <= n < |r| ensures r[..n] in t' && t'[r[..n]].DirNode? {
      if r == q {
        if n < |q| - 1 {
          assert r[..n] == Parent(q)[..n];
        } else {
          assert r[..n] == Parent(q);
        }
      } else {
        assert r[..n] in t;
      }
    }
  }

  lemma MovedIsClosed(a: N.Tree, s: N.Tree, node: Path, final: Path)
    requires N.PrefixClosed(a) && N.PrefixClosed(s) && NothingBelow(a, final)
    requires node in s && s[node].DirNode? && final != [] && Parent(final) in a && a[Parent(final)].DirNode?
    requires [] in a && a[[]].DirNode?
    ensures var b := (a - {final}) + Subtree(s, node, final);
            N.PrefixClosed(b) && [] in b && b[[]].DirNode?
  {
    MovedIsPlaced(a, s, node, final);
    var b := (a - {final}) + Subtree(s, node, final);
    hide Subtree;
    forall r, n | r in b && 0 <= n < |r| ensures r[..n] in b && b[r[..n]].DirNode? {
      MovedPrefix(a, s, node, final, b, r, n);
    }
  }

  lemma MovedIsClear(a: N.Tree, s: N.Tree, node: Path, final: Path, staging: Path)
    requires Clear(a, staging) && Apart(staging, final)
    ensures Clear((a - {final}) + Subtree(s, node, final), staging)
  {
    var b := (a - {final}) + Subtree(s, node, final);
    forall q | q in b ensures !Under(staging, q) {
      SubtreeAt(s, node, final, q);
      if q in Subtree(s, node, final) {
        BelowApart(staging, final, q);
      }
    }
  }

  lemma MovedPrefix(a: N.Tree, s: N.Tree, node: Path, final: Path, b: N.Tree, r: Path, n: nat)
    requires N.PrefixClosed(a) && N.PrefixClosed(s) && Placed(a, s, node, final, b)
    requires node in s && s[node].DirNode? && final != [] && Parent(final) in a && a[Parent(final)].DirNode?
    requires r in b && n < |r|
    ensures r[..n] in b && b[r[..n]].DirNode?
  {
    if Under(final, r) && n >= |final| {
      var t := r[|final|..];
      var q := node + t[..n - |final|];
      assert r == final + t && node + t in s;
      assert (node + t)[..|node| + n - |final|] == q;
      assert q in s && s[q].DirNode?;
      assert final + q[|node|..] == r[..n];
      assert r[..n][|final|..] == t[..n - |final|];
    } else if Under(final, r) {
      assert r[..n] == final[..n];
      if n < |final| - 1 {
        assert final[..n] == Parent(final)[..n];
      } else {
        assert final[..n] == Parent(final);
      }
      UnderPrefix(final, r, n);
      assert r[..n] in a;
    } else {
      assert r in a && r[..n] in a;
      UnderPrefix(final, r, n);
    }
  }

  // The pipeline.

  datatype Outcome = Outcome(err: Option<PipelineError>, stagingCreated: bool, counts: N.Counts)

  /** Nothing occupies the final path or is in the way to it, and the node is
      there, and no directory when a file was asked for. */
  predicate CanPublish(files: N.Tree, s: N.Tree, mode: Mode, node: Path, final: Path)
  {
    && final != [] && Reachable(files, Parent(final)) && final !in files
    && node in s && (mode.ExtractFile? ==> !s[node].DirNode?)
  }

  /** Moves the restored node to its place in the mirror. `mid` is the file
      system as other processes left it before the last step. */
  method PublishExtract(fs: FileSystem, mode: Mode, node: Path, final: Path)
    returns (err: Option<PipelineError>, ghost mid: N.Tree)
    requires fs.Valid() && fs.stage.Some? && N.PrefixClosed(fs.stage.value) && final != [] && Apart(fs.staging, final)
    modifies fs
    ensures fs.Valid() && Keeps(old(fs.files), mid) && Keeps(old(fs.files), fs.files)
    ensures err.Some? ==> fs.stage == old(fs.stage)
    ensures err != Some(StagingExists)
    ensures err == Some(FinalExists) ==> final in fs.files
    ensures err.None? ==>
              && final !in old(fs.files) && node in old(fs.stage).value
              && (mode.ExtractFile? ==> !old(fs.stage).value[node].DirNode?)
              && Placed(mid, old(fs.stage).value, node, final, fs.files)
              && (final in mid ==> mid[final].DirNode? && NothingBelow(mid, final))
    ensures fs.calm ==> (err.None? <==> CanPublish(old(fs.files), old(fs.stage).value, mode, node, final))
  {
    hide Placed, Subtree, Clear, N.PrefixClosed, NothingBelow, Reachable;
    mid := fs.files;
    var s := fs.stage.value;
    assert !Under(fs.staging, Parent(final)) by {
      BelowApart(fs.staging, final, Parent(final));
    }
    hide Apart;
    var ok := fs.MkdirAll(Parent(final));
    mid := fs.files;
    if !ok {
      return Some(TargetParent), mid;
    }
    var isLeaf := node in s && !s[node].DirNode?;
    if mode.ExtractFile? && !isLeaf {
      return Some(PublishFailed), mid;
    }
    if isLeaf {
      err := fs.LinkNode(node, final);
      if err.None? {
        RemoveShell(fs, node, true);
      }
      return;
    }
    err, mid := PublishDir(fs, node, final);
  }

  method PublishDir(fs: FileSystem, node: Path, final: Path) returns (err: Option<PipelineError>, ghost mid: N.Tree)
    requires fs.Valid() && fs.stage.Some? && N.PrefixClosed(fs.stage.value) && final != [] && Apart(fs.staging, final)
    requires Parent(final) in fs.files && fs.files[Parent(final)].DirNode?
    modifies fs
    ensures fs.Valid() && Keeps(old(fs.files), mid) && Keeps(old(fs.files), fs.files)
    ensures err.Some? ==> fs.stage == old(fs.stage) && err != Some(StagingExists)
    ensures err == Some(FinalExists) ==> final in fs.files
    ensures err.None? ==>
              && final !in old(fs.files) && node in old(fs.stage).value
              && Placed(mid, old(fs.stage).value, node, final, fs.files)
              && (final in mid ==> mid[final].DirNode? && NothingBelow(mid, final))
    ensures fs.calm && final !in old(fs.files) && node in old(fs.stage).value && old(fs.stage).value[node].DirNode? ==>
              err.None?
  {
    hide Placed, Subtree, Clear, N.PrefixClosed, NothingBelow, Apart;
    mid := fs.files;
    if final in fs.files {
      return Some(FinalExists), mid;
    }
    var fails := fs.Fails();
    if fails {
      return Some(StatFailed), mid;
    }
    fs.Others();
    mid := fs.files;
    err := fs.RenameDir(node, final);
    if err.None? {
      RemoveShell(fs, node, false);
    }
  }

  /** The restored node: the source's last element, or all of staging. */
  function NodeOf(src: Path): Path { if src == [] then [] else [Base(src)] }

  const EMPTY_STAGING: N.Tree := map[[] := N.DirNode(PRIVATE_MODE)]

  /** Restic and what surrounds it: unicode.IsSpace, its expansion of variables,
      and the tree of each snapshot. */
  datatype Restic = Restic(space: char -> bool, expand: string -> string, trees: string -> N.Tree)

  ghost predicate ResticOk(rd: Restic) {
    && IncludeArgs.SpaceOk(rd.space) && IncludeArgs.ExpandOk(rd.expand)
    && forall id :: N.PrefixClosed(rd.trees(id))
  }

  /** The include paths on the command line would be over their budget. */
  predicate TooManyFlags(rd: Restic, req: Request) {
    IncludeArgs.Overflows(rd.space, ExtractTreeParams(req, "").includePaths)
  }

  predicate IsTree(t: N.Tree) { [] in t && t[[]].DirNode? && N.PrefixClosed(t) }

  /** The process: it restores what its arguments say to where they say. Into the
      staging directory nothing but that directory changes, and a failure may
      leave any part of the tree; anywhere else nothing is promised. */
  method RunRestic(fs: FileSystem, rd: Restic, a: IncludeArgs.Args) returns (ok: bool)
    requires fs.Valid() && fs.stage == Some(EMPTY_STAGING)
    modifies fs
    ensures TargetArg(a.argv) == fs.staging ==> fs.files == old(fs.files) && fs.stage.Some? && IsTree(fs.stage.value)
    ensures TargetArg(a.argv) == fs.staging && ok ==>
              IsTree(RestoredBy(rd.space, rd.expand, rd.trees(SnapshotArg(a.argv)), a)) ==>
              fs.stage.value == RestoredBy(rd.space, rd.expand, rd.trees(SnapshotArg(a.argv)), a)
    ensures fs.calm ==> ok
  {
    var fails := fs.Fails();
    ok := !fails;
    var tree := RestoredBy(rd.space, rd.expand, rd.trees(SnapshotArg(a.argv)), a);
    if !ok {
      tree := *;
    }
    if TargetArg(a.argv) == fs.staging {
      fs.stage := Some(if IsTree(tree) then tree else EMPTY_STAGING);
    } else {
      fs.files := *;
    }
  }

  /** Builds the arguments and restores what they say; too many flags are refused
      before anything is restored. */
  method RestoreTree(fs: FileSystem, rd: Restic, req: Request, ghost cfgRoot: string) returns (ok: bool)
    requires fs.Valid() && fs.stage == Some(EMPTY_STAGING) && ResticOk(rd) && Rejected(cfgRoot, req).None?
    modifies fs
    ensures fs.files == old(fs.files) && fs.stage.Some? && IsTree(fs.stage.value)
    ensures ok ==> fs.stage.value == RestoredFor(req, rd.trees(req.snapshotId))
    ensures TooManyFlags(rd, req) ==> !ok && fs.stage == Some(EMPTY_STAGING)
    ensures fs.calm && !TooManyFlags(rd, req) ==> ok
  {
    var p := ExtractTreeParams(req, Render(fs.staging));
    ParamsAreValid(req, cfgRoot, Render(fs.staging));
    EmptyIsTree();
    hide RestoredFor, RestoredBy, ExtractTreeParams, IncludeArgs.Overflows, IncludeArgs.ArgsOf, Rejected, IsTree,
      TargetArg, SnapshotArg;
    assert p.includePaths == ExtractTreeParams(req, "").includePaths by {
      SameIncludes(req, Render(fs.staging));
    }
    var args := IncludeArgs.BuildExtractTreeArgs(rd.space, p);
    if args.Err? {
      return false;
    }
    DeliveryRestores(rd.space, rd.expand, req, cfgRoot, fs.staging, rd.trees(req.snapshotId));
    RestoredForIsTree(req, rd.trees(req.snapshotId));
    ok := RunRestic(fs, rd, args.value);
  }

  lemma EmptyIsTree()
    ensures IsTree(EMPTY_STAGING)
  {
  }

  lemma SameIncludes(req: Request, staging: string)
    ensures ExtractTreeParams(req, staging).includePaths == ExtractTreeParams(req, "").includePaths
  {
    hide CleanBrowsePath;
  }

  lemma RestoredForIsTree(req: Request, snap: N.Tree)
    requires N.PrefixClosed(snap)
    ensures IsTree(RestoredFor(req, snap))
  {
    var p := ExtractTreeParams(req, "");
    RestoredIsTree(snap, if p.source == "" then [] else CleanBrowsePath(p.source), ParamIncludes(p));
  }

  /** The way to staging and to the final path is free, the final path vacant, and
      what was asked for among what is restored and not dropped as an unsafe link. */
  predicate CanExtract(files: N.Tree, req: Request, plan: Plan, policy: N.Policy, restored: N.Tree)
  {
    && plan.staging != [] && Reachable(files, Parent(plan.staging))
    && CanPublish(files, restored, req.mode, NodeOf(SourceOf(req)), plan.final)
    && !(policy.Skip? && N.OutLink(plan.staging, restored, NodeOf(SourceOf(req))))
  }

  /** More directories on other ways leave a way as free as it was. */
  lemma StillReachable(a: N.Tree, b: N.Tree, p: Path)
    requires Keeps(a, b) && forall q :: q in b && q !in a ==> b[q].DirNode?
    ensures Reachable(a, p) <==> Reachable(b, p)
  {
    if Reachable(a, p) {
      forall n | 0 <= n <= |p| && p[..n] in b ensures b[p[..n]].DirNode? {
        assert p[..n] in a ==> b[p[..n]] == a[p[..n]];
      }
    }
    if Reachable(b, p) {
      forall n | 0 <= n <= |p| && p[..n] in a ensures a[p[..n]].DirNode? {
        assert p[..n] in b;
      }
    }
  }

  /** Normalizing keeps the node, of its kind, unless it was an unsafe link that
      the policy skips. */
  lemma NodeStays(staging: Path, policy: N.Policy, a: N.Tree, b: N.Tree, node: Path)
    requires N.Finished(staging, policy, a, b, node)
    ensures node in b <==> node in a && !(policy.Skip? && N.OutLink(staging, a, node))
    ensures node in b ==> b[node].DirNode? == a[node].DirNode?
  {
    N.FinishedMeans(staging, policy, a, b, node);
    hide N.Finished, N.PointsOut;
  }

  /** runExtractPipeline, in process: staging is created, restored, normalized
      and published, or the error says which step stopped and staging stays. */
  method RunExtractPipeline(fs: FileSystem, rd: Restic, req: Request, cfgRoot: string, plan: Plan, policy: N.Policy)
    returns (r: Outcome, ghost norm: N.Tree, ghost mid: N.Tree)
    requires fs.Valid() && ResticOk(rd) && Rejected(cfgRoot, req).None?
    requires plan.staging == fs.staging && plan.final != [] && Apart(plan.staging, plan.final)
    modifies fs
    ensures fs.Valid() && Keeps(old(fs.files), fs.files) && Keeps(old(fs.files), mid)
    ensures r.err == Some(StagingExists) ==> old(fs.stage).Some?
    ensures r.err == Some(FinalExists) ==> plan.final in fs.files
    ensures if r.stagingCreated then old(fs.stage).None? else r.err.Some? && fs.stage == old(fs.stage)
    ensures TooManyFlags(rd, req) ==> r.err.Some?
    ensures r.err.None? ==>
              var restored := RestoredFor(req, rd.trees(req.snapshotId));
              && plan.final !in old(fs.files)
              && (forall q :: N.Finished(plan.staging, policy, restored, norm, q))
              && (!policy.Keep? ==> forall q :: !N.OutLink(plan.staging, norm, q))
              && r.counts == N.Counted4(plan.staging, restored)
              && NodeOf(SourceOf(req)) in norm
              && (req.mode.ExtractFile? ==> !norm[NodeOf(SourceOf(req))].DirNode?)
              && Placed(mid, norm, NodeOf(SourceOf(req)), plan.final, fs.files)
    ensures fs.calm ==>
              (r.err.None? <==>
                && old(fs.stage).None? && !TooManyFlags(rd, req)
                && CanExtract(old(fs.files), req, plan, policy, RestoredFor(req, rd.trees(req.snapshotId))))
  {
    hide Placed, RestoredFor, Rejected, TooManyFlags, Reachable, N.Finished, N.Counted4, N.OutLink, N.Kept;
    norm := map[];
    r := Outcome(None, false, N.Counts(0, 0, 0, 0));
    assert !Under(fs.staging, Parent(plan.staging));
    var ok := fs.MkdirAll(Parent(plan.staging));
    mid := fs.files;
    if !ok {
      r := r.(err := Some(TargetParent));
      return;
    }
    if fs.stage.Some? {
      r := r.(err := Some(StagingExists));
      return;
    }
    var fails := fs.Fails();
    if fails {
      r := r.(err := Some(StagingFailed));
      return;
    }
    fs.stage := Some(EMPTY_STAGING);
    r := r.(stagingCreated := true);
    var restored := RestoreTree(fs, rd, req, cfgRoot);
    if !restored {
      r := r.(err := Some(RestoreFailed));
      return;
    }
    ghost var stuck;
    var tree := fs.stage.value;
    var out, counts, err;
    out, counts, err, stuck := N.NormalizeExtractTreeMetadata(plan.staging, policy, tree, fs.calm);
    fs.stage := Some(out);
    norm := out;
    if err.Some? {
      r := r.(err := Some(NormalizeFailed(err.value)));
      return;
    }
    r := r.(counts := counts);
    AllFinishedIsClosed(plan.staging, policy, tree, out);
    NodeStays(plan.staging, policy, tree, out, NodeOf(SourceOf(req)));
    StillReachable(old(fs.files), fs.files, Parent(plan.final));
    UnderParent(plan.final, plan.staging);
    var perr;
    perr, mid := PublishExtract(fs, req.mode, NodeOf(SourceOf(req)), plan.final);
    r := r.(err := perr);
  }

  lemma UnderParent(a: Path, p: Path)
    requires p != []
    ensures Under(a, Parent(p)) ==> Under(a, p)
  {
    if Under(a, Parent(p)) {
      assert a == Parent(p)[..|a|] == p[..|a|];
    }
  }

  lemma AllFinishedIsClosed(root: Path, policy: N.Policy, a: N.Tree, b: N.Tree)
    requires N.PrefixClosed(a) && forall q :: N.Finished(root, policy, a, b, q)
    ensures N.PrefixClosed(b)
  {
    hide N.Finished;
    forall q ensures (q in b ==> q in a) && (q in a && a[q].DirNode? ==> q in b && b[q].DirNode?) {
      N.FinishedShrinks(root, policy, a, b, q);
    }
    N.ShrinksKeepsClosed(a, b);
  }

  /** p as the mirror should show it: at the snapshot directory followed by p
      when it was selected, unchanged or, for an unsafe link, as the policy
      says; and not there when it was not selected. */
  predicate MirroredAt(req: Request, cfgRoot: string, staging: Path, policy: N.Policy, snap: N.Tree, files: N.Tree,
                       p: Path)
    requires Rejected(cfgRoot, req).None? && Under(SourceOf(req), p)
  {
    var at := SnapDir(cfgRoot, req) + p;
    if !Selected(req, snap, p) then at !in files
    else if policy.Keep? || !UnsafeAt(req, staging, snap, p) then at in files && files[at] == snap[p]
    else if policy.Skip? then at !in files
    else at in files && files[at] == N.FileNode(snap[p].target + "\n", N.Mode(true, true, false, 0))
  }

  /** p is a link that, from where it is restored, points out of the staging
      directory. */
  predicate UnsafeAt(req: Request, staging: Path, snap: N.Tree, p: Path)
    requires Under(SourceOf(req), p)
  {
    p in snap && snap[p].LinkNode? && RebasedPath(SourceOf(req), p) != []
    && N.PointsOut(staging, staging + Parent(RebasedPath(SourceOf(req), p)), snap[p].target)
  }

  /** The mirror theorem: what normalizing and publishing leave is exactly what
      the mirror should show, at or below the final path. */
  lemma Mirror(req: Request, cfgRoot: string, hash16: string -> string, policy: N.Policy, snap: N.Tree,
               norm: N.Tree, mid: N.Tree, files: N.Tree, p: Path)
    requires HashOk(hash16) && PlanExtractPaths(cfgRoot, hash16, req).Ok? && Rejected(cfgRoot, req).None?
    requires N.PrefixClosed(snap)
    requires var plan := PlanExtractPaths(cfgRoot, hash16, req).value;
      && (forall q :: N.Finished(plan.staging, policy, RestoredFor(req, snap), norm, q))
      && Placed(mid, norm, NodeOf(SourceOf(req)), plan.final, files)
    requires Under(SourceOf(req), p) && RebasedPath(SourceOf(req), p) != []
    ensures var plan := PlanExtractPaths(cfgRoot, hash16, req).value;
            && Under(plan.final, SnapDir(cfgRoot, req) + p)
            && MirroredAt(req, cfgRoot, plan.staging, policy, snap, files, p)
  {
    assert Selected(req, snap, p) ==> p in snap;
    hide CleanBrowsePath, Rejected, RestoredFor, N.Finished, N.PointsOut, Selected, IncludesOk, ContainerOk, RepoDir,
      HashOk;
    PlanIsAccepted(cfgRoot, hash16, req);
    var plan, src := PlanExtractPaths(cfgRoot, hash16, req).value, SourceOf(req);
    hide PlanExtractPaths;
    var at, q := SnapDir(cfgRoot, req) + p, RebasedPath(src, p);
    StagingMirrors(req, cfgRoot, snap, p);
    MirrorPlace(SnapDir(cfgRoot, req), src, p);
    assert plan.final == SnapDir(cfgRoot, req) + src;
    N.FinishedMeans(plan.staging, policy, RestoredFor(req, snap), norm, q);
    PlacedAt(mid, norm, NodeOf(src), plan.final, files, at, q);
  }

  lemma PlanIsAccepted(cfgRoot: string, hash16: string -> string, req: Request)
    requires HashOk(hash16) && PlanExtractPaths(cfgRoot, hash16, req).Ok?
    ensures Rejected(cfgRoot, req).None?
    ensures PlanExtractPaths(cfgRoot, hash16, req).value.final == SnapDir(cfgRoot, req) + SourceOf(req)
  {
  }

  /** Below the final path and below the restored node, the rest is the same. */
  lemma MirrorPlace(dir: Path, src: Path, p: Path)
    requires Under(src, p)
    ensures Under(dir + src, dir + p) && Under(NodeOf(src), RebasedPath(src, p))
    ensures NodeOf(src) + (dir + p)[|dir + src|..] == RebasedPath(src, p)
    ensures dir + src + RebasedPath(src, p)[|NodeOf(src)|..] == dir + p
  {
    assert p == src + p[|src|..];
    assert (dir + p)[|dir + src|..] == p[|src|..];
    assert dir + p == dir + src + p[|src|..];
    if src != [] {
      assert RebasedPath(src, p)[1..] == p[|src|..];
    }
  }

  lemma PlacedAt(a: N.Tree, s: N.Tree, node: Path, final: Path, b: N.Tree, at: Path, q: Path)
    requires Placed(a, s, node, final, b) && Under(final, at) && Under(node, q)
    requires node + at[|final|..] == q && final + q[|node|..] == at
    ensures at in b <==> q in s
    ensures at in b ==> b[at] == s[q]
  {
  }

  datatype ExtractError = InvalidRequest(field: Field) | Pipeline(why: PipelineError)

  /** App.Extract, unprivileged: plan, check the mode, refuse occupied paths, run
      the pipeline. Success means the mirror holds for every snapshot path at or
      below the source, that each class was counted exactly, and that nothing
      present before was touched. */
  method Extract(fs: FileSystem, rd: Restic, req: Request, cfgRoot: string, hash16: string -> string, policy: N.Policy)
    returns (err: Option<ExtractError>, counts: N.Counts)
    requires HashOk(hash16) && ResticOk(rd) && fs.Valid()
    requires var plan := PlanExtractPaths(cfgRoot, hash16, req); plan.Ok? ==> fs.staging == plan.value.staging
    modifies fs
    ensures fs.Valid() && Keeps(old(fs.files), fs.files)
    ensures Rejected(cfgRoot, req).Some? ==> err == Some(InvalidRequest(Rejected(cfgRoot, req).value))
    ensures Rejected(cfgRoot, req).None? && CheckExtractModeGate(req).Some? ==>
              err == Some(InvalidRequest(CheckExtractModeGate(req).value))
    ensures Acceptable(cfgRoot, req) <==> !(err.Some? && err.value.InvalidRequest?)
    ensures err.Some? && err.value.InvalidRequest? ==> fs.files == old(fs.files) && fs.stage == old(fs.stage)
    ensures old(fs.stage).Some? ==> err.Some? && fs.stage == old(fs.stage)
    ensures err.None? ==> Rejected(cfgRoot, req).None? && CheckExtractModeGate(req).None? && !TooManyFlags(rd, req)
    ensures err == Some(Pipeline(FinalExists)) ==> PlanExtractPaths(cfgRoot, hash16, req).value.final in fs.files
    ensures fs.calm && Rejected(cfgRoot, req).None? && CheckExtractModeGate(req).None? ==>
              (err.None? <==>
                && old(fs.stage).None? && !TooManyFlags(rd, req)
                && CanExtract(old(fs.files), req, PlanExtractPaths(cfgRoot, hash16, req).value, policy,
                              RestoredFor(req, rd.trees(req.snapshotId))))
    ensures err.None? ==>
              var snap := rd.trees(req.snapshotId);
              && (forall p :: Under(SourceOf(req), p) && RebasedPath(SourceOf(req), p) != [] ==>
                    MirroredAt(req, cfgRoot, fs.staging, policy, snap, fs.files, p))
              && counts == N.Counted4(fs.staging, RestoredFor(req, snap))
  {
    hide Placed, RestoredFor, CleanBrowsePath, N.Finished, N.Counted4, N.OutLink, Acceptable, SnapDir,
      RepoDir, IncludesOk, StagingName, MirroredAt, CheckExtractModeGate, TooManyFlags, Reachable;
    counts := N.Counts(0, 0, 0, 0);
    AcceptedExactly(cfgRoot, req);
    var planned := PlanExtractPaths(cfgRoot, hash16, req);
    if planned.Err? {
      return Some(InvalidRequest(planned.error)), counts;
    }
    var gate := CheckExtractModeGate(req);
    if gate.Some? {
      return Some(InvalidRequest(gate.value)), counts;
    }
    var plan := planned.value;
    if fs.stage.Some? {
      return Some(Pipeline(StagingExists)), counts;
    }
    if plan.final in fs.files {
      return Some(Pipeline(FinalExists)), counts;
    }
    PlanIsNotRoot(cfgRoot, hash16, req);
    StagingApart(cfgRoot, hash16, req, req);
    var r;
    ghost var norm, mid;
    r, norm, mid := RunExtractPipeline(fs, rd, req, cfgRoot, plan, policy);
    if r.err.Some? {
      return Some(Pipeline(r.err.value)), counts;
    }
    counts, err := r.counts, None;
    ghost var snap := rd.trees(req.snapshotId);
    forall p | Under(SourceOf(req), p) && RebasedPath(SourceOf(req), p) != []
      ensures MirroredAt(req, cfgRoot, plan.staging, policy, snap, fs.files, p)
    {
      Mirror(req, cfgRoot, hash16, policy, snap, norm, mid, fs.files, p);
    }
  }

  lemma PlanIsNotRoot(cfgRoot: string, hash16: string -> string, req: Request)
    requires HashOk(hash16) && PlanExtractPaths(cfgRoot, hash16, req).Ok?
    ensures var plan := PlanExtractPaths(cfgRoot, hash16, req).value; plan.staging != [] && plan.final != []
  {
    hide CleanBrowsePath, IncludesOk;
  }
}
