/** Normalizing a restored tree (internal/app/extract_metadata.go): a recursive
    walk that widens directory modes and puts them back on every exit, counts
    nodes, and applies the policy for links that point out of the tree. */
module Normalize {
  import opened Paths
  import opened Sorting
  import opened Wrappers

  /** A mode: the owner's three bits and all the others. */
  datatype Mode = Mode(r: bool, w: bool, x: bool, rest: nat)

  datatype FsNode =
    | DirNode(mode: Mode) | FileNode(content: string, mode: Mode) | LinkNode(target: string) | SpecialNode(kind: nat)

  /** A directory tree by path relative to its root. */
  type Tree = map<Path, FsNode>

  datatype Policy = Keep | Skip | Placeholder

  datatype Failure = Cancelled | Metadata

  datatype Counts = Counts(files: nat, dirs: nat, unsafeLinks: nat, other: nat)

  const NUL := '\0'

  function Widened(m: Mode): Mode { m.(r := true, w := true, x := true) }

  predicate OwnerRwx(m: Mode) { m.r && m.w && m.x }

  // Which links are unsafe.

  /** filepath.Rel on clean paths. */
  function RelParts(root: Path, p: Path): seq<string> {
    if root != [] && p != [] && root[0] == p[0] then RelParts(root[1..], p[1..])
    else seq(|root|, _ => "..") + p
  }

  predicate ClassifySymlinkTarget(root: Path, parentDir: Path, target: string) {
    if target == "" || NUL in target then true
    else if target[0] == '/' then true
    else
      var rel := RelParts(root, CleanBrowsePath(Render(parentDir) + "/" + target));
      rel != [] && rel[0] == ".."
  }

  lemma {:induction false} RelGoesUp(root: Path, p: Path)
    ensures RelParts(root, p) != [] && RelParts(root, p)[0] == ".." <==> !Under(root, p)
  {
    if root != [] && p != [] && root[0] == p[0] {
      RelGoesUp(root[1..], p[1..]);
      assert root == [root[0]] + root[1..] && p == [p[0]] + p[1..];
    }
  }

  /** Unsafe is: empty, holding a NUL, absolute, or ending, element by element
      from the link's directory, outside the root. */
  lemma UnsafeExact(root: Path, parentDir: Path, target: string)
    ensures ClassifySymlinkTarget(root, parentDir, target) <==>
            target == "" || NUL in target || target[0] == '/' || !Under(root, Resolve(Split(target), parentDir))
  {
    if target != "" {
      RelGoesUp(root, CleanBrowsePath(Render(parentDir) + "/" + target));
      if parentDir == [] {
        SplitAtSlash("/", target);
        assert Render(parentDir) + "/" + target == "/" + "/" + target;
        CleanJoin("/", target);
        CleanUndoesRender([]);
      } else {
        CleanJoin(Render(parentDir), target);
        CleanUndoesRender(parentDir);
      }
    }
  }

  /** A link whose every element stays inside is safe. */
  lemma {:induction false} DescendingIsSafe(root: Path, parentDir: Path, target: string)
    requires Under(root, parentDir) && target != "" && NUL !in target && target[0] != '/'
    requires forall i :: 0 <= i < |Split(target)| ==> Split(target)[i] != ".."
    ensures !ClassifySymlinkTarget(root, parentDir, target)
  {
    UnsafeExact(root, parentDir, target);
    ResolveDescends(Split(target), parentDir);
  }

  lemma {:induction false} ResolveDescends(parts: seq<string>, done: Path)
    requires forall i :: 0 <= i < |parts| ==> '/' !in parts[i]
    requires forall i :: 0 <= i < |parts| ==> parts[i] != ".."
    ensures Under(done, Resolve(parts, done))
  {
    if parts != [] {
      ResolveDescends(parts[1..], if parts[0] == "" || parts[0] == "." then done else done + [parts[0]]);
    }
  }

  /** What makes a target unsafe, in the terms of a link's own directory. */
  predicate PointsOut(root: Path, dir: Path, target: string) {
    target == "" || '\0' in target || target[0] == '/' || !Under(root, Resolve(Split(target), dir))
  }

  // What the walk does to one node, and to a tree.

  predicate Unsafe(root: Path, t: Tree, q: Path) {
    q in t && q != [] && t[q].LinkNode? && ClassifySymlinkTarget(root, root + Parent(q), t[q].target)
  }

  const PLACEHOLDER_MODE := Mode(true, true, false, 0)

  function Inert(target: string): FsNode { FileNode(target + "\n", PLACEHOLDER_MODE) }

  predicate Same(a: Tree, b: Tree, q: Path) { (q in a <==> q in b) && (q in a ==> a[q] == b[q]) }

  /** q as a finished walk leaves it. */
  predicate Finished(root: Path, policy: Policy, a: Tree, b: Tree, q: Path) {
    if !Unsafe(root, a, q) || policy.Keep? then Same(a, b, q)
    else if policy.Skip? then q !in b
    else q in b && b[q] == Inert(a[q].target)
  }

  predicate OutLink(root: Path, t: Tree, q: Path) {
    q in t && q != [] && t[q].LinkNode? && PointsOut(root, root + q[..|q| - 1], t[q].target)
  }

  /** Finished means: links that point out are kept, gone, or private text files
      that hold their target, as the policy says, and all else is as it was. */
  lemma FinishedMeans(root: Path, policy: Policy, a: Tree, b: Tree, q: Path)
    ensures Finished(root, policy, a, b, q) <==>
            if OutLink(root, a, q) && policy.Skip? then q !in b
            else if OutLink(root, a, q) && policy.Placeholder? then
              q in b && b[q] == FileNode(a[q].target + "\n", Mode(true, true, false, 0))
            else (q in b <==> q in a) && (q in a ==> b[q] == a[q])
  {
    if q in a && q != [] && a[q].LinkNode? {
      UnsafeExact(root, root + Parent(q), a[q].target);
    }
    hide ClassifySymlinkTarget, PointsOut;
  }

  /** q as an interrupted walk may leave it: only unsafe links are touched, and
      directories have their modes back unless their own chmod back failed, which
      leaves them widened. */
  predicate Kept(root: Path, policy: Policy, a: Tree, b: Tree, q: Path, stuck: set<Path>) {
    if Unsafe(root, a, q) && !policy.Keep? then q in b ==> b[q] == a[q] || b[q] == Inert(a[q].target)
    else Same(a, b, q) || (q in stuck && LeftWidened(a, b, q))
  }

  /** What is newly stuck: directories at or below p that had to be widened. */
  ghost predicate StuckIn(t: Tree, p: Path, before: set<Path>, after: set<Path>) {
    && before <= after
    && forall q :: q in after && q !in before ==> Under(p, q) && q in t && t[q].DirNode? && !OwnerRwx(t[q].mode)
  }

  predicate LeftWidened(a: Tree, b: Tree, q: Path) {
    q in a && a[q].DirNode? && q in b && b[q] == DirNode(Widened(a[q].mode))
  }

  predicate PrefixClosed(t: Tree) {
    forall q, n {:trigger q[..n]} :: q in t && 0 <= n < |q| ==> q[..n] in t && t[q[..n]].DirNode?
  }

  // Counting.

  datatype Class = IsFile | IsDir | IsUnsafe | IsOther

  predicate InClass(root: Path, t: Tree, c: Class, q: Path)
    requires q in t
  {
    match c
    case IsFile => t[q].FileNode?
    case IsDir => t[q].DirNode?
    case IsUnsafe => Unsafe(root, t, q)
    case IsOther => t[q].SpecialNode?
  }

  /** The nodes of a class strictly below p. */
  function ClassBelow(root: Path, t: Tree, c: Class, p: Path): set<Path> {
    set q | q in t && Below(p, q) && InClass(root, t, c, q)
  }

  function Tally(k: Counts, c: Class): nat {
    match c case IsFile => k.files case IsDir => k.dirs case IsUnsafe => k.unsafeLinks case IsOther => k.other
  }

  /** The nodes of a class at or below the children of p named. */
  function ClassOf(root: Path, t: Tree, c: Class, p: Path, names: set<Component>): set<Path> {
    set q | q in t && Below(p, q) && q[|p|] in names && InClass(root, t, c, q)
  }

  lemma PrefixSlice(q: Path, r: Path)
    ensures Under(q, r) ==> r[..|q|] == q
  {
  }

  lemma NothingBelowLeaf(root: Path, t: Tree, c: Class, q: Path)
    requires q in t && !t[q].DirNode? && PrefixClosed(t)
    ensures ClassBelow(root, t, c, q) == {}
  {
    hide InClass;
    forall r | r in t && |q| < |r| ensures !Below(q, r) {
      assert r[..|q|] in t && t[r[..|q|]].DirNode?;
      PrefixSlice(q, r);
    }
  }

  lemma ChildSplit(p: Path, name: Component, q: Path)
    requires Below(p, q)
    ensures q[|p|] == name <==> q == p + [name] || Below(p + [name], q)
  {
    if q[|p|] == name {
      assert q[..|p| + 1] == p + [name];
    }
  }

  lemma DisjointUnion<T(!new)>(all: set<T>, a: set<T>, b: set<T>, c: set<T>)
    requires forall x :: x in all <==> x in a || x in b || x in c
    requires forall x :: !(x in a && (x in b || x in c)) && !(x in b && x in c)
    ensures |all| == |a| + |b| + |c|
  {
    assert all == a + b + c && a !! b && (a + b) !! c;
  }

  lemma ChildMember(root: Path, t: Tree, c: Class, p: Path, names: set<Component>, name: Component, q: Path)
    requires name !in names && p + [name] in t
    ensures var child := p + [name];
            var was, below := q in ClassOf(root, t, c, p, names), q in ClassBelow(root, t, c, child);
            var own := q in (if InClass(root, t, c, child) then {child} else {});
            && (q in ClassOf(root, t, c, p, names + {name}) <==> was || below || own)
            && !(was && (below || own)) && !(below && own)
  {
    hide InClass;
    assert Below(p, p + [name]) && (p + [name])[|p|] == name;
    if Below(p, q) {
      ChildSplit(p, name, q);
    } else {
      assert !Under(p + [name], q);
    }
  }

  /** A further child adds itself and what is below it. */
  lemma ChildAdds(root: Path, t: Tree, c: Class, p: Path, names: set<Component>, name: Component)
    requires name !in names && p + [name] in t
    ensures |ClassOf(root, t, c, p, names + {name})| ==
            |ClassOf(root, t, c, p, names)| + |ClassBelow(root, t, c, p + [name])|
            + if InClass(root, t, c, p + [name]) then 1 else 0
  {
    hide InClass, ClassOf, ClassBelow;
    var child := p + [name];
    var was, below := ClassOf(root, t, c, p, names), ClassBelow(root, t, c, child);
    var own := if InClass(root, t, c, child) then {child} else {};
    var all := ClassOf(root, t, c, p, names + {name});
    forall q
      ensures q in all <==> q in was || q in below || q in own
      ensures !(q in was && (q in below || q in own)) && !(q in below && q in own)
    {
      ChildMember(root, t, c, p, names, name, q);
    }
    DisjointUnion(all, was, below, own);
  }

  /** The names of p's children. */
  ghost predicate NamesOf(t: Tree, p: Path, names: set<Component>) {
    forall n: Component :: n in names <==> p + [n] in t
  }

  lemma AllChildren(root: Path, t: Tree, c: Class, p: Path, names: set<Component>)
    requires PrefixClosed(t) && NamesOf(t, p, names)
    ensures ClassOf(root, t, c, p, names) == ClassBelow(root, t, c, p)
  {
    hide InClass;
    forall q | q in t && Below(p, q) ensures q[|p|] in names {
      assert q[..|p| + 1] == p + [q[|p|]];
      if |q| > |p| + 1 {
        assert q[..|p| + 1] in t;
      } else {
        assert q == q[..|p| + 1];
      }
    }
  }

  /** Only nodes that are not directories go, and directories stay directories. */
  ghost predicate Shrinks(a: Tree, b: Tree) {
    forall q :: (q in b ==> q in a) && (q in a && a[q].DirNode? ==> q in b && b[q].DirNode?)
  }

  lemma ShrinksKeepsClosed(a: Tree, b: Tree)
    requires PrefixClosed(a) && Shrinks(a, b)
    ensures PrefixClosed(b)
  {
    forall q, n | q in b && 0 <= n < |q| ensures q[..n] in b && b[q[..n]].DirNode? {
      assert q[..n] in a;
    }
  }

  lemma FinishedIsKept(root: Path, policy: Policy, a: Tree, b: Tree, q: Path, stuck: set<Path>)
    requires Finished(root, policy, a, b, q)
    ensures Kept(root, policy, a, b, q, stuck)
  {
    hide ClassifySymlinkTarget;
  }

  // The walk.

  /** The region at or below the children named is finished, all else as before. */
  ghost predicate Walked(root: Path, policy: Policy, a: Tree, b: Tree, p: Path, names: set<Component>) {
    forall q {:trigger Same(a, b, q)} {:trigger Finished(root, policy, a, b, q)} ::
      if Below(p, q) && q[|p|] in names then Finished(root, policy, a, b, q) else Same(a, b, q)
  }

  ghost predicate AllKept(root: Path, policy: Policy, a: Tree, b: Tree, p: Path, stuck: set<Path>) {
    forall q {:trigger Same(a, b, q)} {:trigger Kept(root, policy, a, b, q, stuck)} ::
      if Under(p, q) then Kept(root, policy, a, b, q, stuck) else Same(a, b, q)
  }

  ghost predicate AllFinished(root: Path, policy: Policy, a: Tree, b: Tree, p: Path) {
    forall q {:trigger Same(a, b, q)} {:trigger Finished(root, policy, a, b, q)} ::
      if Under(p, q) then Finished(root, policy, a, b, q) else Same(a, b, q)
  }

  ghost predicate Counted(root: Path, t: Tree, k: Counts, k': Counts, p: Path, names: set<Component>) {
    forall c :: Tally(k', c) == Tally(k, c) + |ClassOf(root, t, c, p, names)|
  }

  /** What visiting the subtree at q adds to a count. */
  function Weight(root: Path, t: Tree, c: Class, q: Path): nat
    requires q in t
  {
    |ClassBelow(root, t, c, q)| + if InClass(root, t, c, q) then 1 else 0
  }

  ghost predicate AddedAt(root: Path, t: Tree, k: Counts, k': Counts, q: Path)
    requires q in t
  {
    forall c :: Tally(k', c) == Tally(k, c) + Weight(root, t, c, q)
  }

  lemma WalkedShrinks(root: Path, policy: Policy, a: Tree, b: Tree, p: Path, names: set<Component>)
    requires Walked(root, policy, a, b, p, names)
    ensures Shrinks(a, b)
  {
    forall q ensures (q in b ==> q in a) && (q in a && a[q].DirNode? ==> q in b && b[q].DirNode?) {
      FinishedShrinks(root, policy, a, b, q);
      assert Same(a, b, q) || Finished(root, policy, a, b, q);
    }
  }

  lemma FinishedShrinks(root: Path, policy: Policy, a: Tree, b: Tree, q: Path)
    ensures Finished(root, policy, a, b, q) || Same(a, b, q) ==>
              (q in b ==> q in a) && (q in a && a[q].DirNode? ==> q in b && b[q].DirNode?)
  {
    hide ClassifySymlinkTarget;
  }

  /** One more child finished. */
  lemma WalkedGrows(root: Path, policy: Policy, t0: Tree, a: Tree, b: Tree, p: Path, names: set<Component>,
                    name: Component)
    requires Walked(root, policy, t0, a, p, names) && name !in names
    requires AllFinished(root, policy, a, b, p + [name])
    ensures Walked(root, policy, t0, b, p, names + {name})
  {
    hide Finished, Unsafe;
    forall q
      ensures if Below(p, q) && q[|p|] in names + {name} then Finished(root, policy, t0, b, q) else Same(t0, b, q)
    {
      if Below(p, q) {
        ChildSplit(p, name, q);
      }
      assert if Under(p + [name], q) then Finished(root, policy, a, b, q) else Same(a, b, q);
      assert if Below(p, q) && q[|p|] in names then Finished(root, policy, t0, a, q) else Same(t0, a, q);
      FinishedThrough(root, policy, t0, a, b, q);
    }
  }

  lemma FinishedThrough(root: Path, policy: Policy, t0: Tree, a: Tree, b: Tree, q: Path)
    ensures Same(t0, a, q) && Finished(root, policy, a, b, q) ==> Finished(root, policy, t0, b, q)
    ensures Finished(root, policy, t0, a, q) && Same(a, b, q) ==> Finished(root, policy, t0, b, q)
    ensures Same(t0, a, q) && Same(a, b, q) ==> Same(t0, b, q)
  {
    hide ClassifySymlinkTarget;
  }

  /** A child that failed leaves the parent's subtree kept. */
  lemma WalkedThenKept(root: Path, policy: Policy, t0: Tree, a: Tree, b: Tree, p: Path, names: set<Component>,
                       name: Component, stuck: set<Path>)
    requires Walked(root, policy, t0, a, p, names) && name !in names
    requires AllKept(root, policy, a, b, p + [name], stuck)
    ensures AllKept(root, policy, t0, b, p, stuck)
    ensures Same(t0, b, p)
  {
    hide Finished, Unsafe, Kept;
    forall q ensures if Under(p, q) then Kept(root, policy, t0, b, q, stuck) else Same(t0, b, q)
      ensures q == p ==> Same(t0, b, q)
    {
      if Below(p, q) {
        ChildSplit(p, name, q);
      }
      assert if Under(p + [name], q) then Kept(root, policy, a, b, q, stuck) else Same(a, b, q);
      assert if Below(p, q) && q[|p|] in names then Finished(root, policy, t0, a, q) else Same(t0, a, q);
      KeptThrough(root, policy, t0, a, b, q, stuck);
    }
  }

  lemma KeptThrough(root: Path, policy: Policy, t0: Tree, a: Tree, b: Tree, q: Path, stuck: set<Path>)
    ensures Same(t0, a, q) && Kept(root, policy, a, b, q, stuck) ==> Kept(root, policy, t0, b, q, stuck)
    ensures Finished(root, policy, t0, a, q) && Same(a, b, q) ==> Kept(root, policy, t0, b, q, stuck)
    ensures Same(t0, a, q) && Same(a, b, q) ==> Kept(root, policy, t0, b, q, stuck) && Same(t0, b, q)
  {
    hide ClassifySymlinkTarget;
  }

  lemma SameClass(root: Path, t0: Tree, a: Tree, c: Class, r: Path)
    requires Same(t0, a, r) && r in t0
    ensures InClass(root, t0, c, r) == InClass(root, a, c, r)
  {
    hide ClassifySymlinkTarget;
  }

  lemma SameWeight(root: Path, t0: Tree, a: Tree, c: Class, q: Path)
    requires q in t0 && q in a && forall r :: Under(q, r) ==> Same(t0, a, r)
    ensures Weight(root, t0, c, q) == Weight(root, a, c, q)
  {
    hide InClass;
    SameClass(root, t0, a, c, q);
    forall r ensures r in ClassBelow(root, t0, c, q) <==> r in ClassBelow(root, a, c, q) {
      if Under(q, r) {
        assert Same(t0, a, r);
        if r in t0 {
          SameClass(root, t0, a, c, r);
        }
      }
    }
    assert ClassBelow(root, t0, c, q) == ClassBelow(root, a, c, q);
  }

  lemma CountedGrows(root: Path, t0: Tree, k0: Counts, k: Counts, k': Counts, p: Path, names: set<Component>,
                     name: Component)
    requires name !in names && p + [name] in t0
    requires Counted(root, t0, k0, k, p, names) && AddedAt(root, t0, k, k', p + [name])
    ensures Counted(root, t0, k0, k', p, names + {name})
  {
    hide ClassOf, ClassBelow, InClass, Tally;
    forall c ensures Tally(k', c) == Tally(k0, c) + |ClassOf(root, t0, c, p, names + {name})| {
      ChildAdds(root, t0, c, p, names, name);
      assert Tally(k', c) == Tally(k, c) + Weight(root, t0, c, p + [name]);
      assert Tally(k, c) == Tally(k0, c) + |ClassOf(root, t0, c, p, names)|;
    }
  }

  function NameOrder(): (Component, Component) -> bool { (a: Component, b: Component) => StrLess(a, b) }

  lemma NameInDir(t: Tree, p: Path, n: Component, all: set<Component>)
    requires all == set q | q in t && q != [] && Parent(q) == p :: Base(q)
    ensures n in all <==> p + [n] in t
  {
    if n in all {
      var q :| q in t && q != [] && Parent(q) == p && Base(q) == n;
      assert q == p + [n];
    }
    if p + [n] in t {
      assert Parent(p + [n]) == p && Base(p + [n]) == n;
    }
  }

  lemma Untouched(root: Path, policy: Policy, t: Tree, q: Path, stuck: set<Path>)
    ensures AllKept(root, policy, t, t, q, stuck) && Shrinks(t, t)
  {
    hide ClassifySymlinkTarget;
  }

  lemma LeafWeight(root: Path, t: Tree, q: Path)
    requires q in t && !t[q].DirNode? && PrefixClosed(t)
    ensures Weight(root, t, IsFile, q) == if t[q].FileNode? then 1 else 0
    ensures Weight(root, t, IsDir, q) == 0
    ensures Weight(root, t, IsUnsafe, q) == if Unsafe(root, t, q) then 1 else 0
    ensures Weight(root, t, IsOther, q) == if t[q].SpecialNode? then 1 else 0
  {
    forall c ensures ClassBelow(root, t, c, q) == {} {
      NothingBelowLeaf(root, t, c, q);
    }
    hide Unsafe, ClassBelow;
  }

  lemma LeafAdds(root: Path, t: Tree, q: Path, k: Counts, k': Counts)
    requires q in t && !t[q].DirNode? && PrefixClosed(t)
    requires k' == Counts(k.files + (if t[q].FileNode? then 1 else 0), k.dirs,
                          k.unsafeLinks + (if Unsafe(root, t, q) then 1 else 0),
                          k.other + (if t[q].SpecialNode? then 1 else 0))
    ensures AddedAt(root, t, k, k', q)
  {
    LeafWeight(root, t, q);
    hide Weight, Unsafe;
    forall c ensures Tally(k', c) == Tally(k, c) + Weight(root, t, c, q) {
      match c
      case IsFile =>
      case IsDir =>
      case IsUnsafe =>
      case IsOther =>
    }
  }

  lemma DirAdds(root: Path, t: Tree, q: Path, k: Counts, k': Counts)
    requires q in t && t[q].DirNode?
    requires forall c :: Tally(k', c) == Tally(k, c) + |ClassBelow(root, t, c, q)| + if c.IsDir? then 1 else 0
    ensures AddedAt(root, t, k, k', q)
  {
    hide ClassBelow, ClassifySymlinkTarget, Tally;
    forall c ensures Tally(k', c) == Tally(k, c) + Weight(root, t, c, q) {
      match c
      case IsFile =>
      case IsDir =>
      case IsUnsafe =>
      case IsOther =>
    }
  }

  lemma LeafAlone(t: Tree, q: Path, r: Path)
    requires q in t && !t[q].DirNode? && PrefixClosed(t) && Below(q, r)
    ensures r !in t
  {
    PrefixSlice(q, r);
  }

  lemma LinkDone(root: Path, policy: Policy, a: Tree, b: Tree, q: Path, stuck: set<Path>)
    requires q in a && !a[q].DirNode? && PrefixClosed(a)
    requires forall r :: r != q ==> Same(a, b, r)
    ensures Finished(root, policy, a, b, q) ==> AllFinished(root, policy, a, b, q) && Shrinks(a, b)
    ensures Kept(root, policy, a, b, q, stuck) ==> AllKept(root, policy, a, b, q, stuck) && Shrinks(a, b)
  {
    hide Unsafe, Finished, Kept, PrefixClosed;
    forall r | r != q
      ensures Finished(root, policy, a, b, r) || !Under(q, r)
      ensures Kept(root, policy, a, b, r, stuck) || !Under(q, r)
    {
      if Below(q, r) {
        LeafAlone(a, q, r);
        assert Same(a, b, r);
        AbsentIsFinished(root, policy, a, b, r);
        FinishedIsKept(root, policy, a, b, r, stuck);
      }
    }
    if Finished(root, policy, a, b, q) {
      assert AllFinished(root, policy, a, b, q);
      DoneIsKept(root, policy, a, b, q);
      KeptShrinks(root, policy, a, b, q, stuck);
    }
    if Kept(root, policy, a, b, q, stuck) {
      assert AllKept(root, policy, a, b, q, stuck);
      KeptShrinks(root, policy, a, b, q, stuck);
    }
  }

  lemma NoneWalked(root: Path, policy: Policy, t: Tree, p: Path, k: Counts)
    ensures Walked(root, policy, t, t, p, {}) && Counted(root, t, k, k, p, {})
  {
    hide Finished, InClass;
    forall c ensures ClassOf(root, t, c, p, {}) == {} {
    }
  }

  lemma StillThere(root: Path, policy: Policy, t0: Tree, t: Tree, p: Path, done: set<Component>, name: Component)
    requires Walked(root, policy, t0, t, p, done) && name !in done && p + [name] in t0
    ensures p + [name] in t && forall r :: Under(p + [name], r) ==> Same(t0, t, r)
  {
    hide Finished;
    forall r | Under(p + [name], r) ensures Same(t0, t, r) {
      PrefixSlice(p + [name], r);
      assert r[|p|] == name && Below(p, r);
    }
    assert Same(t0, t, p + [name]);
  }

  lemma ShrinksThrough(a: Tree, b: Tree, c: Tree)
    requires Shrinks(a, b) && Shrinks(b, c)
    ensures Shrinks(a, c)
  {
  }

  lemma AddedSame(root: Path, t0: Tree, a: Tree, q: Path, k: Counts, k': Counts)
    requires q in t0 && q in a && (forall r :: Under(q, r) ==> Same(t0, a, r)) && AddedAt(root, a, k, k', q)
    ensures AddedAt(root, t0, k, k', q)
  {
    hide Weight, Tally;
    forall c ensures Tally(k', c) == Tally(k, c) + Weight(root, t0, c, q) {
      SameWeight(root, t0, a, c, q);
    }
  }

  lemma ParentSame(root: Path, policy: Policy, a: Tree, b: Tree, p: Path, names: set<Component>)
    requires Walked(root, policy, a, b, p, names)
    ensures Same(a, b, p)
  {
    hide Finished;
    assert !Below(p, p);
    assert Same(a, b, p) || Finished(root, policy, a, b, p);
  }

  lemma ModeAside(a: Tree, b: Tree, p: Path, mode: Mode)
    requires p in a && a[p].DirNode? && PrefixClosed(a) && (b == a || b == a[p := DirNode(mode)])
    ensures PrefixClosed(b) && b.Keys == a.Keys && p in b && b[p].DirNode?
    ensures forall q :: q != p ==> Same(a, b, q)
  {
    forall q, n | q in b && 0 <= n < |q| ensures q[..n] in b && b[q[..n]].DirNode? {
      assert q in a && q[..n] in a;
    }
  }

  lemma KeptMore(root: Path, policy: Policy, a: Tree, b: Tree, q: Path, stuck: set<Path>, stuck': set<Path>)
    requires Kept(root, policy, a, b, q, stuck) && stuck <= stuck'
    ensures Kept(root, policy, a, b, q, stuck')
  {
    hide Unsafe;
  }

  lemma KeptAround(root: Path, policy: Policy, t0: Tree, t1: Tree, t2: Tree, t3: Tree, q: Path, stuck: set<Path>)
    requires Same(t0, t1, q) && Same(t2, t3, q)
    ensures Kept(root, policy, t1, t2, q, stuck) ==> Kept(root, policy, t0, t3, q, stuck)
    ensures Finished(root, policy, t1, t2, q) ==> Kept(root, policy, t0, t3, q, stuck)
    ensures Finished(root, policy, t1, t2, q) ==> Finished(root, policy, t0, t3, q)
    ensures Same(t1, t2, q) ==> Same(t0, t3, q) && Kept(root, policy, t0, t3, q, stuck)
  {
    hide ClassifySymlinkTarget;
  }

  /** A walk that failed below, or whose mode did not go back. */
  lemma DirKept(root: Path, policy: Policy, t0: Tree, t1: Tree, t2: Tree, t3: Tree, p: Path, was: set<Path>,
                stuck: set<Path>)
    requires p in t0 && t0[p].DirNode? && p in t3 && (t3[p] == t0[p] || (p in stuck && LeftWidened(t0, t3, p)))
    requires forall q :: q != p ==> Same(t0, t1, q) && Same(t2, t3, q)
    requires (AllKept(root, policy, t1, t2, p, was) && was <= stuck)
             || exists names :: Walked(root, policy, t1, t2, p, names)
    ensures AllKept(root, policy, t0, t3, p, stuck)
  {
    hide Finished, Unsafe;
    forall q | q != p ensures if Under(p, q) then Kept(root, policy, t0, t3, q, stuck) else Same(t0, t3, q) {
      hide Kept;
      KeptAround(root, policy, t0, t1, t2, t3, q, stuck);
      if AllKept(root, policy, t1, t2, p, was) && was <= stuck {
        assert if Under(p, q) then Kept(root, policy, t1, t2, q, was) else Same(t1, t2, q);
        if Under(p, q) {
          KeptMore(root, policy, t1, t2, q, was, stuck);
        }
      } else {
        var names :| Walked(root, policy, t1, t2, p, names);
        assert Finished(root, policy, t1, t2, q) || Same(t1, t2, q);
        assert !Below(p, q) ==> Same(t1, t2, q);
      }
    }
    NotALink(root, policy, t0, t3, p, stuck);
  }

  lemma NotALink(root: Path, policy: Policy, a: Tree, b: Tree, p: Path, stuck: set<Path>)
    requires p in a && a[p].DirNode? && p in b && (b[p] == a[p] || (p in stuck && LeftWidened(a, b, p)))
    ensures Kept(root, policy, a, b, p, stuck) && (b[p] == a[p] ==> Finished(root, policy, a, b, p))
  {
    hide ClassifySymlinkTarget;
  }

  lemma KeptShrinks(root: Path, policy: Policy, a: Tree, b: Tree, p: Path, stuck: set<Path>)
    requires AllKept(root, policy, a, b, p, stuck)
    ensures Shrinks(a, b)
  {
    hide ClassifySymlinkTarget;
    forall q ensures (q in b ==> q in a) && (q in a && a[q].DirNode? ==> q in b && b[q].DirNode?) {
      assert Same(a, b, q) || Kept(root, policy, a, b, q, stuck);
    }
  }

  /** A walk that succeeded all the way. */
  lemma DirDone(root: Path, policy: Policy, t0: Tree, t1: Tree, t2: Tree, t3: Tree, p: Path, names: set<Component>)
    requires p in t0 && t0[p].DirNode? && p in t3 && t3[p] == t0[p] && PrefixClosed(t1)
    requires forall q :: q != p ==> Same(t0, t1, q) && Same(t2, t3, q)
    requires Walked(root, policy, t1, t2, p, names) && NamesOf(t1, p, names)
    ensures AllFinished(root, policy, t0, t3, p)
  {
    hide Finished, Unsafe, Kept;
    forall q | q != p ensures if Under(p, q) then Finished(root, policy, t0, t3, q) else Same(t0, t3, q) {
      KeptAround(root, policy, t0, t1, t2, t3, q, {});
      assert if Below(p, q) && q[|p|] in names then Finished(root, policy, t1, t2, q) else Same(t1, t2, q);
      if Below(p, q) && q[|p|] !in names {
        UnlistedIsAbsent(t1, p, q);
        AbsentIsFinished(root, policy, t0, t3, q);
      }
    }
    NotALink(root, policy, t0, t3, p, {});
  }

  lemma UnlistedIsAbsent(t: Tree, p: Path, q: Path)
    requires PrefixClosed(t) && Below(p, q) && p + [q[|p|]] !in t
    ensures q !in t
  {
    ChildSplit(p, q[|p|], q);
    PrefixSlice(p + [q[|p|]], q);
  }

  lemma AbsentIsFinished(root: Path, policy: Policy, a: Tree, b: Tree, q: Path)
    requires q !in a && q !in b
    ensures Finished(root, policy, a, b, q)
  {
    hide ClassifySymlinkTarget;
  }

  lemma DirCounts(root: Path, t0: Tree, t1: Tree, p: Path, names: set<Component>, k0: Counts, k: Counts, c: Class)
    requires PrefixClosed(t1) && NamesOf(t1, p, names)
    requires forall q :: q != p ==> Same(t0, t1, q)
    requires Counted(root, t1, k0, k, p, names)
    ensures Tally(k, c) == Tally(k0, c) + |ClassBelow(root, t0, c, p)|
  {
    hide InClass, Tally;
    AllChildren(root, t1, c, p, names);
    forall r ensures r in ClassBelow(root, t0, c, p) <==> r in ClassBelow(root, t1, c, p) {
      if r != p {
        assert Same(t0, t1, r);
        if r in t0 {
          SameClass(root, t0, t1, c, r);
        }
      }
    }
    assert ClassBelow(root, t0, c, p) == ClassBelow(root, t1, c, p);
  }

  lemma DoneIsKept(root: Path, policy: Policy, a: Tree, b: Tree, p: Path)
    requires AllFinished(root, policy, a, b, p)
    ensures forall stuck: set<Path> :: AllKept(root, policy, a, b, p, stuck)
  {
    hide Unsafe, Finished, Kept;
    forall stuck: set<Path>, q ensures if Under(p, q) then Kept(root, policy, a, b, q, stuck) else Same(a, b, q) {
      if Under(p, q) {
        assert Finished(root, policy, a, b, q);
        FinishedIsKept(root, policy, a, b, q, stuck);
      }
    }
  }

  lemma StuckThrough(t0: Tree, a: Tree, p: Path, name: Component, before: set<Path>, after: set<Path>)
    requires StuckIn(a, p + [name], before, after) && forall r :: Under(p + [name], r) ==> Same(t0, a, r)
    ensures StuckIn(t0, p, before, after)
  {
    forall q | q in after && q !in before ensures Under(p, q) && q in t0 && t0[q] == a[q] {
      assert Under(p + [name], q) && Same(t0, a, q);
    }
  }

  class Walk {
    const root: Path
    const policy: Policy
    const calm: bool               // nothing fails and nobody cancels
    var tree: Tree
    var counts: Counts
    ghost var stuck: set<Path>     // the directories whose modes could not be put back

    constructor (root: Path, policy: Policy, tree: Tree, calm: bool)
      ensures this.root == root && this.policy == policy && this.tree == tree && this.calm == calm
      ensures counts == Counts(0, 0, 0, 0) && stuck == {}
    {
      this.root := root;
      this.policy := policy;
      this.calm := calm;
      this.tree := tree;
      counts := Counts(0, 0, 0, 0);
      stuck := {};
    }

    method Fails() returns (failed: bool)
      ensures calm ==> !failed
    {
      failed := *;
      if calm {
        failed := false;
      }
    }

    method Chmod(p: Path, mode: Mode) returns (ok: bool)
      requires p in tree && tree[p].DirNode?
      modifies this`tree
      ensures tree == if ok then old(tree)[p := DirNode(mode)] else old(tree)
      ensures calm ==> ok
    {
      var fails := Fails();
      ok := !fails;
      if ok {
        tree := tree[p := DirNode(mode)];
      }
    }

    /** The names in a readable directory, sorted. */
    method ReadDirSorted(p: Path) returns (names: Option<seq<Component>>)
      requires p in tree && tree[p].DirNode? && tree[p].mode.r && tree[p].mode.x
      ensures names.Some? ==> Distinct(names.value) && Sorted(NameOrder(), names.value)
      ensures names.Some? ==> forall n: Component :: n in names.value <==> p + [n] in tree
      ensures calm ==> names.Some?
    {
      var fails := Fails();
      if fails {
        return None;
      }
      var todo := set q | q in tree && q != [] && Parent(q) == p :: Base(q);
      ghost var all := todo;
      assert forall n: Component :: n in all <==> p + [n] in tree by {
        forall n: Component ensures n in all <==> p + [n] in tree {
          NameInDir(tree, p, n, all);
        }
      }
      var listed: seq<Component> := [];
      while todo != {}
        invariant todo <= all && Distinct(listed)
        invariant forall n :: n in listed <==> n in all && n !in todo
      {
        var n :| n in todo;
        todo := todo - {n};
        listed := listed + [n];
      }
      StrLessIsStrictWeak();
      hide StrLess;
      StableSortSorts(NameOrder(), listed);
      PermutedDistinct(listed, StableSort(NameOrder(), listed));
      names := Some(StableSort(NameOrder(), listed));
      forall n ensures n in names.value <==> n in listed {
        assert n in names.value <==> n in multiset(listed);
      }
    }

    /** Skips or replaces an unsafe link, in a directory made writable. */
    method ApplyUnsafeSymlinkPolicy(q: Path) returns (err: Option<Failure>)
      requires Unsafe(root, tree, q) && PrefixClosed(tree)
      requires Parent(q) in tree && tree[Parent(q)].DirNode?
      requires tree[Parent(q)].mode.w && tree[Parent(q)].mode.x
      modifies this`tree
      ensures forall r :: r != q ==> Same(old(tree), tree, r)
      ensures if err.None? then Finished(root, policy, old(tree), tree, q)
              else Kept(root, policy, old(tree), tree, q, stuck)
      ensures calm ==> err.None?
    {
      hide ClassifySymlinkTarget;
      err := None;
      var target := tree[q].target;
      if policy.Keep? {
        return;
      }
      var fails := Fails();
      if fails {
        return Some(Metadata);
      }
      tree := tree - {q};
      if policy.Placeholder? {
        fails := Fails();
        if fails {
          return Some(Metadata);
        }
        tree := tree[q := Inert(target)];
      }
    }

    /** One entry: links are judged and never followed, directories walked,
        files and special nodes counted. */
    method NormalizeChild(p: Path, name: Component, ghost height: nat) returns (err: Option<Failure>)
      requires p in tree && tree[p].DirNode? && OwnerRwx(tree[p].mode) && p + [name] in tree
      requires PrefixClosed(tree) && forall q :: q in tree ==> |q| <= height
      modifies this
      decreases height - |p|, 0
      ensures Shrinks(old(tree), tree) && StuckIn(old(tree), p + [name], old(stuck), stuck)
      ensures if err.None? then
                && AllFinished(root, policy, old(tree), tree, p + [name]) && stuck == old(stuck)
                && AddedAt(root, old(tree), old(counts), counts, p + [name])
              else AllKept(root, policy, old(tree), tree, p + [name], stuck)
      ensures calm ==> err.None?
    {
      var q := p + [name];
      hide ClassifySymlinkTarget, InClass, ClassBelow;
      Untouched(root, policy, tree, q, stuck);
      var fails := Fails();
      if fails {
        return Some(Cancelled);
      }
      match tree[q]
      case LinkNode(target) =>
        err := NormalizeLink(p, name);
      case DirNode(mode) =>
        fails := Fails();
        if fails {
          return Some(Metadata);
        }
        err := NormalizeDir(q, false, height);
        if err.None? {
          DirAdds(root, old(tree), q, old(counts), counts);
        }
      case FileNode(_, _) =>
        LinkDone(root, policy, tree, tree, q, stuck);
        counts := counts.(files := counts.files + 1);
        LeafAdds(root, tree, q, old(counts), counts);
        err := None;
      case SpecialNode(_) =>
        LinkDone(root, policy, tree, tree, q, stuck);
        counts := counts.(other := counts.other + 1);
        LeafAdds(root, tree, q, old(counts), counts);
        err := None;
    }

    method NormalizeLink(p: Path, name: Component) returns (err: Option<Failure>)
      requires p in tree && tree[p].DirNode? && OwnerRwx(tree[p].mode) && p + [name] in tree
      requires tree[p + [name]].LinkNode? && PrefixClosed(tree)
      modifies this
      ensures Shrinks(old(tree), tree) && stuck == old(stuck)
      ensures if err.None? then
                && AllFinished(root, policy, old(tree), tree, p + [name])
                && AddedAt(root, old(tree), old(counts), counts, p + [name])
              else AllKept(root, policy, old(tree), tree, p + [name], stuck)
      ensures calm ==> err.None?
    {
      var q := p + [name];
      hide ClassifySymlinkTarget, ClassBelow;
      Untouched(root, policy, tree, q, stuck);
      assert Parent(q) == p;
      var fails := Fails();
      if fails {
        return Some(Metadata);
      }
      if !ClassifySymlinkTarget(root, root + p, tree[q].target) {
        LinkDone(root, policy, tree, tree, q, stuck);
        LeafAdds(root, tree, q, counts, counts);
        return None;
      }
      counts := counts.(unsafeLinks := counts.unsafeLinks + 1);
      LeafAdds(root, tree, q, old(counts), counts);
      err := ApplyUnsafeSymlinkPolicy(q);
      LinkDone(root, policy, old(tree), tree, q, stuck);
    }

    method VisitChildren(p: Path, ghost height: nat) returns (err: Option<Failure>)
      requires p in tree && tree[p].DirNode? && OwnerRwx(tree[p].mode)
      requires PrefixClosed(tree) && forall q :: q in tree ==> |q| <= height
      modifies this
      decreases height - |p|, 1
      ensures Shrinks(old(tree), tree) && StuckIn(old(tree), p, old(stuck), stuck) && Same(old(tree), tree, p)
      ensures if err.None? then
                && (exists names :: NamesOf(old(tree), p, names)
                      && Walked(root, policy, old(tree), tree, p, names)
                      && Counted(root, old(tree), old(counts), counts, p, names))
                && stuck == old(stuck)
              else AllKept(root, policy, old(tree), tree, p, stuck)
      ensures calm ==> err.None?
    {
      hide ClassifySymlinkTarget, InClass, ClassBelow, ClassOf, Finished, Kept;
      ghost var t0, k0 := tree, counts;
      Untouched(root, policy, tree, p, stuck);
      var names := ReadDirSorted(p);
      if names.None? {
        return Some(Metadata);
      }
      ghost var done: set<Component> := {};
      NoneWalked(root, policy, t0, p, k0);
      for i := 0 to |names.value|
        invariant done == set n | n in names.value[..i]
        invariant Walked(root, policy, t0, tree, p, done) && Counted(root, t0, k0, counts, p, done)
        invariant stuck == old(stuck)
        invariant Shrinks(t0, tree) && Same(t0, tree, p)
      {
        var name := names.value[i];
        assert name in names.value && name !in done;
        ghost var a, k := tree, counts;
        StillThere(root, policy, t0, tree, p, done, name);
        ShrinksKeepsClosed(t0, tree);
        err := NormalizeChild(p, name, height);
        if err.Some? {
          WalkedThenKept(root, policy, t0, a, tree, p, done, name, stuck);
          StuckThrough(t0, a, p, name, old(stuck), stuck);
          ShrinksThrough(t0, a, tree);
          return;
        }
        WalkedGrows(root, policy, t0, a, tree, p, done, name);
        AddedSame(root, t0, a, p + [name], k, counts);
        CountedGrows(root, t0, k0, k, counts, p, done, name);
        WalkedShrinks(root, policy, t0, tree, p, done + {name});
        ParentSame(root, policy, t0, tree, p, done + {name});
        done := done + {name};
      }
      assert names.value[..|names.value|] == names.value;
      err := None;
    }

    /** A directory: widened if it must be, its children visited, and its mode put
        back whatever happened. */
    method NormalizeDir(p: Path, isRoot: bool, ghost height: nat) returns (err: Option<Failure>)
      requires p in tree && tree[p].DirNode?
      requires PrefixClosed(tree) && forall q :: q in tree ==> |q| <= height
      modifies this
      decreases height - |p|, 2
      ensures Shrinks(old(tree), tree) && StuckIn(old(tree), p, old(stuck), stuck)
      ensures if err.None? then
                && AllFinished(root, policy, old(tree), tree, p) && stuck == old(stuck)
                && forall c :: Tally(counts, c) == Tally(old(counts), c) + |ClassBelow(root, old(tree), c, p)|
                                                   + if c.IsDir? && !isRoot then 1 else 0
              else AllKept(root, policy, old(tree), tree, p, stuck)
      ensures calm ==> err.None?
    {
      hide ClassifySymlinkTarget, InClass, ClassBelow, ClassOf, Finished, Kept;
      ghost var t0, k0 := tree, counts;
      var mode := tree[p].mode;
      Untouched(root, policy, tree, p, stuck);
      var widened := !OwnerRwx(mode);
      if widened {
        var ok := Chmod(p, Widened(mode));
        if !ok {
          return Some(Metadata);
        }
      }
      ghost var t1 := tree;
      ModeAside(t0, t1, p, Widened(mode));
      err := VisitChildren(p, height);
      ghost var t2, k2, was, visited := tree, counts, stuck, err.None?;
      if err.None? && !isRoot {
        counts := counts.(dirs := counts.dirs + 1);
      }
      if widened {
        var ok := Chmod(p, mode);
        if !ok {
          stuck := stuck + {p};
          if err.None? {
            err := Some(Metadata);
          }
        }
      }
      if err.None? {
        ghost var names :| NamesOf(t1, p, names)
          && Walked(root, policy, t1, t2, p, names) && Counted(root, t1, k0, k2, p, names);
        DirDone(root, policy, t0, t1, t2, tree, p, names);
        forall c ensures Tally(k2, c) == Tally(k0, c) + |ClassBelow(root, t0, c, p)| {
          DirCounts(root, t0, t1, p, names, k0, k2, c);
        }
        DoneIsKept(root, policy, t0, tree, p);
      } else {
        DirKept(root, policy, t0, t1, t2, tree, p, was, stuck);
      }
      KeptShrinks(root, policy, t0, tree, p, stuck);
    }
  }

  lemma {:induction false} HeightExists(keys: set<Path>) returns (h: nat)
    ensures forall q :: q in keys ==> |q| <= h
  {
    if keys == {} {
      h := 0;
    } else {
      var q :| q in keys;
      var rest := HeightExists(keys - {q});
      h := if |q| <= rest then rest else |q|;
    }
  }

  /** No link that classifies as unsafe is left unless the policy keeps them. */
  lemma NoUnsafeLeft(root: Path, policy: Policy, a: Tree, b: Tree)
    requires AllFinished(root, policy, a, b, []) && !policy.Keep?
    ensures forall q :: !Unsafe(root, b, q)
  {
    forall q ensures !Unsafe(root, b, q) {
      assert Under([], q) && Finished(root, policy, a, b, q);
      hide ClassifySymlinkTarget;
    }
  }

  /** A directory is as it was unless its own mode did not go back. */
  lemma ModesBack(root: Path, policy: Policy, a: Tree, b: Tree, q: Path, stuck: set<Path>)
    requires AllKept(root, policy, a, b, [], stuck) && q in a && a[q].DirNode?
    ensures q !in stuck ==> q in b && b[q] == a[q]
    ensures q in stuck ==> q in b && (b[q] == a[q] || b[q] == DirNode(Widened(a[q].mode)))
  {
    assert Under([], q) && Kept(root, policy, a, b, q, stuck);
    hide ClassifySymlinkTarget;
  }

  /** A tree's regular files, directories below its root, links that point out,
      and special nodes. */
  function Counted4(root: Path, t: Tree): Counts {
    Counts(|set q | q in t && t[q].FileNode?|, |set q | q in t && q != [] && t[q].DirNode?|,
           |set q | q in t && OutLink(root, t, q)|, |set q | q in t && t[q].SpecialNode?|)
  }

  lemma CountsMean(root: Path, t: Tree, counts: Counts)
    requires [] in t && t[[]].DirNode?
    requires forall c :: Tally(counts, c) == |ClassBelow(root, t, c, [])|
    ensures counts == Counted4(root, t)
  {
    forall q ensures OutLink(root, t, q) <==> Unsafe(root, t, q) {
      LinkMeans(root, t, q);
    }
    hide Unsafe, OutLink;
    assert ClassBelow(root, t, IsFile, []) == set q | q in t && t[q].FileNode?;
    assert ClassBelow(root, t, IsDir, []) == set q | q in t && q != [] && t[q].DirNode?;
    assert ClassBelow(root, t, IsUnsafe, []) == set q | q in t && OutLink(root, t, q) by {
      RootIsNoLink(root, t);
    }
    assert ClassBelow(root, t, IsOther, []) == set q | q in t && t[q].SpecialNode?;
    assert Tally(counts, IsFile) == counts.files && Tally(counts, IsDir) == counts.dirs;
    assert Tally(counts, IsUnsafe) == counts.unsafeLinks && Tally(counts, IsOther) == counts.other;
  }

  lemma RootIsNoLink(root: Path, t: Tree)
    ensures !Unsafe(root, t, [])
  {
  }

  lemma LinkMeans(root: Path, t: Tree, q: Path)
    ensures OutLink(root, t, q) <==> Unsafe(root, t, q)
  {
    if q in t && q != [] && t[q].LinkNode? {
      UnsafeExact(root, root + Parent(q), t[q].target);
    }
    hide ClassifySymlinkTarget, PointsOut;
  }

  /** normalizeExtractTreeMetadata: on success every node is finished, each class
      is counted exactly, and no unsafe link remains unless kept; on every exit,
      early ones included, everything but unsafe links is as restored, and so is
      every directory but those whose own chmod back failed. */
  method NormalizeExtractTreeMetadata(root: Path, policy: Policy, t: Tree, calm: bool)
    returns (out: Tree, counts: Counts, err: Option<Failure>, ghost stuck: set<Path>)
    requires [] in t && t[[]].DirNode? && PrefixClosed(t)
    ensures AllKept(root, policy, t, out, [], stuck)
    ensures forall q :: q in t && t[q].DirNode? && q !in stuck ==> q in out && out[q] == t[q]
    ensures forall q :: q in stuck ==>
              && q in t && t[q].DirNode? && !(t[q].mode.r && t[q].mode.w && t[q].mode.x)
              && q in out && (out[q] == t[q] || out[q] == DirNode(Mode(true, true, true, t[q].mode.rest)))
    ensures err.None? ==> stuck == {} && (forall q :: Finished(root, policy, t, out, q))
    ensures err.None? && !policy.Keep? ==> forall q :: !OutLink(root, out, q)
    ensures err.None? ==> counts == Counted4(root, t)
    ensures calm ==> err.None?
  {
    hide ClassifySymlinkTarget, ClassBelow, Finished, Kept, Unsafe, OutLink, Counted4;
    var w := new Walk(root, policy, t, calm);
    err := None;
    Untouched(root, policy, t, [], {});
    var fails := w.Fails();
    if fails {
      err := Some(Metadata);
    } else {
      ghost var h := HeightExists(t.Keys);
      err := w.NormalizeDir([], true, h);
      if err.None? {
        DoneIsKept(root, policy, t, w.tree, []);
        if !policy.Keep? {
          NoUnsafeLeft(root, policy, t, w.tree);
          forall q ensures OutLink(root, w.tree, q) <==> Unsafe(root, w.tree, q) {
            LinkMeans(root, w.tree, q);
          }
        }
        CountsMean(root, t, w.counts);
        forall q ensures Finished(root, policy, t, w.tree, q) {
          assert Under([], q);
        }
      }
    }
    out, counts, stuck := w.tree, w.counts, w.stuck;
    forall q | q in t && t[q].DirNode?
      ensures q in out && (out[q] == t[q] || (q in stuck && out[q] == DirNode(Mode(true, true, true, t[q].mode.rest))))
    {
      ModesBack(root, policy, t, out, q, stuck);
    }
  }
}
