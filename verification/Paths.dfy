/** The path algebra of internal/model/browse.go and the two places where the
    index works on path bytes instead: the parent-cache test and the half-open
    byte range that stands for "below this directory". */
module Paths {
  import opened Sorting

  type Component = s: string | s != "" && s != "." && s != ".." && '/' !in s witness "a"

  /** A clean rooted path as its components; the root is the empty sequence. */
  type Path = seq<Component>

  function Parent(p: Path): Path
    requires p != []
  {
    p[..|p| - 1]
  }

  function Base(p: Path): Component
    requires p != []
  {
    p[|p| - 1]
  }

  predicate Under(dir: Path, p: Path) { dir <= p }

  predicate Below(dir: Path, p: Path) { dir < p }

  function Split(s: string): (parts: seq<string>)
    ensures parts != []
    ensures forall i :: 0 <= i < |parts| ==> '/' !in parts[i]
  {
    if s == "" then [""]
    else
      var rest := Split(s[1..]);
      if s[0] == '/' then [""] + rest else [[s[0]] + rest[0]] + rest[1..]
  }

  /** Go's path.Clean on a rooted path, one slash-separated element at a time. */
  function Resolve(parts: seq<string>, done: Path): Path
    requires forall i :: 0 <= i < |parts| ==> '/' !in parts[i]
  {
    if parts == [] then done
    else if parts[0] == "" || parts[0] == "." then Resolve(parts[1..], done)
    else if parts[0] == ".." then Resolve(parts[1..], if done == [] then [] else Parent(done))
    else Resolve(parts[1..], done + [parts[0]])
  }

  function CleanBrowsePath(s: string): Path {
    Resolve(Split(if s == "" || s[0] != '/' then "/" + s else s), [])
  }

  function RenderTail(p: Path): string {
    if p == [] then "" else "/" + p[0] + RenderTail(p[1..])
  }

  function Render(p: Path): string {
    if p == [] then "/" else RenderTail(p)
  }

  function JoinBrowsePath(parent: string, name: string): string {
    if parent == "/" then "/" + name else parent + "/" + name
  }

  /** RFC 3629, section 3. */
  function Utf8Len(c: char): (n: nat)
    ensures n == 1 <==> c as int < 128
    ensures n == 2 <==> 128 <= c as int < 2048
    ensures n == 3 <==> 2048 <= c as int < 65536
    ensures n == 4 <==> 65536 <= c as int
  {
    if c < '\U{80}' then 1 else if c < '\U{800}' then 2 else if c < '\U{10000}' then 3 else 4
  }

  /** Go's len of a string. */
  function ByteLen(s: string): nat {
    if s == "" then 0 else ByteLen(s[..|s| - 1]) + Utf8Len(s[|s| - 1])
  }

  function BrowseName(name: string, p: Path): string {
    if name != "" then name else if p == [] then "/" else Base(p)
  }

  // Cleaning undoes rendering, so a clean path and its string determine each other.

  lemma {:induction false} SplitComponent(c: string, t: string)
    requires '/' !in c
    ensures Split(c + t) == [c + Split(t)[0]] + Split(t)[1..]
  {
    if c == "" {
      assert c + t == t && c + Split(t)[0] == Split(t)[0];
    } else {
      SplitComponent(c[1..], t);
      assert (c + t)[1..] == c[1..] + t;
      assert c + Split(t)[0] == [c[0]] + (c[1..] + Split(t)[0]);
    }
  }

  lemma PrependToHead(c: char, r: seq<string>, t: seq<string>)
    requires r != []
    ensures [[c] + (r + t)[0]] + (r + t)[1..] == [[c] + r[0]] + r[1..] + t
    ensures [""] + (r + t) == [""] + r + t
  {
  }

  lemma SplitHead(s: string)
    requires s != ""
    ensures Split(s) == if s[0] == '/' then [""] + Split(s[1..])
                        else [[s[0]] + Split(s[1..])[0]] + Split(s[1..])[1..]
  {
  }

  lemma {:induction false} SplitAtSlash(a: string, b: string)
    ensures Split(a + "/" + b) == Split(a) + Split(b)
  {
    if a == "" {
      assert (a + "/" + b)[1..] == b;
    } else {
      SplitAtSlash(a[1..], b);
      SplitHead(a);
      SplitHead(a + "/" + b);
      hide Split;
      assert (a + "/" + b)[1..] == a[1..] + "/" + b;
      PrependToHead(a[0], Split(a[1..]), Split(b));
    }
  }

  lemma {:induction false} SplitRenderTail(p: Path)
    ensures Split(RenderTail(p)) == [""] + p
  {
    if p == [] {
    } else {
      SplitRenderTail(p[1..]);
      var t := RenderTail(p[1..]);
      SplitComponent(p[0], t);
      assert RenderTail(p) == "/" + (p[0] + t);
      assert RenderTail(p)[1..] == p[0] + t;
      assert p[0] + "" == p[0];
      assert [p[0]] + p[1..] == p;
    }
  }

  lemma {:induction false} ResolveComponents(p: Path, done: Path)
    ensures Resolve(p, done) == done + p
  {
    if p == [] {
    } else {
      ResolveComponents(p[1..], done + [p[0]]);
      assert done + [p[0]] + p[1..] == done + p;
    }
  }

  lemma CleanUndoesRender(p: Path)
    ensures CleanBrowsePath(Render(p)) == p
  {
    if p == [] {
      assert Split("/") == ["", ""] by { assert "/"[1..] == ""; }
      assert Resolve(["", ""], []) == Resolve([""], []) == [];
    } else {
      SplitRenderTail(p);
      assert ([""] + p)[1..] == p;
      ResolveComponents(p, []);
    }
  }

  lemma RenderInjective(p: Path, q: Path)
    ensures Render(p) == Render(q) ==> p == q
  {
    CleanUndoesRender(p);
    CleanUndoesRender(q);
  }

  lemma CleanIsIdempotent(s: string)
    ensures CleanBrowsePath(Render(CleanBrowsePath(s))) == CleanBrowsePath(s)
  {
    CleanUndoesRender(CleanBrowsePath(s));
  }

  lemma {:induction false} RenderTailSnoc(p: Path, c: Component)
    ensures RenderTail(p + [c]) == RenderTail(p) + "/" + c
  {
    if p == [] {
      assert [c][1..] == [];
      assert "/" + c + "" == "/" + c;
    } else {
      RenderTailSnoc(p[1..], c);
      assert (p + [c])[1..] == p[1..] + [c];
      assert (p + [c])[0] == p[0];
    }
  }

  /** A child's path string is its parent's joined with its name. */
  lemma RenderJoins(p: Path)
    requires p != []
    ensures Render(p) == JoinBrowsePath(Render(Parent(p)), Base(p))
  {
    assert p == Parent(p) + [Base(p)];
    RenderTailSnoc(Parent(p), Base(p));
    if Parent(p) != [] {
      RenderInjective(Parent(p), []);
    }
  }

  // internal/browsedb/index.go: the parent cache is keyed by bytes.

  predicate SameParentPath(p: string, parent: string) {
    if parent == "" then false
    else if parent == "/" then p != "" && p[0] == '/' && '/' !in p[1..]
    else if |p| <= |parent| || p[|parent|] != '/' || p[..|parent|] != parent then false
    else '/' !in p[|parent| + 1..]
  }

  lemma DropHead<T>(x: T, p: seq<T>, q: seq<T>, rest: seq<T>)
    requires [x] + p == [x] + q + rest
    ensures p == q + rest
  {
    assert p == ([x] + p)[1..] && q + rest == ([x] + q + rest)[1..];
  }

  lemma SplitSingle(s: string)
    requires '/' !in s
    ensures Split(s) == [s]
  {
    SplitComponent(s, "");
    assert s + "" == s;
  }

  lemma SameParentImpliesParent(p: Path, q: Path)
    requires p != [] && SameParentPath(Render(p), Render(q))
    ensures Parent(p) == q
  {
    SplitRenderTail(p);
    SplitRenderTail(q);
    var s, t := Render(p), RenderTail(q);
    var rest := s[|t| + 1..];
    if q != [] {
      RenderInjective(q, []);
    }
    assert s == t + "/" + rest && '/' !in rest;
    SplitAtSlash(t, rest);
    SplitSingle(rest);
    DropHead("", p, q, [rest]);
  }

  lemma {:induction false} NoSlashTail(c: Component, t: string)
    ensures '/' !in (t + "/" + c)[|t| + 1..]
  {
    assert (t + "/" + c)[|t| + 1..] == c;
  }

  /** The byte test behind the one-entry cache holds exactly for the parent. */
  lemma SameParentExact(p: Path, q: Path)
    requires p != []
    ensures SameParentPath(Render(p), Render(q)) <==> Parent(p) == q
  {
    if SameParentPath(Render(p), Render(q)) {
      SameParentImpliesParent(p, q);
    }
    if Parent(p) == q {
      assert p == q + [Base(p)];
      RenderTailSnoc(q, Base(p));
      NoSlashTail(Base(p), RenderTail(q));
      if q != [] {
        RenderInjective(q, []);
      }
    }
  }

  // internal/browsedb/queries.go: "starts with prefix" as a half-open byte range.

  predicate InByteRange(s: string, lower: string, upper: string) {
    !StrLess(s, lower) && StrLess(s, upper)
  }

  lemma {:induction false} RangeIsPrefix(s: string, x: string)
    ensures InByteRange(s, x + "/", x + "0") <==> x + "/" <= s
  {
    if x == "" {
      assert x + "/" == "/" && x + "0" == "0";
      if s != "" && s[0] == '/' {
        assert s == "/" + s[1..];
      }
    } else {
      assert (x + "/")[1..] == x[1..] + "/" && (x + "0")[1..] == x[1..] + "0";
      if s != "" && s[0] == x[0] {
        RangeIsPrefix(s[1..], x[1..]);
        assert s == [s[0]] + s[1..] && x + "/" == [x[0]] + (x[1..] + "/");
      }
    }
  }

  lemma {:induction false} RenderTailConcat(d: Path, e: Path)
    ensures RenderTail(d + e) == RenderTail(d) + RenderTail(e)
  {
    if e == [] {
      assert d + e == d;
    } else {
      var e' := Parent(e);
      RenderTailConcat(d, e');
      assert d + e == d + e' + [Base(e)] && e == e' + [Base(e)];
      RenderTailSnoc(d + e', Base(e));
      RenderTailSnoc(e', Base(e));
    }
  }

  lemma StringPrefixImpliesBelow(d: Path, q: Path)
    requires d != [] && Render(d) + "/" <= Render(q)
    ensures Below(d, q)
  {
    SplitRenderTail(d);
    SplitRenderTail(q);
    var b := Render(q)[|Render(d)| + 1..];
    assert Render(q) == Render(d) + "/" + b;
    SplitAtSlash(Render(d), b);
    assert |Render(q)| > 1;
    DropHead("", q, d, Split(b));
  }

  lemma BelowImpliesStringPrefix(d: Path, q: Path)
    requires d != [] && Below(d, q)
    ensures Render(d) + "/" <= Render(q)
  {
    var e := q[|d|..];
    assert q == d + e && e != [];
    RenderTailConcat(d, e);
    assert RenderTail(e) == "/" + e[0] + RenderTail(e[1..]);
  }

  /** The bound computed by SubtreeCounts: the prefix with its last byte, the
      slash, replaced by '0', the next byte value. */
  function SubtreePrefix(d: Path): string {
    if d == [] then "/" else Render(d) + "/"
  }

  function SubtreeUpper(d: Path): string {
    SubtreePrefix(d)[..|SubtreePrefix(d)| - 1] + "0"
  }

  /** The WHERE clause `d.path = ? OR (d.path >= ? AND d.path < ?)` selects
      exactly the directories at or below the requested one. */
  lemma SubtreeRangeExact(d: Path, q: Path)
    ensures Render(q) == Render(d) || InByteRange(Render(q), SubtreePrefix(d), SubtreeUpper(d))
       <==> Under(d, q)
  {
    RenderInjective(d, q);
    if d == [] {
      assert SubtreePrefix(d) == "" + "/" && SubtreeUpper(d) == "" + "0";
      RangeIsPrefix(Render(q), "");
      assert Render(q)[0] == '/';
    } else {
      assert SubtreePrefix(d)[..|SubtreePrefix(d)| - 1] == Render(d);
      RangeIsPrefix(Render(q), Render(d));
      if Render(d) + "/" <= Render(q) {
        StringPrefixImpliesBelow(d, q);
      }
      if Below(d, q) {
        BelowImpliesStringPrefix(d, q);
      }
    }
  }

  /** Go's `p == root || strings.HasPrefix(p, prefix)`, where the prefix is the
      root with a slash. */
  predicate UnderBytes(root: Path, p: Path) {
    Render(p) == Render(root) || SubtreePrefix(root) <= Render(p)
  }

  lemma UnderBytesExact(root: Path, p: Path)
    ensures UnderBytes(root, p) <==> Under(root, p)
  {
    RenderInjective(root, p);
    if root == [] {
      assert Render(p)[0] == '/';
    } else {
      if SubtreePrefix(root) <= Render(p) {
        StringPrefixImpliesBelow(root, p);
      }
      if Below(root, p) {
        BelowImpliesStringPrefix(root, p);
      }
    }
  }

  lemma {:induction false} ResolveConcat(a: seq<string>, b: seq<string>, done: Path)
    requires forall i :: 0 <= i < |a| ==> '/' !in a[i]
    requires forall i :: 0 <= i < |b| ==> '/' !in b[i]
    ensures forall i :: 0 <= i < |a + b| ==> '/' !in (a + b)[i]
    ensures Resolve(a + b, done) == Resolve(b, Resolve(a, done))
  {
    if a == [] {
      assert a + b == b;
    } else {
      assert (a + b)[0] == a[0] && (a + b)[1..] == a[1..] + b;
      ResolveConcat(a[1..], b,
                    if a[0] == "" || a[0] == "." then done
                    else if a[0] == ".." then if done == [] then [] else Parent(done)
                    else done + [a[0]]);
    }
  }

  /** Cleaning a joined path resolves the second part from the cleaned first. */
  lemma CleanJoin(dir: string, name: string)
    requires dir != "" && dir[0] == '/'
    ensures CleanBrowsePath(dir + "/" + name) == Resolve(Split(name), CleanBrowsePath(dir))
  {
    SplitAtSlash(dir, name);
    ResolveConcat(Split(dir), Split(name), []);
  }

  /** A component is appended as it is. */
  lemma CleanJoinComponent(dir: string, c: Component)
    requires dir != "" && dir[0] == '/'
    ensures CleanBrowsePath(dir + "/" + c) == CleanBrowsePath(dir) + [c]
  {
    CleanJoin(dir, c);
    SplitSingle(c);
    ResolveComponents([c], CleanBrowsePath(dir));
  }
}
