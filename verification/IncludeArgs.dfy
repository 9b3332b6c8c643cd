/** Delivering include paths to restic (internal/resticx/extract_tree.go): every
    path is escaped to match only itself, and goes either on the command line or
    through the pattern file, from which restic reads it back unchanged. */
module IncludeArgs {
  import opened Paths
  import opened Sorting
  import opened Wrappers
  import opened ExtractPlan

  datatype Params = Params(snapshotId: string, source: string, target: string, includePaths: seq<string>, noCache: bool)

  datatype ArgsError = InvalidSnapshotId | InvalidSource | InvalidTarget | InvalidInclude | ArgvOverflow

  datatype Args = Args(argv: seq<string>, patterns: string)

  const MAX_ARGV_BYTES := 512 * 1024
  const FLAG_OVERHEAD := 11
  const PATTERN_FILE := "/dev/fd/4"

  // Escaping.

  predicate Meta(c: char) { c in {'\\', '[', ']', '*', '?'} }

  function EscapeChar(c: char): string { if Meta(c) then ['\\', c] else [c] }

  function Escape(p: string): string {
    if p == "" then "" else EscapeChar(p[0]) + Escape(p[1..])
  }

  lemma EscapeNone()
    ensures Escape("") == "" && forall p: string :: p[0..] == p && p[|p|..] == ""
  {
  }

  lemma EscapeTail(p: string, i: nat)
    requires i < |p|
    ensures Escape(p[i..]) == EscapeChar(p[i]) + Escape(p[i + 1..])
  {
  }

  method LiteralIncludePattern(p: string) returns (pat: string)
    ensures pat == Escape(p)
  {
    hide Escape;
    EscapeNone();
    pat := "";
    for i := 0 to |p|
      invariant pat + Escape(p[i..]) == Escape(p)
    {
      EscapeTail(p, i);
      ghost var was := pat;
      if Meta(p[i]) {
        pat := pat + ['\\'];
      }
      pat := pat + [p[i]];
      assert pat == was + EscapeChar(p[i]);
    }
    assert pat + "" == pat;
  }

  lemma {:induction false} EscapeEnds(p: string)
    requires p != ""
    ensures Escape(p) != "" && Escape(p)[|Escape(p)| - 1] == p[|p| - 1]
    ensures !Meta(p[0]) ==> Escape(p)[0] == p[0]
  {
    if |p| > 1 {
      EscapeEnds(p[1..]);
    }
  }

  // filepath.Match.

  /** One character of a class, after an optional backslash, and what follows. */
  function GetEsc(p: string): Option<(char, string)> {
    if p == "" || p[0] == '-' || p[0] == ']' then None
    else
      var q := if p[0] == '\\' then p[1..] else p;
      if |q| < 2 then None else Some((q[0], q[1..]))
  }

  /** Whether c is in the class that p continues, and what follows its bracket. */
  function ClassMatch(p: string, c: char, some: bool, found: bool): Option<(bool, string)>
    decreases |p|
  {
    if p != "" && p[0] == ']' && some then Some((found, p[1..]))
    else
      var lo := GetEsc(p);
      if lo.None? then None
      else
        var rest := lo.value.1;
        if rest[0] != '-' then ClassMatch(rest, c, true, found || c == lo.value.0)
        else
          var hi := GetEsc(rest[1..]);
          if hi.None? then None
          else ClassMatch(hi.value.1, c, true, found || lo.value.0 <= c <= hi.value.0)
  }

  /** Malformed patterns match nothing. */
  predicate Match(pat: string, s: string)
    decreases |pat|, |s|
  {
    if pat == "" then s == ""
    else if pat[0] == '*' then
      Match(pat[1..], s) || (s != "" && s[0] != '/' && Match(pat, s[1..]))
    else if s == "" then false
    else if pat[0] == '?' then s[0] != '/' && Match(pat[1..], s[1..])
    else if pat[0] == '[' then
      var negated := |pat| > 1 && pat[1] == '^';
      var m := ClassMatch(pat[if negated then 2 else 1..], s[0], false, false);
      m.Some? && m.value.0 != negated && |m.value.1| < |pat| && Match(m.value.1, s[1..])
    else if pat[0] == '\\' then |pat| > 1 && s[0] == pat[1] && Match(pat[2..], s[1..])
    else s[0] == pat[0] && Match(pat[1..], s[1..])
  }

  /** An escaped path matches that path and nothing else. */
  lemma {:induction false} EscapedMatchesOnlyItself(p: string, s: string)
    ensures Match(Escape(p), s) <==> s == p
  {
    if p == "" {
    } else {
      var c, t, e := p[0], p[1..], Escape(p);
      if s != "" {
        EscapedMatchesOnlyItself(t, s[1..]);
        assert s == [s[0]] + s[1..] && p == [c] + t;
        assert e[|EscapeChar(c)|..] == Escape(t);
      }
    }
  }

  /** Escaping keeps the slashes where they are, so restic, which matches
      component by component, sees each component escaped. */
  lemma {:induction false} EscapeKeepsComponents(p: string)
    ensures |Split(Escape(p))| == |Split(p)|
    ensures forall i :: 0 <= i < |Split(p)| ==> Split(Escape(p))[i] == Escape(Split(p)[i])
  {
    if p == "" {
    } else {
      var c, t := p[0], p[1..];
      EscapeKeepsComponents(t);
      var r := Split(t);
      if c == '/' {
        assert Escape(p)[1..] == Escape(t);
      } else {
        SplitComponent(EscapeChar(c), Escape(t));
        assert ([c] + r[0])[1..] == r[0];
      }
    }
  }

  // Splitting between the pattern file and the command line.

  function TrimSpace(space: char -> bool, s: string): string
    decreases |s|
  {
    if s == "" then ""
    else if space(s[0]) then TrimSpace(space, s[1..])
    else if space(s[|s| - 1]) then TrimSpace(space, s[..|s| - 1])
    else s
  }

  /** What unicode.IsSpace says of the characters that matter here. */
  predicate SpaceOk(space: char -> bool) {
    space('\n') && space('\r') && !space('/') && !space('\\') && !space('[') && !space(']') && !space('*')
      && !space('?')
  }

  function FileSafe(space: char -> bool): string -> bool {
    (p: string) => '$' !in p && '\n' !in p && '\r' !in p && p == TrimSpace(space, p)
  }

  function OnArgv(space: char -> bool): string -> bool {
    (p: string) => !FileSafe(space)(p)
  }

  /** The command-line bytes of patterns: flag, pattern and terminators. */
  function ArgvCost(pats: seq<string>): nat {
    if pats == [] then 0 else ArgvCost(pats[..|pats| - 1]) + ByteLen(pats[|pats| - 1]) + |"--include"| + 2
  }

  function Escaped(ps: seq<string>): seq<string> { Map(Escape, ps) }

  function Lines(pats: seq<string>): string {
    if pats == [] then "" else Lines(pats[..|pats| - 1]) + pats[|pats| - 1] + "\n"
  }

  function Flagged(pats: seq<string>): seq<string> {
    if pats == [] then [] else Flagged(pats[..|pats| - 1]) + ["--include", pats[|pats| - 1]]
  }

  function BaseArgs(p: Params): seq<string> {
    ["--no-lock"] + (if p.noCache then ["--no-cache"] else [])
    + ["restore", if p.source != "" && p.source != "/" then p.snapshotId + ":" + p.source else p.snapshotId,
       "--target", p.target, "--overwrite", "never", "--json"]
  }

  predicate SourceClean(src: string) {
    src == "" || src == "/" || (NUL !in src && src == CleanString(src))
  }

  predicate IncludeClean(p: string) {
    p != "" && p != "/" && NUL !in p && p[0] == '/' && p == CleanString(p)
  }

  /** The first check a request fails. */
  function Invalid(p: Params): Option<ArgsError> {
    if !Hex(p.snapshotId, 64) then Some(InvalidSnapshotId)
    else if !SourceClean(p.source) then Some(InvalidSource)
    else if exists i :: 0 <= i < |p.includePaths| && !IncludeClean(p.includePaths[i]) then Some(InvalidInclude)
    else if !IsAbs(p.target) then Some(InvalidTarget)
    else None
  }

  /** The patterns on the command line. A single include always goes there. */
  function ArgvPatterns(space: char -> bool, incs: seq<string>): seq<string> {
    if |incs| == 1 then Escaped(incs) else Escaped(Filter(OnArgv(space), incs))
  }

  function FilePatterns(space: char -> bool, incs: seq<string>): seq<string> {
    if |incs| == 1 then [] else Escaped(Filter(FileSafe(space), incs))
  }

  lemma EscapedSnoc(ps: seq<string>, p: string)
    ensures Escaped(ps + [p]) == Escaped(ps) + [Escape(p)]
  {
  }

  lemma ListsSnoc(ps: seq<string>, p: string)
    ensures Lines(ps + [p]) == Lines(ps) + p + "\n"
    ensures Flagged(ps + [p]) == Flagged(ps) + ["--include", p]
    ensures ArgvCost(ps + [p]) == ArgvCost(ps) + ByteLen(p) + 11
  {
    assert (ps + [p])[..|ps|] == ps;
  }

  lemma {:induction false} CostGrows(a: seq<string>, b: seq<string>)
    ensures ArgvCost(a) <= ArgvCost(a + b)
  {
    if b == [] {
      assert a + b == a;
    } else {
      CostGrows(a, b[..|b| - 1]);
      ListsSnoc(a + b[..|b| - 1], b[|b| - 1]);
      assert a + b == a + b[..|b| - 1] + [b[|b| - 1]];
    }
  }

  method CheckParams(p: Params) returns (bad: Option<ArgsError>)
    ensures bad == Invalid(p)
  {
    if !Hex(p.snapshotId, 64) {
      return Some(InvalidSnapshotId);
    }
    if !SourceClean(p.source) {
      return Some(InvalidSource);
    }
    hide CleanString;
    for i := 0 to |p.includePaths|
      invariant forall j :: 0 <= j < i ==> IncludeClean(p.includePaths[j])
    {
      if !IncludeClean(p.includePaths[i]) {
        return Some(InvalidInclude);
      }
    }
    if !IsAbs(p.target) {
      return Some(InvalidTarget);
    }
    bad := None;
  }

  lemma EscapedConcat(a: seq<string>, b: seq<string>)
    ensures Escaped(a + b) == Escaped(a) + Escaped(b)
  {
    hide Escape;
  }

  lemma PrefixCosts(space: char -> bool, a: seq<string>, b: seq<string>)
    ensures ArgvCost(Escaped(Filter(OnArgv(space), a))) <= ArgvCost(Escaped(Filter(OnArgv(space), a + b)))
  {
    hide Filter, OnArgv, Escaped, ArgvCost;
    FilterConcat(OnArgv(space), a, b);
    EscapedConcat(Filter(OnArgv(space), a), Filter(OnArgv(space), b));
    CostGrows(Escaped(Filter(OnArgv(space), a)), Escaped(Filter(OnArgv(space), b)));
  }

  lemma IncludeStep(space: char -> bool, incs: seq<string>, i: nat)
    requires i < |incs|
    ensures var p, safe := incs[i], FileSafe(space)(incs[i]);
      && Escaped(Filter(FileSafe(space), incs[..i + 1]))
         == Escaped(Filter(FileSafe(space), incs[..i])) + (if safe then [Escape(p)] else [])
      && Escaped(Filter(OnArgv(space), incs[..i + 1]))
         == Escaped(Filter(OnArgv(space), incs[..i])) + (if safe then [] else [Escape(p)])
  {
    var p := incs[i];
    assert incs[..i + 1] == incs[..i] + [p];
    FilterSnoc(FileSafe(space), incs[..i], p);
    FilterSnoc(OnArgv(space), incs[..i], p);
    hide Escape, FileSafe, OnArgv;
    EscapedSnoc(Filter(FileSafe(space), incs[..i]), p);
    EscapedSnoc(Filter(OnArgv(space), incs[..i]), p);
  }

  /** The loop over several includes: the flags and the file text, or nothing
      when the command line would grow past its budget. */
  method SplitIncludes(space: char -> bool, incs: seq<string>) returns (r: Option<(seq<string>, string)>)
    ensures r.None? <==> ArgvCost(Escaped(Filter(OnArgv(space), incs))) > 524_288
    ensures r.Some? ==> r.value.0 == Flagged(Escaped(Filter(OnArgv(space), incs)))
    ensures r.Some? ==> r.value.1 == Lines(Escaped(Filter(FileSafe(space), incs)))
  {
    hide Escape, Escaped, Filter, FileSafe, ByteLen, ArgvCost, Flagged, Lines;
    var args, file, argvBytes := [], "", 0;
    NoIncludes(space);
    for i := 0 to |incs|
      invariant args == Flagged(Escaped(Filter(OnArgv(space), incs[..i])))
      invariant file == Lines(Escaped(Filter(FileSafe(space), incs[..i])))
      invariant argvBytes == ArgvCost(Escaped(Filter(OnArgv(space), incs[..i]))) <= MAX_ARGV_BYTES
    {
      var pat := LiteralIncludePattern(incs[i]);
      IncludeStep(space, incs, i);
      if FileSafe(space)(incs[i]) {
        ListsSnoc(Escaped(Filter(FileSafe(space), incs[..i])), pat);
        file := file + pat;
        file := file + "\n";
        assert Escaped(Filter(OnArgv(space), incs[..i])) + [] == Escaped(Filter(OnArgv(space), incs[..i]));
      } else {
        ListsSnoc(Escaped(Filter(OnArgv(space), incs[..i])), pat);
        argvBytes := argvBytes + ByteLen(pat) + FLAG_OVERHEAD;
        if argvBytes > MAX_ARGV_BYTES {
          PrefixCosts(space, incs[..i + 1], incs[i + 1..]);
          assert incs == incs[..i + 1] + incs[i + 1..];
          return None;
        }
        args := args + ["--include", pat];
        assert Escaped(Filter(FileSafe(space), incs[..i])) + [] == Escaped(Filter(FileSafe(space), incs[..i]));
      }
    }
    assert incs[..|incs|] == incs;
    r := Some((args, file));
  }

  lemma NoIncludes(space: char -> bool)
    ensures forall incs: seq<string> :: incs[..0] == []
    ensures Escaped(Filter(OnArgv(space), [])) == Escaped(Filter(FileSafe(space), [])) == []
    ensures Flagged([]) == [] && Lines([]) == "" && ArgvCost([]) == 0
  {
  }

  lemma LinesEmpty(pats: seq<string>)
    ensures Lines(pats) == "" <==> pats == []
  {
  }

  predicate Overflows(space: char -> bool, incs: seq<string>) {
    |incs| != 1 && ArgvCost(ArgvPatterns(space, incs)) > 524_288
  }

  /** What a valid request is turned into. */
  function ArgsOf(space: char -> bool, p: Params): Args {
    var filed := FilePatterns(space, p.includePaths);
    Args(BaseArgs(p) + Flagged(ArgvPatterns(space, p.includePaths))
         + (if filed == [] then [] else ["--include-file", PATTERN_FILE]), Lines(filed))
  }

  /** The arguments after the checks, or nothing when the includes overflow. */
  method AppendIncludes(space: char -> bool, p: Params) returns (r: Option<Args>)
    requires Invalid(p).None?
    ensures r == if Overflows(space, p.includePaths) then None else Some(ArgsOf(space, p))
  {
    hide Invalid, Escape, Filter, FileSafe, ByteLen, ArgvCost, Lines, Flagged, IncludeValues;
    var args := ["--no-lock"];
    if p.noCache {
      args := args + ["--no-cache"];
    }
    var ref := if p.source != "" && p.source != "/" then p.snapshotId + ":" + p.source else p.snapshotId;
    args := args + ["restore", ref, "--target", p.target, "--overwrite", "never", "--json"];
    assert args == BaseArgs(p);
    if |p.includePaths| == 1 {
      var pat := LiteralIncludePattern(p.includePaths[0]);
      OneFlag(p.includePaths, pat);
      args := args + ["--include", pat];
      assert args + [] == args;
      r := Some(Args(args, ""));
      return;
    }
    var split := SplitIncludes(space, p.includePaths);
    if split.None? {
      return None;
    }
    LinesEmpty(FilePatterns(space, p.includePaths));
    args := args + split.value.0;
    assert args + [] == args;
    if split.value.1 != "" {
      args := args + ["--include-file", PATTERN_FILE];
    }
    r := Some(Args(args, split.value.1));
  }

  lemma OneFlag(incs: seq<string>, pat: string)
    requires |incs| == 1 && pat == Escape(incs[0])
    ensures Flagged(Escaped(incs)) == ["--include", pat] && Lines([]) == ""
  {
    assert Escaped(incs) == [] + [pat];
    ListsSnoc([], pat);
  }

  method BuildExtractTreeArgs(space: char -> bool, p: Params) returns (r: Result<Args, ArgsError>)
    ensures Invalid(p).Some? ==> r == Err(Invalid(p).value)
    ensures Invalid(p).None? ==> (r == Err(ArgvOverflow) <==> Overflows(space, p.includePaths))
    ensures Invalid(p).None? ==> r.Ok? || r == Err(ArgvOverflow)
    ensures r.Ok? ==> r.value == ArgsOf(space, p)
    ensures r.Ok? ==> (ArgvCost(IncludeValues(r.value.argv)) <= 524_288 <==> !LoneOverBudget(p.includePaths))
  {
    var bad := CheckParams(p);
    if bad.Some? {
      return Err(bad.value);
    }
    var args := AppendIncludes(space, p);
    if args.None? {
      return Err(ArgvOverflow);
    }
    BudgetHolds(space, p);
    r := Ok(args.value);
  }

  // What restic reads back.

  function DropCr(s: string): string { if s != "" && s[|s| - 1] == '\r' then s[..|s| - 1] else s }

  function UpToNewline(s: string): (k: nat)
    ensures k <= |s| && '\n' !in s[..k] && (k < |s| ==> s[k] == '\n')
  {
    if s == "" || s[0] == '\n' then 0 else 1 + UpToNewline(s[1..])
  }

  function ReadLines(text: string): seq<string>
    decreases |text|
  {
    if text == "" then []
    else
      var k := UpToNewline(text);
      [DropCr(text[..k])] + if k < |text| then ReadLines(text[k + 1..]) else []
  }

  /** A pattern file: lines trimmed, blank lines and comments skipped, variables
      expanded. */
  function ReadPatterns(space: char -> bool, expand: string -> string, text: string): seq<string> {
    PatternsIn(space, expand, ReadLines(text))
  }

  function PatternsIn(space: char -> bool, expand: string -> string, lines: seq<string>): seq<string> {
    if lines == [] then []
    else
      var l := TrimSpace(space, lines[0]);
      (if l == "" || l[0] == '#' then [] else [expand(l)]) + PatternsIn(space, expand, lines[1..])
  }

  /** Expansion touches nothing but variables. */
  ghost predicate ExpandOk(expand: string -> string) {
    forall s :: '$' !in s ==> expand(s) == s
  }

  function IncludeValues(args: seq<string>): seq<string>
    decreases |args|
  {
    if |args| < 2 then []
    else if args[0] == "--include" then [args[1]] + IncludeValues(args[2..])
    else IncludeValues(args[1..])
  }

  /** A line that reading gives back as it is. */
  predicate Plain(space: char -> bool, l: string) {
    && l != "" && l[0] == '/' && '\n' !in l && '\r' !in l && '$' !in l && !space(l[0]) && !space(l[|l| - 1])
  }

  lemma {:induction false} LinesHead(p: string, ps: seq<string>)
    ensures Lines([p] + ps) == p + "\n" + Lines(ps)
  {
    if ps == [] {
      assert [p] + ps == [] + [p];
      ListsSnoc([], p);
    } else {
      var init, last := ps[..|ps| - 1], ps[|ps| - 1];
      LinesHead(p, init);
      ListsSnoc([p] + init, last);
      ListsSnoc(init, last);
      hide Lines;
      assert [p] + ps == [p] + init + [last] && ps == init + [last];
    }
  }

  lemma {:induction false} NewlineAfter(l: string, rest: string)
    requires '\n' !in l
    ensures UpToNewline(l + "\n" + rest) == |l|
  {
    if l != "" {
      assert (l + "\n" + rest)[1..] == l[1..] + "\n" + rest;
      NewlineAfter(l[1..], rest);
    }
  }

  lemma FirstLine(l: string, text: string)
    requires '\n' !in l && '\r' !in l
    ensures ReadLines(l + "\n" + text) == [l] + ReadLines(text)
  {
    NewlineAfter(l, text);
    var whole := l + "\n" + text;
    assert whole[..|l|] == l && whole[|l| + 1..] == text;
    hide UpToNewline;
    assert DropCr(l) == l;
  }

  lemma FirstPattern(space: char -> bool, expand: string -> string, l: string, lines: seq<string>)
    requires ExpandOk(expand) && Plain(space, l)
    ensures PatternsIn(space, expand, [l] + lines) == [l] + PatternsIn(space, expand, lines)
  {
    assert TrimSpace(space, l) == l;
    hide TrimSpace;
    assert ([l] + lines)[1..] == lines;
  }

  lemma {:induction false} FileReadsBack(space: char -> bool, expand: string -> string, pats: seq<string>)
    requires ExpandOk(expand) && forall i :: 0 <= i < |pats| ==> Plain(space, pats[i])
    ensures ReadPatterns(space, expand, Lines(pats)) == pats
  {
    if pats == [] {
    } else {
      var l, rest := pats[0], pats[1..];
      assert pats == [l] + rest;
      LinesHead(l, rest);
      FileReadsBack(space, expand, rest);
      FirstLine(l, Lines(rest));
      FirstPattern(space, expand, l, ReadLines(Lines(rest)));
    }
  }

  lemma {:induction false} TrimmedEnds(space: char -> bool, s: string)
    requires s != "" && s == TrimSpace(space, s)
    ensures !space(s[0]) && !space(s[|s| - 1])
  {
    TrimShortens(space, if space(s[0]) then s[1..] else s[..|s| - 1]);
  }

  lemma {:induction false} TrimShortens(space: char -> bool, s: string)
    ensures |TrimSpace(space, s)| <= |s|
    decreases |s|
  {
    if s != "" {
      TrimShortens(space, if space(s[0]) then s[1..] else s[..|s| - 1]);
    }
  }

  lemma {:induction false} EscapeMembers(p: string, c: char)
    requires c in Escape(p)
    ensures c == '\\' || c in p
  {
    if p != "" {
      if c in Escape(p[1..]) {
        EscapeMembers(p[1..], c);
      }
    }
  }

  /** A path that restic would not read back from a line as it is. */
  predicate Altered(space: char -> bool, p: string) {
    '$' in p || '\n' in p || '\r' in p || (p != "" && (space(p[0]) || space(p[|p| - 1])))
  }

  lemma AlteredExact(space: char -> bool, p: string)
    ensures OnArgv(space)(p) <==> Altered(space, p)
  {
    var trimmed := TrimSpace(space, p);
    if p != "" && p == trimmed {
      TrimmedEnds(space, p);
    }
    assert p != trimmed ==> p != "" && (space(p[0]) || space(p[|p| - 1]));
    hide TrimSpace;
    assert OnArgv(space)(p) <==> !FileSafe(space)(p);
  }

  predicate EscapedOf(incs: seq<string>, pat: string, p: string) { p in incs && pat == Escape(p) }

  /** With more than one include, exactly the paths a line would alter go on the
      command line and all others into the file. */
  lemma SplitExactly(space: char -> bool, incs: seq<string>, pat: string)
    requires |incs| != 1
    ensures pat in ArgvPatterns(space, incs) <==> exists p :: EscapedOf(incs, pat, p) && Altered(space, p)
    ensures pat in FilePatterns(space, incs) <==> exists p :: EscapedOf(incs, pat, p) && !Altered(space, p)
  {
    FilterMembers(OnArgv(space), incs);
    FilterMembers(FileSafe(space), incs);
    forall p ensures OnArgv(space)(p) <==> Altered(space, p) {
      AlteredExact(space, p);
    }
    EscapedMembers(Filter(OnArgv(space), incs), pat);
    EscapedMembers(Filter(FileSafe(space), incs), pat);
    hide Escape, Escaped, Filter, Altered, FileSafe;
    assert forall p :: OnArgv(space)(p) <==> !FileSafe(space)(p);
  }

  lemma EscapedMembers(ps: seq<string>, pat: string)
    ensures pat in Escaped(ps) <==> exists p :: p in ps && pat == Escape(p)
  {
    hide Escape;
    if pat in Escaped(ps) {
      var i :| 0 <= i < |Escaped(ps)| && Escaped(ps)[i] == pat;
      assert ps[i] in ps && pat == Escape(ps[i]);
    }
    if p :| p in ps && pat == Escape(p) {
      var i :| 0 <= i < |ps| && ps[i] == p;
      assert Escaped(ps)[i] == pat;
    }
  }

  ghost predicate SubtreeOk(source: string) {
    source == "" || source == "/" || (CleanNonRoot(source) && '\0' !in source)
  }

  ghost predicate PathsOk(incs: seq<string>) {
    forall p :: p in incs ==> CleanNonRoot(p) && '\0' !in p
  }

  /** Which error a request gets, check by check. */
  lemma InvalidExactly(p: Params)
    ensures Invalid(p) == Some(InvalidSnapshotId) <==> !Digits(p.snapshotId, 64)
    ensures Invalid(p) == Some(InvalidSource) <==> Digits(p.snapshotId, 64) && !SubtreeOk(p.source)
    ensures Invalid(p) == Some(InvalidInclude) <==>
            Digits(p.snapshotId, 64) && SubtreeOk(p.source) && !PathsOk(p.includePaths)
    ensures Invalid(p) == Some(InvalidTarget) <==>
            && Digits(p.snapshotId, 64) && SubtreeOk(p.source) && PathsOk(p.includePaths)
            && (p.target == "" || p.target[0] != '/')
    ensures Invalid(p).None? <==>
            && Digits(p.snapshotId, 64) && SubtreeOk(p.source) && PathsOk(p.includePaths)
            && p.target != "" && p.target[0] == '/'
  {
    HexIsDigits(p.snapshotId, 64);
    CleanNonRootExact(p.source);
    var incs := p.includePaths;
    forall i | 0 <= i < |incs| ensures IncludeClean(incs[i]) <==> CleanNonRoot(incs[i]) && '\0' !in incs[i] {
      CleanNonRootExact(incs[i]);
    }
    hide CleanNonRoot, CleanString, IncludeClean, Hex, Digits;
    assert PathsOk(incs) <==> forall i :: 0 <= i < |incs| ==> IncludeClean(incs[i]);
  }

  lemma SafeIsPlain(space: char -> bool, p: string)
    requires SpaceOk(space) && IncludeClean(p) && FileSafe(space)(p)
    ensures Plain(space, Escape(p))
  {
    hide CleanString, TrimSpace;
    TrimmedEnds(space, p);
    EscapeEnds(p);
    forall c | c in Escape(p) ensures c == '\\' || c in p {
      EscapeMembers(p, c);
    }
  }

  lemma {:induction false} FlaggedHead(p: string, ps: seq<string>)
    ensures Flagged([p] + ps) == ["--include", p] + Flagged(ps)
  {
    if ps == [] {
      assert [p] + ps == [] + [p];
      ListsSnoc([], p);
    } else {
      var init, last := ps[..|ps| - 1], ps[|ps| - 1];
      FlaggedHead(p, init);
      ListsSnoc([p] + init, last);
      ListsSnoc(init, last);
      hide Flagged;
      assert [p] + ps == [p] + init + [last] && ps == init + [last];
    }
  }

  lemma {:induction false} FlagsReadBack(pats: seq<string>, tail: seq<string>)
    requires tail == [] || tail == ["--include-file", PATTERN_FILE]
    ensures IncludeValues(Flagged(pats) + tail) == pats
  {
    if pats == [] {
      assert Flagged(pats) + tail == tail;
    } else {
      var p, rest := pats[0], pats[1..];
      assert pats == [p] + rest;
      FlaggedHead(p, rest);
      FlagsReadBack(rest, tail);
      assert (Flagged(pats) + tail)[2..] == Flagged(rest) + tail;
    }
  }

  lemma {:induction false} SkipPlainArgs(a: seq<string>, b: seq<string>)
    requires forall i :: 0 <= i < |a| ==> a[i] != "--include"
    ensures IncludeValues(a + b) == IncludeValues(b)
    decreases |a|
  {
    if a == [] {
      assert a + b == b;
    } else {
      assert (a + b)[1..] == a[1..] + b;
      SkipPlainArgs(a[1..], b);
    }
  }

  lemma BaseHasNoInclude(p: Params)
    requires Invalid(p).None?
    ensures forall i :: 0 <= i < |BaseArgs(p)| ==> BaseArgs(p)[i] != "--include"
  {
    hide CleanString, IncludeClean, SourceClean;
    var snap := if p.source != "" && p.source != "/" then p.snapshotId + ":" + p.source else p.snapshotId;
    assert HexChar(p.snapshotId[0]) && snap[0] == p.snapshotId[0];
    assert p.target[0] == '/' && "--include"[0] == '-';
  }

  lemma {:induction false} FilterPartition(space: char -> bool, incs: seq<string>)
    ensures multiset(Escaped(Filter(FileSafe(space), incs))) + multiset(Escaped(Filter(OnArgv(space), incs)))
         == multiset(Escaped(incs))
  {
    hide Escape;
    if incs != [] {
      var init, p := incs[..|incs| - 1], incs[|incs| - 1];
      FilterPartition(space, init);
      assert incs == init + [p];
      PartitionSnoc(space, init, p);
    }
  }

  lemma PartitionSnoc(space: char -> bool, incs: seq<string>, p: string)
    ensures multiset(Escaped(Filter(FileSafe(space), incs + [p])))
            + multiset(Escaped(Filter(OnArgv(space), incs + [p])))
         == multiset(Escaped(Filter(FileSafe(space), incs))) + multiset(Escaped(Filter(OnArgv(space), incs)))
            + multiset{Escape(p)}
    ensures multiset(Escaped(incs + [p])) == multiset(Escaped(incs)) + multiset{Escape(p)}
  {
    FilterSnoc(FileSafe(space), incs, p);
    FilterSnoc(OnArgv(space), incs, p);
    EscapedSnoc(incs, p);
    hide FileSafe, Filter, Escape, Escaped;
    var a, b := Filter(FileSafe(space), incs), Filter(OnArgv(space), incs);
    if FileSafe(space)(p) {
      EscapedSnoc(a, p);
      assert b + [] == b;
    } else {
      EscapedSnoc(b, p);
      assert a + [] == a;
    }
  }

  lemma FilesArePlain(space: char -> bool, p: Params)
    requires SpaceOk(space) && Invalid(p).None?
    ensures forall i :: 0 <= i < |FilePatterns(space, p.includePaths)| ==>
              Plain(space, FilePatterns(space, p.includePaths)[i])
  {
    hide Escape, IncludeClean, FileSafe, SpaceOk, Plain, Filter;
    var incs := p.includePaths;
    if |incs| != 1 {
      FilterMembers(FileSafe(space), incs);
      var safe := Filter(FileSafe(space), incs);
      forall i | 0 <= i < |safe| ensures Plain(space, Escape(safe[i])) {
        assert safe[i] in incs;
        SafeIsPlain(space, safe[i]);
      }
    }
  }

  lemma ArgvReadsBack(p: Params, pats: seq<string>, tail: seq<string>)
    requires Invalid(p).None? && (tail == [] || tail == ["--include-file", PATTERN_FILE])
    ensures IncludeValues(BaseArgs(p) + Flagged(pats) + tail) == pats
  {
    FlagsReadBack(pats, tail);
    BaseHasNoInclude(p);
    hide Flagged, BaseArgs, Invalid;
    assert BaseArgs(p) + Flagged(pats) + tail == BaseArgs(p) + (Flagged(pats) + tail);
    SkipPlainArgs(BaseArgs(p), Flagged(pats) + tail);
  }

  /** Delivery round trip: what restic reads from the pattern file and from the
      command line is together exactly the escaped includes. */
  lemma DeliveryRoundTrip(space: char -> bool, expand: string -> string, p: Params)
    requires SpaceOk(space) && ExpandOk(expand) && Invalid(p).None?
    ensures var a := ArgsOf(space, p);
      && ReadPatterns(space, expand, a.patterns) == FilePatterns(space, p.includePaths)
      && IncludeValues(a.argv) == ArgvPatterns(space, p.includePaths)
      && multiset(ReadPatterns(space, expand, a.patterns)) + multiset(IncludeValues(a.argv))
         == multiset(Escaped(p.includePaths))
  {
    FilesArePlain(space, p);
    FileReadsBack(space, expand, FilePatterns(space, p.includePaths));
    ArgvReadsBack(p, ArgvPatterns(space, p.includePaths),
                  if FilePatterns(space, p.includePaths) == [] then [] else ["--include-file", PATTERN_FILE]);
    hide Escape, Invalid, Filter, FileSafe, OnArgv, Lines, Flagged, BaseArgs, IncludeValues, ReadPatterns;
    FilterPartition(space, p.includePaths);
  }

  lemma {:induction false} BytesAtLeast(s: string)
    ensures ByteLen(s) >= |s|
  {
    if s != "" {
      BytesAtLeast(s[..|s| - 1]);
    }
  }

  lemma {:induction false} EscapeAtLeast(p: string)
    ensures |Escape(p)| >= |p|
  {
    if p != "" {
      EscapeAtLeast(p[1..]);
    }
  }

  /** One path whose own flag is over the budget. */
  predicate LoneOverBudget(incs: seq<string>) {
    |incs| == 1 && ByteLen(Escape(incs[0])) + |"--include"| + 2 > 524_288
  }

  /** The includes on the command line that is built are within their budget
      exactly when there is not one single path whose own flag is over it: a
      single include always goes on the command line and is not counted. */
  lemma BudgetHolds(space: char -> bool, p: Params)
    requires Invalid(p).None? && !Overflows(space, p.includePaths)
    ensures ArgvCost(IncludeValues(ArgsOf(space, p).argv)) <= 524_288 <==> !LoneOverBudget(p.includePaths)
  {
    var incs := p.includePaths;
    ArgvReadsBack(p, ArgvPatterns(space, incs),
                  if FilePatterns(space, incs) == [] then [] else ["--include-file", PATTERN_FILE]);
    hide Invalid, IncludeValues, BaseArgs, Flagged, Lines, FileSafe, Filter, Escape, ByteLen;
    if |incs| == 1 {
      assert Escaped(incs) == [] + [Escape(incs[0])];
      ListsSnoc([], Escape(incs[0]));
    }
  }

  lemma {:induction false} DeepTail(n: nat)
    ensures |RenderTail(seq(n, _ => "a"))| == 2 * n && NUL !in RenderTail(seq(n, _ => "a"))
  {
    if n > 0 {
      DeepTail(n - 1);
      assert seq(n, _ => "a")[1..] == seq(n - 1, _ => "a");
    }
  }

  lemma DeepInclude() returns (inc: string, path: Path)
    ensures IncludeClean(inc) && path == CleanBrowsePath(inc) && LoneOverBudget([inc])
    ensures forall i :: 0 <= i < |path| ==> |path[i]| == 1
  {
    path := seq(MAX_ARGV_BYTES, _ => "a");
    inc := Render(path);
    DeepTail(MAX_ARGV_BYTES);
    CleanUndoesRender(path);
    assert path != [] && inc[0] == '/' && |inc| == 2 * MAX_ARGV_BYTES;
    BytesAtLeast(Escape(inc));
    EscapeAtLeast(inc);
    hide RenderTail, Escape, ByteLen, CleanBrowsePath;
  }

  /** And such a path exists, of short elements: a valid request for it alone is
      built into a command line over the budget. */
  lemma SingleIncludeSkipsBudget(space: char -> bool) returns (p: Params)
    ensures Invalid(p).None? && !Overflows(space, p.includePaths)
    ensures ArgvCost(IncludeValues(ArgsOf(space, p).argv)) > 524_288
    ensures |p.includePaths| == 1 && forall i :: 0 <= i < |CleanBrowsePath(p.includePaths[0])| ==>
              |CleanBrowsePath(p.includePaths[0])[i]| == 1
  {
    var inc, path := DeepInclude();
    p := Params(seq(64, _ => 'a'), "", "/", [inc], false);
    assert Invalid(p).None? by {
      hide IncludeClean;
    }
    hide Invalid, LoneOverBudget, CleanBrowsePath, IncludeValues, ArgvCost, IncludeClean;
    BudgetHolds(space, p);
  }
}
