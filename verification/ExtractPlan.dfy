/** Validating an extraction request and deriving its paths
    (internal/app/extract.go). */
module ExtractPlan {
  import opened Paths
  import opened Sorting
  import opened Wrappers

  datatype Mode = ExtractFile | ExtractDirectoryTree

  datatype Request = Request(repo: string, snapshotId: string, snapshotShort: string, source: string,
                             sourceName: string, mode: Mode, wasRegularFile: bool, targetRoot: string,
                             diffContainer: string, includePaths: seq<string>, privileged: bool)

  /** The field an invalid request is rejected for. */
  datatype Field = RepoField | ShortField | IdField | ContainerField | SourceField | IncludesField
                 | NameField | TargetField | ModeField

  datatype Plan = Plan(staging: Path, final: Path)

  const MAX_INCLUDES := 50_000
  const MAX_INCLUDE_BYTES := 0x80_0000

  // Slugs.

  predicate SlugChar(c: char) {
    'a' <= c <= 'z' || 'A' <= c <= 'Z' || '0' <= c <= '9' || c == '.' || c == '_' || c == '-'
  }

  /** ASCII letters and digits, the dash, the dot and the underscore. */
  lemma SlugCharExact(c: char)
    ensures SlugChar(c) <==>
            48 <= c as int <= 57 || 65 <= c as int <= 90 || 97 <= c as int <= 122 || c as int in {45, 46, 95}
  {
    assert '0' as int == 48 && '9' as int == 57 && 'A' as int == 65 && 'Z' as int == 90;
    assert 'a' as int == 97 && 'z' as int == 122 && '-' as int == 45 && '.' as int == 46 && '_' as int == 95;
    assert c as int == 45 ==> c == '-';
    assert c as int == 46 ==> c == '.';
    assert c as int == 95 ==> c == '_';
  }

  /** Runs of other characters become one dash. */
  function Dashed(s: string, dash: bool): string {
    if s == "" then ""
    else if SlugChar(s[0]) then [s[0]] + Dashed(s[1..], false)
    else (if dash then "" else "-") + Dashed(s[1..], true)
  }

  function TrimLeft(s: string): string {
    if s != "" && (s[0] == '-' || s[0] == '.') then TrimLeft(s[1..]) else s
  }

  function SlugOf(s: string): string {
    var out := TrimLeft(Dashed(s, false));
    if |out| > 64 then out[..64] else out
  }

  method SanitizeExtractSlug(s: string) returns (r: Option<string>)
    ensures r == if SlugOf(s) == "" then None else Some(SlugOf(s))
  {
    var b, dash := "", false;
    for i := 0 to |s|
      invariant b + Dashed(s[i..], dash) == Dashed(s, false)
    {
      assert s[i..][0] == s[i] && s[i..][1..] == s[i + 1..];
      if SlugChar(s[i]) {
        b, dash := b + [s[i]], false;
      } else {
        if !dash {
          b := b + "-";
        }
        dash := true;
      }
    }
    assert b + "" == b;
    var out := b;
    while out != "" && (out[0] == '-' || out[0] == '.')
      invariant TrimLeft(out) == TrimLeft(b)
      decreases |out|
    {
      out := out[1..];
    }
    if |out| > 64 {
      out := out[..64];
    }
    if out == "" {
      return None;
    }
    r := Some(out);
  }

  predicate AllSlugChars(s: string) { forall i :: 0 <= i < |s| ==> SlugChar(s[i]) }

  lemma {:induction false} DashedChars(s: string, dash: bool)
    ensures AllSlugChars(Dashed(s, dash))
  {
    if s != "" {
      DashedChars(s[1..], !SlugChar(s[0]));
    }
  }

  lemma {:induction false} DashedFixed(s: string)
    requires AllSlugChars(s)
    ensures Dashed(s, false) == s
  {
    if s != "" {
      DashedFixed(s[1..]);
    }
  }

  lemma {:induction false} TrimLeftClean(s: string)
    ensures TrimLeft(s) != "" ==> TrimLeft(s)[0] != '-' && TrimLeft(s)[0] != '.'
    ensures AllSlugChars(s) ==> AllSlugChars(TrimLeft(s))
  {
    if s != "" && (s[0] == '-' || s[0] == '.') {
      TrimLeftClean(s[1..]);
    }
  }

  /** A slug is a short, safe path component, and sanitizing it again keeps it. */
  lemma SlugIsComponent(s: string)
    requires SlugOf(s) != ""
    ensures AllSlugChars(SlugOf(s)) && |SlugOf(s)| <= 64
    ensures SlugOf(s)[0] != '-' && SlugOf(s)[0] != '.'
    ensures '/' !in SlugOf(s) && SlugOf(s) != "." && SlugOf(s) != ".."
    ensures SlugOf(SlugOf(s)) == SlugOf(s)
  {
    DashedChars(s, false);
    TrimLeftClean(Dashed(s, false));
    DashedFixed(SlugOf(s));
  }

  /** Slug characters stay and each run of others becomes one dash. */
  lemma {:induction false} DashedRuns(kept: string, run: string, rest: string)
    requires AllSlugChars(kept) && run != "" && forall i :: 0 <= i < |run| ==> !SlugChar(run[i])
    requires rest != "" ==> SlugChar(rest[0])
    ensures Dashed(kept + run + rest, false) == kept + "-" + Dashed(rest, false)
    decreases |kept| + |run|
  {
    if kept != "" {
      DashedRuns(kept[1..], run, rest);
      assert (kept + run + rest)[1..] == kept[1..] + run + rest;
    } else {
      RunVanishes(run[1..], rest);
      assert (kept + run + rest)[1..] == run[1..] + rest;
    }
  }

  lemma {:induction false} RunVanishes(run: string, rest: string)
    requires forall i :: 0 <= i < |run| ==> !SlugChar(run[i])
    requires rest != "" ==> SlugChar(rest[0])
    ensures Dashed(run + rest, true) == Dashed(rest, false)
  {
    if run == "" {
      assert run + rest == rest;
    } else {
      RunVanishes(run[1..], rest);
      assert (run + rest)[1..] == run[1..] + rest;
    }
  }

  predicate Leading(c: char) { c == '-' || c == '.' }

  lemma {:induction false} TrimLeftExact(s: string) returns (k: nat)
    ensures k <= |s| && TrimLeft(s) == s[k..] && (forall i :: 0 <= i < k ==> Leading(s[i]))
    ensures k < |s| ==> !Leading(s[k])
  {
    k := 0;
    if s != "" && Leading(s[0]) {
      k := TrimLeftExact(s[1..]);
      assert s[1..][k..] == s[k + 1..];
      k := k + 1;
    }
  }

  /** A slug is what is left of the dashed text without its leading dashes and
      dots, up to 64 characters; text of slug characters that begins with neither
      and fits is its own slug. */
  lemma SlugExact(s: string) returns (k: nat)
    ensures var d := Dashed(s, false);
      && k <= |d| && (forall i :: 0 <= i < k ==> Leading(d[i])) && (k < |d| ==> !Leading(d[k]))
      && SlugOf(s) == if |d| <= k + 64 then d[k..] else d[k..k + 64]
    ensures AllSlugChars(s) && |s| <= 64 && (s != "" ==> !Leading(s[0])) ==> SlugOf(s) == s
  {
    k := TrimLeftExact(Dashed(s, false));
    if AllSlugChars(s) {
      DashedFixed(s);
    }
  }

  // Hexadecimal names.

  predicate HexChar(c: char) { '0' <= c <= '9' || 'a' <= c <= 'f' }

  predicate Hex(s: string, n: nat) { |s| == n && forall i :: 0 <= i < |s| ==> HexChar(s[i]) }

  /** The first sixteen hex digits of a SHA-256 sum. */
  ghost predicate HashOk(hash16: string -> string) {
    forall s :: Hex(hash16(s), 16)
  }

  predicate PairContainer(s: string) {
    |s| == 22 && s[..5] == "diff-" && Hex(s[5..13], 8) && s[13] == '-' && Hex(s[14..], 8)
  }

  predicate ContainerOk(container: string, short: string) {
    PairContainer(container) && container[5..13] != container[14..]
    && (container[5..13] == short || container[14..] == short)
  }

  // Validation.

  const NUL := '\0'

  function CleanString(s: string): string { Render(CleanBrowsePath(s)) }

  predicate IsAbs(s: string) { s != "" && s[0] == '/' }

  function TotalBytes(incs: seq<string>): nat {
    if incs == [] then 0 else ByteLen(incs[0]) + TotalBytes(incs[1..])
  }

  lemma {:induction false} TotalAdds(a: seq<string>, b: seq<string>)
    ensures TotalBytes(a + b) == TotalBytes(a) + TotalBytes(b)
    ensures forall p :: TotalBytes([p]) == ByteLen(p)
  {
    assert forall p: string :: [p][1..] == [];
    if a == [] {
      assert a + b == b;
    } else {
      TotalAdds(a[1..], b);
      assert (a + b)[1..] == a[1..] + b;
    }
  }

  predicate IncludeOk(source: string, p: string) {
    && p != "" && p != "/" && NUL !in p && p == CleanString(p)
    && UnderBytes(CleanBrowsePath(source), CleanBrowsePath(p))
  }

  predicate IncludesOk(source: string, incs: seq<string>) {
    && |incs| <= MAX_INCLUDES
    && (forall i :: 0 <= i < |incs| ==> IncludeOk(source, incs[i]))
    && TotalBytes(incs) <= MAX_INCLUDE_BYTES
  }

  function WantName(req: Request): string {
    var src := CleanBrowsePath(req.source);
    if src == [] then req.snapshotShort else SlugOf(Base(src))
  }

  function EffectiveRoot(cfgRoot: string, req: Request): string {
    if req.targetRoot != "" then req.targetRoot else cfgRoot
  }

  /** The first field that the request is rejected for. */
  function Rejected(cfgRoot: string, req: Request): Option<Field> {
    if req.repo == "" || SlugOf(req.repo) == "" then Some(RepoField)
    else if !Hex(req.snapshotShort, 8) then Some(ShortField)
    else if !Hex(req.snapshotId, 64) then Some(IdField)
    else if req.snapshotShort != req.snapshotId[..8] then Some(ShortField)
    else if req.diffContainer != "" && !ContainerOk(req.diffContainer, req.snapshotShort) then Some(ContainerField)
    else if req.source == "" then Some(SourceField)
    else if NUL in req.source || req.source != CleanString(req.source) then Some(SourceField)
    else if !IncludesOk(req.source, req.includePaths) then Some(IncludesField)
    else if WantName(req) == "" then Some(SourceField)
    else if req.sourceName == "" || '/' in req.sourceName || req.sourceName[0] == '.' || req.sourceName != WantName(req)
    then Some(NameField)
    else if !IsAbs(EffectiveRoot(cfgRoot, req)) then Some(TargetField)
    else None
  }

  /** filepath.Join of the target root and the slug: cleaning the joined string
      appends the slug to the cleaned root. */
  function RepoDir(cfgRoot: string, req: Request): Path
    requires SlugOf(req.repo) != ""
  {
    SlugIsComponent(req.repo);
    CleanBrowsePath(EffectiveRoot(cfgRoot, req)) + [SlugOf(req.repo)]
  }

  lemma RepoDirIsJoin(cfgRoot: string, req: Request)
    requires SlugOf(req.repo) != "" && IsAbs(EffectiveRoot(cfgRoot, req))
    ensures RepoDir(cfgRoot, req) == CleanBrowsePath(EffectiveRoot(cfgRoot, req) + "/" + SlugOf(req.repo))
  {
    SlugIsComponent(req.repo);
    CleanJoinComponent(EffectiveRoot(cfgRoot, req), SlugOf(req.repo));
  }

  function SnapDir(cfgRoot: string, req: Request): Path
    requires Rejected(cfgRoot, req).None?
  {
    RepoDir(cfgRoot, req)
    + (if req.diffContainer != "" then [ContainerComponent(req)] else [])
    + [ShortComponent(req)]
  }

  function ShortComponent(req: Request): Component
    requires Hex(req.snapshotShort, 8)
  {
    assert forall i :: 0 <= i < |req.snapshotShort| ==> HexChar(req.snapshotShort[i]);
    req.snapshotShort
  }

  function ContainerComponent(req: Request): Component
    requires PairContainer(req.diffContainer)
  {
    var c := req.diffContainer;
    assert c == c[..5] + c[5..13] + [c[13]] + c[14..];
    c
  }

  function HashInput(req: Request): string {
    if req.diffContainer != "" then req.diffContainer + [NUL] + req.source else req.source
  }

  const STAGING_PREFIX := ".resticscope-staging-"

  function StagingName(hash16: string -> string, req: Request): string {
    STAGING_PREFIX + req.snapshotShort + "-" + req.sourceName + "-" + hash16(HashInput(req))
  }

  lemma HexHasNoSlash(s: string, n: nat)
    requires Hex(s, n)
    ensures '/' !in s
  {
  }

  lemma NoSlashConcat(a: string, b: string)
    requires '/' !in a && '/' !in b
    ensures '/' !in a + b
    ensures a != "" ==> (a + b)[0] == a[0]
  {
  }

  lemma StagingNameIsComponent(hash16: string -> string, cfgRoot: string, req: Request)
    requires HashOk(hash16) && Rejected(cfgRoot, req).None?
    ensures var n := StagingName(hash16, req); n != "" && n != "." && n != ".." && '/' !in n && n[0] == '.'
  {
    var h := hash16(HashInput(req));
    assert Hex(h, 16) && Hex(req.snapshotShort, 8) && '/' !in req.sourceName;
    HexHasNoSlash(h, 16);
    HexHasNoSlash(req.snapshotShort, 8);
    hide Rejected, HashOk, Hex;
    NoSlashConcat(STAGING_PREFIX, req.snapshotShort);
    NoSlashConcat(STAGING_PREFIX + req.snapshotShort, "-");
    NoSlashConcat(STAGING_PREFIX + req.snapshotShort + "-", req.sourceName);
    NoSlashConcat(STAGING_PREFIX + req.snapshotShort + "-" + req.sourceName, "-");
    NoSlashConcat(STAGING_PREFIX + req.snapshotShort + "-" + req.sourceName + "-", h);
  }

  function PlanExtractPaths(cfgRoot: string, hash16: string -> string, req: Request): Result<Plan, Field>
    requires HashOk(hash16)
  {
    var bad := Rejected(cfgRoot, req);
    if bad.Some? then Err(bad.value)
    else
      StagingNameIsComponent(hash16, cfgRoot, req);
      Ok(Plan(RepoDir(cfgRoot, req) + [StagingName(hash16, req)],
              SnapDir(cfgRoot, req) + CleanBrowsePath(req.source)))
  }

  function CheckExtractModeGate(req: Request): Option<Field> {
    if req.mode.ExtractFile? then
      if !req.wasRegularFile then Some(ModeField)
      else if req.source == "" || req.source == "/" then Some(SourceField)
      else if req.includePaths != [] then Some(IncludesField)
      else None
    else if req.wasRegularFile then Some(ModeField)
    else None
  }

  function ExtractDiffTargetDir(cfgRoot: string, req: Request): Result<Path, Field> {
    if req.diffContainer == "" then Err(ContainerField)
    else if SlugOf(req.repo) == "" then Err(RepoField)
    else if !IsAbs(EffectiveRoot(cfgRoot, req)) then Err(TargetField)
    else Ok(CleanBrowsePath(Render(RepoDir(cfgRoot, req)) + "/" + req.diffContainer))
  }

  // What a plan promises.

  /** A request plans exactly when its own fields are right and the root it
      runs under is absolute; privilege plays no part. */
  predicate FieldsOk(req: Request) { Rejected("/", req.(targetRoot := "", privileged := false)).None? }

  lemma PlanSplits(cfgRoot: string, req: Request)
    ensures Rejected(cfgRoot, req).None? <==> FieldsOk(req) && IsAbs(EffectiveRoot(cfgRoot, req))
  {
    hide SlugOf, CleanString, CleanBrowsePath, IncludesOk, ContainerOk;
    var r := req.(targetRoot := "", privileged := false);
    assert WantName(r) == WantName(req);
  }

  /** n lower-case hexadecimal digits. */
  ghost predicate Digits(s: string, n: nat) {
    |s| == n && forall c :: c in s ==> c in "0123456789abcdef"
  }

  lemma HexIsDigits(s: string, n: nat)
    ensures Hex(s, n) <==> Digits(s, n)
  {
    assert forall c :: HexChar(c) <==> c in "0123456789abcdef";
  }

  /** The two snapshots of a pair, in display order. */
  ghost predicate PairOf(container: string, a: string, b: string) {
    Digits(a, 8) && Digits(b, 8) && a != b && container == "diff-" + a + "-" + b
  }

  lemma ContainerExact(container: string, short: string)
    ensures ContainerOk(container, short) <==>
            exists a, b :: PairOf(container, a, b) && (short == a || short == b)
  {
    if ContainerOk(container, short) {
      var a, b := container[5..13], container[14..];
      HexIsDigits(a, 8);
      HexIsDigits(b, 8);
      assert container == container[..5] + a + [container[13]] + b;
      assert PairOf(container, a, b);
    }
    if a, b :| PairOf(container, a, b) && (short == a || short == b) {
      HexIsDigits(a, 8);
      HexIsDigits(b, 8);
      assert container[5..13] == a && container[14..] == b;
    }
  }

  /** A clean path that names something below the root. */
  ghost predicate CleanNonRoot(p: string) {
    exists q :: q != [] && p == Render(q)
  }

  lemma CleanNonRootExact(p: string)
    ensures CleanNonRoot(p) <==> p != "" && p != "/" && p == CleanString(p)
  {
    if q :| q != [] && p == Render(q) {
      CleanUndoesRender(q);
    }
    if p != "/" && p == CleanString(p) {
      assert CleanBrowsePath(p) != [];
    }
  }

  /** Every include is a clean path at or below the source, and there are not too
      many. */
  ghost predicate IncludesFit(source: string, incs: seq<string>) {
    && |incs| <= 50_000 && TotalBytes(incs) <= 8_388_608
    && forall p :: p in incs ==>
         CleanNonRoot(p) && '\0' !in p && Under(CleanBrowsePath(source), CleanBrowsePath(p))
  }

  lemma IncludesExact(source: string, incs: seq<string>)
    ensures IncludesOk(source, incs) <==> IncludesFit(source, incs)
  {
    hide CleanString, TotalBytes, CleanBrowsePath, UnderBytes, CleanNonRoot;
    forall p ensures IncludeOk(source, p) <==>
      CleanNonRoot(p) && '\0' !in p && Under(CleanBrowsePath(source), CleanBrowsePath(p))
    {
      CleanNonRootExact(p);
      UnderBytesExact(CleanBrowsePath(source), CleanBrowsePath(p));
    }
  }

  /** What extraction accepts, spelled out. */
  ghost predicate Acceptable(cfgRoot: string, req: Request) {
    var root := if req.targetRoot != "" then req.targetRoot else cfgRoot;
    var src := CleanBrowsePath(req.source);
    var want := if src == [] then req.snapshotShort else SlugOf(Base(src));
    && SlugOf(req.repo) != ""
    && Digits(req.snapshotId, 64) && req.snapshotShort == req.snapshotId[..8]
    && (req.diffContainer == ""
        || exists a, b :: PairOf(req.diffContainer, a, b) && (req.snapshotShort == a || req.snapshotShort == b))
    && (req.source == "/" || CleanNonRoot(req.source)) && '\0' !in req.source
    && IncludesFit(req.source, req.includePaths)
    && want != "" && req.sourceName == want
    && root != "" && root[0] == '/'
    && match req.mode
       case ExtractFile => req.wasRegularFile && req.source != "/" && req.includePaths == []
       case ExtractDirectoryTree => !req.wasRegularFile
  }

  /** A request passes validation and the mode gate exactly when it is what
      extraction accepts. */
  lemma AcceptedExactly(cfgRoot: string, req: Request)
    ensures Rejected(cfgRoot, req).None? && CheckExtractModeGate(req).None? <==> Acceptable(cfgRoot, req)
  {
    SourceExact(req.source);
    HexIsDigits(req.snapshotId, 64);
    NameExact(req);
    IncludesExact(req.source, req.includePaths);
    if req.diffContainer != "" {
      ContainerExact(req.diffContainer, req.snapshotShort);
    }
    hide CleanString, CleanBrowsePath, IncludesOk, IncludesFit, ContainerOk, PairOf, CleanNonRoot, SlugOf, Digits;
  }

  lemma SourceExact(source: string)
    ensures source != "" && source == CleanString(source) <==> source == "/" || CleanNonRoot(source)
    ensures source == "/" || CleanNonRoot(source) ==> (CleanBrowsePath(source) == [] <==> source == "/")
  {
    CleanNonRootExact(source);
    CleanUndoesRender([]);
    hide CleanBrowsePath, CleanNonRoot;
  }

  /** Names derived from a source are single visible components; a snapshot's
      short ID is the head of its ID. */
  lemma NameExact(req: Request)
    ensures Hex(req.snapshotId, 64) ==> Hex(req.snapshotId[..8], 8)
    ensures Hex(req.snapshotShort, 8) && WantName(req) != "" ==>
              '/' !in WantName(req) && WantName(req)[0] != '.'
    ensures WantName(req) == if CleanBrowsePath(req.source) == [] then req.snapshotShort
                             else SlugOf(Base(CleanBrowsePath(req.source)))
  {
    var src := CleanBrowsePath(req.source);
    hide CleanBrowsePath;
    if src != [] && SlugOf(Base(src)) != "" {
      SlugIsComponent(Base(src));
    }
    hide SlugOf;
    if Hex(req.snapshotShort, 8) {
      assert HexChar(req.snapshotShort[0]);
    }
  }

  /** Where a planned request is staged and published, element by element. */
  lemma PlanSpelled(cfgRoot: string, hash16: string -> string, req: Request)
    requires HashOk(hash16) && PlanExtractPaths(cfgRoot, hash16, req).Ok?
    ensures var root := CleanBrowsePath(if req.targetRoot != "" then req.targetRoot else cfgRoot);
            var hashed := if req.diffContainer == "" then req.source else req.diffContainer + "\0" + req.source;
            var plan := PlanExtractPaths(cfgRoot, hash16, req).value;
      && plan.final == root + [SlugOf(req.repo)] + (if req.diffContainer == "" then [] else [req.diffContainer])
                       + [req.snapshotShort] + CleanBrowsePath(req.source)
      && plan.staging == root + [SlugOf(req.repo)]
                         + [".resticscope-staging-" + req.snapshotShort + "-" + req.sourceName + "-" + hash16(hashed)]
  {
    hide CleanBrowsePath, SlugOf, IncludesOk, WantName, CleanString;
  }

  /** Where the sides of a pair are published together. */
  lemma PairDirSpelled(cfgRoot: string, req: Request)
    requires Rejected(cfgRoot, req).None? && req.diffContainer != ""
    ensures ExtractDiffTargetDir(cfgRoot, req) ==
            Ok(CleanBrowsePath(if req.targetRoot != "" then req.targetRoot else cfgRoot)
               + [SlugOf(req.repo), req.diffContainer])
  {
    var dir, c := RepoDir(cfgRoot, req), ContainerComponent(req);
    CleanUndoesRender(dir);
    CleanJoinComponent(Render(dir), c);
    hide CleanBrowsePath, SlugOf, IncludesOk, WantName, CleanString;
    assert dir + [c] == CleanBrowsePath(EffectiveRoot(cfgRoot, req)) + [SlugOf(req.repo), c];
  }

  /** Distinct sources, snapshots or containers never share a final path. */
  lemma FinalsDistinct(cfgRoot: string, hash16: string -> string, a: Request, b: Request)
    requires HashOk(hash16)
    requires PlanExtractPaths(cfgRoot, hash16, a).Ok? && PlanExtractPaths(cfgRoot, hash16, b).Ok?
    requires RepoDir(cfgRoot, a) == RepoDir(cfgRoot, b)
    ensures PlanExtractPaths(cfgRoot, hash16, a).value.final == PlanExtractPaths(cfgRoot, hash16, b).value.final
       <==> a.diffContainer == b.diffContainer && a.snapshotShort == b.snapshotShort && a.source == b.source
  {
    hide IncludesOk, SlugOf, RepoDir, CleanBrowsePath, HashOk, WantName;
    var x, y := PlanExtractPaths(cfgRoot, hash16, a).value.final, PlanExtractPaths(cfgRoot, hash16, b).value.final;
    var n := |RepoDir(cfgRoot, a)|;
    if x == y {
      FinalParts(cfgRoot, hash16, a);
      FinalParts(cfgRoot, hash16, b);
      assert x[n] == y[n];
      assert a.diffContainer == b.diffContainer;
      if a.diffContainer != "" {
        assert x[n + 1] == y[n + 1];
      }
      assert a.source == Render(CleanBrowsePath(a.source)) && b.source == Render(CleanBrowsePath(b.source));
    }
  }

  /** Where the parts of a final path are. */
  lemma FinalParts(cfgRoot: string, hash16: string -> string, req: Request)
    requires HashOk(hash16) && PlanExtractPaths(cfgRoot, hash16, req).Ok?
    ensures var f, n := PlanExtractPaths(cfgRoot, hash16, req).value.final, |RepoDir(cfgRoot, req)|;
      && n < |f| && f[..n] == RepoDir(cfgRoot, req)
      && (if req.diffContainer == "" then
            f[n] == req.snapshotShort && f[n + 1..] == CleanBrowsePath(req.source) && |f[n]| == 8
          else
            && n + 1 < |f| && f[n] == req.diffContainer && f[n + 1] == req.snapshotShort
            && f[n + 2..] == CleanBrowsePath(req.source) && |f[n]| == 22)
      && f[n][0] != '.'
      && req.source == Render(CleanBrowsePath(req.source))
  {
    hide IncludesOk, SlugOf, CleanBrowsePath, WantName, RepoDir;
    var f, n := PlanExtractPaths(cfgRoot, hash16, req).value.final, |RepoDir(cfgRoot, req)|;
    if req.diffContainer == "" {
      assert HexChar(req.snapshotShort[0]);
    } else {
      assert req.diffContainer[..5][0] == 'd';
    }
  }

  /** Staging never lies at or below a published path, nor above one. */
  lemma StagingApart(cfgRoot: string, hash16: string -> string, a: Request, b: Request)
    requires HashOk(hash16)
    requires PlanExtractPaths(cfgRoot, hash16, a).Ok? && PlanExtractPaths(cfgRoot, hash16, b).Ok?
    requires RepoDir(cfgRoot, a) == RepoDir(cfgRoot, b)
    ensures var staging, final := PlanExtractPaths(cfgRoot, hash16, a).value.staging,
                                  PlanExtractPaths(cfgRoot, hash16, b).value.final;
            !Under(final, staging) && !Under(staging, final)
  {
    hide IncludesOk, SlugOf, RepoDir, CleanBrowsePath, HashOk, WantName, StagingName;
    var staging, final := PlanExtractPaths(cfgRoot, hash16, a).value.staging,
                          PlanExtractPaths(cfgRoot, hash16, b).value.final;
    var n := |RepoDir(cfgRoot, a)|;
    FinalParts(cfgRoot, hash16, b);
    StagingNameIsComponent(hash16, cfgRoot, a);
    assert staging[n] == StagingName(hash16, a) && |staging| == n + 1;
    assert staging[n] != final[n];
  }

  /** Two requests share a staging directory only when their snapshots and slugs
      agree and the hash does not tell their sources apart. */
  lemma StagingShared(cfgRoot: string, hash16: string -> string, a: Request, b: Request)
    requires HashOk(hash16)
    requires PlanExtractPaths(cfgRoot, hash16, a).Ok? && PlanExtractPaths(cfgRoot, hash16, b).Ok?
    requires RepoDir(cfgRoot, a) == RepoDir(cfgRoot, b)
    ensures PlanExtractPaths(cfgRoot, hash16, a).value.staging == PlanExtractPaths(cfgRoot, hash16, b).value.staging
       <==> a.snapshotShort == b.snapshotShort && a.sourceName == b.sourceName
            && hash16(HashInput(a)) == hash16(HashInput(b))
  {
    hide IncludesOk, SlugOf, RepoDir, CleanBrowsePath, WantName, HashInput;
    var x, y := StagingName(hash16, a), StagingName(hash16, b);
    var h, g := hash16(HashInput(a)), hash16(HashInput(b));
    assert Hex(h, 16) && Hex(g, 16);
    var n := |RepoDir(cfgRoot, a)|;
    var s, t := PlanExtractPaths(cfgRoot, hash16, a).value.staging, PlanExtractPaths(cfgRoot, hash16, b).value.staging;
    assert s[n] == x && t[n] == y;
    if s == t {
      NameParts(STAGING_PREFIX, a.snapshotShort, a.sourceName, h);
      NameParts(STAGING_PREFIX, b.snapshotShort, b.sourceName, g);
    }
  }

  lemma NameParts(prefix: string, short: string, name: string, hash: string)
    requires |short| == 8 && |hash| == 16
    ensures var x := prefix + short + "-" + name + "-" + hash;
      && |x| == |prefix| + 26 + |name|
      && x[|prefix|..|prefix| + 8] == short && x[|x| - 16..] == hash
      && x[|prefix| + 9..|x| - 17] == name
  {
  }
}
