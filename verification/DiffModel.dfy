/** Change records of a snapshot diff (internal/model/diff.go): kinds, markers,
    rows, and what a list of records says about one path. A modifier bitmask is
    the set of its bits. */
module DiffModel {
  import opened Paths
  import opened Sorting
  import opened Wrappers

  datatype Kind = Added | Removed | Modified | Metadata | TypeChanged | Bitrot

  datatype ChangeType =
    | ChangeUnknown | ChangeAdded | ChangeRemoved | ChangeModified
    | ChangeMetadataOnly | ChangeTypeChanged | ChangeBitrot

  datatype DiffEntry = DiffEntry(path: Path, modifier: string, typ: ChangeType, kinds: set<Kind>, isDir: bool)

  datatype DiffStats = DiffStats(added: nat, removed: nat, modified: nat, metadataOnly: nat,
                                 typeChanged: nat, bitrot: nat)

  datatype DiffRow = DiffRow(name: string, path: Path, typ: ChangeType, kinds: set<Kind>, modifier: string,
                             isDir: bool, aggregate: DiffStats)

  const NO_STATS := DiffStats(0, 0, 0, 0, 0, 0)

  const ALL_KINDS := {Added, Removed, Modified, Metadata, TypeChanged, Bitrot}

  function Tick(kinds: set<Kind>, k: Kind): nat { if k in kinds then 1 else 0 }

  function AddKinds(s: DiffStats, ks: set<Kind>): DiffStats {
    DiffStats(s.added + Tick(ks, Added), s.removed + Tick(ks, Removed), s.modified + Tick(ks, Modified),
              s.metadataOnly + Tick(ks, Metadata), s.typeChanged + Tick(ks, TypeChanged), s.bitrot + Tick(ks, Bitrot))
  }

  function Counter(s: DiffStats, k: Kind): nat {
    match k
    case Added => s.added
    case Removed => s.removed
    case Modified => s.modified
    case Metadata => s.metadataOnly
    case TypeChanged => s.typeChanged
    case Bitrot => s.bitrot
  }

  /** The nonzero counters that the filter includes. */
  function EnabledKinds(s: DiffStats, filter: set<Kind>): set<Kind> {
    (if Added in filter && s.added > 0 then {Added} else {})
    + (if Removed in filter && s.removed > 0 then {Removed} else {})
    + (if Modified in filter && s.modified > 0 then {Modified} else {})
    + (if Metadata in filter && s.metadataOnly > 0 then {Metadata} else {})
    + (if TypeChanged in filter && s.typeChanged > 0 then {TypeChanged} else {})
    + (if Bitrot in filter && s.bitrot > 0 then {Bitrot} else {})
  }

  function PrimaryChangeType(kinds: set<Kind>): ChangeType {
    if Bitrot in kinds then ChangeBitrot
    else if TypeChanged in kinds then ChangeTypeChanged
    else if Removed in kinds then ChangeRemoved
    else if Added in kinds then ChangeAdded
    else if Modified in kinds then ChangeModified
    else if Metadata in kinds then ChangeMetadataOnly
    else ChangeUnknown
  }

  // Markers.

  predicate IsMarker(c: char) { c in {'+', '-', 'M', 'U', 'T', '?'} }

  function KindOf(c: char): Kind
    requires IsMarker(c)
  {
    match c
    case '+' => Added
    case '-' => Removed
    case 'M' => Modified
    case 'U' => Metadata
    case 'T' => TypeChanged
    case _ => Bitrot
  }

  function Mark(kinds: set<Kind>, k: Kind, c: char): string { if k in kinds then [c] else "" }

  function ModifierString(kinds: set<Kind>): string {
    Mark(kinds, Added, '+') + Mark(kinds, Removed, '-') + Mark(kinds, Modified, 'M')
    + Mark(kinds, Metadata, 'U') + Mark(kinds, TypeChanged, 'T') + Mark(kinds, Bitrot, '?')
  }

  function MarkersIn(s: string): set<Kind> { set c | c in s && IsMarker(c) :: KindOf(c) }

  predicate AllMarkers(s: string) { forall c :: c in s ==> IsMarker(c) }

  method ParseModifier(s: string) returns (primary: ChangeType, kinds: set<Kind>, unknown: bool)
    ensures kinds == MarkersIn(s)
    ensures primary == PrimaryChangeType(MarkersIn(s))
    ensures unknown <==> !AllMarkers(s)
    ensures MarkersMean(s, primary, kinds, unknown)
  {
    MarkersMeaning(s);
    kinds, unknown := {}, false;
    for i := 0 to |s|
      invariant kinds == MarkersIn(s[..i])
      invariant unknown <==> !AllMarkers(s[..i])
    {
      assert s[..i + 1] == s[..i] + [s[i]];
      if IsMarker(s[i]) {
        kinds := kinds + {KindOf(s[i])};
      } else {
        unknown := true;
      }
    }
    assert s[..|s|] == s;
    primary := PrimaryChangeType(kinds);
  }

  /** What each marker stands for, and which one names the change. */
  predicate MarkersMean(s: string, primary: ChangeType, kinds: set<Kind>, unknown: bool) {
    && (Added in kinds <==> '+' in s) && (Removed in kinds <==> '-' in s) && (Modified in kinds <==> 'M' in s)
    && (Metadata in kinds <==> 'U' in s) && (TypeChanged in kinds <==> 'T' in s) && (Bitrot in kinds <==> '?' in s)
    && (unknown <==> exists c :: c in s && c !in "+-MUT?")
    && primary == if '?' in s then ChangeBitrot else if 'T' in s then ChangeTypeChanged
                  else if '-' in s then ChangeRemoved else if '+' in s then ChangeAdded
                  else if 'M' in s then ChangeModified else if 'U' in s then ChangeMetadataOnly else ChangeUnknown
  }

  lemma MarkersMeaning(s: string)
    ensures MarkersMean(s, PrimaryChangeType(MarkersIn(s)), MarkersIn(s), !AllMarkers(s))
  {
    assert KindOf('+') == Added && KindOf('-') == Removed && KindOf('M') == Modified;
    assert KindOf('U') == Metadata && KindOf('T') == TypeChanged && KindOf('?') == Bitrot;
    forall c ensures IsMarker(c) <==> c in "+-MUT?" {
      assert "+-MUT?"[0] == '+' && "+-MUT?"[1] == '-' && "+-MUT?"[2] == 'M';
      assert "+-MUT?"[3] == 'U' && "+-MUT?"[4] == 'T' && "+-MUT?"[5] == '?';
    }
  }

  lemma CanonicalMarkers(kinds: set<Kind>)
    ensures forall c :: c in ModifierString(kinds) <==>
              || (c == '+' && Added in kinds) || (c == '-' && Removed in kinds) || (c == 'M' && Modified in kinds)
              || (c == 'U' && Metadata in kinds) || (c == 'T' && TypeChanged in kinds) || (c == '?' && Bitrot in kinds)
    ensures |ModifierString(kinds)| <= 6 && ModifierString(ALL_KINDS) == "+-MUT?"
  {
  }

  /** The canonical marker string parses back to the kinds it was made from. */
  lemma MarkersRoundTrip(kinds: set<Kind>)
    ensures MarkersIn(ModifierString(kinds)) == kinds && AllMarkers(ModifierString(kinds))
    ensures |ModifierString(kinds)| <= 6 && ModifierString(ALL_KINDS) == "+-MUT?"
  {
    var s := ModifierString(kinds);
    hide ModifierString;
    CanonicalMarkers(kinds);
    forall k ensures k in MarkersIn(s) <==> k in kinds {
      match k
      case Added => assert k in kinds ==> '+' in s && KindOf('+') == k;
      case Removed => assert k in kinds ==> '-' in s && KindOf('-') == k;
      case Modified => assert k in kinds ==> 'M' in s && KindOf('M') == k;
      case Metadata => assert k in kinds ==> 'U' in s && KindOf('U') == k;
      case TypeChanged => assert k in kinds ==> 'T' in s && KindOf('T') == k;
      case Bitrot => assert k in kinds ==> '?' in s && KindOf('?') == k;
    }
  }

  /** What the scanner forwards: a rooted, non-root path and recognized markers. */
  ghost predicate Parsed(e: DiffEntry) {
    && e.path != [] && AllMarkers(e.modifier)
    && e.kinds == MarkersIn(e.modifier) && e.kinds != {}
    && e.typ == PrimaryChangeType(e.kinds)
  }

  ghost predicate AllParsed(es: seq<DiffEntry>) {
    forall e :: e in es ==> Parsed(e)
  }

  lemma ParsedIsTyped(e: DiffEntry)
    requires Parsed(e)
    ensures e.typ != ChangeUnknown && e.modifier != "" && e.path != []
  {
    var k :| k in e.kinds;
    assert e.modifier != "";
  }

  lemma OneMarker(c: char)
    requires IsMarker(c)
    ensures AllMarkers([c]) && MarkersIn([c]) == {KindOf(c)}
  {
    assert c in [c];
  }

  // What a list of records says about one path.

  function AtPath(p: Path): DiffEntry -> bool { (e: DiffEntry) => e.path == p }

  function Records(es: seq<DiffEntry>, p: Path): seq<DiffEntry> { Filter(AtPath(p), es) }

  function Union(es: seq<DiffEntry>): set<Kind> {
    if es == [] then {} else Union(es[..|es| - 1]) + es[|es| - 1].kinds
  }

  /** The kinds of every record of p, merged. */
  function KindsAt(es: seq<DiffEntry>, p: Path): set<Kind> { Union(Records(es, p)) }

  predicate Mentions(es: seq<DiffEntry>, p: Path) { exists e :: e in es && e.path == p }

  predicate SomeDir(es: seq<DiffEntry>, p: Path) {
    exists e :: e in es && e.path == p && e.isDir
  }

  function PathsOf(es: seq<DiffEntry>): set<Path> { set e | e in es :: e.path }

  /** Some record lies at p or below it. */
  predicate Known(es: seq<DiffEntry>, p: Path) { exists e :: e in es && Under(p, e.path) }

  lemma RecordsSnoc(es: seq<DiffEntry>, e: DiffEntry, p: Path)
    ensures Records(es + [e], p) == if e.path == p then Records(es, p) + [e] else Records(es, p)
  {
    FilterSnoc(AtPath(p), es, e);
  }

  lemma KindsSnoc(es: seq<DiffEntry>, e: DiffEntry, p: Path)
    ensures KindsAt(es + [e], p) == if e.path == p then KindsAt(es, p) + e.kinds else KindsAt(es, p)
  {
    RecordsSnoc(es, e, p);
    var r := Records(es, p);
    assert (r + [e])[..|r|] == r;
  }

  lemma MentionsSnoc(es: seq<DiffEntry>, e: DiffEntry, p: Path)
    ensures Mentions(es + [e], p) <==> Mentions(es, p) || e.path == p
    ensures SomeDir(es + [e], p) <==> SomeDir(es, p) || (e.path == p && e.isDir)
    ensures Known(es + [e], p) <==> Known(es, p) || Under(p, e.path)
  {
    assert forall x :: x in es + [e] <==> x in es || x == e;
  }

  lemma {:induction false} UnionMembers(es: seq<DiffEntry>, k: Kind)
    ensures k in Union(es) <==> exists i :: 0 <= i < |es| && k in es[i].kinds
  {
    if es != [] {
      var init := es[..|es| - 1];
      UnionMembers(init, k);
      if i :| 0 <= i < |init| && k in init[i].kinds {
        assert k in es[i].kinds;
      }
      if i :| 0 <= i < |es| && k in es[i].kinds && i < |init| {
        assert init[i] == es[i];
      }
    }
  }

  lemma RecordsMembers(es: seq<DiffEntry>, p: Path)
    ensures forall e :: e in Records(es, p) <==> e in es && e.path == p
    ensures Records(es, p) == [] <==> !Mentions(es, p)
  {
    FilterMembers(AtPath(p), es);
    if e :| e in es && e.path == p {
      assert e in Records(es, p);
    }
    if Records(es, p) != [] {
      assert Records(es, p)[0] in Records(es, p);
    }
  }

  /** A kind is at a path when some record of that path has it. */
  lemma KindsAtMembers(es: seq<DiffEntry>, p: Path, k: Kind)
    ensures k in KindsAt(es, p) <==> exists e :: e in es && e.path == p && k in e.kinds
  {
    RecordsMembers(es, p);
    UnionMembers(Records(es, p), k);
    var r := Records(es, p);
    if k in KindsAt(es, p) {
      var i :| 0 <= i < |r| && k in r[i].kinds;
      assert r[i] in r;
    }
    if e :| e in es && e.path == p && k in e.kinds {
      assert e in r;
      var i :| 0 <= i < |r| && r[i] == e;
    }
  }

  lemma KindsAtMentioned(es: seq<DiffEntry>, p: Path)
    requires AllParsed(es)
    ensures KindsAt(es, p) != {} <==> Mentions(es, p)
  {
    if e :| e in es && e.path == p {
      var k :| k in e.kinds;
      KindsAtMembers(es, p, k);
    }
    if KindsAt(es, p) != {} {
      var k :| k in KindsAt(es, p);
      KindsAtMembers(es, p, k);
    }
  }

  lemma NoKindsUnmentioned(es: seq<DiffEntry>, p: Path)
    requires !Mentions(es, p)
    ensures KindsAt(es, p) == {}
  {
    RecordsMembers(es, p);
  }

  lemma PathsAreMentioned(es: seq<DiffEntry>, p: Path)
    ensures p in PathsOf(es) <==> Mentions(es, p)
  {
  }

  lemma RecordsPermute(a: seq<DiffEntry>, b: seq<DiffEntry>, p: Path)
    requires multiset(a) == multiset(b)
    ensures multiset(Records(a, p)) == multiset(Records(b, p))
    ensures |Records(a, p)| == |Records(b, p)|
    ensures KindsAt(a, p) == KindsAt(b, p)
    ensures Mentions(a, p) <==> Mentions(b, p)
    ensures Known(a, p) <==> Known(b, p)
  {
    forall e ensures multiset(Records(a, p))[e] == multiset(Records(b, p))[e] {
      FilterCount(AtPath(p), a, e);
      FilterCount(AtPath(p), b, e);
    }
    assert multiset(Records(a, p)) == multiset(Records(b, p));
    assert |multiset(Records(a, p))| == |Records(a, p)| && |multiset(Records(b, p))| == |Records(b, p)|;
    SameMembers(a, b);
    forall k ensures k in KindsAt(a, p) <==> k in KindsAt(b, p) {
      KindsAtMembers(a, p, k);
      KindsAtMembers(b, p, k);
    }
  }

  lemma SameMembers(a: seq<DiffEntry>, b: seq<DiffEntry>)
    requires multiset(a) == multiset(b)
    ensures forall e :: e in a <==> e in b
  {
    forall e ensures e in a <==> e in b {
      assert e in a <==> e in multiset(a);
      assert e in b <==> e in multiset(b);
    }
  }
}
