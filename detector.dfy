/** The browser side: capturing a picked directory as a nested map, and the display rules the
    results page applies to the metrics (badge tier, complexity score, positive-point classifier). */
module Detector {
  import opened Text

  // ------------------------------------------------------------------ directory capture

  /** A directory entry as the host enumerates it: a file, or a directory with its own entries. */
  datatype Entry = File(name: string) | Directory(name: string, children: seq<Entry>)

  /** A value of the captured structure: the marker "file", or the structure of a subdirectory. */
  datatype Node = FileMarker | Folder(structure: map<string, Node>)

  /** Directory names that are neither recorded nor descended into (compared case-sensitively). */
  const ExcludedDirectories: set<string> := {"test", "bin", ".git", ".vs", "obj", ".gitIgnore"}

  /** The one name a plain JavaScript object cannot hold as its own key: assigning to it sets the
      object's prototype (or, for the string "file", does nothing), so it never reaches the JSON. */
  const PrototypeKey := "__proto__"

  /** An entry gets a key: every file, and every directory whose name is not excluded, except an
      entry named "__proto__". */
  predicate Recorded(e: Entry)
  {
    e.name != PrototypeKey && (e.File? || e.name !in ExcludedDirectories)
  }

  /** The entries of one directory have distinct names, as a file system guarantees. */
  predicate UniqueNames(entries: seq<Entry>)
  {
    forall i, j :: 0 <= i < j < |entries| ==> entries[i].name != entries[j].name
  }

  /** `scanDirectory`: files become "file", non-excluded directories become their own scan,
      excluded directories and entries named "__proto__" leave no key; the entries are taken in
      enumeration order. */
  function ScanDirectory(entries: seq<Entry>): (structure: map<string, Node>)
    ensures structure.Keys == set e | e in entries && Recorded(e) :: e.name
    decreases entries
  {
    if entries == [] then map[]
    else
      var before := entries[..|entries| - 1];
      var e := entries[|entries| - 1];
      assert entries == before + [e];
      var structure := ScanDirectory(before);
      if e.name == PrototypeKey then structure
      else match e
      case File(name) => structure[name := FileMarker]
      case Directory(name, children) =>
        if name in ExcludedDirectories then structure
        else structure[name := Folder(ScanDirectory(children))]
  }

  /** What each key holds: a recorded file's name maps to "file" ("bin" included), a recorded
      directory's name to the scan of that directory. */
  lemma {:induction false} ScanValues(entries: seq<Entry>)
    requires UniqueNames(entries)
    ensures forall e :: e in entries && e.File? && Recorded(e) ==> ScanDirectory(entries)[e.name] == FileMarker
    ensures forall e :: e in entries && e.Directory? && Recorded(e) ==>
      ScanDirectory(entries)[e.name] == Folder(ScanDirectory(e.children))
    decreases |entries|
  {
    if entries != [] {
      var before := entries[..|entries| - 1];
      var last := entries[|entries| - 1];
      assert entries == before + [last];
      assert UniqueNames(before);
      ScanValues(before);
      ScanLast(before, last);
      forall e | e in before ensures e.name != last.name {
        var i :| 0 <= i < |before| && before[i] == e;
      }
      var scan, scanBefore := ScanDirectory(entries), ScanDirectory(before);
      forall e | e in entries && Recorded(e)
        ensures scan[e.name] == if e.File? then FileMarker else Folder(ScanDirectory(e.children))
      {
        if e != last {
          assert e in before;
          assert scan[e.name] == scanBefore[e.name];
        }
      }
    }
  }

  /** An excluded directory contributes nothing, whatever it contains: it is not descended into. */
  lemma {:induction false} ExcludedDirectoryIgnored(front: seq<Entry>, name: string, children: seq<Entry>, back: seq<Entry>)
    requires name in ExcludedDirectories
    ensures ScanDirectory(front + [Directory(name, children)] + back) == ScanDirectory(front + back)
    decreases |back|
  {
    var withDir := front + [Directory(name, children)] + back;
    if back == [] {
      assert withDir == front + [Directory(name, children)];
      ScanLast(front, Directory(name, children));
      assert front + back == front;
    } else {
      var init := back[..|back| - 1];
      var last := back[|back| - 1];
      ExcludedDirectoryIgnored(front, name, children, init);
      assert withDir == (front + [Directory(name, children)] + init) + [last];
      assert front + back == (front + init) + [last];
      ScanLast(front + [Directory(name, children)] + init, last);
      ScanLast(front + init, last);
    }
  }

  /** Scanning entries with one more at the end: the scan of the rest, updated by that entry. */
  lemma ScanLast(entries: seq<Entry>, e: Entry)
    ensures ScanDirectory(entries + [e]) ==
      if e.name == PrototypeKey then ScanDirectory(entries)
      else match e
      case File(name) => ScanDirectory(entries)[name := FileMarker]
      case Directory(name, children) =>
        if name in ExcludedDirectories then ScanDirectory(entries)
        else ScanDirectory(entries)[name := Folder(ScanDirectory(children))]
  {
    assert (entries + [e])[..|entries + [e]| - 1] == entries;
  }

  /** The order in which entries are enumerated does not matter: the same entries, each name once,
      give the same structure. */
  lemma ScanOrderIrrelevant(a: seq<Entry>, b: seq<Entry>)
    requires UniqueNames(a) && UniqueNames(b)
    requires forall e :: e in a <==> e in b
    ensures ScanDirectory(a) == ScanDirectory(b)
  {
    ScanValues(a);
    ScanValues(b);
    var sa, sb := ScanDirectory(a), ScanDirectory(b);
    assert sa.Keys == sb.Keys;
    forall k | k in sa.Keys ensures sa[k] == sb[k] {
      var e :| e in a && Recorded(e) && e.name == k;
    }
  }

  /** A directory whose only entries are excluded directories scans to the empty structure. */
  lemma OnlyExcludedScansEmpty(entries: seq<Entry>)
    requires forall e :: e in entries ==> e.Directory? && e.name in ExcludedDirectories
    ensures ScanDirectory(entries) == map[]
  {
    assert ScanDirectory(entries).Keys == {};
  }

  /** `src` with one file is kept, `test` with one file is dropped. */
  lemma ScanExample()
    ensures ScanDirectory([Directory("src", [File("a.ts")]), Directory("test", [File("b.ts")])])
         == map["src" := Folder(map["a.ts" := FileMarker])]
  {
  }

  // ------------------------------------------------------------------ badge tier and score

  /** The shame badge shown above the analysis. */
  datatype Tier = ArchitectureAstronaut | ComplexityCreator | CleanCodeChampion

  /** The tier for an average nesting level: above 5, above 3, or otherwise. */
  function BadgeTier(averageNestingLevels: int): (t: Tier)
    ensures t == ArchitectureAstronaut <==> averageNestingLevels > 5
    ensures t == ComplexityCreator <==> 3 < averageNestingLevels <= 5
    ensures t == CleanCodeChampion <==> averageNestingLevels <= 3
  {
    if averageNestingLevels > 5 then ArchitectureAstronaut
    else if averageNestingLevels > 3 then ComplexityCreator
    else CleanCodeChampion
  }

  /** The badge's heading; each heading belongs to one tier only. */
  function TierTitle(t: Tier): (title: string)
    ensures title == "Architecture Astronaut" <==> t == ArchitectureAstronaut
    ensures title == "Complexity Creator" <==> t == ComplexityCreator
    ensures title == "Clean Code Champion" <==> t == CleanCodeChampion
  {
    match t
    case ArchitectureAstronaut => "Architecture Astronaut"
    case ComplexityCreator => "Complexity Creator"
    case CleanCodeChampion => "Clean Code Champion"
  }

  /** 0 for the cleanest tier, 2 for the worst. */
  function Severity(t: Tier): nat
  {
    match t
    case CleanCodeChampion => 0
    case ComplexityCreator => 1
    case ArchitectureAstronaut => 2
  }

  /** Deeper nesting never earns a better badge. */
  lemma BadgeTierMonotone(n: int, m: int)
    requires n <= m
    ensures Severity(BadgeTier(n)) <= Severity(BadgeTier(m))
  {
  }

  /** The heading shown for an average nesting level, as the nested conditional picks it. */
  lemma BadgeTitle(averageNestingLevels: int)
    ensures TierTitle(BadgeTier(averageNestingLevels)) ==
      if averageNestingLevels > 5 then "Architecture Astronaut"
      else if averageNestingLevels > 3 then "Complexity Creator"
      else "Clean Code Champion"
  {
  }

  /** Distinct tiers have distinct headings. */
  lemma TierTitleInjective(t: Tier, u: Tier)
    ensures TierTitle(t) == TierTitle(u) ==> t == u
  {
  }

  /** The complexity score shown on the badge: 20 per nesting level, 10 per service and 15 per
      architecture layer. */
  function ComplexityScore(averageNestingLevels: int, services: int, architectureLayers: int): (score: int)
    ensures averageNestingLevels >= 0 && services >= 0 && architectureLayers >= 0 ==> score >= 0
    ensures score % 5 == 0
  {
    averageNestingLevels * 20 + services * 10 + architectureLayers * 15
  }

  /** With non-negative counts, an Architecture Astronaut scores at least 120, and the score of a
      Clean Code Champion comes to at most 60 from nesting alone. */
  lemma ScoreAgreesWithTier(averageNestingLevels: int, services: int, architectureLayers: int)
    requires services >= 0 && architectureLayers >= 0
    ensures BadgeTier(averageNestingLevels) == ArchitectureAstronaut ==>
      ComplexityScore(averageNestingLevels, services, architectureLayers) >= 120
    ensures BadgeTier(averageNestingLevels) == CleanCodeChampion ==>
      ComplexityScore(averageNestingLevels, services, architectureLayers) <= 60 + services * 10 + architectureLayers * 15
  {
  }

  /** Raising any of the three counts never lowers the score. */
  lemma ComplexityScoreMonotone(n: int, s: int, l: int, n2: int, s2: int, l2: int)
    requires n <= n2 && s <= s2 && l <= l2
    ensures ComplexityScore(n, s, l) <= ComplexityScore(n2, s2, l2)
    ensures ComplexityScore(n2, s2, l2) - ComplexityScore(n, s, l) >= 20 * (n2 - n)
  {
  }

  // ------------------------------------------------------------------ positive points

  /** Words that mark a critique point as praise. */
  const PositiveKeywords: seq<string> := ["well-defined", "consistent", "clean", "good", "adherence"]

  /** A point is positive when its lower-cased text contains one of the keywords anywhere. */
  function IsPositivePoint(point: string): (positive: bool)
    ensures positive <==> exists k :: k in PositiveKeywords && Contains(ToLowerAscii(point), k)
  {
    var lower := ToLowerAscii(point);
    || Contains(lower, "well-defined")
    || Contains(lower, "consistent")
    || Contains(lower, "clean")
    || Contains(lower, "good")
    || Contains(lower, "adherence")
  }

  /** Lower-casing twice is lower-casing once. */
  lemma LowerIdempotent(s: string)
    ensures ToLowerAscii(ToLowerAscii(s)) == ToLowerAscii(s)
  {
  }

  /** The classifier ignores letter case. */
  lemma IsPositivePointIgnoresCase(point: string)
    ensures IsPositivePoint(ToLowerAscii(point)) == IsPositivePoint(point)
  {
    LowerIdempotent(point);
  }

  /** Matching is by substring: a negated keyword still counts as praise. */
  lemma NegatedKeywordStillPositive()
    ensures IsPositivePoint("Not GOOD at all")
  {
    assert OccursAt(ToLowerAscii("Not GOOD at all"), "good", 4);
  }
}
