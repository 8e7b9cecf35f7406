/** Expanding workspace patterns into directories, and scanning for sibling repositories. */
module Workspaces {
  import opened Wrappers
  import opened Text
  import opened Paths

  datatype Entry = Entry(name: string, isDirectory: bool)

  /** What the program can ask the file system: readable listings, existing directories, and directories with a `.git`. */
  datatype Tree = Tree(listing: map<Path, seq<Entry>>, directories: set<Path>, repositories: set<Path>)

  /** A directory lists a name once. */
  predicate NamesOnce(tree: Tree) {
    forall p | p in tree.listing :: DistinctNames(tree.listing[p])
  }

  predicate DistinctNames(entries: seq<Entry>) {
    forall i, j | 0 <= i < j < |entries| :: entries[i].name != entries[j].name
  }

  /** The entries of a directory; an unreadable one counts as empty. */
  function List(tree: Tree, dir: Path): seq<Entry> {
    if dir in tree.listing then tree.listing[dir] else []
  }

  // ---------- Glob segments ----------

  predicate Visible(e: Entry) {
    e.isDirectory && !StartsWith(e.name, ".")
  }

  function MatchGlobSegments(tree: Tree, segments: seq<string>, index: nat, current: Path): seq<Path>
    requires index <= |segments|
    decreases |segments| - index, 0
  {
    if index == |segments| then (if current in tree.directories then [current] else [])
    else if segments[index] != "*" then MatchGlobSegments(tree, segments, index + 1, current + [segments[index]])
    else MatchBelow(tree, segments, index, current, List(tree, current))
  }

  function MatchBelow(tree: Tree, segments: seq<string>, index: nat, current: Path, entries: seq<Entry>): seq<Path>
    requires index < |segments|
    decreases |segments| - index - 1, 1, |entries|
  {
    if entries == [] then []
    else
      (if Visible(entries[0]) then MatchGlobSegments(tree, segments, index + 1, current + [entries[0].name]) else [])
      + MatchBelow(tree, segments, index, current, entries[1..])
  }

  /** The segment at position `i` allows the name there: itself, or for `*` a visible directory. */
  predicate Allows(tree: Tree, segments: seq<string>, p: Path, i: nat)
    requires i < |segments| && i < |p|
  {
    if segments[i] == "*" then exists e | e in List(tree, p[..i]) :: Visible(e) && e.name == p[i]
    else p[i] == segments[i]
  }

  /** `p` is an existing directory that extends `current` and fits the pattern from `index` on. */
  predicate Fits(tree: Tree, segments: seq<string>, index: nat, current: Path, p: Path) {
    && current <= p && |p| == |segments| && p in tree.directories
    && forall i | index <= i < |segments| :: Allows(tree, segments, p, i)
  }

  function CountOf(p: Path, s: seq<Path>): nat {
    multiset(s)[p]
  }

  lemma {:induction false} GlobExact(tree: Tree, segments: seq<string>, index: nat, current: Path, p: Path)
    requires NamesOnce(tree) && |current| == index <= |segments|
    ensures CountOf(p, MatchGlobSegments(tree, segments, index, current))
            == if Fits(tree, segments, index, current, p) then 1 else 0
    decreases |segments| - index, 0
  {
    if index == |segments| {
      assert Fits(tree, segments, index, current, p) <==> p == current && current in tree.directories by {
        if current <= p && |p| == |segments| {
          PrefixOrEqual(current, p);
        }
      }
    } else if segments[index] != "*" {
      var next := current + [segments[index]];
      GlobExact(tree, segments, index + 1, next, p);
      FitsLiteral(tree, segments, index, current, p);
    } else {
      BelowExact(tree, segments, index, current, List(tree, current), p);
      FitsSomeChild(tree, segments, index, current, p);
    }
  }

  lemma FitsNext(tree: Tree, segments: seq<string>, index: nat, current: Path, name: string, p: Path)
    requires |current| == index < |segments|
    ensures Fits(tree, segments, index + 1, current + [name], p) && Allows(tree, segments, p, index) <==>
            Fits(tree, segments, index, current, p) && p[index] == name
  {
    if |p| == |segments| {
      assert current + [name] <= p <==> current <= p && p[index] == name;
    }
  }

  lemma FitsLiteral(tree: Tree, segments: seq<string>, index: nat, current: Path, p: Path)
    requires |current| == index < |segments| && segments[index] != "*"
    ensures Fits(tree, segments, index + 1, current + [segments[index]], p) <==> Fits(tree, segments, index, current, p)
  {
    FitsNext(tree, segments, index, current, segments[index], p);
    if |p| == |segments| {
      assert (current + [segments[index]])[index] == segments[index];
      assert Allows(tree, segments, p, index) <==> p[index] == segments[index];
    }
  }

  /** Some visible entry among `entries` leads to `p`. */
  predicate FitsBelow(tree: Tree, segments: seq<string>, index: nat, current: Path, entries: seq<Entry>, p: Path)
    requires index < |segments|
  {
    exists e | e in entries :: Visible(e) && Fits(tree, segments, index + 1, current + [e.name], p)
  }

  lemma FitsSomeChild(tree: Tree, segments: seq<string>, index: nat, current: Path, p: Path)
    requires |current| == index < |segments| && segments[index] == "*"
    ensures Fits(tree, segments, index, current, p) <==> FitsBelow(tree, segments, index, current, List(tree, current), p)
  {
    if Fits(tree, segments, index, current, p) {
      assert p[..index] == current && Allows(tree, segments, p, index);
      var e :| e in List(tree, current) && Visible(e) && e.name == p[index];
      FitsNext(tree, segments, index, current, e.name, p);
    }
    if FitsBelow(tree, segments, index, current, List(tree, current), p) {
      var e :| e in List(tree, current) && Visible(e) && Fits(tree, segments, index + 1, current + [e.name], p);
      assert (current + [e.name])[index] == p[index] && p[..index] == (current + [e.name])[..index] == current;
      assert Allows(tree, segments, p, index);
      FitsNext(tree, segments, index, current, e.name, p);
    }
  }

  lemma {:induction false} BelowExact(tree: Tree, segments: seq<string>, index: nat, current: Path, entries: seq<Entry>, p: Path)
    requires NamesOnce(tree) && |current| == index < |segments| && DistinctNames(entries)
    ensures CountOf(p, MatchBelow(tree, segments, index, current, entries))
            == if FitsBelow(tree, segments, index, current, entries, p) then 1 else 0
    decreases |segments| - index - 1, 1, |entries|
  {
    if entries != [] {
      var first, rest := entries[0], entries[1..];
      assert entries == [first] + rest;
      BelowExact(tree, segments, index, current, rest, p);
      if Visible(first) {
        GlobExact(tree, segments, index + 1, current + [first.name], p);
      }
      if Visible(first) && Fits(tree, segments, index + 1, current + [first.name], p) {
        OneChildOnly(tree, segments, index, current, entries, p);
      }
      assert FitsBelow(tree, segments, index, current, entries, p) <==>
             (Visible(first) && Fits(tree, segments, index + 1, current + [first.name], p))
             || FitsBelow(tree, segments, index, current, rest, p);
    }
  }

  lemma OneChildOnly(tree: Tree, segments: seq<string>, index: nat, current: Path, entries: seq<Entry>, p: Path)
    requires |current| == index < |segments| && DistinctNames(entries) && entries != []
    requires Visible(entries[0]) && Fits(tree, segments, index + 1, current + [entries[0].name], p)
    ensures !FitsBelow(tree, segments, index, current, entries[1..], p)
  {
    forall e | e in entries[1..]
      ensures !Fits(tree, segments, index + 1, current + [e.name], p)
    {
      assert (current + [e.name])[index] == e.name && (current + [entries[0].name])[index] == entries[0].name;
    }
  }

  /** A directory matches the pattern segment by segment. */
  predicate Matches(tree: Tree, segments: seq<string>, p: Path) {
    && |p| == |segments| && p in tree.directories
    && forall i | 0 <= i < |segments| :: Allows(tree, segments, p, i)
  }

  /** The expansion lists every existing directory that matches the pattern, once, and nothing else. */
  lemma GlobListsMatchesOnce(tree: Tree, segments: seq<string>, p: Path)
    requires NamesOnce(tree)
    ensures CountOf(p, MatchGlobSegments(tree, segments, 0, [])) == if Matches(tree, segments, p) then 1 else 0
  {
    GlobExact(tree, segments, 0, [], p);
  }

  // ---------- Patterns ----------

  function StripTrailing(s: string): string {
    if s != "" && s[|s| - 1] == '/' then StripTrailing(s[..|s| - 1]) else s
  }

  function NormalizePkgPath(p: string): string {
    var q := ReplaceChar(p, '\\', '/');
    StripTrailing(if StartsWith(q, "./") then q[2..] else q)
  }

  predicate IsExclusion(raw: string) {
    StartsWith(raw, "!")
  }

  /** The directories that one pattern stands for, whether it includes or excludes them. */
  function Directories(tree: Tree, raw: string): seq<Path> {
    var segments := Split(NormalizePkgPath(if IsExclusion(raw) then raw[1..] else raw), '/');
    if '*' in NormalizePkgPath(if IsExclusion(raw) then raw[1..] else raw)
    then MatchGlobSegments(tree, segments, 0, [])
    else if segments in tree.directories then [segments] else []
  }

  function Included(tree: Tree, patterns: seq<string>): seq<Path> {
    if patterns == [] then []
    else
      var last := patterns[|patterns| - 1];
      Included(tree, patterns[..|patterns| - 1]) + (if IsExclusion(last) then [] else Directories(tree, last))
  }

  function Excluded(tree: Tree, patterns: seq<string>): set<Path> {
    set raw, p | raw in patterns && IsExclusion(raw) && p in Directories(tree, raw) :: p
  }

  function Without(s: seq<Path>, gone: set<Path>): seq<Path> {
    if s == [] then [] else (if s[0] in gone then [] else [s[0]]) + Without(s[1..], gone)
  }

  method AddDirectories(dirs: seq<Path>, isExclude: bool, included: seq<Path>, excluded: set<Path>)
    returns (i: seq<Path>, e: set<Path>)
    ensures i == included + (if isExclude then [] else dirs)
    ensures e == excluded + (if isExclude then set d | d in dirs else {})
  {
    i, e := included, excluded;
    for n := 0 to |dirs|
      invariant i == included + (if isExclude then [] else dirs[..n])
      invariant e == excluded + (if isExclude then set d | d in dirs[..n] else {})
    {
      if isExclude {
        e := e + {dirs[n]};
      } else {
        i := i + [dirs[n]];
      }
    }
    assert dirs[..|dirs|] == dirs;
  }

  method ExpandWorkspaceGlobs(tree: Tree, patterns: seq<string>) returns (r: seq<Path>)
    ensures r == Without(Included(tree, patterns), Excluded(tree, patterns))
  {
    var included: seq<Path>, excluded: set<Path> := [], {};
    for n := 0 to |patterns|
      invariant included == Included(tree, patterns[..n]) && excluded == Excluded(tree, patterns[..n])
    {
      OneMorePattern(tree, patterns, n);
      included, excluded := AddDirectories(Directories(tree, patterns[n]), IsExclusion(patterns[n]), included, excluded);
    }
    assert patterns[..|patterns|] == patterns;
    r := Without(included, excluded);
  }

  lemma OneMorePattern(tree: Tree, patterns: seq<string>, n: nat)
    requires n < |patterns|
    ensures var raw, dirs := patterns[n], Directories(tree, patterns[n]);
            && Included(tree, patterns[..n + 1]) == Included(tree, patterns[..n]) + (if IsExclusion(raw) then [] else dirs)
            && Excluded(tree, patterns[..n + 1])
               == Excluded(tree, patterns[..n]) + (if IsExclusion(raw) then set d | d in dirs else {})
  {
    assert patterns[..n + 1][..n] == patterns[..n];
    assert forall raw :: raw in patterns[..n + 1] <==> raw in patterns[..n] || raw == patterns[n];
  }

  // ---------- Exclusions ----------

  /** The including patterns, in their order. */
  function Including(patterns: seq<string>): seq<string> {
    if patterns == [] then []
    else
      var last := patterns[|patterns| - 1];
      Including(patterns[..|patterns| - 1]) + (if IsExclusion(last) then [] else [last])
  }

  predicate SameExclusions(a: seq<string>, b: seq<string>) {
    && (forall raw | raw in a && IsExclusion(raw) :: raw in b)
    && (forall raw | raw in b && IsExclusion(raw) :: raw in a)
  }

  lemma {:induction false} IncludedByIncluding(tree: Tree, patterns: seq<string>)
    ensures Included(tree, patterns) == Included(tree, Including(patterns))
  {
    if patterns != [] {
      var init, last := patterns[..|patterns| - 1], patterns[|patterns| - 1];
      IncludedByIncluding(tree, init);
      if !IsExclusion(last) {
        var including := Including(init) + [last];
        assert including[..|including| - 1] == Including(init) && including[|including| - 1] == last;
        assert Included(tree, including) == Included(tree, Including(init)) + Directories(tree, last);
      } else {
        assert Including(init) + [] == Including(init) && Included(tree, init) + [] == Included(tree, init);
      }
    }
  }

  /** Where the exclusions stand among the patterns, and how often, does not matter. */
  lemma ExclusionsStandAnywhere(tree: Tree, a: seq<string>, b: seq<string>)
    requires Including(a) == Including(b) && SameExclusions(a, b)
    ensures Without(Included(tree, a), Excluded(tree, a)) == Without(Included(tree, b), Excluded(tree, b))
  {
    IncludedByIncluding(tree, a);
    IncludedByIncluding(tree, b);
    assert Excluded(tree, a) == Excluded(tree, b);
  }

  lemma {:induction false} WithoutExact(s: seq<Path>, gone: set<Path>, p: Path)
    ensures CountOf(p, Without(s, gone)) == if p in gone then 0 else CountOf(p, s)
  {
    if s != [] {
      WithoutExact(s[1..], gone, p);
      assert s == [s[0]] + s[1..];
    }
  }

  lemma {:induction false} IncludedMembers(tree: Tree, patterns: seq<string>, p: Path)
    ensures p in Included(tree, patterns) <==> exists raw | raw in patterns :: !IsExclusion(raw) && p in Directories(tree, raw)
  {
    if patterns != [] {
      IncludedMembers(tree, patterns[..|patterns| - 1], p);
      assert forall raw :: raw in patterns <==> raw in patterns[..|patterns| - 1] || raw == patterns[|patterns| - 1] by {
        assert patterns == patterns[..|patterns| - 1] + [patterns[|patterns| - 1]];
      }
    }
  }

  /** A directory is expanded exactly when some including pattern matches it and no excluding one does. */
  lemma ExpansionExact(tree: Tree, patterns: seq<string>, p: Path)
    ensures p in Without(Included(tree, patterns), Excluded(tree, patterns)) <==>
            (exists raw | raw in patterns :: !IsExclusion(raw) && p in Directories(tree, raw))
            && !(exists raw | raw in patterns :: IsExclusion(raw) && p in Directories(tree, raw))
  {
    IncludedMembers(tree, patterns, p);
    WithoutExact(Included(tree, patterns), Excluded(tree, patterns), p);
    assert p in Excluded(tree, patterns) <==> exists raw | raw in patterns :: IsExclusion(raw) && p in Directories(tree, raw);
  }

  // ---------- Sibling repositories ----------

  const POLYREPO_IGNORED_DIRS := [
    "node_modules", "target", "dist", "build", "out", "bin", "obj", "vendor", "coverage", "tmp", "__pycache__"
  ]

  const MAX_DEPTH := 2

  predicate IsCandidate(e: Entry) {
    e.isDirectory && !StartsWith(e.name, ".") && e.name !in POLYREPO_IGNORED_DIRS
  }

  function Scan(tree: Tree, submodules: set<Path>, dir: Path, depth: nat): seq<Path>
    decreases MAX_DEPTH - depth, 0
  {
    if depth >= MAX_DEPTH then [] else ScanEntries(tree, submodules, dir, depth, List(tree, dir))
  }

  function ScanEntries(tree: Tree, submodules: set<Path>, dir: Path, depth: nat, entries: seq<Entry>): seq<Path>
    requires depth < MAX_DEPTH
    decreases MAX_DEPTH - depth - 1, 1, |entries|
  {
    if entries == [] then []
    else
      ScanEntry(tree, submodules, dir, depth, entries[0]) + ScanEntries(tree, submodules, dir, depth, entries[1..])
  }

  function ScanEntry(tree: Tree, submodules: set<Path>, dir: Path, depth: nat, e: Entry): seq<Path>
    requires depth < MAX_DEPTH
    decreases MAX_DEPTH - depth - 1, 1, 0
  {
    var child := dir + [e.name];
    if !IsCandidate(e) then []
    else if child in tree.repositories then (if child in submodules then [] else [child])
    else Scan(tree, submodules, child, depth + 1)
  }

  method ScanInto(tree: Tree, submodules: set<Path>, dir: Path, depth: nat, found: seq<Path>) returns (r: seq<Path>)
    ensures r == found + Scan(tree, submodules, dir, depth)
    decreases MAX_DEPTH - depth
  {
    if depth >= MAX_DEPTH {
      return found;
    }
    var entries := List(tree, dir);
    r := found;
    for i := 0 to |entries|
      invariant r + ScanEntries(tree, submodules, dir, depth, entries[i..]) == found + Scan(tree, submodules, dir, depth)
    {
      var entry := entries[i];
      assert entries[i..][0] == entry && entries[i..][1..] == entries[i + 1..];
      ghost var before, here := r, ScanEntry(tree, submodules, dir, depth, entry);
      ghost var later := ScanEntries(tree, submodules, dir, depth, entries[i + 1..]);
      assert before + (here + later) == before + here + later;
      if IsCandidate(entry) {
        var child := dir + [entry.name];
        if child in tree.repositories {
          if child !in submodules {
            r := r + [child];
          }
        } else {
          r := ScanInto(tree, submodules, child, depth + 1, r);
        }
      }
      assert r == before + here;
    }
    assert entries[|entries|..] == [] && r + [] == r;
  }

  /** `None` stands for "not a group of sibling repositories". */
  method ParsePolyrepo(tree: Tree, submodules: set<Path>) returns (r: Option<seq<Path>>)
    ensures r == if |Scan(tree, submodules, [], 0)| >= 2 then Some(Scan(tree, submodules, [], 0)) else None
  {
    var found := ScanInto(tree, submodules, [], 0, []);
    assert [] + Scan(tree, submodules, [], 0) == Scan(tree, submodules, [], 0);
    r := if |found| >= 2 then Some(found) else None;
  }

  /** Every step of the way from `dir` to `p` is a candidate directory. */
  predicate Walkable(tree: Tree, dir: Path, p: Path) {
    dir <= p && forall i | |dir| <= i < |p| :: exists e | e in List(tree, p[..i]) :: IsCandidate(e) && e.name == p[i]
  }

  /** A repository below `dir`, within the levels, not inside another repository and not a submodule. */
  predicate Sibling(tree: Tree, submodules: set<Path>, dir: Path, levels: nat, p: Path) {
    && Walkable(tree, dir, p) && 0 < |p| - |dir| <= levels
    && p in tree.repositories && p !in submodules
    && forall i | |dir| < i < |p| :: p[..i] !in tree.repositories
  }

  predicate SiblingBelow(tree: Tree, submodules: set<Path>, dir: Path, levels: nat, entries: seq<Entry>, p: Path) {
    exists e | e in entries :: IsCandidate(e) && ThroughChild(tree, submodules, dir + [e.name], levels, p)
  }

  /** `p` is the child itself, or a sibling further below a child that is no repository. */
  predicate ThroughChild(tree: Tree, submodules: set<Path>, child: Path, levels: nat, p: Path) {
    if child in tree.repositories then p == child && p !in submodules
    else levels > 0 && Sibling(tree, submodules, child, levels - 1, p)
  }

  lemma ChildOf(dir: Path, name: string, p: Path)
    ensures dir + [name] <= p <==> dir <= p && |p| > |dir| && p[|dir|] == name
  {
  }

  lemma StepsDown(tree: Tree, submodules: set<Path>, dir: Path, levels: nat, p: Path)
    requires Sibling(tree, submodules, dir, levels, p)
    ensures SiblingBelow(tree, submodules, dir, levels, List(tree, dir), p)
  {
    assert p[..|dir|] == dir;
    var e :| e in List(tree, dir) && IsCandidate(e) && e.name == p[|dir|];
    var child := dir + [e.name];
    ChildOf(dir, e.name, p);
    assert p[..|dir| + 1] == child;
    if |p| == |dir| + 1 {
      PrefixOrEqual(child, p);
    }
    assert ThroughChild(tree, submodules, child, levels, p);
  }

  lemma StepsUp(tree: Tree, submodules: set<Path>, dir: Path, levels: nat, e: Entry, p: Path)
    requires e in List(tree, dir) && IsCandidate(e) && ThroughChild(tree, submodules, dir + [e.name], levels, p) && levels > 0
    ensures Sibling(tree, submodules, dir, levels, p)
  {
    var child := dir + [e.name];
    ChildOf(dir, e.name, p);
    assert p[..|dir|] == dir && p[..|dir| + 1] == child;
  }

  lemma OneChildLeadsThere(tree: Tree, submodules: set<Path>, dir: Path, levels: nat, entries: seq<Entry>, p: Path)
    requires DistinctNames(entries) && entries != [] && levels > 0
    requires ThroughChild(tree, submodules, dir + [entries[0].name], levels, p)
    ensures !SiblingBelow(tree, submodules, dir, levels, entries[1..], p)
  {
    ChildOf(dir, entries[0].name, p);
    forall e | e in entries[1..]
      ensures !ThroughChild(tree, submodules, dir + [e.name], levels, p)
    {
      ChildOf(dir, e.name, p);
    }
  }

  /** The scan finds exactly the sibling repositories within its depth, each once. */
  lemma {:induction false} ScanExact(tree: Tree, submodules: set<Path>, dir: Path, depth: nat, p: Path)
    requires NamesOnce(tree) && depth <= MAX_DEPTH
    ensures CountOf(p, Scan(tree, submodules, dir, depth))
            == if Sibling(tree, submodules, dir, MAX_DEPTH - depth, p) then 1 else 0
    decreases MAX_DEPTH - depth, 0
  {
    if depth < MAX_DEPTH {
      var levels := MAX_DEPTH - depth;
      EntriesExact(tree, submodules, dir, depth, List(tree, dir), p);
      if Sibling(tree, submodules, dir, levels, p) {
        StepsDown(tree, submodules, dir, levels, p);
      }
      if e :| e in List(tree, dir) && IsCandidate(e) && ThroughChild(tree, submodules, dir + [e.name], levels, p) {
        StepsUp(tree, submodules, dir, levels, e, p);
      }
    }
  }

  lemma {:induction false} EntriesExact(tree: Tree, submodules: set<Path>, dir: Path, depth: nat, entries: seq<Entry>, p: Path)
    requires NamesOnce(tree) && depth < MAX_DEPTH && DistinctNames(entries)
    ensures CountOf(p, ScanEntries(tree, submodules, dir, depth, entries))
            == if SiblingBelow(tree, submodules, dir, MAX_DEPTH - depth, entries, p) then 1 else 0
    decreases MAX_DEPTH - depth - 1, 1, |entries|
  {
    if entries != [] {
      var first, rest := entries[0], entries[1..];
      assert entries == [first] + rest;
      EntriesExact(tree, submodules, dir, depth, rest, p);
      EntryExact(tree, submodules, dir, depth, first, p);
      if ThroughChild(tree, submodules, dir + [first.name], MAX_DEPTH - depth, p) {
        OneChildLeadsThere(tree, submodules, dir, MAX_DEPTH - depth, entries, p);
      }
      assert SiblingBelow(tree, submodules, dir, MAX_DEPTH - depth, entries, p) <==>
             (IsCandidate(first) && ThroughChild(tree, submodules, dir + [first.name], MAX_DEPTH - depth, p))
             || SiblingBelow(tree, submodules, dir, MAX_DEPTH - depth, rest, p);
    }
  }

  lemma {:induction false} EntryExact(tree: Tree, submodules: set<Path>, dir: Path, depth: nat, e: Entry, p: Path)
    requires NamesOnce(tree) && depth < MAX_DEPTH
    ensures CountOf(p, ScanEntry(tree, submodules, dir, depth, e))
            == if IsCandidate(e) && ThroughChild(tree, submodules, dir + [e.name], MAX_DEPTH - depth, p) then 1 else 0
    decreases MAX_DEPTH - depth - 1, 1, 0
  {
    if IsCandidate(e) && dir + [e.name] !in tree.repositories {
      ScanExact(tree, submodules, dir + [e.name], depth + 1, p);
    }
  }

  lemma ProperPrefix(p: Path, q: Path)
    requires p < q
    ensures |p| < |q| && q[..|p|] == p
  {
  }

  /** No repository that is found lies inside another one that is found. */
  lemma FoundIsPrefixFree(tree: Tree, submodules: set<Path>, p: Path, q: Path)
    requires NamesOnce(tree)
    requires p in Scan(tree, submodules, [], 0) && q in Scan(tree, submodules, [], 0)
    ensures !(p < q)
  {
    ScanExact(tree, submodules, [], 0, p);
    ScanExact(tree, submodules, [], 0, q);
    if p < q {
      ProperPrefix(p, q);
    }
  }
}
