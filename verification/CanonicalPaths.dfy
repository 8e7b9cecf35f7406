/** Which paths belong to the sealed generation, and which ones the generation walk finds. */
module CanonicalPaths {
  import opened Text
  import opened Paths

  const EXCLUDED_DIRS: seq<Name> := ["runtime", "tasks", "workspace", "spec", "middleware"]
  const EXCLUDED_FILES: seq<Name> := [".developer", ".current-task", ".p36-wave-c.json"]

  predicate IsGeneratedCache(p: Path) {
    || "__pycache__" in p
    || (p != [] && (EndsWith(p[|p| - 1], ".pyc") || EndsWith(p[|p| - 1], ".pyo")))
  }

  /** A path the program treats as part of the generation. */
  predicate IsCanonical(p: Path) {
    && |p| >= 2 && p[0] == WORKFLOW
    && !(|p| == 2 && p[1] in EXCLUDED_FILES)
    && !(|p| >= 3 && p[1] in EXCLUDED_DIRS)
    && !StartsWith(p[1], ".backup-")
    && !IsGeneratedCache(p)
  }

  /** An entry that the generation walk passes over, with everything below it. */
  predicate WalkSkips(p: Path)
    requires |p| >= 2
  {
    || p[1] in EXCLUDED_DIRS
    || StartsWith(p[1], ".backup-")
    || (|p| == 2 && p[1] in EXCLUDED_FILES)
    || IsGeneratedCache(p)
  }

  /** A path that the generation walk reaches: no entry on the way is passed over. */
  predicate Discovered(p: Path) {
    && |p| >= 2 && p[0] == WORKFLOW
    && forall n {:trigger p[..n]} | 2 <= n <= |p| :: !WalkSkips(p[..n])
  }

  /** The walk finds only generation paths; and what it finds it also finds prefix by prefix. */
  lemma DiscoveredIsCanonical(p: Path, prefix: Path)
    requires Discovered(p) && prefix <= p && |prefix| >= 2
    ensures Discovered(prefix) && IsCanonical(prefix)
  {
    assert prefix == p[..|prefix|];
    forall n | 2 <= n <= |prefix|
      ensures !WalkSkips(prefix[..n])
    {
      assert prefix[..n] == p[..n];
    }
    assert prefix == prefix[..|prefix|];
  }

  /** Moving a directory keeps its generation files in the walk when the target is itself in the walk. */
  lemma RebaseDiscovered(p: Path, from: Path, to: Path)
    requires from <= p && |from| >= 2 && Discovered(p) && Discovered(to)
    ensures Discovered(Rebase(p, from, to))
  {
    var q := Rebase(p, from, to);
    forall n | 2 <= n <= |q|
      ensures !WalkSkips(q[..n])
    {
      if n <= |to| {
        assert q[..n] == to[..n];
      } else {
        var m := n - |to| + |from|;
        assert !WalkSkips(p[..m]);
        assert to == to[..|to|] && !WalkSkips(to[..|to|]);
        assert q[..n] == to + p[|from|..m];
        assert p[..m] == p[..|from|] + p[|from|..m];
        assert q[..n][n - 1] == p[..m][m - 1];
      }
    }
  }

  predicate IsCompiled(name: Name) {
    EndsWith(name, ".pyc") || EndsWith(name, ".pyo")
  }

  /**
   The generation paths that the walk does not reach: an excluded directory itself, anything below an excluded file
   name, and anything below a directory that is named like compiled Python.
   */
  lemma OutsideTheWalk(p: Path)
    requires IsCanonical(p)
    ensures !Discovered(p) <==> || (|p| == 2 && p[1] in EXCLUDED_DIRS)
                                || (|p| > 2 && p[1] in EXCLUDED_FILES)
                                || exists m | 1 <= m < |p| - 1 :: IsCompiled(p[m])
  {
    forall n | 2 <= n <= |p|
      ensures WalkSkips(p[..n]) <==> || (|p| == 2 && p[1] in EXCLUDED_DIRS)
                                     || (n == 2 < |p| && p[1] in EXCLUDED_FILES)
                                     || (n < |p| && IsCompiled(p[n - 1]))
    {
      PrefixIsCached(p, n);
      assert p[..n][1] == p[1] && p[..|p|] == p;
    }
    if |p| == 2 && p[1] in EXCLUDED_DIRS {
      assert WalkSkips(p[..2]);
    } else if |p| > 2 && p[1] in EXCLUDED_FILES {
      assert WalkSkips(p[..2]);
    } else if exists m | 1 <= m < |p| - 1 :: IsCompiled(p[m]) {
      var m :| 1 <= m < |p| - 1 && IsCompiled(p[m]);
      assert WalkSkips(p[..m + 1]);
    }
  }

  lemma PrefixIsCached(p: Path, n: nat)
    requires IsCanonical(p) && 2 <= n <= |p|
    ensures IsGeneratedCache(p[..n]) <==> n < |p| && IsCompiled(p[n - 1])
  {
    assert p[..n][n - 1] == p[n - 1] && p[..|p|] == p;
    assert "__pycache__" !in p[..n];
  }

  /** An excluded directory, and a place below an excluded file name. */
  lemma UnreachedTargets()
    ensures IsCanonical([WORKFLOW, "spec"]) && !Discovered([WORKFLOW, "spec"])
    ensures IsCanonical([WORKFLOW, ".developer", "y"]) && !Discovered([WORKFLOW, ".developer", "y"])
  {
    PlainName("spec");
    DottedName("y");
    OutsideTheWalk([WORKFLOW, "spec"]);
    OutsideTheWalk([WORKFLOW, ".developer", "y"]);
  }

  lemma PlainName(name: Name)
    requires |name| == 4 && name[0] == 's'
    ensures !(name in EXCLUDED_FILES) && !StartsWith(name, ".backup-") && !IsGeneratedCache([WORKFLOW, name])
  {
    assert |".developer"| == 10 && |".current-task"| == 13 && |".p36-wave-c.json"| == 16;
    assert ".pyc"[0] == '.' && ".pyo"[0] == '.' && |"__pycache__"| == 11 && |WORKFLOW| == 8;
  }

  lemma DottedName(below: Name)
    requires |below| == 1
    ensures ".developer" !in EXCLUDED_DIRS && !StartsWith(".developer", ".backup-")
    ensures !IsGeneratedCache([WORKFLOW, ".developer", below])
  {
    assert ".backup-"[1] == 'b' && ".developer"[1] == 'd' && "middleware"[0] == 'm';
    assert |"__pycache__"| == 11 && |WORKFLOW| == 8 && |".developer"| == 10;
  }
}
