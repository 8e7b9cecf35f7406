/** The manifest that an installation starts from: which files are hashed, and what that makes of them. */
module HashInit {
  import opened Wrappers
  import opened Paths
  import opened Workspace
  import opened Migrations

  /** The walk below the workflow root finds regular files, and enters no directory that is excluded from hashing. */
  predicate Walked(w: World, p: Path) {
    && p in w.files && !w.files[p].symlink && [WORKFLOW] < p
    && forall n {:trigger p[..n]} | 2 <= n <= |p| :: !ExcludedFromHash(p[..n])
  }

  /** A recorded path that lies elsewhere; reading follows a link. */
  predicate Recorded(w: World, tracked: seq<Path>, p: Path) {
    p in tracked && p in w.files && !ExcludedFromHash(p) && !([WORKFLOW] <= p)
  }

  /** Without a record of written paths, `AGENTS.md` stands for them. */
  predicate Hashed(w: World, tracked: Option<seq<Path>>, p: Path) {
    Walked(w, p) || Recorded(w, if tracked.Some? then tracked.value else [AGENTS], p)
  }

  function HashAt(w: World, p: Path): Hash
    requires p in w.files
  {
    HashForPath(p, w.files[p].bytes)
  }

  function HashesAt(w: World, paths: set<Path>): Manifest {
    map p | p in w.files && p in paths :: HashAt(w, p)
  }

  function RecordedPaths(w: World, tracked: seq<Path>): set<Path> {
    set p | p in w.files && Recorded(w, tracked, p)
  }

  function WalkedPaths(w: World, among: set<Path>): set<Path> {
    set p | p in among && Walked(w, p)
  }

  function HashedPaths(w: World, tracked: Option<seq<Path>>): set<Path> {
    set p | p in w.files && Hashed(w, tracked, p)
  }

  /** The manifest afterwards; a merge keeps the hashes of paths that are not hashed anew. */
  function Initialized(w: World, tracked: Option<seq<Path>>, merge: bool): Manifest {
    (if merge then w.hashes else map[]) + HashesAt(w, HashedPaths(w, tracked))
  }

  lemma OneMore(w: World, before: Manifest, paths: set<Path>, p: Path)
    requires p in w.files
    ensures (before + HashesAt(w, paths))[p := HashAt(w, p)] == before + HashesAt(w, paths + {p})
  {
  }

  method HashRecorded(w: World, tracked: seq<Path>, before: Manifest) returns (hashes: Manifest)
    ensures hashes == before + HashesAt(w, RecordedPaths(w, tracked))
  {
    hashes := before;
    assert RecordedPaths(w, []) == {};
    for n := 0 to |tracked|
      invariant hashes == before + HashesAt(w, RecordedPaths(w, tracked[..n]))
    {
      var p := tracked[n];
      assert tracked[..n + 1] == tracked[..n] + [p];
      if p in w.files && !ExcludedFromHash(p) && !([WORKFLOW] <= p) {
        OneMore(w, before, RecordedPaths(w, tracked[..n]), p);
        assert RecordedPaths(w, tracked[..n + 1]) == RecordedPaths(w, tracked[..n]) + {p};
        hashes := hashes[p := HashForPath(p, w.files[p].bytes)];
      } else {
        assert RecordedPaths(w, tracked[..n + 1]) == RecordedPaths(w, tracked[..n]);
      }
    }
    assert tracked[..|tracked|] == tracked;
  }

  method HashWalked(w: World, before: Manifest) returns (hashes: Manifest)
    ensures hashes == before + HashesAt(w, WalkedPaths(w, w.files.Keys))
  {
    hashes := before;
    var todo := w.files.Keys;
    assert WalkedPaths(w, w.files.Keys - todo) == {};
    while todo != {}
      invariant todo <= w.files.Keys
      invariant hashes == before + HashesAt(w, WalkedPaths(w, w.files.Keys - todo))
      decreases todo
    {
      var p :| p in todo;
      assert w.files.Keys - (todo - {p}) == (w.files.Keys - todo) + {p};
      if Walked(w, p) {
        OneMore(w, before, WalkedPaths(w, w.files.Keys - todo), p);
        assert WalkedPaths(w, w.files.Keys - (todo - {p})) == WalkedPaths(w, w.files.Keys - todo) + {p};
        hashes := hashes[p := HashForPath(p, w.files[p].bytes)];
      } else {
        assert WalkedPaths(w, w.files.Keys - (todo - {p})) == WalkedPaths(w, w.files.Keys - todo);
      }
      todo := todo - {p};
    }
    assert w.files.Keys - {} == w.files.Keys;
  }

  lemma Together(w: World, base: Manifest, a: set<Path>, b: set<Path>)
    ensures (base + HashesAt(w, a)) + HashesAt(w, b) == base + HashesAt(w, a + b)
  {
  }

  method InitializeHashes(w: World, tracked: Option<seq<Path>>, merge: bool) returns (hashes: Manifest)
    ensures hashes == Initialized(w, tracked, merge)
  {
    hashes := if merge then w.hashes else map[];
    ghost var base, walked := hashes, WalkedPaths(w, w.files.Keys);
    if tracked.Some? {
      hashes := HashRecorded(w, tracked.value, hashes);
      hashes := HashWalked(w, hashes);
      Together(w, base, RecordedPaths(w, tracked.value), walked);
      assert HashedPaths(w, tracked) == RecordedPaths(w, tracked.value) + walked;
    } else {
      hashes := HashWalked(w, hashes);
      hashes := HashRecorded(w, [AGENTS], hashes);
      Together(w, base, walked, RecordedPaths(w, [AGENTS]));
      assert HashedPaths(w, tracked) == walked + RecordedPaths(w, [AGENTS]);
    }
  }

  /**
   After a fresh initialisation a file is tracked and unmodified if and only if it was hashed, whoever wrote it: a file
   that the user has put below the workflow root counts as shipped from then on.
   */
  lemma AdoptedExactly(w: World, tracked: Option<seq<Path>>, p: Path)
    ensures var hashes := Initialized(w, tracked, false);
            TrackedUnmodified(w.(hashes := hashes), p, hashes) <==> Hashed(w, tracked, p)
  {
    assert p in w.files ==> p in w.Entries();
  }

  /** So a migration deletes or moves it without asking. */
  lemma AdoptedIsMigrated(w: World, tracked: Option<seq<Path>>, p: Path, templates: Templates)
    requires Hashed(w, tracked, p) && !IsProtected(p)
    ensures var hashes := Initialized(w, tracked, false);
            ClassOf(Delete(p), w.(hashes := hashes), templates, hashes) == Some(Auto)
  {
    var adopted := w.(hashes := Initialized(w, tracked, false));
    assert p in adopted.Entries() && adopted.Exists(p);
    AdoptedExactly(w, tracked, p);
  }
}
