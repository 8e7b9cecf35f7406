/** When a run without migrations gets to its end: there is room for everything that it writes. */
module UpdateCompletes {
  import opened Wrappers
  import opened Text
  import opened Paths
  import opened CanonicalPaths
  import opened Workspace
  import opened Migrations
  import opened SafeDeletes
  import opened Analysis
  import opened Update
  import opened UpdateRun
  import opened UpdateConservation
  import opened UpdateConvergence

  /** No file lies above `t`, no directory stands there, and nothing lies below. */
  ghost predicate Free(w: World, t: Path) {
    && t != [] && t !in w.dirs
    && (forall f | f in w.files :: !(f < t))
    && forall e | e in w.Entries() :: !(t < e)
  }

  ghost predicate AllFree(w: World, targets: set<Path>) {
    && (forall t | t in targets :: Free(w, t))
    && forall t, u | t in targets && u in targets :: !(t < u)
  }

  /** Room for the writes and the backup, in a tree whose generation has no links. */
  ghost predicate Room(w: World, req: Request, targets: set<Path>) {
    && IsTree(w) && WalkSafe(w) && AllFree(w, targets)
    && (forall t | t in targets :: Disjoint(t, BackupDir(req.stamp)))
    && forall f | f in w.files :: !(f <= BackupDir(req.stamp))
  }

  lemma BelowParent(t: Path, x: Path)
    requires t <= Parent(x) && x != []
    ensures t < x
  {
  }

  lemma WriteStaysFree(w: World, p: Path, bytes: string, targets: set<Path>)
    requires AllFree(w, targets) && p in targets
    ensures w.WriteFile(p, bytes).Some? && AllFree(w.WriteFile(p, bytes).value, targets)
  {
    assert Free(w, p);
    forall f | f in w.files
      ensures !(f <= Parent(p))
    {
      if f <= Parent(p) {
        BelowParent(f, p);
      }
    }
    var w1 := w.MkdirP(Parent(p)).value;
    assert !w1.IsDir(p) by {
      forall e | e in w1.Entries()
        ensures p <= e ==> p in w.files
      {
        assert e in w.Entries() || e == Parent(p);
        if p <= e && e != p {
          PrefixOrProper(p, e);
        }
      }
    }
    var w2 := w.WriteFile(p, bytes).value;
    forall t | t in targets
      ensures Free(w2, t)
    {
      assert Free(w, t) && !(t < p) && !(p < t);
      if t <= Parent(p) {
        BelowParent(t, p);
      }
      forall e | e in w2.Entries()
        ensures !(t < e)
      {
        assert e in w.Entries() || e == p || e == Parent(p);
      }
    }
  }

  lemma {:induction false} WritesRun(w: World, ws: seq<Write>, targets: set<Path>)
    requires AllFree(w, targets) && forall x | x in ws :: x.path in targets
    ensures WriteAll(w, ws).Some? && AllFree(WriteAll(w, ws).value, targets)
    decreases |ws|
  {
    if ws != [] {
      assert ws[0] in ws && forall x | x in ws[1..] :: x in ws;
      WriteStaysFree(w, ws[0].path, ws[0].bytes, targets);
      WritesRun(w.WriteFile(ws[0].path, ws[0].bytes).value, ws[1..], targets);
    }
  }

  ghost predicate NoLinks(w: World) {
    forall p | p in w.files :: !w.files[p].symlink
  }

  lemma {:induction false} WritesMakeNoLinks(w: World, ws: seq<Write>, w': World)
    requires WriteAll(w, ws) == Some(w') && NoLinks(w)
    ensures NoLinks(w')
    decreases |ws|
  {
    if ws != [] {
      WritesMakeNoLinks(w.WriteFile(ws[0].path, ws[0].bytes).value, ws[1..], w');
    }
  }

  // ---------- The build root ----------

  lemma StagingRuns(build0: World, plan: Plan, req: Request, targets: set<Path>) returns (candidate: World)
    requires Fits(plan) && AllFree(build0, targets) && NoLinks(build0) && targets == Extra(plan, req)
    ensures Staged(build0, plan, req) == Some(candidate) && NoLinks(candidate)
    ensures forall f | f in candidate.files :: f in build0.files || f in targets
  {
    var ws := WritesOf(TemplateWrites(plan, req.Resolver()), true);
    WrittenAreTargets(plan, req, true);
    var build4 := WritesAndVersion(build0, ws, req.version, targets);
    candidate := Staged(build0, plan, req).value;
    assert candidate.files == build4.files;
  }

  lemma WrittenAreTargets(plan: Plan, req: Request, canonical: bool)
    requires Fits(plan)
    ensures forall x | x in WritesOf(TemplateWrites(plan, req.Resolver()), canonical) :: x.path in Extra(plan, req)
    ensures VERSION_FILE in Extra(plan, req)
  {
    WritesAre(TemplateWrites(plan, req.Resolver()), canonical);
  }

  lemma WritesAndVersion(build0: World, ws: seq<Write>, version: string, targets: set<Path>) returns (build4: World)
    requires AllFree(build0, targets) && NoLinks(build0) && VERSION_FILE in targets && forall x | x in ws :: x.path in targets
    ensures WriteAll(build0, ws).Some? && WriteAll(build0, ws).value.WriteFile(VERSION_FILE, version) == Some(build4)
    ensures NoLinks(build4) && forall f | f in build4.files :: f in build0.files || f in targets
  {
    WritesRun(build0, ws, targets);
    var build3 := WriteAll(build0, ws).value;
    WritesMakeNoLinks(build0, ws, build3);
    WriteAllFiles(build0, ws, build3);
    LastBytesPaths(ws);
    WriteStaysFree(build3, VERSION_FILE, version, targets);
    OneWrite(build3, VERSION_FILE, version);
    build4 := build3.WriteFile(VERSION_FILE, version).value;
  }

  lemma CandidateRuns(w: World, plan: Plan, req: Request, targets: set<Path>) returns (candidate: World)
    requires Fits(plan) && !Idle(plan, req.flags) && OnlyTemplates(plan, req) && Room(w, req, targets) && targets == Extra(plan, req)
    requires req.flags.migrate ==> PartOf(plan.classified, true).Some?
    ensures Seed(w, plan.stored).Some? && Candidate(Seed(w, plan.stored).value, plan, req) == Some(candidate)
    ensures NoLinks(candidate) && forall f | f in candidate.files :: (f in w.files && Discovered(f)) || f in targets
  {
    var build0 := Seed(w, plan.stored).value;
    assert forall e | e in build0.Entries() :: e in w.Entries();
    forall t | t in targets
      ensures Free(build0, t)
    {
      assert Free(w, t);
    }
    candidate := StagingRuns(build0, plan, req, targets);
    if req.flags.migrate {
      NothingToMigrate(build0, plan, req, true);
    }
    NothingToDeleteIn(build0, plan, req, true);
  }

  // ---------- Backup and commit ----------

  lemma BackupIsPassedOver(stamp: Name, p: Path)
    requires BackupDir(stamp) <= p
    ensures !Discovered(p)
  {
    assert p[..2] == BackupDir(stamp) && StartsWith(BackupDir(stamp)[1], ".backup-");
  }

  /** A generation path is neither above nor below the backup. */
  lemma GenerationIsApart(stamp: Name, p: Path)
    requires Discovered(p)
    ensures Disjoint(p, BackupDir(stamp))
  {
    var dir := BackupDir(stamp);
    if dir <= p {
      BackupIsPassedOver(stamp, p);
    }
  }

  lemma ApartFromBackup(p: Path, e: Path, stamp: Name)
    requires Disjoint(p, BackupDir(stamp)) && BackupDir(stamp) <= e
    ensures !(p <= e) && !(e <= p)
  {
    if p <= e {
      PrefixesCompare(p, BackupDir(stamp), e);
    }
  }

  /** Around a target, or a generation file, the backup has changed nothing. */
  lemma StillFree(w: World, backed: World, stamp: Name, t: Path)
    requires SameButBackup(w, backed, stamp) && Free(w, t) && Disjoint(t, BackupDir(stamp))
    ensures Free(backed, t)
  {
    forall e | e in backed.Entries()
      ensures !(t < e) && (e in backed.files ==> !(e < t)) && (e in backed.dirs ==> e != t)
    {
      if BackupDir(stamp) <= e {
        ApartFromBackup(t, e, stamp);
      } else {
        assert e in w.Entries();
      }
    }
  }

  lemma TargetIsSafe(w: World, backed: World, stamp: Name, p: Path)
    requires SameButBackup(w, backed, stamp) && IsTree(w) && Discovered(p) && (p in w.files || Free(w, p))
    ensures !backed.IsDir(p) && forall f | f in backed.files :: !(f < p)
  {
    GenerationIsApart(stamp, p);
    if p in w.files {
      assert p in backed.files;
      forall f | f in backed.files
        ensures !(f < p)
      {
        if BackupDir(stamp) <= f {
          ApartFromBackup(p, f, stamp);
        }
      }
    } else {
      StillFree(w, backed, stamp, p);
      forall e | e in backed.Entries()
        ensures p <= e ==> p in backed.files
      {
        if p <= e && e != p {
          PrefixOrProper(p, e);
        }
      }
    }
  }

  lemma CommitRuns(w: World, backed: World, req: Request, candidate: World, targets: set<Path>) returns (live0: World)
    requires Room(w, req, targets) && SameButBackup(w, backed, req.stamp) && NoLinks(candidate)
    requires forall f | f in candidate.files :: (f in w.files && Discovered(f)) || f in targets
    ensures Commit(backed, candidate) == Some(live0)
  {
    assert WalkSafe(backed) by {
      forall p | p in backed.files && Discovered(p)
        ensures !backed.files[p].symlink
      {
        GenerationIsApart(req.stamp, p);
      }
    }
    var target := CanonicalFiles(candidate);
    forall p | p in target.Keys
      ensures !backed.IsDir(p) && forall f | f in backed.files :: !(f < p)
    {
      TargetIsSafe(w, backed, req.stamp, p);
    }
    live0 := Commit(backed, candidate).value;
  }

  /** The commit leaves the targets free. */
  lemma FreeAfterCommit(w: World, backed: World, req: Request, candidate: World, live0: World, targets: set<Path>, t: Path)
    requires Room(w, req, targets) && SameButBackup(w, backed, req.stamp) && Commit(backed, candidate) == Some(live0)
    requires forall f | f in candidate.files :: (f in w.files && Discovered(f)) || f in targets
    requires t in targets
    ensures Free(live0, t)
  {
    StillFree(w, backed, req.stamp, t);
    CommitDomain(backed, candidate, live0);
    forall e | e in live0.Entries()
      ensures !(t < e) && (e in live0.files ==> !(e < t)) && (e in live0.dirs ==> e != t)
    {
      EntryAfterCommit(w, backed, candidate, live0, targets, t, e);
    }
  }

  lemma EntryAfterCommit(w: World, backed: World, candidate: World, live0: World, targets: set<Path>, t: Path, e: Path)
    requires Commit(backed, candidate) == Some(live0) && Free(backed, t) && Free(w, t)
    requires forall f | f in candidate.files :: (f in w.files && Discovered(f)) || f in targets
    requires forall u | u in targets :: !(t < u) && !(u < t)
    requires e in live0.Entries()
    ensures !(t < e) && (e in live0.files ==> !(e < t)) && (e in live0.dirs ==> e != t)
  {
    CommitDomain(backed, candidate, live0);
    if e in live0.files {
      if Discovered(e) {
        assert e in candidate.files && (e in w.files ==> e in w.Entries());
      } else {
        assert e in backed.files && e in backed.Entries();
      }
    }
    if e in live0.dirs && e !in backed.dirs {
      var p := ParentOfFile(backed, candidate, live0, e);
      assert p in candidate.files ==> p in targets || p in w.Entries();
      assert p in backed.files ==> p in backed.Entries();
      if t <= e {
        BelowParent(t, p);
      }
    }
    if e in backed.dirs {
      assert e in backed.Entries();
    }
  }

  lemma ParentOfFile(backed: World, candidate: World, live0: World, e: Path) returns (p: Path)
    requires Commit(backed, candidate) == Some(live0) && e in live0.dirs && e !in backed.dirs
    ensures e == Parent(p) && p != [] && (p in candidate.files || p in backed.files)
  {
    if q :| q in CanonicalFiles(candidate) && e == Parent(q) {
      p := q;
    } else {
      p :| p in backed.files && Discovered(p) && e == Parent(p);
    }
  }

  // ---------- The run ----------

  /** A run without migrations, with room for its writes, gets to its end. */
  lemma TemplateRunCompletes(w: World, req: Request, plan: Plan) returns (after: World)
    requires MakePlan(w, req) == Some(plan) && Fits(plan) && !Idle(plan, req.flags) && OnlyTemplates(plan, req)
    requires req.flags.migrate ==> PartOf(plan.classified, true).Some?
    requires Room(w, req, Extra(plan, req))
    ensures UpdateSpec(w, req) == Some(after)
  {
    var targets := Extra(plan, req);
    var candidate := CandidateRuns(w, plan, req, targets);
    var backed := Backup(w, req.stamp).value;
    BackupOnlyAdds(w, req.stamp);
    var live0 := CommitRuns(w, backed, req, candidate, targets);
    var done := LiveRuns(w, backed, req, plan, candidate, live0, targets);
    after := PruneSkips(done, req.official);
  }

  lemma LiveRuns(w: World, backed: World, req: Request, plan: Plan, candidate: World, live0: World, targets: set<Path>)
    returns (done: World)
    requires Fits(plan) && OnlyTemplates(plan, req) && targets == Extra(plan, req)
    requires req.flags.migrate ==> PartOf(plan.classified, true).Some?
    requires Room(w, req, targets) && SameButBackup(w, backed, req.stamp) && Commit(backed, candidate) == Some(live0)
    requires forall f | f in candidate.files :: (f in w.files && Discovered(f)) || f in targets
    ensures ApplyLive(live0, plan, req) == Some(done)
  {
    forall t | t in targets
      ensures Free(live0, t)
    {
      FreeAfterCommit(w, backed, req, candidate, live0, targets, t);
    }
    var ws := WritesOf(TemplateWrites(plan, req.Resolver()), false);
    WrittenAreTargets(plan, req, false);
    WritesRun(live0, ws, targets);
    NothingToDeleteIn(live0, plan, req, false);
    if req.flags.migrate {
      NothingToMigrate(live0, plan, req, false);
    }
    done := WriteAll(live0, ws).value;
  }
}
