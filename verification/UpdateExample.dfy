/**
 A project on which a skip-all update loses a user's file outside the backup, although it meets every condition
 under which conservation is proved: a directory rename puts the file where the analysis had found nothing.
 */
module UpdateExample {
  import opened Wrappers
  import opened Text
  import opened Paths
  import opened CanonicalPaths
  import opened Workspace
  import opened Migrations
  import opened MigrationTheorems
  import opened SafeDeletes
  import opened Analysis
  import opened Update
  import opened UpdateRun
  import opened UpdateConservation

  const OLD: Path := [".cursor", "old"]
  const NEW: Path := [".cursor", "new"]
  const MINE: Path := [".cursor", "old", "x.md"]
  const THERE: Path := [".cursor", "new", "x.md"]
  const MOVE := RenameDir(OLD, NEW)

  /** The user's file is all there is; the release ships a file of the same name below the new directory. */
  ghost predicate Project(w: World, mine: string) {
    w == World(map[MINE := File(mine, false)], {}, map[])
  }

  ghost predicate Ships(req: Request, shipped: string) {
    && req.official == map[THERE := shipped] && req.order == [THERE] && req.items == [MOVE] && req.allItems == []
    && req.orphans == {} && req.flags == Flags(true, false, true, false)
  }

  function ThePlan(shipped: string): Plan {
    Plan(map[THERE := shipped], map[], Classified([MOVE], [], [], []), [], Changes([THERE], [], [], [], []))
  }

  lemma Shapes()
    ensures MINE == OLD + ["x.md"] && THERE == NEW + ["x.md"] && Disjoint(OLD, NEW) && Disjoint(MINE, NEW)
    ensures OLD <= MINE && Rebase(MINE, OLD, NEW) == THERE
    ensures !IsCanonical(OLD) && !IsCanonical(NEW) && !IsCanonical(THERE) && !Discovered(MINE)
    ensures !IsMiddleware(THERE) && !IsProtected(OLD)
  {
    assert OLD[1] != NEW[1];
    assert MIDDLEWARE[0] != THERE[0];
    forall root | root in PROTECTED_PATHS
      ensures !(root <= OLD)
    {
      assert root[0] == WORKFLOW && OLD[0] != WORKFLOW;
    }
  }

  lemma OnlyMine(w: World, mine: string)
    requires Project(w, mine)
    ensures w.Entries() == {MINE} && w.Exists(OLD) && !w.Exists(NEW) && !w.Exists(THERE)
  {
    Shapes();
    assert MINE in w.Entries() && OLD <= MINE;
    assert MINE[1] != NEW[1] && MINE[1] != THERE[1];
  }

  lemma PickOne(item: Item, kind: Class, w: World, templates: Templates, stored: Manifest)
    ensures Pick([item], kind, w, templates, stored) == if ClassOf(item, w, templates, stored) == Some(kind) then [item] else []
  {
    assert [item][..0] == [] && Pick([], kind, w, templates, stored) == [];
  }

  lemma MoveIsAutomatic(w: World, mine: string, templates: Templates)
    requires Project(w, mine)
    ensures Classify([MOVE], w, templates, map[]) == Some(Classified([MOVE], [], [], []))
  {
    Shapes();
    OnlyMine(w, mine);
    assert ClassOf(MOVE, w, templates, map[]) == Some(Auto);
    PickOne(MOVE, Auto, w, templates, map[]);
    PickOne(MOVE, Confirm, w, templates, map[]);
    PickOne(MOVE, Conflict, w, templates, map[]);
    PickOne(MOVE, Skip, w, templates, map[]);
  }

  lemma SelectOne(p: Path, status: Status, w: World, templates: Templates, stored: Manifest)
    requires p in templates
    ensures Select([p], status, w, templates, stored) == if StatusOf(p, w, templates, stored) == Some(status) then [p] else []
  {
    assert [p][..0] == [] && Select([], status, w, templates, stored) == [];
  }

  lemma FileIsNew(w: World, mine: string, shipped: string)
    requires Project(w, mine)
    ensures Analyze([THERE], w, map[THERE := shipped], map[]) == Some(Changes([THERE], [], [], [], []))
  {
    OnlyMine(w, mine);
    var templates := map[THERE := shipped];
    assert StatusOf(THERE, w, templates, map[]) == Some(New);
    SelectOne(THERE, New, w, templates, map[]);
    SelectOne(THERE, Unchanged, w, templates, map[]);
    SelectOne(THERE, AutoUpdate, w, templates, map[]);
    SelectOne(THERE, Changed, w, templates, map[]);
    SelectOne(THERE, UserDeleted, w, templates, map[]);
  }

  lemma PlanIs(w: World, req: Request, mine: string, shipped: string)
    requires Project(w, mine) && Ships(req, shipped)
    ensures MakePlan(w, req) == Some(ThePlan(shipped)) && Fits(ThePlan(shipped))
  {
    Shapes();
    var templates := CollectTemplates(req.official, LoadSkips(w), req.bypass);
    assert CONFIG !in w.files by {
      assert CONFIG[0] != MINE[0];
    }
    assert LoadSkips(w) == [];
    assert templates == map[THERE := shipped];
    assert WantedOrder([THERE], templates) == [THERE] by {
      assert [THERE][1..] == [];
    }
    assert w.hashes - req.orphans == map[];
    MoveIsAutomatic(w, mine, templates);
    FileIsNew(w, mine, shipped);
    assert Judge([], w, [], req.bypass) == [];
  }

  // ---------- The run gets to its end ----------

  lemma Shares(shipped: string)
    ensures PartOf(ThePlan(shipped).classified, true) == Some(Classified([], [], [], []))
    ensures PartOf(ThePlan(shipped).classified, false) == Some(Classified([MOVE], [], [], []))
  {
    Shapes();
    var c := ThePlan(shipped).classified;
    assert [MOVE][..0] == [] && !CanonicalItem(MOVE) by {
      assert OLD in ItemPaths(MOVE);
    }
    assert ItemsOf([MOVE], true) == [] && ItemsOf([MOVE], false) == [MOVE];
    assert forall item | item in AllItems(c) :: item == MOVE;
  }

  lemma TheWrites(req: Request, shipped: string)
    ensures Fits(ThePlan(shipped))
    ensures WritesOf(TemplateWrites(ThePlan(shipped), req.Resolver()), true) == []
    ensures WritesOf(TemplateWrites(ThePlan(shipped), req.Resolver()), false) == [Write(THERE, shipped)]
  {
    Shapes();
    var plan := ThePlan(shipped);
    assert [THERE][1..] == [];
    assert TemplateWrites(plan, req.Resolver()) == [Write(THERE, shipped)];
    assert [Write(THERE, shipped)][1..] == [];
  }

  lemma NoMoves(build: World, req: Request)
    ensures Execute(build, Classified([], [], [], []), req.Chooser()) == Some(build)
  {
    assert SortForExecution([]) == [];
  }

  lemma CandidateExists(w: World, req: Request, mine: string, shipped: string) returns (build0: World, candidate: World)
    requires Project(w, mine) && Ships(req, shipped)
    ensures Fits(ThePlan(shipped)) && !Idle(ThePlan(shipped), req.flags)
    ensures Seed(w, map[]) == Some(build0) && Candidate(build0, ThePlan(shipped), req) == Some(candidate)
    ensures candidate.files == map[VERSION_FILE := File(req.version, false)]
  {
    Shapes();
    Shares(shipped);
    TheWrites(req, shipped);
    assert CanonicalFiles(w) == map[];
    build0 := World(map[], {}, map[]);
    NoMoves(build0, req);
    assert DeleteAll(build0, JudgedOf([], true)) == build0;
    VersionIsWritten(build0, req.version);
    candidate := Candidate(build0, ThePlan(shipped), req).value;
  }

  lemma VersionIsWritten(build: World, version: string)
    requires build.files == map[] && build.dirs == {}
    ensures build.WriteFile(VERSION_FILE, version).Some?
    ensures build.WriteFile(VERSION_FILE, version).value.files == map[VERSION_FILE := File(version, false)]
  {
    assert Parent(VERSION_FILE) == [WORKFLOW];
    var w := build.MkdirP([WORKFLOW]).value;
    assert w.Entries() == {[WORKFLOW]};
  }

  /** Besides the user's file there are only files below the workflow root. */
  ghost predicate Around(w: World, mine: string) {
    && MINE in w.files && w.files[MINE].bytes == mine
    && forall p | p in w.files && p != MINE :: p != [] && p[0] == WORKFLOW && |p| >= 2
  }

  /** The backup is all there is below the workflow root. */
  ghost predicate BackupOnly(backed: World, stamp: Name) {
    && (forall p | p in backed.files && p != MINE :: BackupDir(stamp) <= p && !backed.files[p].symlink)
    && (forall d | d in backed.dirs :: BackupDir(stamp) <= d)
  }

  lemma BackupExists(w: World, mine: string, stamp: Name) returns (backed: World)
    requires Project(w, mine)
    ensures Backup(w, stamp) == Some(backed) && SameButBackup(w, backed, stamp) && Around(backed, mine)
    ensures BackupOnly(backed, stamp)
  {
    var dir := BackupDir(stamp);
    assert !(MINE <= dir) by {
      assert MINE[0] != dir[0];
    }
    backed := Backup(w, stamp).value;
    BackupOnlyAdds(w, stamp);
    assert !(dir <= MINE) by {
      assert MINE[0] != dir[0];
    }
    forall p | p in backed.files && p != MINE
      ensures dir <= p && !backed.files[p].symlink && |p| >= 2 && p[0] == WORKFLOW
    {
      assert p in w.files ==> p == MINE;
      assert dir <= p && dir[0] == WORKFLOW;
    }
  }

  lemma BackupIsPassedOver(stamp: Name, p: Path)
    requires BackupDir(stamp) <= p
    ensures !Discovered(p) && !(VERSION_FILE <= p)
  {
    var dir := BackupDir(stamp);
    assert p[..2] == dir && StartsWith(dir[1], ".backup-");
    assert VERSION_FILE[1][1] == 'v' && dir[1][1] == 'b';
  }

  lemma NoGeneratedFile(backed: World, mine: string, stamp: Name, p: Path)
    requires Around(backed, mine) && BackupOnly(backed, stamp) && p in backed.files
    ensures !Discovered(p) && !(p < VERSION_FILE)
  {
    if p == MINE {
      Shapes();
      assert MINE[0] != VERSION_FILE[0];
    } else {
      BackupIsPassedOver(stamp, p);
      assert |p| >= |VERSION_FILE|;
    }
  }

  lemma NothingAtVersion(backed: World, mine: string, stamp: Name, e: Path)
    requires Around(backed, mine) && BackupOnly(backed, stamp) && e in backed.Entries()
    ensures !(VERSION_FILE <= e)
  {
    if e == MINE {
      assert MINE[0] != VERSION_FILE[0];
    } else {
      BackupIsPassedOver(stamp, e);
    }
  }

  lemma NothingIsGenerated(backed: World, mine: string, stamp: Name)
    requires Around(backed, mine) && BackupOnly(backed, stamp)
    ensures forall p | p in backed.files :: !Discovered(p) && !(p < VERSION_FILE)
    ensures forall e | e in backed.Entries() :: !(VERSION_FILE <= e)
  {
    forall p | p in backed.files
      ensures !Discovered(p) && !(p < VERSION_FILE)
    {
      NoGeneratedFile(backed, mine, stamp, p);
    }
    forall e | e in backed.Entries()
      ensures !(VERSION_FILE <= e)
    {
      NothingAtVersion(backed, mine, stamp, e);
    }
  }

  lemma CommitRuns(backed: World, candidate: World, version: string)
    requires candidate.files == map[VERSION_FILE := File(version, false)]
    requires forall p | p in backed.files :: !Discovered(p) && !(p < VERSION_FILE)
    requires forall e | e in backed.Entries() :: !(VERSION_FILE <= e)
    ensures Commit(backed, candidate).Some?
    ensures Commit(backed, candidate).value.files == backed.files[VERSION_FILE := File(version, false)]
  {
    VersionIsDiscovered();
    var target := CanonicalFiles(candidate);
    assert target == map[VERSION_FILE := File(version, false)];
    assert !TargetUnsafe(backed, target.Keys);
  }

  lemma CommitExists(backed: World, candidate: World, mine: string, stamp: Name, version: string) returns (live: World)
    requires Around(backed, mine) && BackupOnly(backed, stamp)
    requires candidate.files == map[VERSION_FILE := File(version, false)]
    ensures Commit(backed, candidate) == Some(live) && Around(live, mine)
  {
    NothingIsGenerated(backed, mine, stamp);
    CommitRuns(backed, candidate, version);
    live := Commit(backed, candidate).value;
    assert MINE[0] != VERSION_FILE[0];
  }

  lemma MoveRuns(live: World, mine: string) returns (moved: World)
    requires Around(live, mine)
    ensures ExecuteAuto(live, MOVE) == Some(moved) && THERE in moved.files
    ensures forall f | f in moved.files :: !(f <= NEW)
  {
    Shapes();
    assert MINE in live.Entries() && Parent(NEW) == [".cursor"];
    forall f | f in live.files
      ensures !(f <= Parent(NEW)) && (f != MINE ==> !(OLD <= f) && !(NEW <= f) && !(f <= NEW))
    {
      if f != MINE {
        assert f[0] != ".cursor";
      }
    }
    RenameDirRuns(live, OLD, NEW);
    moved := ExecuteAuto(live, MOVE).value;
    StepFollowsFate(live, MOVE, moved);
    assert FateStep(MOVE, MINE) == Some(THERE);
    forall f | f in moved.files
      ensures !(f <= NEW)
    {
      var p :| p in live.files && FateStep(MOVE, p) == Some(f);
      assert if p == MINE then f == THERE else f == p;
    }
  }

  lemma WriteRuns(moved: World, shipped: string)
    requires THERE in moved.files && forall f | f in moved.files :: !(f <= NEW)
    ensures WriteAll(moved, [Write(THERE, shipped)]).Some?
  {
    assert Parent(THERE) == NEW;
    assert moved.WriteFile(THERE, shipped).Some?;
    assert [Write(THERE, shipped)][1..] == [];
  }

  lemma OneMove(live: World, moved: World, req: Request)
    requires ExecuteAuto(live, MOVE) == Some(moved)
    ensures Execute(live, Classified([MOVE], [], [], []), req.Chooser()) == Some(moved)
  {
    assert SortForExecution([MOVE]) == [MOVE] && [MOVE][1..] == [];
    assert ExecuteAutos(live, [MOVE]) == Some(moved);
  }

  lemma LiveRuns(live: World, req: Request, mine: string, shipped: string) returns (after: World)
    requires Around(live, mine) && Ships(req, shipped)
    ensures Fits(ThePlan(shipped)) && ApplyLive(live, ThePlan(shipped), req) == Some(after)
  {
    Shares(shipped);
    TheWrites(req, shipped);
    var moved := MoveRuns(live, mine);
    OneMove(live, moved, req);
    WriteRuns(moved, shipped);
    assert DeleteAll(moved, JudgedOf([], false)) == moved;
    after := WriteAll(moved, [Write(THERE, shipped)]).value;
  }

  /** The stages of a run, one after the other. */
  lemma InStages(w: World, req: Request, plan: Plan, build0: World, candidate: World, backed: World, live: World, done: World)
    requires MakePlan(w, req) == Some(plan) && Fits(plan) && !Idle(plan, req.flags)
    requires Seed(w, plan.stored) == Some(build0) && Candidate(build0, plan, req) == Some(candidate)
    requires Backup(w, req.stamp) == Some(backed) && Commit(backed, candidate) == Some(live)
    requires ApplyLive(live, plan, req) == Some(done)
    ensures UpdateSpec(w, req) == Some(PruneSkips(done, req.official))
  {
  }

  lemma RunEnds(w: World, req: Request, mine: string, shipped: string) returns (after: World)
    requires Project(w, mine) && Ships(req, shipped)
    ensures !Idle(ThePlan(shipped), req.flags) && UpdateSpec(w, req) == Some(after)
  {
    PlanIs(w, req, mine, shipped);
    var build0, candidate := CandidateExists(w, req, mine, shipped);
    var backed := BackupExists(w, mine, req.stamp);
    var live := CommitExists(backed, candidate, mine, req.stamp, req.version);
    var done := LiveRuns(live, req, mine, shipped);
    InStages(w, req, ThePlan(shipped), build0, candidate, backed, live, done);
    after := PruneSkips(done, req.official);
  }

  /** The whole run, and the conditions of `UserFilesKept` on it: the user's file is not kept. */
  lemma UserFileOverwritten(w: World, req: Request, mine: string, shipped: string) returns (plan: Plan, after: World)
    requires Project(w, mine) && Ships(req, shipped) && mine != shipped
    ensures IsTree(w) && SoundRelease(req) && SkipAll(req)
    ensures MakePlan(w, req) == Some(plan) && Fits(plan) && !Idle(plan, req.flags) && SoundItems(plan.classified.auto, w)
    ensures UpdateSpec(w, req) == Some(after)
    ensures Precious(w, plan, req, MINE) && Place(plan, req, MINE) == Some(THERE)
    ensures Clobbered(w, plan, req, MINE) && !Kept(w, plan, req, MINE, after)
  {
    plan := ThePlan(shipped);
    PlanIs(w, req, mine, shipped);
    after := RunEnds(w, req, mine, shipped);
    Conditions(w, req, mine, shipped);
    UserFilesKept(w, req, plan, after, MINE);
  }

  lemma MoveIsSound(w: World, mine: string)
    requires Project(w, mine)
    ensures SoundItems([MOVE], w)
  {
    Shapes();
    assert !(NEW < MINE);
  }

  lemma WhereItGoes(req: Request, shipped: string)
    requires Ships(req, shipped)
    ensures Place(ThePlan(shipped), req, MINE) == Some(THERE)
  {
    Shapes();
    assert ItemsOf([MOVE], false) == [MOVE] by {
      Shares(shipped);
    }
    assert SortForExecution([MOVE]) == [MOVE] && [MOVE][1..] == [];
    assert Fate([MOVE], MINE) == Some(THERE);
  }

  lemma Conditions(w: World, req: Request, mine: string, shipped: string)
    requires Project(w, mine) && Ships(req, shipped) && mine != shipped
    ensures IsTree(w) && SoundRelease(req) && SkipAll(req) && SoundItems([MOVE], w)
    ensures Fits(ThePlan(shipped)) && Precious(w, ThePlan(shipped), req, MINE)
    ensures Place(ThePlan(shipped), req, MINE) == Some(THERE) && THERE != CONFIG
    ensures Clobbered(w, ThePlan(shipped), req, MINE)
  {
    Shapes();
    MoveIsSound(w, mine);
    WhereItGoes(req, shipped);
    assert BackupDir(req.stamp)[0] != MINE[0] && THERE[0] != CONFIG[0] && THERE[0] != VERSION_FILE[0] && MINE[0] != VERSION_FILE[0];
  }
}
