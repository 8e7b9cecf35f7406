/** The update run as it executes, step by step, against its specification. */
module UpdateRun {
  import opened Wrappers
  import opened Text
  import opened Paths
  import opened CanonicalPaths
  import opened Workspace
  import opened Migrations
  import opened SafeDeletes
  import opened Analysis
  import opened SkipConfigText
  import opened Update

  lemma WritesOfStep(ws: seq<Write>, n: nat, canonical: bool)
    requires n < |ws|
    ensures WritesOf(ws[n..], canonical)
            == if IsCanonical(ws[n].path) == canonical then [ws[n]] + WritesOf(ws[n + 1..], canonical)
               else WritesOf(ws[n + 1..], canonical)
  {
    assert ws[n..][1..] == ws[n + 1..];
  }

  lemma WriteAllStep(w: World, x: Write, rest: seq<Write>)
    ensures WriteAll(w, [x] + rest)
            == if w.WriteFile(x.path, x.bytes).None? then None else WriteAll(w.WriteFile(x.path, x.bytes).value, rest)
  {
    assert ([x] + rest)[1..] == rest;
  }

  /** Canonical paths are written to the build root at once, the others wait in memory. */
  method StageWrites(build: Root, ws: seq<Write>) returns (ok: bool, deferred: seq<Write>)
    modifies build
    ensures Performs(WriteAll(old(build.View()), WritesOf(ws, true)), ok, build.View(), build.faulty)
    ensures ok ==> deferred == WritesOf(ws, false)
  {
    ok, deferred := true, [];
    ghost var goal := WriteAll(build.View(), WritesOf(ws, true));
    for n := 0 to |ws|
      invariant WriteAll(build.View(), WritesOf(ws[n..], true)) == goal
      invariant deferred + WritesOf(ws[n..], false) == WritesOf(ws, false)
    {
      WritesOfStep(ws, n, true);
      WritesOfStep(ws, n, false);
      if IsCanonical(ws[n].path) {
        WriteAllStep(build.View(), ws[n], WritesOf(ws[n + 1..], true));
        assert WritesOf(ws[n..], false) == WritesOf(ws[n + 1..], false);
        ok := build.Attempt(build.View().WriteFile(ws[n].path, ws[n].bytes));
        if !ok { return; }
      } else {
        deferred := deferred + [ws[n]];
      }
    }
    ok := true;
  }

  /** A write that throws may have created the directory. */
  ghost predicate HalfWrite(w: World, x: Write, h: World) {
    h == w || w.MkdirP(Parent(x.path)) == Some(h)
  }

  /** Some writes are done, and the next one threw. */
  ghost predicate StoppedWrites(w: World, ws: seq<Write>, h: World)
    decreases |ws|
  {
    && ws != []
    && var done := w.WriteFile(ws[0].path, ws[0].bytes);
       HalfWrite(w, ws[0], h) || (done.Some? && StoppedWrites(done.value, ws[1..], h))
  }

  lemma WriteAfterMkdir(w: World, p: Path, bytes: string)
    requires w.MkdirP(Parent(p)).Some?
    ensures w.MkdirP(Parent(p)).value.WriteFile(p, bytes) == w.WriteFile(p, bytes)
  {
    assert w.dirs + {Parent(p)} + {Parent(p)} == w.dirs + {Parent(p)};
  }

  method ApplyDeferredLiveWrites(live: Root, ws: seq<Write>) returns (ok: bool)
    modifies live
    ensures Performs(WriteAll(old(live.View()), ws), ok, live.View(), live.faulty)
    ensures !ok ==> StoppedWrites(old(live.View()), ws, live.View())
  {
    ghost var start := live.View();
    ghost var goal := WriteAll(start, ws);
    for n := 0 to |ws|
      invariant WriteAll(live.View(), ws[n..]) == goal
      invariant forall h :: StoppedWrites(live.View(), ws[n..], h) ==> StoppedWrites(start, ws, h)
    {
      var before := live.View();
      ok := live.Attempt(before.MkdirP(Parent(ws[n].path)));
      if !ok { return; }
      WriteAfterMkdir(before, ws[n].path, ws[n].bytes);
      ok := live.Attempt(live.View().WriteFile(ws[n].path, ws[n].bytes));
      if !ok { return; }
    }
    ok := true;
  }

  lemma {:induction false} WritesOfAppend(a: seq<Write>, b: seq<Write>, canonical: bool)
    ensures WritesOf(a + b, canonical) == WritesOf(a, canonical) + WritesOf(b, canonical)
  {
    if a == [] {
      assert a + b == b;
    } else {
      assert (a + b)[1..] == a[1..] + b;
      WritesOfAppend(a[1..], b, canonical);
    }
  }

  lemma {:induction false} WriteAllAppend(w: World, a: seq<Write>, b: seq<Write>)
    ensures WriteAll(w, a + b) == if WriteAll(w, a).None? then None else WriteAll(WriteAll(w, a).value, b)
    decreases |a|
  {
    if a == [] {
      assert a + b == b;
    } else {
      assert (a + b)[1..] == a[1..] + b;
      if w.WriteFile(a[0].path, a[0].bytes).Some? {
        WriteAllAppend(w.WriteFile(a[0].path, a[0].bytes).value, a[1..], b);
      }
    }
  }

  /** The three loops that stage template content. */
  method StageTemplates(build: Root, plan: Plan, resolve: Path -> Resolution) returns (ok: bool, deferred: seq<Write>)
    requires Fits(plan)
    modifies build
    ensures Performs(WriteAll(old(build.View()), WritesOf(TemplateWrites(plan, resolve), true)), ok, build.View(), build.faulty)
    ensures ok ==> deferred == WritesOf(TemplateWrites(plan, resolve), false)
  {
    ghost var start := build.View();
    var a := Copies(plan.changes.newFiles, plan.templates);
    var b := Copies(plan.changes.autoUpdate, plan.templates);
    var c := ChangedWrites(plan.changes.changed, plan.templates, resolve);
    WritesOfAppend(a + b, c, true);
    WritesOfAppend(a, b, true);
    WritesOfAppend(a + b, c, false);
    WritesOfAppend(a, b, false);
    WriteAllAppend(start, WritesOf(a, true) + WritesOf(b, true), WritesOf(c, true));
    WriteAllAppend(start, WritesOf(a, true), WritesOf(b, true));
    var more: seq<Write>;
    ok, deferred := StageWrites(build, a);
    if !ok { return; }
    ok, more := StageWrites(build, b);
    if !ok { return; }
    deferred := deferred + more;
    ok, more := StageWrites(build, c);
    deferred := deferred + more;
  }

  datatype Outcome = Stopped | FailedLive | Completed

  /** Nothing but the backup directory tells the project from what it was. */
  ghost predicate SameButBackup(before: World, after: World, stamp: Name) {
    var dir := BackupDir(stamp);
    && (forall p | !(dir <= p) :: (p in after.files <==> p in before.files)
                                  && (p in before.files ==> after.files[p] == before.files[p]))
    && (forall d | !(dir <= d) :: d in after.dirs <==> d in before.dirs)
    && after.hashes == before.hashes
  }

  /** The backup leaves everything else alone and holds a copy of each file it covers. */
  lemma BackupOnlyAdds(w: World, stamp: Name)
    requires Backup(w, stamp).Some?
    ensures SameButBackup(w, Backup(w, stamp).value, stamp)
    ensures forall p | p in w.files && BackedUp(w, p) ::
              Rebase(p, [], BackupDir(stamp)) in Backup(w, stamp).value.files
              && Backup(w, stamp).value.files[Rebase(p, [], BackupDir(stamp))].bytes == w.files[p].bytes
  {
    var dir := BackupDir(stamp);
    var sources := map p | p in w.files && BackedUp(w, p) :: File(w.files[p].bytes, false);
    var copies := MoveKeys(sources, [], dir);
    forall q | q in copies
      ensures dir <= q && dir <= Parent(q)
    {
      assert Rebase(q, dir, []) in sources;
      assert Rebase(q, dir, []) != [];
    }
    forall p | p in w.files && BackedUp(w, p)
      ensures Rebase(p, [], dir) in copies && copies[Rebase(p, [], dir)].bytes == w.files[p].bytes
    {
      assert [] <= p && p in sources;
    }
  }

  method HashPaths(written: map<Path, string>) returns (paths: seq<Path>)
    ensures forall p :: p in paths <==> p in written
  {
    paths := [];
    var todo := written.Keys;
    while todo != {}
      invariant todo <= written.Keys
      invariant forall p :: p in paths <==> p in written && p !in todo
      decreases todo
    {
      var p :| p in todo;
      paths, todo := paths + [p], todo - {p};
    }
  }

  method RecordHashes(root: Root, written: map<Path, string>)
    modifies root`hashes
    ensures root.View() == old(root.View()).UpdateHashes(written)
  {
    var paths := HashPaths(written);
    root.UpdateHashes(paths, written);
  }

  /** The candidate of a run; on a faulty disk some deletions in the build root may have been passed over. */
  ghost predicate CandidateOn(build0: World, plan: Plan, req: Request, candidate: World)
    requires Fits(plan)
  {
    if Idle(plan, req.flags) then Candidate(build0, plan, req) == Some(candidate)
    else
      && Migrated(build0, plan, req, true).Some?
      && exists build2 :: SomeDeleted(Migrated(build0, plan, req, true).value, JudgedOf(plan.judged, true), build2)
                          && Staged(build2, plan, req) == Some(candidate)
  }

  method BuildCandidate(build: Root, plan: Plan, req: Request) returns (ok: bool, deferred: seq<Write>)
    requires Fits(plan)
    modifies build
    ensures !build.faulty ==> Performs(Candidate(old(build.View()), plan, req), ok, build.View(), false)
    ensures ok ==> CandidateOn(old(build.View()), plan, req, build.View())
    ensures ok && !Idle(plan, req.flags) ==> deferred == WritesOf(TemplateWrites(plan, req.Resolver()), false)
  {
    ok, deferred := true, [];
    if Idle(plan, req.flags) {
      var missing := CollectMissingTemplateHashes(plan.changes, plan.templates, plan.stored);
      RecordHashes(build, missing);
      if !req.sameVersion {
        ok := build.Attempt(build.View().WriteFile(VERSION_FILE, req.version));
      }
      return;
    }
    var resolve := req.Resolver();
    if req.flags.migrate {
      if PartOf(plan.classified, true).None? {
        return false, [];
      }
      ok := ExecuteMigrations(build, PartOf(plan.classified, true).value, req.Chooser());
      if !ok { return; }
    }
    var judged := JudgedOf(plan.judged, true);
    var _ := ExecuteSafeFileDeletes(build, judged);
    ok, deferred := StageTemplates(build, plan, resolve);
    if !ok { return; }
    ok := build.Attempt(build.View().WriteFile(VERSION_FILE, req.version));
    if !ok { return; }
    RecordHashes(build, FilesToHash(plan, TemplateWrites(plan, resolve), build.View()));
  }

  /** What waits for the commit has all happened, but for deletions that failed. */
  ghost predicate FinishedLive(live: World, plan: Plan, req: Request, end: World)
    requires Fits(plan)
  {
    var moved := Migrated(live, plan, req, false);
    && moved.Some?
    && exists w2 :: SomeDeleted(moved.value, JudgedOf(plan.judged, false), w2) && WritesEnd(w2, plan, req, end)
  }

  ghost predicate WritesEnd(w2: World, plan: Plan, req: Request, end: World)
    requires Fits(plan)
  {
    var written := WriteAll(w2, WritesOf(TemplateWrites(plan, req.Resolver()), false));
    written.Some? && end == PruneSkips(written.value, req.official)
  }

  /** A prefix of what waits for the commit has happened. */
  ghost predicate StoppedLive(live: World, plan: Plan, req: Request, end: World)
    requires Fits(plan)
  {
    var moved := Migrated(live, plan, req, false);
    || (req.flags.migrate && StoppedMoving(live, plan, req, end))
    || (moved.Some?
        && exists w2 :: SomeDeleted(moved.value, JudgedOf(plan.judged, false), w2) && WritesStop(w2, plan, req, end))
  }

  ghost predicate StoppedMoving(live: World, plan: Plan, req: Request, end: World) {
    match PartOf(plan.classified, false)
    case None => end == live
    case Some(part) => StoppedExecute(live, part, req.Chooser(), end)
  }

  /** A write threw, or the last step, the pruning of skip entries. */
  ghost predicate WritesStop(w2: World, plan: Plan, req: Request, end: World)
    requires Fits(plan)
  {
    var ws := WritesOf(TemplateWrites(plan, req.Resolver()), false);
    StoppedWrites(w2, ws, end) || WriteAll(w2, ws) == Some(end)
  }

  method PruneStaleSkips(live: Root, official: Templates) returns (ok: bool)
    modifies live
    ensures Performs(Some(PruneSkips(old(live.View()), official)), ok, live.View(), live.faulty)
    ensures !ok ==> live.View() == old(live.View())
  {
    if CONFIG !in live.files {
      return true;
    }
    var w := live.View();
    var stale := set s | s in LoadSkips(w) && StaleSkip(s, w, official);
    var edited, removed := RemoveUpdateSkipPathsFromConfig(w.files[CONFIG].bytes, stale);
    ok := live.Attempt(Some(w.(files := w.files[CONFIG := w.files[CONFIG].(bytes := edited)])));
  }

  /** Canonical staging has happened; the rest runs on the project itself. */
  method FinishLive(live: Root, plan: Plan, req: Request, deferred: seq<Write>) returns (ok: bool)
    requires Fits(plan) && deferred == WritesOf(TemplateWrites(plan, req.Resolver()), false)
    modifies live
    ensures !live.faulty ==> if ok then ApplyLive(old(live.View()), plan, req).Some?
                                        && live.View() == PruneSkips(ApplyLive(old(live.View()), plan, req).value, req.official)
                             else ApplyLive(old(live.View()), plan, req).None?
    ensures if ok then FinishedLive(old(live.View()), plan, req, live.View())
            else StoppedLive(old(live.View()), plan, req, live.View())
  {
    ok := true;
    if req.flags.migrate {
      if PartOf(plan.classified, false).None? {
        return false;
      }
      ok := ExecuteMigrations(live, PartOf(plan.classified, false).value, req.Chooser());
      if !ok { return; }
    }
    var _ := ExecuteSafeFileDeletes(live, JudgedOf(plan.judged, false));
    ghost var w2 := live.View();
    ok := ApplyDeferredLiveWrites(live, deferred);
    if !ok {
      assert WritesStop(w2, plan, req, live.View());
      return;
    }
    ok := PruneStaleSkips(live, req.official);
    assert if ok then WritesEnd(w2, plan, req, live.View()) else WritesStop(w2, plan, req, live.View());
  }

  method Analyse(w: World, req: Request) returns (plan: Option<Plan>)
    ensures plan == MakePlan(w, req)
  {
    var stored := w.hashes - req.orphans;
    var templates := CollectTemplates(req.official, LoadSkips(w), req.bypass);
    var classified := ClassifyMigrations(req.items, w, templates, stored);
    if classified.None? {
      return None;
    }
    var changes := AnalyzeChanges(WantedOrder(req.order, templates), w, templates, stored);
    if changes.None? {
      return None;
    }
    var judged := CollectSafeFileDeletes(req.allItems, w, LoadSkips(w), req.bypass);
    plan := Some(Plan(templates, stored, classified.value, judged, changes.value));
  }

  /** The commit has happened: the candidate is active, the rest of the project as it was but for the backup. */
  ghost predicate Committed(w: World, req: Request, plan: Plan, candidate: World, live0: World)
    requires Fits(plan)
  {
    && Seed(w, plan.stored).Some? && CandidateOn(Seed(w, plan.stored).value, plan, req, candidate)
    && var backed := if Idle(plan, req.flags) then Some(w) else Backup(w, req.stamp);
       backed.Some? && Commit(backed.value, candidate) == Some(live0)
  }

  ghost predicate Aftermath(live0: World, req: Request, plan: Plan, completed: bool, end: World)
    requires Fits(plan)
  {
    if Idle(plan, req.flags) then completed && end == live0
    else if completed then FinishedLive(live0, plan, req, end)
    else StoppedLive(live0, plan, req, end)
  }

  /** The states in which a run that gets past the commit may leave the project, on any disk. */
  ghost predicate Ends(w: World, req: Request, completed: bool, end: World) {
    match MakePlan(w, req)
    case None => false
    case Some(plan) =>
      Fits(plan) && exists candidate, live0 :: Committed(w, req, plan, candidate, live0) && Aftermath(live0, req, plan, completed, end)
  }

  lemma {:induction false} AllDeleted(w: World, judged: seq<Judged>)
    ensures SomeDeleted(w, judged, DeleteAll(w, judged))
    decreases |judged|
  {
    if judged != [] {
      AllDeleted(DeleteOne(w, judged[0]), judged[1..]);
    }
  }

  lemma SpecCandidate(build0: World, plan: Plan, req: Request, candidate: World)
    requires Fits(plan) && Candidate(build0, plan, req) == Some(candidate)
    ensures CandidateOn(build0, plan, req, candidate)
  {
    if !Idle(plan, req.flags) {
      AllDeleted(Migrated(build0, plan, req, true).value, JudgedOf(plan.judged, true));
    }
  }

  /** The run that the specification describes is one of these. */
  lemma SpecIsAnEnd(w: World, req: Request, after: World)
    requires UpdateSpec(w, req) == Some(after)
    ensures Ends(w, req, true, after)
  {
    var plan := MakePlan(w, req).value;
    PlanFits(w, req);
    var build0 := Seed(w, plan.stored).value;
    var candidate := Candidate(build0, plan, req).value;
    SpecCandidate(build0, plan, req, candidate);
    if Idle(plan, req.flags) {
      assert Committed(w, req, plan, candidate, after) && Aftermath(after, req, plan, true, after);
    } else {
      var live0 := Commit(Backup(w, req.stamp).value, candidate).value;
      SpecAftermath(live0, plan, req, ApplyLive(live0, plan, req).value);
      assert Committed(w, req, plan, candidate, live0) && Aftermath(live0, req, plan, true, after);
    }
  }

  lemma SpecAftermath(live0: World, plan: Plan, req: Request, applied: World)
    requires Fits(plan) && ApplyLive(live0, plan, req) == Some(applied)
    ensures FinishedLive(live0, plan, req, PruneSkips(applied, req.official))
  {
    var moved := Migrated(live0, plan, req, false).value;
    AllDeleted(moved, JudgedOf(plan.judged, false));
    assert WritesEnd(DeleteAll(moved, JudgedOf(plan.judged, false)), plan, req, PruneSkips(applied, req.official));
  }

  /**
   The command. `commits` is the lifecycle's answer. Whatever throws up to and including the commit, on whatever disk,
   the project is as before except for the backup directory. Whatever throws after the commit leaves the committed
   candidate with a prefix of the live work; and on a sound disk the run succeeds exactly when the specification says
   so, with the state that it names.
   */
  method RunUpdate(live: Root, req: Request, commits: bool) returns (outcome: Outcome)
    modifies live
    ensures outcome == Stopped ==> SameButBackup(old(live.View()), live.View(), req.stamp)
    ensures outcome != Stopped ==> Ends(old(live.View()), req, outcome == Completed, live.View())
    ensures !live.faulty ==> (outcome == Completed <==> commits && UpdateSpec(old(live.View()), req).Some?)
    ensures !live.faulty && outcome == Completed ==> UpdateSpec(old(live.View()), req) == Some(live.View())
  {
    var before := live.View();
    var maybe := Analyse(before, req);
    if maybe.None? {
      return Stopped;
    }
    var plan := maybe.value;
    PlanFits(before, req);
    if Seed(before, plan.stored).None? {
      return Stopped;
    }
    var build := new Root(Seed(before, plan.stored).value, live.faulty);
    var ok, deferred := true, [];
    if !Idle(plan, req.flags) {
      ok := live.Attempt(Backup(before, req.stamp));
      if !ok {
        return Stopped;
      }
      BackupOnlyAdds(before, req.stamp);
    }
    ok, deferred := BuildCandidate(build, plan, req);
    if !ok || !commits {
      return Stopped;
    }
    ok := live.Attempt(Commit(live.View(), build.View()));
    if !ok {
      return Stopped;
    }
    ghost var live0 := live.View();
    assert Committed(before, req, plan, build.View(), live0);
    if Idle(plan, req.flags) {
      assert Aftermath(live0, req, plan, true, live0);
      return Completed;
    }
    ok := FinishLive(live, plan, req, deferred);
    assert Aftermath(live0, req, plan, ok, live.View());
    outcome := if ok then Completed else FailedLive;
  }
}
