/**
 Runs that throw after the commit: the candidate is active, only a prefix of the live work has happened. What a later
 analysis makes of such a project, and what has become of the user's files.
 */
module UpdateStops {
  import opened Wrappers
  import opened Text
  import opened Paths
  import opened CanonicalPaths
  import opened Workspace
  import opened Migrations
  import opened MigrationTheorems
  import opened SafeDeletes
  import opened Analysis
  import opened Update
  import opened UpdateRun
  import opened UpdateConservation
  import opened UpdateConvergence

  // ---------- Where the writes stop ----------

  lemma {:induction false} StoppedAt(w: World, ws: seq<Write>, h: World) returns (n: nat, x: World)
    requires StoppedWrites(w, ws, h)
    ensures n < |ws| && WriteAll(w, ws[..n]) == Some(x) && HalfWrite(x, ws[n], h)
    decreases |ws|
  {
    if HalfWrite(w, ws[0], h) {
      n, x := 0, w;
      assert ws[..0] == [];
    } else {
      var w1 := w.WriteFile(ws[0].path, ws[0].bytes).value;
      n, x := StoppedAt(w1, ws[1..], h);
      assert ws[..n + 1] == [ws[0]] + ws[1..][..n];
      WriteAllStep(w, ws[0], ws[1..][..n]);
      n := n + 1;
    }
  }

  /** The first `n` writes have happened; if the next one threw, its directory may be there. */
  ghost predicate WrittenUpTo(start: World, ws: seq<Write>, n: nat, h: World) {
    && n <= |ws| && WriteAll(start, ws[..n]).Some?
    && var x := WriteAll(start, ws[..n]).value;
       h == x || (n < |ws| && x.MkdirP(Parent(ws[n].path)) == Some(h))
  }

  lemma WritesStopAt(start: World, plan: Plan, req: Request, h: World) returns (n: nat)
    requires Fits(plan) && WritesStop(start, plan, req, h)
    ensures WrittenUpTo(start, WritesOf(TemplateWrites(plan, req.Resolver()), false), n, h)
  {
    var ws := WritesOf(TemplateWrites(plan, req.Resolver()), false);
    if StoppedWrites(start, ws, h) {
      var x;
      n, x := StoppedAt(start, ws, h);
    } else {
      n := |ws|;
      assert ws[..n] == ws;
    }
  }

  // ---------- Runs without migrations ----------

  lemma {:induction false} NothingDeleted(w: World, judged: seq<Judged>, h: World)
    requires SomeDeleted(w, judged, h) && forall j | j in judged :: j.verdict != Remove
    ensures h == w
    decreases |judged|
  {
    if judged != [] {
      assert judged[0] in judged && DeleteOne(w, judged[0]) == w;
      NothingDeleted(w, judged[1..], h);
    }
  }

  lemma NothingDeletedIn(w: World, plan: Plan, req: Request, canonical: bool, h: World)
    requires OnlyTemplates(plan, req) && SomeDeleted(w, JudgedOf(plan.judged, canonical), h)
    ensures h == w
  {
    JudgedOfSubset(plan.judged, canonical);
    forall j | j in JudgedOf(plan.judged, canonical)
      ensures j.verdict != Remove
    {
      assert j in plan.judged;
    }
    NothingDeleted(w, JudgedOf(plan.judged, canonical), h);
  }

  lemma NothingMigrated(w: World, plan: Plan, req: Request, canonical: bool, moved: World)
    requires OnlyTemplates(plan, req) && Migrated(w, plan, req, canonical) == Some(moved)
    ensures moved == w
  {
    if req.flags.migrate {
      NothingToMigrate(w, plan, req, canonical);
    }
  }

  lemma CandidateIsStaged(build0: World, plan: Plan, req: Request, candidate: World)
    requires Fits(plan) && !Idle(plan, req.flags) && OnlyTemplates(plan, req) && CandidateOn(build0, plan, req, candidate)
    ensures CandidateFrom(build0, plan, req, candidate)
  {
    var build1 := Migrated(build0, plan, req, true).value;
    var build2 :| SomeDeleted(build1, JudgedOf(plan.judged, true), build2) && Staged(build2, plan, req) == Some(candidate);
    NothingMigrated(build0, plan, req, true, build1);
    NothingDeletedIn(build1, plan, req, true, build2);
    NothingToDeleteIn(build1, plan, req, true);
    ActiveCandidate(build0, plan, req, candidate);
  }

  /** With no migrations on the way, a stop leaves the committed project with a prefix of the writes. */
  lemma StopIsInTheWrites(live0: World, plan: Plan, req: Request, end: World) returns (n: nat)
    requires Fits(plan) && OnlyTemplates(plan, req) && StoppedLive(live0, plan, req, end)
    ensures WrittenUpTo(live0, WritesOf(TemplateWrites(plan, req.Resolver()), false), n, end)
  {
    if req.flags.migrate && StoppedMoving(live0, plan, req, end) {
      NoStopInNoMoves(live0, plan, req, end);
      n := 0;
    } else {
      var moved := Migrated(live0, plan, req, false).value;
      var w2 :| SomeDeleted(moved, JudgedOf(plan.judged, false), w2) && WritesStop(w2, plan, req, end);
      NothingMigrated(live0, plan, req, false, moved);
      NothingDeletedIn(moved, plan, req, false, w2);
      n := WritesStopAt(live0, plan, req, end);
    }
  }

  lemma NoStopInNoMoves(live0: World, plan: Plan, req: Request, end: World)
    requires OnlyTemplates(plan, req) && req.flags.migrate && StoppedMoving(live0, plan, req, end)
    ensures end == live0
  {
    assert SortForExecution([]) == [];
  }

  // ---------- One shipped path at the stop ----------

  /** Has the run written the template at `p`, when the deferred writes in `done` have happened? */
  ghost predicate WrittenSoFar(plan: Plan, req: Request, done: seq<Write>, p: Path) {
    WritesTemplate(plan, req, p) && (IsCanonical(p) || exists x | x in done :: x.path == p)
  }

  /** The bytes at a shipped path at the stop. */
  ghost function SoFar(w: World, req: Request, plan: Plan, done: seq<Write>, p: Path): Option<string>
    requires FromRelease(plan, req)
  {
    if WrittenSoFar(plan, req, done, p) then Some(req.official[p])
    else if p in w.files then Some(w.files[p].bytes)
    else None
  }

  /** The committed project, as far as the theorems below look at it. */
  ghost predicate CommittedTo(w: World, req: Request, plan: Plan, candidate: World, backed: World, live0: World)
    requires Fits(plan)
  {
    && Seed(w, plan.stored).Some? && CandidateFrom(Seed(w, plan.stored).value, plan, req, candidate)
    && SameButBackup(w, backed, req.stamp) && Commit(backed, candidate) == Some(live0)
  }

  lemma PathAfterCommit(w: World, req: Request, plan: Plan, candidate: World, backed: World, live0: World, p: Path)
    requires FromRelease(plan, req) && TidyRelease(req) && p in req.official
    requires CommittedTo(w, req, plan, candidate, backed, live0)
    ensures HasBytes(live0, p, SoFar(w, req, plan, [], p))
  {
    CommittedPath(w, req, plan, candidate, backed, live0, p);
    if Discovered(p) {
      DiscoveredIsCanonical(p, p);
    }
  }

  /** At or below a shipped path the run writes the path itself or nothing. */
  lemma WrittenBelowIsIt(plan: Plan, req: Request, p: Path, x: Path)
    requires FromRelease(plan, req) && TidyRelease(req) && p in req.official && x in Extra(plan, req) && p <= x
    ensures x == p
  {
    if x != p {
      PrefixOrProper(p, x);
      if x != VERSION_FILE {
        var t :| t in TemplateWrites(plan, req.Resolver()) && t.path == x;
        var source := TemplateWriteIs(plan, req, t);
        if x == CopyPath(source) {
          BelowCopy(p, source);
        }
      }
    }
  }

  lemma ExistsAfterCommit(w: World, req: Request, plan: Plan, candidate: World, backed: World, live0: World, p: Path)
    requires FromRelease(plan, req) && TidyRelease(req) && p in req.official
    requires CommittedTo(w, req, plan, candidate, backed, live0)
    ensures live0.Exists(p) <==> w.Exists(p) || WrittenSoFar(plan, req, [], p)
  {
    PathAfterCommit(w, req, plan, candidate, backed, live0, p);
    CommitDomain(backed, candidate, live0);
    if w.Exists(p) {
      ExistedIsThere(w, req, plan, candidate, backed, live0, p);
    }
    if p in live0.files {
      assert p in live0.Entries();
    }
    if live0.Exists(p) {
      var e :| e in live0.Entries() && p <= e;
      ThereExisted(w, req, plan, candidate, backed, live0, p, e);
    }
  }

  lemma ExistedIsThere(w: World, req: Request, plan: Plan, candidate: World, backed: World, live0: World, p: Path)
    requires FromRelease(plan, req) && TidyRelease(req) && p in req.official && w.Exists(p)
    requires CommittedTo(w, req, plan, candidate, backed, live0)
    ensures live0.Exists(p)
  {
    var e :| e in w.Entries() && p <= e;
    OutsideBackup(p, e, req.stamp);
    CommitDomain(backed, candidate, live0);
    StagedCovered(Seed(w, plan.stored).value, plan, req, StagedTree(Seed(w, plan.stored).value, plan, req).value, Extra(plan, req));
    assert e in live0.Entries();
  }

  lemma ThereExisted(w: World, req: Request, plan: Plan, candidate: World, backed: World, live0: World, p: Path, e: Path)
    requires FromRelease(plan, req) && TidyRelease(req) && p in req.official && p <= e && e in live0.Entries()
    requires CommittedTo(w, req, plan, candidate, backed, live0) && HasBytes(live0, p, SoFar(w, req, plan, [], p))
    ensures w.Exists(p) || WrittenSoFar(plan, req, [], p)
  {
    StagedCovered(Seed(w, plan.stored).value, plan, req, StagedTree(Seed(w, plan.stored).value, plan, req).value, Extra(plan, req));
    OutsideBackup(p, e, req.stamp);
    var source := CommittedSource(backed, candidate, live0, e);
    assert p <= source;
    OutsideBackup(p, source, req.stamp);
    if source in w.Entries() {
    } else {
      WrittenBelowIsIt(plan, req, p, source);
      CommitDomain(backed, candidate, live0);
    }
  }

  /** An entry after the commit lies at or above an entry from before or a file that the candidate brings. */
  lemma CommittedSource(live: World, build: World, after: World, e: Path) returns (source: Path)
    requires Commit(live, build) == Some(after) && e in after.Entries()
    ensures e <= source && (source in live.Entries() || (source in build.files && Discovered(source) && source in after.files))
  {
    CommitDomain(live, build, after);
    assert forall p: Path :: Parent(p) <= p;
    if e in live.Entries() || e in after.files {
      source := e;
    } else if p :| p in CanonicalFiles(build) && e == Parent(p) {
      source := p;
    } else {
      source :| source in live.files && e == Parent(source);
    }
  }

  /** The deferred writes at a shipped path are of its template. */
  lemma DoneAt(plan: Plan, req: Request, ws: seq<Write>, n: nat, p: Path)
    requires FromRelease(plan, req) && TidyRelease(req) && p in req.official && n <= |ws|
    requires ws == WritesOf(TemplateWrites(plan, req.Resolver()), false)
    ensures p in LastBytes(ws[..n]) <==> WrittenSoFar(plan, req, ws[..n], p) && !IsCanonical(p)
    ensures p in LastBytes(ws[..n]) ==> LastBytes(ws[..n])[p] == req.official[p]
  {
    WritesAre(TemplateWrites(plan, req.Resolver()), false);
    forall x | x in ws[..n] && x.path == p
      ensures x.bytes == req.official[p] && WritesTemplate(plan, req, p) && !IsCanonical(p)
    {
      assert x in ws;
      var _ := TemplateWriteIs(plan, req, x);
    }
    LastBytesAt(ws[..n], p, req.official[p]);
  }

  lemma PathAtStop(w: World, req: Request, plan: Plan, candidate: World, backed: World, live0: World,
                   ws: seq<Write>, n: nat, end: World, p: Path)
    requires FromRelease(plan, req) && TidyRelease(req) && p in req.official
    requires CommittedTo(w, req, plan, candidate, backed, live0)
    requires ws == WritesOf(TemplateWrites(plan, req.Resolver()), false) && WrittenUpTo(live0, ws, n, end)
    ensures HasBytes(end, p, SoFar(w, req, plan, ws[..n], p)) && end.hashes == live0.hashes
    ensures end.Exists(p) <==> w.Exists(p) || WrittenSoFar(plan, req, ws[..n], p)
  {
    PathAfterCommit(w, req, plan, candidate, backed, live0, p);
    ExistsAfterCommit(w, req, plan, candidate, backed, live0, p);
    DoneAt(plan, req, ws, n, p);
    ExistsAfterWrites(plan, req, live0, ws, n, WriteAll(live0, ws[..n]).value, end, p);
    BytesAfterWrites(live0, ws, n, end, p);
  }

  lemma BytesAfterWrites(live0: World, ws: seq<Write>, n: nat, end: World, p: Path)
    requires WrittenUpTo(live0, ws, n, end)
    ensures end.hashes == live0.hashes
    ensures HasBytes(end, p, if p in LastBytes(ws[..n]) then Some(LastBytes(ws[..n])[p])
                             else if p in live0.files then Some(live0.files[p].bytes) else None)
  {
    WriteAllFiles(live0, ws[..n], WriteAll(live0, ws[..n]).value);
  }

  lemma ExistsAfterWrites(plan: Plan, req: Request, live0: World, ws: seq<Write>, n: nat, x: World, end: World, p: Path)
    requires FromRelease(plan, req) && TidyRelease(req) && p in req.official && n <= |ws|
    requires ws == WritesOf(TemplateWrites(plan, req.Resolver()), false) && WriteAll(live0, ws[..n]) == Some(x)
    requires end == x || (n < |ws| && x.MkdirP(Parent(ws[n].path)) == Some(end))
    ensures end.Exists(p) <==> live0.Exists(p) || p in LastBytes(ws[..n])
  {
    EntriesStay(live0, ws, n, x, end);
    if live0.Exists(p) {
      var e :| e in live0.Entries() && p <= e;
      assert e in end.Entries();
    }
    if p in LastBytes(ws[..n]) {
      assert p in end.Entries();
    }
    if end.Exists(p) {
      var e :| e in end.Entries() && p <= e;
      if e !in live0.Entries() {
        NewEntryAt(plan, req, live0, ws, n, x, end, p, e);
      }
    }
  }

  lemma EntriesStay(live0: World, ws: seq<Write>, n: nat, x: World, end: World)
    requires n <= |ws| && WriteAll(live0, ws[..n]) == Some(x)
    requires end == x || (n < |ws| && x.MkdirP(Parent(ws[n].path)) == Some(end))
    ensures live0.Entries() + LastBytes(ws[..n]).Keys <= end.Entries()
  {
    WriteAllFiles(live0, ws[..n], x);
    WriteAllDirs(live0, ws[..n], x);
  }

  lemma WrittenPaths(plan: Plan, req: Request, ws: seq<Write>)
    requires Fits(plan) && ws == WritesOf(TemplateWrites(plan, req.Resolver()), false)
    ensures forall t | t in ws :: t.path in Extra(plan, req)
  {
    WritesAre(TemplateWrites(plan, req.Resolver()), false);
  }

  /** A new entry at or below a shipped path is that path, just written. */
  lemma NewEntryAt(plan: Plan, req: Request, live0: World, ws: seq<Write>, n: nat, x: World, end: World, p: Path, e: Path)
    requires FromRelease(plan, req) && TidyRelease(req) && p in req.official && n <= |ws|
    requires ws == WritesOf(TemplateWrites(plan, req.Resolver()), false) && WriteAll(live0, ws[..n]) == Some(x)
    requires end == x || (n < |ws| && x.MkdirP(Parent(ws[n].path)) == Some(end))
    requires e in end.Entries() && e !in live0.Entries() && p <= e
    ensures p in LastBytes(ws[..n])
  {
    WrittenPaths(plan, req, ws);
    LastBytesPaths(ws[..n]);
    if e in LastBytes(ws[..n]) {
      WrittenBelowIsIt(plan, req, p, e);
    } else {
      var t := MadeFor(live0, ws, n, x, end, e);
      assert Parent(t.path) <= t.path;
      WrittenBelowIsIt(plan, req, p, t.path);
    }
  }

  /** A directory that the writes have made is the parent of a written path. */
  lemma MadeFor(live0: World, ws: seq<Write>, n: nat, x: World, end: World, e: Path) returns (t: Write)
    requires n <= |ws| && WriteAll(live0, ws[..n]) == Some(x)
    requires end == x || (n < |ws| && x.MkdirP(Parent(ws[n].path)) == Some(end))
    requires e in end.Entries() && e !in live0.Entries() && e !in LastBytes(ws[..n])
    ensures t in ws && e == Parent(t.path)
  {
    WriteAllFiles(live0, ws[..n], x);
    WriteAllDirs(live0, ws[..n], x);
    if e in x.dirs {
      t :| t in ws[..n] && e == Parent(t.path);
    } else {
      t := ws[n];
    }
  }

  // ---------- What the next analysis makes of it ----------

  /** Does the analysis, comparing hashes, take `bytes` for the template at `p`? */
  predicate HashedAlike(p: Path, template: string, bytes: string) {
    HashForPath(p, template) == ComputeHash(bytes)
  }

  /** The next status of a template that the run wanted to write and did not. */
  function UnwrittenStatus(before: Status, p: Path, template: string, bytes: string): Status {
    if ExcludedFromHash(p) then before
    else match before
      case New => UserDeleted
      case AutoUpdate => if HashedAlike(p, template, bytes) then AutoUpdate else Changed
      case Changed => if HashedAlike(p, template, bytes) then AutoUpdate else Changed
      case _ => before
  }

  function BytesAt(w: World, p: Path): string {
    if p in w.files then w.files[p].bytes else ""
  }

  /** A run without migrations that threw after the commit, when the deferred writes in `done` had happened. */
  ghost predicate StopsWith(w: World, req: Request, plan: Plan, end: World, done: seq<Write>)
    requires FromRelease(plan, req)
  {
    forall p | p in req.official ::
      var recorded := (WritesTemplate(plan, req, p) || (p in plan.changes.upToDate && p !in plan.stored)) && !ExcludedFromHash(p);
      && Listed(w, plan, p)
      && HasBytes(end, p, SoFar(w, req, plan, done, p))
      && (end.Exists(p) <==> w.Exists(p) || WrittenSoFar(plan, req, done, p))
      && (p in end.hashes <==> p in plan.stored || recorded)
      && (p in end.hashes ==> end.hashes[p] == if recorded then HashForPath(p, req.official[p]) else plan.stored[p])
  }

  lemma StopHasEffects(w: World, req: Request, plan: Plan, end: World) returns (n: nat)
    requires MakePlan(w, req) == Some(plan) && FromRelease(plan, req) && TidyRelease(req)
    requires OnlyTemplates(plan, req) && !Idle(plan, req.flags) && Ends(w, req, false, end)
    ensures n <= |WritesOf(TemplateWrites(plan, req.Resolver()), false)|
    ensures StopsWith(w, req, plan, end, WritesOf(TemplateWrites(plan, req.Resolver()), false)[..n])
  {
    var candidate, live0 :| Committed(w, req, plan, candidate, live0) && Aftermath(live0, req, plan, false, end);
    var backed := Backup(w, req.stamp).value;
    BackupOnlyAdds(w, req.stamp);
    CandidateIsStaged(Seed(w, plan.stored).value, plan, req, candidate);
    n := StopIsInTheWrites(live0, plan, req, end);
    forall p | p in req.official
      ensures Listed(w, plan, p)
    {
      PlanLists(w, req, plan, p);
    }
    forall p | p in req.official
      ensures RecordsExactly(w, req, plan, p)
    {
      RecordedExact(w, req, plan, p);
    }
    StopEffects(w, req, plan, candidate, backed, live0, n, end);
  }

  ghost predicate RecordsExactly(w: World, req: Request, plan: Plan, p: Path)
    requires Fits(plan) && p in req.official && Seed(w, plan.stored).Some?
    requires StagedTree(Seed(w, plan.stored).value, plan, req).Some?
  {
    var r := Recorded(plan, req, StagedTree(Seed(w, plan.stored).value, plan, req).value);
    && (p in r <==> WritesTemplate(plan, req, p) || (p in plan.changes.upToDate && !IsMiddleware(p) && p !in plan.stored))
    && (p in r ==> r[p] == req.official[p])
  }

  lemma StopEffects(w: World, req: Request, plan: Plan, candidate: World, backed: World, live0: World, n: nat, end: World)
    requires FromRelease(plan, req) && TidyRelease(req) && CommittedTo(w, req, plan, candidate, backed, live0)
    requires WrittenUpTo(live0, WritesOf(TemplateWrites(plan, req.Resolver()), false), n, end)
    requires forall p | p in req.official :: Listed(w, plan, p) && RecordsExactly(w, req, plan, p)
    ensures StopsWith(w, req, plan, end, WritesOf(TemplateWrites(plan, req.Resolver()), false)[..n])
  {
    var ws := WritesOf(TemplateWrites(plan, req.Resolver()), false);
    forall p | p in req.official
      ensures HasBytes(end, p, SoFar(w, req, plan, ws[..n], p)) && end.hashes == live0.hashes
      ensures end.Exists(p) <==> w.Exists(p) || WrittenSoFar(plan, req, ws[..n], p)
    {
      PathAtStop(w, req, plan, candidate, backed, live0, ws, n, end, p);
    }
    if req.official != map[] {
      var some :| some in req.official;
      assert end.hashes == live0.hashes;
    }
  }

  /**
   After a run that threw past the commit, every template that the plan handled: what has been written, or was not to be
   written, is judged as after a completed run; what has not been written is judged by the hash of bytes that were
   never written.
   */
  lemma StatusAfterStop(w: World, req: Request, plan: Plan, end: World, done: seq<Write>, next: Templates, orphans: set<Path>, p: Path)
    requires FromRelease(plan, req) && StopsWith(w, req, plan, end, done)
    requires p in plan.templates && p in next && next[p] == req.official[p] && p !in orphans
    ensures StatusOf(p, w, plan.templates, plan.stored).Some?
    ensures var before := StatusOf(p, w, plan.templates, plan.stored).value;
            StatusOf(p, end, next, end.hashes - orphans) ==
            Some(if !WritesTemplate(plan, req, p) || WrittenSoFar(plan, req, done, p) then NextStatus(before, req.Resolve(p))
                 else UnwrittenStatus(before, p, req.official[p], BytesAt(w, p)))
  {
    assert p in req.official && Listed(w, plan, p);
    assert p in end.files ==> p in end.Entries();
    assert p in w.files ==> p in w.Entries();
  }

  /**
   A template that was not written is misjudged exactly if it is tracked by hash and was new, or was to be updated from
   text that differs beyond line ends, or was a conflict with text that does not. The new ones count as deleted by the
   user, with a hash for bytes that were never written.
   */
  lemma MisjudgedExactly(w: World, req: Request, plan: Plan, end: World, done: seq<Write>, next: Templates, orphans: set<Path>, p: Path)
    requires FromRelease(plan, req) && StopsWith(w, req, plan, end, done)
    requires p in plan.templates && p in next && next[p] == req.official[p] && p !in orphans
    requires WritesTemplate(plan, req, p) && !WrittenSoFar(plan, req, done, p)
    ensures StatusOf(p, end, next, end.hashes - orphans) != StatusOf(p, w, plan.templates, plan.stored)
            <==> !ExcludedFromHash(p)
                 && (|| p in plan.changes.newFiles
                     || (p in plan.changes.autoUpdate && !HashedAlike(p, req.official[p], BytesAt(w, p)))
                     || (p in plan.changes.changed && HashedAlike(p, req.official[p], BytesAt(w, p))))
    ensures p in plan.changes.newFiles && !ExcludedFromHash(p) ==>
              && StatusOf(p, end, next, end.hashes - orphans) == Some(UserDeleted)
              && p !in end.files && p in end.hashes && end.hashes[p] == HashForPath(p, req.official[p])
  {
    StatusAfterStop(w, req, plan, end, done, next, orphans, p);
    assert p in req.official && Listed(w, plan, p);
    assert p in w.files ==> p in w.Entries();
  }

  lemma {:induction false} NoneDeleted(w: World, judged: seq<Judged>)
    ensures SomeDeleted(w, judged, w)
    decreases |judged|
  {
    if judged != [] {
      NoneDeleted(w, judged[1..]);
    }
  }

  lemma MayStopAtOnce(live0: World, plan: Plan, req: Request)
    requires Fits(plan) && OnlyTemplates(plan, req) && Migrated(live0, plan, req, false).Some?
    requires WritesOf(TemplateWrites(plan, req.Resolver()), false) != []
    ensures StoppedLive(live0, plan, req, live0)
  {
    NothingMigrated(live0, plan, req, false, Migrated(live0, plan, req, false).value);
    NoneDeleted(live0, JudgedOf(plan.judged, false));
    assert WritesStop(live0, plan, req, live0);
  }

  /**
   Such stops happen: whenever a run would complete with deferred writes, the first of them may throw, and then all of
   them are missing.
   */
  lemma StopBeforeWriting(w: World, req: Request, plan: Plan, after: World) returns (end: World)
    requires MakePlan(w, req) == Some(plan) && FromRelease(plan, req) && TidyRelease(req)
    requires OnlyTemplates(plan, req) && !Idle(plan, req.flags) && UpdateSpec(w, req) == Some(after)
    requires WritesOf(TemplateWrites(plan, req.Resolver()), false) != []
    ensures Ends(w, req, false, end) && StopsWith(w, req, plan, end, [])
  {
    var candidate, live0 := CommittedSpec(w, req, plan, after);
    MayStopAtOnce(live0, plan, req);
    end := live0;
    assert Aftermath(live0, req, plan, false, end);
    BackupOnlyAdds(w, req.stamp);
    CandidateIsStaged(Seed(w, plan.stored).value, plan, req, candidate);
    forall p | p in req.official
      ensures Listed(w, plan, p) && RecordsExactly(w, req, plan, p)
    {
      PlanLists(w, req, plan, p);
      RecordedExact(w, req, plan, p);
    }
    var ws := WritesOf(TemplateWrites(plan, req.Resolver()), false);
    assert ws[..0] == [] && WrittenUpTo(live0, ws, 0, end);
    StopEffects(w, req, plan, candidate, Backup(w, req.stamp).value, live0, 0, end);
  }

  lemma CommittedSpec(w: World, req: Request, plan: Plan, after: World) returns (candidate: World, live0: World)
    requires MakePlan(w, req) == Some(plan) && Fits(plan) && !Idle(plan, req.flags) && UpdateSpec(w, req) == Some(after)
    ensures Committed(w, req, plan, candidate, live0) && Migrated(live0, plan, req, false).Some?
  {
    var build0 := Seed(w, plan.stored).value;
    candidate := Candidate(build0, plan, req).value;
    SpecCandidate(build0, plan, req, candidate);
    live0 := Commit(Backup(w, req.stamp).value, candidate).value;
  }

  // ---------- The user's files at the stop ----------

  lemma {:induction false} SomeDeletedSpares(w: World, judged: seq<Judged>, h: World, q: Path)
    requires SomeDeleted(w, judged, h) && q in w.files && !Deletes(judged, q, w.files[q])
    ensures q in h.files && h.files[q] == w.files[q]
    decreases |judged|
  {
    if judged != [] {
      assert judged == [judged[0]] + judged[1..];
      if SomeDeleted(w, judged[1..], h) {
        SomeDeletedSpares(w, judged[1..], h, q);
      } else {
        SomeDeletedSpares(DeleteOne(w, judged[0]), judged[1..], h, q);
      }
    }
  }

  ghost predicate Holds(w: World, q: Path, file: File) {
    q in w.files && w.files[q] == file
  }

  ghost predicate HasText(w: World, q: Path, bytes: string) {
    q in w.files && w.files[q].bytes == bytes
  }

  /** An item that does not destroy the file has not touched it when it throws. */
  lemma HalfKeepsFile(w: World, item: Item, h: World, p: Path)
    requires HalfAuto(w, item, h) && p in w.files && FateStep(item, p).Some?
    ensures Holds(h, p, w.files[p])
  {
  }

  /** Among items kept apart, a file with a fate is at its old or at its final place, wherever they stop. */
  lemma {:induction false} StoppedAutosKeep(w: World, items: seq<Item>, h: World, p: Path)
    requires AllApart(items) && StoppedAutos(w, items, h) && p in w.files && Fate(items, p).Some?
    ensures Holds(h, p, w.files[p]) || Holds(h, Fate(items, p).value, w.files[p])
    decreases |items|
  {
    if HalfAuto(w, items[0], h) {
      HalfKeepsFile(w, items[0], h, p);
    } else {
      var w1, q := ExecuteAuto(w, items[0]).value, FateStep(items[0], p).value;
      StepFollowsFate(w, items[0], w1);
      ApartRest(items);
      StoppedAutosKeep(w1, items[1..], h, q);
      if q != p {
        FirstTouchDecides(items, p, 0);
      }
    }
  }

  lemma {:induction false} StoppedConfirmsLeaveAlone(w: World, items: seq<Item>, choose: Item -> Action, h: World)
    requires StoppedConfirms(w, items, choose, h) && forall item :: choose(item) == LeaveAlone
    ensures h.files == w.files || exists item :: HalfConfirmed(w, item, LeaveAlone, h)
    decreases |items|
  {
    if !HalfConfirmed(w, items[0], choose(items[0]), h) {
      StoppedConfirmsLeaveAlone(w, items[1..], choose, h);
    }
  }

  lemma HalfLeftAlone(w: World, item: Item, h: World)
    requires HalfConfirmed(w, item, LeaveAlone, h)
    ensures h.files == w.files
  {
  }

  lemma StoppedMovesKeep(live: World, req: Request, plan: Plan, h: World, p: Path)
    requires SkipAll(req) && req.flags.migrate && StoppedMoving(live, plan, req, h)
    requires AllApart(RunItems(plan, req, false)) && p in live.files && Fate(RunItems(plan, req, false), p).Some?
    ensures Holds(h, p, live.files[p]) || Holds(h, Fate(RunItems(plan, req, false), p).value, live.files[p])
  {
    var items := RunItems(plan, req, false);
    if PartOf(plan.classified, false).Some? {
      var part := PartOf(plan.classified, false).value;
      assert SortForExecution(part.auto) == items;
      if StoppedAutos(live, items, h) {
        StoppedAutosKeep(live, items, h, p);
      } else {
        var moved := ExecuteAutos(live, items).value;
        ExecutionFollowsFate(live, items, moved);
        StoppedConfirmsLeaveAlone(moved, part.confirm, req.Chooser(), h);
        if item :| HalfConfirmed(moved, item, LeaveAlone, h) {
          HalfLeftAlone(moved, item, h);
        }
      }
    }
  }

  lemma MovedByRunItems(w: World, req: Request, plan: Plan, canonical: bool, moved: World)
    requires SkipAll(req) && Migrated(w, plan, req, canonical) == Some(moved)
    ensures ExecuteAutos(w, RunItems(plan, req, canonical)) == Some(moved)
  {
    if req.flags.migrate {
      ExecuteSkipAll(w, PartOf(plan.classified, canonical).value, req);
    }
  }

  /** Template writes, as many as there have been, put only shipped bytes anywhere. */
  lemma PartialWrites(plan: Plan, req: Request, ws: seq<Write>, n: nat)
    requires Fits(plan) && SkipAll(req) && ws == WritesOf(TemplateWrites(plan, req.Resolver()), false) && n <= |ws|
    ensures forall q | q in LastBytes(ws[..n]) ::
              q in plan.templates && LastBytes(ws[..n])[q] == plan.templates[q] && !IsCanonical(q)
              && (q in plan.changes.newFiles || q in plan.changes.autoUpdate)
  {
    var c := plan.changes;
    var a, b := Copies(c.newFiles, plan.templates), Copies(c.autoUpdate, plan.templates);
    KeepingWritesNothing(c.changed, plan.templates, req.Resolver());
    assert TemplateWrites(plan, req.Resolver()) == a + b;
    WritesAre(a + b, false);
    CopiesAre(c.newFiles, plan.templates);
    CopiesAre(c.autoUpdate, plan.templates);
    forall x | x in ws[..n]
      ensures x.path in plan.templates && x.bytes == plan.templates[x.path] && !IsCanonical(x.path)
      ensures x.path in c.newFiles || x.path in c.autoUpdate
    {
      assert x in ws;
    }
    LastBytesOf(ws[..n], plan.templates);
  }

  /** What the run writes at this path, if anything, are these bytes. */
  ghost predicate Agrees(plan: Plan, req: Request, q: Path, bytes: string)
    requires Fits(plan)
  {
    && (q in plan.changes.newFiles || q in plan.changes.autoUpdate ==> plan.templates[q] == bytes)
    && (q == VERSION_FILE ==> req.version == bytes)
  }

  lemma WrittenAgrees(plan: Plan, req: Request, q: Path, bytes: string)
    requires Fits(plan) && VERSION_FILE !in plan.templates && (q in Written(plan, req) ==> Written(plan, req)[q] == bytes)
    ensures Agrees(plan, req, q, bytes)
  {
  }

  /** A file on the live side, when the deletions are done and the writes stop. */
  lemma TextAtStop(w2: World, req: Request, plan: Plan, h: World, q: Path, bytes: string)
    requires Fits(plan) && SkipAll(req) && WritesStop(w2, plan, req, h) && HasText(w2, q, bytes)
    requires Agrees(plan, req, q, bytes)
    ensures HasText(h, q, bytes)
  {
    var ws := WritesOf(TemplateWrites(plan, req.Resolver()), false);
    var n := WritesStopAt(w2, plan, req, h);
    PartialWrites(plan, req, ws, n);
    WriteAllFiles(w2, ws[..n], WriteAll(w2, ws[..n]).value);
  }

  /** One file through the live stage of a skip-all run that stops. */
  lemma ThroughStoppedLive(live0: World, req: Request, plan: Plan, end: World, p: Path, q: Path, bytes: string)
    requires Fits(plan) && SkipAll(req) && StoppedLive(live0, plan, req, end) && AllApart(RunItems(plan, req, false))
    requires HasText(live0, p, bytes) && Fate(RunItems(plan, req, false), p) == Some(q)
    requires forall f: File | f.bytes == bytes :: !Deletes(JudgedOf(plan.judged, false), q, f)
    requires Agrees(plan, req, q, bytes)
    ensures HasText(end, p, bytes) || HasText(end, q, bytes)
  {
    if req.flags.migrate && StoppedMoving(live0, plan, req, end) {
      StoppedMovesKeep(live0, req, plan, end, p);
    } else {
      var moved := Migrated(live0, plan, req, false).value;
      var w2 :| SomeDeleted(moved, JudgedOf(plan.judged, false), w2) && WritesStop(w2, plan, req, end);
      MovedByRunItems(live0, req, plan, false, moved);
      ExecutionFollowsFate(live0, RunItems(plan, req, false), moved);
      SomeDeletedSpares(moved, JudgedOf(plan.judged, false), w2, q);
      TextAtStop(w2, req, plan, end, q, bytes);
    }
  }

  /** One file through the staging in the build root, on any disk. */
  lemma ThroughStaging(build0: World, req: Request, plan: Plan, candidate: World, p: Path, q: Path, bytes: string)
    requires Fits(plan) && SkipAll(req) && !Idle(plan, req.flags) && CandidateOn(build0, plan, req, candidate)
    requires HasText(build0, p, bytes) && Fate(RunItems(plan, req, true), p) == Some(q)
    requires forall f: File | f.bytes == bytes :: !Deletes(JudgedOf(plan.judged, true), q, f)
    requires Agrees(plan, req, q, bytes)
    ensures HasText(candidate, q, bytes)
  {
    var build1 := Migrated(build0, plan, req, true).value;
    var build2 :| SomeDeleted(build1, JudgedOf(plan.judged, true), build2) && Staged(build2, plan, req) == Some(candidate);
    MovedByRunItems(build0, req, plan, true, build1);
    ExecutionFollowsFate(build0, RunItems(plan, req, true), build1);
    SomeDeletedSpares(build1, JudgedOf(plan.judged, true), build2, q);
    TextWhenStaged(build2, req, plan, candidate, q, bytes);
  }

  lemma TextWhenStaged(build2: World, req: Request, plan: Plan, candidate: World, q: Path, bytes: string)
    requires Fits(plan) && SkipAll(req) && Staged(build2, plan, req) == Some(candidate) && HasText(build2, q, bytes)
    requires Agrees(plan, req, q, bytes)
    ensures HasText(candidate, q, bytes)
  {
    var build3, build4 := StagedFiles(build2, plan, req, candidate);
    SkipAllWrites(plan, req.Resolver(), true);
    TextWhenWritten(build2, WritesOf(TemplateWrites(plan, req.Resolver()), true), build3, q, bytes);
    OneWrite(build3, VERSION_FILE, req.version);
  }

  lemma StagedFiles(build2: World, plan: Plan, req: Request, candidate: World) returns (build3: World, build4: World)
    requires Fits(plan) && Staged(build2, plan, req) == Some(candidate)
    ensures WriteAll(build2, WritesOf(TemplateWrites(plan, req.Resolver()), true)) == Some(build3)
    ensures build3.WriteFile(VERSION_FILE, req.version) == Some(build4) && candidate.files == build4.files
  {
    build3 := WriteAll(build2, WritesOf(TemplateWrites(plan, req.Resolver()), true)).value;
    build4 := build3.WriteFile(VERSION_FILE, req.version).value;
  }

  lemma TextWhenWritten(w: World, ws: seq<Write>, w': World, q: Path, bytes: string)
    requires WriteAll(w, ws) == Some(w') && HasText(w, q, bytes) && (q in LastBytes(ws) ==> LastBytes(ws)[q] == bytes)
    ensures HasText(w', q, bytes)
  {
    WriteAllFiles(w, ws, w');
  }

  lemma DeletesByText(judged: seq<Judged>, q: Path, f: File, g: File)
    requires f.bytes == g.bytes
    ensures Deletes(judged, q, f) <==> Deletes(judged, q, g)
  {
    forall j | j in judged
      ensures Allowed(j.item, f) <==> Allowed(j.item, g)
    {
    }
  }

  /** No deletion of the plan would take text like that of a precious file. */
  lemma TextIsSpared(w: World, req: Request, plan: Plan, canonical: bool, p: Path, q: Path, f: File)
    requires MakePlan(w, req) == Some(plan) && Precious(w, plan, req, p) && f.bytes == w.files[p].bytes
    ensures !Deletes(JudgedOf(plan.judged, canonical), q, f)
  {
    DeletionSpares(w, req, plan, canonical, p, q);
    DeletesByText(JudgedOf(plan.judged, canonical), q, f, w.files[p]);
  }

  lemma NoItemCrosses(w: World, req: Request, plan: Plan)
    requires MakePlan(w, req) == Some(plan) && Fits(plan) && !Idle(plan, req.flags) && Seed(w, plan.stored).Some?
    requires exists candidate :: CandidateOn(Seed(w, plan.stored).value, plan, req, candidate)
    ensures req.flags.migrate ==> forall item | item in plan.classified.auto :: !Crosses(item)
  {
    if req.flags.migrate {
      assert PartOf(plan.classified, true).Some?;
      forall item | item in plan.classified.auto
        ensures !Crosses(item)
      {
        assert item in AllItems(plan.classified);
      }
    }
  }

  /**
   Conservation at a stop. When a skip-all run throws after the commit, on any disk, a user file that is not buried and
   not moved onto a path that the run writes is at its old or at its new place, with its bytes.
   */
  lemma UserFilesSurviveStops(w: World, req: Request, plan: Plan, end: World, p: Path)
    requires SoundRelease(req) && SkipAll(req)
    requires MakePlan(w, req) == Some(plan) && Fits(plan) && !Idle(plan, req.flags) && SoundItems(plan.classified.auto, w)
    requires Ends(w, req, false, end)
    requires Precious(w, plan, req, p) && !Buried(w, plan, req, p) && !Clobbered(w, plan, req, p)
    ensures Place(plan, req, p).Some?
    ensures HasText(end, p, w.files[p].bytes) || HasText(end, Place(plan, req, p).value, w.files[p].bytes)
  {
    var candidate, live0 := StopAfterCommit(w, req, plan, end);
    var q, mover := PreciousHasPlace(w, req, plan, p);
    PreciousIsNotWritten(w, req, plan, p);
    RunItemsApart(plan, req, false, w);
    TemplatesAreOfficial(w, req, plan);
    WrittenAgrees(plan, req, q, w.files[p].bytes);
    SparedInBoth(w, req, plan, p, q);
    if Discovered(p) && q != p {
      RebaseDiscovered(p, mover.from, mover.to);
    }
    StopOf(w, req, plan, candidate, live0, end, p, q);
  }

  lemma StopAfterCommit(w: World, req: Request, plan: Plan, end: World) returns (candidate: World, live0: World)
    requires MakePlan(w, req) == Some(plan) && Fits(plan) && !Idle(plan, req.flags) && Ends(w, req, false, end)
    ensures Committed(w, req, plan, candidate, live0) && StoppedLive(live0, plan, req, end)
    ensures req.flags.migrate ==> forall item | item in plan.classified.auto :: !Crosses(item)
  {
    candidate, live0 :| Committed(w, req, plan, candidate, live0) && Aftermath(live0, req, plan, false, end);
    NoItemCrosses(w, req, plan);
  }

  /** No deletion of the plan takes a file with this text at this path. */
  ghost predicate Spared(plan: Plan, q: Path, bytes: string) {
    forall f: File | f.bytes == bytes :: !Deletes(JudgedOf(plan.judged, true), q, f) && !Deletes(JudgedOf(plan.judged, false), q, f)
  }

  lemma SparedInBoth(w: World, req: Request, plan: Plan, p: Path, q: Path)
    requires MakePlan(w, req) == Some(plan) && Precious(w, plan, req, p)
    ensures Spared(plan, q, w.files[p].bytes)
  {
    forall f: File | f.bytes == w.files[p].bytes
      ensures !Deletes(JudgedOf(plan.judged, true), q, f) && !Deletes(JudgedOf(plan.judged, false), q, f)
    {
      TextIsSpared(w, req, plan, true, p, q, f);
      TextIsSpared(w, req, plan, false, p, q, f);
    }
  }

  lemma StopOf(w: World, req: Request, plan: Plan, candidate: World, live0: World, end: World, p: Path, q: Path)
    requires Fits(plan) && SkipAll(req) && !Idle(plan, req.flags) && SoundItems(plan.classified.auto, w)
    requires Committed(w, req, plan, candidate, live0) && StoppedLive(live0, plan, req, end)
    requires req.flags.migrate ==> forall item | item in plan.classified.auto :: !Crosses(item)
    requires p in w.files && !(BackupDir(req.stamp) <= p) && Place(plan, req, p) == Some(q) && (Discovered(p) ==> Discovered(q))
    requires Agrees(plan, req, q, w.files[p].bytes) && Spared(plan, q, w.files[p].bytes)
    ensures HasText(end, p, w.files[p].bytes) || HasText(end, q, w.files[p].bytes)
  {
    RunItemsApart(plan, req, false, w);
    if Discovered(p) {
      StopOfCanonical(w, req, plan, candidate, live0, end, p, q);
    } else {
      StopOfLive(w, req, plan, candidate, live0, end, p, q);
    }
  }

  lemma StopOfCanonical(w: World, req: Request, plan: Plan, candidate: World, live0: World, end: World, p: Path, q: Path)
    requires Fits(plan) && SkipAll(req) && !Idle(plan, req.flags) && SoundItems(plan.classified.auto, w)
    requires Committed(w, req, plan, candidate, live0) && StoppedLive(live0, plan, req, end)
    requires req.flags.migrate ==> forall item | item in plan.classified.auto :: !Crosses(item)
    requires p in w.files && Discovered(p) && Discovered(q) && Fate(RunItems(plan, req, true), p) == Some(q)
    requires Agrees(plan, req, q, w.files[p].bytes) && Spared(plan, q, w.files[p].bytes)
    ensures HasText(end, q, w.files[p].bytes)
  {
    var bytes := w.files[p].bytes;
    DiscoveredIsCanonical(q, q);
    ThroughStaging(Seed(w, plan.stored).value, req, plan, candidate, p, q, bytes);
    CommitContent(Backup(w, req.stamp).value, candidate, live0);
    LiveItemsSpareCanonical(w, req, plan, q);
    RunItemsApart(plan, req, false, w);
    ThroughStoppedLive(live0, req, plan, end, q, q, bytes);
  }

  lemma LiveTextAfterCommit(w: World, req: Request, plan: Plan, candidate: World, live0: World, p: Path)
    requires Fits(plan) && !Idle(plan, req.flags) && Committed(w, req, plan, candidate, live0)
    requires p in w.files && !Discovered(p) && !(BackupDir(req.stamp) <= p)
    ensures HasText(live0, p, w.files[p].bytes)
  {
    BackupOnlyAdds(w, req.stamp);
    CommitContent(Backup(w, req.stamp).value, candidate, live0);
  }

  lemma StopOfLive(w: World, req: Request, plan: Plan, candidate: World, live0: World, end: World, p: Path, q: Path)
    requires Fits(plan) && SkipAll(req) && !Idle(plan, req.flags) && AllApart(RunItems(plan, req, false))
    requires Committed(w, req, plan, candidate, live0) && StoppedLive(live0, plan, req, end)
    requires p in w.files && !Discovered(p) && !(BackupDir(req.stamp) <= p) && Fate(RunItems(plan, req, false), p) == Some(q)
    requires Agrees(plan, req, q, w.files[p].bytes) && Spared(plan, q, w.files[p].bytes)
    ensures HasText(end, p, w.files[p].bytes) || HasText(end, q, w.files[p].bytes)
  {
    LiveTextAfterCommit(w, req, plan, candidate, live0, p);
    ThroughStoppedLive(live0, req, plan, end, p, q, w.files[p].bytes);
  }
}
