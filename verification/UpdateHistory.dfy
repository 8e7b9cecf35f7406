/** Over any number of update runs and user edits, the manifest only ever vouches for shipped content. */
module UpdateHistory {
  import opened Wrappers
  import opened Text
  import opened Paths
  import opened Workspace
  import opened HashInit
  import opened Migrations
  import opened MigrationTheorems
  import opened SafeDeletes
  import opened Analysis
  import opened Update
  import opened UpdateRun
  import opened UpdateConservation
  import opened UpdateConvergence

  /** What a release ships: its template texts and their managed blocks. */
  function Contents(official: Templates): set<string> {
    (set p | p in official :: official[p])
    + (set p | p in official && ExtractBlock(official[p]).Some? :: ExtractBlock(official[p]).value)
  }

  ghost predicate Shipped(hash: Hash, contents: set<string>) {
    exists c | c in contents :: hash == ComputeHash(c)
  }

  /** Every stored hash is the hash of something Pactile shipped. */
  ghost predicate Traced(hashes: Manifest, contents: set<string>) {
    forall k | k in hashes :: Shipped(hashes[k], contents)
  }

  // ---------- One run ----------

  lemma ManifestOfAuto(w: World, item: Item, w': World, contents: set<string>)
    requires ExecuteAuto(w, item) == Some(w') && Traced(w.hashes, contents)
    ensures Traced(w'.hashes, contents)
  {
    StepHashes(w, item, w');
    HashesAfterTraced(item, w.hashes, contents);
  }

  lemma HashesAfterTraced(item: Item, hashes: Manifest, contents: set<string>)
    requires Traced(hashes, contents)
    ensures Traced(HashesAfter(item, hashes), contents)
  {
  }

  lemma {:induction false} ManifestOfAutos(w: World, items: seq<Item>, w': World, contents: set<string>)
    requires ExecuteAutos(w, items) == Some(w') && Traced(w.hashes, contents)
    ensures Traced(w'.hashes, contents)
    decreases |items|
  {
    if items != [] {
      var w1 := ExecuteAuto(w, items[0]).value;
      ManifestOfAuto(w, items[0], w1, contents);
      ManifestOfAutos(w1, items[1..], w', contents);
    }
  }

  lemma ManifestOfConfirmed(w: World, item: Item, action: Action, w': World, contents: set<string>)
    requires ExecuteConfirmed(w, item, action) == Some(w') && Traced(w.hashes, contents)
    ensures Traced(w'.hashes, contents)
  {
  }

  lemma {:induction false} ManifestOfConfirms(w: World, items: seq<Item>, choose: Item -> Action, w': World, contents: set<string>)
    requires ExecuteConfirms(w, items, choose) == Some(w') && Traced(w.hashes, contents)
    ensures Traced(w'.hashes, contents)
    decreases |items|
  {
    if items != [] {
      var w1 := ExecuteConfirmed(w, items[0], choose(items[0])).value;
      ManifestOfConfirmed(w, items[0], choose(items[0]), w1, contents);
      ManifestOfConfirms(w1, items[1..], choose, w', contents);
    }
  }

  lemma ManifestOfExecute(w: World, c: Classified, choose: Item -> Action, w': World, contents: set<string>)
    requires Execute(w, c, choose) == Some(w') && Traced(w.hashes, contents)
    ensures Traced(w'.hashes, contents)
  {
    var w1 := ExecuteAutos(w, SortForExecution(c.auto)).value;
    ManifestOfAutos(w, SortForExecution(c.auto), w1, contents);
    ManifestOfConfirms(w1, c.confirm, choose, w', contents);
  }

  lemma {:induction false} ManifestOfDeletions(w: World, judged: seq<Judged>, end: World, contents: set<string>)
    requires SomeDeleted(w, judged, end) && Traced(w.hashes, contents)
    ensures Traced(end.hashes, contents)
    decreases |judged|
  {
    if judged != [] {
      if SomeDeleted(w, judged[1..], end) {
        ManifestOfDeletions(w, judged[1..], end, contents);
      } else {
        ManifestOfDeletions(DeleteOne(w, judged[0]), judged[1..], end, contents);
      }
    }
  }

  /** No item throws between its file-system calls and its change of the manifest. */
  lemma ManifestOfHalf(w: World, item: Item, action: Action, h: World)
    ensures HalfAuto(w, item, h) || HalfConfirmed(w, item, action, h) ==> h.hashes == w.hashes
  {
  }

  lemma {:induction false} ManifestOfStoppedAutos(w: World, items: seq<Item>, h: World, contents: set<string>)
    requires StoppedAutos(w, items, h) && Traced(w.hashes, contents)
    ensures Traced(h.hashes, contents)
    decreases |items|
  {
    if HalfAuto(w, items[0], h) {
      ManifestOfHalf(w, items[0], Proceed, h);
    } else {
      ManifestOfAuto(w, items[0], ExecuteAuto(w, items[0]).value, contents);
      ManifestOfStoppedAutos(ExecuteAuto(w, items[0]).value, items[1..], h, contents);
    }
  }

  lemma {:induction false} ManifestOfStoppedConfirms(w: World, items: seq<Item>, choose: Item -> Action, h: World, contents: set<string>)
    requires StoppedConfirms(w, items, choose, h) && Traced(w.hashes, contents)
    ensures Traced(h.hashes, contents)
    decreases |items|
  {
    if HalfConfirmed(w, items[0], choose(items[0]), h) {
      ManifestOfHalf(w, items[0], choose(items[0]), h);
    } else {
      var w1 := ExecuteConfirmed(w, items[0], choose(items[0])).value;
      ManifestOfConfirmed(w, items[0], choose(items[0]), w1, contents);
      ManifestOfStoppedConfirms(w1, items[1..], choose, h, contents);
    }
  }

  lemma ManifestOfStoppedExecute(w: World, c: Classified, choose: Item -> Action, h: World, contents: set<string>)
    requires StoppedExecute(w, c, choose, h) && Traced(w.hashes, contents)
    ensures Traced(h.hashes, contents)
  {
    if StoppedAutos(w, SortForExecution(c.auto), h) {
      ManifestOfStoppedAutos(w, SortForExecution(c.auto), h, contents);
    } else {
      var w1 := ExecuteAutos(w, SortForExecution(c.auto)).value;
      ManifestOfAutos(w, SortForExecution(c.auto), w1, contents);
      ManifestOfStoppedConfirms(w1, c.confirm, choose, h, contents);
    }
  }

  lemma {:induction false} ManifestOfStoppedWrites(w: World, ws: seq<Write>, h: World)
    requires StoppedWrites(w, ws, h)
    ensures h.hashes == w.hashes
    decreases |ws|
  {
    if !HalfWrite(w, ws[0], h) {
      ManifestOfStoppedWrites(w.WriteFile(ws[0].path, ws[0].bytes).value, ws[1..], h);
    }
  }

  lemma ManifestOfMoves(w: World, plan: Plan, req: Request, canonical: bool, moved: World, contents: set<string>)
    requires Migrated(w, plan, req, canonical) == Some(moved) && Traced(w.hashes, contents)
    ensures Traced(moved.hashes, contents)
  {
    if req.flags.migrate {
      ManifestOfExecute(w, PartOf(plan.classified, canonical).value, req.Chooser(), moved, contents);
    }
  }

  lemma ManifestOfRecording(hashes: Manifest, recorded: map<Path, string>, official: Templates, contents: set<string>)
    requires Traced(hashes, contents) && Contents(official) <= contents
    requires forall p | p in recorded :: p in official && recorded[p] == official[p]
    ensures Traced(hashes + HashesOf(recorded), contents)
  {
    forall k | k in hashes + HashesOf(recorded)
      ensures Shipped((hashes + HashesOf(recorded))[k], contents)
    {
      if k in HashesOf(recorded) {
        assert official[k] in contents;
        if ExtractBlock(official[k]).Some? {
          assert ExtractBlock(official[k]).value in contents;
        }
      }
    }
  }

  lemma RecordedIsOfficial(plan: Plan, req: Request, writes: seq<Write>, build: World)
    requires FromRelease(plan, req)
    ensures forall p | p in FilesToHash(plan, writes, build) ::
              p in req.official && FilesToHash(plan, writes, build)[p] == req.official[p]
    ensures forall p | p in MissingHashes(plan.changes, plan.templates, plan.stored) ::
              p in req.official && MissingHashes(plan.changes, plan.templates, plan.stored)[p] == req.official[p]
  {
  }

  lemma ManifestOfCandidate(build0: World, plan: Plan, req: Request, candidate: World, contents: set<string>)
    requires FromRelease(plan, req) && CandidateOn(build0, plan, req, candidate)
    requires Traced(build0.hashes, contents) && Contents(req.official) <= contents
    ensures Traced(candidate.hashes, contents)
  {
    if Idle(plan, req.flags) {
      var missing := MissingHashes(plan.changes, plan.templates, plan.stored);
      RecordedIsOfficial(plan, req, [], build0);
      ManifestOfRecording(build0.hashes, missing, req.official, contents);
      if !req.sameVersion {
        OneWrite(build0.UpdateHashes(missing), VERSION_FILE, req.version);
      }
    } else {
      var build1 := Migrated(build0, plan, req, true).value;
      var build2 :| SomeDeleted(build1, JudgedOf(plan.judged, true), build2) && Staged(build2, plan, req) == Some(candidate);
      ManifestOfMoves(build0, plan, req, true, build1, contents);
      ManifestOfDeletions(build1, JudgedOf(plan.judged, true), build2, contents);
      ManifestOfStaging(build2, plan, req, candidate, contents);
    }
  }

  lemma ManifestOfStaging(build2: World, plan: Plan, req: Request, candidate: World, contents: set<string>)
    requires FromRelease(plan, req) && Staged(build2, plan, req) == Some(candidate)
    requires Traced(build2.hashes, contents) && Contents(req.official) <= contents
    ensures Traced(candidate.hashes, contents)
  {
    var writes := TemplateWrites(plan, req.Resolver());
    var build3 := WriteAll(build2, WritesOf(writes, true)).value;
    WriteAllFiles(build2, WritesOf(writes, true), build3);
    var build4 := build3.WriteFile(VERSION_FILE, req.version).value;
    OneWrite(build3, VERSION_FILE, req.version);
    RecordedIsOfficial(plan, req, writes, build4);
    ManifestOfRecording(build4.hashes, FilesToHash(plan, writes, build4), req.official, contents);
  }

  lemma ManifestOfWrites(w2: World, plan: Plan, req: Request, end: World)
    requires Fits(plan) && (WritesEnd(w2, plan, req, end) || WritesStop(w2, plan, req, end))
    ensures end.hashes == w2.hashes
  {
    var ws := WritesOf(TemplateWrites(plan, req.Resolver()), false);
    if StoppedWrites(w2, ws, end) {
      ManifestOfStoppedWrites(w2, ws, end);
    } else {
      WriteAllFiles(w2, ws, WriteAll(w2, ws).value);
    }
  }

  lemma ManifestOfFinished(live: World, plan: Plan, req: Request, end: World, contents: set<string>)
    requires Fits(plan) && FinishedLive(live, plan, req, end) && Traced(live.hashes, contents)
    ensures Traced(end.hashes, contents)
  {
    var moved := Migrated(live, plan, req, false).value;
    var w2 :| SomeDeleted(moved, JudgedOf(plan.judged, false), w2) && WritesEnd(w2, plan, req, end);
    ManifestOfMoves(live, plan, req, false, moved, contents);
    ManifestOfDeletions(moved, JudgedOf(plan.judged, false), w2, contents);
    ManifestOfWrites(w2, plan, req, end);
  }

  lemma ManifestOfStopped(live: World, plan: Plan, req: Request, end: World, contents: set<string>)
    requires Fits(plan) && StoppedLive(live, plan, req, end) && Traced(live.hashes, contents)
    ensures Traced(end.hashes, contents)
  {
    if req.flags.migrate && StoppedMoving(live, plan, req, end) {
      if PartOf(plan.classified, false).Some? {
        ManifestOfStoppedExecute(live, PartOf(plan.classified, false).value, req.Chooser(), end, contents);
      }
    } else {
      var moved := Migrated(live, plan, req, false).value;
      var w2 :| SomeDeleted(moved, JudgedOf(plan.judged, false), w2) && WritesStop(w2, plan, req, end);
      ManifestOfMoves(live, plan, req, false, moved, contents);
      ManifestOfDeletions(moved, JudgedOf(plan.judged, false), w2, contents);
      ManifestOfWrites(w2, plan, req, end);
    }
  }

  /**
   One run that gets past the commit, on any disk, whatever its flags and answers and wherever it stops afterwards: the
   manifest stays traced to shipped content.
   */
  lemma RunKeepsTraced(w: World, req: Request, completed: bool, end: World, contents: set<string>)
    requires Ends(w, req, completed, end) && Traced(w.hashes, contents)
    ensures Traced(end.hashes, contents + Contents(req.official))
  {
    var plan := MakePlan(w, req).value;
    var all := contents + Contents(req.official);
    PlanFromRelease(w, plan, req);
    StoredIsTraced(w, req, plan, contents, all);
    var candidate, live0 :| Committed(w, req, plan, candidate, live0) && Aftermath(live0, req, plan, completed, end);
    CommitKeepsTraced(w, req, plan, candidate, live0, all);
    AftermathKeepsTraced(live0, req, plan, completed, end, all);
  }

  lemma StoredIsTraced(w: World, req: Request, plan: Plan, contents: set<string>, all: set<string>)
    requires MakePlan(w, req) == Some(plan) && Traced(w.hashes, contents) && contents <= all
    ensures Traced(plan.stored, all)
  {
    assert plan.stored == w.hashes - req.orphans;
  }

  lemma CommitKeepsTraced(w: World, req: Request, plan: Plan, candidate: World, live0: World, all: set<string>)
    requires FromRelease(plan, req) && Committed(w, req, plan, candidate, live0)
    requires Traced(plan.stored, all) && Contents(req.official) <= all
    ensures Traced(live0.hashes, all)
  {
    ManifestOfCandidate(Seed(w, plan.stored).value, plan, req, candidate, all);
  }

  lemma AftermathKeepsTraced(live0: World, req: Request, plan: Plan, completed: bool, end: World, all: set<string>)
    requires Fits(plan) && Aftermath(live0, req, plan, completed, end) && Traced(live0.hashes, all)
    ensures Traced(end.hashes, all)
  {
    if !Idle(plan, req.flags) {
      if completed {
        ManifestOfFinished(live0, plan, req, end, all);
      } else {
        ManifestOfStopped(live0, plan, req, end, all);
      }
    }
  }

  // ---------- Any number of runs ----------

  /**
   Somebody changes files and directories as they like; an update gets past the commit and leaves `end`, completed or
   not; an update stops before; or the project is initialised again.
   */
  datatype Event =
    | Edit(files: map<Path, File>, dirs: set<Path>)
    | Run(req: Request, completed: bool, end: World)
    | Stop(req: Request, end: World)
    | Init(tracked: Option<seq<Path>>, merge: bool)

  datatype State = State(world: World, contents: set<string>)

  ghost predicate May(s: State, e: Event) {
    match e
    case Edit(_, _) => true
    case Run(req, completed, end) => Ends(s.world, req, completed, end)
    case Stop(req, end) => SameButBackup(s.world, end, req.stamp)
    // What is hashed then must be content that was shipped.
    case Init(tracked, _) => forall p | p in s.world.files && Hashed(s.world, tracked, p) :: ShippedFile(s.world, p, s.contents)
  }

  function Next(s: State, e: Event): State {
    match e
    case Edit(files, dirs) => s.(world := s.world.(files := files, dirs := dirs))
    case Run(req, _, end) => State(end, s.contents + Contents(req.official))
    case Stop(_, end) => s.(world := end)
    case Init(tracked, merge) => s.(world := s.world.(hashes := Initialized(s.world, tracked, merge)))
  }

  function After(s: State, events: seq<Event>): State
    decreases |events|
  {
    if events == [] then s else After(Next(s, events[0]), events[1..])
  }

  /** Every event may happen where it stands. */
  ghost predicate History(s: State, events: seq<Event>)
    decreases |events|
  {
    events == [] || (May(s, events[0]) && History(Next(s, events[0]), events[1..]))
  }

  /** Whatever the initialisation hashes is a template as it was shipped. */
  ghost predicate OnlyTemplatesHashed(installed: World, tracked: Option<seq<Path>>, official: Templates) {
    forall p | Hashed(installed, tracked, p) :: p in official && installed.files[p].bytes == official[p]
  }

  /** A fresh install has written templates, and hashes what it finds. */
  ghost predicate FreshInstall(s: State, official: Templates) {
    && s.contents == Contents(official)
    && exists installed: World, tracked :: OnlyTemplatesHashed(installed, tracked, official)
                                          && s.world.hashes == Initialized(installed, tracked, false)
  }

  /** A hash of a file is that of shipped content. */
  ghost predicate ShippedFile(w: World, p: Path, contents: set<string>)
    requires p in w.files
  {
    Shipped(HashAt(w, p), contents)
  }

  /**
   Exactly when initialising or re-initialising leaves the manifest traced: every file that is hashed must hold shipped
   content, whoever put it there, and a merge must not keep anything else.
   */
  lemma InitializedIsTraced(w: World, tracked: Option<seq<Path>>, merge: bool, contents: set<string>)
    ensures Traced(Initialized(w, tracked, merge), contents)
            <==> && (forall p | p in w.files && Hashed(w, tracked, p) :: ShippedFile(w, p, contents))
                 && (merge ==> forall k | k in w.hashes && !Hashed(w, tracked, k) :: Shipped(w.hashes[k], contents))
  {
    var hashes := Initialized(w, tracked, merge);
    assert forall p | p in w.files && Hashed(w, tracked, p) :: p in hashes && hashes[p] == HashAt(w, p);
    assert forall k | merge && k in w.hashes && !Hashed(w, tracked, k) :: k in hashes && hashes[k] == w.hashes[k];
  }

  lemma TemplateHashIsShipped(p: Path, official: Templates)
    requires p in official
    ensures Shipped(HashForPath(p, official[p]), Contents(official))
  {
    assert official[p] in Contents(official);
    if ExtractBlock(official[p]).Some? {
      assert ExtractBlock(official[p]).value in Contents(official);
    }
  }

  lemma {:induction false} HistoryIsTraced(s: State, events: seq<Event>)
    requires Traced(s.world.hashes, s.contents) && History(s, events)
    ensures Traced(After(s, events).world.hashes, After(s, events).contents)
    decreases |events|
  {
    if events != [] {
      if events[0].Run? {
        RunKeepsTraced(s.world, events[0].req, events[0].completed, events[0].end, s.contents);
      } else if events[0].Init? {
        InitializedIsTraced(s.world, events[0].tracked, events[0].merge, s.contents);
      }
      HistoryIsTraced(Next(s, events[0]), events[1..]);
    }
  }

  lemma FreshInstallIsTraced(s: State, official: Templates)
    requires FreshInstall(s, official)
    ensures Traced(s.world.hashes, s.contents)
  {
    var installed: World, tracked :| OnlyTemplatesHashed(installed, tracked, official)
                                     && s.world.hashes == Initialized(installed, tracked, false);
    forall p | p in installed.files && Hashed(installed, tracked, p)
      ensures ShippedFile(installed, p, s.contents)
    {
      TemplateHashIsShipped(p, official);
    }
    InitializedIsTraced(installed, tracked, false, s.contents);
  }

  /**
   Starting from a fresh install, after any history: an automatic template update replaces only content
   that Pactile itself shipped in that history, up to line ends.
   */
  lemma AutoUpdateReplacesShipped(s0: State, official: Templates, events: seq<Event>, req: Request, plan: Plan, p: Path)
    requires FreshInstall(s0, official) && History(s0, events)
    requires var s := After(s0, events); MakePlan(s.world, req) == Some(plan) && req.Valid()
    requires p in plan.changes.autoUpdate
    ensures var s := After(s0, events);
            && p in s.world.files
            && exists c | c in s.contents :: NormalizeNewlines(s.world.files[p].bytes) == NormalizeNewlines(c)
  {
    var s := After(s0, events);
    FreshInstallIsTraced(s0, official);
    HistoryIsTraced(s0, events);
    StatusLists(s.world, req, plan, p);
    assert plan.stored[p] == s.world.hashes[p];
    var c :| c in s.contents && s.world.hashes[p] == ComputeHash(c);
  }

  /** The same for what migrations delete or rename without asking: the file, or AGENTS.md's block, was shipped. */
  lemma UnmodifiedIsShipped(s0: State, official: Templates, events: seq<Event>, p: Path)
    requires FreshInstall(s0, official) && History(s0, events)
    requires var w := After(s0, events).world; TrackedUnmodified(w, p, w.hashes)
    ensures var s := After(s0, events);
            exists c | c in s.contents ::
              || NormalizeNewlines(s.world.files[p].bytes) == NormalizeNewlines(c)
              || (p == AGENTS && ExtractBlock(s.world.files[p].bytes).Some?
                  && NormalizeNewlines(ExtractBlock(s.world.files[p].bytes).value) == NormalizeNewlines(c))
  {
    var s := After(s0, events);
    FreshInstallIsTraced(s0, official);
    HistoryIsTraced(s0, events);
    assert p in s.world.Entries();
    var c :| c in s.contents && s.world.hashes[p] == ComputeHash(c);
  }
}
