/** A skip-all update moves or keeps user files, and exactly which ones it overwrites after all. */
module UpdateConservation {
  import opened Wrappers
  import opened Text
  import opened Paths
  import opened CanonicalPaths
  import opened Workspace
  import opened Migrations
  import opened MigrationTheorems
  import opened SafeDeletes
  import opened Analysis
  import opened SkipConfigText
  import opened Update
  import opened UpdateRun

  // ---------- What is assumed about the release and the project ----------

  /** No file lies below another file. */
  ghost predicate IsTree(w: World) {
    forall f, g | f in w.files && g in w.files :: !(f < g)
  }

  /** The item names neither the project root nor the workflow root. */
  predicate Proper(item: Item) {
    && item.from != [] && item.from != [WORKFLOW]
    && (HasTarget(item) ==> item.to != [] && item.to != [WORKFLOW])
  }

  /** A renamed canonical directory ends up where the generation walk finds it. */
  predicate TargetStaged(item: Item) {
    HasTarget(item) && CanonicalItem(item) ==> Discovered(item.to)
  }

  ghost predicate StagedItems(items: seq<Item>) {
    forall item | item in items :: Proper(item) && TargetStaged(item)
  }

  ghost predicate SoundItems(items: seq<Item>, w: World) {
    && WellAuthored(items) && StagedItems(items)
    && forall item | item in items :: item.Rename? ==> !w.IsDir(item.from)
  }

  ghost predicate SoundRelease(req: Request) {
    && req.Valid()
    && forall p | p in req.official && IsCanonical(p) :: Discovered(p)
  }

  /** A run that keeps every modified file. */
  predicate SkipAll(req: Request) {
    req.flags.skipAll && !req.flags.force
  }

  // ---------- What is promised ----------

  /** The file is the user's: not a template, not tracked as unmodified, on no allow-list. */
  ghost predicate Precious(w: World, plan: Plan, req: Request, p: Path) {
    && p in w.files
    && !(p in plan.templates && w.files[p].bytes == plan.templates[p])
    && !(p in plan.stored && (plan.stored[p] == ComputeHash(w.files[p].bytes) || TrackedUnmodified(w, p, plan.stored)))
    && (forall item | item in req.allItems :: !Allowed(item, w.files[p]))
    && p != VERSION_FILE && !(BackupDir(req.stamp) <= p)
  }

  function RunItems(plan: Plan, req: Request, canonical: bool): seq<Item> {
    if req.flags.migrate then SortForExecution(ItemsOf(plan.classified.auto, canonical)) else []
  }

  /** The path at which the migrations leave `p`. */
  function Place(plan: Plan, req: Request, p: Path): Option<Path> {
    Fate(RunItems(plan, req, Discovered(p)), p)
  }

  /** The bytes that the run itself puts at each path. */
  function Written(plan: Plan, req: Request): map<Path, string>
    requires Fits(plan)
  {
    (map p | p in plan.changes.newFiles :: plan.templates[p]) + (map p | p in plan.changes.autoUpdate :: plan.templates[p])
    + map[VERSION_FILE := req.version]
  }

  /** A migration moves the file onto a path that the analysis, done before, has marked for writing. */
  ghost predicate Clobbered(w: World, plan: Plan, req: Request, p: Path)
    requires Fits(plan) && p in w.files
  {
    var q := Place(plan, req, p);
    q.Some? && q.value != p && q.value in Written(plan, req) && Written(plan, req)[q.value] != w.files[p].bytes
  }

  /** A directory is renamed onto one above the file, and the scan of that directory does not see the file. */
  ghost predicate Buried(w: World, plan: Plan, req: Request, p: Path)
    requires p in w.files
  {
    exists item | item in RunItems(plan, req, Discovered(p)) :: Buries(w, item, p)
  }

  predicate Buries(w: World, item: Item, p: Path)
    requires p in w.files
  {
    item.RenameDir? && item.to < p && !Scanned(item.to, p, w.files[p])
  }

  /** In the config file, the skip entries that the run makes stale are gone; everywhere else nothing is. */
  function AfterPruning(q: Path, bytes: string, after: World, official: Templates): string {
    if q == CONFIG then EditText(bytes, set s | s in ReadText(bytes) && StaleSkip(s, after, official)) else bytes
  }

  ghost predicate Kept(w: World, plan: Plan, req: Request, p: Path, after: World)
    requires p in w.files
  {
    var q := Place(plan, req, p);
    && q.Some? && q.value in after.files
    && after.files[q.value].bytes == AfterPruning(q.value, w.files[p].bytes, after, req.official)
  }

  // ---------- Lists ----------

  lemma {:induction false} ItemsOfExact(items: seq<Item>, canonical: bool)
    ensures forall x :: x in ItemsOf(items, canonical) <==> x in items && CanonicalItem(x) == canonical
  {
    if items != [] {
      ItemsOfExact(items[..|items| - 1], canonical);
      assert items == items[..|items| - 1] + [items[|items| - 1]];
    }
  }

  lemma {:induction false} ItemsOfWellAuthored(items: seq<Item>, canonical: bool)
    requires WellAuthored(items)
    ensures WellAuthored(ItemsOf(items, canonical))
  {
    if items != [] {
      var n := |items| - 1;
      var some := ItemsOf(items[..n], canonical);
      ItemsOfWellAuthored(items[..n], canonical);
      ItemsOfExact(items[..n], canonical);
      forall i | 0 <= i < |some|
        ensures Compatible(some[i], items[n])
      {
        assert some[i] in some;
        var k :| 0 <= k < n && items[..n][k] == some[i];
        assert Compatible(items[k], items[n]);
      }
    }
  }

  lemma {:induction false} JudgedOfSubset(judged: seq<Judged>, canonical: bool)
    ensures forall j | j in JudgedOf(judged, canonical) :: j in judged
  {
    if judged != [] {
      JudgedOfSubset(judged[..|judged| - 1], canonical);
    }
  }

  lemma {:induction false} LeaveAloneConfirms(w: World, items: seq<Item>, choose: Item -> Action)
    requires forall item :: choose(item) == LeaveAlone
    ensures ExecuteConfirms(w, items, choose) == Some(w)
    decreases |items|
  {
    if items != [] {
      LeaveAloneConfirms(w, items[1..], choose);
    }
  }

  lemma OneWrite(w: World, p: Path, bytes: string)
    requires w.WriteFile(p, bytes).Some?
    ensures var w' := w.WriteFile(p, bytes).value;
            && w'.hashes == w.hashes && w'.files.Keys == w.files.Keys + {p} && w'.files[p].bytes == bytes
            && forall q | q in w.files && q != p :: w'.files[q] == w.files[q]
  {
  }

  /** What a list of writes does to the files. */
  lemma {:induction false} WriteAllFiles(w: World, ws: seq<Write>, w': World)
    requires WriteAll(w, ws) == Some(w')
    ensures w'.hashes == w.hashes && w'.files.Keys == w.files.Keys + LastBytes(ws).Keys
    ensures forall p | p in LastBytes(ws) :: w'.files[p].bytes == LastBytes(ws)[p]
    ensures forall p | p in w.files && p !in LastBytes(ws) :: w'.files[p] == w.files[p]
    decreases |ws|
  {
    if ws != [] {
      var n := |ws| - 1;
      assert ws == ws[..n] + [ws[n]];
      WriteAllAppend(w, ws[..n], [ws[n]]);
      var w1 := WriteAll(w, ws[..n]).value;
      WriteAllFiles(w, ws[..n], w1);
      WriteAllStep(w1, ws[n], []);
      assert [ws[n]] + [] == [ws[n]];
      OneWrite(w1, ws[n].path, ws[n].bytes);
    }
  }

  lemma {:induction false} LastBytesOfCopies(paths: seq<Path>, templates: Templates, canonical: bool)
    requires forall p | p in paths :: p in templates
    ensures forall w | w in WritesOf(Copies(paths, templates), canonical) ::
              w.path in paths && IsCanonical(w.path) == canonical && w.bytes == templates[w.path]
    ensures forall p | p in paths && IsCanonical(p) == canonical ::
              Write(p, templates[p]) in WritesOf(Copies(paths, templates), canonical)
  {
    if paths != [] {
      LastBytesOfCopies(paths[1..], templates, canonical);
      assert paths == [paths[0]] + paths[1..];
    }
  }

  lemma {:induction false} LastBytesOf(ws: seq<Write>, bytes: Templates)
    requires forall w | w in ws :: w.path in bytes && w.bytes == bytes[w.path]
    ensures forall p :: p in LastBytes(ws) <==> exists w | w in ws :: w.path == p
    ensures forall p | p in LastBytes(ws) :: p in bytes && LastBytes(ws)[p] == bytes[p]
  {
    if ws != [] {
      var n := |ws| - 1;
      LastBytesOf(ws[..n], bytes);
      assert ws == ws[..n] + [ws[n]];
      forall p
        ensures p in LastBytes(ws) <==> exists w | w in ws :: w.path == p
      {
        if p in LastBytes(ws[..n]) {
          var w :| w in ws[..n] && w.path == p;
          assert w in ws;
        }
        if p == ws[n].path {
          assert ws[n] in ws;
        }
      }
    }
  }

  lemma {:induction false} KeepingWritesNothing(changed: seq<Path>, templates: Templates, resolve: Path -> Resolution)
    requires (forall p | p in changed :: p in templates) && forall p :: resolve(p) == KeepMine
    ensures ChangedWrites(changed, templates, resolve) == []
  {
    if changed != [] {
      KeepingWritesNothing(changed[1..], templates, resolve);
    }
  }

  /** A skip-all run writes the new and the auto-updated templates and nothing else. */
  lemma SkipAllWrites(plan: Plan, resolve: Path -> Resolution, canonical: bool)
    requires Fits(plan) && forall p :: resolve(p) == KeepMine
    ensures var last := LastBytes(WritesOf(TemplateWrites(plan, resolve), canonical));
            && (forall p :: p in last <==> (p in plan.changes.newFiles || p in plan.changes.autoUpdate) && IsCanonical(p) == canonical)
            && forall p | p in last :: last[p] == plan.templates[p]
  {
    var c := plan.changes;
    var a, b := Copies(c.newFiles, plan.templates), Copies(c.autoUpdate, plan.templates);
    KeepingWritesNothing(c.changed, plan.templates, resolve);
    assert TemplateWrites(plan, resolve) == a + b;
    WritesOfAppend(a, b, canonical);
    LastBytesOfBoth(c.newFiles, c.autoUpdate, plan.templates, canonical, WritesOf(a, canonical) + WritesOf(b, canonical));
  }

  lemma LastBytesOfBoth(some: seq<Path>, more: seq<Path>, templates: Templates, canonical: bool, ws: seq<Write>)
    requires forall p | p in some || p in more :: p in templates
    requires ws == WritesOf(Copies(some, templates), canonical) + WritesOf(Copies(more, templates), canonical)
    ensures forall p :: p in LastBytes(ws) <==> (p in some || p in more) && IsCanonical(p) == canonical
    ensures forall p | p in LastBytes(ws) :: LastBytes(ws)[p] == templates[p]
  {
    LastBytesOfCopies(some, templates, canonical);
    LastBytesOfCopies(more, templates, canonical);
    LastBytesOf(ws, templates);
    forall p | (p in some || p in more) && IsCanonical(p) == canonical
      ensures p in LastBytes(ws)
    {
      assert Write(p, templates[p]) in ws;
    }
  }

  // ---------- The phases of a skip-all run ----------

  /** The states a non-idle skip-all run goes through. */
  datatype Phases = Phases(build0: World, build1: World, build2: World, build3: World, build4: World, candidate: World,
                           backed: World, live0: World, live1: World, live2: World, live3: World)

  ghost predicate Builds(w: World, req: Request, plan: Plan, s: Phases)
    requires Fits(plan)
  {
    && Seed(w, plan.stored) == Some(s.build0)
    && ExecuteAutos(s.build0, RunItems(plan, req, true)) == Some(s.build1)
    && s.build2 == DeleteAll(s.build1, JudgedOf(plan.judged, true))
    && WriteAll(s.build2, WritesOf(TemplateWrites(plan, req.Resolver()), true)) == Some(s.build3)
    && s.build3.WriteFile(VERSION_FILE, req.version) == Some(s.build4)
    && s.candidate.files == s.build4.files
  }

  ghost predicate SameButConfig(before: World, after: World) {
    && after.files.Keys == before.files.Keys
    && forall q | q in before.files && q != CONFIG :: after.files[q] == before.files[q]
  }

  lemma PruneTouchesConfigOnly(w: World, official: Templates)
    ensures SameButConfig(w, PruneSkips(w, official))
  {
  }

  /** An entry that names the config file is never stale, so pruning leaves the stale entries what they are. */
  lemma StaleStaysStale(w: World, official: Templates, s: string)
    ensures StaleSkip(s, w, official) <==> StaleSkip(s, PruneSkips(w, official), official)
  {
    JoinSplit(s, '/');
    PruneTouchesConfigOnly(w, official);
    assert Posix(CONFIG) == JoinWith(CONFIG, "/");
  }

  lemma Pruned(w: World, official: Templates, q: Path)
    requires q in w.files
    ensures q in PruneSkips(w, official).files
    ensures PruneSkips(w, official).files[q].bytes == AfterPruning(q, w.files[q].bytes, PruneSkips(w, official), official)
  {
    if q == CONFIG {
      var bytes, after := w.files[CONFIG].bytes, PruneSkips(w, official);
      var stale := set s | s in LoadSkips(w) && StaleSkip(s, w, official);
      forall s
        ensures s in stale <==> s in ReadText(bytes) && StaleSkip(s, after, official)
      {
        StaleStaysStale(w, official, s);
      }
      assert stale == set s | s in ReadText(bytes) && StaleSkip(s, after, official);
    }
  }

  ghost predicate Finishes(w: World, req: Request, plan: Plan, s: Phases, after: World)
    requires Fits(plan)
  {
    && Backup(w, req.stamp) == Some(s.backed) && SameButBackup(w, s.backed, req.stamp)
    && Commit(s.backed, s.candidate) == Some(s.live0)
    && ExecuteAutos(s.live0, RunItems(plan, req, false)) == Some(s.live1)
    && s.live2 == DeleteAll(s.live1, JudgedOf(plan.judged, false))
    && WriteAll(s.live2, WritesOf(TemplateWrites(plan, req.Resolver()), false)) == Some(s.live3)
    && after == PruneSkips(s.live3, req.official)
  }

  lemma ExecuteSkipAll(w: World, c: Classified, req: Request)
    requires SkipAll(req)
    ensures Execute(w, c, req.Chooser()) == ExecuteAutos(w, SortForExecution(c.auto))
  {
    var w1 := ExecuteAutos(w, SortForExecution(c.auto));
    if w1.Some? {
      LeaveAloneConfirms(w1.value, c.confirm, req.Chooser());
    }
  }

  lemma PhasesOf(w: World, req: Request, plan: Plan, after: World) returns (s: Phases)
    requires SkipAll(req) && MakePlan(w, req) == Some(plan) && !Idle(plan, req.flags)
    requires UpdateSpec(w, req) == Some(after)
    ensures Fits(plan) && Builds(w, req, plan, s) && Finishes(w, req, plan, s, after)
    ensures req.flags.migrate ==> forall item | item in plan.classified.auto :: !Crosses(item)
  {
    PlanFits(w, req);
    var writes := TemplateWrites(plan, req.Resolver());
    var build0 := Seed(w, plan.stored).value;
    var build1 := build0;
    if req.flags.migrate {
      var part := PartOf(plan.classified, true).value;
      ExecuteSkipAll(build0, part, req);
      build1 := Execute(build0, part, req.Chooser()).value;
      forall item | item in plan.classified.auto
        ensures !Crosses(item)
      {
        assert item in AllItems(plan.classified);
      }
    }
    var build2 := DeleteAll(build1, JudgedOf(plan.judged, true));
    var build3 := WriteAll(build2, WritesOf(writes, true)).value;
    var build4 := build3.WriteFile(VERSION_FILE, req.version).value;
    var candidate := Candidate(build0, plan, req).value;
    var backed := Backup(w, req.stamp).value;
    var live0 := Commit(backed, candidate).value;
    var live1 := live0;
    if req.flags.migrate {
      var part := PartOf(plan.classified, false).value;
      ExecuteSkipAll(live0, part, req);
      live1 := Execute(live0, part, req.Chooser()).value;
    }
    var live2 := DeleteAll(live1, JudgedOf(plan.judged, false));
    var live3 := WriteAll(live2, WritesOf(writes, false)).value;
    BackupOnlyAdds(w, req.stamp);
    s := Phases(build0, build1, build2, build3, build4, candidate, backed, live0, live1, live2, live3);
  }

  // ---------- Migrations and precious files ----------

  lemma AutoItem(w: World, req: Request, plan: Plan, item: Item)
    requires MakePlan(w, req) == Some(plan) && item in plan.classified.auto
    ensures item in req.items && ClassOf(item, w, plan.templates, plan.stored) == Some(Auto)
  {
    PickSound(req.items, Auto, w, plan.templates, plan.stored, item);
  }

  lemma SafeDirectoryIsPristine(w: World, dir: Path, templates: Templates, stored: Manifest, p: Path)
    requires DirectorySafeToReplace(w, dir, templates, stored) == Some(true)
    requires p in w.files && dir <= p && (dir < p ==> Scanned(dir, p, w.files[p]))
    ensures Pristine(w, p, templates, stored)
  {
    assert p in w.Entries();
    if dir != p {
      PrefixOrProper(dir, p);
      assert SafeEntry(w, dir, p, templates, stored);
    }
  }

  /** Why a file rename is automatic. */
  lemma AutoRenameCases(w: World, item: Item, templates: Templates, stored: Manifest)
    requires item.Rename? && ClassOf(item, w, templates, stored) == Some(Auto)
    ensures || (item.to in w.files && item.to in templates && w.files[item.to].bytes == templates[item.to])
            || TrackedUnmodified(w, item.from, stored)
  {
  }

  /** No automatic item destroys a precious file where it lies, unless the file is hidden below its target. */
  lemma AutoSpares(w: World, req: Request, plan: Plan, item: Item, p: Path)
    requires MakePlan(w, req) == Some(plan) && item in plan.classified.auto
    requires Precious(w, plan, req, p)
    ensures FateStep(item, p).None? <==> Buries(w, item, p)
  {
    AutoItem(w, req, plan, item);
    assert p in w.Entries();
    match item {
      case Rename(from, to) =>
      case RenameDir(from, to) =>
        if to <= p && !Buries(w, item, p) {
          SafeDirectoryIsPristine(w, to, plan.templates, plan.stored, p);
        }
      case Delete(from) =>
      case _ =>
    }
  }

  /** A file rename takes a precious file only onto a path that the run does not write. */
  lemma RenameIsNotOverwritten(w: World, req: Request, plan: Plan, item: Item, p: Path)
    requires MakePlan(w, req) == Some(plan) && Fits(plan) && item in plan.classified.auto && item.Rename?
    requires req.Valid() && IsTree(w) && !w.IsDir(item.from) && Precious(w, plan, req, p) && item.from <= p
    ensures Rebase(p, item.from, item.to) !in Written(plan, req)
  {
    AutoItem(w, req, plan, item);
    AutoRenameCases(w, item, plan.templates, plan.stored);
    assert p in w.Entries() && w.Exists(item.from);
    if item.from != p {
      PrefixOrProper(item.from, p);
    }
    assert Rebase(p, item.from, item.to) == item.to;
    if item.to in w.files && item.to in plan.templates && w.files[item.to].bytes == plan.templates[item.to] {
      UpToDateIsNotWritten(w, req, plan, item.to);
    }
  }

  lemma UpToDateIsNotWritten(w: World, req: Request, plan: Plan, p: Path)
    requires MakePlan(w, req) == Some(plan) && Fits(plan) && req.Valid()
    requires p in w.files && p in plan.templates && w.files[p].bytes == plan.templates[p]
    ensures p !in Written(plan, req)
  {
    var keys := WantedOrder(req.order, plan.templates);
    assert p in w.Entries();
    SelectExact(keys, New, w, plan.templates, plan.stored);
    SelectExact(keys, AutoUpdate, w, plan.templates, plan.stored);
    assert p in req.official;
  }

  lemma RunItemsAre(plan: Plan, req: Request, canonical: bool)
    ensures forall item | item in RunItems(plan, req, canonical) ::
              item in plan.classified.auto && CanonicalItem(item) == canonical && req.flags.migrate
  {
    var some := ItemsOf(plan.classified.auto, canonical);
    ItemsOfExact(plan.classified.auto, canonical);
    SortContents(some);
    forall item | item in SortForExecution(some)
      ensures item in some
    {
      assert item in multiset(SortForExecution(some));
    }
  }

  lemma RunItemsApart(plan: Plan, req: Request, canonical: bool, w: World)
    requires SoundItems(plan.classified.auto, w)
    ensures AllApart(RunItems(plan, req, canonical))
    ensures forall item | item in RunItems(plan, req, canonical) ::
              item in plan.classified.auto && CanonicalItem(item) == canonical && req.flags.migrate
  {
    ItemsOfWellAuthored(plan.classified.auto, canonical);
    SortedApart(ItemsOf(plan.classified.auto, canonical));
    RunItemsAre(plan, req, canonical);
  }

  lemma TouchingItem(items: seq<Item>, p: Path, item: Item) returns (i: nat)
    requires AllApart(items) && item in items && Touches(item, p)
    ensures i < |items| && Touches(items[i], p) && Fate(items, p) == FateStep(items[i], p)
  {
    assert !Untouched(items, p) by {
      var k :| 0 <= k < |items| && items[k] == item;
      assert FateStep(items[k], p) != Some(p);
    }
    i := FirstTouch(items, p);
    FirstTouchDecides(items, p, i);
  }

  /** A precious file has a place unless it is buried, and leaves its own only for a target of the item that moves it. */
  lemma PreciousHasPlace(w: World, req: Request, plan: Plan, p: Path) returns (q: Path, mover: Item)
    requires MakePlan(w, req) == Some(plan) && Fits(plan)
    requires SoundItems(plan.classified.auto, w) && Precious(w, plan, req, p) && !Buried(w, plan, req, p)
    ensures Place(plan, req, p) == Some(q)
    ensures q != p ==> mover in plan.classified.auto && CanonicalItem(mover) == Discovered(p) && HasTarget(mover)
                       && mover.from <= p && q == Rebase(p, mover.from, mover.to) && req.flags.migrate
  {
    var items := RunItems(plan, req, Discovered(p));
    RunItemsApart(plan, req, Discovered(p), w);
    if Untouched(items, p) {
      UntouchedStays(items, p);
      q, mover := p, Delete(p);
    } else {
      var i := FirstTouch(items, p);
      FirstTouchDecides(items, p, i);
      mover := items[i];
      assert mover in items;
      AutoSpares(w, req, plan, mover, p);
      q := FateStep(mover, p).value;
    }
  }

  lemma NotBothAbove(a: Path, b: Path, p: Path)
    requires Disjoint(a, b)
    ensures !(a <= p && b <= p)
  {
  }

  /** A file below the target of a directory rename is not moved away before, for sources and targets are apart. */
  lemma BuriedHasNoPlace(w: World, req: Request, plan: Plan, p: Path)
    requires SoundItems(plan.classified.auto, w) && p in w.files && Buried(w, plan, req, p)
    ensures Place(plan, req, p).None?
  {
    var items := RunItems(plan, req, Discovered(p));
    RunItemsApart(plan, req, Discovered(p), w);
    var item :| item in items && Buries(w, item, p);
    var i := TouchingItem(items, p, item);
    var n :| 0 <= n < |items| && items[n] == item;
    PairApart(items, n, i);
    NotBothAbove(item.to, items[i].from, p);
    if i != n && HasTarget(items[i]) {
      NotBothAbove(item.to, items[i].to, p);
    }
  }

  /** Only directory renames can move a precious file onto a path that the run writes. */
  lemma ClobberedByRenameDir(w: World, req: Request, plan: Plan, p: Path) returns (mover: Item)
    requires MakePlan(w, req) == Some(plan) && Fits(plan) && req.Valid() && IsTree(w)
    requires SoundItems(plan.classified.auto, w) && Precious(w, plan, req, p) && Clobbered(w, plan, req, p)
    ensures mover in plan.classified.auto && mover.RenameDir? && mover.from <= p
    ensures Rebase(p, mover.from, mover.to) in Written(plan, req)
  {
    var q;
    if Buried(w, plan, req, p) {
      BuriedHasNoPlace(w, req, plan, p);
    }
    q, mover := PreciousHasPlace(w, req, plan, p);
    if mover.Rename? {
      RenameIsNotOverwritten(w, req, plan, mover, p);
    }
  }

  // ---------- From the phases to the final files ----------

  lemma VersionIsDiscovered()
    ensures Discovered(VERSION_FILE)
  {
    var name := ".version";
    assert VERSION_FILE[..2] == VERSION_FILE && name[4..] == "sion" && name[1] == 'v' && ".backup-"[1] == 'b';
    assert |"__pycache__"| == 11 && |WORKFLOW| == 8 && |name| == 8;
  }

  /** The run does not write where an untouched precious file lies. */
  lemma PreciousIsNotWritten(w: World, req: Request, plan: Plan, p: Path)
    requires MakePlan(w, req) == Some(plan) && Fits(plan) && Precious(w, plan, req, p)
    ensures p !in Written(plan, req)
  {
    var keys := WantedOrder(req.order, plan.templates);
    assert p in w.Entries();
    SelectExact(keys, New, w, plan.templates, plan.stored);
    SelectExact(keys, AutoUpdate, w, plan.templates, plan.stored);
  }

  lemma DeletionSpares(w: World, req: Request, plan: Plan, canonical: bool, p: Path, q: Path)
    requires MakePlan(w, req) == Some(plan) && Precious(w, plan, req, p)
    ensures !Deletes(JudgedOf(plan.judged, canonical), q, w.files[p])
  {
    if Deletes(JudgedOf(plan.judged, canonical), q, w.files[p]) {
      var j :| j in JudgedOf(plan.judged, canonical) && j.item.from == q && Allowed(j.item, w.files[p]);
      JudgedOfSubset(plan.judged, canonical);
      JudgedSound(req.allItems, w, LoadSkips(w), req.bypass, j);
    }
  }

  /** Bytes at `q` after the run has written over a file with content `bytes`. */
  function Overwritten(plan: Plan, req: Request, q: Path, bytes: string): string
    requires Fits(plan)
  {
    if q in Written(plan, req) then Written(plan, req)[q] else bytes
  }

  /** Migrations, deletions and writes on one tree, seen from one file. */
  lemma StagesOn(start: World, items: seq<Item>, mid: World, judged: seq<Judged>, ws: seq<Write>, end: World, p: Path, q: Path)
    requires ExecuteAutos(start, items) == Some(mid) && WriteAll(DeleteAll(mid, judged), ws) == Some(end)
    requires p in start.files && Fate(items, p) == Some(q) && !Deletes(judged, q, start.files[p])
    ensures q in end.files
    ensures end.files[q].bytes == if q in LastBytes(ws) then LastBytes(ws)[q] else start.files[p].bytes
  {
    ExecutionFollowsFate(start, items, mid);
    assert mid.files[q] == start.files[p];
    DeleteAllExact(mid, judged);
    WriteAllFiles(DeleteAll(mid, judged), ws, end);
  }

  lemma StagedContent(w: World, req: Request, plan: Plan, s: Phases, p: Path, q: Path)
    requires Fits(plan) && SkipAll(req) && Builds(w, req, plan, s)
    requires p in w.files && Discovered(p) && Fate(RunItems(plan, req, true), p) == Some(q) && IsCanonical(q)
    requires !Deletes(JudgedOf(plan.judged, true), q, w.files[p])
    ensures q in s.candidate.files && s.candidate.files[q].bytes == Overwritten(plan, req, q, w.files[p].bytes)
  {
    var resolve := req.Resolver();
    StagesOn(s.build0, RunItems(plan, req, true), s.build1, JudgedOf(plan.judged, true),
             WritesOf(TemplateWrites(plan, resolve), true), s.build3, p, q);
    CanonicalOverwritten(plan, req, q, w.files[p].bytes);
    OneWrite(s.build3, VERSION_FILE, req.version);
  }

  lemma CommitContent(live: World, build: World, after: World)
    requires Commit(live, build) == Some(after)
    ensures forall q | q in build.files && Discovered(q) :: q in after.files && after.files[q] == build.files[q]
    ensures forall q | q in live.files && !Discovered(q) :: q in after.files && after.files[q] == live.files[q]
  {
  }

  lemma LiveItemsSpareCanonical(w: World, req: Request, plan: Plan, q: Path)
    requires StagedItems(plan.classified.auto) && Discovered(q)
    requires req.flags.migrate ==> forall item | item in plan.classified.auto :: !Crosses(item)
    ensures Fate(RunItems(plan, req, false), q) == Some(q)
  {
    var items := RunItems(plan, req, false);
    RunItemsAre(plan, req, false);
    forall i | 0 <= i < |items|
      ensures FateStep(items[i], q) == Some(q)
    {
      assert items[i] in items;
      LiveItemSparesCanonical(items[i], q);
    }
    UntouchedStays(items, q);
  }

  /** After the commit nothing but the pruning touches the canonical files any more. */
  lemma CommittedContent(w: World, req: Request, plan: Plan, s: Phases, after: World, q: Path)
    requires Fits(plan) && SkipAll(req) && Finishes(w, req, plan, s, after)
    requires Fate(RunItems(plan, req, false), q) == Some(q)
    requires q in s.candidate.files && Discovered(q)
    ensures q in after.files
    ensures after.files[q].bytes == AfterPruning(q, s.candidate.files[q].bytes, after, req.official)
  {
    CommittedContentBefore(w, req, plan, s, after, q);
    Pruned(s.live3, req.official, q);
  }

  lemma CommittedContentBefore(w: World, req: Request, plan: Plan, s: Phases, after: World, q: Path)
    requires Fits(plan) && SkipAll(req) && Finishes(w, req, plan, s, after)
    requires Fate(RunItems(plan, req, false), q) == Some(q)
    requires q in s.candidate.files && Discovered(q)
    ensures q in s.live3.files && s.live3.files[q].bytes == s.candidate.files[q].bytes
  {
    var resolve := req.Resolver();
    DiscoveredIsCanonical(q, q);
    CommitContent(s.backed, s.candidate, s.live0);
    JudgedOfLive(plan.judged);
    StagesOn(s.live0, RunItems(plan, req, false), s.live1, JudgedOf(plan.judged, false),
             WritesOf(TemplateWrites(plan, resolve), false), s.live3, q, q);
    SkipAllWrites(plan, resolve, false);
  }

  lemma {:induction false} JudgedOfLive(judged: seq<Judged>)
    ensures forall j | j in JudgedOf(judged, false) :: !IsCanonical(j.item.from)
  {
    if judged != [] {
      JudgedOfLive(judged[..|judged| - 1]);
    }
  }

  lemma LiveItemSparesCanonical(item: Item, q: Path)
    requires Proper(item) && !CanonicalItem(item) && !Crosses(item) && Discovered(q)
    ensures FateStep(item, q) == Some(q)
  {
    if item.from <= q {
      DiscoveredIsCanonical(q, item.from);
    }
    if HasTarget(item) && item.to <= q {
      DiscoveredIsCanonical(q, item.to);
    }
  }

  lemma LiveStages(w: World, req: Request, plan: Plan, s: Phases, after: World, p: Path, q: Path)
    requires Fits(plan) && Finishes(w, req, plan, s, after)
    requires p in w.files && !Discovered(p) && !(BackupDir(req.stamp) <= p)
    requires Fate(RunItems(plan, req, false), p) == Some(q) && !Deletes(JudgedOf(plan.judged, false), q, w.files[p])
    ensures var last := LastBytes(WritesOf(TemplateWrites(plan, req.Resolver()), false));
            q in s.live3.files && s.live3.files[q].bytes == if q in last then last[q] else w.files[p].bytes
  {
    CommitContent(s.backed, s.candidate, s.live0);
    assert s.live0.files[p] == w.files[p];
    StagesOn(s.live0, RunItems(plan, req, false), s.live1, JudgedOf(plan.judged, false),
             WritesOf(TemplateWrites(plan, req.Resolver()), false), s.live3, p, q);
  }

  lemma LiveContent(w: World, req: Request, plan: Plan, s: Phases, after: World, p: Path, q: Path)
    requires Fits(plan) && SkipAll(req) && Finishes(w, req, plan, s, after)
    requires p in w.files && !Discovered(p) && !(BackupDir(req.stamp) <= p)
    requires Fate(RunItems(plan, req, false), p) == Some(q)
    requires q in Written(plan, req) ==> !IsCanonical(q)
    requires !Deletes(JudgedOf(plan.judged, false), q, w.files[p])
    ensures q in after.files
    ensures after.files[q].bytes == AfterPruning(q, Overwritten(plan, req, q, w.files[p].bytes), after, req.official)
  {
    LiveStages(w, req, plan, s, after, p, q);
    Pruned(s.live3, req.official, q);
    LiveOverwritten(plan, req, q, w.files[p].bytes);
  }

  /** The live writes at a path that is not of the generation are all writes there. */
  lemma LiveOverwritten(plan: Plan, req: Request, q: Path, bytes: string)
    requires Fits(plan) && SkipAll(req) && (q in Written(plan, req) ==> !IsCanonical(q))
    ensures var last := LastBytes(WritesOf(TemplateWrites(plan, req.Resolver()), false));
            Overwritten(plan, req, q, bytes) == if q in last then last[q] else bytes
  {
    SkipAllWrites(plan, req.Resolver(), false);
    VersionIsDiscovered();
    DiscoveredIsCanonical(VERSION_FILE, VERSION_FILE);
  }

  /** The canonical writes and the version file are all writes at a generation path. */
  lemma CanonicalOverwritten(plan: Plan, req: Request, q: Path, bytes: string)
    requires Fits(plan) && SkipAll(req) && IsCanonical(q)
    ensures var last := LastBytes(WritesOf(TemplateWrites(plan, req.Resolver()), true));
            Overwritten(plan, req, q, bytes)
            == if q == VERSION_FILE then req.version else if q in last then last[q] else bytes
  {
    SkipAllWrites(plan, req.Resolver(), true);
  }

  lemma MovedLiveFileIsLive(item: Item, q: Path, official: Templates)
    requires HasTarget(item) && Proper(item) && !CanonicalItem(item) && !Crosses(item) && item.to <= q
    requires forall t | t in official && IsCanonical(t) :: Discovered(t)
    ensures q in official || q == VERSION_FILE ==> !IsCanonical(q)
  {
    VersionIsDiscovered();
    if (q in official || q == VERSION_FILE) && IsCanonical(q) {
      DiscoveredIsCanonical(q, item.to);
    }
  }

  /** Generation files stay in the generation, whatever the order of the moves. */
  lemma {:induction false} FateInGeneration(items: seq<Item>, p: Path, q: Path)
    requires forall item | item in items :: Proper(item) && TargetStaged(item) && CanonicalItem(item)
    requires Discovered(p) && Fate(items, p) == Some(q)
    ensures Discovered(q)
  {
    if items != [] {
      var item, p1 := items[0], FateStep(items[0], p).value;
      assert forall x | x in items[1..] :: x in items;
      if p1 != p {
        assert item in items && item.from in ItemPaths(item);
        RebaseDiscovered(p, item.from, item.to);
      }
      FateInGeneration(items[1..], p1, q);
    }
  }

  /** A file that has moved lies below the target of some item. */
  lemma {:induction false} FateBelowTarget(items: seq<Item>, p: Path, q: Path) returns (mover: Item)
    requires Fate(items, p) == Some(q) && q != p
    ensures mover in items && HasTarget(mover) && mover.to <= q
  {
    var p1 := FateStep(items[0], p).value;
    if p1 == q {
      mover := items[0];
    } else {
      mover := FateBelowTarget(items[1..], p1, q);
    }
  }

  /**
   Conservation. In a skip-all run that gets to its end, every user file is afterwards where the migrations put it, with
   its bytes, exactly when they do not destroy it and do not put it onto a path that the run writes; the items may
   overlap as they like. The user's own config file may lose stale skip entries.
   */
  lemma UserFilesKept(w: World, req: Request, plan: Plan, after: World, p: Path)
    requires SoundRelease(req) && SkipAll(req) && UpdateSpec(w, req) == Some(after)
    requires MakePlan(w, req) == Some(plan) && Fits(plan) && !Idle(plan, req.flags) && StagedItems(plan.classified.auto)
    requires Precious(w, plan, req, p)
    ensures Place(plan, req, p).Some? && !Clobbered(w, plan, req, p) ==> Kept(w, plan, req, p, after)
    ensures Kept(w, plan, req, p, after) ==>
              Place(plan, req, p).Some? && (Clobbered(w, plan, req, p) ==> Place(plan, req, p) == Some(CONFIG))
  {
    if Place(plan, req, p).Some? {
      ContentAtPlace(w, req, plan, after, p, Place(plan, req, p).value);
      PreciousIsNotWritten(w, req, plan, p);
    }
  }

  /** Among well-authored items, the migrations destroy a user file exactly when it is buried. */
  lemma LostExactly(w: World, req: Request, plan: Plan, p: Path)
    requires MakePlan(w, req) == Some(plan) && Fits(plan) && SoundItems(plan.classified.auto, w) && Precious(w, plan, req, p)
    ensures Place(plan, req, p).None? <==> Buried(w, plan, req, p)
  {
    if Buried(w, plan, req, p) {
      BuriedHasNoPlace(w, req, plan, p);
    } else {
      var q, mover := PreciousHasPlace(w, req, plan, p);
    }
  }

  /** What a skip-all run leaves at the place of a user file. */
  lemma ContentAtPlace(w: World, req: Request, plan: Plan, after: World, p: Path, q: Path)
    requires SoundRelease(req) && SkipAll(req) && UpdateSpec(w, req) == Some(after)
    requires MakePlan(w, req) == Some(plan) && Fits(plan) && !Idle(plan, req.flags) && StagedItems(plan.classified.auto)
    requires Precious(w, plan, req, p) && Place(plan, req, p) == Some(q)
    ensures q in after.files
    ensures after.files[q].bytes == AfterPruning(q, Overwritten(plan, req, q, w.files[p].bytes), after, req.official)
  {
    var s := PhasesOf(w, req, plan, after);
    PlaceIsOnItsSide(w, req, plan, p, q);
    DeletionSpares(w, req, plan, Discovered(p), p, q);
    if Discovered(p) {
      CanonicalAtPlace(w, req, plan, s, after, p, q);
    } else {
      LiveContent(w, req, plan, s, after, p, q);
    }
  }

  /** The place of a user file: generation files stay in the generation, others out of what the run writes there. */
  lemma PlaceIsOnItsSide(w: World, req: Request, plan: Plan, p: Path, q: Path)
    requires SoundRelease(req) && MakePlan(w, req) == Some(plan) && Fits(plan) && StagedItems(plan.classified.auto)
    requires req.flags.migrate ==> forall item | item in plan.classified.auto :: !Crosses(item)
    requires Precious(w, plan, req, p) && Place(plan, req, p) == Some(q)
    ensures if Discovered(p) then Discovered(q) else q in Written(plan, req) ==> !IsCanonical(q)
  {
    RunItemsAre(plan, req, Discovered(p));
    if Discovered(p) {
      FateInGeneration(RunItems(plan, req, true), p, q);
    } else if q == p {
      PreciousIsNotWritten(w, req, plan, p);
    } else {
      var mover := FateBelowTarget(RunItems(plan, req, false), p, q);
      TemplatesAreOfficial(w, req, plan);
      WrittenIsOfficial(plan, req);
      MovedLiveFileIsLive(mover, q, req.official);
    }
  }

  lemma CanonicalAtPlace(w: World, req: Request, plan: Plan, s: Phases, after: World, p: Path, q: Path)
    requires Fits(plan) && SkipAll(req) && Builds(w, req, plan, s) && Finishes(w, req, plan, s, after)
    requires StagedItems(plan.classified.auto)
    requires req.flags.migrate ==> forall item | item in plan.classified.auto :: !Crosses(item)
    requires p in w.files && Discovered(p) && Discovered(q) && Fate(RunItems(plan, req, true), p) == Some(q)
    requires !Deletes(JudgedOf(plan.judged, true), q, w.files[p])
    ensures q in after.files
    ensures after.files[q].bytes == AfterPruning(q, Overwritten(plan, req, q, w.files[p].bytes), after, req.official)
  {
    DiscoveredIsCanonical(q, q);
    StagedContent(w, req, plan, s, p, q);
    LiveItemsSpareCanonical(w, req, plan, q);
    CommittedContent(w, req, plan, s, after, q);
  }

  lemma WrittenIsOfficial(plan: Plan, req: Request)
    requires Fits(plan) && forall q | q in plan.templates :: q in req.official
    ensures forall q | q in Written(plan, req) :: q in req.official || q == VERSION_FILE
  {
  }

  lemma TemplatesAreOfficial(w: World, req: Request, plan: Plan)
    requires MakePlan(w, req) == Some(plan)
    ensures forall q | q in plan.templates :: q in req.official
  {
  }

  // ---------- Buried files ----------

  ghost predicate Lacks(w: World, bytes: string) {
    forall q | q in w.files :: w.files[q].bytes != bytes
  }

  /** Only `p` may have the bytes. */
  ghost predicate OnlyAt(w: World, p: Path, bytes: string) {
    forall q | q in w.files && q != p :: w.files[q].bytes != bytes
  }

  lemma ScannedFromBelow(root: Path, dir: Path, p: Path, file: File)
    requires root <= dir < p
    ensures Scanned(root, p, file) ==> Scanned(dir, p, file)
  {
  }

  lemma HiddenIsNotBackedUp(w: World, item: Item, p: Path)
    requires p in w.files && Proper(item) && Buries(w, item, p)
    ensures !BackedUp(w, p)
  {
    assert |p| >= 2;
    forall root | root in MANAGED_ROOTS
      ensures !Scanned(root, p, w.files[p])
    {
      assert |root| == 1 && |item.to| >= 1;
      if root <= p {
        PrefixesCompare(root, item.to, p);
        ScannedFromBelow(root, item.to, p, w.files[p]);
      }
    }
  }

  lemma BackupOnlyAt(w: World, p: Path, bytes: string, stamp: Name)
    requires Backup(w, stamp).Some? && OnlyAt(w, p, bytes) && (p in w.files ==> !BackedUp(w, p))
    ensures OnlyAt(Backup(w, stamp).value, p, bytes)
  {
    var dir := BackupDir(stamp);
    var sources := map q | q in w.files && BackedUp(w, q) :: File(w.files[q].bytes, false);
    var copies := MoveKeys(sources, [], dir);
    forall q | q in copies
      ensures copies[q].bytes != bytes
    {
      var o := Rebase(q, dir, []);
      assert o in sources && [] <= o && Rebase(o, [], dir) == q;
      assert o in w.files && BackedUp(w, o);
    }
  }

  ghost predicate NotWritten(written: map<Path, string>, bytes: string) {
    forall q | q in written :: written[q] != bytes
  }

  /** Migrations, deletions and writes on one tree bring no bytes that were not there. */
  lemma StagesLack(start: World, items: seq<Item>, mid: World, judged: seq<Judged>, ws: seq<Write>, end: World, p: Path, bytes: string)
    requires ExecuteAutos(start, items) == Some(mid) && WriteAll(DeleteAll(mid, judged), ws) == Some(end)
    requires OnlyAt(start, p, bytes) && (p in start.files && start.files[p].bytes == bytes ==> Fate(items, p).None?)
    requires NotWritten(LastBytes(ws), bytes)
    ensures Lacks(end, bytes)
  {
    ExecutionFollowsFate(start, items, mid);
    forall q | q in mid.files
      ensures mid.files[q].bytes != bytes
    {
      var o :| o in start.files && Fate(items, o) == Some(q);
      assert mid.files[q] == start.files[o];
    }
    DeleteAllExact(mid, judged);
    WriteAllFiles(DeleteAll(mid, judged), ws, end);
  }

  lemma WritesLack(plan: Plan, req: Request, bytes: string, canonical: bool)
    requires Fits(plan) && SkipAll(req) && NotWritten(Written(plan, req), bytes) && VERSION_FILE !in plan.templates
    ensures NotWritten(LastBytes(WritesOf(TemplateWrites(plan, req.Resolver()), canonical)), bytes)
  {
    SkipAllWrites(plan, req.Resolver(), canonical);
    var last := LastBytes(WritesOf(TemplateWrites(plan, req.Resolver()), canonical));
    forall q | q in last
      ensures last[q] != bytes
    {
      assert Written(plan, req)[q] == plan.templates[q];
    }
  }

  lemma SeedOnlyAt(w: World, stored: Manifest, build0: World, p: Path, bytes: string)
    requires Seed(w, stored) == Some(build0) && OnlyAt(w, p, bytes)
    ensures OnlyAt(build0, p, bytes) && (p in build0.files ==> Discovered(p))
  {
  }

  lemma VersionLacks(w: World, version: string, after: World, bytes: string)
    requires w.WriteFile(VERSION_FILE, version) == Some(after) && Lacks(w, bytes) && version != bytes
    ensures Lacks(after, bytes)
  {
    OneWrite(w, VERSION_FILE, version);
  }

  lemma BuriedInBuild(w: World, req: Request, plan: Plan, s: Phases, p: Path, bytes: string, ws: seq<Write>)
    requires Fits(plan) && Builds(w, req, plan, s) && ws == WritesOf(TemplateWrites(plan, req.Resolver()), true)
    requires OnlyAt(w, p, bytes) && (Discovered(p) ==> Fate(RunItems(plan, req, true), p).None?)
    requires NotWritten(LastBytes(ws), bytes) && req.version != bytes
    ensures Lacks(s.candidate, bytes)
  {
    SeedOnlyAt(w, plan.stored, s.build0, p, bytes);
    StagesLack(s.build0, RunItems(plan, req, true), s.build1, JudgedOf(plan.judged, true), ws, s.build3, p, bytes);
    VersionLacks(s.build3, req.version, s.build4, bytes);
  }

  lemma CommitOnlyAt(live: World, build: World, after: World, p: Path, bytes: string)
    requires Commit(live, build) == Some(after) && OnlyAt(live, p, bytes) && Lacks(build, bytes)
    ensures OnlyAt(after, p, bytes)
    ensures Discovered(p) ==> Lacks(after, bytes)
  {
    CommitDomain(live, build, after);
    CommitContent(live, build, after);
  }

  lemma BuriedInProject(w: World, req: Request, plan: Plan, s: Phases, after: World, p: Path, bytes: string, ws: seq<Write>)
    requires Fits(plan) && Finishes(w, req, plan, s, after) && ws == WritesOf(TemplateWrites(plan, req.Resolver()), false)
    requires OnlyAt(s.backed, p, bytes) && Lacks(s.candidate, bytes)
    requires !Discovered(p) ==> Fate(RunItems(plan, req, false), p).None?
    requires NotWritten(LastBytes(ws), bytes)
    ensures forall q | q in after.files && q != CONFIG :: after.files[q].bytes != bytes
  {
    CommitOnlyAt(s.backed, s.candidate, s.live0, p, bytes);
    StagesLack(s.live0, RunItems(plan, req, false), s.live1, JudgedOf(plan.judged, false), ws, s.live3, p, bytes);
    PruneTouchesConfigOnly(s.live3, req.official);
  }

  /**
   A buried file is destroyed: when nothing else has its bytes and the run does not write them, then after the run no
   file has them, not even in the backup.
   */
  lemma BuriedFilesAreDestroyed(w: World, req: Request, plan: Plan, after: World, p: Path)
    requires SoundRelease(req) && SkipAll(req)
    requires MakePlan(w, req) == Some(plan) && Fits(plan) && !Idle(plan, req.flags) && SoundItems(plan.classified.auto, w)
    requires UpdateSpec(w, req) == Some(after)
    requires p in w.files && Buried(w, plan, req, p) && OnlyAt(w, p, w.files[p].bytes)
    requires NotWritten(Written(plan, req), w.files[p].bytes)
    ensures forall q | q in after.files && q != CONFIG :: after.files[q].bytes != w.files[p].bytes
  {
    var s := PhasesOf(w, req, plan, after);
    TemplatesAreOfficial(w, req, plan);
    BuriedHasNoPlace(w, req, plan, p);
    BuriedIsNotBackedUp(w, req, plan, p);
    DestroyedInPhases(w, req, plan, s, after, p, w.files[p].bytes);
  }

  lemma BuriedIsNotBackedUp(w: World, req: Request, plan: Plan, p: Path)
    requires SoundItems(plan.classified.auto, w) && p in w.files && Buried(w, plan, req, p)
    ensures !BackedUp(w, p)
  {
    RunItemsApart(plan, req, Discovered(p), w);
    var item :| item in RunItems(plan, req, Discovered(p)) && Buries(w, item, p);
    HiddenIsNotBackedUp(w, item, p);
  }

  lemma DestroyedInPhases(w: World, req: Request, plan: Plan, s: Phases, after: World, p: Path, bytes: string)
    requires SkipAll(req) && Fits(plan) && Builds(w, req, plan, s) && Finishes(w, req, plan, s, after)
    requires VERSION_FILE !in plan.templates && p in w.files && !BackedUp(w, p)
    requires OnlyAt(w, p, bytes) && Fate(RunItems(plan, req, Discovered(p)), p).None?
    requires NotWritten(Written(plan, req), bytes)
    ensures forall q | q in after.files && q != CONFIG :: after.files[q].bytes != bytes
  {
    BackupOnlyAt(w, p, bytes, req.stamp);
    assert Written(plan, req)[VERSION_FILE] == req.version;
    WritesLack(plan, req, bytes, true);
    WritesLack(plan, req, bytes, false);
    BuriedInBuild(w, req, plan, s, p, bytes, WritesOf(TemplateWrites(plan, req.Resolver()), true));
    BuriedInProject(w, req, plan, s, after, p, bytes, WritesOf(TemplateWrites(plan, req.Resolver()), false));
  }

  // ---------- Renaming out of the generation walk ----------

  /**
   A canonical directory is renamed to a canonical place. Its files survive the commit if and only if the generation
   walk reaches the new place; otherwise they are gone at the old place, and the new one is as it was.
   */
  lemma RenamedDirectorySurvives(w: World, stored: Manifest, item: Item, build: World, after: World, p: Path)
    requires item.RenameDir? && IsCanonical(item.from) && IsCanonical(item.to)
    requires Seed(w, stored).Some? && ExecuteAutos(Seed(w, stored).value, [item]) == Some(build)
    requires Commit(w, build) == Some(after)
    requires p in w.files && item.from < p && Discovered(p)
    ensures CanonicalItem(item) && !Crosses(item) && p !in after.files
    ensures var q := Rebase(p, item.from, item.to);
            if Discovered(item.to) then q in after.files && after.files[q] == w.files[p]
            else (q in after.files <==> q in w.files) && (q in w.files ==> after.files[q] == w.files[q])
  {
    var q := Rebase(p, item.from, item.to);
    var build0 := Seed(w, stored).value;
    CommitDomain(w, build, after);
    CommitContent(w, build, after);
    DirectoryMovesApart(build0, item.from, item.to, build);
    assert item.to <= q;
    if item.to <= p {
      PrefixesCompare(item.from, item.to, p);
    }
    MovedAway(build0, item, build, p);
    if Discovered(item.to) {
      RebaseDiscovered(p, item.from, item.to);
    } else if Discovered(q) {
      DiscoveredIsCanonical(q, item.to);
    }
  }

  /** The executor renames a directory only to a place beside it. */
  lemma DirectoryMovesApart(before: World, from: Path, to: Path, after: World)
    requires ExecuteAutos(before, [RenameDir(from, to)]) == Some(after) && from != []
    ensures Disjoint(from, to)
  {
    assert ExecuteAuto(before, [RenameDir(from, to)][0]).Some?;
    var cleared := before.RemoveTree(to);
    if to <= from {
      forall e | e in cleared.MkdirP(Parent(to)).value.Entries()
        ensures !(from <= e)
      {
        assert from <= e ==> to <= e && |e| > |Parent(to)|;
        assert e in before.Entries() && to <= e ==> before.Exists(to);
      }
    }
  }

  /** A renamed directory leaves nothing behind, and its files are at the new place. */
  lemma MovedAway(before: World, item: Item, after: World, p: Path)
    requires item.RenameDir? && ExecuteAutos(before, [item]) == Some(after)
    requires item.from <= p && !(item.to <= p)
    ensures p !in after.files
    ensures p in before.files ==>
              Rebase(p, item.from, item.to) in after.files && after.files[Rebase(p, item.from, item.to)] == before.files[p]
  {
    assert [item][1..] == [] && ExecuteAuto(before, item) == Some(after);
    StepFollowsFate(before, item, after);
    assert FateStep(item, p) == Some(Rebase(p, item.from, item.to));
    forall o | o in before.files
      ensures FateStep(item, o) != Some(p)
    {
      assert item.from <= o ==> item.to <= Rebase(o, item.from, item.to);
    }
  }

  lemma CommitDomain(live: World, build: World, after: World)
    requires Commit(live, build) == Some(after)
    ensures forall q :: q in after.files <==> if Discovered(q) then q in build.files else q in live.files
  {
  }
}
