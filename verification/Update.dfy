/**
 The update run: analysis, staging of the canonical generation in a separate build root, the atomic
 lifecycle commit, and the live changes that wait for it.
 */
module Update {
  import opened Wrappers
  import opened Text
  import opened Paths
  import opened CanonicalPaths
  import opened Workspace
  import opened Migrations
  import opened SafeDeletes
  import opened Analysis
  import opened SkipConfigText

  datatype Resolution = Overwrite | KeepMine | CreateCopy

  datatype Flags = Flags(migrate: bool, force: bool, skipAll: bool, createNew: bool)

  /** One invocation: what the release ships, what the user asked for, and what the user answers when asked. */
  datatype Request = Request(
    official: Templates, order: seq<Path>,
    items: seq<Item>, allItems: seq<Item>,
    bypass: bool, sameVersion: bool, version: string, stamp: Name, orphans: set<Path>,
    flags: Flags, answer: Path -> Resolution, choice: Item -> Action)
  {
    ghost predicate Valid() {
      && (forall p :: p in order <==> p in official)
      && VERSION_FILE !in official
    }

    function Resolve(p: Path): Resolution {
      if flags.force then Overwrite
      else if flags.skipAll then KeepMine
      else if flags.createNew then CreateCopy
      else answer(p)
    }

    function Resolver(): Path -> Resolution {
      p => Resolve(p)
    }

    function Chooser(): Item -> Action {
      item => Choose(item)
    }

    /** The create-new flag does not answer migration prompts. */
    function Choose(item: Item): Action {
      if flags.force then Proceed else if flags.skipAll then LeaveAlone else choice(item)
    }
  }

  // ---------- Planning ----------

  function LoadSkips(w: World): seq<string> {
    if CONFIG in w.files then ReadText(w.files[CONFIG].bytes) else []
  }

  predicate Wanted(p: Path, skips: seq<string>, bypass: bool) {
    !IsMiddleware(p) && (bypass || !exists s | s in skips :: Skips(s, p))
  }

  function CollectTemplates(official: Templates, skips: seq<string>, bypass: bool): Templates {
    map p | p in official && Wanted(p, skips, bypass) :: official[p]
  }

  function WantedOrder(order: seq<Path>, templates: Templates): (keys: seq<Path>)
    ensures forall p :: p in keys <==> p in order && p in templates
  {
    if order == [] then []
    else (if order[0] in templates then [order[0]] else []) + WantedOrder(order[1..], templates)
  }

  datatype Plan = Plan(templates: Templates, stored: Manifest, classified: Classified, judged: seq<Judged>, changes: Changes)

  function MakePlan(w: World, req: Request): Option<Plan> {
    var stored := w.hashes - req.orphans;
    var templates := CollectTemplates(req.official, LoadSkips(w), req.bypass);
    var classified :- Classify(req.items, w, templates, stored);
    var changes :- Analyze(WantedOrder(req.order, templates), w, templates, stored);
    Some(Plan(templates, stored, classified, Judge(req.allItems, w, LoadSkips(w), req.bypass), changes))
  }

  ghost predicate Fits(plan: Plan) {
    && (forall p | p in plan.changes.newFiles :: p in plan.templates)
    && (forall p | p in plan.changes.upToDate :: p in plan.templates)
    && (forall p | p in plan.changes.autoUpdate :: p in plan.templates)
    && (forall p | p in plan.changes.changed :: p in plan.templates)
  }

  /** No file, migration or deletion work. */
  predicate Idle(plan: Plan, flags: Flags) {
    && plan.changes.newFiles == [] && plan.changes.autoUpdate == [] && plan.changes.changed == []
    && !(flags.migrate && (plan.classified.auto != [] || plan.classified.confirm != []))
    && !exists j | j in plan.judged :: j.verdict == Remove
  }

  // ---------- Splitting the work between the build root and the live tree ----------

  function ItemPaths(item: Item): seq<Path> {
    if HasTarget(item) then [item.from, item.to] else [item.from]
  }

  predicate CanonicalItem(item: Item) {
    forall p | p in ItemPaths(item) :: IsCanonical(p)
  }

  /** An item with one canonical and one live end is refused. */
  predicate Crosses(item: Item) {
    HasTarget(item) && IsCanonical(item.from) != IsCanonical(item.to)
  }

  function ItemsOf(items: seq<Item>, canonical: bool): seq<Item> {
    if items == [] then []
    else ItemsOf(items[..|items| - 1], canonical)
         + if CanonicalItem(items[|items| - 1]) == canonical then [items[|items| - 1]] else []
  }

  function AllItems(c: Classified): seq<Item> {
    c.auto + c.confirm + c.conflict + c.skip
  }

  function PartOf(c: Classified, canonical: bool): Option<Classified> {
    if exists item | item in AllItems(c) :: Crosses(item) then None
    else Some(Classified(ItemsOf(c.auto, canonical), ItemsOf(c.confirm, canonical),
                         ItemsOf(c.conflict, canonical), ItemsOf(c.skip, canonical)))
  }

  function JudgedOf(judged: seq<Judged>, canonical: bool): seq<Judged> {
    if judged == [] then []
    else JudgedOf(judged[..|judged| - 1], canonical)
         + if IsCanonical(judged[|judged| - 1].item.from) == canonical then [judged[|judged| - 1]] else []
  }

  // ---------- Template writes ----------

  datatype Write = Write(path: Path, bytes: string)

  function Copies(paths: seq<Path>, templates: Templates): (ws: seq<Write>)
    requires forall p | p in paths :: p in templates
    ensures |ws| == |paths| && forall i | 0 <= i < |ws| :: ws[i] == Write(paths[i], templates[paths[i]])
  {
    if paths == [] then [] else [Write(paths[0], templates[paths[0]])] + Copies(paths[1..], templates)
  }

  function ChangedWrites(changed: seq<Path>, templates: Templates, resolve: Path -> Resolution): seq<Write>
    requires forall p | p in changed :: p in templates
  {
    if changed == [] then []
    else
      var p := changed[0];
      (match resolve(p)
       case Overwrite => [Write(p, templates[p])]
       case KeepMine => []
       case CreateCopy => [Write(WithSuffix(p, ".new"), templates[p])])
      + ChangedWrites(changed[1..], templates, resolve)
  }

  /** New files, then automatic updates, then the resolved conflicts. */
  function TemplateWrites(plan: Plan, resolve: Path -> Resolution): seq<Write>
    requires Fits(plan)
  {
    Copies(plan.changes.newFiles, plan.templates) + Copies(plan.changes.autoUpdate, plan.templates)
    + ChangedWrites(plan.changes.changed, plan.templates, resolve)
  }

  function WritesOf(ws: seq<Write>, canonical: bool): seq<Write> {
    if ws == [] then []
    else (if IsCanonical(ws[0].path) == canonical then [ws[0]] else []) + WritesOf(ws[1..], canonical)
  }

  function WriteAll(w: World, ws: seq<Write>): Option<World>
    decreases |ws|
  {
    if ws == [] then Some(w)
    else
      var w1 :- w.WriteFile(ws[0].path, ws[0].bytes);
      WriteAll(w1, ws[1..])
  }

  /** The bytes that a list of writes leaves at each path it touches. */
  function LastBytes(ws: seq<Write>): map<Path, string> {
    if ws == [] then map[] else LastBytes(ws[..|ws| - 1])[ws[|ws| - 1].path := ws[|ws| - 1].bytes]
  }

  // ---------- Build root, commit, live changes ----------

  predicate WalkSafe(w: World) {
    forall p | p in w.files && Discovered(p) :: !w.files[p].symlink
  }

  function CanonicalFiles(w: World): map<Path, File> {
    map p | p in w.files && Discovered(p) :: w.files[p]
  }

  function Seed(w: World, stored: Manifest): Option<World> {
    if !WalkSafe(w) then None else Some(World(CanonicalFiles(w), {}, stored))
  }

  function FilesToHash(plan: Plan, writes: seq<Write>, build: World): map<Path, string>
    requires Fits(plan)
  {
    MissingHashes(plan.changes, plan.templates, plan.stored)
    + (map p | p in plan.changes.newFiles :: plan.templates[p])
    + (map p | p in plan.changes.autoUpdate :: plan.templates[p])
    + (map p | p in plan.changes.changed && StagedAs(p, plan, writes, build) :: plan.templates[p])
  }

  /** Is the template what the run stages at `p`? */
  predicate StagedAs(p: Path, plan: Plan, writes: seq<Write>, build: World)
    requires p in plan.templates
  {
    if IsCanonical(p) then p in build.files && build.files[p].bytes == plan.templates[p]
    else p in LastBytes(writes) && LastBytes(writes)[p] == plan.templates[p]
  }

  /** One tree after its share of the migrations, if the run migrates at all. */
  function Migrated(w: World, plan: Plan, req: Request, canonical: bool): Option<World> {
    if req.flags.migrate then
      var part :- PartOf(plan.classified, canonical);
      Execute(w, part, req.Chooser())
    else Some(w)
  }

  /** The canonical template writes, the version and the hashes, after migrations and deletions. */
  function Staged(build2: World, plan: Plan, req: Request): Option<World>
    requires Fits(plan)
  {
    var writes := TemplateWrites(plan, req.Resolver());
    var build3 :- WriteAll(build2, WritesOf(writes, true));
    var build4 :- build3.WriteFile(VERSION_FILE, req.version);
    Some(build4.UpdateHashes(FilesToHash(plan, writes, build4)))
  }

  /** The canonical generation that the run wants to activate, from the seeded build root. */
  function Candidate(build0: World, plan: Plan, req: Request): Option<World>
    requires Fits(plan)
  {
    if Idle(plan, req.flags) then
      var build1 := build0.UpdateHashes(MissingHashes(plan.changes, plan.templates, plan.stored));
      if req.sameVersion then Some(build1) else build1.WriteFile(VERSION_FILE, req.version)
    else
      var build1 :- Migrated(build0, plan, req, true);
      Staged(DeleteAll(build1, JudgedOf(plan.judged, true)), plan, req)
  }

  /** A directory, or a file among the ancestors, stands where the generation needs a file. */
  predicate TargetUnsafe(live: World, targets: set<Path>) {
    exists p | p in targets :: live.IsDir(p) || exists f | f in live.files :: f < p
  }

  /** Activation replaces the canonical files by the candidate's, all of them or none. */
  function Commit(live: World, build: World): Option<World> {
    var target := CanonicalFiles(build);
    if !WalkSafe(live) || !WalkSafe(build) || TargetUnsafe(live, target.Keys) then None
    else Some(World((map p | p in live.files && !Discovered(p) :: live.files[p]) + target,
                    live.dirs + (set p | p in target :: Parent(p)) + (set p | p in live.files && Discovered(p) :: Parent(p)),
                    build.hashes))
  }

  function BackupDir(stamp: Name): Path {
    [WORKFLOW, ".backup-" + stamp]
  }

  predicate BackedUp(w: World, p: Path)
    requires p in w.files
  {
    && !ExcludedFromBackup(p)
    && (p == AGENTS || exists root | root in MANAGED_ROOTS :: Scanned(root, p, w.files[p]))
  }

  function Backup(w: World, stamp: Name): Option<World> {
    var dir := BackupDir(stamp);
    var sources := map p | p in w.files && BackedUp(w, p) :: File(w.files[p].bytes, false);
    if exists f | f in w.files :: f <= dir then None
    else Some(w.(files := w.files + MoveKeys(sources, [], dir), dirs := w.dirs + set q | q in MoveKeys(sources, [], dir) :: Parent(q)))
  }

  /** What waits for the commit: live migrations, live deletions and live template writes. */
  function ApplyLive(live: World, plan: Plan, req: Request): Option<World>
    requires Fits(plan)
  {
    var w1 :- Migrated(live, plan, req, false);
    WriteAll(DeleteAll(w1, JudgedOf(plan.judged, false)),
             WritesOf(TemplateWrites(plan, req.Resolver()), false))
  }

  /** Skip entries for single files that meanwhile equal their official template. */
  predicate StaleSkip(s: string, w: World, official: Templates) {
    && s != "" && !EndsWith(s, "/") && s != Posix(CONFIG)
    && var p := Split(s, '/');
       p in official && p in w.files && NormalizeNewlines(w.files[p].bytes) == NormalizeNewlines(official[p])
  }

  function PruneSkips(w: World, official: Templates): World {
    if CONFIG !in w.files then w
    else
      var stale := set s | s in LoadSkips(w) && StaleSkip(s, w, official);
      w.(files := w.files[CONFIG := w.files[CONFIG].(bytes := EditText(w.files[CONFIG].bytes, stale))])
  }

  /** The project after a run that gets to its end. */
  function UpdateSpec(w: World, req: Request): Option<World> {
    var plan :- MakePlan(w, req);
    assert Fits(plan) by { PlanFits(w, req); }
    var build0 :- Seed(w, plan.stored);
    var candidate :- Candidate(build0, plan, req);
    if Idle(plan, req.flags) then Commit(w, candidate)
    else
      var backed :- Backup(w, req.stamp);
      var live :- Commit(backed, candidate);
      var after :- ApplyLive(live, plan, req);
      Some(PruneSkips(after, req.official))
  }

  lemma PlanFits(w: World, req: Request)
    requires MakePlan(w, req).Some?
    ensures Fits(MakePlan(w, req).value)
  {
    var plan := MakePlan(w, req).value;
    var keys := WantedOrder(req.order, plan.templates);
    SelectExact(keys, New, w, plan.templates, plan.stored);
    SelectExact(keys, Unchanged, w, plan.templates, plan.stored);
    SelectExact(keys, AutoUpdate, w, plan.templates, plan.stored);
    SelectExact(keys, Changed, w, plan.templates, plan.stored);
  }
}
