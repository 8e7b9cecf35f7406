/** Projects that meet every condition of the two failing families of convergence. */
module UpdateUncovered {
  import opened Wrappers
  import opened Text
  import opened Paths
  import opened CanonicalPaths
  import opened Workspace
  import opened Migrations
  import opened SafeDeletes
  import opened Analysis
  import opened SkipConfigText
  import opened Update
  import opened UpdateRun
  import opened UpdateConservation
  import opened UpdateConvergence
  import opened UpdateCompletes

  const FILE: Path := ["a.md"]
  const OTHER: Path := ["b.md"]

  // ---------- Small projects ----------

  /** A file at the project root, or directly below the workflow root and not like a backup. */
  predicate Shallow(t: Path) {
    || (|t| == 1 && t[0] != WORKFLOW)
    || (|t| == 2 && t[0] == WORKFLOW && t[1] != "" && (t[1][0] == '.' ==> |t[1]| >= 2 && t[1][1] == 'v'))
  }

  lemma ShallowPaths(stamp: Name)
    ensures Shallow(CONFIG) && Shallow(FILE) && Shallow(OTHER) && Shallow(VERSION_FILE)
    ensures Shallow(CopyPath(CONFIG)) && Shallow(CopyPath(FILE)) && Shallow(CopyPath(OTHER))
    ensures forall t | Shallow(t) :: Disjoint(t, BackupDir(stamp))
  {
    assert "config.yaml"[0] == 'c' && ".version"[1] == 'v' && ".backup-"[0] == '.' && ".backup-"[1] == 'b';
    assert CopyPath(CONFIG) == [WORKFLOW, "config.yaml" + ".new"];
    assert CopyPath(FILE) == ["a.md" + ".new"] && CopyPath(OTHER) == ["b.md" + ".new"];
    assert ("a.md" + ".new")[0] == 'a' && ("b.md" + ".new")[0] == 'b' && WORKFLOW[0] == '.';
    forall t | Shallow(t)
      ensures Disjoint(t, BackupDir(stamp))
    {
      assert BackupDir(stamp)[1][1] == 'b';
    }
  }

  /** The project has shallow files only, and the release ships such files. */
  ghost predicate Small(w: World, req: Request) {
    && w.dirs == {} && w.hashes == map[] && (forall f | f in w.files :: Shallow(f) && !w.files[f].symlink)
    && req.Valid() && req.official.Keys <= {CONFIG, FILE, OTHER} && req.items == [] && req.allItems == [] && !req.bypass
    && (CONFIG in req.official ==> ReadText(req.official[CONFIG]) == [])
  }

  lemma ShippedNames(p: Path, q: Path)
    requires p in {CONFIG, FILE, OTHER} && q in {CONFIG, FILE, OTHER}
    ensures p != [] && !(p < q) && CopyPath(q) != p && !(p < VERSION_FILE) && (IsCanonical(p) ==> p == CONFIG) && p != VERSION_FILE
  {
    assert FILE[0][0] == 'a' && OTHER[0][0] == 'b' && WORKFLOW[0] == '.';
    assert CopyPath(q)[|q| - 1] == q[|q| - 1] + ".new";
    assert |"config.yaml"| == 11 && |"a.md"| == 4 && |"b.md"| == 4 && |".new"| == 4;
    assert VERSION_FILE[1][0] == '.' && CONFIG[1][0] == 'c';
  }

  lemma SmallIsTidy(w: World, req: Request)
    requires Small(w, req)
    ensures TidyRelease(req)
  {
    forall p, q | p in req.official && q in req.official
      ensures p != [] && !(p < q) && CopyPath(q) != p && !(p < VERSION_FILE) && (IsCanonical(p) ==> Discovered(p))
    {
      ShippedNames(p, q);
      ConfigIsDiscovered();
    }
    forall p | p in req.official
      ensures Disjoint(p, BackupDir(req.stamp))
    {
      ShallowPaths(req.stamp);
      assert Shallow(p);
    }
  }

  lemma ConfigIsDiscovered()
    ensures Discovered(CONFIG)
  {
    var name := "config.yaml";
    assert CONFIG[..2] == CONFIG && name[7..] == "yaml" && name[0] == 'c' && ".backup-"[0] == '.';
    assert |"__pycache__"| == 11 && "__pycache__"[0] == '_' && |WORKFLOW| == 8 && |name| == 11;
    assert |".developer"| == 10 && |".current-task"| == 13 && |".p36-wave-c.json"| == 16;
    assert |"runtime"| == 7 && |"tasks"| == 5 && |"workspace"| == 9 && |"spec"| == 4 && |"middleware"| == 10;
  }

  lemma ShallowIsFree(w: World, t: Path)
    requires w.dirs == {} && (forall f | f in w.files :: Shallow(f)) && Shallow(t)
    ensures Free(w, t)
  {
    forall f | f in w.files
      ensures !(f < t) && !(t < f)
    {
      assert Shallow(f);
    }
  }

  lemma ShallowHasRoom(w: World, req: Request, targets: set<Path>)
    requires w.dirs == {} && (forall f | f in w.files :: Shallow(f) && !w.files[f].symlink)
    requires forall t | t in targets :: Shallow(t)
    ensures Room(w, req, targets)
  {
    ShallowPaths(req.stamp);
    forall t | t in targets
      ensures Free(w, t) && Disjoint(t, BackupDir(req.stamp))
    {
      ShallowIsFree(w, t);
    }
    forall t, u | Shallow(t) && Shallow(u)
      ensures !(t < u)
    {
    }
    forall f | f in w.files
      ensures !(f <= BackupDir(req.stamp))
    {
      assert Shallow(f);
    }
  }

  lemma WritesAreShallow(req: Request, plan: Plan, t: Path)
    requires FromRelease(plan, req) && TidyRelease(req) && req.official.Keys <= {CONFIG, FILE, OTHER} && t in Extra(plan, req)
    ensures Shallow(t)
  {
    ShallowPaths("");
    if t != VERSION_FILE {
      var x :| x in TemplateWrites(plan, req.Resolver()) && x.path == t;
      var source := TemplateWriteIs(plan, req, x);
      assert source in {CONFIG, FILE, OTHER};
    }
  }

  lemma SmallHasRoom(w: World, req: Request, plan: Plan)
    requires Small(w, req) && FromRelease(plan, req) && TidyRelease(req)
    ensures Room(w, req, Extra(plan, req))
  {
    forall t | t in Extra(plan, req)
      ensures Shallow(t)
    {
      WritesAreShallow(req, plan, t);
    }
    ShallowHasRoom(w, req, Extra(plan, req));
  }

  lemma SmallRun(w: World, req: Request, plan: Plan) returns (after: World)
    requires Small(w, req) && MakePlan(w, req) == Some(plan) && FromRelease(plan, req) && OnlyTemplates(plan, req)
    requires PartOf(plan.classified, true).Some? && !Idle(plan, req.flags)
    ensures TidyRelease(req) && UpdateSpec(w, req) == Some(after)
  {
    SmallIsTidy(w, req);
    SmallHasRoom(w, req, plan);
    after := TemplateRunCompletes(w, req, plan);
  }

  lemma SmallPlan(w: World, req: Request) returns (plan: Plan)
    requires Small(w, req)
    requires forall p | p in req.official && p !in w.files :: !w.Exists(p)
    ensures MakePlan(w, req) == Some(plan) && FromRelease(plan, req) && OnlyTemplates(plan, req)
    ensures plan.stored == map[] && plan.templates == CollectTemplates(req.official, LoadSkips(w), false)
    ensures PartOf(plan.classified, true).Some?
  {
    var templates := CollectTemplates(req.official, LoadSkips(w), false);
    assert w.hashes - req.orphans == map[];
    assert Classify([], w, templates, map[]) == Some(Classified([], [], [], []));
    assert Judge([], w, LoadSkips(w), false) == [];
    plan := MakePlan(w, req).value;
    PlanFromRelease(w, plan, req);
    assert AllItems(plan.classified) == [];
  }

  // ---------- A config file that the run overwrites ----------

  /** The user hides a file of his own, and has written a config file for that. */
  ghost predicate HidesFile(w: World, req: Request, text: string, config: string, mine: string, shipped: string) {
    && w.files == map[CONFIG := File(text, false), FILE := File(mine, false)] && w.dirs == {} && w.hashes == map[]
    && ReadText(text) == ["a.md"] && ReadText(config) == [] && mine != shipped
    && req.official == map[CONFIG := config, FILE := shipped] && req.order == [CONFIG, FILE]
    && req.items == [] && req.allItems == [] && !req.bypass && req.flags.force
  }

  lemma EntryCovers()
    ensures Posix(FILE) == "a.md" && Posix(OTHER) == "b.md" && !IsMiddleware(FILE) && !IsMiddleware(OTHER) && !IsMiddleware(CONFIG)
    ensures Skips("a.md", FILE) && !Skips("a.md", CONFIG) && !Skips("a.md", OTHER) && !Skips(Posix(CONFIG), OTHER)
  {
    ConfigBegins();
    assert "a.md"[0] == 'a' && "b.md"[0] == 'b';
    assert FILE[0] != MIDDLEWARE[0] && OTHER[0] != MIDDLEWARE[0] && CONFIG[1] != MIDDLEWARE[1];
  }

  lemma ConfigBegins()
    ensures Posix(CONFIG) != "" && Posix(CONFIG)[0] == '.'
  {
    assert WORKFLOW[0] == '.' && |WORKFLOW| == 8;
  }

  lemma HidingIsSmall(w: World, req: Request, text: string, config: string, mine: string, shipped: string)
    requires HidesFile(w, req, text, config, mine, shipped)
    ensures Small(w, req) && LoadSkips(w) == ["a.md"]
  {
    ShallowPaths("");
    TwoInOrder(req.order, req.official, config, shipped);
  }

  lemma BothAreThere(w: World, text: string, mine: string)
    requires w.files == map[CONFIG := File(text, false), FILE := File(mine, false)]
    ensures CONFIG in w.Entries() && FILE in w.Entries()
  {
  }

  lemma TwoInOrder(order: seq<Path>, official: Templates, config: string, shipped: string)
    requires official == map[CONFIG := config, FILE := shipped] && order == [CONFIG, FILE]
    ensures (forall p :: p in order <==> p in official) && official.Keys == {CONFIG, FILE} && VERSION_FILE !in official
    ensures official[CONFIG] == config
  {
    ShippedNames(CONFIG, FILE);
    ShippedNames(FILE, FILE);
    assert CONFIG != FILE;
    forall p
      ensures p in order <==> p in {CONFIG, FILE}
    {
      assert order[0] == CONFIG && order[1] == FILE;
    }
  }

  lemma ConfigIsOverwritten(w: World, req: Request, plan: Plan, text: string, config: string, mine: string, shipped: string)
    requires HidesFile(w, req, text, config, mine, shipped) && LoadSkips(w) == ["a.md"]
    requires CONFIG in w.Entries() && FILE in w.Entries() && FromRelease(plan, req) && Listed(w, plan, CONFIG)
    requires plan.stored == map[] && plan.templates == CollectTemplates(req.official, LoadSkips(w), false)
    ensures WritesTemplate(plan, req, CONFIG) && !Idle(plan, req.flags)
    ensures FILE !in plan.templates && !NothingToDo(StatusOf(FILE, w, req.official, plan.stored))
  {
    EntryCovers();
    assert "a.md" in LoadSkips(w);
    assert text != config;
  }

  /** The run overwrites the config file; the file that it hid is a conflict afterwards. */
  lemma HiddenFileUncovered(w: World, req: Request, text: string, config: string, mine: string, shipped: string)
    returns (plan: Plan, after: World)
    requires HidesFile(w, req, text, config, mine, shipped)
    ensures MakePlan(w, req) == Some(plan) && UpdateSpec(w, req) == Some(after)
    ensures !Settled(after, CollectTemplates(req.official, LoadSkips(after), false), after.hashes - {})
  {
    HidingIsSmall(w, req, text, config, mine, shipped);
    BothAreThere(w, text, mine);
    plan := SmallPlan(w, req);
    PlanLists(w, req, plan, CONFIG);
    ConfigIsOverwritten(w, req, plan, text, config, mine, shipped);
    after := SmallRun(w, req, plan);
    EntryCovers();
    OverwrittenConfigUncovers(w, req, plan, after, false, {}, FILE);
  }

  // ---------- A stale copy ----------

  /** The config file and a copy with other line ends are both on the skip list, and the release brings another file. */
  ghost predicate KeepsCopy(w: World, req: Request, text: string, config: string, copy: string, shipped: string) {
    && w.files == map[CONFIG := File(text, false), FILE := File(copy, false)] && w.dirs == {} && w.hashes == map[]
    && ReadText(text) == [Posix(CONFIG), "a.md"] && ReadText(config) == []
    && copy != shipped && NormalizeNewlines(copy) == NormalizeNewlines(shipped)
    && req.official == map[CONFIG := config, FILE := shipped, OTHER := "new"] && req.order == [CONFIG, FILE, OTHER]
    && req.items == [] && req.allItems == [] && !req.bypass
  }

  lemma OtherIsAbsent(w: World, text: string, copy: string)
    requires w.files == map[CONFIG := File(text, false), FILE := File(copy, false)] && w.dirs == {}
    ensures w.Entries() == {CONFIG, FILE} && !w.Exists(OTHER)
  {
    assert w.Entries() == {CONFIG, FILE} && OTHER[0] != FILE[0] && OTHER[0] != CONFIG[0];
  }

  lemma KeepingIsSmall(w: World, req: Request, text: string, config: string, copy: string, shipped: string)
    requires KeepsCopy(w, req, text, config, copy, shipped)
    ensures Small(w, req) && LoadSkips(w) == [Posix(CONFIG), "a.md"]
  {
    ShallowPaths("");
    ShippedNames(CONFIG, FILE);
    ShippedNames(FILE, FILE);
    ShippedNames(OTHER, FILE);
    ThreeInOrder(req.order, req.official, config, shipped);
  }

  lemma ThreeInOrder(order: seq<Path>, official: Templates, config: string, shipped: string)
    requires official == map[CONFIG := config, FILE := shipped, OTHER := "new"] && order == [CONFIG, FILE, OTHER]
    ensures (forall p :: p in order <==> p in official) && official.Keys == {CONFIG, FILE, OTHER}
    ensures CONFIG in official ==> official[CONFIG] == config
  {
    assert CONFIG != FILE && CONFIG != OTHER && FILE[0] != OTHER[0];
    forall p
      ensures p in order <==> p in {CONFIG, FILE, OTHER}
    {
      assert order[0] == CONFIG && order[1] == FILE && order[2] == OTHER;
    }
  }

  lemma OtherIsNew(w: World, req: Request, plan: Plan)
    requires LoadSkips(w) == [Posix(CONFIG), "a.md"] && OTHER in req.official && !w.Exists(OTHER)
    requires plan.stored == map[] && plan.templates == CollectTemplates(req.official, LoadSkips(w), false) && Listed(w, plan, OTHER)
    ensures !Idle(plan, req.flags)
  {
    EntryCovers();
    assert Wanted(OTHER, LoadSkips(w), false);
  }

  /** Whatever the flags, the run takes the copy off the list, and the next analysis finds it in conflict. */
  lemma CopyTurnsUp(w: World, req: Request, text: string, config: string, copy: string, shipped: string)
    returns (plan: Plan, after: World)
    requires KeepsCopy(w, req, text, config, copy, shipped)
    ensures MakePlan(w, req) == Some(plan) && UpdateSpec(w, req) == Some(after)
    ensures var next := CollectTemplates(req.official, LoadSkips(after), false);
            FILE in next && StatusOf(FILE, after, next, after.hashes - {}) == Some(Changed)
  {
    KeepingIsSmall(w, req, text, config, copy, shipped);
    OtherIsAbsent(w, text, copy);
    plan := SmallPlan(w, req);
    PlanLists(w, req, plan, OTHER);
    OtherIsNew(w, req, plan);
    after := SmallRun(w, req, plan);
    CopyIsThere(w, req, text, config, copy, shipped);
    StaleCopyTurnsUp(w, req, plan, after, {}, FILE);
  }

  lemma CopyIsThere(w: World, req: Request, text: string, config: string, copy: string, shipped: string)
    requires KeepsCopy(w, req, text, config, copy, shipped)
    ensures CONFIG in w.files && CONFIG in req.official && FILE in req.official && FILE in w.files
    ensures w.files[FILE].bytes == copy && req.official[FILE] == shipped && OTHER in req.official
    ensures PlainNames(FILE) && FILE != CONFIG && !IsMiddleware(FILE) && Posix(FILE) == "a.md"
    ensures Posix(FILE) != "" && !EndsWith(Posix(FILE), "/")
  {
    CopyIsPlain();
    assert FILE[0] != OTHER[0];
  }

  lemma CopyIsPlain()
    ensures PlainNames(FILE) && FILE != CONFIG && !IsMiddleware(FILE) && Posix(FILE) == "a.md"
    ensures Posix(FILE) != "" && !EndsWith(Posix(FILE), "/")
  {
    EntryCovers();
    assert '/' !in "a.md" && "a.md"[3..] == "d";
  }
}
