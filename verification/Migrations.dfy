/**
 Migration items: classifying them against the project, ordering them, and executing them.
 `Fate` says, from the item list alone, where the execution leaves each file.
 */
module Migrations {
  import opened Wrappers
  import opened Paths
  import opened Workspace

  datatype Item =
    | Rename(from: Path, to: Path)
    | RenameDir(from: Path, to: Path)
    | Delete(from: Path)
    | SafeDelete(from: Path, allowed: seq<Hash>)
    | Untargeted(from: Path)  // a rename or rename-dir without `to`

  predicate HasTarget(item: Item) {
    item.Rename? || item.RenameDir?
  }

  datatype Class = Auto | Confirm | Conflict | Skip | Ignored

  datatype Classified = Classified(auto: seq<Item>, confirm: seq<Item>, conflict: seq<Item>, skip: seq<Item>)

  type Templates = map<Path, string>
  type Manifest = map<Path, Hash>

  // ---------- Classification ----------

  /** `None`: reading a directory as a file throws. An empty template counts as no template. */
  function FileSafeToReplace(w: World, p: Path, templates: Templates): Option<bool> {
    if !w.Exists(p) then Some(true)
    else if p !in templates || templates[p] == "" then Some(false)
    else if p !in w.files then None
    else Some(w.files[p].bytes == templates[p])
  }

  /** The scan of `dir` skips links and does not enter excluded directories. */
  predicate Scanned(dir: Path, p: Path, file: File) {
    dir < p && !file.symlink && forall n {:trigger p[..n]} | |dir| < n < |p| :: !ExcludedFromBackup(p[..n])
  }

  predicate TrackedUnmodified(w: World, p: Path, stored: Manifest) {
    p in w.files && p in stored && w.IsTemplateModified(p, stored) == Some(false)
  }

  predicate Pristine(w: World, p: Path, templates: Templates, stored: Manifest)
    requires p in w.files
  {
    || (p in templates && templates[p] != "" && w.files[p].bytes == templates[p])
    || TrackedUnmodified(w, p, stored)
  }

  predicate SafeEntry(w: World, dir: Path, p: Path, templates: Templates, stored: Manifest) {
    p in w.files && Scanned(dir, p, w.files[p]) ==> Pristine(w, p, templates, stored)
  }

  function DirectorySafeToReplace(w: World, dir: Path, templates: Templates, stored: Manifest): Option<bool> {
    if !w.Exists(dir) then Some(true)
    else if dir in w.files then None
    else Some(forall p | p in w.files :: SafeEntry(w, dir, p, templates, stored))
  }

  method IsDirectorySafeToReplace(w: World, dir: Path, templates: Templates, stored: Manifest)
      returns (safe: Option<bool>)
    ensures safe == DirectorySafeToReplace(w, dir, templates, stored)
  {
    if !w.Exists(dir) {
      return Some(true);
    }
    if dir in w.files {
      return None;
    }
    var all := EveryEntry(w.files.Keys, p => SafeEntry(w, dir, p, templates, stored));
    return Some(all);
  }

  /** The scan: it stops at the first entry that is not safe. */
  method EveryEntry(entries: set<Path>, safe: Path -> bool) returns (all: bool)
    ensures all == forall p | p in entries :: safe(p)
  {
    var todo := entries;
    while todo != {}
      invariant todo <= entries
      invariant forall p | p in entries && p !in todo :: safe(p)
      decreases todo
    {
      var p :| p in todo;
      if !safe(p) {
        return false;
      }
      todo := todo - {p};
    }
    return true;
  }

  function ClassOf(item: Item, w: World, templates: Templates, stored: Manifest): Option<Class> {
    if item.SafeDelete? then Some(Ignored)
    else if IsProtected(item.from) || !w.Exists(item.from) then Some(Skip)
    else match item
      case Rename(from, to) =>
        if w.Exists(to) then
          var safe :- FileSafeToReplace(w, to, templates);
          Some(if safe then Auto else Conflict)
        else
          var modified :- w.IsTemplateModified(from, stored);
          Some(if modified then Confirm else Auto)
      case RenameDir(from, to) =>
        var safe :- DirectorySafeToReplace(w, to, templates, stored);
        Some(if safe then Auto else Conflict)
      case Delete(from) =>
        var modified :- w.IsTemplateModified(from, stored);
        Some(if modified then Confirm else Auto)
      case Untargeted(_) => Some(Ignored)
  }

  function Pick(items: seq<Item>, kind: Class, w: World, templates: Templates, stored: Manifest): seq<Item> {
    if items == [] then []
    else
      var last := items[|items| - 1];
      Pick(items[..|items| - 1], kind, w, templates, stored)
      + if ClassOf(last, w, templates, stored) == Some(kind) then [last] else []
  }

  /** `None` when the state of some item cannot be read. */
  function Classify(items: seq<Item>, w: World, templates: Templates, stored: Manifest): Option<Classified> {
    if exists item | item in items :: ClassOf(item, w, templates, stored).None? then None
    else Some(Classified(Pick(items, Auto, w, templates, stored), Pick(items, Confirm, w, templates, stored),
                         Pick(items, Conflict, w, templates, stored), Pick(items, Skip, w, templates, stored)))
  }

  method ClassifyMigrations(items: seq<Item>, w: World, templates: Templates, stored: Manifest)
      returns (r: Option<Classified>)
    ensures r == Classify(items, w, templates, stored)
  {
    var auto, confirm, conflict, skip: seq<Item> := [], [], [], [];
    for n := 0 to |items|
      invariant forall item | item in items[..n] :: ClassOf(item, w, templates, stored).Some?
      invariant auto == Pick(items[..n], Auto, w, templates, stored)
      invariant confirm == Pick(items[..n], Confirm, w, templates, stored)
      invariant conflict == Pick(items[..n], Conflict, w, templates, stored)
      invariant skip == Pick(items[..n], Skip, w, templates, stored)
    {
      var item := items[n];
      assert items[..n + 1][..n] == items[..n];
      var kind: Option<Class>;
      if item.RenameDir? && !IsProtected(item.from) && w.Exists(item.from) {
        var safe := IsDirectorySafeToReplace(w, item.to, templates, stored);
        kind := if safe.None? then None else Some(if safe.value then Auto else Conflict);
      } else {
        kind := ClassOf(item, w, templates, stored);
      }
      match kind {
        case None =>
          assert item in items && ClassOf(item, w, templates, stored).None?;
          return None;
        case Some(Auto) => auto := auto + [item];
        case Some(Confirm) => confirm := confirm + [item];
        case Some(Conflict) => conflict := conflict + [item];
        case Some(Skip) => skip := skip + [item];
        case Some(Ignored) =>
      }
    }
    assert items[..|items|] == items;
    r := Some(Classified(auto, confirm, conflict, skip));
  }

  lemma PickSound(items: seq<Item>, kind: Class, w: World, templates: Templates, stored: Manifest, item: Item)
    requires item in Pick(items, kind, w, templates, stored)
    ensures item in items && ClassOf(item, w, templates, stored) == Some(kind)
  {
  }

  // ---------- Execution order ----------

  /** Directory renames come first, deeper sources before shallower ones. */
  function Rank(item: Item): nat {
    if item.RenameDir? then 1 + |item.from| else 0
  }

  function Insert(item: Item, sorted: seq<Item>): seq<Item> {
    if sorted == [] || Rank(item) >= Rank(sorted[0]) then [item] + sorted
    else [sorted[0]] + Insert(item, sorted[1..])
  }

  /** The host's stable sort under the execution comparator. */
  function SortForExecution(items: seq<Item>): seq<Item> {
    if items == [] then [] else Insert(items[0], SortForExecution(items[1..]))
  }

  // ---------- Execution ----------

  function ExecuteAuto(w: World, item: Item): Option<World> {
    match item
    case Rename(from, to) =>
      var w1 :- w.MkdirP(Parent(to));
      var w2 :- w1.RenameSync(from, to);
      Some(w2.RenameHash(from, to).CleanupEmptyDirs(Parent(from)))
    case RenameDir(from, to) =>
      var w1 :- w.RemoveTree(to).MkdirP(Parent(to));
      var w2 :- w1.RenameSync(from, to);
      Some(w2.RenameDirHashes(from, to))
    case Delete(from) =>
      var w1 :- w.Unlink(from);
      Some(w1.RemoveHash(from).CleanupEmptyDirs(Parent(from)))
    case _ => Some(w)
  }

  function ExecuteAutos(w: World, items: seq<Item>): Option<World>
    decreases |items|
  {
    if items == [] then Some(w)
    else
      var w1 :- ExecuteAuto(w, items[0]);
      ExecuteAutos(w1, items[1..])
  }

  datatype Action = Proceed | BackupFirst | LeaveAlone

  function WithSuffix(p: Path, suffix: string): Path {
    if p == [] then [suffix] else p[..|p| - 1] + [p[|p| - 1] + suffix]
  }

  function ExecuteConfirmed(w: World, item: Item, action: Action): Option<World> {
    if action == LeaveAlone then Some(w)
    else match item
      case Rename(from, to) =>
        var w1 :- w.MkdirP(Parent(to));
        var w2 :- if action == BackupFirst then w1.CopyFile(from, WithSuffix(to, ".backup")) else Some(w1);
        var w3 :- w2.RenameSync(from, to);
        Some(w3.RenameHash(from, to).CleanupEmptyDirs(Parent(from)))
      case Delete(from) =>
        var w1 :- if action == BackupFirst then w.CopyFile(from, WithSuffix(from, ".backup")) else Some(w);
        var w2 :- w1.Unlink(from);
        Some(w2.RemoveHash(from).CleanupEmptyDirs(Parent(from)))
      case _ => Some(w)
  }

  function ExecuteConfirms(w: World, items: seq<Item>, choose: Item -> Action): Option<World>
    decreases |items|
  {
    if items == [] then Some(w)
    else
      var w1 :- ExecuteConfirmed(w, items[0], choose(items[0]));
      ExecuteConfirms(w1, items[1..], choose)
  }

  /** Automatic items in execution order, then the confirmed ones with the chosen actions. */
  function Execute(w: World, c: Classified, choose: Item -> Action): Option<World> {
    var w1 :- ExecuteAutos(w, SortForExecution(c.auto));
    ExecuteConfirms(w1, c.confirm, choose)
  }

  // ---------- Stopping half-way ----------

  /** Where an automatic item may throw: after some of its file-system calls. */
  ghost predicate HalfAuto(w: World, item: Item, h: World) {
    match item
    case Rename(from, to) => h == w || w.MkdirP(Parent(to)) == Some(h)
    case RenameDir(from, to) => h == w || h == w.RemoveTree(to) || w.RemoveTree(to).MkdirP(Parent(to)) == Some(h)
    case Delete(from) => h == w
    case _ => false
  }

  ghost predicate HalfConfirmed(w: World, item: Item, action: Action, h: World) {
    match item
    case Rename(from, to) =>
      || h == w || w.MkdirP(Parent(to)) == Some(h)
      || (action == BackupFirst && w.MkdirP(Parent(to)).Some?
          && w.MkdirP(Parent(to)).value.CopyFile(from, WithSuffix(to, ".backup")) == Some(h))
    case Delete(from) => h == w || (action == BackupFirst && w.CopyFile(from, WithSuffix(from, ".backup")) == Some(h))
    case _ => false
  }

  /** Some items are done, and the next one threw. */
  ghost predicate StoppedAutos(w: World, items: seq<Item>, h: World)
    decreases |items|
  {
    && items != []
    && (|| HalfAuto(w, items[0], h)
        || (ExecuteAuto(w, items[0]).Some? && StoppedAutos(ExecuteAuto(w, items[0]).value, items[1..], h)))
  }

  ghost predicate StoppedConfirms(w: World, items: seq<Item>, choose: Item -> Action, h: World)
    decreases |items|
  {
    && items != []
    && var done := ExecuteConfirmed(w, items[0], choose(items[0]));
       || HalfConfirmed(w, items[0], choose(items[0]), h)
       || (done.Some? && StoppedConfirms(done.value, items[1..], choose, h))
  }

  ghost predicate StoppedExecute(w: World, c: Classified, choose: Item -> Action, h: World) {
    var w1 := ExecuteAutos(w, SortForExecution(c.auto));
    || StoppedAutos(w, SortForExecution(c.auto), h)
    || (w1.Some? && StoppedConfirms(w1.value, c.confirm, choose, h))
  }

  method RunAuto(root: Root, item: Item) returns (ok: bool)
    modifies root
    ensures Performs(ExecuteAuto(old(root.View()), item), ok, root.View(), root.faulty)
    ensures !ok ==> HalfAuto(old(root.View()), item, root.View())
  {
    match item {
      case Rename(from, to) =>
        ok := root.Attempt(root.View().MkdirP(Parent(to)));
        if !ok { return; }
        ok := root.Attempt(root.View().RenameSync(from, to));
        if !ok { return; }
        root.Store(root.View().RenameHash(from, to));
        root.CleanupEmptyDirs(Parent(from));
      case RenameDir(from, to) =>
        if root.View().Exists(to) {
          ok := root.Attempt(Some(root.View().RemoveTree(to)));
          if !ok { return; }
        }
        ok := root.Attempt(root.View().MkdirP(Parent(to)));
        if !ok { return; }
        ok := root.Attempt(root.View().RenameSync(from, to));
        if !ok { return; }
        root.RenameDirHashes(from, to);
      case Delete(from) =>
        ok := root.Attempt(root.View().Unlink(from));
        if !ok { return; }
        root.Store(root.View().RemoveHash(from));
        root.CleanupEmptyDirs(Parent(from));
      case _ =>
        ok := true;
    }
  }

  method RunConfirmed(root: Root, item: Item, action: Action) returns (ok: bool)
    modifies root
    ensures Performs(ExecuteConfirmed(old(root.View()), item, action), ok, root.View(), root.faulty)
    ensures !ok ==> HalfConfirmed(old(root.View()), item, action, root.View())
  {
    ok := true;
    if action == LeaveAlone { return; }
    match item {
      case Rename(from, to) =>
        ok := root.Attempt(root.View().MkdirP(Parent(to)));
        if ok && action == BackupFirst {
          ok := root.Attempt(root.View().CopyFile(from, WithSuffix(to, ".backup")));
        }
        if !ok { return; }
        ok := root.Attempt(root.View().RenameSync(from, to));
        if !ok { return; }
        root.Store(root.View().RenameHash(from, to));
        root.CleanupEmptyDirs(Parent(from));
      case Delete(from) =>
        if action == BackupFirst {
          ok := root.Attempt(root.View().CopyFile(from, WithSuffix(from, ".backup")));
        }
        if !ok { return; }
        ok := root.Attempt(root.View().Unlink(from));
        if !ok { return; }
        root.Store(root.View().RemoveHash(from));
        root.CleanupEmptyDirs(Parent(from));
      case _ =>
    }
  }

  method ExecuteMigrations(root: Root, c: Classified, choose: Item -> Action) returns (ok: bool)
    modifies root
    ensures Performs(Execute(old(root.View()), c, choose), ok, root.View(), root.faulty)
    ensures !ok ==> StoppedExecute(old(root.View()), c, choose, root.View())
  {
    var sorted := SortForExecution(c.auto);
    ghost var start := root.View();
    ghost var goal := ExecuteAutos(start, sorted);
    for n := 0 to |sorted|
      invariant ExecuteAutos(root.View(), sorted[n..]) == goal
      invariant forall h :: StoppedAutos(root.View(), sorted[n..], h) ==> StoppedAutos(start, sorted, h)
    {
      ok := RunAuto(root, sorted[n]);
      if !ok { return; }
    }
    ghost var middle := root.View();
    ghost var finish := ExecuteConfirms(middle, c.confirm, choose);
    for n := 0 to |c.confirm|
      invariant ExecuteConfirms(root.View(), c.confirm[n..], choose) == finish
      invariant forall h :: StoppedConfirms(root.View(), c.confirm[n..], choose, h) ==> StoppedConfirms(middle, c.confirm, choose, h)
    {
      ok := RunConfirmed(root, c.confirm[n], choose(c.confirm[n]));
      if !ok { return; }
    }
    ok := true;
  }

  // ---------- Where files end up ----------

  /** Where one automatic item leaves the file at `p`; `None` when it destroys the file. */
  function FateStep(item: Item, p: Path): Option<Path> {
    match item
    case Rename(from, to) =>
      if from <= p then Some(Rebase(p, from, to)) else if p == to then None else Some(p)
    case RenameDir(from, to) =>
      if to <= p then None else if from <= p then Some(Rebase(p, from, to)) else Some(p)
    case Delete(from) => if p == from then None else Some(p)
    case _ => Some(p)
  }

  function Fate(items: seq<Item>, p: Path): Option<Path> {
    if items == [] then Some(p)
    else
      var q :- FateStep(items[0], p);
      Fate(items[1..], q)
  }

  /** `after` holds exactly the surviving files of `before`, unchanged, at the places their fates name. */
  ghost predicate FollowsFate(before: map<Path, File>, items: seq<Item>, after: map<Path, File>) {
    && (forall p | p in before && Fate(items, p).Some? ::
          Fate(items, p).value in after && after[Fate(items, p).value] == before[p])
    && (forall q | q in after :: exists p | p in before :: Fate(items, p) == Some(q))
  }

  lemma RemoveTreeFiles(w: World, p: Path)
    ensures w.RemoveTree(p).files == map q | q in w.files && !(p <= q) :: w.files[q]
  {
    if !w.Exists(p) {
      forall q | q in w.files
        ensures !(p <= q)
      {
        assert q in w.Entries();
      }
    }
  }

  lemma NothingBelow(w: World, p: Path)
    requires !w.Exists(p) || !w.HasChild(p)
    ensures forall q | q in w.files :: !(p < q)
  {
    forall q | q in w.files
      ensures !(p < q)
    {
      assert q in w.Entries();
    }
  }

  lemma StepFollowsFate(w: World, item: Item, w': World)
    requires ExecuteAuto(w, item) == Some(w')
    ensures forall p | p in w.files && FateStep(item, p).Some? ::
              FateStep(item, p).value in w'.files && w'.files[FateStep(item, p).value] == w.files[p]
    ensures forall q | q in w'.files :: exists p | p in w.files :: FateStep(item, p) == Some(q)
  {
    match item {
      case Rename(from, to) =>
        var w1 := w.MkdirP(Parent(to)).value;
        var w2 := w1.RenameSync(from, to).value;
        if from != to {
          NothingBelow(w1, to);
        }
        RenameImage(w.files, w2.files, item, from, to);
      case RenameDir(from, to) =>
        var w1 := w.RemoveTree(to);
        RemoveTreeFiles(w, to);
        var w2 := w1.MkdirP(Parent(to)).value.RenameSync(from, to).value;
        RenameImage(w1.files, w2.files, item, from, to);
      case Delete(from) =>
        var w1 := w.Unlink(from).value;
        assert forall q | q in w'.files :: FateStep(item, q) == Some(q);
      case _ =>
        assert forall q | q in w'.files :: FateStep(item, q) == Some(q);
    }
  }

  lemma RenameImage(before: map<Path, File>, after: map<Path, File>, item: Item, from: Path, to: Path)
    requires HasTarget(item) && item.from == from && item.to == to
    requires from == to || (Disjoint(from, to) && forall p | p in before :: !(to < p))
    requires item.RenameDir? ==> forall p | p in before :: !(to <= p)
    requires after == if from == to then before
                      else (map q | q in before && !(from <= q) && q != to :: before[q]) + MoveKeys(before, from, to)
    ensures forall p | p in before && FateStep(item, p).Some? ::
              FateStep(item, p).value in after && after[FateStep(item, p).value] == before[p]
    ensures forall q | q in after :: exists p | p in before :: FateStep(item, p) == Some(q)
  {
    var moved := MoveKeys(before, from, to);
    forall p | p in before && FateStep(item, p).Some?
      ensures FateStep(item, p).value in after && after[FateStep(item, p).value] == before[p]
    {
      if from == to {
        assert from <= p ==> Rebase(p, from, to) == p;
      } else if from <= p {
        assert Rebase(p, from, to) in moved;
      } else {
        assert p !in moved;
      }
    }
    forall q | q in after
      ensures exists p | p in before :: FateStep(item, p) == Some(q)
    {
      if from == to {
        assert from <= q ==> Rebase(q, from, to) == q;
        assert FateStep(item, q) == Some(q);
      } else if q in moved {
        assert FateStep(item, Rebase(q, to, from)) == Some(q);
      } else {
        assert FateStep(item, q) == Some(q);
      }
    }
  }
}
