/** Comparing the shipped templates with the project before an update. */
module Analysis {
  import opened Wrappers
  import opened Paths
  import opened Workspace
  import opened Migrations

  datatype Status = New | Unchanged | AutoUpdate | Changed | UserDeleted

  /** `None` when a directory stands where the template belongs. */
  function StatusOf(p: Path, w: World, templates: Templates, stored: Manifest): Option<Status>
    requires p in templates
  {
    if !w.Exists(p) then Some(if p in stored then UserDeleted else New)
    else if p !in w.files then None
    else if w.files[p].bytes == templates[p] then Some(Unchanged)
    else if p in stored && stored[p] == ComputeHash(w.files[p].bytes) then Some(AutoUpdate)
    else Some(Changed)
  }

  datatype Changes = Changes(newFiles: seq<Path>, upToDate: seq<Path>, autoUpdate: seq<Path>,
                             changed: seq<Path>, userDeleted: seq<Path>)

  ghost predicate Lists(keys: seq<Path>, templates: Templates) {
    forall p :: p in keys <==> p in templates
  }

  function Select(keys: seq<Path>, status: Status, w: World, templates: Templates, stored: Manifest): seq<Path>
    requires forall p | p in keys :: p in templates
  {
    if keys == [] then []
    else
      var last := keys[|keys| - 1];
      Select(keys[..|keys| - 1], status, w, templates, stored)
      + if StatusOf(last, w, templates, stored) == Some(status) then [last] else []
  }

  /** Each list holds exactly the templates of its status. */
  lemma {:induction false} SelectExact(keys: seq<Path>, status: Status, w: World, templates: Templates, stored: Manifest)
    requires forall p | p in keys :: p in templates
    ensures forall p :: p in Select(keys, status, w, templates, stored) <==>
                        p in keys && StatusOf(p, w, templates, stored) == Some(status)
  {
    if keys != [] {
      var n := |keys| - 1;
      SelectExact(keys[..n], status, w, templates, stored);
      assert keys == keys[..n] + [keys[n]];
    }
  }

  function Analyze(keys: seq<Path>, w: World, templates: Templates, stored: Manifest): Option<Changes>
    requires forall p | p in keys :: p in templates
  {
    if exists p | p in keys :: StatusOf(p, w, templates, stored).None? then None
    else Some(Changes(Select(keys, New, w, templates, stored), Select(keys, Unchanged, w, templates, stored),
                      Select(keys, AutoUpdate, w, templates, stored), Select(keys, Changed, w, templates, stored),
                      Select(keys, UserDeleted, w, templates, stored)))
  }

  method AnalyzeChanges(keys: seq<Path>, w: World, templates: Templates, stored: Manifest) returns (r: Option<Changes>)
    requires forall p | p in keys :: p in templates
    ensures r == Analyze(keys, w, templates, stored)
  {
    var c := Changes([], [], [], [], []);
    for n := 0 to |keys|
      invariant forall p | p in keys[..n] :: StatusOf(p, w, templates, stored).Some?
      invariant c.newFiles == Select(keys[..n], New, w, templates, stored)
      invariant c.upToDate == Select(keys[..n], Unchanged, w, templates, stored)
      invariant c.autoUpdate == Select(keys[..n], AutoUpdate, w, templates, stored)
      invariant c.changed == Select(keys[..n], Changed, w, templates, stored)
      invariant c.userDeleted == Select(keys[..n], UserDeleted, w, templates, stored)
    {
      var p := keys[n];
      assert keys[..n + 1][..n] == keys[..n];
      match StatusOf(p, w, templates, stored) {
        case None =>
          assert p in keys && StatusOf(p, w, templates, stored).None?;
          return None;
        case Some(New) => c := c.(newFiles := c.newFiles + [p]);
        case Some(Unchanged) => c := c.(upToDate := c.upToDate + [p]);
        case Some(AutoUpdate) => c := c.(autoUpdate := c.autoUpdate + [p]);
        case Some(Changed) => c := c.(changed := c.changed + [p]);
        case Some(UserDeleted) => c := c.(userDeleted := c.userDeleted + [p]);
      }
    }
    assert keys[..|keys|] == keys;
    r := Some(c);
  }

  /** Files equal to their template that the manifest does not know yet. */
  function MissingHashes(c: Changes, templates: Templates, stored: Manifest): map<Path, string>
    requires forall p | p in c.upToDate :: p in templates
  {
    map p | p in c.upToDate && !IsMiddleware(p) && p !in stored :: templates[p]
  }

  method CollectMissingTemplateHashes(c: Changes, templates: Templates, stored: Manifest)
      returns (files: map<Path, string>)
    requires forall p | p in c.upToDate :: p in templates
    ensures files == MissingHashes(c, templates, stored)
  {
    files := map[];
    for n := 0 to |c.upToDate|
      invariant files == map p | p in c.upToDate[..n] && !IsMiddleware(p) && p !in stored :: templates[p]
    {
      var p := c.upToDate[n];
      assert c.upToDate[..n + 1] == c.upToDate[..n] + [p];
      if !IsMiddleware(p) && p !in stored {
        files := files[p := templates[p]];
      }
    }
    assert c.upToDate[..|c.upToDate|] == c.upToDate;
  }
}
