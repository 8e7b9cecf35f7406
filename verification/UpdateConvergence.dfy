/** What a second analysis finds after an update without migrations or deletions. */
module UpdateConvergence {
  import opened Wrappers
  import opened Text
  import opened Paths
  import opened CanonicalPaths
  import opened Workspace
  import opened Migrations
  import opened SafeDeletes
  import opened Analysis
  import opened SkipConfig
  import opened SkipConfigText
  import opened SkipConfigTheorems
  import opened Update
  import opened UpdateRun
  import opened UpdateConservation

  function CopyPath(p: Path): Path {
    WithSuffix(p, ".new")
  }

  /** The shipped paths keep clear of each other, of copies, of the version file and of the backup. */
  ghost predicate TidyRelease(req: Request) {
    && SoundRelease(req)
    && (forall p, q | p in req.official && q in req.official :: !(p < q))
    && (forall p, q | p in req.official && q in req.official :: CopyPath(q) != p)
    && (forall p | p in req.official :: p != [] && !(p < VERSION_FILE) && Disjoint(p, BackupDir(req.stamp)))
    && (CONFIG in req.official ==> ReadText(req.official[CONFIG]) == [])
  }

  /** Neither migrations nor deletions are due. */
  predicate OnlyTemplates(plan: Plan, req: Request) {
    && (req.flags.migrate ==> plan.classified.auto == [] && plan.classified.confirm == [])
    && !exists j | j in plan.judged :: j.verdict == Remove
  }

  // ---------- What the writes are ----------

  lemma {:induction false} WritesAre(ws: seq<Write>, canonical: bool)
    ensures forall x :: x in WritesOf(ws, canonical) <==> x in ws && IsCanonical(x.path) == canonical
  {
    if ws != [] {
      WritesAre(ws[1..], canonical);
    }
  }

  lemma {:induction false} ChangedWritesAre(changed: seq<Path>, templates: Templates, resolve: Path -> Resolution)
    requires forall p | p in changed :: p in templates
    ensures forall x | x in ChangedWrites(changed, templates, resolve) ::
              exists p | p in changed :: x.bytes == templates[p]
                && ((x.path == p && resolve(p) == Overwrite) || (x.path == CopyPath(p) && resolve(p) == CreateCopy))
    ensures forall p | p in changed && resolve(p) == Overwrite ::
              Write(p, templates[p]) in ChangedWrites(changed, templates, resolve)
  {
    if changed != [] {
      ChangedWritesAre(changed[1..], templates, resolve);
      assert changed == [changed[0]] + changed[1..];
    }
  }

  lemma {:induction false} CopiesAre(paths: seq<Path>, templates: Templates)
    requires forall p | p in paths :: p in templates
    ensures forall x | x in Copies(paths, templates) :: x.path in paths && x.bytes == templates[x.path]
    ensures forall p | p in paths :: Write(p, templates[p]) in Copies(paths, templates)
  {
    if paths != [] {
      CopiesAre(paths[1..], templates);
      assert paths == [paths[0]] + paths[1..];
    }
  }

  /** Does the run write the template at `p`? */
  ghost predicate WritesTemplate(plan: Plan, req: Request, p: Path) {
    p in plan.changes.newFiles || p in plan.changes.autoUpdate || (p in plan.changes.changed && req.Resolve(p) == Overwrite)
  }

  ghost predicate FromRelease(plan: Plan, req: Request) {
    Fits(plan) && forall p | p in plan.templates :: p in req.official && plan.templates[p] == req.official[p]
  }

  lemma PlanFromRelease(w: World, plan: Plan, req: Request)
    requires MakePlan(w, req) == Some(plan)
    ensures FromRelease(plan, req)
  {
    PlanFits(w, req);
  }

  /** At shipped paths the run writes templates only. */
  lemma TemplateWriteIs(plan: Plan, req: Request, x: Write) returns (source: Path)
    requires FromRelease(plan, req) && TidyRelease(req) && x in TemplateWrites(plan, req.Resolver())
    ensures source in req.official && (x.path == source || x.path == CopyPath(source))
    ensures x.path in req.official ==> WritesTemplate(plan, req, x.path) && x.bytes == req.official[x.path]
  {
    var c := plan.changes;
    if x in Copies(c.newFiles, plan.templates) {
      CopiesAre(c.newFiles, plan.templates);
      source := x.path;
    } else if x in Copies(c.autoUpdate, plan.templates) {
      CopiesAre(c.autoUpdate, plan.templates);
      source := x.path;
    } else {
      ChangedWritesAre(c.changed, plan.templates, req.Resolver());
      source :| source in c.changed && x.bytes == plan.templates[source]
                && ((x.path == source && req.Resolve(source) == Overwrite)
                    || (x.path == CopyPath(source) && req.Resolve(source) == CreateCopy));
    }
  }

  lemma TemplateIsWritten(plan: Plan, req: Request, p: Path)
    requires FromRelease(plan, req) && WritesTemplate(plan, req, p)
    ensures p in plan.templates && Write(p, req.official[p]) in TemplateWrites(plan, req.Resolver())
  {
    var c := plan.changes;
    CopiesAre(c.newFiles, plan.templates);
    CopiesAre(c.autoUpdate, plan.templates);
    ChangedWritesAre(c.changed, plan.templates, req.Resolver());
  }

  /** What a list of writes leaves at `p` when all writes to `p` agree. */
  lemma {:induction false} LastBytesAt(ws: seq<Write>, p: Path, bytes: string)
    requires forall x | x in ws && x.path == p :: x.bytes == bytes
    ensures p in LastBytes(ws) <==> exists x | x in ws :: x.path == p
    ensures p in LastBytes(ws) ==> LastBytes(ws)[p] == bytes
  {
    if ws != [] {
      var n := |ws| - 1;
      LastBytesAt(ws[..n], p, bytes);
      assert ws == ws[..n] + [ws[n]];
      if p in LastBytes(ws[..n]) {
        var x :| x in ws[..n] && x.path == p;
        assert x in ws;
      }
      if ws[n].path == p {
        assert ws[n] in ws;
      }
    }
  }

  /** No template is copied, stamped or backed up to this path. */
  ghost predicate Clear(req: Request, p: Path) {
    && p != VERSION_FILE && !(BackupDir(req.stamp) <= p)
    && forall q | q in req.official :: CopyPath(q) != p
  }

  lemma ShippedIsClear(req: Request, p: Path)
    requires TidyRelease(req) && p in req.official
    ensures Clear(req, p)
  {
  }

  lemma ConfigIsClear(req: Request)
    ensures Clear(req, CONFIG)
  {
    assert ".backup-"[0] == '.' && "config.yaml"[0] == 'c' && "config.yaml"[10] == 'l' && |"config.yaml"| == 11;
    assert BackupDir(req.stamp)[1] != CONFIG[1] && VERSION_FILE[1][0] == '.';
    forall q
      ensures CopyPath(q) != CONFIG
    {
      var copy := CopyPath(q);
      assert copy[|copy| - 1][|copy[|copy| - 1]| - 1] == 'w';
    }
  }

  lemma NothingElseWritten(plan: Plan, req: Request, canonical: bool, p: Path)
    requires FromRelease(plan, req) && TidyRelease(req) && Clear(req, p) && p !in req.official
    ensures p !in LastBytes(WritesOf(TemplateWrites(plan, req.Resolver()), canonical)) && !WritesTemplate(plan, req, p)
  {
    var all := TemplateWrites(plan, req.Resolver());
    var ws := WritesOf(all, canonical);
    WritesAre(all, canonical);
    forall x | x in ws
      ensures x.path != p
    {
      var _ := TemplateWriteIs(plan, req, x);
    }
    LastBytesAt(ws, p, "");
  }

  lemma LastTemplate(plan: Plan, req: Request, canonical: bool, p: Path)
    requires FromRelease(plan, req) && TidyRelease(req) && p in req.official && IsCanonical(p) == canonical
    ensures var bytes := LastBytes(WritesOf(TemplateWrites(plan, req.Resolver()), canonical));
            (p in bytes <==> WritesTemplate(plan, req, p)) && (p in bytes ==> bytes[p] == req.official[p])
  {
    var all := TemplateWrites(plan, req.Resolver());
    var ws := WritesOf(all, canonical);
    WritesAre(all, canonical);
    forall x | x in ws && x.path == p
      ensures x.bytes == req.official[p] && WritesTemplate(plan, req, p)
    {
      var _ := TemplateWriteIs(plan, req, x);
    }
    LastBytesAt(ws, p, req.official[p]);
    if WritesTemplate(plan, req, p) {
      TemplateIsWritten(plan, req, p);
      assert Write(p, req.official[p]) in ws;
    }
  }

  // ---------- A run that only handles templates ----------

  lemma {:induction false} NothingToDelete(w: World, judged: seq<Judged>)
    requires forall j | j in judged :: j.verdict != Remove
    ensures DeleteAll(w, judged) == w
    decreases |judged|
  {
    if judged != [] {
      assert judged[0] in judged;
      NothingToDelete(w, judged[1..]);
    }
  }

  lemma NothingToDeleteIn(w: World, plan: Plan, req: Request, canonical: bool)
    requires OnlyTemplates(plan, req)
    ensures DeleteAll(w, JudgedOf(plan.judged, canonical)) == w
  {
    JudgedOfSubset(plan.judged, canonical);
    forall j | j in JudgedOf(plan.judged, canonical)
      ensures j.verdict != Remove
    {
      assert j in plan.judged;
    }
    NothingToDelete(w, JudgedOf(plan.judged, canonical));
  }

  lemma NothingToMigrate(w: World, plan: Plan, req: Request, canonical: bool)
    requires OnlyTemplates(plan, req) && req.flags.migrate && PartOf(plan.classified, canonical).Some?
    ensures Execute(w, PartOf(plan.classified, canonical).value, req.Chooser()) == Some(w)
  {
  }

  /** The candidate before the manifest is updated. */
  function StagedTree(build0: World, plan: Plan, req: Request): Option<World>
    requires Fits(plan)
  {
    var build3 :- WriteAll(build0, WritesOf(TemplateWrites(plan, req.Resolver()), true));
    if Idle(plan, req.flags) && req.sameVersion then Some(build3) else build3.WriteFile(VERSION_FILE, req.version)
  }

  function Recorded(plan: Plan, req: Request, build: World): map<Path, string>
    requires Fits(plan)
  {
    if Idle(plan, req.flags) then MissingHashes(plan.changes, plan.templates, plan.stored)
    else FilesToHash(plan, TemplateWrites(plan, req.Resolver()), build)
  }

  ghost predicate CandidateFrom(build0: World, plan: Plan, req: Request, candidate: World)
    requires Fits(plan)
  {
    && StagedTree(build0, plan, req).Some?
    && candidate.files == StagedTree(build0, plan, req).value.files
    && candidate.hashes == build0.hashes + HashesOf(Recorded(plan, req, StagedTree(build0, plan, req).value))
  }

  lemma IdleCandidate(build0: World, plan: Plan, req: Request, candidate: World)
    requires Fits(plan) && Idle(plan, req.flags) && Candidate(build0, plan, req) == Some(candidate)
    ensures CandidateFrom(build0, plan, req, candidate)
  {
    assert TemplateWrites(plan, req.Resolver()) == [];
    assert WriteAll(build0, WritesOf([], true)) == Some(build0);
    var missing := MissingHashes(plan.changes, plan.templates, plan.stored);
    WritingIgnoresHashes(build0, build0.UpdateHashes(missing).hashes, VERSION_FILE, req.version);
    assert Recorded(plan, req, build0) == missing;
  }

  lemma WritingIgnoresHashes(w: World, hashes: Manifest, p: Path, bytes: string)
    ensures var other := w.(hashes := hashes);
            match w.WriteFile(p, bytes)
            case None => other.WriteFile(p, bytes).None?
            case Some(w') => other.WriteFile(p, bytes) == Some(w'.(hashes := hashes)) && w'.hashes == w.hashes
  {
    var other := w.(hashes := hashes);
    var a, b := w.MkdirP(Parent(p)), other.MkdirP(Parent(p));
    if a.Some? {
      assert a.value.Entries() == b.value.Entries();
    }
  }

  lemma ActiveCandidate(build0: World, plan: Plan, req: Request, candidate: World)
    requires Fits(plan) && !Idle(plan, req.flags) && OnlyTemplates(plan, req)
    requires Candidate(build0, plan, req) == Some(candidate)
    ensures CandidateFrom(build0, plan, req, candidate)
  {
    NothingToDeleteIn(build0, plan, req, true);
    if req.flags.migrate {
      NothingToMigrate(build0, plan, req, true);
    }
    var ws := TemplateWrites(plan, req.Resolver());
    var build3 := WriteAll(build0, WritesOf(ws, true)).value;
    var build4 := build3.WriteFile(VERSION_FILE, req.version).value;
    assert StagedTree(build0, plan, req) == Some(build4);
    StagedHashesApart(build0, plan, req);
    assert candidate == build4.UpdateHashes(FilesToHash(plan, ws, build4));
  }

  lemma StagedHashesApart(build0: World, plan: Plan, req: Request)
    requires Fits(plan) && StagedTree(build0, plan, req).Some?
    ensures StagedTree(build0, plan, req).value.hashes == build0.hashes
  {
    WriteAllFiles(build0, WritesOf(TemplateWrites(plan, req.Resolver()), true),
                  WriteAll(build0, WritesOf(TemplateWrites(plan, req.Resolver()), true)).value);
  }

  lemma LiveIs(live: World, plan: Plan, req: Request, after: World)
    requires Fits(plan) && OnlyTemplates(plan, req) && ApplyLive(live, plan, req) == Some(after)
    ensures WriteAll(live, WritesOf(TemplateWrites(plan, req.Resolver()), false)) == Some(after)
  {
    NothingToDeleteIn(live, plan, req, false);
    if req.flags.migrate {
      NothingToMigrate(live, plan, req, false);
    }
  }

  /** The states of a run that only handles templates, idle or not. */
  ghost predicate TakesCourse(w: World, req: Request, plan: Plan, after: World, candidate: World, live0: World, live3: World)
    requires Fits(plan)
  {
    && Seed(w, plan.stored).Some? && CandidateFrom(Seed(w, plan.stored).value, plan, req, candidate)
    && (exists backed :: SameButBackup(w, backed, req.stamp) && Commit(backed, candidate) == Some(live0))
    && WriteAll(live0, WritesOf(TemplateWrites(plan, req.Resolver()), false)) == Some(live3)
    && after == if Idle(plan, req.flags) then live3 else PruneSkips(live3, req.official)
  }

  lemma Course(w: World, req: Request, plan: Plan, after: World) returns (candidate: World, live0: World, live3: World)
    requires MakePlan(w, req) == Some(plan) && Fits(plan) && OnlyTemplates(plan, req) && UpdateSpec(w, req) == Some(after)
    ensures TakesCourse(w, req, plan, after, candidate, live0, live3)
  {
    var build0 := Seed(w, plan.stored).value;
    candidate := Candidate(build0, plan, req).value;
    if Idle(plan, req.flags) {
      IdleCandidate(build0, plan, req, candidate);
      assert TemplateWrites(plan, req.Resolver()) == [];
      assert SameButBackup(w, w, req.stamp);
      live0, live3 := after, after;
    } else {
      ActiveCandidate(build0, plan, req, candidate);
      BackupOnlyAdds(w, req.stamp);
      live0 := Commit(Backup(w, req.stamp).value, candidate).value;
      live3 := ApplyLive(live0, plan, req).value;
      LiveIs(live0, plan, req, live3);
    }
  }

  // ---------- One shipped path ----------

  /** What the staging leaves at a path other than the version file. */
  lemma StagedAt(build0: World, plan: Plan, req: Request, staged: World, p: Path)
    requires Fits(plan) && StagedTree(build0, plan, req) == Some(staged) && p != VERSION_FILE
    ensures var bytes := LastBytes(WritesOf(TemplateWrites(plan, req.Resolver()), true));
            && (p in staged.files <==> p in build0.files || p in bytes)
            && (p in staged.files ==> staged.files[p].bytes == if p in bytes then bytes[p] else build0.files[p].bytes)
  {
    var ws := WritesOf(TemplateWrites(plan, req.Resolver()), true);
    var build3 := WriteAll(build0, ws).value;
    WriteAllFiles(build0, ws, build3);
    if !(Idle(plan, req.flags) && req.sameVersion) {
      OneWrite(build3, VERSION_FILE, req.version);
    }
  }

  /** The bytes at a path when everything is written, before the pruning; `None` when no file is there. */
  ghost function Applied(w: World, req: Request, plan: Plan, p: Path): Option<string>
    requires FromRelease(plan, req)
  {
    if WritesTemplate(plan, req, p) then Some(req.official[p])
    else if p in w.files then Some(w.files[p].bytes)
    else None
  }

  ghost predicate HasBytes(w: World, p: Path, bytes: Option<string>) {
    (p in w.files <==> bytes.Some?) && (p in w.files ==> w.files[p].bytes == bytes.value)
  }

  /** The candidate at a path that the generation walk finds. */
  lemma StagedPath(w: World, req: Request, plan: Plan, candidate: World, p: Path)
    requires FromRelease(plan, req) && TidyRelease(req) && (p in req.official || Clear(req, p)) && Discovered(p)
    requires Seed(w, plan.stored).Some? && CandidateFrom(Seed(w, plan.stored).value, plan, req, candidate)
    ensures HasBytes(candidate, p, Applied(w, req, plan, p))
  {
    var build0 := Seed(w, plan.stored).value;
    DiscoveredIsCanonical(p, p);
    if p in req.official {
      ShippedIsClear(req, p);
      LastTemplate(plan, req, true, p);
    } else {
      NothingElseWritten(plan, req, true, p);
    }
    StagedAt(build0, plan, req, StagedTree(build0, plan, req).value, p);
  }

  /** The commit brings the generation; everywhere else the project is as it was. */
  lemma CommittedPath(w: World, req: Request, plan: Plan, candidate: World, backed: World, live0: World, p: Path)
    requires FromRelease(plan, req) && TidyRelease(req) && (p in req.official || Clear(req, p))
    requires Seed(w, plan.stored).Some? && CandidateFrom(Seed(w, plan.stored).value, plan, req, candidate)
    requires SameButBackup(w, backed, req.stamp) && Commit(backed, candidate) == Some(live0)
    ensures HasBytes(live0, p, if Discovered(p) then Applied(w, req, plan, p)
                               else if p in w.files then Some(w.files[p].bytes) else None)
  {
    if p in req.official {
      ShippedIsClear(req, p);
    }
    if Discovered(p) {
      StagedPath(w, req, plan, candidate, p);
    }
    CommitContent(backed, candidate, live0);
    CommitDomain(backed, candidate, live0);
  }

  lemma PathOnCourse(w: World, req: Request, plan: Plan, after: World, candidate: World, live0: World, live3: World, p: Path)
    requires FromRelease(plan, req) && TidyRelease(req) && (p in req.official || Clear(req, p))
    requires TakesCourse(w, req, plan, after, candidate, live0, live3)
    ensures HasBytes(live3, p, Applied(w, req, plan, p))
  {
    var backed :| SameButBackup(w, backed, req.stamp) && Commit(backed, candidate) == Some(live0);
    CommittedPath(w, req, plan, candidate, backed, live0, p);
    LiveWritesAt(plan, req, p);
    WriteAllFiles(live0, WritesOf(TemplateWrites(plan, req.Resolver()), false), live3);
  }

  /** The deferred writes at a path: its template, if the run writes it and the generation does not have it. */
  lemma LiveWritesAt(plan: Plan, req: Request, p: Path)
    requires FromRelease(plan, req) && TidyRelease(req) && (p in req.official || Clear(req, p))
    ensures var bytes := LastBytes(WritesOf(TemplateWrites(plan, req.Resolver()), false));
            && (p in bytes <==> WritesTemplate(plan, req, p) && !Discovered(p))
            && (p in bytes ==> p in req.official && bytes[p] == req.official[p])
  {
    if p in req.official {
      LastTemplate(plan, req, IsCanonical(p), p);
      WrongSide(plan, req, p);
      if Discovered(p) {
        DiscoveredIsCanonical(p, p);
      }
    } else {
      NothingElseWritten(plan, req, false, p);
    }
  }

  lemma WrongSide(plan: Plan, req: Request, p: Path)
    requires Fits(plan)
    ensures p !in LastBytes(WritesOf(TemplateWrites(plan, req.Resolver()), !IsCanonical(p)))
  {
    var ws := WritesOf(TemplateWrites(plan, req.Resolver()), !IsCanonical(p));
    WritesAre(TemplateWrites(plan, req.Resolver()), !IsCanonical(p));
    LastBytesAt(ws, p, "");
  }

  // ---------- Existence ----------

  lemma {:induction false} WriteAllDirs(w: World, ws: seq<Write>, w': World)
    requires WriteAll(w, ws) == Some(w')
    ensures w.dirs <= w'.dirs
    ensures forall d | d in w'.dirs :: d in w.dirs || exists x | x in ws :: d == Parent(x.path)
    decreases |ws|
  {
    if ws != [] {
      var w1 := w.WriteFile(ws[0].path, ws[0].bytes).value;
      WriteAllDirs(w1, ws[1..], w');
      assert ws == [ws[0]] + ws[1..];
    }
  }

  lemma {:induction false} LastBytesPaths(ws: seq<Write>)
    ensures forall p | p in LastBytes(ws) :: exists x | x in ws :: x.path == p
  {
    if ws != [] {
      LastBytesPaths(ws[..|ws| - 1]);
      assert ws == ws[..|ws| - 1] + [ws[|ws| - 1]];
    }
  }

  /** Every entry of `after` lies at or above an entry of `before` or one of `extra`. */
  ghost predicate Covered(after: World, before: World, extra: set<Path>) {
    forall e | e in after.Entries() :: before.Exists(e) || exists x | x in extra :: e <= x
  }

  lemma WriteAllCovered(w: World, ws: seq<Write>, w': World, extra: set<Path>)
    requires WriteAll(w, ws) == Some(w') && forall x | x in ws :: x.path in extra
    ensures Covered(w', w, extra)
  {
    WriteAllFiles(w, ws, w');
    WriteAllDirs(w, ws, w');
    LastBytesPaths(ws);
    forall e | e in w'.Entries()
      ensures w.Exists(e) || exists x | x in extra :: e <= x
    {
      if e in w.Entries() {
        assert w.Exists(e);
      } else if e in LastBytes(ws) {
        assert e in extra;
      } else {
        var x :| x in ws && e == Parent(x.path);
        assert x.path in extra && e <= x.path;
      }
    }
  }

  lemma StagedCovered(build0: World, plan: Plan, req: Request, staged: World, extra: set<Path>)
    requires Fits(plan) && StagedTree(build0, plan, req) == Some(staged)
    requires VERSION_FILE in extra && forall x | x in TemplateWrites(plan, req.Resolver()) :: x.path in extra
    ensures forall f | f in staged.files :: f in build0.files || f in extra
    ensures forall f | f in build0.files :: f in staged.files
  {
    var ws := WritesOf(TemplateWrites(plan, req.Resolver()), true);
    WritesAre(TemplateWrites(plan, req.Resolver()), true);
    WriteAllFiles(build0, ws, WriteAll(build0, ws).value);
    LastBytesPaths(ws);
  }

  /** The written paths: shipped ones, copies, and the version file. */
  ghost function Extra(plan: Plan, req: Request): set<Path>
    requires Fits(plan)
  {
    (set x | x in TemplateWrites(plan, req.Resolver()) :: x.path) + {VERSION_FILE}
  }

  lemma NothingWrittenBelow(plan: Plan, req: Request, p: Path, x: Path)
    requires FromRelease(plan, req) && TidyRelease(req) && p in req.official
    requires x in Extra(plan, req) && p <= x
    ensures WritesTemplate(plan, req, p)
  {
    if x == VERSION_FILE {
      PrefixOrProper(p, x);
    } else {
      var t :| t in TemplateWrites(plan, req.Resolver()) && t.path == x;
      var source := TemplateWriteIs(plan, req, t);
      assert source in req.official;
      if p != x {
        PrefixOrProper(p, x);
        if x == CopyPath(source) {
          BelowCopy(p, source);
        }
      }
    }
  }

  lemma BelowCopy(p: Path, source: Path)
    requires p < CopyPath(source) && p != []
    ensures p < source
  {
    if source != [] {
      assert p <= CopyPath(source)[..|source| - 1];
    }
  }

  lemma OutsideBackup(p: Path, e: Path, stamp: Name)
    requires p <= e && Disjoint(p, BackupDir(stamp))
    ensures !(BackupDir(stamp) <= e)
  {
    if BackupDir(stamp) <= e {
      PrefixesCompare(p, BackupDir(stamp), e);
    }
  }

  lemma ShippedPathExists(w: World, req: Request, plan: Plan, after: World, candidate: World, live0: World, live3: World, p: Path)
    requires FromRelease(plan, req) && TidyRelease(req) && p in req.official
    requires TakesCourse(w, req, plan, after, candidate, live0, live3)
    ensures live3.Exists(p) <==> w.Exists(p) || WritesTemplate(plan, req, p)
  {
    var backed :| SameButBackup(w, backed, req.stamp) && Commit(backed, candidate) == Some(live0);
    var build0, ws := Seed(w, plan.stored).value, WritesOf(TemplateWrites(plan, req.Resolver()), false);
    WritesAre(TemplateWrites(plan, req.Resolver()), false);
    StagedCovered(build0, plan, req, StagedTree(build0, plan, req).value, Extra(plan, req));
    WriteAllFiles(live0, ws, live3);
    WriteAllDirs(live0, ws, live3);
    CommitDomain(backed, candidate, live0);
    if w.Exists(p) {
      var e :| e in w.Entries() && p <= e;
      OutsideBackup(p, e, req.stamp);
      assert e in live0.Entries();
      assert e in live3.Entries();
    }
    if WritesTemplate(plan, req, p) {
      PathOnCourse(w, req, plan, after, candidate, live0, live3, p);
      assert p in live3.Entries();
    }
    if live3.Exists(p) {
      var e :| e in live3.Entries() && p <= e;
      WriteAllCovered(live0, ws, live3, Extra(plan, req));
      ExistsBackwards(w, req, plan, backed, candidate, live0, p, e);
    }
  }

  lemma ExistsBackwards(w: World, req: Request, plan: Plan, backed: World, candidate: World, live0: World, p: Path, e: Path)
    requires FromRelease(plan, req) && TidyRelease(req) && p in req.official && p <= e
    requires Seed(w, plan.stored).Some? && CandidateFrom(Seed(w, plan.stored).value, plan, req, candidate)
    requires SameButBackup(w, backed, req.stamp) && Commit(backed, candidate) == Some(live0)
    requires live0.Exists(e) || exists x | x in Extra(plan, req) :: e <= x
    ensures w.Exists(p) || WritesTemplate(plan, req, p)
  {
    if x :| x in Extra(plan, req) && e <= x {
      NothingWrittenBelow(plan, req, p, x);
    } else {
      var build0 := Seed(w, plan.stored).value;
      StagedCovered(build0, plan, req, StagedTree(build0, plan, req).value, Extra(plan, req));
      var f :| f in live0.Entries() && e <= f;
      OutsideBackup(p, f, req.stamp);
      var source := LiveEntrySource(backed, candidate, live0, f);
      assert p <= source;
      if source in Extra(plan, req) {
        NothingWrittenBelow(plan, req, p, source);
      } else {
        OutsideBackup(p, source, req.stamp);
        assert source in w.Entries();
      }
    }
  }

  /** An entry after the commit lies at or above a file of the candidate or an entry from before. */
  lemma LiveEntrySource(live: World, build: World, after: World, e: Path) returns (source: Path)
    requires Commit(live, build) == Some(after) && e in after.Entries()
    ensures e <= source && (source in live.Entries() || source in build.files)
  {
    CommitDomain(live, build, after);
    assert forall p: Path :: Parent(p) <= p;
    if e in live.dirs || e in live.files || e in build.files {
      source := e;
    } else if p :| p in CanonicalFiles(build) && e == Parent(p) {
      source := p;
    } else {
      source :| source in live.files && e == Parent(source);
    }
  }

  // ---------- The manifest ----------

  lemma HashesOnCourse(w: World, req: Request, plan: Plan, after: World, candidate: World, live0: World, live3: World)
    requires Fits(plan) && TakesCourse(w, req, plan, after, candidate, live0, live3)
    ensures after.hashes == plan.stored + HashesOf(Recorded(plan, req, StagedTree(Seed(w, plan.stored).value, plan, req).value))
  {
    WriteAllFiles(live0, WritesOf(TemplateWrites(plan, req.Resolver()), false), live3);
  }

  lemma StatusLists(w: World, req: Request, plan: Plan, p: Path)
    requires MakePlan(w, req) == Some(plan) && req.Valid()
    ensures p in plan.changes.newFiles <==> p in plan.templates && StatusOf(p, w, plan.templates, plan.stored) == Some(New)
    ensures p in plan.changes.upToDate <==> p in plan.templates && StatusOf(p, w, plan.templates, plan.stored) == Some(Unchanged)
    ensures p in plan.changes.autoUpdate <==> p in plan.templates && StatusOf(p, w, plan.templates, plan.stored) == Some(AutoUpdate)
    ensures p in plan.changes.changed <==> p in plan.templates && StatusOf(p, w, plan.templates, plan.stored) == Some(Changed)
    ensures p in plan.templates ==> StatusOf(p, w, plan.templates, plan.stored).Some?
  {
    var keys := WantedOrder(req.order, plan.templates);
    SelectExact(keys, New, w, plan.templates, plan.stored);
    SelectExact(keys, Unchanged, w, plan.templates, plan.stored);
    SelectExact(keys, AutoUpdate, w, plan.templates, plan.stored);
    SelectExact(keys, Changed, w, plan.templates, plan.stored);
    assert p in plan.templates ==> p in keys;
  }

  lemma RecordedFrom(plan: Plan, req: Request, build: World, p: Path)
    requires FromRelease(plan, req)
    requires !Idle(plan, req.flags) && p in plan.changes.changed ==>
               (StagedAs(p, plan, TemplateWrites(plan, req.Resolver()), build) <==> WritesTemplate(plan, req, p))
    ensures var r := Recorded(plan, req, build);
            && (p in r <==> WritesTemplate(plan, req, p) || (p in plan.changes.upToDate && !IsMiddleware(p) && p !in plan.stored))
            && (p in r ==> p in req.official && r[p] == req.official[p])
  {
  }

  /** Which template hashes the run records: whatever it wrote, and what it found up to date but untracked. */
  lemma RecordedExact(w: World, req: Request, plan: Plan, p: Path)
    requires MakePlan(w, req) == Some(plan) && FromRelease(plan, req) && TidyRelease(req)
    requires Seed(w, plan.stored).Some? && StagedTree(Seed(w, plan.stored).value, plan, req).Some? && p in req.official
    ensures var r := Recorded(plan, req, StagedTree(Seed(w, plan.stored).value, plan, req).value);
            && (p in r <==> WritesTemplate(plan, req, p) || (p in plan.changes.upToDate && !IsMiddleware(p) && p !in plan.stored))
            && (p in r ==> r[p] == req.official[p])
  {
    if !Idle(plan, req.flags) && p in plan.changes.changed {
      StagedAsExact(w, req, plan, p);
    }
    RecordedFrom(plan, req, StagedTree(Seed(w, plan.stored).value, plan, req).value, p);
  }

  lemma StagedAsExact(w: World, req: Request, plan: Plan, p: Path)
    requires MakePlan(w, req) == Some(plan) && FromRelease(plan, req) && TidyRelease(req)
    requires Seed(w, plan.stored).Some? && StagedTree(Seed(w, plan.stored).value, plan, req).Some?
    requires p in plan.changes.changed
    ensures StagedAs(p, plan, TemplateWrites(plan, req.Resolver()), StagedTree(Seed(w, plan.stored).value, plan, req).value)
            <==> WritesTemplate(plan, req, p)
  {
    var build0, all := Seed(w, plan.stored).value, TemplateWrites(plan, req.Resolver());
    StatusLists(w, req, plan, p);
    LastTemplate(plan, req, IsCanonical(p), p);
    StagedAt(build0, plan, req, StagedTree(build0, plan, req).value, p);
    if !IsCanonical(p) {
      forall x | x in all && x.path == p
        ensures x.bytes == req.official[p] && WritesTemplate(plan, req, p)
      {
        var _ := TemplateWriteIs(plan, req, x);
      }
      LastBytesAt(all, p, req.official[p]);
      if WritesTemplate(plan, req, p) {
        TemplateIsWritten(plan, req, p);
      }
    }
  }

  // ---------- The config file ----------

  /** The entry names a single shipped file that now equals its template up to line ends. */
  ghost predicate Stale(w: World, req: Request, plan: Plan, s: string)
    requires FromRelease(plan, req)
  {
    && s != "" && !EndsWith(s, "/") && s != Posix(CONFIG)
    && var p := Split(s, '/');
       p in req.official && Applied(w, req, plan, p).Some?
       && NormalizeNewlines(Applied(w, req, plan, p).value) == NormalizeNewlines(req.official[p])
  }

  ghost function StaleIn(w: World, req: Request, plan: Plan, text: string): set<string>
    requires FromRelease(plan, req)
  {
    set s | s in ReadText(text) && Stale(w, req, plan, s)
  }

  /** The config text that a run leaves. */
  ghost function ConfigAfter(w: World, req: Request, plan: Plan): Option<string>
    requires FromRelease(plan, req)
  {
    match Applied(w, req, plan, CONFIG)
    case None => None
    case Some(text) => Some(if Idle(plan, req.flags) then text else EditText(text, StaleIn(w, req, plan, text)))
  }

  /** Does the run remove entries from the config? */
  ghost predicate EditsConfig(w: World, req: Request, plan: Plan)
    requires FromRelease(plan, req)
  {
    var text := Applied(w, req, plan, CONFIG);
    !Idle(plan, req.flags) && text.Some? && StaleIn(w, req, plan, text.value) != {}
  }

  /** The skip list that the next analysis reads. */
  ghost function SkipsAfter(w: World, req: Request, plan: Plan): seq<string>
    requires FromRelease(plan, req)
  {
    match ConfigAfter(w, req, plan)
    case None => []
    case Some(text) => ReadText(text)
  }

  lemma StaleOnCourse(w: World, req: Request, plan: Plan, after: World, candidate: World, live0: World, live3: World, s: string)
    requires FromRelease(plan, req) && TidyRelease(req) && TakesCourse(w, req, plan, after, candidate, live0, live3)
    ensures StaleSkip(s, live3, req.official) <==> Stale(w, req, plan, s)
  {
    var p := Split(s, '/');
    if p in req.official {
      PathOnCourse(w, req, plan, after, candidate, live0, live3, p);
    }
  }

  lemma StaleSetOnCourse(w: World, req: Request, plan: Plan, after: World, candidate: World, live0: World, live3: World, text: string)
    requires FromRelease(plan, req) && TidyRelease(req) && TakesCourse(w, req, plan, after, candidate, live0, live3)
    ensures (set s | s in ReadText(text) && StaleSkip(s, live3, req.official)) == StaleIn(w, req, plan, text)
  {
    forall s
      ensures StaleSkip(s, live3, req.official) <==> Stale(w, req, plan, s)
    {
      StaleOnCourse(w, req, plan, after, candidate, live0, live3, s);
    }
  }

  lemma ConfigOnCourse(w: World, req: Request, plan: Plan, after: World, candidate: World, live0: World, live3: World)
    requires FromRelease(plan, req) && TidyRelease(req) && TakesCourse(w, req, plan, after, candidate, live0, live3)
    ensures HasBytes(after, CONFIG, ConfigAfter(w, req, plan)) && LoadSkips(after) == SkipsAfter(w, req, plan)
  {
    ConfigIsClear(req);
    PathOnCourse(w, req, plan, after, candidate, live0, live3, CONFIG);
    if CONFIG in live3.files {
      StaleSetOnCourse(w, req, plan, after, candidate, live0, live3, live3.files[CONFIG].bytes);
    }
    PrunedConfig(w, req, plan, live3, after);
  }

  lemma PrunedConfig(w: World, req: Request, plan: Plan, live3: World, after: World)
    requires FromRelease(plan, req) && HasBytes(live3, CONFIG, Applied(w, req, plan, CONFIG))
    requires CONFIG in live3.files ==>
               (set s | s in ReadText(live3.files[CONFIG].bytes) && StaleSkip(s, live3, req.official))
               == StaleIn(w, req, plan, live3.files[CONFIG].bytes)
    requires after == if Idle(plan, req.flags) then live3 else PruneSkips(live3, req.official)
    ensures HasBytes(after, CONFIG, ConfigAfter(w, req, plan)) && LoadSkips(after) == SkipsAfter(w, req, plan)
  {
    if CONFIG in live3.files && !Idle(plan, req.flags) {
      var text := live3.files[CONFIG].bytes;
      PrunedText(live3, req.official, StaleIn(w, req, plan, text));
    }
  }

  lemma PrunedText(live3: World, official: Templates, stale: set<string>)
    requires CONFIG in live3.files
    requires stale == set s | s in ReadText(live3.files[CONFIG].bytes) && StaleSkip(s, live3, official)
    ensures CONFIG in PruneSkips(live3, official).files
    ensures PruneSkips(live3, official).files[CONFIG].bytes == EditText(live3.files[CONFIG].bytes, stale)
  {
    assert LoadSkips(live3) == ReadText(live3.files[CONFIG].bytes);
  }

  lemma PruningIsLocal(live3: World, official: Templates, p: Path)
    ensures var after := PruneSkips(live3, official);
            && (p != CONFIG ==> (p in after.files <==> p in live3.files) && (p in live3.files ==> after.files[p] == live3.files[p]))
            && (after.Exists(p) <==> live3.Exists(p)) && after.hashes == live3.hashes
  {
    assert PruneSkips(live3, official).Entries() == live3.Entries();
  }

  lemma NothingStale(text: string)
    ensures EditText(text, {}) == text
  {
    WithinNothing(Read(Outside, Kinds(EditorLines(text))));
  }

  lemma {:induction false} WithinNothing(paths: seq<string>)
    ensures Within(paths, {}) == []
  {
    if paths != [] {
      WithinNothing(paths[1..]);
    }
  }

  /** A run that writes the config file, or finds it up to date, has nothing to remove from it. */
  lemma ShippedConfigIsNotEdited(w: World, req: Request, plan: Plan)
    requires FromRelease(plan, req) && TidyRelease(req) && CONFIG in req.official
    requires Applied(w, req, plan, CONFIG) == Some(req.official[CONFIG])
    ensures !EditsConfig(w, req, plan) && SkipsAfter(w, req, plan) == []
  {
    assert StaleIn(w, req, plan, req.official[CONFIG]) == {};
    NothingStale(req.official[CONFIG]);
  }

  // ---------- The second analysis ----------

  /** What a template that the run handled looks like to the next analysis. */
  function NextStatus(before: Status, resolution: Resolution): Status {
    match before
    case UserDeleted => UserDeleted
    case Changed => if resolution == Overwrite then Unchanged else Changed
    case _ => Unchanged
  }

  /** Everything the next analysis can see of one shipped path. */
  ghost predicate Effect(w: World, req: Request, plan: Plan, after: World, p: Path)
    requires FromRelease(plan, req) && p in req.official
  {
    var recorded := (WritesTemplate(plan, req, p) || (p in plan.changes.upToDate && p !in plan.stored)) && !ExcludedFromHash(p);
    && HasBytes(after, p, if p == CONFIG then ConfigAfter(w, req, plan) else Applied(w, req, plan, p))
    && (after.Exists(p) <==> w.Exists(p) || WritesTemplate(plan, req, p))
    && (p in after.hashes <==> p in plan.stored || recorded)
    && (p in plan.stored && !recorded ==> after.hashes[p] == plan.stored[p])
  }

  lemma EffectOnCourse(w: World, req: Request, plan: Plan, after: World, candidate: World, live0: World, live3: World, p: Path)
    requires FromRelease(plan, req) && TidyRelease(req) && TakesCourse(w, req, plan, after, candidate, live0, live3)
    requires p in req.official && HasBytes(after, CONFIG, ConfigAfter(w, req, plan))
    requires var r := Recorded(plan, req, StagedTree(Seed(w, plan.stored).value, plan, req).value);
             && (p in r <==> WritesTemplate(plan, req, p) || (p in plan.changes.upToDate && !IsMiddleware(p) && p !in plan.stored))
    ensures Effect(w, req, plan, after, p)
  {
    PathOnCourse(w, req, plan, after, candidate, live0, live3, p);
    ShippedPathExists(w, req, plan, after, candidate, live0, live3, p);
    HashesOnCourse(w, req, plan, after, candidate, live0, live3);
    PruningIsLocal(live3, req.official, p);
  }

  /** Where the plan lists a shipped path. */
  ghost predicate Listed(w: World, plan: Plan, p: Path) {
    if p in plan.templates then
      var status := StatusOf(p, w, plan.templates, plan.stored);
      && status.Some?
      && (p in plan.changes.newFiles <==> status.value == New) && (p in plan.changes.upToDate <==> status.value == Unchanged)
      && (p in plan.changes.autoUpdate <==> status.value == AutoUpdate) && (p in plan.changes.changed <==> status.value == Changed)
    else
      p !in plan.changes.newFiles && p !in plan.changes.upToDate && p !in plan.changes.autoUpdate && p !in plan.changes.changed
  }

  lemma PlanLists(w: World, req: Request, plan: Plan, p: Path)
    requires MakePlan(w, req) == Some(plan) && req.Valid()
    ensures Listed(w, plan, p)
  {
    StatusLists(w, req, plan, p);
  }

  /** All that a run without migrations does to the shipped paths, and the skip list it leaves. */
  ghost predicate AllEffects(w: World, req: Request, plan: Plan, after: World)
    requires FromRelease(plan, req)
  {
    && LoadSkips(after) == SkipsAfter(w, req, plan) && Listed(w, plan, CONFIG)
    && forall p | p in req.official :: Effect(w, req, plan, after, p) && Listed(w, plan, p)
  }

  lemma RunHasEffects(w: World, req: Request, plan: Plan, after: World)
    requires MakePlan(w, req) == Some(plan) && FromRelease(plan, req) && TidyRelease(req)
    requires OnlyTemplates(plan, req) && UpdateSpec(w, req) == Some(after)
    ensures AllEffects(w, req, plan, after)
  {
    var candidate, live0, live3 := Course(w, req, plan, after);
    ConfigOnCourse(w, req, plan, after, candidate, live0, live3);
    PlanLists(w, req, plan, CONFIG);
    forall p | p in req.official
      ensures Effect(w, req, plan, after, p) && Listed(w, plan, p)
    {
      RecordedExact(w, req, plan, p);
      EffectOnCourse(w, req, plan, after, candidate, live0, live3, p);
      PlanLists(w, req, plan, p);
    }
  }

  /** The project before the run, with the config text that the run leaves. */
  ghost function WithConfig(w: World, req: Request, plan: Plan): World
    requires FromRelease(plan, req)
  {
    if CONFIG in w.files && ConfigAfter(w, req, plan).Some?
    then w.(files := w.files[CONFIG := w.files[CONFIG].(bytes := ConfigAfter(w, req, plan).value)])
    else w
  }

  /**
   The next status of a shipped path, from what is known before the run: a template that the run handled goes by
   its status and the answer, a hidden one stays what it is, and an edited config file is compared as edited.
   */
  ghost function Forecast(w: World, req: Request, plan: Plan, p: Path): Option<Status>
    requires FromRelease(plan, req) && p in req.official
  {
    if p == CONFIG && EditsConfig(w, req, plan) then StatusOf(p, WithConfig(w, req, plan), req.official, plan.stored)
    else if p in plan.templates then
      var status :- StatusOf(p, w, plan.templates, plan.stored);
      Some(NextStatus(status, req.Resolve(p)))
    else StatusOf(p, w, req.official, plan.stored)
  }

  lemma UneditedConfig(w: World, req: Request, plan: Plan)
    requires FromRelease(plan, req) && !EditsConfig(w, req, plan)
    ensures ConfigAfter(w, req, plan) == Applied(w, req, plan, CONFIG)
  {
    var text := Applied(w, req, plan, CONFIG);
    if text.Some? {
      NothingStale(text.value);
    }
  }

  lemma HandledForecast(w: World, req: Request, plan: Plan, after: World, next: Templates, orphans: set<Path>, p: Path)
    requires FromRelease(plan, req) && p in req.official && Effect(w, req, plan, after, p) && Listed(w, plan, p)
    requires p in plan.templates && p in next && next[p] == req.official[p] && p !in orphans
    requires HasBytes(after, p, Applied(w, req, plan, p))
    ensures StatusOf(p, after, next, after.hashes - orphans)
            == Some(NextStatus(StatusOf(p, w, plan.templates, plan.stored).value, req.Resolve(p)))
  {
    assert p in after.files ==> p in after.Entries();
    assert p in w.files ==> p in w.Entries();
  }

  lemma HiddenForecast(w: World, req: Request, plan: Plan, after: World, next: Templates, orphans: set<Path>, p: Path)
    requires FromRelease(plan, req) && p in req.official && Effect(w, req, plan, after, p) && Listed(w, plan, p)
    requires p !in plan.templates && p in next && next[p] == req.official[p] && p !in orphans
    requires HasBytes(after, p, Applied(w, req, plan, p))
    ensures StatusOf(p, after, next, after.hashes - orphans) == StatusOf(p, w, req.official, plan.stored)
  {
  }

  lemma EditedForecast(w: World, req: Request, plan: Plan, after: World, next: Templates, orphans: set<Path>)
    requires FromRelease(plan, req) && TidyRelease(req) && CONFIG in req.official && EditsConfig(w, req, plan)
    requires Effect(w, req, plan, after, CONFIG) && Listed(w, plan, CONFIG)
    requires CONFIG in next && next[CONFIG] == req.official[CONFIG] && CONFIG !in orphans
    ensures StatusOf(CONFIG, after, next, after.hashes - orphans) == StatusOf(CONFIG, WithConfig(w, req, plan), req.official, plan.stored)
  {
    EditedIsUnwritten(w, req, plan);
    SameTextSameStatus(after, WithConfig(w, req, plan), req, plan, next, orphans);
  }

  /** A config file that loses entries is the user's. */
  lemma EditedIsUnwritten(w: World, req: Request, plan: Plan)
    requires FromRelease(plan, req) && TidyRelease(req) && CONFIG in req.official && EditsConfig(w, req, plan)
    requires Listed(w, plan, CONFIG)
    ensures CONFIG in w.files && !WritesTemplate(plan, req, CONFIG) && CONFIG !in plan.changes.upToDate
  {
    if Applied(w, req, plan, CONFIG) == Some(req.official[CONFIG]) {
      ShippedConfigIsNotEdited(w, req, plan);
    }
  }

  lemma SameTextSameStatus(after: World, edited: World, req: Request, plan: Plan, next: Templates, orphans: set<Path>)
    requires CONFIG in req.official && CONFIG in after.files && CONFIG in edited.files
    requires after.files[CONFIG].bytes == edited.files[CONFIG].bytes
    requires CONFIG in next && next[CONFIG] == req.official[CONFIG] && CONFIG !in orphans
    requires CONFIG in after.hashes <==> CONFIG in plan.stored
    requires CONFIG in plan.stored ==> after.hashes[CONFIG] == plan.stored[CONFIG]
    ensures StatusOf(CONFIG, after, next, after.hashes - orphans) == StatusOf(CONFIG, edited, req.official, plan.stored)
  {
    assert CONFIG in edited.Entries() && CONFIG in after.Entries();
  }

  lemma ForecastHolds(w: World, req: Request, plan: Plan, after: World, next: Templates, orphans: set<Path>, p: Path)
    requires FromRelease(plan, req) && TidyRelease(req) && AllEffects(w, req, plan, after)
    requires p in req.official && p in next && next[p] == req.official[p] && p !in orphans
    ensures StatusOf(p, after, next, after.hashes - orphans) == Forecast(w, req, plan, p)
  {
    assert Effect(w, req, plan, after, p) && Listed(w, plan, p);
    if p == CONFIG && EditsConfig(w, req, plan) {
      EditedForecast(w, req, plan, after, next, orphans);
    } else {
      if p == CONFIG {
        UneditedConfig(w, req, plan);
      }
      if p in plan.templates {
        HandledForecast(w, req, plan, after, next, orphans, p);
      } else {
        HiddenForecast(w, req, plan, after, next, orphans, p);
      }
    }
  }

  /** The templates that the next analysis selects. */
  ghost function NextTemplates(w: World, req: Request, plan: Plan, bypass: bool): Templates
    requires FromRelease(plan, req)
  {
    CollectTemplates(req.official, SkipsAfter(w, req, plan), bypass)
  }

  /**
   The next analysis, path by path, after a run with any flags and any mixture of answers: which templates it selects,
   and the status of each, from what is known before the run.
   */
  lemma NextAnalysis(w: World, req: Request, plan: Plan, after: World, bypass: bool, orphans: set<Path>, p: Path)
    requires MakePlan(w, req) == Some(plan) && FromRelease(plan, req) && TidyRelease(req)
    requires OnlyTemplates(plan, req) && UpdateSpec(w, req) == Some(after) && p !in orphans
    ensures CollectTemplates(req.official, LoadSkips(after), bypass) == NextTemplates(w, req, plan, bypass)
    ensures var next := NextTemplates(w, req, plan, bypass);
            p in next ==> StatusOf(p, after, next, after.hashes - orphans) == Forecast(w, req, plan, p)
  {
    RunHasEffects(w, req, plan, after);
    var next := NextTemplates(w, req, plan, bypass);
    if p in next {
      ForecastHolds(w, req, plan, after, next, orphans, p);
    }
  }

  predicate NothingToDo(status: Option<Status>) {
    status in {Some(Unchanged), Some(UserDeleted)}
  }

  /** The next analysis has nothing to add, update or ask about. */
  ghost predicate Settled(w: World, templates: Templates, stored: Manifest) {
    forall p | p in templates :: NothingToDo(StatusOf(p, w, templates, stored))
  }

  /** A shipped path that the run does not handle, or a config file from which it removes entries. */
  ghost predicate Unhandled(w: World, req: Request, plan: Plan, p: Path)
    requires FromRelease(plan, req)
  {
    p !in plan.templates || (p == CONFIG && EditsConfig(w, req, plan))
  }

  lemma HandledIsQuiet(w: World, req: Request, plan: Plan, p: Path)
    requires FromRelease(plan, req) && p in plan.templates && Listed(w, plan, p) && !Unhandled(w, req, plan, p)
    ensures NothingToDo(Forecast(w, req, plan, p)) <==> p !in plan.changes.changed || req.Resolve(p) == Overwrite
  {
  }

  lemma QuietForecast(w: World, req: Request, plan: Plan, next: Templates)
    requires FromRelease(plan, req) && (forall p | p in next :: p in req.official && Listed(w, plan, p))
    ensures (forall p | p in next :: NothingToDo(Forecast(w, req, plan, p)))
            <==> && (forall p | p in plan.changes.changed && p in next && !Unhandled(w, req, plan, p) :: req.Resolve(p) == Overwrite)
                 && (forall p | p in next && Unhandled(w, req, plan, p) :: NothingToDo(Forecast(w, req, plan, p)))
  {
    forall p | p in next && !Unhandled(w, req, plan, p)
      ensures NothingToDo(Forecast(w, req, plan, p)) <==> p !in plan.changes.changed || req.Resolve(p) == Overwrite
    {
      HandledIsQuiet(w, req, plan, p);
    }
  }

  /**
   The next analysis is settled if and only if every conflict that it still selects was overwritten, every template
   that it newly selects was up to date or deleted before, and a config file that lost entries equals the shipped one.
   */
  lemma SettledExactly(w: World, req: Request, plan: Plan, after: World, bypass: bool, orphans: set<Path>)
    requires MakePlan(w, req) == Some(plan) && FromRelease(plan, req) && TidyRelease(req)
    requires OnlyTemplates(plan, req) && UpdateSpec(w, req) == Some(after)
    requires forall p | p in req.official :: p !in orphans
    ensures var next := CollectTemplates(req.official, LoadSkips(after), bypass);
            Settled(after, next, after.hashes - orphans)
            <==> && (forall p | p in plan.changes.changed && p in next && !Unhandled(w, req, plan, p) :: req.Resolve(p) == Overwrite)
                 && (forall p | p in next && Unhandled(w, req, plan, p) :: NothingToDo(Forecast(w, req, plan, p)))
  {
    RunHasEffects(w, req, plan, after);
    SettledFromEffects(w, req, plan, after, CollectTemplates(req.official, LoadSkips(after), bypass), orphans);
  }

  lemma SettledFromEffects(w: World, req: Request, plan: Plan, after: World, next: Templates, orphans: set<Path>)
    requires FromRelease(plan, req) && TidyRelease(req) && AllEffects(w, req, plan, after)
    requires forall p | p in next :: p in req.official && next[p] == req.official[p] && p !in orphans
    ensures Settled(after, next, after.hashes - orphans)
            <==> && (forall p | p in plan.changes.changed && p in next && !Unhandled(w, req, plan, p) :: req.Resolve(p) == Overwrite)
                 && (forall p | p in next && Unhandled(w, req, plan, p) :: NothingToDo(Forecast(w, req, plan, p)))
  {
    forall p | p in next
      ensures StatusOf(p, after, next, after.hashes - orphans) == Forecast(w, req, plan, p)
    {
      ForecastHolds(w, req, plan, after, next, orphans, p);
    }
    QuietForecast(w, req, plan, next);
  }

  // ---------- Force runs ----------

  /** A force run overwrites a config file that differs from the shipped one. */
  lemma ForceEditsNoTemplate(w: World, req: Request, plan: Plan)
    requires FromRelease(plan, req) && TidyRelease(req) && req.flags.force && CONFIG in plan.templates && Listed(w, plan, CONFIG)
    ensures !EditsConfig(w, req, plan)
  {
    if CONFIG in w.files {
      assert CONFIG in w.Entries() && Applied(w, req, plan, CONFIG) == Some(req.official[CONFIG]);
      ShippedConfigIsNotEdited(w, req, plan);
    }
  }

  /**
   A force run settles the project for its own templates. The next analysis selects its templates anew, from a config
   file that the run has overwritten or pruned; it is settled exactly when there is nothing to do for those that have
   just come out of hiding.
   */
  lemma ForceRunSettles(w: World, req: Request, plan: Plan, after: World, bypass: bool, orphans: set<Path>)
    requires MakePlan(w, req) == Some(plan) && FromRelease(plan, req) && TidyRelease(req)
    requires OnlyTemplates(plan, req) && UpdateSpec(w, req) == Some(after) && req.flags.force
    requires forall p | p in req.official :: p !in orphans
    ensures Settled(after, plan.templates, after.hashes - orphans)
    ensures var next := CollectTemplates(req.official, LoadSkips(after), bypass);
            Settled(after, next, after.hashes - orphans)
            <==> forall p | p in next && p !in plan.templates :: NothingToDo(Forecast(w, req, plan, p))
  {
    RunHasEffects(w, req, plan, after);
    ForceFromEffects(w, req, plan, after, plan.templates, orphans);
    ForceFromEffects(w, req, plan, after, CollectTemplates(req.official, LoadSkips(after), bypass), orphans);
  }

  lemma ForceFromEffects(w: World, req: Request, plan: Plan, after: World, next: Templates, orphans: set<Path>)
    requires FromRelease(plan, req) && TidyRelease(req) && req.flags.force && AllEffects(w, req, plan, after)
    requires forall p | p in next :: p in req.official && next[p] == req.official[p] && p !in orphans
    ensures Settled(after, next, after.hashes - orphans)
            <==> forall p | p in next && p !in plan.templates :: NothingToDo(Forecast(w, req, plan, p))
  {
    SettledFromEffects(w, req, plan, after, next, orphans);
    if CONFIG in plan.templates {
      ForceEditsNoTemplate(w, req, plan);
    }
  }

  // ---------- The conflicts that are left ----------

  function ConflictsOf(w: World, templates: Templates, stored: Manifest): set<Path> {
    set p | p in templates && StatusOf(p, w, templates, stored) == Some(Changed)
  }

  /** The run leaves the conflict at `p` as it is, and the next analysis sees it. */
  ghost predicate StaysConflict(w: World, req: Request, plan: Plan, next: Templates, p: Path)
    requires FromRelease(plan, req) && p in req.official
  {
    && p in next
    && if Unhandled(w, req, plan, p) then Forecast(w, req, plan, p) == Some(Changed) else req.Resolve(p) != Overwrite
  }

  /** The next analysis finds a conflict at `p` that this one did not. */
  ghost predicate TurnsUp(w: World, req: Request, plan: Plan, p: Path)
    requires FromRelease(plan, req) && p in req.official
  {
    p !in plan.changes.changed && Unhandled(w, req, plan, p) && Forecast(w, req, plan, p) == Some(Changed)
  }

  lemma ConflictFrom(w: World, req: Request, plan: Plan, after: World, next: Templates, orphans: set<Path>, p: Path)
    requires FromRelease(plan, req) && TidyRelease(req) && AllEffects(w, req, plan, after)
    requires p in req.official && p !in orphans && (p in next ==> next[p] == req.official[p])
    ensures p in ConflictsOf(after, next, after.hashes - orphans)
            <==> if p in plan.changes.changed then StaysConflict(w, req, plan, next, p) else p in next && TurnsUp(w, req, plan, p)
  {
    assert Listed(w, plan, p);
    if p in next {
      ForecastHolds(w, req, plan, after, next, orphans, p);
    }
    ConflictForecast(w, req, plan, next, p);
  }

  lemma ConflictForecast(w: World, req: Request, plan: Plan, next: Templates, p: Path)
    requires FromRelease(plan, req) && p in req.official && Listed(w, plan, p)
    ensures p in next && Forecast(w, req, plan, p) == Some(Changed)
            <==> if p in plan.changes.changed then StaysConflict(w, req, plan, next, p) else p in next && TurnsUp(w, req, plan, p)
  {
  }

  lemma ConflictsFromEffects(w: World, req: Request, plan: Plan, after: World, next: Templates, orphans: set<Path>)
    requires FromRelease(plan, req) && TidyRelease(req) && AllEffects(w, req, plan, after)
    requires forall p | p in req.official :: p !in orphans
    requires forall p | p in next :: p in req.official && next[p] == req.official[p]
    ensures ConflictsOf(after, next, after.hashes - orphans) == ConflictsOf(w, plan.templates, plan.stored)
            <==> && (forall p | p in plan.changes.changed :: StaysConflict(w, req, plan, next, p))
                 && (forall p | p in next :: !TurnsUp(w, req, plan, p))
  {
    var before, later := ConflictsOf(w, plan.templates, plan.stored), ConflictsOf(after, next, after.hashes - orphans);
    forall p
      ensures p in before <==> p in plan.changes.changed
      ensures p in later <==> p in req.official && (if p in plan.changes.changed then StaysConflict(w, req, plan, next, p)
                                                    else p in next && TurnsUp(w, req, plan, p))
    {
      if p in req.official {
        ConflictFrom(w, req, plan, after, next, orphans, p);
      }
    }
  }

  /**
   The next analysis has the same conflicts as this one, if and only if every conflict was left as it is and is still
   selected, and no newly selected template and no pruned config file has become one.
   */
  lemma SameConflictsExactly(w: World, req: Request, plan: Plan, after: World, bypass: bool, orphans: set<Path>)
    requires MakePlan(w, req) == Some(plan) && FromRelease(plan, req) && TidyRelease(req)
    requires OnlyTemplates(plan, req) && UpdateSpec(w, req) == Some(after)
    requires forall p | p in req.official :: p !in orphans
    ensures var next := CollectTemplates(req.official, LoadSkips(after), bypass);
            ConflictsOf(after, next, after.hashes - orphans) == ConflictsOf(w, plan.templates, plan.stored)
            <==> && (forall p | p in plan.changes.changed :: StaysConflict(w, req, plan, next, p))
                 && (forall p | p in next :: !TurnsUp(w, req, plan, p))
  {
    RunHasEffects(w, req, plan, after);
    ConflictsFromEffects(w, req, plan, after, CollectTemplates(req.official, LoadSkips(after), bypass), orphans);
  }

  /** A run that leaves the skip list alone selects the same templates again. */
  lemma SameSelection(w: World, req: Request, plan: Plan)
    requires MakePlan(w, req) == Some(plan) && FromRelease(plan, req)
    requires !WritesTemplate(plan, req, CONFIG) && !EditsConfig(w, req, plan)
    ensures NextTemplates(w, req, plan, req.bypass) == plan.templates
  {
    UneditedConfig(w, req, plan);
    assert SkipsAfter(w, req, plan) == LoadSkips(w);
  }

  /** Keeping every conflict, as skip and create-new runs do, leaves exactly the same conflicts, if the skip list stays. */
  lemma KeepingRunKeepsConflicts(w: World, req: Request, plan: Plan, after: World, orphans: set<Path>)
    requires MakePlan(w, req) == Some(plan) && FromRelease(plan, req) && TidyRelease(req)
    requires OnlyTemplates(plan, req) && UpdateSpec(w, req) == Some(after)
    requires !req.flags.force && (req.flags.skipAll || req.flags.createNew)
    requires !WritesTemplate(plan, req, CONFIG) && !EditsConfig(w, req, plan)
    requires forall p | p in req.official :: p !in orphans
    ensures var next := CollectTemplates(req.official, LoadSkips(after), req.bypass);
            ConflictsOf(after, next, after.hashes - orphans) == ConflictsOf(w, plan.templates, plan.stored)
  {
    RunHasEffects(w, req, plan, after);
    SameSelection(w, req, plan);
    ConflictsFromEffects(w, req, plan, after, plan.templates, orphans);
  }

  // ---------- Which templates come out of hiding ----------

  /** Removing the stale entries leaves a text that reads as the rest of the list. */
  ghost predicate ReadsOn(w: World, req: Request, plan: Plan)
    requires FromRelease(plan, req)
  {
    var text := Applied(w, req, plan, CONFIG);
    text.Some? ==>
      var ks := Kinds(Split(text.value, '\n'));
      || Without(ReadText(text.value), StaleIn(w, req, plan, text.value)) != [] || ReadText(text.value) == []
      || (!HidesSecondList(ks) && !RevivesEntry(ks))
  }

  predicate Covers(skips: seq<string>, p: Path) {
    exists s | s in skips :: Skips(s, p)
  }

  lemma {:induction false} WithoutIs(paths: seq<string>, gone: set<string>)
    ensures forall s :: s in Without(paths, gone) <==> s in paths && s !in gone
  {
    if paths != [] {
      WithoutIs(paths[1..], gone);
    }
  }

  lemma SkipsThatStay(w: World, req: Request, plan: Plan, s: string)
    requires FromRelease(plan, req) && ReadsOn(w, req, plan) && Applied(w, req, plan, CONFIG).Some?
    ensures s in SkipsAfter(w, req, plan) <==>
            s in ReadText(Applied(w, req, plan, CONFIG).value) && (Idle(plan, req.flags) || !Stale(w, req, plan, s))
  {
    var text := Applied(w, req, plan, CONFIG).value;
    EditCommutes(text, StaleIn(w, req, plan, text));
    WithoutIs(ReadText(text), StaleIn(w, req, plan, text));
  }

  /**
   A template comes out of hiding exactly when the run writes the config file, or when every entry that covers the
   template has become stale.
   */
  lemma NewlySelectedExactly(w: World, req: Request, plan: Plan, p: Path)
    requires MakePlan(w, req) == Some(plan) && FromRelease(plan, req) && TidyRelease(req) && !req.bypass
    requires ReadsOn(w, req, plan) && p in req.official
    ensures p in NextTemplates(w, req, plan, false) && p !in plan.templates
            <==> && !IsMiddleware(p) && Covers(LoadSkips(w), p)
                 && (|| WritesTemplate(plan, req, CONFIG)
                     || (!Idle(plan, req.flags) && forall s | s in LoadSkips(w) && Skips(s, p) :: Stale(w, req, plan, s)))
  {
    assert p in plan.templates <==> Wanted(p, LoadSkips(w), false);
    if WritesTemplate(plan, req, CONFIG) {
      ShippedConfigIsNotEdited(w, req, plan);
    } else if CONFIG in w.files {
      forall s
        ensures s in SkipsAfter(w, req, plan) <==> s in LoadSkips(w) && (Idle(plan, req.flags) || !Stale(w, req, plan, s))
      {
        SkipsThatStay(w, req, plan, s);
      }
    }
  }

  /** Names without a slash, so that the text of the path splits into them. */
  predicate PlainNames(p: Path) {
    p != [] && forall name | name in p :: '/' !in name
  }

  lemma BelowEntry(s: string, p: Path)
    requires PlainNames(p) && StartsWith(Posix(p), s + "/")
    ensures Split(s, '/') < p
  {
    var rest := Posix(p)[|s| + 1..];
    assert Posix(p) == s + ['/'] + rest;
    SplitJoin(p, '/');
    SplitConcat(s, rest, '/');
  }

  /** A stale entry covers no other shipped file than the one it names, and that file equals its template up to line ends. */
  lemma StaleCoversItself(w: World, req: Request, plan: Plan, s: string, p: Path)
    requires FromRelease(plan, req) && TidyRelease(req) && Stale(w, req, plan, s) && Skips(s, p)
    requires p in req.official && PlainNames(p)
    ensures s == Posix(p) && Applied(w, req, plan, p).Some?
    ensures NormalizeNewlines(Applied(w, req, plan, p).value) == NormalizeNewlines(req.official[p])
  {
    SplitJoin(p, '/');
    if StartsWith(Posix(p), s + "/") {
      BelowEntry(s, p);
    }
  }

  // ---------- Failing families ----------

  /** What was hidden and is a conflict turns up, whatever the flags. */
  lemma HiddenConflictTurnsUp(w: World, req: Request, plan: Plan, after: World, next: Templates, orphans: set<Path>, p: Path)
    requires FromRelease(plan, req) && TidyRelease(req) && AllEffects(w, req, plan, after)
    requires p in next && p in req.official && next[p] == req.official[p] && p !in orphans && p != CONFIG && p !in plan.templates
    requires p in w.files && w.files[p].bytes != req.official[p] && p !in plan.stored
    ensures StatusOf(p, after, next, after.hashes - orphans) == Some(Changed)
    ensures !Settled(after, next, after.hashes - orphans)
  {
    assert p in w.Entries();
    ForecastHolds(w, req, plan, after, next, orphans, p);
  }

  /** A hidden template that was neither up to date nor deleted turns up when the run writes the config file. */
  lemma OverwrittenConfigUncovers(w: World, req: Request, plan: Plan, after: World, bypass: bool, orphans: set<Path>, p: Path)
    requires MakePlan(w, req) == Some(plan) && FromRelease(plan, req) && TidyRelease(req)
    requires OnlyTemplates(plan, req) && UpdateSpec(w, req) == Some(after)
    requires WritesTemplate(plan, req, CONFIG)
    requires p in req.official && p !in plan.templates && !IsMiddleware(p) && p !in orphans
    requires !NothingToDo(StatusOf(p, w, req.official, plan.stored))
    ensures !Settled(after, CollectTemplates(req.official, LoadSkips(after), bypass), after.hashes - orphans)
  {
    RunHasEffects(w, req, plan, after);
    UncoveredBreaks(w, req, plan, after, bypass, orphans, p);
  }

  lemma UncoveredBreaks(w: World, req: Request, plan: Plan, after: World, bypass: bool, orphans: set<Path>, p: Path)
    requires FromRelease(plan, req) && TidyRelease(req) && AllEffects(w, req, plan, after) && WritesTemplate(plan, req, CONFIG)
    requires p in req.official && p !in plan.templates && !IsMiddleware(p) && p !in orphans
    requires !NothingToDo(StatusOf(p, w, req.official, plan.stored))
    ensures !Settled(after, CollectTemplates(req.official, LoadSkips(after), bypass), after.hashes - orphans)
  {
    var next := CollectTemplates(req.official, LoadSkips(after), bypass);
    ShippedConfigIsNotEdited(w, req, plan);
    assert p in next;
    ForecastHolds(w, req, plan, after, next, orphans, p);
  }

  /**
   The user's skip list names the config file and a file that equals its template but for the line ends, and that is
   not tracked. The run drops the second entry, because it compares up to line ends; the next analysis, which compares
   bytes, finds a conflict. So it goes after a run with any flags, a force run too.
   */
  lemma StaleCopyTurnsUp(w: World, req: Request, plan: Plan, after: World, orphans: set<Path>, f: Path)
    requires MakePlan(w, req) == Some(plan) && FromRelease(plan, req) && TidyRelease(req) && !req.bypass
    requires OnlyTemplates(plan, req) && UpdateSpec(w, req) == Some(after) && !Idle(plan, req.flags)
    requires CONFIG in w.files && CONFIG in req.official && LoadSkips(w) == [Posix(CONFIG), Posix(f)]
    requires f in req.official && PlainNames(f) && f != CONFIG && !IsMiddleware(f) && f !in orphans
    requires f in w.files && w.files[f].bytes != req.official[f] && f !in plan.stored
    requires NormalizeNewlines(w.files[f].bytes) == NormalizeNewlines(req.official[f])
    requires Posix(f) != "" && !EndsWith(Posix(f), "/")
    ensures var next := CollectTemplates(req.official, LoadSkips(after), false);
            && f in next && StatusOf(f, after, next, after.hashes - orphans) == Some(Changed)
            && !Settled(after, next, after.hashes - orphans)
  {
    RunHasEffects(w, req, plan, after);
    StaleEntryGoes(w, req, plan, f);
    HiddenConflictTurnsUp(w, req, plan, after, NextTemplates(w, req, plan, false), orphans, f);
  }

  lemma StaleEntryGoes(w: World, req: Request, plan: Plan, f: Path)
    requires MakePlan(w, req) == Some(plan) && FromRelease(plan, req) && TidyRelease(req) && !req.bypass && !Idle(plan, req.flags)
    requires CONFIG in w.files && CONFIG in req.official && LoadSkips(w) == [Posix(CONFIG), Posix(f)]
    requires f in req.official && PlainNames(f) && f != CONFIG && !IsMiddleware(f) && f in w.files
    requires NormalizeNewlines(w.files[f].bytes) == NormalizeNewlines(req.official[f])
    requires Posix(f) != "" && !EndsWith(Posix(f), "/")
    ensures f in NextTemplates(w, req, plan, false) && f !in plan.templates
  {
    BothAreHidden(w, req, plan, f);
    HiddenCopyIsStale(w, req, plan, f);
    OnlyConfigStays(w, req, plan, f);
  }

  lemma HiddenCopyIsStale(w: World, req: Request, plan: Plan, f: Path)
    requires FromRelease(plan, req) && f in req.official && PlainNames(f) && f != CONFIG && f in w.files && f !in plan.templates
    requires NormalizeNewlines(w.files[f].bytes) == NormalizeNewlines(req.official[f])
    requires Posix(f) != "" && !EndsWith(Posix(f), "/")
    ensures Stale(w, req, plan, Posix(f))
  {
    SplitJoin(f, '/');
    ConfigSplits();
    assert Applied(w, req, plan, f) == Some(w.files[f].bytes);
  }

  lemma BothAreHidden(w: World, req: Request, plan: Plan, f: Path)
    requires MakePlan(w, req) == Some(plan) && !req.bypass && LoadSkips(w) == [Posix(CONFIG), Posix(f)]
    ensures f !in plan.templates && CONFIG !in plan.templates
  {
    assert !Wanted(f, LoadSkips(w), false) && !Wanted(CONFIG, LoadSkips(w), false) by {
      assert Posix(CONFIG) in LoadSkips(w) && Posix(f) in LoadSkips(w);
    }
  }

  lemma OnlyConfigStays(w: World, req: Request, plan: Plan, f: Path)
    requires FromRelease(plan, req) && TidyRelease(req) && !Idle(plan, req.flags) && CONFIG !in plan.templates
    requires CONFIG in w.files && CONFIG in req.official && LoadSkips(w) == [Posix(CONFIG), Posix(f)]
    requires f in req.official && PlainNames(f) && f != CONFIG && !IsMiddleware(f) && Stale(w, req, plan, Posix(f))
    ensures f in NextTemplates(w, req, plan, false)
  {
    ConfigEntryStays(w, req, plan, f);
    ConfigCoversItself(f, req);
    forall s | s in SkipsAfter(w, req, plan)
      ensures s == Posix(CONFIG)
    {
      SkipsThatStay(w, req, plan, s);
    }
  }

  lemma ConfigSplits()
    ensures Split(Posix(CONFIG), '/') == CONFIG && Posix(CONFIG) != "" && !EndsWith(Posix(CONFIG), "/")
  {
    assert '/' !in WORKFLOW && '/' !in "config.yaml";
    SplitJoin(CONFIG, '/');
    var s := Posix(CONFIG);
    assert s == WORKFLOW + "/" + "config.yaml" && s[|s| - 1..] == "l";
  }

  lemma ConfigCoversItself(f: Path, req: Request)
    requires TidyRelease(req) && f in req.official && CONFIG in req.official && PlainNames(f) && f != CONFIG
    ensures !Skips(Posix(CONFIG), f)
  {
    ConfigSplits();
    SplitJoin(f, '/');
    if StartsWith(Posix(f), Posix(CONFIG) + "/") {
      BelowEntry(Posix(CONFIG), f);
    }
  }

  lemma ConfigEntryStays(w: World, req: Request, plan: Plan, f: Path)
    requires FromRelease(plan, req) && CONFIG in w.files && CONFIG !in plan.templates
    requires LoadSkips(w) == [Posix(CONFIG), Posix(f)]
    ensures ReadsOn(w, req, plan) && Applied(w, req, plan, CONFIG) == Some(w.files[CONFIG].bytes)
  {
    var text := w.files[CONFIG].bytes;
    var gone := StaleIn(w, req, plan, text);
    assert Posix(CONFIG) !in gone;
    WithoutIs(ReadText(text), gone);
    assert Posix(CONFIG) in Without(ReadText(text), gone);
  }

  /** After any run, the up-to-date templates that are still unknown to the manifest are those never hashed. */
  lemma MissingHashesAreExcluded(w: World, req: Request, plan: Plan, after: World, p: Path)
    requires MakePlan(w, req) == Some(plan) && FromRelease(plan, req) && TidyRelease(req)
    requires OnlyTemplates(plan, req) && UpdateSpec(w, req) == Some(after) && p in plan.templates
    requires StatusOf(p, w, plan.templates, plan.stored) in {Some(New), Some(Unchanged), Some(AutoUpdate)}
    ensures p !in after.hashes <==> p !in plan.stored && ExcludedFromHash(p)
  {
    RunHasEffects(w, req, plan, after);
    assert Effect(w, req, plan, after, p) && Listed(w, plan, p);
  }
}
