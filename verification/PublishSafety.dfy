/** Safety of publishing over any number of crashing runs, for any publish order of any dependency graph. */
module PublishSafety {
  import opened Wrappers
  import opened ReleaseArtifacts
  import opened Publish

  // ---------- One run ----------

  /** What one run may do to the catalog: add versions that were absent, with the bytes of its packages. */
  ghost predicate AddsSealed(todo: seq<Artifact>, before: Catalog, r: Outcome) {
    && (forall id | id in before :: id in r.published && r.published[id] == before[id])
    && (forall id :: id in r.published <==> id in before || id in r.log)
    && Distinct(r.log) && (forall id | id in r.log :: id !in before)
    && (forall id | id in r.log :: exists a :: a in todo && IdOf(a.package) == id && r.published[id] == a.content)
  }

  lemma AddsSealedMore(a: Artifact, rest: seq<Artifact>, before: Catalog, r: Outcome)
    requires IdOf(a.package) !in before
    requires AddsSealed(rest, before[IdOf(a.package) := a.content], r)
    ensures AddsSealed([a] + rest, before, r.(log := [IdOf(a.package)] + r.log))
  {
    var id, more := IdOf(a.package), r.(log := [IdOf(a.package)] + r.log);
    assert id !in r.log && a in [a] + rest && r.published[id] == a.content;
    forall other | other in more.log
      ensures exists b :: b in [a] + rest && IdOf(b.package) == other && r.published[other] == b.content
    {
      if other != id {
        var b :| b in rest && IdOf(b.package) == other && r.published[other] == b.content;
        assert b in [a] + rest;
      }
    }
  }

  lemma {:induction false} RunAddsSealed(todo: seq<Artifact>, start: Catalog, published: Catalog, k: nat)
    ensures AddsSealed(todo, published, Publishing(todo, start, published, k))
  {
    if todo != [] {
      var id, rest := IdOf(todo[0].package), todo[1..];
      assert todo == [todo[0]] + rest;
      if id in start {
        RunAddsSealed(rest, start, published, k);
        AddsSealedFromMore(todo[0], rest, published, Publishing(rest, start, published, k));
      } else if k > 0 && id !in published {
        var after := published[id := todo[0].content];
        RunAddsSealed(rest, start, after, k - 1);
        AddsSealedMore(todo[0], rest, published, Publishing(rest, start, after, k - 1));
      }
    }
  }

  lemma AddsSealedFromMore(a: Artifact, rest: seq<Artifact>, before: Catalog, r: Outcome)
    requires AddsSealed(rest, before, r)
    ensures AddsSealed([a] + rest, before, r)
  {
    forall id | id in r.log
      ensures exists b :: b in [a] + rest && IdOf(b.package) == id && r.published[id] == b.content
    {
      var b :| b in rest && IdOf(b.package) == id && r.published[id] == b.content;
      assert b in [a] + rest;
    }
  }

  /** A run that finishes leaves the whole set published. */
  lemma {:induction false} FinishedMeansAll(todo: seq<Artifact>, start: Catalog, published: Catalog, k: nat)
    requires Publishing(todo, start, published, k).finished
    requires forall id | id in start :: id in published
    ensures forall a | a in todo :: IdOf(a.package) in Publishing(todo, start, published, k).published
  {
    if todo != [] {
      var id := IdOf(todo[0].package);
      assert todo == [todo[0]] + todo[1..];
      if id in start {
        FinishedMeansAll(todo[1..], start, published, k);
        RunAddsSealed(todo[1..], start, published, k);
      } else {
        var after := published[id := todo[0].content];
        FinishedMeansAll(todo[1..], start, after, k - 1);
        RunAddsSealed(todo[1..], start, after, k - 1);
      }
    }
  }

  ghost predicate DistinctIds(packages: seq<Artifact>) {
    forall i, j | 0 <= i < j < |packages| :: IdOf(packages[i].package) != IdOf(packages[j].package)
  }

  /** A run that is not stopped finishes, wherever earlier runs stopped. */
  lemma {:induction false} UnstoppedFinishes(todo: seq<Artifact>, start: Catalog, published: Catalog, k: nat)
    requires DistinctIds(todo) && k >= |todo|
    requires forall a | a in todo && IdOf(a.package) in published :: IdOf(a.package) in start
    ensures Publishing(todo, start, published, k).finished
  {
    if todo != [] {
      var id, rest := IdOf(todo[0].package), todo[1..];
      assert todo == [todo[0]] + rest;
      if id in start {
        UnstoppedFinishes(rest, start, published, k);
      } else {
        UnstoppedFinishes(rest, start, published[id := todo[0].content], k - 1);
      }
    }
  }

  // ---------- Dependency closure ----------

  /** Package `j` is one that package `i` depends on. */
  predicate DependsOn(dag: seq<Node>, packages: seq<Artifact>, i: nat, j: nat)
    requires i < |packages| && j < |packages|
  {
    exists n | n in dag :: n.key == packages[i].package.key && packages[j].package.key in n.dependsOn
  }

  /** Whatever is published has its dependencies published. */
  ghost predicate DependencyClosed(dag: seq<Node>, packages: seq<Artifact>, published: Catalog) {
    forall i, j | 0 <= i < |packages| && 0 <= j < |packages| && DependsOn(dag, packages, i, j) ::
      IdOf(packages[i].package) in published ==> IdOf(packages[j].package) in published
  }

  function ArtifactKeys(packages: seq<Artifact>): (keys: seq<string>)
    ensures |keys| == |packages| && forall i | 0 <= i < |packages| :: keys[i] == packages[i].package.key
  {
    seq(|packages|, i requires 0 <= i < |packages| => packages[i].package.key)
  }

  lemma DependenciesAreEarlier(dag: seq<Node>, packages: seq<Artifact>, i: nat, j: nat)
    requires PublishOrder(dag, ArtifactKeys(packages))
    requires i < |packages| && j < |packages| && DependsOn(dag, packages, i, j)
    ensures j < i
  {
    var keys := ArtifactKeys(packages);
    var n :| n in dag && n.key == packages[i].package.key && packages[j].package.key in n.dependsOn;
    assert n.key == keys[i] && DependenciesIn(n, keys[..i]);
    assert keys[j] in keys[..i];
    var l :| 0 <= l < i && keys[l] == keys[j];
  }

  ghost predicate AllIn(packages: seq<Artifact>, i: nat, published: Catalog) {
    forall j | 0 <= j < i && j < |packages| :: IdOf(packages[j].package) in published
  }

  lemma AddingKeepsClosed(dag: seq<Node>, packages: seq<Artifact>, i: nat, published: Catalog)
    requires PublishOrder(dag, ArtifactKeys(packages)) && DistinctIds(packages) && i < |packages|
    requires DependencyClosed(dag, packages, published) && AllIn(packages, i, published)
    ensures DependencyClosed(dag, packages, published[IdOf(packages[i].package) := packages[i].content])
  {
    var after := published[IdOf(packages[i].package) := packages[i].content];
    forall a, b | 0 <= a < |packages| && 0 <= b < |packages| && DependsOn(dag, packages, a, b)
                  && IdOf(packages[a].package) in after
      ensures IdOf(packages[b].package) in after
    {
      DependenciesAreEarlier(dag, packages, a, b);
      assert a == i || IdOf(packages[a].package) != IdOf(packages[i].package);
    }
  }

  lemma {:induction false} RunKeepsClosed(dag: seq<Node>, packages: seq<Artifact>, i: nat, start: Catalog,
                                          published: Catalog, k: nat)
    requires PublishOrder(dag, ArtifactKeys(packages)) && DistinctIds(packages) && i <= |packages|
    requires DependencyClosed(dag, packages, published) && AllIn(packages, i, published)
    requires forall id | id in start :: id in published
    ensures DependencyClosed(dag, packages, Publishing(packages[i..], start, published, k).published)
    decreases |packages| - i
  {
    if i < |packages| {
      var id := IdOf(packages[i].package);
      assert packages[i..][1..] == packages[i + 1..];
      if id in start {
        RunKeepsClosed(dag, packages, i + 1, start, published, k);
      } else if k > 0 && id !in published {
        AddingKeepsClosed(dag, packages, i, published);
        RunKeepsClosed(dag, packages, i + 1, start, published[id := packages[i].content], k - 1);
      }
    }
  }

  lemma {:induction false} PublishesPrefix(todo: seq<Artifact>, published: Catalog, k: nat)
    requires DistinctIds(todo) && forall a | a in todo :: IdOf(a.package) !in published
    ensures forall i | 0 <= i < |todo| :: IdOf(todo[i].package) in Publishing(todo, map[], published, k).published <==> i < k
  {
    if todo != [] {
      var id, rest := IdOf(todo[0].package), todo[1..];
      if k > 0 {
        var after := published[id := todo[0].content];
        forall a | a in rest
          ensures IdOf(a.package) !in after
        {
          var i :| 0 <= i < |rest| && rest[i] == a;
          assert todo[i + 1] == a && a in todo;
        }
        PublishesPrefix(rest, after, k - 1);
        RunAddsSealed(rest, map[], after, k - 1);
        forall i | 0 < i < |todo|
          ensures IdOf(todo[i].package) in Publishing(todo, map[], published, k).published <==> i < k
        {
          assert todo[i] == rest[i - 1];
        }
      }
    }
  }

  /** The order check cannot be relaxed: with a dependency later in the order, some crash exposes a dependent without it. */
  lemma LateDependencyIsExposed(dag: seq<Node>, packages: seq<Artifact>, i: nat, j: nat)
    requires DistinctIds(packages) && i < j < |packages| && DependsOn(dag, packages, i, j)
    ensures !DependencyClosed(dag, packages, Publishing(packages, map[], map[], i + 1).published)
  {
    PublishesPrefix(packages, map[], i + 1);
  }

  // ---------- Any number of runs ----------

  /** One run of the publisher: the checkout, the directory it finds, what it is asked, and when it stops. */
  datatype Run = Run(info: PackageInfo, files: map<string, string>, request: Request, k: nat)

  function Step(host: Host, published: Catalog, run: Run): Outcome {
    match Admit(host, run.files, run.info, run.request)
    case None => Outcome(published, [], false)
    case Some(artifacts) =>
      if run.request.dryRun then Outcome(published, [], false)
      else Publishing(artifacts.packages, published, published, run.k)
  }

  /** `finished` is that of the last run. */
  function Steps(host: Host, published: Catalog, runs: seq<Run>): Outcome {
    if runs == [] then Outcome(published, [], false)
    else
      var earlier := Steps(host, published, runs[..|runs| - 1]);
      var last := Step(host, earlier.published, runs[|runs| - 1]);
      Outcome(last.published, earlier.log + last.log, last.finished)
  }

  /** The four packages have four names. */
  predicate DistinctNames(info: PackageInfo) {
    Distinct([info.coreName, info.cliName, info.legacyCoreName, info.legacyCliName])
  }

  /** Releases of the same packages, of any versions. */
  predicate SameNames(a: PackageInfo, b: PackageInfo) {
    a.coreName == b.coreName && a.cliName == b.cliName && a.legacyCoreName == b.legacyCoreName && a.legacyCliName == b.legacyCliName
  }

  /** Package `d` depends on package `e`. */
  predicate Needs(d: Package, e: Package) {
    exists n | n in RELEASE_PACKAGE_DAG :: n.key == d.key && e.key in n.dependsOn
  }

  /** Whatever is published of this release has its dependencies published. */
  ghost predicate ReleaseClosed(info: PackageInfo, published: Catalog) {
    forall d, e | d in ReleasePackageDefinitions(info) && e in ReleasePackageDefinitions(info) && Needs(d, e) ::
      IdOf(d) in published ==> IdOf(e) in published
  }

  lemma ClosedWhenAligned(info: PackageInfo, packages: seq<Artifact>, published: Catalog)
    requires Aligned(packages, ReleasePackageDefinitions(info))
    ensures ReleaseClosed(info, published) <==> DependencyClosed(RELEASE_PACKAGE_DAG, packages, published)
  {
    var defs := ReleasePackageDefinitions(info);
    forall i, j | 0 <= i < |packages| && 0 <= j < |packages|
      ensures DependsOn(RELEASE_PACKAGE_DAG, packages, i, j) <==> Needs(defs[i], defs[j])
    {
    }
    if DependencyClosed(RELEASE_PACKAGE_DAG, packages, published) {
      forall d, e | d in defs && e in defs && Needs(d, e) && IdOf(d) in published
        ensures IdOf(e) in published
      {
        var i :| 0 <= i < |defs| && defs[i] == d;
        var j :| 0 <= j < |defs| && defs[j] == e;
        assert DependsOn(RELEASE_PACKAGE_DAG, packages, i, j) && packages[i].package == d && packages[j].package == e;
      }
    }
  }

  lemma AdmittedSet(info: PackageInfo, packages: seq<Artifact>)
    requires DistinctNames(info) && Aligned(packages, ReleasePackageDefinitions(info))
    ensures PublishOrder(RELEASE_PACKAGE_DAG, ArtifactKeys(packages)) && DistinctIds(packages)
  {
    var defs := ReleasePackageDefinitions(info);
    ReleaseOrderIsAccepted(info);
    assert ArtifactKeys(packages) == PackageKeys(defs);
    var names := [info.coreName, info.cliName, info.legacyCoreName, info.legacyCliName];
    assert forall i | 0 <= i < 4 :: packages[i].package.name == names[i];
  }

  /** Versions are only added, each once and none that was there. */
  ghost predicate AddsOnce(before: Catalog, r: Outcome) {
    && (forall id | id in before :: id in r.published && r.published[id] == before[id])
    && (forall id :: id in r.published <==> id in before || id in r.log)
    && Distinct(r.log) && (forall id | id in r.log :: id !in before)
  }

  /** The run is admitted, is no rehearsal, and has a package with this id and these bytes. */
  ghost predicate Offers(host: Host, run: Run, id: Id, content: string) {
    && Admit(host, run.files, run.info, run.request).Some? && !run.request.dryRun
    && exists a :: a in Admit(host, run.files, run.info, run.request).value.packages && IdOf(a.package) == id && a.content == content
  }

  lemma OneVersion(info: PackageInfo, d: Package)
    requires MatchingVersions(info) && d in ReleasePackageDefinitions(info)
    ensures d.version == info.cliVersion
  {
  }

  /** Adding versions other than `version` publishes nothing of it. */
  lemma OtherVersionsAdded(packages: seq<Artifact>, before: Catalog, r: Outcome, version: string, id: Id)
    requires AddsSealed(packages, before, r) && forall a | a in packages :: a.package.version != version
    requires id in r.published && id.1 == version
    ensures id in before
  {
  }

  lemma OtherReleaseKeepsClosed(info: PackageInfo, packages: seq<Artifact>, before: Catalog, r: Outcome)
    requires MatchingVersions(info) && AddsSealed(packages, before, r)
    requires forall a | a in packages :: a.package.version != info.cliVersion
    requires ReleaseClosed(info, before)
    ensures ReleaseClosed(info, r.published)
  {
    forall d | d in ReleasePackageDefinitions(info) && IdOf(d) in r.published
      ensures IdOf(d) in before
    {
      OneVersion(info, d);
      OtherVersionsAdded(packages, before, r, info.cliVersion, IdOf(d));
    }
  }

  lemma AlignedVersion(other: PackageInfo, packages: seq<Artifact>)
    requires MatchingVersions(other) && Aligned(packages, ReleasePackageDefinitions(other))
    ensures forall a | a in packages :: a.package.version == other.cliVersion
  {
    forall a | a in packages
      ensures a.package.version == other.cliVersion
    {
      var i :| 0 <= i < |packages| && packages[i] == a;
      OneVersion(other, ReleasePackageDefinitions(other)[i]);
    }
  }

  lemma StepIsSafe(host: Host, info: PackageInfo, published: Catalog, run: Run)
    requires MatchingVersions(info) && DistinctNames(info) && SameNames(run.info, info) && ReleaseClosed(info, published)
    ensures var r := Step(host, published, run);
            && ReleaseClosed(info, r.published) && AddsOnce(published, r)
            && forall id | id in r.log :: Offers(host, run, id, r.published[id])
  {
    var admitted := Admit(host, run.files, run.info, run.request);
    if admitted.Some? && !run.request.dryRun {
      var packages := admitted.value.packages;
      AdmittedPackages(host, run.files, run.info, run.request);
      RunAddsSealed(packages, published, published, run.k);
      if run.info.cliVersion == info.cliVersion {
        assert run.info == info;
        AdmittedSet(info, packages);
        ClosedWhenAligned(info, packages, published);
        RunKeepsClosed(RELEASE_PACKAGE_DAG, packages, 0, published, published, run.k);
        assert packages[0..] == packages;
        ClosedWhenAligned(info, packages, Publishing(packages, published, published, run.k).published);
      } else {
        AlignedVersion(run.info, packages);
        OtherReleaseKeepsClosed(info, packages, published, Publishing(packages, published, published, run.k));
      }
    }
  }

  lemma OnceComposes(before: Catalog, first: Outcome, second: Outcome)
    requires AddsOnce(before, first) && AddsOnce(first.published, second)
    ensures AddsOnce(before, Outcome(second.published, first.log + second.log, second.finished))
  {
    var both := first.log + second.log;
    forall i, j | 0 <= i < j < |both|
      ensures both[i] != both[j]
    {
      if i < |first.log| <= j {
        assert both[i] in first.log && both[j] in second.log && both[j] !in first.published;
      }
    }
  }

  /**
   Over any history of runs on any checkouts of these packages, with any directories and receipts, each stopping
   anywhere: every release stays closed under dependencies, existing versions keep their bytes, no version is
   published twice, and each has the bytes of a package that an admitted run carried.
   */
  lemma {:induction false} HistoryIsSafe(host: Host, info: PackageInfo, published: Catalog, runs: seq<Run>)
    requires MatchingVersions(info) && DistinctNames(info) && forall run | run in runs :: SameNames(run.info, info)
    requires ReleaseClosed(info, published)
    ensures var r := Steps(host, published, runs);
            && ReleaseClosed(info, r.published) && AddsOnce(published, r)
            && forall id | id in r.log :: exists run :: run in runs && Offers(host, run, id, r.published[id])
  {
    if runs == [] {
      assert AddsOnce(published, Outcome(published, [], false));
    } else {
      var init, run := runs[..|runs| - 1], runs[|runs| - 1];
      assert runs == init + [run];
      HistoryIsSafe(host, info, published, init);
      var earlier := Steps(host, published, init);
      var last := Step(host, earlier.published, run);
      StepIsSafe(host, info, earlier.published, run);
      OnceComposes(published, earlier, last);
      forall id | id in earlier.log + last.log
        ensures exists some :: some in runs && Offers(host, some, id, last.published[id])
      {
        if id in earlier.log {
          assert last.published[id] == earlier.published[id];
          var some :| some in init && Offers(host, some, id, earlier.published[id]);
          assert some in runs;
        } else {
          assert run in runs && Offers(host, run, id, last.published[id]);
        }
      }
    }
  }

  // ---------- The bytes of one receipt ----------

  /** A prepared release: its set of packages and the receipt of its manifest. */
  datatype Sealed = Sealed(manifest: Manifest, packages: seq<Artifact>, receipt: Digest)

  function SealedOf(host: Host, info: PackageInfo, npmTag: string, releaseTag: Option<string>, head: string): Sealed {
    var manifest := SealedManifest(host, info, npmTag, releaseTag, head);
    Sealed(manifest, SealedArtifacts(host, Expected(info, info.cliVersion)), Sha256(host.render(manifest)))
  }

  lemma SealedSet(host: Host, info: PackageInfo)
    requires DistinctNames(info)
    ensures var packages := SealedArtifacts(host, Expected(info, info.cliVersion));
            |packages| == 4 && PublishOrder(RELEASE_PACKAGE_DAG, ArtifactKeys(packages)) && DistinctIds(packages)
  {
    var defs := Expected(info, info.cliVersion);
    var packages := SealedArtifacts(host, defs);
    ReleaseOrderIsAccepted(info);
    assert ArtifactKeys(packages) == PackageKeys(defs) == PackageKeys(ReleasePackageDefinitions(info));
    var names := [info.coreName, info.cliName, info.legacyCoreName, info.legacyCliName];
    assert forall i | 0 <= i < 4 :: packages[i].package.name == names[i];
  }

  /** A run that holds the receipt publishes the sealed set, whatever it finds in the directory. */
  lemma AdmittedIsSealed(host: Host, info: PackageInfo, npmTag: string, releaseTag: Option<string>, head: string, run: Run)
    requires RoundTrips(host) && ResolveNpmTag(info.cliVersion, Some(npmTag)) == Some(npmTag) && run.info == info
    requires run.request.receipt == Some(SealedOf(host, info, npmTag, releaseTag, head).receipt)
    requires Admit(host, run.files, info, run.request).Some?
    ensures Admit(host, run.files, info, run.request).value.packages
            == SealedOf(host, info, npmTag, releaseTag, head).packages
  {
    var asked := if run.request.dryRun then None else Some(run.request.releaseTag);
    ReadIsSealedOrFails(host, run.files, info, npmTag, releaseTag, head, asked);
  }

  /** Every package of the set that is published has the set's bytes. */
  ghost predicate HasBytes(packages: seq<Artifact>, published: Catalog) {
    forall a | a in packages && IdOf(a.package) in published :: published[IdOf(a.package)] == a.content
  }

  lemma SameIdSameArtifact(packages: seq<Artifact>, a: Artifact, b: Artifact)
    requires DistinctIds(packages) && a in packages && b in packages && IdOf(a.package) == IdOf(b.package)
    ensures a == b
  {
  }

  /** Adding from the set never spoils the bytes and never repairs them. */
  lemma AddingKeepsBytes(packages: seq<Artifact>, before: Catalog, r: Outcome)
    requires DistinctIds(packages) && AddsSealed(packages, before, r)
    ensures HasBytes(packages, r.published) <==> HasBytes(packages, before)
  {
    forall a | a in packages && IdOf(a.package) in r.log
      ensures r.published[IdOf(a.package)] == a.content
    {
      var b :| b in packages && IdOf(b.package) == IdOf(a.package) && r.published[IdOf(a.package)] == b.content;
      SameIdSameArtifact(packages, a, b);
    }
  }

  lemma RunKeepsGood(dag: seq<Node>, packages: seq<Artifact>, published: Catalog, k: nat)
    requires PublishOrder(dag, ArtifactKeys(packages)) && DistinctIds(packages) && DependencyClosed(dag, packages, published)
    ensures var r := Publishing(packages, published, published, k);
            DependencyClosed(dag, packages, r.published) && (HasBytes(packages, r.published) <==> HasBytes(packages, published))
  {
    RunKeepsClosed(dag, packages, 0, published, published, k);
    assert packages[0..] == packages;
    RunAddsSealed(packages, published, published, k);
    AddingKeepsBytes(packages, published, Publishing(packages, published, published, k));
  }

  /** All runs carry the receipt of one prepared release. */
  predicate AllCarry(runs: seq<Run>, info: PackageInfo, receipt: Digest) {
    forall run | run in runs :: run.info == info && run.request.receipt == Some(receipt)
  }

  lemma AddsCompose(packages: seq<Artifact>, before: Catalog, first: Outcome, second: Outcome)
    requires AddsSealed(packages, before, first) && AddsSealed(packages, first.published, second)
    ensures AddsSealed(packages, before, Outcome(second.published, first.log + second.log, second.finished))
  {
    var both := first.log + second.log;
    OnceComposes(before, first, second);
    forall id | id in both
      ensures exists a :: a in packages && IdOf(a.package) == id && second.published[id] == a.content
    {
      if id in first.log {
        var a :| a in packages && IdOf(a.package) == id && first.published[id] == a.content;
        assert second.published[id] == a.content;
      } else {
        assert id in second.log;
      }
    }
  }

  lemma ReceiptStep(host: Host, info: PackageInfo, npmTag: string, releaseTag: Option<string>, head: string,
                    published: Catalog, run: Run)
    requires RoundTrips(host) && ResolveNpmTag(info.cliVersion, Some(npmTag)) == Some(npmTag) && run.info == info
    requires run.request.receipt == Some(SealedOf(host, info, npmTag, releaseTag, head).receipt)
    ensures var packages, r := SealedOf(host, info, npmTag, releaseTag, head).packages, Step(host, published, run);
            && AddsSealed(packages, published, r)
            && (r.finished ==> forall a | a in packages :: IdOf(a.package) in r.published)
  {
    var packages := SealedOf(host, info, npmTag, releaseTag, head).packages;
    if Admit(host, run.files, info, run.request).Some? && !run.request.dryRun {
      AdmittedIsSealed(host, info, npmTag, releaseTag, head, run);
      RunAddsSealed(packages, published, published, run.k);
      if Publishing(packages, published, published, run.k).finished {
        FinishedMeansAll(packages, published, published, run.k);
      }
    } else {
      assert AddsSealed(packages, published, Outcome(published, [], false));
    }
  }

  /**
   A history with the receipt of one prepared release adds versions with the sealed bytes only, so the set has the
   sealed bytes afterwards exactly if it had them before.
   */
  lemma {:induction false} ReceiptHistory(host: Host, info: PackageInfo, npmTag: string, releaseTag: Option<string>, head: string,
                                          published: Catalog, runs: seq<Run>)
    requires RoundTrips(host) && ResolveNpmTag(info.cliVersion, Some(npmTag)) == Some(npmTag) && DistinctNames(info)
    requires AllCarry(runs, info, SealedOf(host, info, npmTag, releaseTag, head).receipt)
    ensures var packages, r := SealedOf(host, info, npmTag, releaseTag, head).packages, Steps(host, published, runs);
            AddsSealed(packages, published, r) && (HasBytes(packages, r.published) <==> HasBytes(packages, published))
  {
    var packages := SealedOf(host, info, npmTag, releaseTag, head).packages;
    SealedSet(host, info);
    if runs == [] {
      assert AddsSealed(packages, published, Outcome(published, [], false));
    } else {
      var init, run := runs[..|runs| - 1], runs[|runs| - 1];
      ReceiptHistory(host, info, npmTag, releaseTag, head, published, init);
      var earlier := Steps(host, published, init);
      ReceiptStep(host, info, npmTag, releaseTag, head, earlier.published, run);
      AddsCompose(packages, published, earlier, Step(host, earlier.published, run));
    }
    AddingKeepsBytes(packages, published, Steps(host, published, runs));
  }

  /**
   After any history, of whatever receipts, an admitted run that is not stopped completes the set; the set then has
   the bytes of its receipt if and only if every version of the set that was there before the run already had them.
   */
  lemma ResumeCompletes(host: Host, info: PackageInfo, npmTag: string, releaseTag: Option<string>, head: string,
                        published: Catalog, runs: seq<Run>, last: Run)
    requires RoundTrips(host) && ResolveNpmTag(info.cliVersion, Some(npmTag)) == Some(npmTag) && DistinctNames(info)
    requires last.info == info && last.request.receipt == Some(SealedOf(host, info, npmTag, releaseTag, head).receipt)
    requires Admit(host, last.files, info, last.request).Some? && !last.request.dryRun && last.k >= 4
    ensures var packages := SealedOf(host, info, npmTag, releaseTag, head).packages;
            var before := Steps(host, published, runs).published;
            var r := Steps(host, published, runs + [last]);
            && r.finished && (forall a | a in packages :: IdOf(a.package) in r.published)
            && ((forall a | a in packages :: r.published[IdOf(a.package)] == a.content) <==> HasBytes(packages, before))
  {
    var packages := SealedOf(host, info, npmTag, releaseTag, head).packages;
    var before := Steps(host, published, runs).published;
    assert (runs + [last])[..|runs|] == runs;
    SealedSet(host, info);
    ReceiptStep(host, info, npmTag, releaseTag, head, before, last);
    AdmittedIsSealed(host, info, npmTag, releaseTag, head, last);
    UnstoppedFinishes(packages, before, before, last.k);
    AddingKeepsBytes(packages, before, Step(host, before, last));
  }
}
