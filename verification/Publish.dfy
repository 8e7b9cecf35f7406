/** Publishing the sealed tarballs, with a crash possible before and after every publish command. */
module Publish {
  import opened Wrappers
  import opened Text
  import opened Releases
  import opened ReleaseArtifacts

  /** A version on the registry: package name and version. */
  type Id = (string, string)

  type Catalog = map<Id, string>

  function IdOf(d: Package): Id {
    (d.name, d.version)
  }

  // ---------- The publish loop as a function of when it stops ----------

  /** `log` lists the versions that the run added, in order. */
  datatype Outcome = Outcome(published: Catalog, log: seq<Id>, finished: bool)

  /**
   A run that planned against `start` and stops after `k` publishes. The registry refuses a version it has.
   */
  function Publishing(todo: seq<Artifact>, start: Catalog, published: Catalog, k: nat): Outcome {
    if todo == [] then Outcome(published, [], true)
    else
      var id := IdOf(todo[0].package);
      if id in start then Publishing(todo[1..], start, published, k)
      else if k == 0 || id in published then Outcome(published, [], false)
      else
        var rest := Publishing(todo[1..], start, published[id := todo[0].content], k - 1);
        rest.(log := [id] + rest.log)
  }

  lemma {:induction false} StoppedAtOnce(todo: seq<Artifact>, start: Catalog, published: Catalog)
    ensures Publishing(todo, start, published, 0).published == published
    ensures Publishing(todo, start, published, 0).log == []
  {
    if todo != [] && IdOf(todo[0].package) in start {
      StoppedAtOnce(todo[1..], start, published);
    }
  }

  // ---------- Registry ----------

  class Registry {
    var published: Catalog
    var log: seq<Id>
    var contacts: nat

    constructor (published: Catalog)
      ensures this.published == published && log == [] && contacts == 0
    {
      this.published := published;
      log := [];
      contacts := 0;
    }

    /** `None` is a failed query. */
    method Exists(id: Id) returns (r: Option<bool>)
      modifies this`contacts
      ensures r.Some? ==> r.value == (id in published)
      ensures contacts == old(contacts) + 1
    {
      contacts := contacts + 1;
      if * {
        return None;
      }
      r := Some(id in published);
    }

    /** A command that did not succeed may still have had its effect. */
    method Publish(id: Id, content: string, dryRun: bool) returns (ok: bool)
      modifies this
      ensures ok && !dryRun ==> id !in old(published)
      ensures if ok && !dryRun then Added(id, content, old(published), old(log))
              else (published == old(published) && log == old(log))
                   || (!dryRun && id !in old(published) && Added(id, content, old(published), old(log)))
    {
      contacts := contacts + 1;
      if dryRun {
        if * {
          return false;
        }
        return true;
      }
      if id in published {
        return false;
      }
      if * {
        return false;
      }
      published := published[id := content];
      log := log + [id];
      if * {
        return false;
      }
      return true;
    }

    ghost predicate Added(id: Id, content: string, before: Catalog, earlier: seq<Id>)
      reads this
    {
      published == before[id := content] && log == earlier + [id]
    }
  }

  // ---------- Plan ----------

  datatype Plan = Plan(version: string, tag: string, publish: map<string, bool>)

  /** Does the plan publish exactly the packages that are absent? */
  ghost predicate PlansAbsent(plan: Plan, defs: seq<Package>, published: Catalog) {
    forall d | d in defs :: d.key in plan.publish && plan.publish[d.key] == (IdOf(d) !in published)
  }

  lemma DistinctKeys(info: PackageInfo, c: Package, d: Package)
    requires c in ReleasePackageDefinitions(info) && d in ReleasePackageDefinitions(info) && c.key == d.key
    ensures c == d
  {
  }

  method CreatePublishPlan(info: PackageInfo, npmTag: Option<string>, registry: Registry) returns (plan: Option<Plan>)
    modifies registry`contacts
    ensures plan.Some? ==>
              && MatchingVersions(info) && plan.value.version == info.cliVersion
              && Some(plan.value.tag) == ResolveNpmTag(info.cliVersion, npmTag)
              && PlansAbsent(plan.value, ReleasePackageDefinitions(info), registry.published)
  {
    if !MatchingVersions(info) {
      return None;
    }
    var tag := ResolveNpmTag(info.cliVersion, npmTag);
    if tag.None? {
      return None;
    }
    var defs := ReleasePackageDefinitions(info);
    var publish: map<string, bool> := map[];
    for i := 0 to |defs|
      invariant forall j | 0 <= j < i :: defs[j].key in publish && publish[defs[j].key] == (IdOf(defs[j]) !in registry.published)
    {
      var exists_ := registry.Exists(IdOf(defs[i]));
      if exists_.None? {
        return None;
      }
      forall j | 0 <= j < i && defs[j].key == defs[i].key
        ensures defs[j] == defs[i]
      {
        DistinctKeys(info, defs[j], defs[i]);
      }
      publish := publish[defs[i].key := !exists_.value];
    }
    plan := Some(Plan(info.cliVersion, tag.value, publish));
  }

  // ---------- The run ----------

  /** `receipt` is `None` when it is not a well-formed digest. */
  datatype Request = Request(dryRun: bool, releaseTag: string, npmTag: Option<string>, receipt: Option<Digest>, commit: string)

  const RELEASE_TAG_PREFIX := "pactile-v"

  function TaggedVersion(tag: string): Option<string> {
    if StartsWith(tag, RELEASE_TAG_PREFIX) && ParseRelease(tag[|RELEASE_TAG_PREFIX|..]).Some?
    then Some(tag[|RELEASE_TAG_PREFIX|..])
    else None
  }

  /** Every check of a run before the registry is first contacted. */
  function Admit(host: Host, files: map<string, string>, info: PackageInfo, request: Request): Option<Artifacts> {
    var receipt :- request.receipt;
    if !MatchingVersions(info) then None
    else if !request.dryRun && TaggedVersion(request.releaseTag) != Some(info.cliVersion) then None
    else
      var artifacts :- ReadPrepared(host, files, info, if request.dryRun then None else Some(request.releaseTag), receipt);
      var npmTag :- if request.npmTag.None? then Some(artifacts.manifest.npmTag)
                    else ResolveNpmTag(info.cliVersion, request.npmTag);
      if artifacts.manifest.npmTag != npmTag || artifacts.manifest.commit != request.commit then None
      else Some(artifacts)
  }

  function ArtifactFor(packages: seq<Artifact>, key: string): Option<Artifact> {
    if packages == [] then None
    else if packages[0].package.key == key then Some(packages[0])
    else ArtifactFor(packages[1..], key)
  }

  lemma {:induction false} ArtifactAt(packages: seq<Artifact>, i: nat)
    requires i < |packages| && forall j | 0 <= j < i :: packages[j].package.key != packages[i].package.key
    ensures ArtifactFor(packages, packages[i].package.key) == Some(packages[i])
  {
    if i > 0 {
      ArtifactAt(packages[1..], i - 1);
    }
  }

  lemma {:induction false} ReadAllPackages(host: Host, files: map<string, string>, records: seq<Record>, defs: seq<Package>)
    requires ReadAll(host, files, records, defs).Some?
    ensures var packages := ReadAll(host, files, records, defs).value;
            |packages| == |defs| && forall i | 0 <= i < |defs| :: packages[i].package == defs[i]
  {
    if defs != [] {
      ReadAllPackages(host, files, records, defs[1..]);
    }
  }

  /** The packages that are read are the definitions, in publish order. */
  ghost predicate Aligned(packages: seq<Artifact>, defs: seq<Package>) {
    |packages| == |defs| && forall i | 0 <= i < |defs| :: packages[i].package == defs[i]
  }

  lemma AdmittedPackages(host: Host, files: map<string, string>, info: PackageInfo, request: Request)
    requires Admit(host, files, info, request).Some?
    ensures var artifacts := Admit(host, files, info, request).value;
            && MatchingVersions(info) && Aligned(artifacts.packages, ReleasePackageDefinitions(info))
            && artifacts.manifest.version == info.cliVersion
            && ResolveNpmTag(info.cliVersion, Some(artifacts.manifest.npmTag)) == Some(artifacts.manifest.npmTag)
  {
    var artifacts := Admit(host, files, info, request).value;
    ReadAllPackages(host, files, artifacts.manifest.packages, Expected(info, artifacts.manifest.version));
    assert Expected(info, info.cliVersion) == ReleasePackageDefinitions(info);
  }

  /** The registry and log after some run of the loop that stopped early or, when `ok`, finished. */
  ghost predicate SomeRun(packages: seq<Artifact>, before: Catalog, earlier: seq<Id>, after: Catalog, log: seq<Id>, ok: bool) {
    exists k: nat ::
      var r := Publishing(packages, before, before, k);
      after == r.published && log == earlier + r.log && (ok ==> r.finished)
  }

  lemma PublishingCons(a: Artifact, rest: seq<Artifact>, start: Catalog, published: Catalog, k: nat)
    ensures Publishing([a] + rest, start, published, k) ==
            var id := IdOf(a.package);
            if id in start then Publishing(rest, start, published, k)
            else if k == 0 || id in published then Outcome(published, [], false)
            else
              var r := Publishing(rest, start, published[id := a.content], k - 1);
              Outcome(r.published, [id] + r.log, r.finished)
  {
    assert ([a] + rest)[1..] == rest;
  }

  lemma AppendPublished(x: Artifact, todo: seq<Artifact>, start: Catalog, published: Catalog, k: nat, tail: seq<Id>, r: Outcome)
    requires IdOf(x.package) !in start && IdOf(x.package) !in published
    requires Publishing(todo, start, published[IdOf(x.package) := x.content], k)
             == Outcome(r.published, tail + r.log, r.finished)
    ensures Publishing([x] + todo, start, published, k + 1)
            == Outcome(r.published, ([IdOf(x.package)] + tail) + r.log, r.finished)
  {
    PublishingCons(x, todo, start, published, k + 1);
    assert [IdOf(x.package)] + (tail + r.log) == ([IdOf(x.package)] + tail) + r.log;
  }

  lemma {:induction false} PublishingAppend(a: seq<Artifact>, b: seq<Artifact>, start: Catalog, published: Catalog,
                                            p: Catalog, l: seq<Id>, m: nat)
    requires Publishing(a, start, published, |l|) == Outcome(p, l, true)
    ensures Publishing(a + b, start, published, |l| + m) ==
            var r := Publishing(b, start, p, m); Outcome(r.published, l + r.log, r.finished)
  {
    if a == [] {
      assert a + b == b;
    } else {
      var x, rest := a[0], a[1..];
      var id := IdOf(x.package);
      assert a == [x] + rest && a + b == [x] + (rest + b);
      PublishingCons(x, rest, start, published, |l|);
      if id in start {
        PublishingCons(x, rest + b, start, published, |l| + m);
        PublishingAppend(rest, b, start, published, p, l, m);
      } else {
        var after := published[id := x.content];
        var tail := Publishing(rest, start, after, |l| - 1).log;
        LogTail(id, tail, l);
        PublishingAppend(rest, b, start, after, p, tail, m);
        AppendPublished(x, rest + b, start, published, |tail| + m, tail, Publishing(b, start, p, m));
      }
    }
  }

  lemma LogTail(id: Id, tail: seq<Id>, l: seq<Id>)
    requires l == [id] + tail
    ensures l[1..] == tail
  {
  }

  /** The first `i` packages have been dealt with. */
  ghost predicate InStep(packages: seq<Artifact>, i: nat, start: Catalog, earlier: seq<Id>, published: Catalog, log: seq<Id>) {
    && i <= |packages| && earlier <= log
    && Publishing(packages[..i], start, start, |log| - |earlier|) == Outcome(published, log[|earlier|..], true)
  }

  lemma StepSkips(packages: seq<Artifact>, i: nat, start: Catalog, earlier: seq<Id>, published: Catalog, log: seq<Id>)
    requires InStep(packages, i, start, earlier, published, log) && i < |packages|
    requires IdOf(packages[i].package) in start
    ensures InStep(packages, i + 1, start, earlier, published, log)
  {
    PublishingAppend(packages[..i], [packages[i]], start, start, published, log[|earlier|..], 0);
    assert packages[..i + 1] == packages[..i] + [packages[i]];
    assert log[|earlier|..] + [] == log[|earlier|..];
  }

  lemma StepPublishes(packages: seq<Artifact>, i: nat, start: Catalog, earlier: seq<Id>, published: Catalog, log: seq<Id>)
    requires InStep(packages, i, start, earlier, published, log) && i < |packages|
    requires IdOf(packages[i].package) !in start && IdOf(packages[i].package) !in published
    ensures InStep(packages, i + 1, start, earlier, published[IdOf(packages[i].package) := packages[i].content],
                   log + [IdOf(packages[i].package)])
  {
    var done, id := log[|earlier|..], IdOf(packages[i].package);
    PublishingAppend(packages[..i], [packages[i]], start, start, published, done, 1);
    assert packages[..i + 1] == packages[..i] + [packages[i]];
    assert Publishing([packages[i]], start, published, 1) == Outcome(published[id := packages[i].content], [id], true);
    assert (log + [id])[|earlier|..] == done + [id];
  }

  lemma StepStops(packages: seq<Artifact>, i: nat, start: Catalog, earlier: seq<Id>, published: Catalog, log: seq<Id>)
    requires InStep(packages, i, start, earlier, published, log)
    ensures SomeRun(packages, start, earlier, published, log, false)
  {
    var done := log[|earlier|..];
    PublishingAppend(packages[..i], packages[i..], start, start, published, done, 0);
    StoppedAtOnce(packages[i..], start, published);
    assert packages == packages[..i] + packages[i..] && done + [] == done && log == earlier + done;
    assert Publishing(packages, start, start, |done|).published == published;
  }

  lemma StepEnds(packages: seq<Artifact>, start: Catalog, earlier: seq<Id>, published: Catalog, log: seq<Id>)
    requires InStep(packages, |packages|, start, earlier, published, log)
    ensures SomeRun(packages, start, earlier, published, log, true)
  {
    assert packages[..|packages|] == packages && log == earlier + log[|earlier|..];
    assert Publishing(packages, start, start, |log| - |earlier|).published == published;
  }

  lemma FindAligned(packages: seq<Artifact>, defs: seq<Package>, i: nat)
    requires Aligned(packages, defs) && Distinct(PackageKeys(defs)) && i < |defs|
    ensures ArtifactFor(packages, defs[i].key) == Some(packages[i])
  {
    forall j | 0 <= j < i
      ensures packages[j].package.key != packages[i].package.key
    {
      assert PackageKeys(defs)[j] != PackageKeys(defs)[i];
    }
    ArtifactAt(packages, i);
  }

  /** Either nothing happened to the registry, or one version was added. */
  lemma AfterCommand(packages: seq<Artifact>, i: nat, start: Catalog, earlier: seq<Id>, published: Catalog, log: seq<Id>,
                     after: Catalog, afterLog: seq<Id>)
    requires InStep(packages, i, start, earlier, published, log) && i < |packages|
    requires IdOf(packages[i].package) !in start
    requires (after == published && afterLog == log)
             || (IdOf(packages[i].package) !in published
                 && after == published[IdOf(packages[i].package) := packages[i].content]
                 && afterLog == log + [IdOf(packages[i].package)])
    ensures SomeRun(packages, start, earlier, after, afterLog, false)
  {
    if after == published && afterLog == log {
      StepStops(packages, i, start, earlier, published, log);
    } else {
      StepPublishes(packages, i, start, earlier, published, log);
      StepStops(packages, i + 1, start, earlier, after, afterLog);
    }
  }

  method PublishAll(defs: seq<Package>, packages: seq<Artifact>, plan: Plan, registry: Registry) returns (ok: bool)
    requires Aligned(packages, defs) && Distinct(PackageKeys(defs)) && PlansAbsent(plan, defs, registry.published)
    modifies registry
    ensures SomeRun(packages, old(registry.published), old(registry.log), registry.published, registry.log, ok)
  {
    ghost var start, earlier := registry.published, registry.log;
    for i := 0 to |defs|
      invariant InStep(packages, i, start, earlier, registry.published, registry.log)
    {
      assert defs[i] in defs && packages[i].package == defs[i];
      ghost var published, log := registry.published, registry.log;
      if plan.publish[defs[i].key] {
        FindAligned(packages, defs, i);
        var artifact := ArtifactFor(packages, defs[i].key);
        ok := registry.Publish(IdOf(defs[i]), artifact.value.content, false);
        if !ok {
          AfterCommand(packages, i, start, earlier, published, log, registry.published, registry.log);
          return;
        }
        StepPublishes(packages, i, start, earlier, published, log);
      } else {
        StepSkips(packages, i, start, earlier, published, log);
      }
    }
    StepEnds(packages, start, earlier, registry.published, registry.log);
    ok := true;
  }

  /** The rehearsal issues every command with `--dry-run`. */
  method RehearseAll(packages: seq<Artifact>, registry: Registry) returns (ok: bool)
    modifies registry
    ensures registry.published == old(registry.published) && registry.log == old(registry.log)
  {
    for i := 0 to |packages|
      invariant registry.published == old(registry.published) && registry.log == old(registry.log)
    {
      ok := registry.Publish(IdOf(packages[i].package), packages[i].content, true);
      if !ok {
        return;
      }
    }
    ok := true;
  }

  predicate SomethingToPublish(plan: Plan, defs: seq<Package>) {
    exists d | d in defs :: d.key in plan.publish && plan.publish[d.key]
  }

  /**
   A run that is not admitted never contacts the registry; a rehearsal never changes it; any other run adds
   what some prefix of the publish loop adds, and all of it when the run succeeds.
   */
  method RunPreparedPublish(host: Host, files: map<string, string>, info: PackageInfo, request: Request, registry: Registry)
    returns (ok: bool)
    modifies registry
    ensures Admit(host, files, info, request).None? ==> !ok && unchanged(registry)
    ensures request.dryRun ==> registry.published == old(registry.published) && registry.log == old(registry.log)
    ensures Admit(host, files, info, request).Some? && !request.dryRun ==>
              SomeRun(Admit(host, files, info, request).value.packages, old(registry.published), old(registry.log),
                      registry.published, registry.log, ok)
  {
    var admitted := Admit(host, files, info, request);
    if admitted.None? {
      return false;
    }
    AdmittedPackages(host, files, info, request);
    ReleaseOrderIsAccepted(info);
    var artifacts := admitted.value;
    if request.dryRun {
      ok := RehearseAll(artifacts.packages, registry);
      return;
    }
    ghost var start, earlier := registry.published, registry.log;
    var plan := CreatePublishPlan(info, Some(artifacts.manifest.npmTag), registry);
    NothingYet(artifacts.packages, start, earlier);
    if plan.None? || plan.value.tag != artifacts.manifest.npmTag || plan.value.version != artifacts.manifest.version {
      return false;
    }
    if SomethingToPublish(plan.value, ReleasePackageDefinitions(info)) {
      if * {
        return false;  // `npm whoami` failed
      }
    }
    ok := PublishAll(ReleasePackageDefinitions(info), artifacts.packages, plan.value, registry);
  }

  lemma NothingYet(packages: seq<Artifact>, start: Catalog, earlier: seq<Id>)
    ensures SomeRun(packages, start, earlier, start, earlier, false)
  {
    StoppedAtOnce(packages, start, start);
    assert earlier + [] == earlier;
    assert Publishing(packages, start, start, 0).published == start;
  }
}
