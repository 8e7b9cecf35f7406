/** Preparing and sealing the release tarballs, and reading them back. */
module ReleaseArtifacts {
  import opened Wrappers
  import opened Text
  import opened Numerals
  import opened Releases

  // ---------- The packages and their order ----------

  datatype Node = Node(key: string, dependsOn: seq<string>)

  const RELEASE_PACKAGE_DAG: seq<Node> := [
    Node("core", []), Node("cli", ["core"]), Node("legacyCore", ["cli"]), Node("legacyCli", ["legacyCore"])
  ]

  predicate Distinct<T(==)>(s: seq<T>) {
    forall i, j | 0 <= i < j < |s| :: s[i] != s[j]
  }

  function Keys(dag: seq<Node>): (keys: seq<string>)
    ensures |keys| == |dag| && forall i | 0 <= i < |dag| :: keys[i] == dag[i].key
  {
    seq(|dag|, i requires 0 <= i < |dag| => dag[i].key)
  }

  /** Each package of the graph once, and never before a package it depends on. */
  ghost predicate PublishOrder(dag: seq<Node>, order: seq<string>) {
    && Distinct(order)
    && (forall key :: key in order <==> key in Keys(dag))
    && forall i, n | 0 <= i < |order| && n in dag && n.key == order[i] :: DependenciesIn(n, order[..i])
  }

  predicate DependenciesIn(n: Node, earlier: seq<string>) {
    forall d | d in n.dependsOn :: d in earlier
  }

  function Members(s: seq<string>): set<string> {
    set x | x in s
  }

  lemma {:induction false} DistinctSize(s: seq<string>)
    requires Distinct(s)
    ensures |Members(s)| == |s|
  {
    if s != [] {
      var last := s[|s| - 1];
      DistinctSize(s[..|s| - 1]);
      assert s == s[..|s| - 1] + [last];
      assert Members(s) == Members(s[..|s| - 1]) + {last};
    } else {
      assert Members(s) == {};
    }
  }

  lemma SameKeysSameLength(dag: seq<Node>, order: seq<string>)
    requires Distinct(Keys(dag)) && PublishOrder(dag, order)
    ensures |order| == |dag|
  {
    DistinctSize(order);
    DistinctSize(Keys(dag));
    assert Members(order) == Members(Keys(dag));
  }

  method FindNode(dag: seq<Node>, key: string) returns (r: Option<Node>)
    ensures r.Some? ==> r.value in dag && r.value.key == key
    ensures r.None? ==> key !in Keys(dag)
  {
    for i := 0 to |dag|
      invariant forall j | 0 <= j < i :: dag[j].key != key
    {
      if dag[i].key == key {
        return Some(dag[i]);
      }
    }
    return None;
  }

  lemma OneNodePerKey(dag: seq<Node>, m: Node, n: Node)
    requires Distinct(Keys(dag)) && m in dag && n in dag && m.key == n.key
    ensures m == n
  {
    var i :| 0 <= i < |dag| && dag[i] == m;
    var j :| 0 <= j < |dag| && dag[j] == n;
    assert Keys(dag)[i] == Keys(dag)[j];
  }

  /** Accepts an order exactly when it is a publish order of the graph. */
  method AssertReleasePackageOrder(dag: seq<Node>, order: seq<string>) returns (ok: bool)
    requires Distinct(Keys(dag))
    ensures ok <==> PublishOrder(dag, order)
  {
    if PublishOrder(dag, order) {
      SameKeysSameLength(dag, order);
    }
    if |order| != |dag| {
      return false;
    }
    var seen: set<string> := {};
    for i := 0 to |order|
      invariant seen == Members(order[..i])
      invariant Distinct(order[..i]) && forall key | key in order[..i] :: key in Keys(dag)
      invariant forall j, n | 0 <= j < i && n in dag && n.key == order[j] :: DependenciesIn(n, order[..j])
    {
      var node := FindNode(dag, order[i]);
      if node.None? {
        assert order[i] in order;
        return false;
      }
      if order[i] in seen {
        return false;
      }
      if exists d | d in node.value.dependsOn :: d !in seen {
        assert !DependenciesIn(node.value, order[..i]);
        return false;
      }
      forall n | n in dag && n.key == order[i]
        ensures DependenciesIn(n, order[..i])
      {
        OneNodePerKey(dag, n, node.value);
      }
      assert order[..i + 1] == order[..i] + [order[i]];
      assert node.value.key in Keys(dag) by {
        var j :| 0 <= j < |dag| && dag[j] == node.value;
        assert Keys(dag)[j] == order[i];
      }
      seen := seen + {order[i]};
    }
    assert order[..|order|] == order;
    ok := forall key | key in Keys(dag) :: key in seen;
  }

  // ---------- What is released ----------

  datatype PackageInfo = PackageInfo(
    coreName: string, coreVersion: string, cliName: string, cliVersion: string,
    legacyCoreName: string, legacyCoreVersion: string, legacyCliName: string, legacyCliVersion: string)

  datatype Package = Package(key: string, name: string, version: string)

  function ReleasePackageDefinitions(info: PackageInfo): seq<Package> {
    [Package("core", info.coreName, info.coreVersion), Package("cli", info.cliName, info.cliVersion),
     Package("legacyCore", info.legacyCoreName, info.legacyCoreVersion),
     Package("legacyCli", info.legacyCliName, info.legacyCliVersion)]
  }

  function PackageKeys(packages: seq<Package>): (keys: seq<string>)
    ensures |keys| == |packages| && forall i | 0 <= i < |packages| :: keys[i] == packages[i].key
  {
    seq(|packages|, i requires 0 <= i < |packages| => packages[i].key)
  }

  lemma ReleaseOrderIsAccepted(info: PackageInfo)
    ensures Distinct(Keys(RELEASE_PACKAGE_DAG)) && Distinct(PackageKeys(ReleasePackageDefinitions(info)))
    ensures PublishOrder(RELEASE_PACKAGE_DAG, PackageKeys(ReleasePackageDefinitions(info)))
  {
    var order := PackageKeys(ReleasePackageDefinitions(info));
    assert order == Keys(RELEASE_PACKAGE_DAG) == ["core", "cli", "legacyCore", "legacyCli"];
    assert "core" in order[..1] && "cli" in order[..2] && "legacyCore" in order[..3] by {
      assert order[..1][0] == "core" && order[..2][1] == "cli" && order[..3][2] == "legacyCore";
    }
  }

  /** All four packages carry one version, and it is in the release grammar. */
  predicate MatchingVersions(info: PackageInfo) {
    && ParseRelease(info.cliVersion).Some? && info.coreVersion == info.cliVersion
    && info.legacyCoreVersion == info.cliVersion && info.legacyCliVersion == info.cliVersion
  }

  // ---------- Distribution tags ----------

  function ComputeNpmTag(version: string): string {
    if Contains(version, "-beta.") then "beta"
    else if Contains(version, "-rc.") then "rc"
    else if Contains(version, "-alpha.") then "alpha"
    else "latest"
  }

  predicate Letter(c: char) {
    'a' <= c <= 'z' || 'A' <= c <= 'Z'
  }

  predicate SimpleTag(tag: string) {
    tag != "" && Letter(tag[0]) && forall c | c in tag :: Letter(c) || '0' <= c <= '9' || c in "._-"
  }

  /** `None` is a refused tag. */
  function ResolveNpmTag(version: string, explicit: Option<string>): Option<string> {
    var default := ComputeNpmTag(version);
    if explicit.None? || explicit.value == "" then Some(default)
    else if !SimpleTag(explicit.value) then None
    else if default != "latest" then (if explicit.value == default then Some(default) else None)
    else if explicit.value == "candidate" || explicit.value == "latest" then explicit
    else None
  }

  lemma ResolvedTagIsStable(version: string, explicit: Option<string>)
    ensures var tag := ResolveNpmTag(version, explicit);
            tag.Some? ==> tag.value != "" && ResolveNpmTag(version, tag) == tag
  {
    assert SimpleTag("beta") && SimpleTag("rc") && SimpleTag("alpha") && SimpleTag("latest") && SimpleTag("candidate");
  }

  // ---------- Sealing ----------

  /** SHA-256 as an injective function of the hashed bytes. */
  datatype Digest = Sha256(content: string)

  datatype Record = Record(key: string, name: string, version: string, filename: string, size: nat, sha: Digest)

  datatype Manifest = Manifest(schemaVersion: int, version: string, npmTag: string, releaseTag: Option<string>,
                               commit: string, packages: seq<Record>)

  /** JSON text, the tarball inspection and the packing tool, as functions. */
  datatype Host = Host(render: Manifest -> string, parse: string -> Option<Manifest>,
                       inspect: (Package, string) -> bool, pack: string -> string)

  ghost predicate RoundTrips(host: Host) {
    forall m :: host.parse(host.render(m)) == Some(m)
  }

  const MANIFEST_FILE := "release-artifacts-v1.json"

  function TarballName(name: string, version: string): string {
    ReplaceChar(if name != "" && name[0] == '@' then name[1..] else name, '/', '-') + "-" + version + ".tgz"
  }

  function At(d: Package, version: string): Package {
    d.(version := version)
  }

  /** The definitions with the version that is being released. */
  function Expected(info: PackageInfo, version: string): (r: seq<Package>)
    ensures PackageKeys(r) == PackageKeys(ReleasePackageDefinitions(info))
    ensures forall d | d in r :: d.version == version
  {
    var defs := ReleasePackageDefinitions(info);
    [At(defs[0], version), At(defs[1], version), At(defs[2], version), At(defs[3], version)]
  }

  function RecordOf(d: Package, content: string): Record {
    Record(d.key, d.name, d.version, TarballName(d.name, d.version), |content|, Sha256(content))
  }

  function Records(host: Host, defs: seq<Package>): (r: seq<Record>)
    ensures |r| == |defs| && forall i | 0 <= i < |defs| :: r[i] == RecordOf(defs[i], host.pack(defs[i].key))
  {
    seq(|defs|, i requires 0 <= i < |defs| => RecordOf(defs[i], host.pack(defs[i].key)))
  }

  function PackedFiles(host: Host, defs: seq<Package>): map<string, string> {
    if defs == [] then map[]
    else
      var last := defs[|defs| - 1];
      PackedFiles(host, defs[..|defs| - 1])[TarballName(last.name, last.version) := host.pack(last.key)]
  }

  predicate AllInspected(host: Host, defs: seq<Package>) {
    forall d | d in defs :: host.inspect(d, host.pack(d.key))
  }

  function SealedManifest(host: Host, info: PackageInfo, tag: string, releaseTag: Option<string>, head: string): Manifest {
    Manifest(1, info.cliVersion, tag, releaseTag, head, Records(host, Expected(info, info.cliVersion)))
  }

  class ArtifactDirectory {
    var files: map<string, string>

    constructor ()
      ensures files == map[]
    {
      files := map[];
    }

    /** Packs, inspects and records each package in turn. */
    method PackAll(host: Host, defs: seq<Package>) returns (records: Option<seq<Record>>)
      requires files == map[]
      modifies this
      ensures records.Some? <==> AllInspected(host, defs)
      ensures records.Some? ==> files == PackedFiles(host, defs) && records.value == Records(host, defs)
    {
      var done: seq<Record> := [];
      for i := 0 to |defs|
        invariant files == PackedFiles(host, defs[..i])
        invariant done == Records(host, defs[..i])
        invariant AllInspected(host, defs[..i])
      {
        var d, content := defs[i], host.pack(defs[i].key);
        PackedOneMore(host, defs, i);
        files := files[TarballName(d.name, d.version) := content];
        if !host.inspect(d, content) {
          assert d in defs;
          return None;
        }
        done := done + [RecordOf(d, content)];
      }
      assert defs[..|defs|] == defs;
      records := Some(done);
    }

    /** Packs the release set into an empty directory, then seals the manifest and returns its receipt. */
    method Prepare(host: Host, info: PackageInfo, releaseTag: Option<string>, head: string, npmTag: Option<string>)
      returns (receipt: Option<Digest>)
      modifies this
      ensures receipt.Some? <==>
              old(files) == map[] && ResolveNpmTag(info.cliVersion, npmTag).Some?
              && AllInspected(host, Expected(info, info.cliVersion))
      ensures receipt.Some? ==>
              var sealed := SealedManifest(host, info, ResolveNpmTag(info.cliVersion, npmTag).value, releaseTag, head);
              && receipt.value == Sha256(host.render(sealed))
              && files == PackedFiles(host, Expected(info, info.cliVersion))[MANIFEST_FILE := host.render(sealed)]
    {
      if files != map[] {
        return None;
      }
      var tag := ResolveNpmTag(info.cliVersion, npmTag);
      if tag.None? {
        return None;
      }
      var records := PackAll(host, Expected(info, info.cliVersion));
      if records.None? {
        return None;
      }
      var manifest := Manifest(1, info.cliVersion, tag.value, releaseTag, head, records.value);
      files := files[MANIFEST_FILE := host.render(manifest)];
      receipt := Some(Sha256(host.render(manifest)));
    }
  }

  lemma PackedOneMore(host: Host, defs: seq<Package>, i: nat)
    requires i < |defs|
    ensures PackedFiles(host, defs[..i + 1])
            == PackedFiles(host, defs[..i])[TarballName(defs[i].name, defs[i].version) := host.pack(defs[i].key)]
    ensures Records(host, defs[..i + 1]) == Records(host, defs[..i]) + [RecordOf(defs[i], host.pack(defs[i].key))]
    ensures AllInspected(host, defs[..i + 1]) <==> AllInspected(host, defs[..i]) && host.inspect(defs[i], host.pack(defs[i].key))
  {
    assert defs[..i + 1][..i] == defs[..i] && defs[..i + 1] == defs[..i] + [defs[i]];
  }

  // ---------- Reading back ----------

  /** A verified tarball. */
  datatype Artifact = Artifact(package: Package, content: string)

  datatype Artifacts = Artifacts(manifest: Manifest, packages: seq<Artifact>)

  function RecordsFor(records: seq<Record>, key: string): seq<Record> {
    if records == [] then [] else (if records[0].key == key then [records[0]] else []) + RecordsFor(records[1..], key)
  }

  /** Identity, file name, size and hash of one record against the directory. */
  function ValidateRecord(files: map<string, string>, r: Record, d: Package): Option<Artifact> {
    if r.key != d.key || r.name != d.name || r.version != d.version then None
    else if '/' in r.filename || r.filename != TarballName(d.name, d.version) then None
    else if r.size < 1 || r.filename !in files then None
    else if |files[r.filename]| != r.size || Sha256(files[r.filename]) != r.sha then None
    else Some(Artifact(d, files[r.filename]))
  }

  function ReadOne(host: Host, files: map<string, string>, records: seq<Record>, d: Package): Option<Artifact> {
    var matches := RecordsFor(records, d.key);
    if |matches| != 1 then None
    else
      var artifact :- ValidateRecord(files, matches[0], d);
      if host.inspect(d, artifact.content) then Some(artifact) else None
  }

  function ReadAll(host: Host, files: map<string, string>, records: seq<Record>, defs: seq<Package>): Option<seq<Artifact>> {
    if defs == [] then Some([])
    else
      var first :- ReadOne(host, files, records, defs[0]);
      var rest :- ReadAll(host, files, records, defs[1..]);
      Some([first] + rest)
  }

  function ReadPrepared(host: Host, files: map<string, string>, info: PackageInfo, releaseTag: Option<string>, receipt: Digest)
    : Option<Artifacts>
  {
    if MANIFEST_FILE !in files || Sha256(files[MANIFEST_FILE]) != receipt then None
    else
      var manifest :- host.parse(files[MANIFEST_FILE]);
      if manifest.schemaVersion != 1 then None
      else if manifest.version != info.cliVersion || manifest.version != info.coreVersion
              || manifest.version != info.legacyCoreVersion || manifest.version != info.legacyCliVersion then None
      else if ResolveNpmTag(manifest.version, Some(manifest.npmTag)) != Some(manifest.npmTag) then None
      else if releaseTag.Some? && manifest.releaseTag != releaseTag then None
      else if |manifest.packages| != 4 then None
      else
        var packages :- ReadAll(host, files, manifest.packages, Expected(info, manifest.version));
        Some(Artifacts(manifest, packages))
  }

  // ---------- Only sealed bytes come back ----------

  function SealedArtifacts(host: Host, defs: seq<Package>): (r: seq<Artifact>)
    ensures |r| == |defs| && forall i | 0 <= i < |defs| :: r[i] == Artifact(defs[i], host.pack(defs[i].key))
  {
    seq(|defs|, i requires 0 <= i < |defs| => Artifact(defs[i], host.pack(defs[i].key)))
  }

  /** The tarball of `d` lies in the directory with the bytes that were packed. */
  predicate TarballIntact(host: Host, files: map<string, string>, d: Package) {
    TarballName(d.name, d.version) in files && files[TarballName(d.name, d.version)] == host.pack(d.key)
  }

  /** Can the packed tarball of `d` be accepted at all? */
  predicate Acceptable(host: Host, d: Package) {
    host.pack(d.key) != "" && host.inspect(d, host.pack(d.key))
  }

  lemma DigitChars(n: nat)
    ensures '/' !in Digits(n)
  {
    DigitsRoundTrip(n);
    assert !IsDigit('/');
  }

  lemma StageChars(stage: Stage)
    ensures '/' !in StageText(stage)
  {
    if stage.Pre? {
      DigitChars(stage.number);
    }
  }

  lemma ReleaseChars(v: string)
    requires ParseRelease(v).Some?
    ensures '/' !in v
  {
    var r := ParseRelease(v).value;
    DigitChars(r.major);
    DigitChars(r.minor);
    DigitChars(r.patch);
    StageChars(r.stage);
    RenderParse(v);
  }

  lemma SafeFileName(d: Package)
    requires ParseRelease(d.version).Some?
    ensures '/' !in TarballName(d.name, d.version)
  {
    ReleaseChars(d.version);
  }

  lemma {:induction false} NoRecordFor(records: seq<Record>, key: string)
    requires forall r | r in records :: r.key != key
    ensures RecordsFor(records, key) == []
  {
    if records != [] {
      NoRecordFor(records[1..], key);
    }
  }

  lemma {:induction false} OneRecordFor(records: seq<Record>, i: nat)
    requires i < |records| && forall j, k | 0 <= j < k < |records| :: records[j].key != records[k].key
    ensures RecordsFor(records, records[i].key) == [records[i]]
  {
    if i == 0 {
      NoRecordFor(records[1..], records[0].key);
    } else {
      assert records[0].key != records[i].key;
      OneRecordFor(records[1..], i - 1);
    }
  }

  predicate Readable(host: Host, files: map<string, string>, d: Package) {
    TarballIntact(host, files, d) && Acceptable(host, d)
  }

  lemma ReadSealedOne(host: Host, files: map<string, string>, defs: seq<Package>, d: Package)
    requires Distinct(PackageKeys(defs)) && d in defs && ParseRelease(d.version).Some?
    ensures ReadOne(host, files, Records(host, defs), d) ==
            if Readable(host, files, d) then Some(Artifact(d, host.pack(d.key))) else None
  {
    var records := Records(host, defs);
    var i :| 0 <= i < |defs| && defs[i] == d;
    forall j, k | 0 <= j < k < |records|
      ensures records[j].key != records[k].key
    {
      assert PackageKeys(defs)[j] != PackageKeys(defs)[k];
    }
    OneRecordFor(records, i);
    SafeFileName(d);
    assert RecordsFor(records, d.key) == [RecordOf(d, host.pack(d.key))];
  }

  predicate AllReadable(host: Host, files: map<string, string>, defs: seq<Package>) {
    forall d | d in defs :: Readable(host, files, d)
  }

  lemma SealedCons(host: Host, files: map<string, string>, defs: seq<Package>)
    requires defs != []
    ensures AllReadable(host, files, defs) <==> Readable(host, files, defs[0]) && AllReadable(host, files, defs[1..])
    ensures SealedArtifacts(host, defs) == [Artifact(defs[0], host.pack(defs[0].key))] + SealedArtifacts(host, defs[1..])
  {
    assert defs == [defs[0]] + defs[1..];
  }

  lemma {:induction false} ReadSealed(host: Host, files: map<string, string>, defs: seq<Package>, some: seq<Package>)
    requires Distinct(PackageKeys(defs)) && forall d | d in some :: d in defs && ParseRelease(d.version).Some?
    ensures ReadAll(host, files, Records(host, defs), some) ==
            if AllReadable(host, files, some) then Some(SealedArtifacts(host, some)) else None
  {
    if some == [] {
      assert SealedArtifacts(host, some) == [];
    } else {
      ReadSealed(host, files, defs, some[1..]);
      ReadSealedOne(host, files, defs, some[0]);
      SealedCons(host, files, some);
    }
  }

  predicate AllIntact(host: Host, files: map<string, string>, defs: seq<Package>) {
    forall d | d in defs :: TarballIntact(host, files, d)
  }

  predicate Intact(host: Host, files: map<string, string>, sealed: Manifest, defs: seq<Package>) {
    MANIFEST_FILE in files && files[MANIFEST_FILE] == host.render(sealed) && AllIntact(host, files, defs)
  }

  predicate AllAcceptable(host: Host, defs: seq<Package>) {
    forall d | d in defs :: Acceptable(host, d)
  }

  lemma ReadSealedSet(host: Host, files: map<string, string>, info: PackageInfo)
    requires ParseRelease(info.cliVersion).Some?
    ensures var defs := Expected(info, info.cliVersion);
            ReadAll(host, files, Records(host, defs), defs) ==
            if AllIntact(host, files, defs) && AllAcceptable(host, defs)
            then Some(SealedArtifacts(host, defs)) else None
  {
    var defs := Expected(info, info.cliVersion);
    ReleaseOrderIsAccepted(info);
    ReadSealed(host, files, defs, defs);
    assert AllReadable(host, files, defs) <==> AllAcceptable(host, defs) && AllIntact(host, files, defs);
  }

  /**
   With the receipt of the sealed manifest, reading any directory whatever either fails or gives exactly the
   packed tarballs; it succeeds exactly when the manifest and every tarball are byte for byte as sealed and
   the tag asked for, if any, is the sealed one.
   */
  lemma ReadIsSealedOrFails(host: Host, files: map<string, string>, info: PackageInfo, npmTag: string,
                            releaseTag: Option<string>, head: string, asked: Option<string>)
    requires RoundTrips(host) && MatchingVersions(info)
    requires ResolveNpmTag(info.cliVersion, Some(npmTag)) == Some(npmTag)
    ensures var defs := Expected(info, info.cliVersion);
            var sealed := SealedManifest(host, info, npmTag, releaseTag, head);
            ReadPrepared(host, files, info, asked, Sha256(host.render(sealed))) ==
            if Intact(host, files, sealed, defs) && AllAcceptable(host, defs) && (asked.None? || asked == releaseTag)
            then Some(Artifacts(sealed, SealedArtifacts(host, defs))) else None
  {
    ReadSealedSet(host, files, info);
    assert |Records(host, Expected(info, info.cliVersion))| == 4;
  }

  // ---------- Prepare, then read ----------

  function FileOf(d: Package): string {
    TarballName(d.name, d.version)
  }

  /** Two packages that would share a tarball file have the same bytes. */
  predicate NoClash(host: Host, defs: seq<Package>) {
    forall c, d | c in defs && d in defs && FileOf(c) == FileOf(d) :: host.pack(c.key) == host.pack(d.key)
  }

  lemma {:induction false} PackedFrom(host: Host, defs: seq<Package>, name: string)
    ensures name in PackedFiles(host, defs) <==> exists d :: d in defs && FileOf(d) == name
    ensures name in PackedFiles(host, defs) ==>
              exists d :: d in defs && FileOf(d) == name && PackedFiles(host, defs)[name] == host.pack(d.key)
  {
    if defs != [] {
      var init, last := defs[..|defs| - 1], defs[|defs| - 1];
      PackedFrom(host, init, name);
      assert last in defs && forall d :: d in defs <==> d in init || d == last by {
        assert defs == init + [last];
      }
      if FileOf(last) != name && name in PackedFiles(host, init) {
        var d :| d in init && FileOf(d) == name && PackedFiles(host, init)[name] == host.pack(d.key);
        assert d in defs;
      }
    }
  }

  lemma PackedIntact(host: Host, defs: seq<Package>)
    ensures AllIntact(host, PackedFiles(host, defs), defs) <==> NoClash(host, defs)
  {
    forall d | d in defs
      ensures FileOf(d) in PackedFiles(host, defs)
      ensures exists c :: c in defs && FileOf(c) == FileOf(d) && PackedFiles(host, defs)[FileOf(d)] == host.pack(c.key)
    {
      PackedFrom(host, defs, FileOf(d));
    }
    if AllIntact(host, PackedFiles(host, defs), defs) {
      forall c, d | c in defs && d in defs && FileOf(c) == FileOf(d)
        ensures host.pack(c.key) == host.pack(d.key)
      {
        assert TarballIntact(host, PackedFiles(host, defs), c) && TarballIntact(host, PackedFiles(host, defs), d);
      }
    }
  }

  lemma TarballIsNotTheManifest(d: Package)
    ensures FileOf(d) != MANIFEST_FILE
  {
    var name := FileOf(d);
    assert name[|name| - 1] == 'z' && MANIFEST_FILE[|MANIFEST_FILE| - 1] == 'n';
  }

  /** The directory that preparation leaves. */
  function PreparedFiles(host: Host, info: PackageInfo, sealed: Manifest): map<string, string> {
    PackedFiles(host, Expected(info, info.cliVersion))[MANIFEST_FILE := host.render(sealed)]
  }

  /** A prepared directory reads back exactly when no two packages with different bytes share a tarball name. */
  lemma PrepareThenRead(host: Host, info: PackageInfo, npmTag: string, releaseTag: Option<string>, head: string)
    requires RoundTrips(host) && MatchingVersions(info)
    requires ResolveNpmTag(info.cliVersion, Some(npmTag)) == Some(npmTag)
    requires AllAcceptable(host, Expected(info, info.cliVersion))
    ensures var defs := Expected(info, info.cliVersion);
            var sealed := SealedManifest(host, info, npmTag, releaseTag, head);
            ReadPrepared(host, PreparedFiles(host, info, sealed), info, releaseTag, Sha256(host.render(sealed))) ==
            if NoClash(host, defs) then Some(Artifacts(sealed, SealedArtifacts(host, defs))) else None
  {
    var defs := Expected(info, info.cliVersion);
    var sealed := SealedManifest(host, info, npmTag, releaseTag, head);
    var files := PreparedFiles(host, info, sealed);
    ReadIsSealedOrFails(host, files, info, npmTag, releaseTag, head, releaseTag);
    forall d | d in defs
      ensures TarballIntact(host, files, d) <==> TarballIntact(host, PackedFiles(host, defs), d)
    {
      TarballIsNotTheManifest(d);
    }
    PackedIntact(host, defs);
    assert Intact(host, files, sealed, defs) <==> AllIntact(host, PackedFiles(host, defs), defs);
  }
}
