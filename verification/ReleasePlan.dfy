/** The release planner and the version bumper, two programs that must choose the same version. */
module ReleasePlan {
  import opened Wrappers
  import opened Text
  import opened Numerals
  import opened Versions
  import opened SemVer
  import opened Releases

  // ---------- The planner ----------

  /** `Number(text)` on texts of digits. */
  function NumberOf(text: string): nat {
    if AllDigits(text) then NatOf(text) else 0
  }

  /** The target for one of the six named types; `base` and `tail` are texts of the current version. */
  function ChooseTarget(parsed: Release, base: string, tail: string, kind: string): Option<string> {
    var stable := parsed.stage.Stable?;
    var nextPatch := Triple(parsed.major, parsed.minor, parsed.patch + 1);
    if kind == "patch" then Some(if stable then nextPatch else base)
    else if kind == "minor" then Some(Triple(parsed.major, parsed.minor + 1, 0))
    else if kind == "major" then Some(Triple(parsed.major + 1, 0, 0))
    else if kind == "promote" then (if stable then None else Some(base))
    else if kind == "beta" || kind == "rc" then
      if !stable && Name(parsed.stage.channel) == kind
      then Some(base + "-" + (kind + "." + Digits(NumberOf(tail) + 1)))
      else Some((if stable then nextPatch else base) + "-" + (kind + ".0"))
    else None
  }

  function NamedTarget(current: string, kind: string): Option<string> {
    var parsed :- ParseRelease(current);
    ChooseTarget(parsed, Base(current), AfterLast(current, '.'), kind)
  }

  /** A target that is not newer than the current version is refused. */
  function NewerOnly(target: string, current: string): Option<string> {
    var order :- CompareReleaseVersions(target, current);
    if order <= 0 then None else Some(target)
  }

  function ComputeReleaseTarget(current: string, kind: string): Option<string> {
    var target :- if ParseRelease(kind).Some? then Some(kind) else NamedTarget(current, kind);
    NewerOnly(target, current)
  }

  // ---------- The bumper ----------

  /** `prerelease` is empty for none. */
  datatype Parsed = Parsed(major: nat, minor: nat, patch: nat, prerelease: string)

  predicate LooseNumber(s: string) {
    s != "" && AllDigits(s)
  }

  predicate LoosePrerelease(s: string) {
    s != "" && forall c | c in s :: IdentifierChar(c) || c == '.' || c == '+'
  }

  /** `None` is a text the bumper stops at. */
  function ParseVersion(v: string): Option<Parsed> {
    var core := Split(Base(v), '.');
    if |core| == 3 && LooseNumber(core[0]) && LooseNumber(core[1]) && LooseNumber(core[2])
       && (HyphenAt(v) == |v| || LoosePrerelease(Prerelease(v)))
    then Some(Parsed(NatOf(core[0]), NatOf(core[1]), NatOf(core[2]), Prerelease(v)))
    else None
  }

  function BumpPrerelease(v: Parsed, id: string): string {
    if v.prerelease == "" then Triple(v.major, v.minor, v.patch + 1) + "-" + (id + ".0")
    else
      var base := Triple(v.major, v.minor, v.patch);
      var ids := Split(v.prerelease, '.');
      if |ids| == 2 && ids[0] == id && LooseNumber(ids[1])
      then base + "-" + (id + "." + Digits(NatOf(ids[1]) + 1))
      else base + "-" + (id + ".0")
  }

  function NamedNext(v: Parsed, kind: string): Option<string> {
    if kind == "patch" then Some(Triple(v.major, v.minor, if v.prerelease == "" then v.patch + 1 else v.patch))
    else if kind == "minor" then Some(Triple(v.major, v.minor + 1, 0))
    else if kind == "major" then Some(Triple(v.major + 1, 0, 0))
    else if kind == "beta" || kind == "rc" then Some(BumpPrerelease(v, kind))
    else if kind == "promote" then
      (if v.prerelease == "" then None else Some(Triple(v.major, v.minor, v.patch)))
    else None
  }

  function ComputeNext(current: string, kind: string): Option<string> {
    if ParseVersion(kind).Some? then (if kind == current then None else Some(kind))
    else
      var v :- ParseVersion(current);
      NamedNext(v, kind)
  }

  // ---------- What both mean ----------

  const NAMED := ["patch", "minor", "major", "beta", "rc", "promote"]

  function Prereleased(r: Release, channel: Channel): Release {
    if r.stage.Stable? then Release(r.major, r.minor, r.patch + 1, Pre(channel, 0))
    else if r.stage.channel == channel then r.(stage := Pre(channel, r.stage.number + 1))
    else r.(stage := Pre(channel, 0))
  }

  /** The release that a named type asks for. */
  function Successor(r: Release, kind: string): Option<Release> {
    match kind
    case "patch" => Some(if r.stage.Stable? then r.(patch := r.patch + 1) else r.(stage := Stable))
    case "minor" => Some(Release(r.major, r.minor + 1, 0, Stable))
    case "major" => Some(Release(r.major + 1, 0, 0, Stable))
    case "beta" => Some(Prereleased(r, Beta))
    case "rc" => Some(Prereleased(r, Rc))
    case "promote" => if r.stage.Stable? then None else Some(r.(stage := Stable))
    case _ => None
  }

  lemma RenderedTail(base: string, name: string, number: string)
    requires '.' !in number
    ensures AfterLast(base + "-" + (name + "." + number), '.') == number
  {
    AfterLastOf(base + "-" + name, number, '.');
    assert ['.'] == ".";
    assert base + "-" + (name + "." + number) == base + "-" + name + "." + number;
  }

  lemma NumberAtTheEnd(r: Release)
    requires r.stage.Pre?
    ensures NumberOf(AfterLast(Render(r), '.')) == r.stage.number
  {
    var number := Digits(r.stage.number);
    DigitsRoundTrip(r.stage.number);
    NumeralChars(number);
    RenderedTail(Triple(r.major, r.minor, r.patch), Name(r.stage.channel), number);
  }

  lemma ZeroSuffix(channel: Channel)
    ensures Name(channel) + ".0" == Suffix(channel, 0)
  {
    assert Digits(0) == "0";
  }

  function Rendered(r: Option<Release>): Option<string> {
    if r.Some? then Some(Render(r.value)) else None
  }

  lemma TargetMeans(r: Release, tail: string, kind: string)
    requires r.stage.Pre? ==> NumberOf(tail) == r.stage.number
    ensures ChooseTarget(r, Triple(r.major, r.minor, r.patch), tail, kind) == Rendered(Successor(r, kind))
  {
    ZeroSuffix(Beta);
    ZeroSuffix(Rc);
  }

  lemma PlannerMeans(r: Release, kind: string)
    ensures NamedTarget(Render(r), kind) == Rendered(Successor(r, kind))
  {
    ParseRender(r);
    RenderedParts(r);
    if r.stage.Pre? {
      NumberAtTheEnd(r);
    }
    TargetMeans(r, AfterLast(Render(r), '.'), kind);
  }

  lemma LooseSuffix(channel: Channel, number: nat)
    ensures LoosePrerelease(Suffix(channel, number))
  {
    DigitsRoundTrip(number);
    assert forall c | c in Name(channel) :: 'a' <= c <= 'z';
  }

  lemma BumperReads(r: Release)
    ensures ParseVersion(Render(r)) == Some(Parsed(r.major, r.minor, r.patch, StageText(r.stage)))
  {
    RenderedParts(r);
    TripleReads(r.major, r.minor, r.patch);
    if r.stage.Pre? {
      LooseSuffix(r.stage.channel, r.stage.number);
    }
  }

  lemma BumperPrereleases(r: Release, channel: Channel)
    ensures BumpPrerelease(Parsed(r.major, r.minor, r.patch, StageText(r.stage)), Name(channel))
            == Render(Prereleased(r, channel))
  {
    ZeroSuffix(channel);
    if r.stage.Pre? {
      SuffixReads(r.stage.channel, r.stage.number);
      DigitsRoundTrip(r.stage.number);
    }
  }

  lemma BumperMeans(r: Release, kind: string)
    ensures NamedNext(Parsed(r.major, r.minor, r.patch, StageText(r.stage)), kind) == Rendered(Successor(r, kind))
  {
    if kind == "beta" {
      BumperPrereleases(r, Beta);
    } else if kind == "rc" {
      BumperPrereleases(r, Rc);
    } else if r.stage.Pre? {
      assert Suffix(r.stage.channel, r.stage.number) != "";
    }
  }

  lemma NoDotNoVersion(kind: string)
    requires '.' !in kind
    ensures ParseVersion(kind).None? && ParseRelease(kind).None?
  {
    assert '.' !in Base(kind);
    SplitOne(Base(kind), '.');
  }

  /** The bumper's explicit versions include the planner's. */
  lemma GrammarIsLoose(v: string)
    requires ParseRelease(v).Some?
    ensures ParseVersion(v).Some?
  {
    RenderParse(v);
    BumperReads(ParseRelease(v).value);
  }

  // ---------- Agreement ----------

  lemma UnknownTypeFails(current: string, kind: string)
    requires kind !in NAMED
    ensures NamedTarget(current, kind).None?
    ensures ParseVersion(current).Some? ==> NamedNext(ParseVersion(current).value, kind).None?
  {
    assert NAMED[0] == "patch" && NAMED[1] == "minor" && NAMED[2] == "major";
    assert NAMED[3] == "beta" && NAMED[4] == "rc" && NAMED[5] == "promote";
  }

  lemma NamedAreNotVersions(kind: string)
    requires kind in NAMED
    ensures ParseVersion(kind).None? && ParseRelease(kind).None?
  {
    NoDotNoVersion(kind);
  }

  /** Is `next` a release newer than `current`? */
  predicate NewerRelease(next: string, current: string) {
    CompareReleaseVersions(next, current) == Some(1)
  }

  lemma NewerOnlyWhenNewer(target: string, current: string)
    ensures NewerOnly(target, current) == if NewerRelease(target, current) then Some(target) else None
  {
  }

  /** A named type or an unknown one: both programs start from the current version. */
  lemma NamedAgree(current: string, kind: string)
    requires ParseRelease(current).Some?
    ensures ParseVersion(current).Some?
    ensures NamedTarget(current, kind) == NamedNext(ParseVersion(current).value, kind)
  {
    var r := ParseRelease(current).value;
    RenderParse(current);
    PlannerMeans(r, kind);
    BumperMeans(r, kind);
    BumperReads(r);
  }

  lemma LooseOnly(current: string, kind: string)
    requires ParseVersion(kind).Some? && ParseRelease(kind).None?
    ensures NamedTarget(current, kind).None?
  {
    if kind in NAMED {
      NamedAreNotVersions(kind);
      assert false;
    } else {
      UnknownTypeFails(current, kind);
    }
  }

  /**
   For every current version and every type text, the planner gives what the bumper gives,
   exactly when that is a release newer than the current one.
   */
  lemma PlannerIsGuardedBumper(current: string, kind: string)
    ensures ComputeReleaseTarget(current, kind) ==
            var next := ComputeNext(current, kind);
            if next.Some? && NewerRelease(next.value, current) then next else None
  {
    var next := ComputeNext(current, kind);
    if next.Some? {
      NewerOnlyWhenNewer(next.value, current);
    }
    if ParseRelease(kind).Some? {
      GrammarIsLoose(kind);
      NewerOnlyWhenNewer(kind, current);
      SelfCompare(kind);
    } else if ParseVersion(kind).Some? {
      LooseOnly(current, kind);
    } else if ParseRelease(current).Some? {
      NamedAgree(current, kind);
    }
  }

  lemma SelfCompare(v: string)
    ensures !NewerRelease(v, v)
  {
  }

  lemma SuccessorIsNewer(r: Release, kind: string)
    requires Successor(r, kind).Some?
    ensures CompareParsed(Successor(r, kind).value, r) == 1 <==>
            !(kind == "beta" && r.stage.Pre? && r.stage.channel == Rc)
  {
  }

  lemma CompareRendered(a: Release, b: Release)
    ensures CompareReleaseVersions(Render(a), Render(b)) == Some(CompareParsed(a, b))
  {
    ParseRender(a);
    ParseRender(b);
  }

  lemma NamedTargets(r: Release, kind: string)
    requires kind in NAMED
    ensures ComputeReleaseTarget(Render(r), kind) ==
            if Successor(r, kind).Some? && CompareParsed(Successor(r, kind).value, r) == 1
            then Rendered(Successor(r, kind)) else None
  {
    NamedAreNotVersions(kind);
    PlannerMeans(r, kind);
    if Successor(r, kind).Some? {
      CompareRendered(Successor(r, kind).value, r);
      NewerOnlyWhenNewer(Render(Successor(r, kind).value), Render(r));
    }
  }

  /** On a release the six types are rejected in two cases only: promoting a stable one, and `beta` on a candidate. */
  lemma NamedRejections(current: string, kind: string)
    requires ParseRelease(current).Some? && kind in NAMED
    ensures ComputeReleaseTarget(current, kind).None? <==>
            var stage := ParseRelease(current).value.stage;
            if stage.Stable? then kind == "promote" else kind == "beta" && stage.channel == Rc
  {
    var r := ParseRelease(current).value;
    RenderParse(current);
    NamedTargets(r, kind);
    NamedSuccessors(r, kind);
    if Successor(r, kind).Some? {
      SuccessorIsNewer(r, kind);
    }
  }

  lemma NamedSuccessors(r: Release, kind: string)
    requires kind in NAMED
    ensures Successor(r, kind).None? <==> kind == "promote" && r.stage.Stable?
  {
  }

  lemma AcceptedIsNewer(target: string, current: string)
    requires NewerOnly(target, current).Some?
    ensures ParseRelease(target).Some? && Order(target, current) == 1
  {
    NewerOnlyWhenNewer(target, current);
    ComparatorsAgree(target, current);
  }

  /** Whatever the planner accepts is a release that the updater's comparator also finds newer. */
  lemma PlannedIsNewer(current: string, kind: string)
    requires ComputeReleaseTarget(current, kind).Some?
    ensures var target := ComputeReleaseTarget(current, kind).value;
            ParseRelease(target).Some? && Order(target, current) == 1
  {
    AcceptedIsNewer(ComputeReleaseTarget(current, kind).value, current);
  }
}
