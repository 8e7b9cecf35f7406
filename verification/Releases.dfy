/** The release grammar of the publishing scripts, and its own comparator. */
module Releases {
  import opened Wrappers
  import opened Text
  import opened Numerals
  import opened Versions
  import opened SemVer

  datatype Channel = Alpha | Beta | Rc

  datatype Stage = Stable | Pre(channel: Channel, number: nat)

  datatype Release = Release(major: nat, minor: nat, patch: nat, stage: Stage)

  function Name(channel: Channel): string {
    match channel
    case Alpha => "alpha"
    case Beta => "beta"
    case Rc => "rc"
  }

  function ChannelOf(name: string): Option<Channel> {
    if name == "alpha" then Some(Alpha)
    else if name == "beta" then Some(Beta)
    else if name == "rc" then Some(Rc)
    else None
  }

  function ParseStage(ids: seq<string>): Option<Stage> {
    if |ids| == 2 && ChannelOf(ids[0]).Some? && IsNumeral(ids[1])
    then Some(Pre(ChannelOf(ids[0]).value, NatOf(ids[1])))
    else None
  }

  /** `None` is a text outside the grammar, which every caller answers by throwing. */
  function ParseRelease(v: string): Option<Release> {
    var core := Split(Base(v), '.');
    if !ValidCore(core) then None
    else
      var stage := if HyphenAt(v) == |v| then Some(Stable) else ParseStage(Split(Prerelease(v), '.'));
      if stage.None? then None
      else Some(Release(NatOf(core[0]), NatOf(core[1]), NatOf(core[2]), stage.value))
  }

  function Triple(major: nat, minor: nat, patch: nat): string {
    Digits(major) + "." + (Digits(minor) + "." + Digits(patch))
  }

  function Suffix(channel: Channel, number: nat): string {
    Name(channel) + "." + Digits(number)
  }

  function StageText(stage: Stage): string {
    if stage.Stable? then "" else Suffix(stage.channel, stage.number)
  }

  function Render(r: Release): string {
    var base := Triple(r.major, r.minor, r.patch);
    if r.stage.Stable? then base else base + "-" + StageText(r.stage)
  }

  // ---------- Reading and rendering are inverse ----------

  lemma {:induction false} NoHyphen(v: string)
    requires '-' !in v
    ensures HyphenAt(v) == |v| && Base(v) == v && Prerelease(v) == ""
  {
    if v != "" {
      NoHyphen(v[1..]);
    }
    assert v[..|v|] == v;
  }

  lemma NumeralChars(s: string)
    requires AllDigits(s)
    ensures '.' !in s && '-' !in s
  {
    assert !IsDigit('.') && !IsDigit('-');
  }

  lemma SplitTriple(a: string, b: string, c: string)
    requires '.' !in a && '.' !in b && '.' !in c
    ensures Split(a + "." + (b + "." + c), '.') == [a, b, c]
  {
    SplitAppend(a, b + "." + c, '.');
    SplitAppend(b, c, '.');
    SplitOne(c, '.');
    assert a + "." + (b + "." + c) == a + ['.'] + (b + ['.'] + c);
    assert [a] + ([b] + [c]) == [a, b, c];
  }

  lemma SplitPair(a: string, b: string)
    requires '.' !in a && '.' !in b
    ensures Split(a + "." + b, '.') == [a, b]
  {
    SplitAppend(a, b, '.');
    SplitOne(b, '.');
    assert a + "." + b == a + ['.'] + b;
  }

  lemma TripleReads(major: nat, minor: nat, patch: nat)
    ensures var core := Split(Triple(major, minor, patch), '.');
            ValidCore(core) && NatOf(core[0]) == major && NatOf(core[1]) == minor && NatOf(core[2]) == patch
    ensures '-' !in Triple(major, minor, patch)
  {
    DigitsRoundTrip(major);
    DigitsRoundTrip(minor);
    DigitsRoundTrip(patch);
    NumeralChars(Digits(major));
    NumeralChars(Digits(minor));
    NumeralChars(Digits(patch));
    SplitTriple(Digits(major), Digits(minor), Digits(patch));
  }

  lemma SuffixReads(channel: Channel, number: nat)
    ensures Split(Suffix(channel, number), '.') == [Name(channel), Digits(number)]
    ensures ParseStage([Name(channel), Digits(number)]) == Some(Pre(channel, number))
  {
    DigitsRoundTrip(number);
    NumeralChars(Digits(number));
    SplitPair(Name(channel), Digits(number));
  }

  /** How a rendered release falls apart. */
  lemma RenderedParts(r: Release)
    ensures Base(Render(r)) == Triple(r.major, r.minor, r.patch)
    ensures HyphenAt(Render(r)) == |Render(r)| <==> r.stage.Stable?
    ensures Prerelease(Render(r)) == StageText(r.stage)
  {
    TripleReads(r.major, r.minor, r.patch);
    var base := Triple(r.major, r.minor, r.patch);
    if r.stage.Stable? {
      NoHyphen(base);
    } else {
      Assembled(base, Suffix(r.stage.channel, r.stage.number));
    }
  }

  lemma ParseRender(r: Release)
    ensures ParseRelease(Render(r)) == Some(r)
  {
    RenderedParts(r);
    TripleReads(r.major, r.minor, r.patch);
    if r.stage.Pre? {
      SuffixReads(r.stage.channel, r.stage.number);
    }
  }

  lemma JoinThree(parts: seq<string>)
    requires |parts| == 3
    ensures JoinWith(parts, ".") == parts[0] + "." + (parts[1] + "." + parts[2])
  {
    assert parts[1..][0] == parts[1] && parts[1..][1..] == parts[2..] && parts[2..][0] == parts[2];
    assert JoinWith(parts[2..], ".") == parts[2];
    assert JoinWith(parts[1..], ".") == parts[1] + "." + parts[2];
  }

  lemma CoreRenders(base: string)
    requires ValidCore(Split(base, '.'))
    ensures var core := Split(base, '.'); Triple(NatOf(core[0]), NatOf(core[1]), NatOf(core[2])) == base
  {
    var core := Split(base, '.');
    JoinSplit(base, '.');
    assert ['.'] == ".";
    JoinThree(core);
    NumeralRoundTrip(core[0]);
    NumeralRoundTrip(core[1]);
    NumeralRoundTrip(core[2]);
  }

  lemma StageRenders(pre: string)
    requires ParseStage(Split(pre, '.')).Some?
    ensures var stage := ParseStage(Split(pre, '.')).value; stage.Pre? && Suffix(stage.channel, stage.number) == pre
  {
    var ids := Split(pre, '.');
    JoinSplit(pre, '.');
    assert ['.'] == ".";
    assert ids[1..][0] == ids[1] && JoinWith(ids[1..], ".") == ids[1];
    NumeralRoundTrip(ids[1]);
  }

  lemma Reassembled(v: string)
    ensures HyphenAt(v) == |v| ==> v == Base(v) && Prerelease(v) == ""
    ensures HyphenAt(v) < |v| ==> v == Base(v) + "-" + Prerelease(v)
  {
    var i := HyphenAt(v);
    if i < |v| {
      assert v == v[..i] + [v[i]] + v[i + 1..];
    } else {
      assert v[..i] == v;
    }
  }

  lemma RenderedFrom(v: string, r: Release)
    requires Base(v) == Triple(r.major, r.minor, r.patch)
    requires r.stage.Stable? <==> HyphenAt(v) == |v|
    requires Prerelease(v) == StageText(r.stage)
    ensures Render(r) == v
  {
    Reassembled(v);
  }

  lemma RenderParse(v: string)
    requires ParseRelease(v).Some?
    ensures Render(ParseRelease(v).value) == v
  {
    CoreRenders(Base(v));
    if HyphenAt(v) < |v| {
      StageRenders(Prerelease(v));
    }
    RenderedFrom(v, ParseRelease(v).value);
  }

  // ---------- The script's comparator ----------

  function Rank(stage: Stage): nat {
    match stage
    case Stable => 3
    case Pre(Alpha, _) => 0
    case Pre(Beta, _) => 1
    case Pre(Rc, _) => 2
  }

  function CompareStages(a: Stage, b: Stage): int {
    if Rank(a) != Rank(b) then (if Rank(a) < Rank(b) then -1 else 1)
    else if a.Stable? || b.Stable? then 0
    else if a.number == b.number then 0
    else if a.number < b.number then -1 else 1
  }

  function CompareCores(a: Release, b: Release): int {
    if a.major != b.major then OrderInts(a.major, b.major)
    else if a.minor != b.minor then OrderInts(a.minor, b.minor)
    else OrderInts(a.patch, b.patch)
  }

  function CompareParsed(a: Release, b: Release): int {
    if CompareCores(a, b) != 0 then CompareCores(a, b) else CompareStages(a.stage, b.stage)
  }

  function CompareReleaseVersions(left: string, right: string): (r: Option<int>)
    ensures r.Some? ==> r.value in {-1, 0, 1}
  {
    match (ParseRelease(left), ParseRelease(right))
    case (Some(a), Some(b)) => Some(CompareParsed(a, b))
    case _ => None
  }

  lemma NamesOrdered(a: Channel, b: Channel)
    ensures OrderIds(Name(a), Name(b)) == OrderInts(Rank(Pre(a, 0)), Rank(Pre(b, 0)))
  {
    NameIsText(a);
    NameIsText(b);
    SelfOrder(Name(a));
    assert Name(a)[0] != Name(b)[0] <==> a != b;
  }

  lemma NameIsText(channel: Channel)
    ensures !IsNumber(Name(channel))
  {
    assert !IsDigit(Name(channel)[0]);
    PrintParse(Name(channel));
  }

  lemma NumbersOrdered(m: nat, n: nat)
    ensures OrderIds(Digits(m), Digits(n)) == OrderInts(m, n)
  {
    DigitsRoundTrip(m);
    DigitsRoundTrip(n);
    ParseDigits(Digits(m));
    ParseDigits(Digits(n));
    PrintParse(Digits(m));
    PrintParse(Digits(n));
  }

  lemma PairsOrdered(a: string, x: string, b: string, y: string)
    ensures OrderLists(OrderIds, [a, x], [b, y]) == if OrderIds(a, b) != 0 then OrderIds(a, b) else OrderIds(x, y)
  {
    assert [a, x][1..] == [x] && [b, y][1..] == [y] && [x][1..] == [] && [y][1..] == [];
    assert OrderLists(OrderIds, [x], [y]) == OrderIds(x, y);
  }

  lemma StagesAgree(a: Stage, b: Stage)
    ensures OrderPrereleases(StageText(a), StageText(b)) == CompareStages(a, b)
  {
    if a.Pre? && b.Pre? {
      SuffixReads(a.channel, a.number);
      SuffixReads(b.channel, b.number);
      NamesOrdered(a.channel, b.channel);
      NumbersOrdered(a.number, b.number);
      PairsOrdered(Name(a.channel), Digits(a.number), Name(b.channel), Digits(b.number));
    }
  }

  lemma TriplesAgree(a: Release, b: Release)
    ensures OrderBases(BaseParts(Split(Triple(a.major, a.minor, a.patch), '.')),
                       BaseParts(Split(Triple(b.major, b.minor, b.patch), '.'))) == CompareCores(a, b)
  {
    TripleReads(a.major, a.minor, a.patch);
    TripleReads(b.major, b.minor, b.patch);
    CoresAgree(Split(Triple(a.major, a.minor, a.patch), '.'), Split(Triple(b.major, b.minor, b.patch), '.'));
  }

  lemma OrderFromParts(v: string, w: string, x: string, y: string, p: string, q: string, cores: int, stages: int)
    requires Base(v) == x && Base(w) == y && Prerelease(v) == p && Prerelease(w) == q
    requires OrderBases(BaseParts(Split(x, '.')), BaseParts(Split(y, '.'))) == cores && OrderPrereleases(p, q) == stages
    ensures Order(v, w) == if cores != 0 then cores else stages
  {
  }

  lemma RenderedAgree(a: Release, b: Release)
    ensures Order(Render(a), Render(b)) == CompareParsed(a, b)
  {
    RenderedParts(a);
    RenderedParts(b);
    TriplesAgree(a, b);
    StagesAgree(a.stage, b.stage);
    OrderFromParts(Render(a), Render(b), Triple(a.major, a.minor, a.patch), Triple(b.major, b.minor, b.patch),
                   StageText(a.stage), StageText(b.stage), CompareCores(a, b), CompareStages(a.stage, b.stage));
  }

  /** On the whole grammar the two independent comparators give the same answer. */
  lemma ComparatorsAgree(left: string, right: string)
    requires ParseRelease(left).Some? && ParseRelease(right).Some?
    ensures CompareReleaseVersions(left, right) == Some(Order(left, right))
  {
    RenderParse(left);
    RenderParse(right);
    RenderedAgree(ParseRelease(left).value, ParseRelease(right).value);
  }
}
