/** The distribution tag of a release follows its channel. */
module ReleaseTags {
  import opened Wrappers
  import opened Text
  import opened Numerals
  import opened Releases
  import opened ReleaseArtifacts

  lemma {:induction false} FoundFrom(s: string, part: string, start: nat, i: nat)
    requires start <= i && i + |part| <= |s| && s[i..i + |part|] == part
    ensures IndexOf(s, part, start) >= 0
    decreases |s| - start
  {
    if s[start..start + |part|] != part {
      FoundFrom(s, part, start + 1, i);
    }
  }

  lemma OnlyHyphen(base: string, suffix: string, i: nat)
    requires '-' !in base && '-' !in suffix && i < |base + "-" + suffix|
    ensures (base + "-" + suffix)[i] == '-' <==> i == |base|
  {
    var s := base + "-" + suffix;
    if i < |base| {
      assert s[i] in base;
    } else if i > |base| {
      assert s[i] == suffix[i - |base| - 1];
    }
  }

  lemma MarkerFound(base: string, suffix: string, marker: string)
    requires '-' !in base && '-' !in suffix
    ensures Contains(base + "-" + suffix, "-" + marker) <==> marker <= suffix
  {
    var s, part := base + "-" + suffix, "-" + marker;
    if marker <= suffix {
      assert s[|base|..|base| + |part|] == part;
      FoundFrom(s, part, 0, |base|);
    }
    var i := IndexOf(s, part, 0);
    if i >= 0 {
      assert s[i] == part[0];
      OnlyHyphen(base, suffix, i);
      assert suffix[..|marker|] == s[i..i + |part|][1..];
    }
  }

  lemma FoundHead(s: string, part: string)
    requires part != ""
    ensures Contains(s, part) ==> part[0] in s
  {
    var i := IndexOf(s, part, 0);
    if i >= 0 {
      assert s[i] == s[i..i + |part|][0];
    }
  }

  lemma NoMarker(s: string, marker: string)
    requires '-' !in s
    ensures !Contains(s, "-" + marker)
  {
    FoundHead(s, "-" + marker);
  }

  lemma SuffixMarkers(channel: Channel, number: nat, other: Channel)
    ensures Name(other) + "." <= Suffix(channel, number) <==> other == channel
    ensures '-' !in Suffix(channel, number)
  {
    assert (Name(other) + ".")[0] == Name(other)[0] && Suffix(channel, number)[0] == Name(channel)[0];
    DigitsRoundTrip(number);
    NumeralChars(Digits(number));
  }

  function ChannelTag(stage: Stage): string {
    if stage.Stable? then "latest" else Name(stage.channel)
  }

  lemma TagOfRendered(r: Release)
    ensures ComputeNpmTag(Render(r)) == ChannelTag(r.stage)
  {
    TripleReads(r.major, r.minor, r.patch);
    var base := Triple(r.major, r.minor, r.patch);
    assert "-" + "beta." == "-beta." && "-" + "rc." == "-rc." && "-" + "alpha." == "-alpha.";
    assert Name(Beta) + "." == "beta." && Name(Rc) + "." == "rc." && Name(Alpha) + "." == "alpha.";
    if r.stage.Stable? {
      NoMarker(base, "beta.");
      NoMarker(base, "rc.");
      NoMarker(base, "alpha.");
    } else {
      var suffix := StageText(r.stage);
      SuffixMarkers(r.stage.channel, r.stage.number, Beta);
      SuffixMarkers(r.stage.channel, r.stage.number, Rc);
      SuffixMarkers(r.stage.channel, r.stage.number, Alpha);
      MarkerFound(base, suffix, "beta.");
      MarkerFound(base, suffix, "rc.");
      MarkerFound(base, suffix, "alpha.");
    }
  }

  /** A prerelease can only be published under its channel, and a stable release only as `latest` or `candidate`. */
  lemma TagsFollowChannels(version: string, explicit: Option<string>)
    requires ParseRelease(version).Some? && ResolveNpmTag(version, explicit).Some?
    ensures var tag, stage := ResolveNpmTag(version, explicit).value, ParseRelease(version).value.stage;
            if stage.Stable? then tag == "latest" || tag == "candidate" else tag == Name(stage.channel)
  {
    RenderParse(version);
    TagOfRendered(ParseRelease(version).value);
  }
}
