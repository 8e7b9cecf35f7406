/** Rewriting `python3` to the resolved command, and when doing it twice changes nothing. */
module PythonLiterals {
  import opened Text

  const PYTHON3 := "python3"

  /** `line.replaceAll("python3", target)`, for a target without `$`. */
  function ReplaceLiteral(line: string, target: string): string {
    if |line| < |PYTHON3| then line
    else if PYTHON3 <= line then target + ReplaceLiteral(line[|PYTHON3|..], target)
    else [line[0]] + ReplaceLiteral(line[1..], target)
  }

  function RewriteLine(line: string, target: string): string {
    if StartsWith(line, "#!") then line else ReplaceLiteral(line, target)
  }

  function RewriteLines(lines: seq<string>, target: string): (r: seq<string>)
    ensures |r| == |lines| && forall i | 0 <= i < |r| :: r[i] == RewriteLine(lines[i], target)
  {
    seq(|lines|, i requires 0 <= i < |lines| => RewriteLine(lines[i], target))
  }

  function ReplacePythonCommandLiterals(content: string, target: string): string {
    if target == PYTHON3 then content
    else JoinWith(RewriteLines(Split(content, '\n'), target), "\n")
  }

  // ---------- Where the literal occurs ----------

  predicate OccursAt(s: string, i: nat) {
    i <= |s| && PYTHON3 <= s[i..]
  }

  predicate Occurs(s: string) {
    exists i: nat | i <= |s| :: OccursAt(s, i)
  }

  /**
   No occurrence of the literal can touch the target: none inside it, none across its start or its end,
   and none around it.
   */
  predicate Clean(target: string) {
    && !Occurs(target)
    && (forall k | 0 < k < |PYTHON3| :: !(PYTHON3[k..] <= target))
    && (forall k | 0 < k < |PYTHON3| :: !EndsWith(target, PYTHON3[..k]))
    && (forall a, b | 0 < a <= b < |PYTHON3| :: target != PYTHON3[a..b])
  }

  /** A text that starts like the rest of the literal did so before the replacement. */
  lemma {:induction false} RestWasThere(s: string, target: string, k: nat)
    requires Clean(target) && 0 < k <= |PYTHON3| && PYTHON3[k..] <= ReplaceLiteral(s, target)
    ensures PYTHON3[k..] <= s
    decreases |s|
  {
    if k < |PYTHON3| && |s| >= |PYTHON3| {
      var r := ReplaceLiteral(s, target);
      if PYTHON3 <= s {
        RestTouchesTarget(target, r, k);
      } else {
        assert r[0] == s[0] == PYTHON3[k] && PYTHON3[k..][1..] == PYTHON3[k + 1..];
        assert PYTHON3[k + 1..] <= r[1..];
        RestWasThere(s[1..], target, k + 1);
        assert s == [s[0]] + s[1..] && PYTHON3[k..] == [PYTHON3[k]] + PYTHON3[k + 1..];
      }
    }
  }

  lemma RestTouchesTarget(target: string, r: string, k: nat)
    requires 0 < k < |PYTHON3| && target <= r && PYTHON3[k..] <= r
    ensures !Clean(target)
  {
    if |target| >= |PYTHON3| - k {
      assert PYTHON3[k..] <= target;
    } else {
      assert target == PYTHON3[k..][..|target|] == PYTHON3[k..k + |target|];
    }
  }

  lemma StartsInTarget(target: string, after: string, i: nat)
    requires i < |target| && PYTHON3 <= target[i..] + after
    ensures !Clean(target)
  {
    var n := |target| - i;
    if n >= |PYTHON3| {
      assert PYTHON3 <= target[i..];
      assert OccursAt(target, i);
    } else {
      assert target[i..] == PYTHON3[..n];
      assert EndsWith(target, PYTHON3[..n]);
    }
  }

  lemma HeadAndRest(s: string)
    requires s != "" && s[0] == PYTHON3[0] && PYTHON3[1..] <= s[1..]
    ensures PYTHON3 <= s
  {
    assert s == [s[0]] + s[1..] && PYTHON3 == [PYTHON3[0]] + PYTHON3[1..];
  }

  lemma {:induction false} NoneLeftAt(s: string, target: string, i: nat)
    requires Clean(target) && i <= |ReplaceLiteral(s, target)|
    ensures !OccursAt(ReplaceLiteral(s, target), i)
    decreases |s|
  {
    var r := ReplaceLiteral(s, target);
    if |s| >= |PYTHON3| && OccursAt(r, i) {
      if PYTHON3 <= s {
        var rest := ReplaceLiteral(s[|PYTHON3|..], target);
        if i < |target| {
          assert r[i..] == target[i..] + rest;
          StartsInTarget(target, rest, i);
        } else {
          assert r[i..] == rest[i - |target|..];
          NoneLeftAt(s[|PYTHON3|..], target, i - |target|);
        }
      } else if i == 0 {
        assert r[0] == s[0] == PYTHON3[0] && PYTHON3[1..] <= r[1..];
        RestWasThere(s[1..], target, 1);
        HeadAndRest(s);
      } else {
        assert r[i..] == ReplaceLiteral(s[1..], target)[i - 1..];
        NoneLeftAt(s[1..], target, i - 1);
      }
    }
  }

  lemma {:induction false} NothingToReplace(s: string, target: string)
    requires !Occurs(s)
    ensures ReplaceLiteral(s, target) == s
  {
    if |s| >= |PYTHON3| {
      assert !OccursAt(s, 0) && s[0..] == s;
      assert forall i: nat | i <= |s[1..]| :: OccursAt(s[1..], i) ==> OccursAt(s, i + 1) by {
        assert forall i: nat | i < |s| :: s[1..][i..] == s[i + 1..];
      }
      NothingToReplace(s[1..], target);
      assert s == [s[0]] + s[1..];
    }
  }

  lemma CleanLineIsStable(line: string, target: string)
    requires Clean(target)
    ensures RewriteLine(RewriteLine(line, target), target) == RewriteLine(line, target)
  {
    if !StartsWith(line, "#!") {
      var r := ReplaceLiteral(line, target);
      assert !Occurs(r) by {
        if i: nat :| i <= |r| && OccursAt(r, i) {
          NoneLeftAt(line, target, i);
        }
      }
      NothingToReplace(r, target);
    }
  }

  // ---------- The overlaps break it ----------

  lemma {:induction false} OccurrenceIsReplaced(s: string, target: string, i: nat)
    requires OccursAt(s, i) && target != PYTHON3
    ensures ReplaceLiteral(s, target) != s
    decreases |s|
  {
    if PYTHON3 <= s {
      LeftoverDiffers(s, target);
    } else {
      assert i > 0 by {
        assert s[0..] == s;
      }
      assert s[1..][i - 1..] == s[i..];
      OccurrenceIsReplaced(s[1..], target, i - 1);
      assert s == [s[0]] + s[1..];
    }
  }

  lemma SameHeads(a: string, b: string, x: string, y: string)
    requires |a| == |b| && a + x == b + y
    ensures a == b
  {
    assert (a + x)[..|a|] == a && (b + y)[..|b|] == b;
  }

  /** Whether lengths differ or not, a replaced occurrence at the front shows. */
  lemma {:induction false} LeftoverDiffers(s: string, target: string)
    requires PYTHON3 <= s && target != PYTHON3
    ensures ReplaceLiteral(s, target) != s
  {
    var rest := s[|PYTHON3|..];
    var r := target + ReplaceLiteral(rest, target);
    assert s == PYTHON3 + rest;
    if r == s {
      if |target| == |PYTHON3| {
        SameHeads(target, PYTHON3, ReplaceLiteral(rest, target), rest);
        assert false;
      } else {
        LengthChanges(rest, target);
        assert false;
      }
    }
  }

  /** Each replacement changes the length in the same direction. */
  lemma {:induction false} LengthChanges(s: string, target: string)
    ensures |target| <= |PYTHON3| ==> |ReplaceLiteral(s, target)| <= |s|
    ensures |target| >= |PYTHON3| ==> |ReplaceLiteral(s, target)| >= |s|
    decreases |s|
  {
    if |s| >= |PYTHON3| {
      if PYTHON3 <= s {
        LengthChanges(s[|PYTHON3|..], target);
      } else {
        LengthChanges(s[1..], target);
      }
    }
  }

  /** Text before an occurrence that the literal cannot start in stays as it is. */
  lemma {:induction false} SkipTo(before: string, s: string, target: string)
    requires 'p' !in before
    ensures ReplaceLiteral(before + s, target) == before + ReplaceLiteral(s, target)
  {
    if before == "" {
      assert before + s == s;
    } else {
      assert (before + s)[0] == before[0] && (before + s)[1..] == before[1..] + s;
      SkipTo(before[1..], s, target);
      ShortIsKept(before + s, target);
      assert before == [before[0]] + before[1..];
    }
  }

  /** One step over a character that is not the literal's first. */
  lemma ShortIsKept(s: string, target: string)
    requires s != "" && s[0] != 'p'
    ensures ReplaceLiteral(s, target) == [s[0]] + ReplaceLiteral(s[1..], target)
  {
    if |s| < |PYTHON3| {
      assert s == [s[0]] + s[1..];
    } else {
      assert PYTHON3[0] == 'p';
    }
  }

  /** An unfinished literal before a whole one is not taken for it. */
  lemma PartialIsKept(k: nat, s: string, target: string)
    requires k < |PYTHON3| && PYTHON3 <= s
    ensures ReplaceLiteral(PYTHON3[..k] + s, target) == PYTHON3[..k] + ReplaceLiteral(s, target)
  {
    if k == 0 {
      assert PYTHON3[..k] + s == s;
    } else {
      var t := PYTHON3[..k] + s;
      assert t[k] == 'p' && PYTHON3[k] != 'p';
      assert t[1..] == PYTHON3[1..k] + s;
      SkipTo(PYTHON3[1..k], s, target);
      assert PYTHON3[..k] == [t[0]] + PYTHON3[1..k];
    }
  }

  lemma AfterTheLiteral(s: string, target: string)
    requires 'p' !in s
    ensures ReplaceLiteral(PYTHON3 + s, target) == target + s
  {
    assert (PYTHON3 + s)[|PYTHON3|..] == s;
    SkipTo(s, "", target);
    assert s + "" == s;
  }

  /** The literal with the beginning of another in front and the end of another behind. */
  function Sandwich(k: nat, middle: string, l: nat): string
    requires k < |PYTHON3| && 0 < l <= |PYTHON3|
  {
    " " + (PYTHON3[..k] + (middle + PYTHON3[l..]))
  }

  lemma SandwichRewritten(k: nat, l: nat, target: string)
    requires k < |PYTHON3| && 0 < l <= |PYTHON3|
    ensures RewriteLine(Sandwich(k, PYTHON3, l), target) == Sandwich(k, target, l)
  {
    var inner := PYTHON3 + PYTHON3[l..];
    assert PYTHON3 <= inner;
    AfterTheLiteral(PYTHON3[l..], target);
    PartialIsKept(k, inner, target);
    SkipTo(" ", PYTHON3[..k] + inner, target);
    NotShebang(k, PYTHON3, l);
  }

  lemma NotShebang(k: nat, middle: string, l: nat)
    requires k < |PYTHON3| && 0 < l <= |PYTHON3|
    ensures !StartsWith(Sandwich(k, middle, l), "#!")
  {
    assert Sandwich(k, middle, l)[0] == ' ';
  }

  lemma OverlapAtStart(target: string, k: nat)
    requires 0 < k < |PYTHON3| && PYTHON3[k..] <= target
    ensures OccursAt(Sandwich(k, target, |PYTHON3|), 1)
  {
    assert Sandwich(k, target, |PYTHON3|)[1..] == PYTHON3[..k] + target;
    assert PYTHON3[..k] + target == PYTHON3 + target[|PYTHON3| - k..];
  }

  lemma OverlapAtEnd(target: string, l: nat)
    requires 0 < l < |PYTHON3| && EndsWith(target, PYTHON3[..l])
    ensures OccursAt(Sandwich(0, target, l), 1 + |target| - l)
  {
    assert Sandwich(0, target, l)[1 + |target| - l..] == target[|target| - l..] + PYTHON3[l..];
    assert PYTHON3[..l] + PYTHON3[l..] == PYTHON3;
  }

  lemma OverlapAround(target: string, k: nat, l: nat)
    requires 0 < k <= l < |PYTHON3| && target == PYTHON3[k..l]
    ensures OccursAt(Sandwich(k, target, l), 1)
  {
    assert Sandwich(k, target, l)[1..] == PYTHON3[..k] + (PYTHON3[k..l] + PYTHON3[l..]);
    assert PYTHON3[..k] + (PYTHON3[k..l] + PYTHON3[l..]) == PYTHON3;
  }

  lemma OverlapInside(target: string, i: nat)
    requires OccursAt(target, i)
    ensures OccursAt(Sandwich(0, target, |PYTHON3|), 1 + i)
  {
    assert Sandwich(0, target, |PYTHON3|)[1 + i..] == target[i..];
  }

  /** An overlapping target puts the literal back together somewhere. */
  lemma OverlapShows(target: string) returns (k: nat, l: nat, i: nat)
    requires !Clean(target)
    ensures k < |PYTHON3| && 0 < l <= |PYTHON3| && OccursAt(Sandwich(k, target, l), i)
  {
    if Occurs(target) {
      var j: nat :| j <= |target| && OccursAt(target, j);
      k, l, i := 0, |PYTHON3|, 1 + j;
      OverlapInside(target, j);
    } else if a :| 0 < a < |PYTHON3| && PYTHON3[a..] <= target {
      k, l, i := a, |PYTHON3|, 1;
      OverlapAtStart(target, a);
    } else if b :| 0 < b < |PYTHON3| && EndsWith(target, PYTHON3[..b]) {
      k, l, i := 0, b, 1 + |target| - b;
      OverlapAtEnd(target, b);
    } else {
      var a, b :| 0 < a <= b < |PYTHON3| && target == PYTHON3[a..b];
      k, l, i := a, b, 1;
      OverlapAround(target, a, b);
    }
  }

  lemma SandwichHasNoNewline(k: nat, l: nat)
    requires k < |PYTHON3| && 0 < l <= |PYTHON3|
    ensures '\n' !in Sandwich(k, PYTHON3, l)
  {
    assert '\n' !in PYTHON3;
  }

  lemma OverlapIsUnstable(target: string) returns (line: string)
    requires !Clean(target) && target != PYTHON3
    ensures '\n' !in line
    ensures RewriteLine(RewriteLine(line, target), target) != RewriteLine(line, target)
  {
    var k, l, i := OverlapShows(target);
    line := Sandwich(k, PYTHON3, l);
    SandwichRewritten(k, l, target);
    OccurrenceIsReplaced(Sandwich(k, target, l), target, i);
    NotShebang(k, target, l);
    SandwichHasNoNewline(k, l);
  }

  // ---------- Whole contents ----------

  lemma {:induction false} ReplacedChars(s: string, target: string, c: char)
    requires c !in s && c !in target
    ensures c !in ReplaceLiteral(s, target)
    decreases |s|
  {
    if |s| >= |PYTHON3| {
      if PYTHON3 <= s {
        ReplacedChars(s[|PYTHON3|..], target, c);
      } else {
        ReplacedChars(s[1..], target, c);
      }
    }
  }

  /** Line by line: shebang lines stay, in every other line each literal is replaced. */
  lemma RewrittenLines(content: string, target: string)
    requires '\n' !in target && target != PYTHON3
    ensures Split(ReplacePythonCommandLiterals(content, target), '\n') == RewriteLines(Split(content, '\n'), target)
  {
    var lines := Split(content, '\n');
    forall line | line in RewriteLines(lines, target)
      ensures '\n' !in line
    {
      var i :| 0 <= i < |lines| && line == RewriteLine(lines[i], target);
      assert lines[i] in lines;
      ReplacedChars(lines[i], target, '\n');
    }
    SplitJoin(RewriteLines(lines, target), '\n');
    assert ['\n'] == "\n";
  }

  /** Rewriting twice is rewriting once. */
  predicate Twice(content: string, target: string) {
    var once := ReplacePythonCommandLiterals(content, target);
    ReplacePythonCommandLiterals(once, target) == once
  }

  lemma TwiceByLine(content: string, target: string)
    requires '\n' !in target && target != PYTHON3
    ensures Twice(content, target) <==>
            RewriteLines(RewriteLines(Split(content, '\n'), target), target) == RewriteLines(Split(content, '\n'), target)
  {
    RewrittenLines(content, target);
    var once := ReplacePythonCommandLiterals(content, target);
    RewrittenLines(once, target);
  }

  /** For a one-line target, rewriting is idempotent exactly when the target is `python3` or cannot overlap it. */
  lemma IdempotentUnlessOverlapping(target: string)
    requires '\n' !in target
    ensures (forall content :: Twice(content, target)) <==> target == PYTHON3 || Clean(target)
  {
    if target != PYTHON3 {
      if Clean(target) {
        forall content
          ensures Twice(content, target)
        {
          TwiceByLine(content, target);
          forall line
            ensures RewriteLine(RewriteLine(line, target), target) == RewriteLine(line, target)
          {
            CleanLineIsStable(line, target);
          }
        }
      } else {
        var line := OverlapIsUnstable(target);
        SplitOne(line, '\n');
        TwiceByLine(line, target);
        assert RewriteLines([line], target)[0] == RewriteLine(line, target);
        assert RewriteLines(RewriteLines([line], target), target)[0] == RewriteLine(RewriteLine(line, target), target);
        assert !Twice(line, target);
      }
    }
  }

  lemma OneLine(line: string, target: string)
    requires '\n' !in line && '\n' !in target && target != PYTHON3
    ensures ReplacePythonCommandLiterals(line, target) == RewriteLine(line, target)
  {
    SplitOne(line, '\n');
    assert RewriteLines([line], target) == [RewriteLine(line, target)];
  }

  /** Of the commands that are probed for, `py -3` is safe and `python` is not. */
  lemma ProbedCommands()
    ensures Clean("py -3") && !Clean("python")
  {
    assert EndsWith("python", PYTHON3[..6]);
    NoOverlapWithLauncher();
  }

  /** With `python` the text `python33` becomes `python3`, and only the second rewriting gives `python`. */
  lemma Python33()
    ensures ReplacePythonCommandLiterals("python33", "python") == "python3"
    ensures ReplacePythonCommandLiterals("python3", "python") == "python"
  {
    AfterTheLiteral("3", "python");
    AfterTheLiteral("", "python");
    assert PYTHON3 + "3" == "python33" && PYTHON3 + "" == "python3";
    assert "python33"[0] == 'p' && "python3"[0] == 'p';
    OneLine("python33", "python");
    OneLine("python3", "python");
  }

  lemma NoOverlapWithLauncher()
    ensures Clean("py -3")
  {
    var target := "py -3";
    forall i: nat | i <= |target|
      ensures !OccursAt(target, i)
    {
      assert |target[i..]| < |PYTHON3|;
    }
    forall k | 0 < k < |PYTHON3|
      ensures !(PYTHON3[k..] <= target) && !EndsWith(target, PYTHON3[..k])
    {
      assert PYTHON3[k..][0] == PYTHON3[k] != 'p';
      assert PYTHON3[..k][k - 1] == PYTHON3[k - 1] != '3';
    }
    forall a, b | 0 < a <= b < |PYTHON3|
      ensures target != PYTHON3[a..b]
    {
      assert a < b ==> PYTHON3[a..b][0] != 'p';
    }
  }
}
