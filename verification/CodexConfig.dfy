/** Replacing the managed block of a Codex configuration text. */
module CodexConfig {
  import opened Text

  const START := "# PACTILE:PROJECT-CAPABILITIES:START"
  const END := "# PACTILE:PROJECT-CAPABILITIES:END"

  function TrimNewlinesEnd(s: string): (r: string)
    ensures r <= s && (r == "" || r[|r| - 1] != '\n')
  {
    if s != "" && s[|s| - 1] == '\n' then TrimNewlinesEnd(s[..|s| - 1]) else s
  }

  function TrimNewlinesStart(s: string): (r: string)
    ensures |r| <= |s| && r == s[|s| - |r|..]
  {
    if s != "" && s[0] == '\n' then TrimNewlinesStart(s[1..]) else s
  }

  function Joined(before: string, after: string): string {
    TrimNewlinesEnd(before) + "\n" + TrimNewlinesStart(after)
  }

  /** The text from `i` up to `j`, with the newlines around it, becomes one newline. */
  function CutAt(base: string, i: int, j: int): string
    requires 0 <= i <= j <= |base|
  {
    Joined(base[..i], base[j..])
  }

  /** The first end marker behind a start marker at `i`, if there is one. */
  function EndBehind(base: string, start: string, end: string, i: int): (j: int)
    requires i <= |base|
    ensures j >= 0 ==> i >= 0 && i + |start| <= j && j + |end| <= |base|
  {
    if i < 0 then -1 else IndexOf(base, end, i + |start|)
  }

  /** Without the text from `i` up to `j`; a negative position stands for a marker that is missing. */
  function CutBetween(base: string, i: int, j: int, n: nat): string
    requires i >= 0 && j >= 0 ==> i <= j + n <= |base|
  {
    if i < 0 || j < 0 then base else CutAt(base, i, j + n)
  }

  /** Without the first block between the markers. */
  function Cut(base: string, start: string, end: string): string {
    var i := IndexOf(base, start, 0);
    CutBetween(base, i, EndBehind(base, start, end, i), |end|)
  }

  /** What is kept of a text when a block is put into it. */
  function Rest(base: string): string {
    TrimEnd(Cut(base, START, END))
  }

  function With(rest: string, block: string): string {
    rest + "\n\n" + block + "\n"
  }

  /** An empty block stands for an empty selection. */
  function Put(rest: string, block: string): string {
    if block == "" then rest + "\n" else With(rest, block)
  }

  function ApplyCodexCapabilityConfig(base: string, block: string): string {
    Put(Rest(base), block)
  }

  /** A rendered block: it begins and ends with the markers, and the end marker occurs only there. */
  predicate WellFormed(block: string, start: string, end: string) {
    && |block| >= |start| + |end| && start <= block && OccursAt(block, end, |block| - |end|)
    && forall k | 0 <= k < |block| - |end| :: !OccursAt(block, end, k)
  }

  /** Markers are single lines that end with something visible. */
  predicate Marker(m: string) {
    m != "" && '\n' !in m && !IsSpace(m[|m| - 1])
  }

  lemma TheMarkers()
    ensures Marker(START) && Marker(END)
  {
  }

  // ---------- Occurrences ----------

  predicate OccursAt(s: string, part: string, k: int) {
    0 <= k && k + |part| <= |s| && s[k..k + |part|] == part
  }

  ghost predicate Absent(s: string, part: string) {
    forall k :: !OccursAt(s, part, k)
  }

  /** `i` is the first occurrence from `from` on, or negative when there is none. */
  ghost predicate FirstAt(s: string, part: string, from: nat, i: int) {
    if i < 0 then forall k | from <= k :: !OccursAt(s, part, k)
    else from <= i && OccursAt(s, part, i) && forall k | from <= k < i :: !OccursAt(s, part, k)
  }

  lemma {:induction false} IndexIsFirst(s: string, part: string, from: nat)
    ensures FirstAt(s, part, from, IndexOf(s, part, from))
    decreases |s| - from
  {
    if from + |part| <= |s| && s[from..from + |part|] != part {
      IndexIsFirst(s, part, from + 1);
    }
  }

  /** How a text is cut, in terms of occurrences. */
  ghost predicate CutsTo(base: string, start: string, end: string, i: int, j: int, r: string) {
    && FirstAt(base, start, 0, i) && (i >= 0 ==> FirstAt(base, end, i + |start|, j))
    && r == if i < 0 || j < 0 then base else CutAt(base, i, j + |end|)
  }

  lemma FirstMarker(s: string, part: string, from: nat) returns (i: int)
    ensures i == IndexOf(s, part, from) && FirstAt(s, part, from, i) && (i >= 0 ==> i + |part| <= |s|)
  {
    i := IndexOf(s, part, from);
    IndexIsFirst(s, part, from);
  }

  lemma CutOf(base: string, start: string, end: string, i: int, j: int)
    requires i <= |base| && i == IndexOf(base, start, 0) && j == EndBehind(base, start, end, i)
    ensures Cut(base, start, end) == CutBetween(base, i, j, |end|)
  {
  }

  lemma CutInOccurrences(base: string, start: string, end: string) returns (i: int, j: int)
    ensures CutsTo(base, start, end, i, j, Cut(base, start, end))
  {
    j := -1;
    i := FirstMarker(base, start, 0);
    if i >= 0 {
      j := FirstMarker(base, end, i + |start|);
    }
    CutOf(base, start, end, i, j);
    FromIndices(base, start, end, i, j, Cut(base, start, end));
  }

  lemma FromIndices(base: string, start: string, end: string, i: int, j: int, r: string)
    requires FirstAt(base, start, 0, i) && (i >= 0 ==> FirstAt(base, end, i + |start|, j)) && (i < 0 ==> j < 0)
    requires r == CutBetween(base, i, j, |end|)
    ensures CutsTo(base, start, end, i, j, r)
  {
  }

  lemma Across(s: string, part: string, k: int, m: int)
    requires OccursAt(s, part, k) && k <= m < k + |part|
    ensures s[m] in part
  {
    assert s[m] == s[k..k + |part|][m - k];
  }

  /** A marker does not reach across a newline. */
  lemma OnOneSide(a: string, b: string, part: string, k: int)
    requires '\n' !in part && OccursAt(a + "\n" + b, part, k) && part != ""
    ensures OccursAt(a, part, k) || OccursAt(b, part, k - |a| - 1)
  {
    var s := a + "\n" + b;
    assert s[|a|] == '\n';
    if k <= |a| < k + |part| {
      Across(s, part, k, |a|);
    } else if k + |part| <= |a| {
      assert s[k..k + |part|] == a[k..k + |part|];
    } else {
      assert s[k..k + |part|] == b[k - |a| - 1..k - |a| - 1 + |part|];
    }
  }

  lemma Shifted(before: string, s: string, part: string, k: int)
    requires 0 <= k
    ensures OccursAt(before + s, part, |before| + k) <==> OccursAt(s, part, k)
  {
    if k + |part| <= |s| {
      assert (before + s)[|before| + k..|before| + k + |part|] == s[k..k + |part|];
    }
  }

  lemma InPrefix(s: string, after: string, part: string, k: int)
    requires k + |part| <= |s|
    ensures OccursAt(s + after, part, k) <==> OccursAt(s, part, k)
  {
    if 0 <= k {
      assert (s + after)[k..k + |part|] == s[k..k + |part|];
    }
  }

  // ---------- A block behind a text ----------

  /** Markers of a text with a block lie in the text or in the block. */
  lemma InTextOrBlock(w: string, block: string, part: string, k: int)
    requires Marker(part) && OccursAt(With(w, block), part, k)
    ensures OccursAt(w, part, k) || OccursAt(block, part, k - |w| - 2)
  {
    assert With(w, block) == w + "\n" + ("" + "\n" + (block + "\n" + ""));
    OnOneSide(w, "" + "\n" + (block + "\n" + ""), part, k);
    if !OccursAt(w, part, k) {
      OnOneSide("", block + "\n" + "", part, k - |w| - 1);
      OnOneSide(block, "", part, k - |w| - 2);
    }
  }

  lemma BlockOccurs(w: string, block: string, part: string, k: int)
    requires OccursAt(block, part, k)
    ensures OccursAt(With(w, block), part, |w| + 2 + k)
  {
    Shifted(w + "\n\n", block + "\n", part, k);
    InPrefix(block, "\n", part, k);
    assert With(w, block) == (w + "\n\n") + (block + "\n");
  }

  lemma TextOccurs(w: string, block: string, part: string, k: int)
    requires OccursAt(w, part, k)
    ensures OccursAt(With(w, block), part, k)
  {
    InPrefix(w, "\n\n" + block + "\n", part, k);
    assert With(w, block) == w + ("\n\n" + block + "\n");
  }

  /** In `w` followed by a block, the start marker is first met at `i`, and no end marker of `w` comes after it. */
  ghost predicate Opens(w: string, start: string, end: string, i: nat) {
    && i <= |w| + 2 && (OccursAt(w, start, i) || i == |w| + 2)
    && (forall k :: OccursAt(w, start, k) ==> i <= k)
    && (forall k | i + |start| <= k :: !OccursAt(w, end, k))
  }

  lemma FirstStart(w: string, block: string, start: string, end: string, i: nat, s: string)
    requires Marker(start) && Opens(w, start, end, i) && start <= block && s == With(w, block)
    ensures FirstAt(s, start, 0, i)
  {
    if OccursAt(w, start, i) {
      TextOccurs(w, block, start, i);
    } else {
      BlockOccurs(w, block, start, 0);
    }
    forall k | 0 <= k < i
      ensures !OccursAt(s, start, k)
    {
      if OccursAt(s, start, k) {
        InTextOrBlock(w, block, start, k);
      }
    }
  }

  lemma FirstEnd(w: string, block: string, start: string, end: string, i: nat, s: string)
    requires Marker(end) && Opens(w, start, end, i) && WellFormed(block, start, end) && s == With(w, block)
    ensures FirstAt(s, end, i + |start|, |w| + 2 + |block| - |end|)
  {
    BlockOccurs(w, block, end, |block| - |end|);
    forall k | i + |start| <= k < |w| + 2 + |block| - |end|
      ensures !OccursAt(s, end, k)
    {
      if OccursAt(s, end, k) {
        InTextOrBlock(w, block, end, k);
      }
    }
  }

  lemma OneFirst(s: string, part: string, from: nat, i: int, j: int)
    requires FirstAt(s, part, from, i) && FirstAt(s, part, from, j) && i >= 0
    ensures i == j
  {
  }

  lemma FoundSince(s: string, part: string, from: nat, y: int, j: int)
    requires FirstAt(s, part, from, y) && from <= j && OccursAt(s, part, j)
    ensures from <= y <= j
  {
  }

  lemma CutIs(s: string, start: string, end: string, i: nat, j: nat, x: int, y: int, r: string)
    requires FirstAt(s, start, 0, i) && FirstAt(s, end, i + |start|, j) && CutsTo(s, start, end, x, y, r)
    ensures r == CutAt(s, i, j + |end|)
  {
    OneFirst(s, start, 0, i, x);
    OneFirst(s, end, i + |start|, j, y);
  }

  lemma JoinedAtTheEnd(before: string)
    ensures Joined(before, "\n") == TrimNewlinesEnd(before) + "\n"
  {
    assert "\n"[1..] == "" && TrimNewlinesStart("\n") == "";
    assert TrimNewlinesEnd(before) + "\n" + "" == TrimNewlinesEnd(before) + "\n";
  }

  lemma CutAtEnd(w: string, block: string, i: nat)
    requires i <= |w| + 2
    ensures CutAt(With(w, block), i, |w| + 2 + |block|) == TrimNewlinesEnd((w + "\n\n")[..i]) + "\n"
  {
    var s := With(w, block);
    assert s[..i] == (w + "\n\n")[..i];
    assert s[|w| + 2 + |block|..] == "\n";
    JoinedAtTheEnd(s[..i]);
  }

  lemma CutAtMarkers(w: string, block: string, start: string, end: string, i: nat, s: string, x: int, y: int, r: string)
    requires Marker(start) && Marker(end) && WellFormed(block, start, end) && Opens(w, start, end, i) && s == With(w, block)
    requires CutsTo(s, start, end, x, y, r)
    ensures r == CutAt(s, i, |w| + 2 + |block|)
  {
    FirstStart(w, block, start, end, i, s);
    FirstEnd(w, block, start, end, i, s);
    CutIs(s, start, end, i, |w| + 2 + |block| - |end|, x, y, r);
  }

  /** With the block closed by its own end marker, everything from the first start marker on goes. */
  lemma CutFrom(w: string, block: string, start: string, end: string, i: nat, s: string, x: int, y: int, r: string)
    requires Marker(start) && Marker(end) && WellFormed(block, start, end) && Opens(w, start, end, i) && s == With(w, block)
    requires CutsTo(s, start, end, x, y, r)
    ensures r == TrimNewlinesEnd((w + "\n\n")[..i]) + "\n"
  {
    CutAtMarkers(w, block, start, end, i, s, x, y, r);
    CutAtEnd(w, block, i);
  }

  // ---------- Trimming ----------

  lemma {:induction false} TrimEndDrops(w: string, spaces: string)
    requires forall c | c in spaces :: IsSpace(c)
    ensures TrimEnd(w + spaces) == TrimEnd(w)
  {
    if spaces == "" {
      assert w + spaces == w;
    } else {
      var init := spaces[..|spaces| - 1];
      assert (w + spaces)[..|w + spaces| - 1] == w + init;
      assert spaces[|spaces| - 1] in spaces && forall c | c in init :: c in spaces;
      TrimEndDrops(w, init);
    }
  }

  lemma {:induction false} TrimNewlinesFirst(s: string)
    ensures TrimEnd(TrimNewlinesEnd(s)) == TrimEnd(s)
  {
    if s != "" && s[|s| - 1] == '\n' {
      assert IsSpace('\n');
      TrimNewlinesFirst(s[..|s| - 1]);
    }
  }

  lemma {:induction false} TrimEndTwice(s: string)
    ensures TrimEnd(TrimEnd(s)) == TrimEnd(s)
  {
    if s != "" && IsSpace(s[|s| - 1]) {
      TrimEndTwice(s[..|s| - 1]);
    }
  }

  lemma {:induction false} TrimEndKeepsMarker(s: string, part: string, k: int)
    requires Marker(part) && OccursAt(s, part, k)
    ensures OccursAt(TrimEnd(s), part, k)
  {
    if s != "" && IsSpace(s[|s| - 1]) {
      assert k + |part| < |s| by {
        assert s[k + |part| - 1] == part[|part| - 1];
      }
      assert s == s[..|s| - 1] + [s[|s| - 1]];
      InPrefix(s[..|s| - 1], [s[|s| - 1]], part, k);
      TrimEndKeepsMarker(s[..|s| - 1], part, k);
    }
  }

  lemma TrimmedAfterCut(s: string)
    ensures TrimEnd(TrimNewlinesEnd(s) + "\n") == TrimEnd(s)
  {
    assert IsSpace('\n');
    TrimEndDrops(TrimNewlinesEnd(s), "\n");
    TrimNewlinesFirst(s);
  }

  // ---------- One block after another ----------

  lemma AbsentIsKept(s: string, start: string, end: string, x: int, y: int, r: string)
    requires Absent(s, start) && CutsTo(s, start, end, x, y, r)
    ensures r == s
  {
  }

  lemma NoStartWithNewline(w: string, start: string)
    requires Absent(w, start) && Marker(start)
    ensures Absent(w + "\n", start)
  {
    forall k
      ensures !OccursAt(w + "\n", start, k)
    {
      if OccursAt(w + "\n", start, k) {
        assert w + "\n" + "" == w + "\n";
        OnOneSide(w, "", start, k);
      }
    }
  }

  lemma BlockLeavesNoTrace(w: string, block: string, start: string, end: string, s: string, x: int, y: int, r: string)
    requires TrimEnd(w) == w && Absent(w, start) && Marker(start) && Marker(end) && WellFormed(block, start, end)
    requires s == With(w, block) && CutsTo(s, start, end, x, y, r)
    ensures TrimEnd(r) == w
  {
    CutFrom(w, block, start, end, |w| + 2, s, x, y, r);
    assert (w + "\n\n")[..|w| + 2] == w + "\n\n";
    TrimmedAfterCut(w + "\n\n");
    assert IsSpace('\n');
    TrimEndDrops(w, "\n\n");
  }

  /** The kept text is kept again, with or without a block behind it. */
  lemma RestIsStable(w: string, block: string, start: string, end: string, s: string, x: int, y: int, r: string)
    requires TrimEnd(w) == w && Absent(w, start) && Marker(start) && Marker(end)
    requires block == "" || WellFormed(block, start, end)
    requires s == Put(w, block) && CutsTo(s, start, end, x, y, r)
    ensures TrimEnd(r) == w
  {
    if block == "" {
      NoStartWithNewline(w, start);
      AbsentIsKept(s, start, end, x, y, r);
      assert IsSpace('\n');
      TrimEndDrops(w, "\n");
    } else {
      BlockLeavesNoTrace(w, block, start, end, s, x, y, r);
    }
  }

  /**
   When the kept text has no start marker, the block that was put first leaves no trace: putting a second block gives
   what putting it alone gives. With the same block twice, the second time changes nothing.
   */
  lemma LastBlockWins(base: string, first: string, second: string)
    requires Absent(Rest(base), START) && (first == "" || WellFormed(first, START, END))
    ensures ApplyCodexCapabilityConfig(ApplyCodexCapabilityConfig(base, first), second)
            == ApplyCodexCapabilityConfig(base, second)
  {
    TrimEndTwice(Cut(base, START, END));
    TheMarkers();
    var once := ApplyCodexCapabilityConfig(base, first);
    var x, y := CutInOccurrences(once, START, END);
    RestIsStable(Rest(base), first, START, END, once, x, y, Cut(once, START, END));
  }

  // ---------- When the kept text has no start marker ----------

  lemma PrefixAndRest(a: string, s: string)
    requires a <= s
    ensures a + s[|a|..] == s
  {
  }

  lemma SuffixAndRest(b: string, s: string)
    requires |b| <= |s| && b == s[|s| - |b|..]
    ensures s[..|s| - |b|] + b == s
  {
  }

  lemma MarkerOfPieces(a: string, tail: string, gap: string, b: string, part: string, k: int)
    requires Marker(part) && OccursAt(a + "\n" + b, part, k)
    ensures OccursAt(a + tail, part, k) || OccursAt(gap + b, part, |gap| + (k - |a| - 1))
  {
    OnOneSide(a, b, part, k);
    if OccursAt(a, part, k) {
      InPrefix(a, tail, part, k);
    } else {
      Shifted(gap, b, part, k - |a| - 1);
    }
  }

  lemma JoinedMarker(before: string, after: string, part: string, k: int)
    requires Marker(part) && OccursAt(Joined(before, after), part, k)
    ensures OccursAt(before, part, k) || exists l :: OccursAt(after, part, l)
  {
    var a, b := TrimNewlinesEnd(before), TrimNewlinesStart(after);
    PrefixAndRest(a, before);
    SuffixAndRest(b, after);
    MarkerOfPieces(a, before[|a|..], after[..|after| - |b|], b, part, k);
  }

  ghost predicate SingleMarker(base: string, start: string, i: int) {
    OccursAt(base, start, i) && forall k :: OccursAt(base, start, k) ==> k == i
  }

  lemma PieceOf(base: string, a: int, b: int, part: string, k: int)
    requires 0 <= a <= b <= |base| && OccursAt(base[a..b], part, k)
    ensures OccursAt(base, part, a + k)
  {
    assert base == base[..a] + (base[a..b] + base[b..]);
    InPrefix(base[a..b], base[b..], part, k);
    Shifted(base[..a], base[a..b] + base[b..], part, k);
  }

  lemma AbsentInPieces(base: string, start: string, i: nat, after: nat)
    requires SingleMarker(base, start, i) && start != "" && i + |start| <= after <= |base|
    ensures Absent(base[..i], start) && Absent(base[after..], start)
  {
    assert base[..i] == base[0..i] && base[after..] == base[after..|base|];
    forall k
      ensures !OccursAt(base[0..i], start, k)
    {
      if OccursAt(base[0..i], start, k) {
        PieceOf(base, 0, i, start, k);
      }
    }
    forall k
      ensures !OccursAt(base[after..|base|], start, k)
    {
      if OccursAt(base[after..|base|], start, k) {
        PieceOf(base, after, |base|, start, k);
      }
    }
  }

  lemma AbsentAfterCut(base: string, start: string, i: nat, after: nat)
    requires Marker(start) && SingleMarker(base, start, i) && i + |start| <= after <= |base|
    ensures Absent(CutAt(base, i, after), start)
  {
    AbsentInPieces(base, start, i, after);
    forall k
      ensures !OccursAt(CutAt(base, i, after), start, k)
    {
      if OccursAt(CutAt(base, i, after), start, k) {
        JoinedMarker(base[..i], base[after..], start, k);
      }
    }
  }

  lemma AbsentWhenTrimmed(s: string, start: string)
    requires Absent(s, start)
    ensures Absent(TrimEnd(s), start)
  {
    assert TrimEnd(s) == s[0..|TrimEnd(s)|];
    forall k
      ensures !OccursAt(TrimEnd(s), start, k)
    {
      if OccursAt(TrimEnd(s), start, k) {
        PieceOf(s, 0, |TrimEnd(s)|, start, k);
      }
    }
  }

  lemma CutHere(base: string, start: string, end: string, i: nat, j: nat, x: int, y: int, r: string)
    requires FirstAt(base, start, 0, i) && i + |start| <= j && OccursAt(base, end, j) && CutsTo(base, start, end, x, y, r)
    ensures i + |start| <= y && y + |end| <= |base| && r == CutAt(base, i, y + |end|)
  {
    OneFirst(base, start, 0, i, x);
    FoundSince(base, end, i + |start|, y, j);
  }

  lemma SingleIsFirst(base: string, start: string, i: nat)
    requires SingleMarker(base, start, i)
    ensures FirstAt(base, start, 0, i)
  {
  }

  lemma SingleCutPlace(base: string, start: string, end: string, i: nat, j: nat) returns (after: nat)
    requires FirstAt(base, start, 0, i) && i + |start| <= j && OccursAt(base, end, j)
    ensures i + |start| <= after <= |base| && Cut(base, start, end) == CutAt(base, i, after)
  {
    var x, y := CutInOccurrences(base, start, end);
    CutHere(base, start, end, i, j, x, y, Cut(base, start, end));
    after := y + |end|;
  }

  lemma TrimmedCutIsFree(base: string, start: string, i: nat, after: nat, rest: string)
    requires Marker(start) && SingleMarker(base, start, i) && i + |start| <= after <= |base|
    requires rest == TrimEnd(CutAt(base, i, after))
    ensures Absent(rest, start)
  {
    AbsentAfterCut(base, start, i, after);
    AbsentWhenTrimmed(CutAt(base, i, after), start);
  }

  /** A text with a single start marker and an end marker behind it keeps no start marker. */
  lemma OneBlockAtMost(base: string, i: nat, j: nat)
    requires SingleMarker(base, START, i) && i + |START| <= j && OccursAt(base, END, j)
    ensures Absent(Rest(base), START)
  {
    TheMarkers();
    SingleIsFirst(base, START, i);
    var after := SingleCutPlace(base, START, END, i, j);
    TrimmedCutIsFree(base, START, i, after, Rest(base));
  }

  /** Nor does a text without any. */
  lemma NoBlock(base: string)
    requires Absent(base, START)
    ensures Absent(Rest(base), START)
  {
    var x, y := CutInOccurrences(base, START, END);
    AbsentIsKept(base, START, END, x, y, Cut(base, START, END));
    AbsentWhenTrimmed(base, START);
  }

  // ---------- An unclosed marker ----------

  /** The first start marker is at `i`, and no end marker comes behind it. */
  ghost predicate Unclosed(base: string, start: string, end: string, i: nat) {
    && OccursAt(base, start, i) && (forall k :: OccursAt(base, start, k) ==> i <= k)
    && (forall k | i + |start| <= k :: !OccursAt(base, end, k))
  }

  lemma UnclosedWhenTrimmed(base: string, start: string, end: string, i: nat)
    requires Marker(start) && Unclosed(base, start, end, i)
    ensures Unclosed(TrimEnd(base), start, end, i)
  {
    var w := TrimEnd(base);
    TrimEndKeepsMarker(base, start, i);
    assert w == base[0..|w|];
    forall k
      ensures OccursAt(w, start, k) ==> i <= k
    {
      if OccursAt(w, start, k) {
        PieceOf(base, 0, |w|, start, k);
      }
    }
    forall k | i + |start| <= k
      ensures !OccursAt(w, end, k)
    {
      if OccursAt(w, end, k) {
        PieceOf(base, 0, |w|, end, k);
      }
    }
  }

  lemma UnclosedIsKept(base: string, start: string, end: string, i: nat, x: int, y: int, r: string)
    requires Unclosed(base, start, end, i) && CutsTo(base, start, end, x, y, r)
    ensures r == base
  {
    assert FirstAt(base, start, 0, i);
    OneFirst(base, start, 0, i, x);
  }

  lemma HeadOfTrimmed(base: string, i: nat)
    requires i <= |TrimEnd(base)|
    ensures (TrimEnd(base) + "\n\n")[..i] == base[..i]
  {
  }

  lemma UnclosedCut(base: string, block: string, start: string, end: string, i: nat, s: string, x: int, y: int, r: string)
    requires Marker(start) && Marker(end) && WellFormed(block, start, end) && Unclosed(base, start, end, i)
    requires s == With(TrimEnd(base), block) && CutsTo(s, start, end, x, y, r)
    ensures TrimEnd(r) == TrimEnd(base[..i]) && |TrimEnd(base)| > i
  {
    UnclosedWhenTrimmed(base, start, end, i);
    CutFrom(TrimEnd(base), block, start, end, i, s, x, y, r);
    HeadOfTrimmed(base, i);
    TrimmedAfterCut(base[..i]);
  }

  lemma PutTellsLength(v: string, w: string, block: string)
    requires |v| < |w|
    ensures Put(v, block) != Put(w, block)
  {
    assert |Put(v, block)| < |Put(w, block)|;
  }

  /**
   A start marker without an end marker behind it is closed by the block that is put behind it: the next time,
   everything from the marker on is taken for the block and lost.
   */
  lemma UnclosedMarkerLosesText(base: string, i: nat, first: string, second: string)
    requires Unclosed(base, START, END, i) && WellFormed(first, START, END)
    ensures Rest(base) == TrimEnd(base) && Rest(ApplyCodexCapabilityConfig(base, first)) == TrimEnd(base[..i])
    ensures ApplyCodexCapabilityConfig(ApplyCodexCapabilityConfig(base, first), second)
            != ApplyCodexCapabilityConfig(base, second)
  {
    TheMarkers();
    var x, y := CutInOccurrences(base, START, END);
    UnclosedIsKept(base, START, END, i, x, y, Cut(base, START, END));
    var once := With(TrimEnd(base), first);
    x, y := CutInOccurrences(once, START, END);
    UnclosedCut(base, first, START, END, i, once, x, y, Cut(once, START, END));
    PutTellsLength(TrimEnd(base[..i]), TrimEnd(base), second);
  }

  // ---------- The exact condition ----------

  /** What the renderer gives: nothing for an empty selection, or a block between the markers. */
  predicate Rendered(block: string) {
    block == "" || WellFormed(block, START, END)
  }

  /** Putting `second` after `first` gives what putting `second` alone gives. */
  ghost predicate SecondWins(base: string, first: string, second: string) {
    ApplyCodexCapabilityConfig(ApplyCodexCapabilityConfig(base, first), second)
    == ApplyCodexCapabilityConfig(base, second)
  }

  /** There are blocks of any length. */
  function SampleBlock(n: nat): (block: string)
    ensures WellFormed(block, START, END) && |block| > n
  {
    var block := START + seq(n, _ => 'x') + END;
    assert block[|block| - |END|..] == END;
    assert forall k | 0 <= k < |block| - |END| :: !OccursAt(block, END, k) by {
      forall k | 0 <= k < |block| - |END|
        ensures !OccursAt(block, END, k)
      {
        OnlyAtTheEnd(n, block, k);
      }
    }
    block
  }

  /** Only the markers have a `#`, and the markers differ. */
  lemma OnlyAtTheEnd(n: nat, block: string, k: nat)
    requires block == START + seq(n, _ => 'x') + END && k < |block| - |END|
    ensures !OccursAt(block, END, k)
  {
    var piece := block[k..k + |END|];
    assert piece[0] == block[k] && piece[31] == block[k + 31];
    assert END[0] == '#' && END[31] == 'E';
    assert k == 0 ==> block[31] == START[31] == 'S';
    assert 0 < k < |START| ==> block[k] == START[k] != '#';
  }

  lemma {:induction false} NewlinesBeforeText(s: string, text: string)
    requires text != "" && text[0] != '\n'
    ensures |TrimNewlinesStart(s + text)| >= |text|
  {
    if s != "" && s[0] == '\n' {
      assert (s + text)[1..] == s[1..] + text;
      NewlinesBeforeText(s[1..], text);
    } else {
      assert (s + text)[0] != '\n';
    }
  }

  lemma KeptToTheEnd(s: string, block: string)
    requires |block| <= |s| && s[|s| - |block|..] == block && block != "" && !IsSpace(block[|block| - 1])
    ensures TrimEnd(s + "\n") == s
  {
    assert s[|s| - 1] == s[|s| - |block|..][|block| - 1];
    assert IsSpace('\n');
    TrimEndDrops(s, "\n");
  }

  lemma LongerWhenJoined(before: string, after: string, b: string)
    requires b != "" && b[|b| - 1] == '\n' && b == TrimNewlinesStart(after)
    ensures Joined(before, after) == (TrimNewlinesEnd(before) + "\n" + b[..|b| - 1]) + "\n"
  {
    assert b == b[..|b| - 1] + "\n";
  }

  /** What is cut before a block leaves the block in the text. */
  lemma BlockIsKept(before: string, gap: string, block: string, after: string)
    requires block != "" && block[0] != '\n' && !IsSpace(block[|block| - 1]) && after == gap + (block + "\n")
    ensures |TrimEnd(Joined(before, after))| >= |block|
  {
    var b := TrimNewlinesStart(after);
    NewlinesBeforeText(gap, block + "\n");
    assert b == after[|after| - |b|..];
    LongerWhenJoined(before, after, b);
    EndsWithBlock(TrimNewlinesEnd(before) + "\n", b, gap, block, after);
    KeptToTheEnd(TrimNewlinesEnd(before) + "\n" + b[..|b| - 1], block);
  }

  lemma EndsWithBlock(before: string, b: string, gap: string, block: string, after: string)
    requires after == gap + (block + "\n") && |block| < |b| <= |after| && b == after[|after| - |b|..]
    ensures var s := before + b[..|b| - 1]; |block| <= |s| && s[|s| - |block|..] == block
  {
  }

  /** The block behind a text that has a closed block of its own: the older block goes, the newer one stays. */
  lemma OlderBlockIsCut(w: string, block: string, start: string, end: string, i: nat, j: nat, s: string, x: int, y: int, r: string)
    requires Marker(start) && Marker(end) && WellFormed(block, start, end) && start[0] != '\n'
    requires FirstAt(w, start, 0, i) && i + |start| <= j && OccursAt(w, end, j)
    requires s == With(w, block) && CutsTo(s, start, end, x, y, r)
    ensures |TrimEnd(r)| >= |block|
  {
    OlderCutPlace(w, block, start, end, i, j, s, x, y, r);
    EndsVisibly(block, start, end);
    CutBeforeBlock(w, block, i, y + |end|);
  }

  lemma OlderCutPlace(w: string, block: string, start: string, end: string, i: nat, j: nat, s: string, x: int, y: int, r: string)
    requires FirstAt(w, start, 0, i) && i + |start| <= j && OccursAt(w, end, j)
    requires s == With(w, block) && CutsTo(s, start, end, x, y, r)
    ensures i <= y + |end| <= |w| && r == CutAt(s, i, y + |end|)
  {
    FirstInText(w, block, start, i);
    TextOccurs(w, block, end, j);
    CutHere(s, start, end, i, j, x, y, r);
    OneFirst(s, start, 0, i, x);
    FoundNoLater(s, end, i + |start|, j, y);
  }

  lemma FirstInText(w: string, block: string, start: string, i: nat)
    requires FirstAt(w, start, 0, i)
    ensures FirstAt(With(w, block), start, 0, i)
  {
    var rest := "\n\n" + block + "\n";
    assert With(w, block) == w + rest;
    forall k | k <= i
      ensures OccursAt(w + rest, start, k) <==> OccursAt(w, start, k)
    {
      InPrefix(w, rest, start, k);
    }
  }

  lemma CutBeforeBlock(w: string, block: string, i: nat, after: nat)
    requires i <= after <= |w| && block != "" && block[0] != '\n' && !IsSpace(block[|block| - 1])
    ensures |TrimEnd(CutAt(With(w, block), i, after))| >= |block|
  {
    var s := With(w, block);
    assert s[after..] == (w[after..] + "\n\n") + (block + "\n");
    BlockIsKept(s[..i], w[after..] + "\n\n", block, s[after..]);
  }

  lemma FoundNoLater(s: string, end: string, from: nat, j: int, y: int)
    requires FirstAt(s, end, from, y) && from <= j && OccursAt(s, end, j)
    ensures y <= j
  {
  }

  lemma EndsVisibly(block: string, start: string, end: string)
    requires WellFormed(block, start, end) && Marker(start) && Marker(end)
    ensures block != "" && block[0] == start[0] && !IsSpace(block[|block| - 1])
  {
    assert block[|block| - 1] == block[|block| - |end|..][|end| - 1];
  }

  lemma FirstStartMarker(w: string, start: string) returns (i: nat)
    requires !Absent(w, start)
    ensures FirstAt(w, start, 0, i) && OccursAt(w, start, i)
  {
    var x := FirstMarker(w, start, 0);
    i := x;
  }

  /** A start marker in the kept text, closed or not: a block that is longer than the text shows it. */
  lemma LeftoverMarkerShows(base: string, first: string, second: string)
    requires !Absent(Rest(base), START) && WellFormed(first, START, END) && |first| > |Rest(base)|
    ensures !SecondWins(base, first, second)
  {
    TheMarkers();
    var w := Rest(base);
    TrimEndTwice(Cut(base, START, END));
    var once := With(w, first);
    var i := FirstStartMarker(w, START);
    var j := FirstMarker(w, END, i + |START|);
    var x, y := CutInOccurrences(once, START, END);
    if j >= 0 {
      OlderBlockIsCut(w, first, START, END, i, j, once, x, y, Cut(once, START, END));
      PutTellsLength(w, Rest(once), second);
    } else {
      UnclosedCut(w, first, START, END, i, once, x, y, Cut(once, START, END));
      PutTellsLength(TrimEnd(w[..i]), w, second);
    }
  }

  /** Of any two blocks put in a row the first leaves no trace, if and only if the kept text has no start marker. */
  lemma LastBlockWinsExactly(base: string)
    ensures (forall first, second | Rendered(first) && Rendered(second) :: SecondWins(base, first, second))
            <==> Absent(Rest(base), START)
  {
    if Absent(Rest(base), START) {
      forall first, second | Rendered(first) && Rendered(second)
        ensures SecondWins(base, first, second)
      {
        LastBlockWins(base, first, second);
      }
    } else {
      var first := SampleBlock(|Rest(base)|);
      LeftoverMarkerShows(base, first, "");
      assert Rendered(first) && Rendered("");
    }
  }
}
