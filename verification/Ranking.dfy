/** Aggregating pages of retrieval results into one ranking. */
module Ranking {
  import opened Wrappers
  import opened Sorting
  import opened Text
  import opened Versions
  import opened Numerals

  datatype Intent = Exact | Semantic | Structural | External

  datatype Candidate = Candidate(
    path: string, line: Option<int>, baseScore: Option<real>, exactMatch: bool, semanticScore: Option<real>,
    structuralMatch: bool, externalFreshness: Option<real>, sourceReference: string, assemblyOnly: bool)

  datatype Ranked = Ranked(candidate: Candidate, score: real, reasons: seq<string>)

  datatype Page = Page(page: int, candidates: seq<Candidate>)

  datatype Result = Result(ranked: seq<Ranked>, total: nat)

  /** The path as the host normalises it: separators, composed characters and case. */
  type Normalizer = string -> string

  // ---------- Scores ----------

  function Clamp(value: Option<real>, min: real, max: real): (r: real)
    requires min <= max
    ensures min <= r <= max
  {
    match value
    case None => min
    case Some(v) => if v < min then min else if v > max then max else v
  }

  function Scored(c: Candidate, intents: set<Intent>): Ranked {
    var exact := Exact in intents && c.exactMatch;
    var semantic := Semantic in intents && c.semanticScore.Some?;
    var structural := Structural in intents && c.structuralMatch;
    var external := External in intents && c.externalFreshness.Some?;
    var source := c.sourceReference != "";
    var score := Clamp(c.baseScore, -1000.0, 1000.0)
                 + (if exact then 100.0 else 0.0)
                 + (if semantic then Clamp(c.semanticScore, 0.0, 1.0) * 40.0 else 0.0)
                 + (if structural then 60.0 else 0.0)
                 + (if external then Clamp(c.externalFreshness, 0.0, 1.0) * 30.0 else 0.0)
                 + (if source then 10.0 else 0.0)
                 - (if c.assemblyOnly then (if Structural in intents then 30.0 else 10.0) else 0.0);
    var reasons := (if exact then ["exact-match"] else [])
                   + (if semantic then ["semantic-candidate"] else [])
                   + (if structural then ["structural-match"] else [])
                   + (if external then ["external-freshness-candidate"] else [])
                   + (if source then ["source-reference-present"] else [])
                   + (if c.assemblyOnly then ["assembly-only-demotion"] else []);
    Ranked(c, score, reasons)
  }

  function AllScored(cs: seq<Candidate>, intents: set<Intent>): (r: seq<Ranked>)
    ensures |r| == |cs| && forall i | 0 <= i < |cs| :: r[i] == Scored(cs[i], intents)
  {
    seq(|cs|, i requires 0 <= i < |cs| => Scored(cs[i], intents))
  }

  // ---------- Order ----------

  function Line(c: Candidate): int {
    if c.line.Some? then c.line.value else 0
  }

  /** Higher scores first, then paths by code point, then lines. */
  function CompareRanked(norm: Normalizer, a: Ranked, b: Ranked): int {
    if a.score != b.score then (if a.score > b.score then -1 else 1)
    else
      var byPath := OrderTexts(norm(a.candidate.path), norm(b.candidate.path));
      if byPath != 0 then byPath else OrderInts(Line(a.candidate), Line(b.candidate))
  }

  function ByRank(norm: Normalizer): (Ranked, Ranked) -> int {
    (a, b) => CompareRanked(norm, a, b)
  }

  function TopK(topK: Option<int>, n: nat): (k: nat)
    ensures k <= n
  {
    var wanted := if topK.Some? then topK.value else n;
    if wanted < 0 then 0 else if wanted > n then n else wanted
  }

  function Rank(norm: Normalizer, cs: seq<Candidate>, intents: set<Intent>, topK: Option<int>): Result {
    var sorted := Sort(ByRank(norm), AllScored(cs, intents));
    Result(sorted[..TopK(topK, |sorted|)], |cs|)
  }

  // ---------- Aggregation ----------

  function Key(norm: Normalizer, c: Candidate): string {
    norm(c.path) + ":" + Print(Line(c))
  }

  function ByPage(a: Page, b: Page): int {
    OrderInts(a.page, b.page)
  }

  function Flat(pages: seq<Page>): seq<Candidate> {
    if pages == [] then [] else Flat(pages[..|pages| - 1]) + pages[|pages| - 1].candidates
  }

  function KeysOf(norm: Normalizer, cs: seq<Candidate>): set<string> {
    set c | c in cs :: Key(norm, c)
  }

  /** Each key's first candidate, in order. */
  function Unique(norm: Normalizer, cs: seq<Candidate>): seq<Candidate> {
    if cs == [] then []
    else
      var earlier, last := Unique(norm, cs[..|cs| - 1]), cs[|cs| - 1];
      if Key(norm, last) in KeysOf(norm, earlier) then earlier else earlier + [last]
  }

  function Aggregated(norm: Normalizer, pages: seq<Page>, intents: set<Intent>, topK: Option<int>): Result {
    Rank(norm, Unique(norm, Flat(Sort(ByPage, pages))), intents, topK)
  }

  lemma UniqueAppend(norm: Normalizer, cs: seq<Candidate>, c: Candidate)
    ensures Unique(norm, cs + [c]) ==
            if Key(norm, c) in KeysOf(norm, Unique(norm, cs)) then Unique(norm, cs) else Unique(norm, cs) + [c]
  {
    assert (cs + [c])[..|cs|] == cs;
  }

  lemma UniqueOneMore(norm: Normalizer, cs: seq<Candidate>, page: seq<Candidate>, i: nat)
    requires i < |page|
    ensures var earlier := Unique(norm, cs + page[..i]);
            Unique(norm, cs + page[..i + 1]) ==
            if Key(norm, page[i]) in KeysOf(norm, earlier) then earlier else earlier + [page[i]]
  {
    UniqueAppend(norm, cs + page[..i], page[i]);
    assert cs + page[..i + 1] == (cs + page[..i]) + [page[i]];
  }

  /** Adds the candidates of one page to the insertion-ordered map `unique`. */
  method AddPage(norm: Normalizer, ghost cs: seq<Candidate>, page: seq<Candidate>, unique: seq<Candidate>)
    returns (r: seq<Candidate>)
    requires unique == Unique(norm, cs)
    ensures r == Unique(norm, cs + page)
  {
    r := unique;
    assert cs + page[..0] == cs;
    for i := 0 to |page|
      invariant r == Unique(norm, cs + page[..i])
    {
      UniqueOneMore(norm, cs, page, i);
      if Key(norm, page[i]) !in KeysOf(norm, r) {
        r := r + [page[i]];
      }
    }
    assert page[..|page|] == page;
  }

  /** Goes through the pages in order. */
  method CollectUnique(norm: Normalizer, ordered: seq<Page>) returns (unique: seq<Candidate>)
    ensures unique == Unique(norm, Flat(ordered))
  {
    unique := [];
    for i := 0 to |ordered|
      invariant unique == Unique(norm, Flat(ordered[..i]))
    {
      assert ordered[..i + 1][..i] == ordered[..i];
      unique := AddPage(norm, Flat(ordered[..i]), ordered[i].candidates, unique);
    }
    assert ordered[..|ordered|] == ordered;
  }

  method PagedCallerAggregation(norm: Normalizer, pages: seq<Page>, intents: Option<set<Intent>>, topK: Option<int>)
    returns (r: Result)
    ensures r == Aggregated(norm, pages, if intents.Some? then intents.value else {Structural}, topK)
  {
    var unique := CollectUnique(norm, Sort(ByPage, pages));
    r := Rank(norm, unique, if intents.Some? then intents.value else {Structural}, topK);
  }

  // ---------- The pages list may be permuted ----------

  predicate DistinctPages(pages: seq<Page>) {
    forall i, j | 0 <= i < j < |pages| :: pages[i].page != pages[j].page
  }

  lemma PagesOrdered()
    ensures TotalPreorder(ByPage)
  {
  }

  /** With distinct page numbers the result does not depend on the order in which pages are listed. */
  lemma PageOrderIsIrrelevant(norm: Normalizer, pages: seq<Page>, other: seq<Page>, intents: set<Intent>, topK: Option<int>)
    requires DistinctPages(pages) && multiset(pages) == multiset(other)
    ensures Aggregated(norm, pages, intents, topK) == Aggregated(norm, other, intents, topK)
  {
    PagesOrdered();
    SortForgetsArrangement(ByPage, pages, other);
  }

  // ---------- Keys ----------

  lemma ColonSplits(a: string, m: string, b: string, n: string)
    requires ':' !in m && ':' !in n && a + [':'] + m == b + [':'] + n
    ensures a == b && m == n
  {
    AfterLastOf(a, m, ':');
    AfterLastOf(b, n, ':');
    assert (a + [':'] + m)[..|a|] == a && (b + [':'] + n)[..|b|] == b;
  }

  lemma PrintedChars(n: int)
    ensures ':' !in Print(n)
  {
    PrintedShape(n);
    assert !IsDigit(':');
    assert n < 0 ==> Print(n) == ['-'] + Print(n)[1..];
  }

  lemma DigitsInjective(m: nat, n: nat)
    requires Digits(m) == Digits(n)
    ensures m == n
  {
    DigitsRoundTrip(m);
    DigitsRoundTrip(n);
  }

  lemma SignShows(n: int)
    ensures Print(n) != "" && (Print(n)[0] == '-' <==> n < 0)
  {
    PrintedShape(n);
    assert n >= 0 ==> Print(n)[0] in Print(n) && !IsDigit('-');
  }

  lemma PrintInjective(m: int, n: int)
    requires Print(m) == Print(n)
    ensures m == n
  {
    SignShows(m);
    SignShows(n);
    if m >= 0 {
      DigitsInjective(m, n);
    } else {
      assert ("-" + Digits(-m))[1..] == Digits(-m) && ("-" + Digits(-n))[1..] == Digits(-n);
      DigitsInjective(-m, -n);
    }
  }

  /** Two candidates share a key exactly when they share the normalised path and the line. */
  lemma KeyIsExact(norm: Normalizer, a: Candidate, b: Candidate)
    ensures Key(norm, a) == Key(norm, b) <==> norm(a.path) == norm(b.path) && Line(a) == Line(b)
  {
    PrintedChars(Line(a));
    PrintedChars(Line(b));
    if Key(norm, a) == Key(norm, b) {
      assert ":" == [':'];
      ColonSplits(norm(a.path), Print(Line(a)), norm(b.path), Print(Line(b)));
      PrintInjective(Line(a), Line(b));
    }
  }

  // ---------- What deduplication keeps ----------

  predicate DistinctCandidates(norm: Normalizer, cs: seq<Candidate>) {
    forall i, j | 0 <= i < j < |cs| :: Key(norm, cs[i]) != Key(norm, cs[j])
  }

  lemma KeysOfOneMore(norm: Normalizer, cs: seq<Candidate>, c: Candidate)
    ensures KeysOf(norm, cs + [c]) == KeysOf(norm, cs) + {Key(norm, c)}
  {
    assert forall x :: x in cs + [c] <==> x in cs || x == c;
  }

  lemma DistinctOneMore(norm: Normalizer, cs: seq<Candidate>, c: Candidate)
    requires DistinctCandidates(norm, cs) && Key(norm, c) !in KeysOf(norm, cs)
    ensures DistinctCandidates(norm, cs + [c])
  {
    forall i | 0 <= i < |cs|
      ensures Key(norm, cs[i]) != Key(norm, c)
    {
      assert Key(norm, cs[i]) in KeysOf(norm, cs);
    }
  }

  /** One candidate for each key that occurs. */
  lemma {:induction false} UniqueKeys(norm: Normalizer, cs: seq<Candidate>)
    ensures DistinctCandidates(norm, Unique(norm, cs)) && KeysOf(norm, Unique(norm, cs)) == KeysOf(norm, cs)
  {
    if cs != [] {
      var init, last := cs[..|cs| - 1], cs[|cs| - 1];
      UniqueKeys(norm, init);
      assert cs == init + [last];
      KeysOfOneMore(norm, init, last);
      if Key(norm, last) !in KeysOf(norm, Unique(norm, init)) {
        DistinctOneMore(norm, Unique(norm, init), last);
        KeysOfOneMore(norm, Unique(norm, init), last);
      }
    }
  }

  /** Is `u` the first candidate of its key? */
  predicate IsFirst(norm: Normalizer, cs: seq<Candidate>, u: Candidate) {
    exists i | 0 <= i < |cs| :: cs[i] == u && Key(norm, u) !in KeysOf(norm, cs[..i])
  }

  lemma FirstStays(norm: Normalizer, cs: seq<Candidate>, u: Candidate)
    requires cs != [] && IsFirst(norm, cs[..|cs| - 1], u)
    ensures IsFirst(norm, cs, u)
  {
    var init := cs[..|cs| - 1];
    var i :| 0 <= i < |init| && init[i] == u && Key(norm, u) !in KeysOf(norm, init[..i]);
    assert cs[i] == u && cs[..i] == init[..i];
  }

  /** The candidate that is kept for a key is its first one. */
  lemma {:induction false} UniqueKeepsFirsts(norm: Normalizer, cs: seq<Candidate>)
    ensures forall u | u in Unique(norm, cs) :: IsFirst(norm, cs, u)
  {
    if cs != [] {
      var n := |cs| - 1;
      UniqueKeepsFirsts(norm, cs[..n]);
      UniqueKeys(norm, cs[..n]);
      forall u | u in Unique(norm, cs)
        ensures IsFirst(norm, cs, u)
      {
        if u in Unique(norm, cs[..n]) {
          FirstStays(norm, cs, u);
        } else {
          assert cs[n] == u && Key(norm, u) !in KeysOf(norm, cs[..n]);
        }
      }
    }
  }

  // ---------- The comparator ----------

  lemma RanksOrdered(norm: Normalizer, a: Ranked, b: Ranked, c: Ranked)
    ensures CompareRanked(norm, a, b) == -CompareRanked(norm, b, a)
    ensures CompareRanked(norm, a, b) <= 0 && CompareRanked(norm, b, c) <= 0 ==>
              CompareRanked(norm, a, c) <= 0
              && (CompareRanked(norm, a, c) == 0 ==> CompareRanked(norm, a, b) == 0 && CompareRanked(norm, b, c) == 0)
  {
    var x, y, z := norm(a.candidate.path), norm(b.candidate.path), norm(c.candidate.path);
    TextsOrdered(x, y, z);
    TextsOrdered(y, z, x);
    TextsOrdered(x, z, y);
  }

  lemma RankIsTotalPreorder(norm: Normalizer)
    ensures TotalPreorder(ByRank(norm))
  {
    forall a, b
      ensures ByRank(norm)(a, b) == -ByRank(norm)(b, a)
    {
      RanksOrdered(norm, a, b, b);
    }
    forall a, b, c
      ensures ByRank(norm)(a, b) <= 0 && ByRank(norm)(b, c) <= 0 ==>
                ByRank(norm)(a, c) <= 0
                && (ByRank(norm)(a, c) == 0 ==> ByRank(norm)(a, b) == 0 && ByRank(norm)(b, c) == 0)
    {
      RanksOrdered(norm, a, b, c);
    }
  }

  /** The comparator never ties candidates with different keys. */
  lemma TiesShareTheKey(norm: Normalizer, a: Ranked, b: Ranked)
    requires CompareRanked(norm, a, b) == 0
    ensures Key(norm, a.candidate) == Key(norm, b.candidate)
  {
    TextsOrdered(norm(a.candidate.path), norm(b.candidate.path), "");
  }

  lemma TiedIndices(norm: Normalizer, cs: seq<Candidate>, i: nat, j: nat)
    requires DistinctCandidates(norm, cs) && i < |cs| && j < |cs| && Key(norm, cs[i]) == Key(norm, cs[j])
    ensures i == j
  {
  }

  lemma ScoredTellApart(norm: Normalizer, cs: seq<Candidate>, intents: set<Intent>)
    requires DistinctCandidates(norm, cs)
    ensures TellsApart(ByRank(norm), AllScored(cs, intents))
  {
    var scored := AllScored(cs, intents);
    forall i, j | 0 <= i < |scored| && 0 <= j < |scored| && CompareRanked(norm, scored[i], scored[j]) == 0
      ensures scored[i] == scored[j]
    {
      TiesShareTheKey(norm, scored[i], scored[j]);
      TiedIndices(norm, cs, i, j);
    }
  }

  lemma {:induction false} ScoredContents(cs: seq<Candidate>, intents: set<Intent>, r: Ranked)
    ensures multiset(AllScored(cs, intents))[r] == if r == Scored(r.candidate, intents) then multiset(cs)[r.candidate] else 0
  {
    if cs == [] {
      assert AllScored(cs, intents) == [];
    } else {
      var init, last := cs[..|cs| - 1], cs[|cs| - 1];
      ScoredContents(init, intents, r);
      assert cs == init + [last] && AllScored(cs, intents) == AllScored(init, intents) + [Scored(last, intents)];
      assert Scored(last, intents).candidate == last;
    }
  }

  /** The ranking of candidates with distinct keys does not depend on the order in which they come. */
  lemma CandidateOrderIsIrrelevant(norm: Normalizer, cs: seq<Candidate>, other: seq<Candidate>, intents: set<Intent>,
                                   topK: Option<int>)
    requires DistinctCandidates(norm, cs) && multiset(cs) == multiset(other)
    ensures Rank(norm, cs, intents, topK) == Rank(norm, other, intents, topK)
  {
    RankIsTotalPreorder(norm);
    ScoredTellApart(norm, cs, intents);
    forall r
      ensures multiset(AllScored(cs, intents))[r] == multiset(AllScored(other, intents))[r]
    {
      ScoredContents(cs, intents, r);
      ScoredContents(other, intents, r);
    }
    assert multiset(AllScored(cs, intents)) == multiset(AllScored(other, intents));
    SortForgetsArrangement(ByRank(norm), AllScored(cs, intents), AllScored(other, intents));
    assert |cs| == |multiset(cs)| == |multiset(other)| == |other|;
  }

  /**
   The aggregation ranks each key once, returns the requested number at most, and everything it returns comes
   strictly before everything it cuts off.
   */
  lemma KeptPrecedeDropped(norm: Normalizer, pages: seq<Page>, intents: set<Intent>, topK: Option<int>) returns (all: seq<Ranked>)
    ensures var unique, r := Unique(norm, Flat(Sort(ByPage, pages))), Aggregated(norm, pages, intents, topK);
            && multiset(all) == multiset(AllScored(unique, intents)) && r.total == |all|
            && r.ranked == all[..TopK(topK, |all|)]
            && forall i, j | 0 <= i < j < |all| :: CompareRanked(norm, all[i], all[j]) < 0
  {
    var unique := Unique(norm, Flat(Sort(ByPage, pages)));
    var scored := AllScored(unique, intents);
    all := Sort(ByRank(norm), scored);
    RankIsTotalPreorder(norm);
    UniqueKeys(norm, Flat(Sort(ByPage, pages)));
    SortSorts(ByRank(norm), scored);
    SortContents(ByRank(norm), scored);
    assert |all| == |multiset(all)| == |multiset(scored)| == |scored|;
    StrictlySorted(norm, unique, intents);
  }

  lemma StrictlySorted(norm: Normalizer, cs: seq<Candidate>, intents: set<Intent>)
    requires DistinctCandidates(norm, cs) && TotalPreorder(ByRank(norm))
    ensures var all := Sort(ByRank(norm), AllScored(cs, intents));
            forall i, j | 0 <= i < j < |all| :: CompareRanked(norm, all[i], all[j]) < 0
  {
    var scored := AllScored(cs, intents);
    var all := Sort(ByRank(norm), scored);
    SortSorts(ByRank(norm), scored);
    SortContents(ByRank(norm), scored);
    forall i, j | 0 <= i < j < |all|
      ensures CompareRanked(norm, all[i], all[j]) < 0
    {
      assert ByRank(norm)(all[i], all[j]) <= 0;
      if CompareRanked(norm, all[i], all[j]) == 0 {
        TiesShareTheKey(norm, all[i], all[j]);
        TwoWithOneKey(norm, cs, intents, all, i, j);
        assert false;
      }
    }
  }

  lemma TwoWithOneKey(norm: Normalizer, cs: seq<Candidate>, intents: set<Intent>, all: seq<Ranked>, i: nat, j: nat)
    requires DistinctCandidates(norm, cs) && multiset(all) == multiset(AllScored(cs, intents)) && i < j < |all|
    ensures Key(norm, all[i].candidate) != Key(norm, all[j].candidate)
  {
    var scored := AllScored(cs, intents);
    assert all[i] in multiset(scored) && all[j] in multiset(scored);
    var a :| 0 <= a < |cs| && scored[a] == all[i];
    var b :| 0 <= b < |cs| && scored[b] == all[j];
    if a == b {
      OnceEach(scored, a);
      TwiceIn(all, i, j);
    }
  }

  lemma TwiceIn<T>(s: seq<T>, i: nat, j: nat)
    requires i < j < |s| && s[i] == s[j]
    ensures multiset(s)[s[i]] >= 2
  {
    assert s == s[..j] + [s[j]] + s[j + 1..];
    assert s[i] in multiset(s[..j]);
  }

  lemma OnceEach(s: seq<Ranked>, i: nat)
    requires i < |s| && forall a, b | 0 <= a < b < |s| :: s[a] != s[b]
    ensures multiset(s)[s[i]] == 1
  {
    assert s == s[..i] + [s[i]] + s[i + 1..];
    assert s[i] !in s[..i] && s[i] !in s[i + 1..];
  }

  // ---------- Why page numbers must be distinct ----------

  /** Two pages with one number and different candidates for one key: their order in the list decides. */
  lemma SamePageNumberDecides(norm: Normalizer, a: Candidate, b: Candidate, page: int, intents: set<Intent>)
    requires Key(norm, a) == Key(norm, b) && a != b
    ensures Aggregated(norm, [Page(page, [a]), Page(page, [b])], intents, None)
            != Aggregated(norm, [Page(page, [b]), Page(page, [a])], intents, None)
  {
    FirstWins(norm, a, b, page, intents);
    FirstWins(norm, b, a, page, intents);
  }

  lemma TwoPages(p: Page, q: Page)
    requires p.page == q.page && |p.candidates| == |q.candidates| == 1
    ensures Flat(Sort(ByPage, [p, q])) == [p.candidates[0], q.candidates[0]]
  {
    assert [p, q][1..] == [q] && [q][1..] == [] && Sort(ByPage, [q]) == [q];
    assert Sort(ByPage, [p, q]) == [p, q];
    assert [p, q][..1] == [p] && [p][..0] == [] && Flat([p]) == p.candidates;
  }

  lemma TwoCandidates(norm: Normalizer, a: Candidate, b: Candidate)
    requires Key(norm, a) == Key(norm, b)
    ensures Unique(norm, [a, b]) == [a]
  {
    assert [a, b][..1] == [a] && [a][..0] == [] && Unique(norm, [a]) == [a];
    assert Key(norm, b) in KeysOf(norm, [a]) by {
      assert a in [a];
    }
  }

  lemma FirstWins(norm: Normalizer, a: Candidate, b: Candidate, page: int, intents: set<Intent>)
    requires Key(norm, a) == Key(norm, b)
    ensures Aggregated(norm, [Page(page, [a]), Page(page, [b])], intents, None).ranked == [Scored(a, intents)]
  {
    TwoPages(Page(page, [a]), Page(page, [b]));
    TwoCandidates(norm, a, b);
    OneRanked(norm, a, intents);
  }

  lemma OneRanked(norm: Normalizer, a: Candidate, intents: set<Intent>)
    ensures Rank(norm, [a], intents, None).ranked == [Scored(a, intents)]
  {
    var s := AllScored([a], intents);
    assert s == [Scored(a, intents)] && s[1..] == [];
    assert Sort(ByRank(norm), s) == s;
  }
}
