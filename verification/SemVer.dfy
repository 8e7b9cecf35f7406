/** Precedence of SemVer 2.0.0, section 11, and where `compareVersions` follows it. */
module SemVer {
  import opened Wrappers
  import opened Text
  import opened Numerals
  import opened Versions

  // ---------- Valid versions without build metadata (sections 2 and 9) ----------

  predicate IdentifierChar(c: char) {
    IsDigit(c) || 'A' <= c <= 'Z' || 'a' <= c <= 'z' || c == '-'
  }

  /** Non-empty, of allowed characters, and without leading zeros when it is all digits. */
  predicate ValidIdentifier(id: string) {
    id != "" && (forall c | c in id :: IdentifierChar(c)) && (AllDigits(id) ==> IsNumeral(id))
  }

  predicate ValidCore(parts: seq<string>) {
    |parts| == 3 && IsNumeral(parts[0]) && IsNumeral(parts[1]) && IsNumeral(parts[2])
  }

  predicate ValidIdentifiers(ids: seq<string>) {
    forall id | id in ids :: ValidIdentifier(id)
  }

  predicate ValidVersion(v: string) {
    ValidCore(Split(Base(v), '.')) && (HyphenAt(v) < |v| ==> ValidIdentifiers(Split(Prerelease(v), '.')))
  }

  // ---------- Section 11 ----------

  /** 11.4.1 to 11.4.3: numbers numerically, others in ASCII order, numbers first. */
  function IdentifierPrecedence(a: string, b: string): int {
    if AllDigits(a) && AllDigits(b) then OrderInts(NatOf(a), NatOf(b))
    else if AllDigits(a) then -1
    else if AllDigits(b) then 1
    else OrderTexts(a, b)
  }

  /** 11.2: major, minor and patch numerically. */
  function CorePrecedence(a: seq<string>, b: seq<string>): int
    requires ValidCore(a) && ValidCore(b)
  {
    if NatOf(a[0]) != NatOf(b[0]) then OrderInts(NatOf(a[0]), NatOf(b[0]))
    else if NatOf(a[1]) != NatOf(b[1]) then OrderInts(NatOf(a[1]), NatOf(b[1]))
    else OrderInts(NatOf(a[2]), NatOf(b[2]))
  }

  /** 11.3 and 11.4: a release follows its prereleases; prereleases identifier by identifier. */
  function Precedence(a: string, b: string): int
    requires ValidVersion(a) && ValidVersion(b)
  {
    var core := CorePrecedence(Split(Base(a), '.'), Split(Base(b), '.'));
    if core != 0 then core
    else if HyphenAt(a) == |a| && HyphenAt(b) == |b| then 0
    else if HyphenAt(a) == |a| then 1
    else if HyphenAt(b) == |b| then -1
    else OrderLists(IdentifierPrecedence, Split(Prerelease(a), '.'), Split(Prerelease(b), '.'))
  }

  // ---------- Agreement ----------

  predicate NoNegatives(ids: seq<string>) {
    forall id | id in ids :: !IsNegativeNumeral(id)
  }

  /** No prerelease identifier reads as a negative number, such as `-5`. */
  predicate NoNegativeIds(v: string) {
    NoNegatives(Split(Prerelease(v), '.'))
  }

  lemma NumbersAgree(id: string)
    requires ValidIdentifier(id) && !IsNegativeNumeral(id)
    ensures IsNumber(id) <==> AllDigits(id)
    ensures AllDigits(id) ==> ParseInt(id).value == NatOf(id)
  {
    PrintParse(id);
    if AllDigits(id) {
      ParseDigits(id);
    }
  }

  lemma IdentifiersAgree(a: string, b: string)
    requires ValidIdentifier(a) && ValidIdentifier(b) && !IsNegativeNumeral(a) && !IsNegativeNumeral(b)
    ensures OrderIds(a, b) == IdentifierPrecedence(a, b)
  {
    NumbersAgree(a);
    NumbersAgree(b);
  }

  lemma {:induction false} IdListsAgree(a: seq<string>, b: seq<string>)
    requires ValidIdentifiers(a) && ValidIdentifiers(b) && NoNegatives(a) && NoNegatives(b)
    ensures OrderLists(OrderIds, a, b) == OrderLists(IdentifierPrecedence, a, b)
  {
    if a != [] && b != [] {
      IdentifiersAgree(a[0], b[0]);
      IdListsAgree(a[1..], b[1..]);
    }
  }

  lemma ThreeParts(x: int, y: int, z: int, u: int, v: int, w: int)
    ensures OrderBases([x, y, z], [u, v, w]) ==
            if x != u then OrderInts(x, u) else if y != v then OrderInts(y, v) else OrderInts(z, w)
  {
    assert [x, y, z][1..] == [y, z] && [y, z][1..] == [z] && [z][1..] == [];
    assert [u, v, w][1..] == [v, w] && [v, w][1..] == [w] && [w][1..] == [];
    assert OrderBases([z], [w]) == OrderInts(z, w);
    assert OrderBases([y, z], [v, w]) == if y != v then OrderInts(y, v) else OrderInts(z, w);
  }

  lemma CoreNumbers(parts: seq<string>)
    requires ValidCore(parts)
    ensures BaseParts(parts) == [NatOf(parts[0]), NatOf(parts[1]), NatOf(parts[2])]
  {
    ParseDigits(parts[0]);
    ParseDigits(parts[1]);
    ParseDigits(parts[2]);
  }

  lemma CoresAgree(a: seq<string>, b: seq<string>)
    requires ValidCore(a) && ValidCore(b)
    ensures OrderBases(BaseParts(a), BaseParts(b)) == CorePrecedence(a, b)
  {
    CoreNumbers(a);
    CoreNumbers(b);
    ThreeParts(NatOf(a[0]), NatOf(a[1]), NatOf(a[2]), NatOf(b[0]), NatOf(b[1]), NatOf(b[2]));
  }

  lemma NonEmptyPrerelease(v: string)
    requires HyphenAt(v) < |v| ==> ValidIdentifiers(Split(Prerelease(v), '.'))
    ensures Prerelease(v) == "" <==> HyphenAt(v) == |v|
  {
    assert Split("", '.')[0] == "" && !ValidIdentifier("");
  }

  /** On valid versions without negative-looking identifiers the comparator is section 11. */
  lemma FollowsSection11(a: string, b: string)
    requires ValidVersion(a) && ValidVersion(b) && NoNegativeIds(a) && NoNegativeIds(b)
    ensures Order(a, b) == Precedence(a, b)
  {
    CoresAgree(Split(Base(a), '.'), Split(Base(b), '.'));
    NonEmptyPrerelease(a);
    NonEmptyPrerelease(b);
    if Prerelease(a) != "" && Prerelease(b) != "" {
      IdListsAgree(Split(Prerelease(a), '.'), Split(Prerelease(b), '.'));
    }
  }

  // ---------- The excluded identifiers are exactly the ones that break it ----------

  lemma {:induction false} ListsDiffer(order: (string, string) -> int, common: seq<string>, x: string, xs: seq<string>, y: string)
    requires forall id | id in common :: order(id, id) == 0
    requires order(x, y) != 0
    ensures OrderLists(order, common + [x] + xs, common + [y]) == order(x, y)
  {
    if common == [] {
      assert common + [x] + xs == [x] + xs && common + [y] == [y];
    } else {
      assert (common + [x] + xs)[1..] == common[1..] + [x] + xs && (common + [y])[1..] == common[1..] + [y];
      ListsDiffer(order, common[1..], x, xs, y);
    }
  }

  lemma {:induction false} SelfOrder(s: string)
    ensures OrderTexts(s, s) == 0 && OrderIds(s, s) == 0 && IdentifierPrecedence(s, s) == 0
  {
    TextsOrdered(s, s, s);
  }

  lemma {:induction false} HyphenIs(v: string, i: nat)
    requires i < |v| && v[i] == '-' && '-' !in v[..i]
    ensures HyphenAt(v) == i
  {
    if i > 0 {
      assert v[0] == v[..i][0] && v[1..][..i - 1] == v[..i][1..];
      HyphenIs(v[1..], i - 1);
    }
  }

  lemma Assembled(base: string, pre: string)
    requires '-' !in base
    ensures var v := base + "-" + pre; HyphenAt(v) == |base| && Base(v) == base && Prerelease(v) == pre
  {
    var v := base + "-" + pre;
    assert v[..|base|] == base;
    HyphenIs(v, |base|);
  }

  /** The first identifier that reads as a negative number. */
  function FirstNegative(ids: seq<string>): (i: nat)
    requires !NoNegatives(ids)
    ensures i < |ids| && IsNegativeNumeral(ids[i]) && NoNegatives(ids[..i])
  {
    if IsNegativeNumeral(ids[0]) then 0
    else
      assert ids == [ids[0]] + ids[1..];
      var i := FirstNegative(ids[1..]);
      assert ids[..i + 1] == [ids[0]] + ids[1..][..i];
      i + 1
  }

  lemma ZeroReads()
    ensures AllDigits("0") && ParseInt("0") == Some(0) && IsNumber("0")
    ensures ValidIdentifier("0") && !IsNegativeNumeral("0")
  {
    assert "0"[..0] == "" && NatOf("0") == 0;
    ParseDigits("0");
  }

  lemma NegativeFirst(id: string)
    requires IsNegativeNumeral(id)
    ensures OrderIds(id, "0") == -1 && IdentifierPrecedence(id, "0") == 1
  {
    assert IsNumber(id) && ParseInt(id).value < 0 by {
      PrintParseNegative(id);
    }
    ZeroReads();
    assert !AllDigits(id) by {
      assert id[0] in id && !IsDigit('-');
    }
  }

  lemma SelfOrders(ids: seq<string>)
    ensures forall id | id in ids :: OrderIds(id, id) == 0 && IdentifierPrecedence(id, id) == 0
  {
    forall id | id in ids
      ensures OrderIds(id, id) == 0 && IdentifierPrecedence(id, id) == 0
    {
      SelfOrder(id);
    }
  }

  lemma SameCore(v: string, w: string)
    requires ValidCore(Split(Base(v), '.')) && Base(v) == Base(w)
    ensures OrderBases(BaseParts(Split(Base(v), '.')), BaseParts(Split(Base(w), '.'))) == 0
  {
    CoresAgree(Split(Base(v), '.'), Split(Base(w), '.'));
  }

  lemma KeptIsValid(ids: seq<string>, i: nat)
    requires ValidIdentifiers(ids) && i < |ids| && NoNegatives(ids[..i])
    ensures ValidIdentifiers(ids[..i] + ["0"]) && NoNegatives(ids[..i] + ["0"])
  {
    ZeroReads();
    assert forall id | id in ids[..i] + ["0"] :: id in ids[..i] || id == "0";
  }

  lemma ZeroInstead(ids: seq<string>, i: nat)
    requires ValidIdentifiers(ids) && i < |ids| && IsNegativeNumeral(ids[i]) && NoNegatives(ids[..i])
    ensures OrderLists(OrderIds, ids, ids[..i] + ["0"]) == -1
    ensures OrderLists(IdentifierPrecedence, ids, ids[..i] + ["0"]) == 1
  {
    NegativeFirst(ids[i]);
    SelfOrders(ids[..i]);
    ListsDiffer(OrderIds, ids[..i], ids[i], ids[i + 1..], "0");
    ListsDiffer(IdentifierPrecedence, ids[..i], ids[i], ids[i + 1..], "0");
    AroundIndex(ids, i);
  }

  lemma AroundIndex(ids: seq<string>, i: nat)
    requires i < |ids|
    ensures ids[..i] + [ids[i]] + ids[i + 1..] == ids
  {
  }

  lemma NoDots(ids: seq<string>)
    requires ValidIdentifiers(ids)
    ensures forall id | id in ids :: '.' !in id
  {
    assert !IdentifierChar('.');
  }

  /** Each version with a negative-looking identifier is ordered wrongly against some unproblematic version. */
  lemma NegativeIdsBreakIt(a: string) returns (b: string)
    requires ValidVersion(a) && !NoNegativeIds(a)
    ensures ValidVersion(b) && NoNegativeIds(b) && Order(a, b) == -1 && Precedence(a, b) == 1
  {
    assert NoNegatives(Split("", '.'));
    var ids := Split(Prerelease(a), '.');
    var i := FirstNegative(ids);
    var kept := ids[..i] + ["0"];
    ZeroInstead(ids, i);
    KeptIsValid(ids, i);
    NoDots(kept);
    SplitJoin(kept, '.');
    assert ['.'] == ".";
    Assembled(Base(a), JoinWith(kept, "."));
    b := Base(a) + "-" + JoinWith(kept, ".");
    SameCore(a, b);
    CoresAgree(Split(Base(a), '.'), Split(Base(b), '.'));
    NonEmptyPrerelease(a);
    NonEmptyPrerelease(b);
  }
}
