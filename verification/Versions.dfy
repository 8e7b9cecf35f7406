/** The version comparator behind update and migration windows. */
module Versions {
  import opened Wrappers
  import opened Text
  import opened Numerals
  import opened Sorting

  // ---------- What the comparator looks at ----------

  function HyphenAt(v: string): (i: nat)
    ensures i <= |v| && '-' !in v[..i] && (i < |v| ==> v[i] == '-')
  {
    if v == "" || v[0] == '-' then 0
    else
      var i := HyphenAt(v[1..]);
      assert v[..i + 1] == [v[0]] + v[1..][..i];
      i + 1
  }

  function Base(v: string): string {
    v[..HyphenAt(v)]
  }

  /** The prerelease text; an empty one counts as none. */
  function Prerelease(v: string): string {
    if HyphenAt(v) < |v| then v[HyphenAt(v) + 1..] else ""
  }

  /** `parseInt(part, 10) || 0` */
  function BasePart(part: string): int {
    match ParseInt(part)
    case Some(n) => n
    case None => 0
  }

  function BaseParts(parts: seq<string>): (r: seq<int>)
    ensures |r| == |parts| && forall i | 0 <= i < |r| :: r[i] == BasePart(parts[i])
  {
    seq(|parts|, i requires 0 <= i < |parts| => BasePart(parts[i]))
  }

  predicate IsNumber(id: string) {
    ParseInt(id).Some? && Print(ParseInt(id).value) == id
  }

  // ---------- The order ----------

  function OrderInts(a: int, b: int): int {
    if a < b then -1 else if a > b then 1 else 0
  }

  function OrderTexts(a: string, b: string): int {
    if a == "" && b == "" then 0
    else if a == "" then -1
    else if b == "" then 1
    else if a[0] != b[0] then OrderInts(a[0] as int, b[0] as int)
    else OrderTexts(a[1..], b[1..])
  }

  function OrderIds(a: string, b: string): int {
    if IsNumber(a) && !IsNumber(b) then -1
    else if !IsNumber(a) && IsNumber(b) then 1
    else if IsNumber(a) then OrderInts(ParseInt(a).value, ParseInt(b).value)
    else OrderTexts(a, b)
  }

  /** Missing base parts count as zero. */
  function OrderBases(a: seq<int>, b: seq<int>): int
    decreases |a| + |b|
  {
    if a == [] && b == [] then 0
    else
      var x, y := if a == [] then 0 else a[0], if b == [] then 0 else b[0];
      if x != y then OrderInts(x, y)
      else OrderBases(if a == [] then [] else a[1..], if b == [] then [] else b[1..])
  }

  /** A list of identifiers comes before its extensions. */
  function OrderLists(order: (string, string) -> int, a: seq<string>, b: seq<string>): int {
    if a == [] && b == [] then 0
    else if a == [] then -1
    else if b == [] then 1
    else if order(a[0], b[0]) != 0 then order(a[0], b[0])
    else OrderLists(order, a[1..], b[1..])
  }

  function OrderPrereleases(a: string, b: string): int {
    if a == "" && b != "" then 1
    else if a != "" && b == "" then -1
    else if a == "" then 0
    else OrderLists(OrderIds, Split(a, '.'), Split(b, '.'))
  }

  function Order(a: string, b: string): int {
    var base := OrderBases(BaseParts(Split(Base(a), '.')), BaseParts(Split(Base(b), '.')));
    if base != 0 then base else OrderPrereleases(Prerelease(a), Prerelease(b))
  }

  // ---------- The two loops ----------

  function Tail<T>(s: seq<T>, i: nat): seq<T> {
    if i <= |s| then s[i..] else []
  }

  method CompareBases(a: seq<int>, b: seq<int>) returns (r: int)
    ensures r == OrderBases(a, b)
  {
    var n := if |a| > |b| then |a| else |b|;
    for i := 0 to n
      invariant OrderBases(Tail(a, i), Tail(b, i)) == OrderBases(a, b)
    {
      var x, y := if i < |a| then a[i] else 0, if i < |b| then b[i] else 0;
      if x < y { return -1; }
      if x > y { return 1; }
    }
    return 0;
  }

  method ComparePrereleases(a: seq<string>, b: seq<string>) returns (r: int)
    ensures r == OrderLists(OrderIds, a, b)
  {
    var n := if |a| > |b| then |a| else |b|;
    for i := 0 to n
      invariant i <= |a| && i <= |b|
      invariant OrderLists(OrderIds, a[i..], b[i..]) == OrderLists(OrderIds, a, b)
    {
      if i == |a| { return -1; }
      if i == |b| { return 1; }
      var aIsNum, bIsNum := IsNumber(a[i]), IsNumber(b[i]);
      if aIsNum && !bIsNum { return -1; }
      if !aIsNum && bIsNum { return 1; }
      var order := if aIsNum then OrderInts(ParseInt(a[i]).value, ParseInt(b[i]).value) else OrderTexts(a[i], b[i]);
      if order != 0 { return order; }
    }
    return 0;
  }

  method CompareVersions(a: string, b: string) returns (r: int)
    ensures r == Order(a, b)
  {
    r := CompareBases(BaseParts(Split(Base(a), '.')), BaseParts(Split(Base(b), '.')));
    if r != 0 { return; }
    var aPre, bPre := Prerelease(a), Prerelease(b);
    if aPre == "" && bPre != "" { return 1; }
    if aPre != "" && bPre == "" { return -1; }
    if aPre == "" { return 0; }
    r := ComparePrereleases(Split(aPre, '.'), Split(bPre, '.'));
  }

  // ---------- Total preorder ----------

  lemma {:induction false} TextsOrdered(a: string, b: string, c: string)
    ensures OrderTexts(a, b) == -OrderTexts(b, a) && (OrderTexts(a, b) == 0 <==> a == b)
    ensures OrderTexts(a, b) <= 0 && OrderTexts(b, c) <= 0 ==> OrderTexts(a, c) <= 0
  {
    if a != "" && b != "" && c != "" {
      TextsOrdered(a[1..], b[1..], c[1..]);
      assert a == [a[0]] + a[1..] && b == [b[0]] + b[1..];
    } else if a != "" && b != "" {
      TextsOrdered(a[1..], b[1..], "");
      assert a == [a[0]] + a[1..] && b == [b[0]] + b[1..];
    }
  }

  lemma IdsOrdered(a: string, b: string, c: string)
    ensures OrderIds(a, b) == -OrderIds(b, a)
    ensures OrderIds(a, b) <= 0 && OrderIds(b, c) <= 0 ==>
              OrderIds(a, c) <= 0 && (OrderIds(a, c) == 0 ==> OrderIds(a, b) == 0 && OrderIds(b, c) == 0)
  {
    TextsOrdered(a, b, c);
    TextsOrdered(b, c, a);
    TextsOrdered(a, c, b);
  }

  lemma IdsTotalPreorder()
    ensures TotalPreorder(OrderIds)
  {
    forall a, b
      ensures OrderIds(a, b) == -OrderIds(b, a)
    {
      IdsOrdered(a, b, b);
    }
    forall a, b, c
      ensures OrderIds(a, b) <= 0 && OrderIds(b, c) <= 0 ==>
                OrderIds(a, c) <= 0 && (OrderIds(a, c) == 0 ==> OrderIds(a, b) == 0 && OrderIds(b, c) == 0)
    {
      IdsOrdered(a, b, c);
    }
  }

  lemma {:induction false} ListsOrdered(order: (string, string) -> int, a: seq<string>, b: seq<string>, c: seq<string>)
    requires TotalPreorder(order)
    ensures OrderLists(order, a, b) == -OrderLists(order, b, a)
    ensures OrderLists(order, a, b) <= 0 && OrderLists(order, b, c) <= 0 ==>
              OrderLists(order, a, c) <= 0
              && (OrderLists(order, a, c) == 0 ==> OrderLists(order, a, b) == 0 && OrderLists(order, b, c) == 0)
  {
    if a != [] && b != [] {
      assert order(a[0], b[0]) == -order(b[0], a[0]);
      ListsOrdered(order, a[1..], b[1..], if c == [] then [] else c[1..]);
      if c != [] {
        assert order(a[0], c[0]) == -order(c[0], a[0]) && order(b[0], c[0]) == -order(c[0], b[0]);
        assert order(a[0], b[0]) <= 0 && order(b[0], c[0]) <= 0 ==> order(a[0], c[0]) <= 0;
        assert order(c[0], a[0]) <= 0 && order(a[0], b[0]) <= 0 ==> order(c[0], b[0]) <= 0;
        assert order(b[0], c[0]) <= 0 && order(c[0], a[0]) <= 0 ==> order(b[0], a[0]) <= 0;
      }
    }
  }

  lemma {:induction false} BasesOrdered(a: seq<int>, b: seq<int>, c: seq<int>)
    ensures OrderBases(a, b) == -OrderBases(b, a)
    ensures OrderBases(a, b) <= 0 && OrderBases(b, c) <= 0 ==>
              OrderBases(a, c) <= 0 && (OrderBases(a, c) == 0 ==> OrderBases(a, b) == 0 && OrderBases(b, c) == 0)
    decreases |a| + |b| + |c|
  {
    if a != [] || b != [] || c != [] {
      BasesOrdered(if a == [] then [] else a[1..], if b == [] then [] else b[1..], if c == [] then [] else c[1..]);
    }
  }

  /** `compareVersions` is a total preorder on all texts, whether or not they are versions. */
  lemma CompareIsTotalPreorder()
    ensures TotalPreorder(Order)
  {
    IdsTotalPreorder();
    forall a, b, c
      ensures Order(a, b) == -Order(b, a)
      ensures Order(a, b) <= 0 && Order(b, c) <= 0 ==>
                Order(a, c) <= 0 && (Order(a, c) == 0 ==> Order(a, b) == 0 && Order(b, c) == 0)
    {
      OrderTransitive(a, b, c);
    }
  }

  lemma OrderTransitive(a: string, b: string, c: string)
    ensures Order(a, b) == -Order(b, a)
    ensures Order(a, b) <= 0 && Order(b, c) <= 0 ==>
              Order(a, c) <= 0 && (Order(a, c) == 0 ==> Order(a, b) == 0 && Order(b, c) == 0)
  {
    IdsTotalPreorder();
    var x, y, z := BaseParts(Split(Base(a), '.')), BaseParts(Split(Base(b), '.')), BaseParts(Split(Base(c), '.'));
    BasesOrdered(x, y, z);
    BasesOrdered(y, z, x);
    BasesOrdered(z, x, y);
    var p, q, r := Split(Prerelease(a), '.'), Split(Prerelease(b), '.'), Split(Prerelease(c), '.');
    ListsOrdered(OrderIds, p, q, r);
    ListsOrdered(OrderIds, q, r, p);
    ListsOrdered(OrderIds, r, p, q);
  }
}
