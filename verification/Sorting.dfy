/** The host's sort, which is stable, and what any stable sort must return. */
module Sorting {

  /** The comparator is a total preorder. */
  ghost predicate TotalPreorder<T(!new)>(order: (T, T) -> int) {
    && (forall a, b :: order(a, b) == -order(b, a))
    && (forall a, b, c :: order(a, b) <= 0 && order(b, c) <= 0 ==>
          order(a, c) <= 0 && (order(a, c) == 0 ==> order(a, b) == 0 && order(b, c) == 0))
  }

  function Insert<T(!new)>(order: (T, T) -> int, v: T, s: seq<T>): seq<T> {
    if s == [] || order(v, s[0]) <= 0 then [v] + s else [s[0]] + Insert(order, v, s[1..])
  }

  function Sort<T(!new)>(order: (T, T) -> int, keys: seq<T>): seq<T> {
    if keys == [] then [] else Insert(order, keys[0], Sort(order, keys[1..]))
  }

  predicate Sorted<T(!new)>(order: (T, T) -> int, s: seq<T>) {
    forall i, j | 0 <= i < j < |s| :: order(s[i], s[j]) <= 0
  }

  function Filter<T(!new)>(keep: T -> bool, s: seq<T>): seq<T> {
    if s == [] then [] else (if keep(s[0]) then [s[0]] else []) + Filter(keep, s[1..])
  }

  lemma {:induction false} FilterMembers<T(!new)>(keep: T -> bool, s: seq<T>, v: T)
    ensures v in Filter(keep, s) <==> v in s && keep(v)
  {
    if s != [] {
      FilterMembers(keep, s[1..], v);
      assert s == [s[0]] + s[1..];
    }
  }

  function TiesWith<T(!new)>(order: (T, T) -> int, k: T): T -> bool {
    v => order(v, k) == 0
  }

  /** The elements that the order cannot tell from `k`, in their order. */
  function Ties<T(!new)>(order: (T, T) -> int, k: T, s: seq<T>): seq<T> {
    Filter(TiesWith(order, k), s)
  }

  lemma TiesCons<T(!new)>(order: (T, T) -> int, k: T, v: T, s: seq<T>)
    ensures Ties(order, k, [v] + s) == (if order(v, k) == 0 then [v] else []) + Ties(order, k, s)
  {
    assert ([v] + s)[1..] == s;
  }

  lemma {:induction false} InsertMembers<T(!new)>(order: (T, T) -> int, v: T, s: seq<T>)
    ensures forall x :: x in Insert(order, v, s) <==> x == v || x in s
  {
    if s != [] && order(v, s[0]) > 0 {
      InsertMembers(order, v, s[1..]);
      assert s == [s[0]] + s[1..];
    }
  }

  lemma Ordered<T(!new)>(order: (T, T) -> int, a: T, b: T, c: T)
    requires TotalPreorder(order)
    ensures order(a, b) == -order(b, a)
    ensures order(a, b) <= 0 && order(b, c) <= 0 ==> order(a, c) <= 0
  {
  }

  lemma SortedCons<T(!new)>(order: (T, T) -> int, v: T, s: seq<T>)
    requires Sorted(order, s) && forall x | x in s :: order(v, x) <= 0
    ensures Sorted(order, [v] + s)
  {
  }

  lemma SortedTail<T(!new)>(order: (T, T) -> int, s: seq<T>)
    requires Sorted(order, s) && s != []
    ensures Sorted(order, s[1..]) && forall x | x in s[1..] :: order(s[0], x) <= 0
  {
  }

  lemma {:induction false} InsertSorts<T(!new)>(order: (T, T) -> int, v: T, s: seq<T>)
    requires TotalPreorder(order) && Sorted(order, s)
    ensures Sorted(order, Insert(order, v, s))
  {
    if s == [] {
    } else if order(v, s[0]) <= 0 {
      SortedTail(order, s);
      forall x | x in s
        ensures order(v, x) <= 0
      {
        assert x == s[0] || x in s[1..];
        assert order(v, s[0]) <= 0 && order(s[0], x) <= 0 ==> order(v, x) <= 0;
        assert x == s[0] ==> order(v, x) <= 0;
      }
      SortedCons(order, v, s);
    } else {
      SortedTail(order, s);
      InsertSorts(order, v, s[1..]);
      InsertMembers(order, v, s[1..]);
      assert order(s[0], v) == -order(v, s[0]);
      SortedCons(order, s[0], Insert(order, v, s[1..]));
    }
  }

  lemma NotBothTied<T(!new)>(order: (T, T) -> int, v: T, x: T, k: T)
    requires TotalPreorder(order) && order(v, x) > 0
    ensures order(v, k) != 0 || order(x, k) != 0
  {
    Ordered(order, k, x, k);
    Ordered(order, v, k, x);
  }

  lemma Swapped<T>(a: seq<T>, b: seq<T>, rest: seq<T>)
    requires a == [] || b == []
    ensures a + (b + rest) == b + (a + rest)
  {
  }

  /** Passing an element that does not tie with `v` leaves all ties as they are. */
  lemma InsertPasses<T(!new)>(order: (T, T) -> int, k: T, v: T, s: seq<T>)
    requires s != [] && order(v, s[0]) > 0 && (order(v, k) != 0 || order(s[0], k) != 0)
    requires Ties(order, k, Insert(order, v, s[1..])) == Ties(order, k, [v] + s[1..])
    ensures Ties(order, k, Insert(order, v, s)) == Ties(order, k, [v] + s)
  {
    var x, rest := s[0], s[1..];
    var hv, hx := if order(v, k) == 0 then [v] else [], if order(x, k) == 0 then [x] else [];
    assert s == [x] + rest;
    TiesCons(order, k, x, Insert(order, v, rest));
    TiesCons(order, k, v, rest);
    TiesCons(order, k, v, s);
    TiesCons(order, k, x, rest);
    Swapped(hx, hv, Ties(order, k, rest));
  }

  lemma {:induction false} InsertIsStable<T(!new)>(order: (T, T) -> int, k: T, v: T, s: seq<T>)
    requires TotalPreorder(order)
    ensures Ties(order, k, Insert(order, v, s)) == Ties(order, k, [v] + s)
  {
    if s != [] && order(v, s[0]) > 0 {
      InsertIsStable(order, k, v, s[1..]);
      NotBothTied(order, v, s[0], k);
      InsertPasses(order, k, v, s);
    }
  }

  lemma {:induction false} SortSorts<T(!new)>(order: (T, T) -> int, keys: seq<T>)
    requires TotalPreorder(order)
    ensures Sorted(order, Sort(order, keys))
  {
    if keys != [] {
      SortSorts(order, keys[1..]);
      InsertSorts(order, keys[0], Sort(order, keys[1..]));
    }
  }

  lemma {:induction false} SortIsStable<T(!new)>(order: (T, T) -> int, k: T, keys: seq<T>)
    requires TotalPreorder(order)
    ensures Ties(order, k, Sort(order, keys)) == Ties(order, k, keys)
  {
    if keys != [] {
      SortIsStable(order, k, keys[1..]);
      InsertIsStable(order, k, keys[0], Sort(order, keys[1..]));
      TiesCons(order, k, keys[0], Sort(order, keys[1..]));
      TiesCons(order, k, keys[0], keys[1..]);
      assert keys == [keys[0]] + keys[1..];
    }
  }

  /** Two sequences hold the same elements, with ties in the same order. */
  ghost predicate SameTies<T(!new)>(order: (T, T) -> int, s: seq<T>, t: seq<T>) {
    forall k :: Ties(order, k, s) == Ties(order, k, t)
  }

  lemma SameTiesSameMembers<T(!new)>(order: (T, T) -> int, s: seq<T>, t: seq<T>, x: T)
    requires TotalPreorder(order) && SameTies(order, s, t) && x in s
    ensures x in t
  {
    assert order(x, x) == -order(x, x);
    FilterMembers(TiesWith(order, x), s, x);
    FilterMembers(TiesWith(order, x), t, x);
    assert Ties(order, x, s) == Ties(order, x, t);
  }

  lemma HeadsTie<T(!new)>(order: (T, T) -> int, s: seq<T>, t: seq<T>)
    requires TotalPreorder(order) && Sorted(order, s) && Sorted(order, t)
    requires s != [] && t != [] && s[0] in t && t[0] in s
    ensures order(s[0], s[0]) == 0 && order(t[0], s[0]) == 0
  {
    Ordered(order, s[0], t[0], s[0]);
    Ordered(order, s[0], s[0], s[0]);
  }

  lemma HeadOfTies<T(!new)>(order: (T, T) -> int, k: T, s: seq<T>)
    requires s != [] && order(s[0], k) == 0
    ensures Ties(order, k, s) != [] && Ties(order, k, s)[0] == s[0]
  {
    TiesCons(order, k, s[0], s[1..]);
    assert s == [s[0]] + s[1..];
  }

  lemma SameHead<T(!new)>(order: (T, T) -> int, s: seq<T>, t: seq<T>)
    requires TotalPreorder(order) && Sorted(order, s) && Sorted(order, t) && SameTies(order, s, t)
    requires s != [] && t != []
    ensures s[0] == t[0]
  {
    SameTiesSameMembers(order, s, t, s[0]);
    SameTiesSameMembers(order, t, s, t[0]);
    HeadsTie(order, s, t);
    HeadOfTies(order, s[0], s);
    HeadOfTies(order, s[0], t);
    assert Ties(order, s[0], s) == Ties(order, s[0], t);
  }

  lemma TailTies<T(!new)>(order: (T, T) -> int, k: T, s: seq<T>, t: seq<T>)
    requires s != [] && t != [] && s[0] == t[0] && Ties(order, k, s) == Ties(order, k, t)
    ensures Ties(order, k, s[1..]) == Ties(order, k, t[1..])
  {
    assert s == [s[0]] + s[1..] && t == [s[0]] + t[1..];
    TiesCons(order, k, s[0], s[1..]);
    TiesCons(order, k, s[0], t[1..]);
    var n := if order(s[0], k) == 0 then 1 else 0;
    assert Ties(order, k, s)[n..] == Ties(order, k, s[1..]) && Ties(order, k, t)[n..] == Ties(order, k, t[1..]);
  }

  lemma {:induction false} StableSortIsUnique<T(!new)>(order: (T, T) -> int, s: seq<T>, t: seq<T>)
    requires TotalPreorder(order) && Sorted(order, s) && Sorted(order, t) && SameTies(order, s, t)
    ensures s == t
  {
    if s == [] {
      if t != [] {
        SameTiesSameMembers(order, t, s, t[0]);
      }
    } else {
      SameTiesSameMembers(order, s, t, s[0]);
      SameHead(order, s, t);
      SortedTail(order, s);
      SortedTail(order, t);
      forall k
        ensures Ties(order, k, s[1..]) == Ties(order, k, t[1..])
      {
        TailTies(order, k, s, t);
      }
      StableSortIsUnique(order, s[1..], t[1..]);
      HeadAndTail(s, t);
    }
  }

  /** Whatever algorithm the host uses, a stable sort has the result of `Sort`. */
  lemma HostSorts<T(!new)>(order: (T, T) -> int, keys: seq<T>, sorted: seq<T>)
    requires TotalPreorder(order) && Sorted(order, sorted) && SameTies(order, sorted, keys)
    ensures sorted == Sort(order, keys)
  {
    SortSorts(order, keys);
    forall k
      ensures Ties(order, k, sorted) == Ties(order, k, Sort(order, keys))
    {
      SortIsStable(order, k, keys);
    }
    StableSortIsUnique(order, sorted, Sort(order, keys));
  }

  lemma {:induction false} FilterSame<T(!new)>(keep: T -> bool, also: T -> bool, s: seq<T>)
    requires forall v | v in s :: keep(v) == also(v)
    ensures Filter(keep, s) == Filter(also, s)
  {
    if s != [] {
      FilterSame(keep, also, s[1..]);
    }
  }

  lemma {:induction false} FilterNone<T(!new)>(keep: T -> bool, s: seq<T>)
    requires forall v | v in s :: !keep(v)
    ensures Filter(keep, s) == []
  {
    if s != [] {
      FilterNone(keep, s[1..]);
    }
  }

  lemma SortMembers<T(!new)>(order: (T, T) -> int, keys: seq<T>, v: T)
    requires TotalPreorder(order)
    ensures v in Sort(order, keys) <==> v in keys
  {
    SortIsStable(order, v, keys);
    Ordered(order, v, v, v);
    FilterMembers(TiesWith(order, v), keys, v);
    FilterMembers(TiesWith(order, v), Sort(order, keys), v);
  }

  // ---------- Orders that tell all elements apart ----------

  lemma {:induction false} InsertContents<T(!new)>(order: (T, T) -> int, v: T, s: seq<T>)
    ensures multiset(Insert(order, v, s)) == multiset(s) + multiset{v}
  {
    if s != [] && order(v, s[0]) > 0 {
      InsertContents(order, v, s[1..]);
      assert s == [s[0]] + s[1..];
    }
  }

  lemma {:induction false} SortContents<T(!new)>(order: (T, T) -> int, keys: seq<T>)
    ensures multiset(Sort(order, keys)) == multiset(keys)
  {
    if keys != [] {
      SortContents(order, keys[1..]);
      InsertContents(order, keys[0], Sort(order, keys[1..]));
      assert keys == [keys[0]] + keys[1..];
    }
  }

  /** Only equal elements of `s` tie. */
  ghost predicate TellsApart<T(!new)>(order: (T, T) -> int, s: seq<T>) {
    forall x, y | x in s && y in s && order(x, y) == 0 :: x == y
  }

  lemma SameFirst<T(!new)>(order: (T, T) -> int, s: seq<T>, t: seq<T>)
    requires TotalPreorder(order) && Sorted(order, s) && Sorted(order, t) && TellsApart(order, s)
    requires s != [] && t != [] && s[0] in t && t[0] in s
    ensures s[0] == t[0]
  {
    HeadsTie(order, s, t);
    assert s[0] in s && t[0] in s && order(t[0], s[0]) == 0;
  }

  lemma SameRest<T>(s: seq<T>, t: seq<T>)
    requires s != [] && t != [] && s[0] == t[0] && multiset(s) == multiset(t)
    ensures multiset(s[1..]) == multiset(t[1..])
  {
    assert s == [s[0]] + s[1..] && t == [s[0]] + t[1..];
    assert multiset(s[1..]) == multiset(s) - multiset{s[0]} && multiset(t[1..]) == multiset(t) - multiset{s[0]};
  }

  lemma HeadAndTail<T>(s: seq<T>, t: seq<T>)
    requires s != [] && t != [] && s[0] == t[0] && s[1..] == t[1..]
    ensures s == t
  {
    assert s == [s[0]] + s[1..] && t == [t[0]] + t[1..];
  }

  lemma SameElements<T>(s: seq<T>, t: seq<T>)
    requires multiset(s) == multiset(t)
    ensures |s| == |t| && (s != [] ==> s[0] in t && t[0] in s)
  {
    assert |s| == |multiset(s)| == |multiset(t)| == |t|;
    assert s != [] ==> s[0] in multiset(t) && t[0] in multiset(s);
  }

  lemma {:induction false} OneSortedArrangement<T(!new)>(order: (T, T) -> int, s: seq<T>, t: seq<T>)
    requires TotalPreorder(order) && Sorted(order, s) && Sorted(order, t) && TellsApart(order, s)
    requires multiset(s) == multiset(t)
    ensures s == t
  {
    SameElements(s, t);
    if s != [] {
      SameFirst(order, s, t);
      SameRest(s, t);
      SortedTail(order, s);
      SortedTail(order, t);
      TailApart(order, s);
      OneSortedArrangement(order, s[1..], t[1..]);
      HeadAndTail(s, t);
    }
  }

  lemma TailApart<T(!new)>(order: (T, T) -> int, s: seq<T>)
    requires TellsApart(order, s) && s != []
    ensures TellsApart(order, s[1..])
  {
    assert forall x | x in s[1..] :: x in s;
  }

  lemma SortedTellsApart<T(!new)>(order: (T, T) -> int, s: seq<T>, sorted: seq<T>)
    requires TellsApart(order, s) && multiset(sorted) == multiset(s)
    ensures TellsApart(order, sorted)
  {
    forall x | x in sorted
      ensures x in s
    {
      assert x in multiset(sorted);
    }
  }

  /** When only equal elements tie, the arrangement of the input does not matter. */
  lemma SortForgetsArrangement<T(!new)>(order: (T, T) -> int, s: seq<T>, t: seq<T>)
    requires TotalPreorder(order) && TellsApart(order, s) && multiset(s) == multiset(t)
    ensures Sort(order, s) == Sort(order, t)
  {
    SortSorts(order, s);
    SortSorts(order, t);
    SortContents(order, s);
    SortContents(order, t);
    SortedTellsApart(order, s, Sort(order, s));
    OneSortedArrangement(order, Sort(order, s), Sort(order, t));
  }
}
