/** What executing migrations keeps: files, their tracking hashes, and the role of the execution order. */
module MigrationTheorems {
  import opened Wrappers
  import opened Paths
  import opened Workspace
  import opened Migrations

  // ---------- Files ----------

  /** For any item list that runs to its end, the files afterwards are exactly the survivors at their fates. */
  lemma {:induction false} ExecutionFollowsFate(w: World, items: seq<Item>, w': World)
    requires ExecuteAutos(w, items) == Some(w')
    ensures FollowsFate(w.files, items, w'.files)
    decreases |items|
  {
    if items == [] {
      assert forall q | q in w'.files :: Fate(items, q) == Some(q);
    } else {
      var item, rest := items[0], items[1..];
      var w1 := ExecuteAuto(w, item).value;
      StepFollowsFate(w, item, w1);
      ExecutionFollowsFate(w1, rest, w');
      forall p | p in w.files && Fate(items, p).Some?
        ensures Fate(items, p).value in w'.files && w'.files[Fate(items, p).value] == w.files[p]
      {
        var q := FateStep(item, p).value;
        assert q in w1.files && Fate(rest, q) == Fate(items, p);
      }
      forall q | q in w'.files
        ensures exists p | p in w.files :: Fate(items, p) == Some(q)
      {
        var q1 :| q1 in w1.files && Fate(rest, q1) == Some(q);
        var p :| p in w.files && FateStep(item, p) == Some(q1);
        assert Fate(items, p) == Some(q);
      }
    }
  }

  // ---------- Tracking hashes ----------

  /** The item treats the file `p` as what it is: no rename of a file's ancestor, no rename-dir of a file. */
  predicate Typed(item: Item, p: Path) {
    && (item.Rename? ==> !(item.from < p))
    && (item.RenameDir? ==> item.from != p)
  }

  predicate TypedAlong(items: seq<Item>, p: Path) {
    items != [] ==>
      && Typed(items[0], p)
      && (FateStep(items[0], p).Some? ==> TypedAlong(items[1..], FateStep(items[0], p).value))
  }

  /** What one item does to the manifest, whatever it does to the files. */
  function HashesAfter(item: Item, hashes: Manifest): Manifest {
    match item
    case Rename(from, to) => if from in hashes then (hashes - {from})[to := hashes[from]] else hashes
    case RenameDir(from, to) => RenamedKeys(hashes, from, to)
    case Delete(from) => hashes - {from}
    case _ => hashes
  }

  lemma StepHashes(w: World, item: Item, w': World)
    requires ExecuteAuto(w, item) == Some(w')
    ensures w'.hashes == HashesAfter(item, w.hashes)
  {
    match item {
      case Rename(from, to) =>
        var w2 := w.MkdirP(Parent(to)).value.RenameSync(from, to).value;
        assert w'.hashes == w2.RenameHash(from, to).hashes && w2.hashes == w.hashes;
      case RenameDir(from, to) =>
        var w2 := w.RemoveTree(to).MkdirP(Parent(to)).value.RenameSync(from, to).value;
        assert w' == w2.RenameDirHashes(from, to) && w2.hashes == w.hashes;
      case _ =>
    }
  }

  /** The manifest of one directory rename, key by key. */
  lemma RenamedManifest(hashes: Manifest, from: Path, to: Path)
    requires Disjoint(from, to)
    ensures var after := HashesAfter(RenameDir(from, to), hashes);
            && (forall k | k in after :: !(from < k))
            && (forall k | k in hashes && from < k ::
                  Rebase(k, from, to) in after && after[Rebase(k, from, to)] == hashes[k])
            && (forall k | k in after && to < k :: Rebase(k, to, from) in hashes)
            && (forall k | !(from < k) && !(to < k) ::
                  (k in after <==> k in hashes) && (k in hashes ==> after[k] == hashes[k]))
  {
    var after := HashesAfter(RenameDir(from, to), hashes);
    forall k | k in after
      ensures !(from < k)
    {
      if to < k && from < k {
        PrefixesCompare(to, from, k);
      }
    }
    forall k | k in hashes && from < k
      ensures Rebase(k, from, to) in after && after[Rebase(k, from, to)] == hashes[k]
    {
      RebaseBack(k, from, to);
    }
  }

  lemma StepKeepsHash(item: Item, hashes: Manifest, p: Path)
    requires p in hashes && Typed(item, p) && FateStep(item, p).Some?
    ensures FateStep(item, p).value in HashesAfter(item, hashes)
    ensures HashesAfter(item, hashes)[FateStep(item, p).value] == hashes[p]
  {
    match item {
      case Rename(from, to) =>
        if from == p {
          assert Rebase(p, from, to) == to;
        } else if from <= p {
          PrefixOrProper(from, p);
        }
      case RenameDir(from, to) =>
        if from <= p {
          PrefixOrProper(from, p);
          RebaseBack(p, from, to);
        }
      case _ =>
    }
  }

  /** A tracked file that survives keeps its stored hash under its new path. */
  lemma {:induction false} ExecutionKeepsHash(w: World, items: seq<Item>, w': World, p: Path)
    requires ExecuteAutos(w, items) == Some(w')
    requires p in w.hashes && TypedAlong(items, p) && Fate(items, p).Some?
    ensures Fate(items, p).value in w'.hashes && w'.hashes[Fate(items, p).value] == w.hashes[p]
    decreases |items|
  {
    if items != [] {
      var w1 := ExecuteAuto(w, items[0]).value;
      StepHashes(w, items[0], w1);
      StepKeepsHash(items[0], w.hashes, p);
      ExecutionKeepsHash(w1, items[1..], w', FateStep(items[0], p).value);
    }
  }

  /** Hence it also keeps its modified / unmodified status. AGENTS.md is compared by block only at its own path. */
  lemma StatusFollows(w: World, items: seq<Item>, w': World, p: Path)
    requires ExecuteAutos(w, items) == Some(w')
    requires p in w.files && p in w.hashes && TypedAlong(items, p) && Fate(items, p).Some?
    requires p == AGENTS <==> Fate(items, p).value == AGENTS
    ensures w'.IsTemplateModified(Fate(items, p).value, w'.hashes) == w.IsTemplateModified(p, w.hashes)
  {
    ExecutionFollowsFate(w, items, w');
    ExecutionKeepsHash(w, items, w', p);
    assert p in w.Entries() && Fate(items, p).value in w'.Entries();
  }

  // ---------- Execution order ----------

  /** `first` may run before `second` without the two disturbing each other. */
  predicate Apart(first: Item, second: Item) {
    && (HasTarget(first) ==> Disjoint(first.to, second.from))
    && (HasTarget(second) ==> Disjoint(second.to, first.from))
    && (HasTarget(first) && HasTarget(second) ==> Disjoint(first.to, second.to))
    && !(first.from <= second.from)
  }

  ghost predicate AllApart(items: seq<Item>) {
    && (forall i, j | 0 <= i < j < |items| :: Apart(items[i], items[j]))
    && (forall i | 0 <= i < |items| :: HasTarget(items[i]) ==> Disjoint(items[i].from, items[i].to))
  }

  /** What an author must respect when writing two items, whatever their order in the manifest. */
  predicate Compatible(a: Item, b: Item) {
    && (HasTarget(a) ==> Disjoint(a.to, b.from))
    && (HasTarget(b) ==> Disjoint(b.to, a.from))
    && (HasTarget(a) && HasTarget(b) ==> Disjoint(a.to, b.to))
    && a.from != b.from
    && (a.from < b.from || b.from < a.from ==> a.RenameDir? && b.RenameDir?)
  }

  ghost predicate WellAuthored(items: seq<Item>) {
    && (forall i, j | 0 <= i < j < |items| :: Compatible(items[i], items[j]))
    && (forall i | 0 <= i < |items| :: HasTarget(items[i]) ==> Disjoint(items[i].from, items[i].to))
  }

  lemma InsertContents(item: Item, sorted: seq<Item>)
    ensures multiset(Insert(item, sorted)) == multiset(sorted) + multiset{item}
  {
    if sorted != [] && Rank(item) < Rank(sorted[0]) {
      InsertContents(item, sorted[1..]);
      assert sorted == [sorted[0]] + sorted[1..];
    }
  }

  /** The execution order neither drops nor repeats an item. */
  lemma {:induction false} SortContents(items: seq<Item>)
    ensures multiset(SortForExecution(items)) == multiset(items)
  {
    if items != [] {
      SortContents(items[1..]);
      InsertContents(items[0], SortForExecution(items[1..]));
      assert items == [items[0]] + items[1..];
    }
  }

  ghost predicate Ordered(items: seq<Item>) {
    forall i, j | 0 <= i < j < |items| :: Rank(items[i]) >= Rank(items[j])
  }

  lemma {:induction false} InsertOrdered(item: Item, sorted: seq<Item>)
    requires Ordered(sorted)
    ensures Ordered(Insert(item, sorted))
  {
    if sorted != [] && Rank(item) < Rank(sorted[0]) {
      InsertOrdered(item, sorted[1..]);
      InsertContents(item, sorted[1..]);
      var r := Insert(item, sorted[1..]);
      forall x | x in r
        ensures Rank(x) <= Rank(sorted[0])
      {
        assert x in multiset(r);
        assert x == item || x in sorted[1..];
      }
    }
  }

  /** Inserting keeps "pairwise apart": equal ranks keep their order, and a nested source is never overtaken. */
  lemma {:induction false} InsertApart(item: Item, sorted: seq<Item>)
    requires AllApart(sorted) && Ordered(sorted)
    requires HasTarget(item) ==> Disjoint(item.from, item.to)
    requires forall x | x in sorted :: Compatible(item, x)
    ensures AllApart(Insert(item, sorted))
  {
    if sorted == [] || Rank(item) >= Rank(sorted[0]) {
      forall x | x in sorted
        ensures Apart(item, x)
      {
        assert Rank(item) >= Rank(x);
      }
    } else {
      var head, rest := sorted[0], Insert(item, sorted[1..]);
      InsertApart(item, sorted[1..]);
      InsertContents(item, sorted[1..]);
      forall x | x in rest
        ensures Apart(head, x)
      {
        assert x in multiset(rest);
        if x in sorted[1..] {
          var j :| 0 <= j < |sorted[1..]| && sorted[1..][j] == x;
          assert Apart(sorted[0], sorted[j + 1]);
        } else {
          assert x == item && Compatible(item, head) && Rank(item) < Rank(head);
        }
      }
      forall i, j | 0 <= i < j < |[head] + rest|
        ensures Apart(([head] + rest)[i], ([head] + rest)[j])
      {
        if i > 0 {
          assert Apart(rest[i - 1], rest[j - 1]);
        } else {
          assert rest[j - 1] in rest;
        }
      }
    }
  }

  lemma WellAuthoredRest(items: seq<Item>)
    requires items != [] && WellAuthored(items)
    ensures WellAuthored(items[1..])
    ensures forall x | x in items[1..] :: Compatible(items[0], x)
  {
    var rest := items[1..];
    forall i, j | 0 <= i < j < |rest|
      ensures Compatible(rest[i], rest[j])
    {
      assert Compatible(items[i + 1], items[j + 1]);
    }
    forall i | 0 <= i < |rest| && HasTarget(rest[i])
      ensures Disjoint(rest[i].from, rest[i].to)
    {
      assert HasTarget(items[i + 1]) ==> Disjoint(items[i + 1].from, items[i + 1].to);
    }
  }

  /** Deeper-first ordering makes nested directory sources safe, as long as their targets are disjoint. */
  lemma {:induction false} SortedApart(items: seq<Item>)
    requires WellAuthored(items)
    ensures AllApart(SortForExecution(items)) && Ordered(SortForExecution(items))
  {
    if items != [] {
      var rest := items[1..];
      WellAuthoredRest(items);
      SortedApart(rest);
      SortContents(rest);
      var sorted := SortForExecution(rest);
      forall x | x in sorted
        ensures Compatible(items[0], x)
      {
        assert x in multiset(sorted);
        assert x in multiset(rest);
      }
      InsertOrdered(items[0], sorted);
      InsertApart(items[0], sorted);
    }
  }

  /** Is `p` clear of everything `items` removes or moves? */
  ghost predicate Untouched(items: seq<Item>, p: Path) {
    forall i | 0 <= i < |items| :: FateStep(items[i], p) == Some(p)
  }

  lemma {:induction false} UntouchedStays(items: seq<Item>, p: Path)
    requires Untouched(items, p)
    ensures Fate(items, p) == Some(p)
  {
    if items != [] {
      assert FateStep(items[0], p) == Some(p);
      forall i | 0 <= i < |items[1..]|
        ensures FateStep(items[1..][i], p) == Some(p)
      {
        assert FateStep(items[i + 1], p) == Some(p);
      }
      UntouchedStays(items[1..], p);
    }
  }

  lemma MovedIsLeftAlone(first: Item, second: Item, p: Path)
    requires HasTarget(first) && first.from <= p && Apart(first, second)
    ensures FateStep(second, Rebase(p, first.from, first.to)) == Some(Rebase(p, first.from, first.to))
  {
    var q := Rebase(p, first.from, first.to);
    assert first.to <= q;
    if second.from <= q {
      PrefixesCompare(first.to, second.from, q);
    }
    if HasTarget(second) && second.to <= q {
      PrefixesCompare(first.to, second.to, q);
    }
  }

  /** The item that destroys `p` where it lies, or that moves it away: the only one that matters for `p`. */
  predicate Touches(item: Item, p: Path) {
    FateStep(item, p) != Some(p)
  }

  /**
   In a list of items kept apart, the fate of a file is decided by the first item that touches it;
   later items leave the moved file alone.
   */
  lemma {:induction false} FirstTouchDecides(items: seq<Item>, p: Path, i: nat)
    requires AllApart(items) && i < |items| && Touches(items[i], p)
    requires forall j | 0 <= j < i :: !Touches(items[j], p)
    ensures Fate(items, p) == FateStep(items[i], p)
  {
    if i == 0 {
      if FateStep(items[0], p).Some? {
        var q := FateStep(items[0], p).value;
        forall j | 0 <= j < |items[1..]|
          ensures FateStep(items[1..][j], q) == Some(q)
        {
          assert Apart(items[0], items[j + 1]);
          MovedIsLeftAlone(items[0], items[j + 1], p);
        }
        UntouchedStays(items[1..], q);
      }
    } else {
      assert !Touches(items[0], p);
      forall a, b | 0 <= a < b < |items[1..]|
        ensures Apart(items[1..][a], items[1..][b])
      {
        assert Apart(items[a + 1], items[b + 1]);
      }
      FirstTouchDecides(items[1..], p, i - 1);
    }
  }

  /** So in such a list a file is lost only if some item destroys it at its original place. */
  lemma ApartLoss(items: seq<Item>, p: Path)
    requires AllApart(items) && Fate(items, p).None?
    ensures exists item | item in items :: FateStep(item, p).None?
  {
    if Untouched(items, p) {
      UntouchedStays(items, p);
    } else {
      var i: nat := FirstTouch(items, p);
      FirstTouchDecides(items, p, i);
      assert items[i] in items;
    }
  }

  ghost function FirstTouch(items: seq<Item>, p: Path): (i: nat)
    requires !Untouched(items, p)
    ensures i < |items| && Touches(items[i], p)
    ensures forall j | 0 <= j < i :: !Touches(items[j], p)
  {
    if Touches(items[0], p) then 0
    else
      assert exists k | 0 <= k < |items| :: FateStep(items[k], p) != Some(p);
      assert exists k | 0 <= k < |items[1..]| :: FateStep(items[1..][k], p) != Some(p) by {
        var k :| 0 <= k < |items| && FateStep(items[k], p) != Some(p);
        assert items[1..][k - 1] == items[k];
      }
      1 + FirstTouch(items[1..], p)
  }

  // ---------- The manifest after the whole list ----------

  /** Where the manifest of a run over `item` has what it had under `k`, if anywhere. */
  function KeyStep(item: Item, hashes: Manifest, k: Path): Option<Path> {
    match item
    case Rename(from, to) =>
      if from !in hashes then Some(k) else if k == from then Some(to) else if k == to then None else Some(k)
    case RenameDir(from, to) => if from < k then Some(Rebase(k, from, to)) else if to < k then None else Some(k)
    case Delete(from) => if k == from then None else Some(k)
    case _ => Some(k)
  }

  /** The step of the first item that touches the key. */
  function KeyFate(items: seq<Item>, hashes: Manifest, k: Path): Option<Path> {
    if items == [] then Some(k)
    else if KeyStep(items[0], hashes, k) != Some(k) then KeyStep(items[0], hashes, k)
    else KeyFate(items[1..], hashes, k)
  }

  /** Every key that has a fate is there with its hash, and there is no other key. */
  ghost predicate KeysFollow(fate: Path -> Option<Path>, before: Manifest, after: Manifest) {
    && (forall k | k in before && fate(k).Some? :: fate(k).value in after && after[fate(k).value] == before[k])
    && (forall q | q in after :: exists k :: k in before && fate(k) == Some(q))
  }

  function StepOf(item: Item, hashes: Manifest): Path -> Option<Path> {
    k => KeyStep(item, hashes, k)
  }

  function FateOf(items: seq<Item>, hashes: Manifest): Path -> Option<Path> {
    k => KeyFate(items, hashes, k)
  }

  lemma DirectoryStepManifest(hashes: Manifest, from: Path, to: Path)
    requires Disjoint(from, to)
    ensures KeysFollow(StepOf(RenameDir(from, to), hashes), hashes, HashesAfter(RenameDir(from, to), hashes))
  {
    var item := RenameDir(from, to);
    RenamedManifest(hashes, from, to);
    forall q | q in HashesAfter(item, hashes)
      ensures exists k :: k in hashes && StepOf(item, hashes)(k) == Some(q)
    {
      var k := KeyBefore(q, from, to);
      assert to < q ==> from < k && Rebase(k, from, to) == q;
      assert k in hashes && StepOf(item, hashes)(k) == Some(q);
    }
  }

  lemma StepManifest(item: Item, hashes: Manifest)
    requires HasTarget(item) ==> Disjoint(item.from, item.to)
    ensures KeysFollow(StepOf(item, hashes), hashes, HashesAfter(item, hashes))
  {
    if item.RenameDir? {
      DirectoryStepManifest(hashes, item.from, item.to);
    } else {
      forall q | q in HashesAfter(item, hashes)
        ensures exists k :: k in hashes && StepOf(item, hashes)(k) == Some(q)
      {
        var k := if item.Rename? && item.from in hashes && q == item.to then item.from else q;
        assert k in hashes && StepOf(item, hashes)(k) == Some(q);
      }
    }
  }

  /** A key that an item has moved is not touched by a later item that is apart from it. */
  lemma MovedKeyIsLeftAlone(first: Item, second: Item, before: Manifest, hashes: Manifest, k: Path)
    requires Apart(first, second) && HasTarget(first) && KeyStep(first, before, k).Some? && KeyStep(first, before, k) != Some(k)
    ensures KeyStep(second, hashes, KeyStep(first, before, k).value) == KeyStep(first, before, k)
  {
    var q := KeyStep(first, before, k).value;
    assert first.to <= q;
    if second.from <= q {
      PrefixesCompare(first.to, second.from, q);
    }
    if HasTarget(second) && second.to <= q {
      PrefixesCompare(first.to, second.to, q);
    }
  }

  /** Whether a later item's source is tracked does not depend on whether an earlier item has run. */
  lemma SourceStaysTracked(first: Item, second: Item, before: Manifest, after: Manifest)
    requires Apart(first, second) && KeysFollow(StepOf(first, before), before, after)
    ensures second.from in after <==> second.from in before
  {
    var p := second.from;
    assert KeyStep(first, before, p) == Some(p) && StepOf(first, before)(p) == Some(p);
    if p in after {
      var k :| k in before && StepOf(first, before)(k) == Some(p);
    }
  }

  lemma SameStep(item: Item, before: Manifest, after: Manifest, k: Path)
    requires item.from in after <==> item.from in before
    ensures KeyStep(item, after, k) == KeyStep(item, before, k)
  {
  }

  lemma {:induction false} SameKeyFate(items: seq<Item>, before: Manifest, after: Manifest, k: Path)
    requires forall i | 0 <= i < |items| :: items[i].from in after <==> items[i].from in before
    ensures KeyFate(items, after, k) == KeyFate(items, before, k)
  {
    if items != [] {
      SameStep(items[0], before, after, k);
      assert forall i | 0 <= i < |items[1..]| :: items[1..][i] == items[i + 1];
      SameKeyFate(items[1..], before, after, k);
    }
  }

  lemma {:induction false} UntouchedKeyStays(items: seq<Item>, hashes: Manifest, k: Path)
    requires forall i | 0 <= i < |items| :: KeyStep(items[i], hashes, k) == Some(k)
    ensures KeyFate(items, hashes, k) == Some(k)
  {
    if items != [] {
      assert forall i | 0 <= i < |items[1..]| :: items[1..][i] == items[i + 1];
      UntouchedKeyStays(items[1..], hashes, k);
    }
  }

  lemma MovedKeyStays(items: seq<Item>, before: Manifest, hashes: Manifest, k: Path)
    requires items != [] && AllApart(items) && KeyStep(items[0], before, k).Some? && KeyStep(items[0], before, k) != Some(k)
    ensures KeyFate(items[1..], hashes, KeyStep(items[0], before, k).value) == KeyStep(items[0], before, k)
  {
    var q := KeyStep(items[0], before, k).value;
    forall i | 0 <= i < |items[1..]|
      ensures KeyStep(items[1..][i], hashes, q) == Some(q)
    {
      assert Apart(items[0], items[i + 1]);
      MovedKeyIsLeftAlone(items[0], items[i + 1], before, hashes, k);
    }
    UntouchedKeyStays(items[1..], hashes, q);
  }

  lemma ApartRest(items: seq<Item>)
    requires items != [] && AllApart(items)
    ensures AllApart(items[1..]) && forall i | 0 <= i < |items[1..]| :: Apart(items[0], items[1..][i])
  {
    forall i, j | 0 <= i < j < |items[1..]|
      ensures Apart(items[1..][i], items[1..][j])
    {
      assert Apart(items[i + 1], items[j + 1]);
    }
    forall i | 0 <= i < |items[1..]|
      ensures Apart(items[0], items[1..][i])
      ensures HasTarget(items[1..][i]) ==> Disjoint(items[1..][i].from, items[1..][i].to)
    {
      assert Apart(items[0], items[i + 1]) && items[1..][i] == items[i + 1];
    }
  }

  lemma ManifestsCompose(items: seq<Item>, before: Manifest, middle: Manifest, after: Manifest)
    requires items != [] && AllApart(items)
    requires KeysFollow(StepOf(items[0], before), before, middle)
    requires KeysFollow(FateOf(items[1..], middle), middle, after)
    ensures KeysFollow(FateOf(items, before), before, after)
  {
    var first, rest := items[0], items[1..];
    ApartRest(items);
    forall i | 0 <= i < |rest|
      ensures rest[i].from in middle <==> rest[i].from in before
    {
      SourceStaysTracked(first, rest[i], before, middle);
    }
    forall k | k in before && KeyFate(items, before, k).Some?
      ensures KeyFate(items, before, k).value in after && after[KeyFate(items, before, k).value] == before[k]
    {
      var q := KeyStep(first, before, k);
      assert StepOf(first, before)(k) == q;
      if q == Some(k) {
        SameKeyFate(rest, before, middle, k);
        assert FateOf(rest, middle)(k) == KeyFate(items, before, k);
      } else {
        MovedKeyStays(items, before, middle, k);
        assert FateOf(rest, middle)(q.value) == q;
      }
    }
    forall q | q in after
      ensures exists k :: k in before && KeyFate(items, before, k) == Some(q)
    {
      var m :| m in middle && FateOf(rest, middle)(m) == Some(q);
      var k :| k in before && StepOf(first, before)(k) == Some(m);
      if k == m {
        SameKeyFate(rest, before, middle, k);
      } else {
        MovedKeyStays(items, before, middle, k);
      }
      assert k in before && KeyFate(items, before, k) == Some(q);
    }
  }

  /** Over a list of items kept apart the manifest afterwards is exactly the keys at their fates, with their hashes. */
  lemma {:induction false} ManifestFollowsFate(w: World, items: seq<Item>, w': World)
    requires ExecuteAutos(w, items) == Some(w') && AllApart(items)
    ensures KeysFollow(FateOf(items, w.hashes), w.hashes, w'.hashes)
    decreases |items|
  {
    if items == [] {
      forall q | q in w'.hashes
        ensures exists k :: k in w.hashes && KeyFate(items, w.hashes, k) == Some(q)
      {
        assert q in w.hashes && KeyFate(items, w.hashes, q) == Some(q);
      }
    } else {
      var w1 := ExecuteAuto(w, items[0]).value;
      StepHashes(w, items[0], w1);
      StepManifest(items[0], w.hashes);
      ApartRest(items);
      ManifestFollowsFate(w1, items[1..], w');
      ManifestsCompose(items, w.hashes, w1.hashes, w'.hashes);
    }
  }

  lemma {:induction false} FirstKeyTouch(items: seq<Item>, hashes: Manifest, k: Path) returns (i: int)
    ensures i < |items|
    ensures i < 0 ==> KeyFate(items, hashes, k) == Some(k) && forall j | 0 <= j < |items| :: KeyStep(items[j], hashes, k) == Some(k)
    ensures i >= 0 ==> KeyFate(items, hashes, k) == KeyStep(items[i], hashes, k) != Some(k)
                       && forall j | 0 <= j < i :: KeyStep(items[j], hashes, k) == Some(k)
  {
    if items == [] {
      i := -1;
    } else if KeyStep(items[0], hashes, k) != Some(k) {
      i := 0;
    } else {
      i := FirstKeyTouch(items[1..], hashes, k);
      assert forall j | 0 < j < |items| :: items[1..][j - 1] == items[j];
      i := if i < 0 then i else i + 1;
    }
  }

  lemma PairApart(items: seq<Item>, i: nat, j: nat)
    requires AllApart(items) && i < |items| && j < |items| && HasTarget(items[i])
    ensures Disjoint(items[i].to, items[j].from)
    ensures i != j && HasTarget(items[j]) ==> Disjoint(items[i].to, items[j].to)
  {
    if i < j {
      assert Apart(items[i], items[j]);
    } else if j < i {
      assert Apart(items[j], items[i]);
    }
  }

  /** A key of the new manifest below a renamed directory's old or new place: only what the rename brought. */
  lemma KeysAtRenamed(items: seq<Item>, before: Manifest, after: Manifest, i: nat, q: Path)
    requires AllApart(items) && KeysFollow(FateOf(items, before), before, after) && i < |items| && items[i].RenameDir?
    requires q in after && (items[i].from < q || items[i].to < q)
    ensures items[i].to < q && Rebase(q, items[i].to, items[i].from) in before
    ensures after[q] == before[Rebase(q, items[i].to, items[i].from)]
  {
    var k :| k in before && FateOf(items, before)(k) == Some(q);
    var j := FirstKeyTouch(items, before, k);
    PairApart(items, i, i);
    assert KeyStep(items[i], before, q) != Some(q);
    PairApart(items, j, i);
    assert items[j].to <= q;
    if items[i].from < q {
      PrefixesCompare(items[j].to, items[i].from, q);
    } else {
      PrefixesCompare(items[j].to, items[i].to, q);
      assert j == i;
      RebaseBack(k, items[i].from, items[i].to);
    }
  }

  /** No item of the list has anything to do with the key. */
  ghost predicate KeyUntouched(items: seq<Item>, hashes: Manifest, k: Path) {
    forall item | item in items :: KeyStep(item, hashes, k) == Some(k)
  }

  lemma SamePrefix(a: Path, b: Path, p: Path)
    requires a <= p && b <= p && |a| == |b|
    ensures a == b
  {
    assert a == p[..|a|] && b == p[..|b|];
  }

  lemma NotMovedOnto(item: Item, hashes: Manifest, m: Path, k: Path)
    requires KeyStep(item, hashes, m) == Some(k) && KeyStep(item, hashes, k) == Some(k)
    ensures m == k
  {
    if item.RenameDir? && item.from < m {
      RebaseBack(m, item.from, item.to);
      if item.from < k {
        SamePrefix(item.from, item.to, k);
      }
    }
  }

  lemma UntouchedKeyIsNoTarget(items: seq<Item>, before: Manifest, after: Manifest, k: Path)
    requires KeysFollow(FateOf(items, before), before, after) && KeyUntouched(items, before, k)
    ensures k in after <==> k in before
    ensures k in before ==> after[k] == before[k]
  {
    UntouchedKeyStays(items, before, k);
    assert FateOf(items, before)(k) == Some(k);
    if k in after {
      var m :| m in before && FateOf(items, before)(m) == Some(k);
      var j := FirstKeyTouch(items, before, m);
      if j >= 0 {
        NotMovedOnto(items[j], before, m, k);
      }
    }
  }

  /** Of the directories that are renamed and lie above the key, `item` renames the deepest. */
  ghost predicate Deepest(items: seq<Item>, item: Item, k: Path) {
    && item in items && item.RenameDir? && item.from < k
    && forall other | other in items && other.RenameDir? && other.from < k :: |other.from| <= |item.from|
  }

  lemma CompatibleMembers(items: seq<Item>, a: Item, b: Item)
    requires WellAuthored(items) && a in items && b in items && a != b
    ensures Compatible(a, b)
  {
    var i :| 0 <= i < |items| && items[i] == a;
    var j :| 0 <= j < |items| && items[j] == b;
    if i < j {
      assert Compatible(items[i], items[j]);
    } else {
      assert Compatible(items[j], items[i]);
    }
  }

  lemma OwnPlaces(items: seq<Item>, a: Item)
    requires WellAuthored(items) && a in items && HasTarget(a)
    ensures Disjoint(a.from, a.to)
  {
    var i :| 0 <= i < |items| && items[i] == a;
    assert HasTarget(items[i]);
  }

  /** Another item touches a key below a renamed directory only by renaming a shallower one. */
  lemma OnlyShallower(items: seq<Item>, item: Item, other: Item, hashes: Manifest, k: Path)
    requires WellAuthored(items) && Deepest(items, item, k) && other in items && other != item
    requires KeyStep(other, hashes, k) != Some(k)
    ensures Rank(other) < Rank(item)
  {
    CompatibleMembers(items, item, other);
    if HasTarget(other) && other.to <= k {
      PrefixesCompare(other.to, item.from, k);
    } else if other.RenameDir? {
      if |other.from| == |item.from| {
        SamePrefix(other.from, item.from, k);
      }
    }
  }

  lemma SortedMembers(items: seq<Item>, x: Item)
    ensures x in SortForExecution(items) <==> x in items
  {
    SortContents(items);
    assert x in items <==> x in multiset(items);
    assert x in SortForExecution(items) <==> x in multiset(SortForExecution(items));
  }

  /** The deepest renamed directory above a key is the one that moves it. */
  lemma DeepestMoves(items: seq<Item>, item: Item, hashes: Manifest, k: Path)
    requires WellAuthored(items) && Deepest(items, item, k)
    ensures KeyFate(SortForExecution(items), hashes, k) == Some(Rebase(k, item.from, item.to))
  {
    var sorted := SortForExecution(items);
    SortedApart(items);
    SortedMembers(items, item);
    var n :| 0 <= n < |sorted| && sorted[n] == item;
    OwnPlaces(items, item);
    RebaseBack(k, item.from, item.to);
    MovedElsewhere(k, item.from, item.to);
    var j := FirstKeyTouch(sorted, hashes, k);
    assert KeyStep(sorted[n], hashes, k) == Some(Rebase(k, item.from, item.to));
    SortedMembers(items, sorted[j]);
    if sorted[j] != item {
      OnlyShallower(items, item, sorted[j], hashes, k);
    }
  }

  lemma MovedElsewhere(k: Path, from: Path, to: Path)
    requires from < k && Disjoint(from, to)
    ensures Rebase(k, from, to) != k
  {
    if Rebase(k, from, to) == k {
      PrefixesCompare(from, to, k);
    }
  }

  /**
   After the sorted run of well-authored items: no key is left below an old directory, a new directory has only the
   keys that its rename brought, each key moves with the deepest renamed directory above it and keeps its hash, and
   keys that no item concerns are untouched.
   */
  lemma SortedManifest(w: World, items: seq<Item>, w': World)
    requires WellAuthored(items) && ExecuteAutos(w, SortForExecution(items)) == Some(w')
    ensures forall item, q | item in items && item.RenameDir? && q in w'.hashes :: !(item.from < q)
    ensures forall item, q | item in items && item.RenameDir? && q in w'.hashes && item.to < q ::
              Rebase(q, item.to, item.from) in w.hashes && w'.hashes[q] == w.hashes[Rebase(q, item.to, item.from)]
    ensures forall item, k | k in w.hashes && Deepest(items, item, k) ::
              Rebase(k, item.from, item.to) in w'.hashes && w'.hashes[Rebase(k, item.from, item.to)] == w.hashes[k]
    ensures forall k | KeyUntouched(items, w.hashes, k) ::
              (k in w'.hashes <==> k in w.hashes) && (k in w.hashes ==> w'.hashes[k] == w.hashes[k])
  {
    var sorted := SortForExecution(items);
    SortedApart(items);
    ManifestFollowsFate(w, sorted, w');
    forall item, q | item in items && item.RenameDir? && q in w'.hashes && (item.from < q || item.to < q)
      ensures item.to < q && !(item.from < q)
      ensures Rebase(q, item.to, item.from) in w.hashes && w'.hashes[q] == w.hashes[Rebase(q, item.to, item.from)]
    {
      SortedMembers(items, item);
      OwnPlaces(items, item);
      var n :| 0 <= n < |sorted| && sorted[n] == item;
      KeysAtRenamed(sorted, w.hashes, w'.hashes, n, q);
      if item.from < q {
        PrefixesCompare(item.from, item.to, q);
      }
    }
    forall item, k | k in w.hashes && Deepest(items, item, k)
      ensures Rebase(k, item.from, item.to) in w'.hashes && w'.hashes[Rebase(k, item.from, item.to)] == w.hashes[k]
    {
      DeepestMoves(items, item, w.hashes, k);
      assert FateOf(sorted, w.hashes)(k) == Some(Rebase(k, item.from, item.to));
    }
    forall k | KeyUntouched(items, w.hashes, k)
      ensures (k in w'.hashes <==> k in w.hashes) && (k in w.hashes ==> w'.hashes[k] == w.hashes[k])
    {
      forall x | x in sorted
        ensures KeyStep(x, w.hashes, k) == Some(k)
      {
        SortedMembers(items, x);
      }
      UntouchedKeyIsNoTarget(sorted, w.hashes, w'.hashes, k);
    }
  }

  /**
   Nested targets defeat the deeper-first order: the shallower rename finds the target that the deeper
   one has just created, removes it, and everything that had been moved there is gone.
   */
  lemma NestedTargetsDestroy(deep: Item, shallow: Item, p: Path)
    requires deep.RenameDir? && shallow.RenameDir?
    requires shallow.from < deep.from && shallow.to <= deep.to && deep.from <= p
    ensures SortForExecution([shallow, deep]) == [deep, shallow]
    ensures Fate([deep, shallow], p) == None
  {
    assert [deep][1..] == [] && [shallow, deep][1..] == [deep] && [deep, shallow][1..] == [shallow];
    assert SortForExecution([deep]) == [deep];
    assert Insert(shallow, [deep]) == [deep] + Insert(shallow, []);
    if FateStep(deep, p).Some? {
      assert deep.to <= Rebase(p, deep.from, deep.to);
    }
  }

  lemma RenameDirRuns(w: World, from: Path, to: Path)
    requires w.Exists(from) && Disjoint(from, to)
    requires forall f | f in w.files :: !(f <= Parent(to))
    ensures ExecuteAuto(w, RenameDir(from, to)).Some?
  {
    var w1 := w.RemoveTree(to);
    var q :| q in w.Entries() && from <= q;
    if to <= q {
      PrefixesCompare(from, to, q);
    }
    assert q in w1.Entries();
    RemoveTreeFiles(w, to);
    var w2 := w1.MkdirP(Parent(to)).value;
    assert q in w2.Entries();
    assert forall e | e in w2.Entries() :: !(to <= e) by {
      forall e | e in w2.Entries()
        ensures !(to <= e)
      {
        assert e in w.Entries() && to <= e ==> w.Exists(to);
      }
    }
  }

  /** A project on which it happens: both renames are classified automatic, the run succeeds, the file is gone. */
  lemma NestedTargetsExample(w: World, mine: Path, other: Path, shallow: Item, deep: Item)
    requires shallow == RenameDir([WORKFLOW, "a"], [WORKFLOW, "x"])
    requires deep == RenameDir([WORKFLOW, "a", "b"], [WORKFLOW, "x", "y"])
    requires mine == [WORKFLOW, "a", "b", "notes.md"] && other == [WORKFLOW, "a", "c.md"]
    requires w.files.Keys == {mine, other} && w.dirs == {} && w.files[mine] != w.files[other]
    ensures ClassOf(shallow, w, map[], map[]) == Some(Auto) && ClassOf(deep, w, map[], map[]) == Some(Auto)
    ensures exists after :: ExecuteAutos(w, SortForExecution([shallow, deep])) == Some(after)
                            && forall q | q in after.files :: after.files[q] != w.files[mine]
  {
    NestedTargetsDestroy(deep, shallow, mine);
    NestedExampleClasses(w, mine, other, shallow, deep);
    var after := NestedExampleRuns(w, mine, other, shallow, deep);
    OnlyTheOtherIsLeft(w, mine, other, [deep, shallow], after);
  }

  lemma NestedExampleRuns(w: World, mine: Path, other: Path, shallow: Item, deep: Item) returns (after: World)
    requires shallow == RenameDir([WORKFLOW, "a"], [WORKFLOW, "x"])
    requires deep == RenameDir([WORKFLOW, "a", "b"], [WORKFLOW, "x", "y"])
    requires mine == [WORKFLOW, "a", "b", "notes.md"] && other == [WORKFLOW, "a", "c.md"]
    requires w.files.Keys == {mine, other}
    ensures ExecuteAutos(w, [deep, shallow]) == Some(after)
  {
    assert deep.from[1] == shallow.from[1] == "a" && deep.to[1] == shallow.to[1] == "x";
    assert mine in w.Entries() && deep.from <= mine;
    assert other[2] != deep.from[2] && other[1] != deep.to[1];
    TwoRenamesRun(w, deep, shallow, other);
    after := ExecuteAutos(w, [deep, shallow]).value;
  }

  lemma OnlyTheOtherIsLeft(w: World, mine: Path, other: Path, items: seq<Item>, after: World)
    requires ExecuteAutos(w, items) == Some(after) && Fate(items, mine) == None
    requires w.files.Keys == {mine, other} && w.files[mine] != w.files[other]
    ensures forall q | q in after.files :: after.files[q] != w.files[mine]
  {
    ExecutionFollowsFate(w, items, after);
    forall q | q in after.files
      ensures after.files[q] == w.files[other]
    {
      var p :| p in w.files && Fate(items, p) == Some(q);
      assert p == other;
    }
  }

  lemma TwoRenamesRun(w: World, deep: Item, shallow: Item, other: Path)
    requires deep.RenameDir? && shallow.RenameDir? && w.Exists(deep.from)
    requires Disjoint(deep.from, deep.to) && Disjoint(shallow.from, shallow.to)
    requires other in w.files && shallow.from <= other && FateStep(deep, other) == Some(other)
    requires forall f | f in w.files :: !(f <= Parent(deep.to))
    requires forall f | f in w.files && FateStep(deep, f).Some? :: !(FateStep(deep, f).value <= Parent(shallow.to))
    ensures ExecuteAutos(w, [deep, shallow]).Some?
  {
    RenameDirRuns(w, deep.from, deep.to);
    var w1 := ExecuteAuto(w, deep).value;
    StepFollowsFate(w, deep, w1);
    assert other in w1.Entries();
    RenameDirRuns(w1, shallow.from, shallow.to);
    assert [deep, shallow][1..] == [shallow] && [shallow][1..] == [];
    assert ExecuteAutos(w1, [shallow]).Some?;
  }

  lemma NotProtected(p: Path)
    requires |p| >= 2 && p[1] in {"a", "x"}
    ensures !IsProtected(p)
  {
    assert |"workspace"| == 9 && |"tasks"| == 5 && |"spec"| == 4 && |"middleware"| == 10;
    assert |".developer"| == 10 && |".current-task"| == 13 && |p[1]| == 1;
    forall root | root in PROTECTED_PATHS
      ensures !(root <= p)
    {
      assert |root| == 2 && |root[1]| > 1;
    }
  }

  lemma NestedExampleClasses(w: World, mine: Path, other: Path, shallow: Item, deep: Item)
    requires shallow == RenameDir([WORKFLOW, "a"], [WORKFLOW, "x"])
    requires deep == RenameDir([WORKFLOW, "a", "b"], [WORKFLOW, "x", "y"])
    requires mine == [WORKFLOW, "a", "b", "notes.md"] && other == [WORKFLOW, "a", "c.md"]
    requires w.files.Keys == {mine, other} && w.dirs == {}
    ensures ClassOf(shallow, w, map[], map[]) == Some(Auto) && ClassOf(deep, w, map[], map[]) == Some(Auto)
  {
    assert mine in w.Entries() && shallow.from <= mine && deep.from <= mine;
    assert mine[1] == other[1] == "a" && shallow.to[1] == deep.to[1] == "x";
    assert forall e | e in w.Entries() :: e == mine || e == other;
    NotProtected(shallow.from);
    NotProtected(deep.from);
  }
}
