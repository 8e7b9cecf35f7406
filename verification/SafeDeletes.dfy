/** Hash-verified deletion of deprecated files, and what it guarantees when others edit meanwhile. */
module SafeDeletes {
  import opened Wrappers
  import opened Paths
  import opened Workspace
  import opened Migrations

  datatype Verdict = Remove | Missing | Modified | Protected | UpdateSkip

  datatype Judged = Judged(item: Item, verdict: Verdict)

  predicate Allowed(item: Item, file: File) {
    item.SafeDelete? && ComputeHash(file.bytes) in item.allowed
  }

  function VerdictOf(item: Item, w: World, skips: seq<string>, bypass: bool): Verdict
    requires item.SafeDelete?
  {
    if !w.Exists(item.from) then Missing
    else if IsProtected(item.from) then Protected
    else if !bypass && exists s | s in skips :: Skips(s, item.from) then UpdateSkip
    else if item.allowed == [] then Modified
    else if item.from !in w.files then Missing
    else if Allowed(item, w.files[item.from]) then Remove
    else Modified
  }

  function Judge(items: seq<Item>, w: World, skips: seq<string>, bypass: bool): seq<Judged> {
    if items == [] then []
    else
      var last := items[|items| - 1];
      Judge(items[..|items| - 1], w, skips, bypass)
      + if last.SafeDelete? then [Judged(last, VerdictOf(last, w, skips, bypass))] else []
  }

  method CollectSafeFileDeletes(items: seq<Item>, w: World, skips: seq<string>, bypass: bool) returns (r: seq<Judged>)
    ensures r == Judge(items, w, skips, bypass)
  {
    r := [];
    for n := 0 to |items|
      invariant r == Judge(items[..n], w, skips, bypass)
    {
      assert items[..n + 1][..n] == items[..n];
      if items[n].SafeDelete? {
        r := r + [Judged(items[n], VerdictOf(items[n], w, skips, bypass))];
      }
    }
    assert items[..|items|] == items;
  }

  /** The content is checked again at the moment of deletion. */
  function DeleteOne(w: World, j: Judged): World {
    if j.verdict == Remove && j.item.from in w.files && Allowed(j.item, w.files[j.item.from]) then
      w.Unlink(j.item.from).value.RemoveHash(j.item.from).CleanupEmptyDirs(Parent(j.item.from))
    else w
  }

  function DeleteAll(w: World, judged: seq<Judged>): World
    decreases |judged|
  {
    if judged == [] then w else DeleteAll(DeleteOne(w, judged[0]), judged[1..])
  }

  ghost predicate Deletes(judged: seq<Judged>, p: Path, file: File) {
    exists j | j in judged :: j.verdict == Remove && j.item.from == p && Allowed(j.item, file)
  }

  /** Some of the deletions have happened, in order; on a faulty disk the others have failed and were passed over. */
  ghost predicate SomeDeleted(w: World, judged: seq<Judged>, h: World)
    decreases |judged|
  {
    if judged == [] then h == w
    else SomeDeleted(w, judged[1..], h) || SomeDeleted(DeleteOne(w, judged[0]), judged[1..], h)
  }

  method ExecuteSafeFileDeletes(root: Root, judged: seq<Judged>) returns (deleted: nat)
    modifies root
    ensures !root.faulty ==> root.View() == DeleteAll(old(root.View()), judged)
    // Failures are swallowed one by one; even then only allow-listed content goes.
    ensures forall p | p in root.files :: p in old(root.files) && root.files[p] == old(root.files)[p]
    ensures forall p | p in old(root.files) && p !in root.files :: Deletes(judged, p, old(root.files)[p])
    ensures SomeDeleted(old(root.View()), judged, root.View())
    ensures deleted <= |judged|
  {
    deleted := 0;
    for n := 0 to |judged|
      invariant !root.faulty ==> DeleteAll(root.View(), judged[n..]) == DeleteAll(old(root.View()), judged)
      invariant forall p | p in root.files :: p in old(root.files) && root.files[p] == old(root.files)[p]
      invariant forall p | p in old(root.files) && p !in root.files :: Deletes(judged, p, old(root.files)[p])
      invariant forall h :: SomeDeleted(root.View(), judged[n..], h) ==> SomeDeleted(old(root.View()), judged, h)
      invariant deleted <= n
    {
      var j := judged[n];
      var from := j.item.from;
      if j.verdict == Remove && from in root.files && Allowed(j.item, root.files[from]) {
        assert j in judged && Deletes(judged, from, root.files[from]);
        var ok := root.Attempt(root.View().Unlink(from));
        if ok {
          root.Store(root.View().RemoveHash(from));
          root.CleanupEmptyDirs(Parent(from));
          deleted := deleted + 1;
        }
      }
    }
  }

  /** Exactly the allow-listed files go; the others keep their content. */
  lemma {:induction false} DeleteAllExact(w: World, judged: seq<Judged>)
    ensures forall p :: p in DeleteAll(w, judged).files <==> p in w.files && !Deletes(judged, p, w.files[p])
    ensures forall p | p in DeleteAll(w, judged).files :: DeleteAll(w, judged).files[p] == w.files[p]
    decreases |judged|
  {
    if judged != [] {
      var w1 := DeleteOne(w, judged[0]);
      DeleteAllExact(w1, judged[1..]);
      forall p | p in w.files
        ensures Deletes(judged, p, w.files[p]) <==>
                Deletes([judged[0]], p, w.files[p]) || Deletes(judged[1..], p, w.files[p])
      {
        assert judged == [judged[0]] + judged[1..];
      }
      forall p | p in w.files
        ensures p in w1.files <==> !Deletes([judged[0]], p, w.files[p])
      {
        assert judged[0] in [judged[0]];
      }
    }
  }

  lemma JudgedSound(items: seq<Item>, w: World, skips: seq<string>, bypass: bool, j: Judged)
    requires j in Judge(items, w, skips, bypass)
    ensures j.item in items && j.item.SafeDelete? && j.verdict == VerdictOf(j.item, w, skips, bypass)
  {
  }

  // ---------- Interference ----------

  /** Between classification and the end of the deletions, anybody may write or remove files. */
  datatype Event = Save(path: Path, file: File) | Erase(path: Path) | Turn(judged: Judged)

  function Happen(w: World, e: Event): World {
    match e
    case Save(p, file) => w.(files := w.files[p := file])
    case Erase(p) => w.(files := w.files - {p})
    case Turn(j) => DeleteOne(w, j)
  }

  function Replay(w: World, events: seq<Event>): World
    decreases |events|
  {
    if events == [] then w else Replay(Happen(w, events[0]), events[1..])
  }

  function HappenWithoutTurn(files: map<Path, File>, e: Event): map<Path, File> {
    match e
    case Save(p, file) => files[p := file]
    case Erase(p) => files - {p}
    case Turn(_) => files
  }

  /** What the files would be if nothing were deleted on the program's behalf. */
  function WithoutTurns(files: map<Path, File>, events: seq<Event>): map<Path, File>
    decreases |events|
  {
    if events == [] then files else WithoutTurns(HappenWithoutTurn(files, events[0]), events[1..])
  }

  ghost predicate TurnsFrom(events: seq<Event>, judged: seq<Judged>) {
    forall e | e in events && e.Turn? :: e.judged in judged
  }

  /** `actual` is `expected` less files that were marked for removal and hold allow-listed content. */
  ghost predicate Shadows(actual: map<Path, File>, expected: map<Path, File>, judged: seq<Judged>) {
    && (forall p | p in actual :: p in expected && expected[p] == actual[p])
    && (forall p | p in expected && p !in actual :: Deletes(judged, p, expected[p]))
  }

  lemma EventShadows(w: World, files: map<Path, File>, e: Event, judged: seq<Judged>)
    requires e.Turn? ==> e.judged in judged
    requires Shadows(w.files, files, judged)
    ensures Shadows(Happen(w, e).files, HappenWithoutTurn(files, e), judged)
  {
  }

  /** Whatever happens in between, and however the events interleave. */
  lemma {:induction false} RaceIsSafe(w: World, files: map<Path, File>, events: seq<Event>, judged: seq<Judged>)
    requires TurnsFrom(events, judged)
    requires Shadows(w.files, files, judged)
    ensures Shadows(Replay(w, events).files, WithoutTurns(files, events), judged)
    decreases |events|
  {
    if events != [] {
      assert events[0] in events;
      EventShadows(w, files, events[0], judged);
      RaceIsSafe(Happen(w, events[0]), HappenWithoutTurn(files, events[0]), events[1..], judged);
    }
  }

  /** In particular protected files and files whose content is on no allow-list survive the race. */
  lemma RaceKeepsUserData(items: seq<Item>, seen: World, skips: seq<string>, bypass: bool,
                          w: World, events: seq<Event>, p: Path)
    requires TurnsFrom(events, Judge(items, seen, skips, bypass))
    requires p in WithoutTurns(w.files, events)
    requires || IsProtected(p)
             || forall item | item in items && item.from == p :: !Allowed(item, WithoutTurns(w.files, events)[p])
    ensures p in Replay(w, events).files && Replay(w, events).files[p] == WithoutTurns(w.files, events)[p]
  {
    var judged := Judge(items, seen, skips, bypass);
    RaceIsSafe(w, w.files, events, judged);
    if p !in Replay(w, events).files {
      var j :| j in judged && j.verdict == Remove && j.item.from == p && Allowed(j.item, WithoutTurns(w.files, events)[p]);
      JudgedSound(items, seen, skips, bypass, j);
    }
  }

  // ---------- Directory cleanup ----------

  /** Only empty directories strictly below a managed root go, and cleanup stops only where it must. */
  lemma {:induction false} CleanupExact(w: World, d: Path)
    ensures var w' := w.CleanupEmptyDirs(d);
            && (forall x | w'.IsDir(x) :: w.IsDir(x))
            && (w'.IsDir(d) ==> IsManagedRoot(d) || w'.HasChild(d) || !IsManaged(d))
            && (forall x | w.IsDir(x) && !w'.IsDir(x) ::
                  && x <= d && IsManaged(x) && !IsManagedRoot(x) && (forall f | f in w.files :: !(x <= f))
                  && (w'.IsDir(Parent(x)) ==> IsManagedRoot(Parent(x)) || w'.HasChild(Parent(x)) || !IsManaged(Parent(x))))
    decreases |d|
  {
    if IsManaged(d) && !IsManagedRoot(d) && w.IsDir(d) && !w.HasChild(d) {
      var w1 := w.(dirs := w.dirs - {d} + {Parent(d)});
      RmdirExact(w, d);
      if !(d == [] || Parent(d) == [] || IsManagedRoot(Parent(d))) {
        CleanupExact(w1, Parent(d));
      }
    }
  }

  lemma RmdirExact(w: World, d: Path)
    requires d != [] && w.IsDir(d) && !w.HasChild(d)
    ensures var w1 := w.(dirs := w.dirs - {d} + {Parent(d)});
            && (forall x :: w1.IsDir(x) <==> w.IsDir(x) && x != d)
            && (forall f | f in w.files :: !(d <= f))
  {
    var w1 := w.(dirs := w.dirs - {d} + {Parent(d)});
    forall x | w.IsDir(x) && x != d
      ensures w1.IsDir(x)
    {
      var q :| q in w.Entries() && x <= q;
      if q == d {
        assert x <= Parent(d) && Parent(d) in w1.Entries();
      } else {
        assert q in w1.Entries();
      }
    }
    forall x | w1.IsDir(x)
      ensures w.IsDir(x) && x != d
    {
      var q :| q in w1.Entries() && x <= q;
      var e :| e in w.Entries() && d <= e;
      if q == Parent(d) {
        assert x <= e && |x| < |d|;
      } else {
        assert q in w.Entries() && !(d < q);
        if d <= q {
          PrefixOrEqual(d, q);
        }
      }
    }
    forall f | f in w.files
      ensures !(d <= f)
    {
      assert f in w.Entries() && !(d < f);
      if d <= f {
        PrefixOrEqual(d, f);
      }
    }
  }
}
