/** When reading `update.skip` after an edit gives the old list less the removed paths. */
module SkipConfigTheorems {
  import opened Text
  import opened SkipConfig

  function Edited(ks: seq<Kind>, gone: set<string>): seq<Kind> {
    Kept(ks, Keep(ks, gone))
  }

  // ---------- While an item remains ----------

  lemma KeptHead(place: Place, ks: seq<Kind>, gone: set<string>)
    requires ks != []
    ensures Kept(ks, KeepEntries(place, ks, gone))
            == (if Collects(place, ks[0]) && ks[0].path in gone then [] else [ks[0]])
               + Kept(ks[1..], KeepEntries(Step(place, ks[0]), ks[1..], gone))
  {
    assert KeepEntries(place, ks, gone)[1..] == KeepEntries(Step(place, ks[0]), ks[1..], gone);
  }

  /** Dropping collected items changes what is collected and nothing else. */
  lemma {:induction false} EntriesCommute(place: Place, ks: seq<Kind>, gone: set<string>)
    ensures Read(place, Kept(ks, KeepEntries(place, ks, gone))) == Without(Read(place, ks), gone)
    ensures Walk(place, Kept(ks, KeepEntries(place, ks, gone))) == Walk(place, ks)
    decreases |ks|
  {
    if ks != [] {
      var next := Step(place, ks[0]);
      var now := if Collects(place, ks[0]) then [ks[0].path] else [];
      EntriesCommute(next, ks[1..], gone);
      WithoutAppend(now, Read(next, ks[1..]), gone);
      var rest := Kept(ks[1..], KeepEntries(next, ks[1..], gone));
      KeptHead(place, ks, gone);
      assert [] + rest == rest && ([ks[0]] + rest)[1..] == rest;
      assert Read(place, ks) == now + Read(next, ks[1..]);
    }
  }

  /** No condition at all: as long as one item stays, reader and editor agree. */
  lemma CommutesWhileItemsRemain(ks: seq<Kind>, gone: set<string>)
    requires Without(Read(Outside, ks), gone) != []
    ensures Read(Outside, Edited(ks, gone)) == Without(Read(Outside, ks), gone)
  {
    EntriesCommute(Outside, ks, gone);
  }

  // ---------- When the list empties ----------

  /** No `skip:` line of `ks` is recognised when reading starts at `place`. */
  predicate NoHeader(place: Place, ks: seq<Kind>)
    decreases |ks|
  {
    ks != [] ==> (ks[0].Header? ==> place == Outside) && NoHeader(Step(place, ks[0]), ks[1..])
  }

  lemma {:induction false} NoHeaderAfterLast(ks: seq<Kind>, i: nat)
    requires LastHeader(ks) < i <= |ks|
    ensures NoHeader(Walk(Outside, ks[..i]), ks[i..])
    decreases |ks| - i
  {
    if i < |ks| {
      ReadOneMore(ks, i);
      NoHeaderAfterLast(ks, i + 1);
      assert ks[i..][1..] == ks[i + 1..];
    }
  }

  lemma {:induction false} NothingCollected(place: Place, ks: seq<Kind>, gone: set<string>)
    requires place != InSkip && NoHeader(place, ks)
    ensures Read(place, ks) == [] && Kept(ks, KeepEntries(place, ks, gone)) == ks
    decreases |ks|
  {
    if ks != [] {
      NothingCollected(Step(place, ks[0]), ks[1..], gone);
    }
  }

  /** What follows the last list: its items, blank lines and comments are skipped. */
  function AfterList(ks: seq<Kind>): (rest: seq<Kind>)
    ensures |rest| <= |ks| && (rest == [] || !(rest[0].Quiet? || rest[0].Entry?))
  {
    if ks != [] && (ks[0].Quiet? || ks[0].Entry?) then AfterList(ks[1..]) else ks
  }

  /** After a `skip:` line: does an item follow, with only blank lines, comments and `skip:` between? */
  predicate ListStarts(ks: seq<Kind>) {
    ks != [] && match ks[0]
                case Quiet => ListStarts(ks[1..])
                case Header(_) => ListStarts(ks[1..])
                case Entry(_, _) => true
                case _ => false
  }

  /** Inside a block of blank-indented lines: is there a `skip:` line that starts a list? */
  predicate Reopens(ks: seq<Kind>) {
    ks != [] && match ks[0]
                case Header(_) => ListStarts(ks[1..])
                case Quiet => Reopens(ks[1..])
                case Update => false
                case Entry(_, indent) => indent == Space && Reopens(ks[1..])
                case Other(indent) => indent == Space && Reopens(ks[1..])
  }

  /** After the last recognised list another indented key follows, and below it a second, ignored, list. */
  predicate SecondListBelow(ks: seq<Kind>) {
    var rest := AfterList(ks);
    rest != [] && rest[0].Other? && rest[0].indent == Space && Reopens(rest[1..])
  }

  /** The last recognised `skip:` line is all that keeps a later, ignored, list from being read. */
  predicate HidesSecondList(ks: seq<Kind>) {
    var h := LastHeader(ks);
    h >= 0 && Walk(Outside, ks[..h]) != InSkip && SecondListBelow(ks[h + 1..])
  }

  lemma {:induction false} TailKeepsOnlyRest(place: Place, ks: seq<Kind>, gone: set<string>)
    requires NoHeader(InSkip, ks) && Without(Read(InSkip, ks), gone) == []
    ensures Read(place, Kept(ks, KeepEntries(InSkip, ks, gone))) == Read(place, AfterList(ks))
    ensures Walk(place, Kept(ks, KeepEntries(InSkip, ks, gone))) == Walk(place, AfterList(ks))
    decreases |ks|
  {
    if ks != [] {
      var kept := Kept(ks[1..], KeepEntries(Step(InSkip, ks[0]), ks[1..], gone));
      KeptHead(InSkip, ks, gone);
      assert [] + kept == kept && ([ks[0]] + kept)[1..] == kept;
      WithoutAppend(if ks[0].Entry? then [ks[0].path] else [], Read(Step(InSkip, ks[0]), ks[1..]), gone);
      if ks[0].Quiet? || ks[0].Entry? {
        TailKeepsOnlyRest(place, ks[1..], gone);
      } else {
        NothingCollected(Step(InSkip, ks[0]), ks[1..], gone);
      }
    }
  }

  lemma {:induction false} OpenListReads(ks: seq<Kind>)
    requires NoHeader(Outside, ks)
    ensures Read(InSkip, ks) != [] <==> ListStarts(ks)
    decreases |ks|
  {
    if ks != [] {
      if ks[0].Quiet? || ks[0].Header? {
        OpenListReads(ks[1..]);
      } else if !ks[0].Entry? {
        NothingCollected(Step(Outside, ks[0]), ks[1..], {});
      }
    }
  }

  lemma {:induction false} OpenBlockReads(ks: seq<Kind>)
    requires NoHeader(Outside, ks)
    ensures Read(InUpdate, ks) != [] <==> Reopens(ks)
    decreases |ks|
  {
    if ks != [] {
      if ks[0].Header? {
        OpenListReads(ks[1..]);
      } else if Step(InUpdate, ks[0]) == Step(Outside, ks[0]) {
        NothingCollected(Step(Outside, ks[0]), ks[1..], {});
      } else {
        OpenBlockReads(ks[1..]);
      }
    }
  }

  /** Without its own header, the rest of the text is read differently exactly when a second list lies below. */
  lemma TailReads(place: Place, ks: seq<Kind>)
    requires NoHeader(InSkip, ks) && place != Outside
    ensures Read(place, AfterList(ks)) == [] <==> place == InSkip || !SecondListBelow(ks)
  {
    var rest := AfterList(ks);
    NoHeaderInRest(ks);
    if rest != [] {
      if Step(place, rest[0]) == Step(InSkip, rest[0]) {
        NothingCollected(Step(InSkip, rest[0]), rest[1..], {});
      } else {
        OpenBlockReads(rest[1..]);
      }
    }
  }

  lemma {:induction false} NoHeaderInRest(ks: seq<Kind>)
    requires NoHeader(InSkip, ks)
    ensures NoHeader(InSkip, AfterList(ks))
    decreases |ks|
  {
    if ks != [] && (ks[0].Quiet? || ks[0].Entry?) {
      NoHeaderInRest(ks[1..]);
    }
  }

  /** Is the first line, but for blank lines and comments, an item that the editor does not take for a key? */
  predicate StartsWithEntry(ks: seq<Kind>) {
    ks != [] && match ks[0]
                case Quiet => StartsWithEntry(ks[1..])
                case Entry(_, indent) => indent == Flush
                case _ => false
  }

  /**
   Without the emptied list and its header another `skip:` line is open where the last `update:` line stands; that line
   goes too, and an item that it has kept from being read follows.
   */
  predicate RevivesEntry(ks: seq<Kind>) {
    var h, u := LastHeader(ks), LastUpdate(ks);
    && 0 <= h < u && StartsWithEntry(ks[u + 1..])
    && Walk(Walk(Outside, ks[..h]), AfterList(ks[h + 1..u])) == InSkip
  }

  lemma {:induction false} OutsideStays(ks: seq<Kind>)
    requires Update !in ks
    ensures Read(Outside, ks) == [] && Walk(Outside, ks) == Outside
    decreases |ks|
  {
    if ks != [] {
      OutsideStays(ks[1..]);
    }
  }

  lemma {:induction false} KeptAppend<T>(xs: seq<T>, keep: seq<bool>, n: nat)
    requires |xs| == |keep| && n <= |xs|
    ensures Kept(xs, keep) == Kept(xs[..n], keep[..n]) + Kept(xs[n..], keep[n..])
  {
    if n == 0 {
      assert xs[n..] == xs && keep[n..] == keep;
    } else {
      KeptAppend(xs[1..], keep[1..], n - 1);
      assert xs[..n][1..] == xs[1..][..n - 1] && keep[..n][1..] == keep[1..][..n - 1];
      assert xs[1..][n - 1..] == xs[n..] && keep[1..][n - 1..] == keep[n..];
    }
  }

  lemma {:induction false} KeptSubset<T>(xs: seq<T>, keep: seq<bool>, x: T)
    requires |xs| == |keep| && x in Kept(xs, keep)
    ensures x in xs
  {
    if !(keep[0] && x == xs[0]) {
      KeptSubset(xs[1..], keep[1..], x);
    }
  }

  lemma KeptSplitAt<T>(xs: seq<T>, keep: seq<bool>, n: nat)
    requires |xs| == |keep| && n < |xs|
    ensures Kept(xs, keep) == Kept(xs[..n], keep[..n]) + (if keep[n] then [xs[n]] else []) + Kept(xs[n + 1..], keep[n + 1..])
  {
    KeptAppend(xs, keep, n);
    KeptFrom(xs, keep, n);
  }

  lemma ReadAroundHeader(ks: seq<Kind>, h: nat)
    requires h < |ks| && ks[h].Header? && Walk(Outside, ks[..h]) != Outside
    ensures Read(Outside, ks) == Read(Outside, ks[..h]) + Read(InSkip, ks[h + 1..])
    ensures Walk(Outside, ks[..h + 1]) == InSkip
  {
    ReadOneMore(ks, h);
    WalkAppend(Outside, ks[..h + 1], ks[h + 1..]);
    assert ks == ks[..h + 1] + ks[h + 1..];
  }

  lemma KeepAroundHeader(ks: seq<Kind>, h: nat, gone: set<string>)
    requires h < |ks| && ks[h].Header? && Walk(Outside, ks[..h + 1]) == InSkip
    ensures KeepEntries(Outside, ks, gone)
            == KeepEntries(Outside, ks[..h], gone) + [true] + KeepEntries(InSkip, ks[h + 1..], gone)
  {
    KeepAppend(Outside, ks[..h + 1], ks[h + 1..], gone);
    assert ks == ks[..h + 1] + ks[h + 1..];
    KeepAppend(Outside, ks[..h], [ks[h]], gone);
    assert ks[..h + 1] == ks[..h] + [ks[h]];
  }

  lemma HeaderDropped(ks: seq<Kind>, h: nat, gone: set<string>)
    requires h < |ks| && ks[h].Header? && Walk(Outside, ks[..h]) != Outside
    ensures Read(Outside, ks) == Read(Outside, ks[..h]) + Read(InSkip, ks[h + 1..])
    ensures Kept(ks, KeepEntries(Outside, ks, gone)[h := false])
            == Kept(ks[..h], KeepEntries(Outside, ks[..h], gone)) + Kept(ks[h + 1..], KeepEntries(InSkip, ks[h + 1..], gone))
  {
    ReadAroundHeader(ks, h);
    KeepAroundHeader(ks, h, gone);
    var before, after := KeepEntries(Outside, ks[..h], gone), KeepEntries(InSkip, ks[h + 1..], gone);
    var keep := KeepEntries(Outside, ks, gone)[h := false];
    assert keep == before + [false] + after;
    assert keep[..h] == before && keep[h + 1..] == after;
    KeptSplitAt(ks, keep, h);
  }

  /** Dropping the emptied list and its header. */
  lemma DropHeaderReads(ks: seq<Kind>, gone: set<string>)
    requires LastHeader(ks) >= 0 && Without(Read(Outside, ks), gone) == []
    ensures var h := LastHeader(ks);
            Read(Outside, Kept(ks, KeepEntries(Outside, ks, gone)[h := false])) == []
            <==> Walk(Outside, ks[..h]) == InSkip || !SecondListBelow(ks[h + 1..])
  {
    var h := LastHeader(ks);
    var a, b := ks[..h], ks[h + 1..];
    HeaderDropped(ks, h, gone);
    WithoutAppend(Read(Outside, a), Read(InSkip, b), gone);
    ReadOneMore(ks, h);
    NoHeaderAfterLast(ks, h + 1);
    WalkAppend(Outside, Kept(a, KeepEntries(Outside, a, gone)), Kept(b, KeepEntries(InSkip, b, gone)));
    EntriesCommute(Outside, a, gone);
    TailKeepsOnlyRest(Walk(Outside, a), b, gone);
    TailReads(Walk(Outside, a), b);
  }

  // ---------- When the `update:` line goes too ----------

  predicate QuietOrHeader(ks: seq<Kind>) {
    forall k | k in ks :: k.Quiet? || k.Header?
  }

  lemma OtherKeyCons(k: Kind, rest: seq<Kind>)
    ensures HasOtherKey([k] + rest) == match k
            case Quiet => HasOtherKey(rest)
            case Update => false
            case Header(indent) => indent != Flush && HasOtherKey(rest)
            case Entry(_, indent) => indent != Flush
            case Other(indent) => indent != Flush
  {
    assert ([k] + rest)[1..] == rest;
  }

  lemma NoKeyHere(k: Kind, rest: seq<Kind>, more: seq<Kind>)
    requires !HasOtherKey(([k] + rest) + more)
    ensures k.Entry? || k.Other? ==> k.indent == Flush
    ensures k.Quiet? ==> !HasOtherKey(rest + more)
  {
    assert ([k] + rest) + more == [k] + (rest + more);
    OtherKeyCons(k, rest + more);
  }

  /** Between the `update:` line and the last `skip:` line of a section without another key nothing else stays. */
  lemma {:induction false} MiddleIsQuiet(place: Place, ks: seq<Kind>, gone: set<string>, more: seq<Kind>)
    requires place != Outside && Update !in ks && Walk(place, ks) != Outside && Without(Read(place, ks), gone) == []
    requires place == InUpdate ==> !HasOtherKey(Kept(ks, KeepEntries(place, ks, gone)) + more)
    ensures QuietOrHeader(Kept(ks, KeepEntries(place, ks, gone)))
    decreases |ks|
  {
    if ks != [] {
      var k, next := ks[0], Step(place, ks[0]);
      var rest := Kept(ks[1..], KeepEntries(next, ks[1..], gone));
      KeptHead(place, ks, gone);
      NoneOfAll(if Collects(place, k) then [k.path] else [], Read(next, ks[1..]), gone);
      assert k in ks && forall x | x in ks[1..] :: x in ks;
      NothingAdded(rest);
      if next == Outside {
        OutsideStays(ks[1..]);
      } else {
        if place == InUpdate {
          NoKeyHere(k, rest, more);
        }
        MiddleIsQuiet(next, ks[1..], gone, more);
      }
    }
  }

  lemma {:induction false} QuietReads(place: Place, ks: seq<Kind>)
    requires QuietOrHeader(ks)
    ensures Read(place, ks) == [] && Walk(place, ks) in {place, InSkip} && (place == Outside ==> Walk(place, ks) == Outside)
    ensures Walk(place, ks) == InUpdate ==> forall more :: HasOtherKey(ks + more) == HasOtherKey(more)
    decreases |ks|
  {
    if ks == [] {
      assert forall more :: ks + more == more;
    } else {
      assert ks[0] in ks && forall k | k in ks[1..] :: k in ks;
      QuietReads(Step(place, ks[0]), ks[1..]);
      forall more
        ensures ks[0].Quiet? ==> HasOtherKey(ks + more) == HasOtherKey(ks[1..] + more)
      {
        assert ks + more == [ks[0]] + (ks[1..] + more);
        OtherKeyCons(ks[0], ks[1..] + more);
      }
    }
  }

  /** The first line behind an emptied list is another key, unless the editor does not see it as one. */
  lemma {:induction false} KeyAfterList(ks: seq<Kind>, gone: set<string>)
    requires Without(Read(InSkip, ks), gone) == [] && !HasOtherKey(Kept(ks, KeepEntries(InSkip, ks, gone)))
    ensures AfterList(ks) != [] && AfterList(ks)[0].Other? ==> AfterList(ks)[0].indent == Flush
    decreases |ks|
  {
    if ks != [] {
      var next, rest := Step(InSkip, ks[0]), Kept(ks[1..], KeepEntries(Step(InSkip, ks[0]), ks[1..], gone));
      KeptHead(InSkip, ks, gone);
      WithoutAppend(if Collects(InSkip, ks[0]) then [ks[0].path] else [], Read(next, ks[1..]), gone);
      OtherKeyCons(ks[0], rest);
      assert [] + rest == rest;
      if ks[0].Quiet? || ks[0].Entry? {
        KeyAfterList(ks[1..], gone);
      }
    }
  }

  lemma {:induction false} RestOf(ks: seq<Kind>)
    ensures forall k | k in AfterList(ks) :: k in ks
    decreases |ks|
  {
    if ks != [] && (ks[0].Quiet? || ks[0].Entry?) {
      RestOf(ks[1..]);
    }
  }

  /** Behind the last list of a section without another key nothing is read, whatever is open before it. */
  lemma SectionReadsNothing(place: Place, middle: seq<Kind>, ks: seq<Kind>, gone: set<string>)
    requires QuietOrHeader(middle) && NoHeader(InSkip, ks) && Update !in ks && Without(Read(InSkip, ks), gone) == []
    requires !HasOtherKey(middle + Kept(ks, KeepEntries(InSkip, ks, gone)))
    ensures Read(place, middle + Kept(ks, KeepEntries(InSkip, ks, gone))) == []
  {
    var kept, rest := Kept(ks, KeepEntries(InSkip, ks, gone)), AfterList(ks);
    var next := Walk(place, middle);
    QuietReads(place, middle);
    WalkAppend(place, middle, kept);
    TailKeepsOnlyRest(next, ks, gone);
    NoHeaderInRest(ks);
    RestOf(ks);
    if next == InUpdate {
      assert HasOtherKey(middle + kept) == HasOtherKey(kept);
      KeyAfterList(ks, gone);
    }
    if rest != [] {
      assert rest[0] in rest && rest[0].Other? && Step(next, rest[0]) == Outside;
      assert forall k | k in rest[1..] :: k in rest;
      OutsideStays(rest[1..]);
    }
  }

  lemma {:induction false} KeptConcat<T>(xs: seq<T>, ys: seq<T>, kx: seq<bool>, ky: seq<bool>)
    requires |xs| == |kx| && |ys| == |ky|
    ensures Kept(xs + ys, kx + ky) == Kept(xs, kx) + Kept(ys, ky)
  {
    KeptAppend(xs + ys, kx + ky, |xs|);
    assert (xs + ys)[..|xs|] == xs && (xs + ys)[|xs|..] == ys && (kx + ky)[..|xs|] == kx && (kx + ky)[|xs|..] == ky;
  }

  lemma KeptOne<T>(x: T, stays: bool)
    ensures Kept([x], [stays]) == if stays then [x] else []
  {
    assert [x][1..] == [] && [stays][1..] == [] && Kept([x][1..], [stays][1..]) == [];
  }

  lemma KeptAround<T>(xs: seq<T>, x: T, ys: seq<T>, kx: seq<bool>, stays: bool, ky: seq<bool>)
    requires |xs| == |kx| && |ys| == |ky|
    ensures Kept(xs + [x] + ys, kx + [stays] + ky) == Kept(xs, kx) + (if stays then [x] else []) + Kept(ys, ky)
  {
    KeptConcat(xs + [x], ys, kx + [stays], ky);
    KeptConcat(xs, [x], kx, [stays]);
    KeptOne(x, stays);
  }

  lemma Regroup<T>(a: seq<T>, x: T, b: seq<T>)
    ensures a + [x] + b == a + ([x] + b)
  {
  }

  lemma ConsLine(place: Place, x: Kind, b: seq<Kind>, gone: set<string>)
    requires !x.Entry?
    ensures Read(place, [x] + b) == Read(Step(place, x), b) && Walk(place, [x] + b) == Walk(Step(place, x), b)
    ensures KeepEntries(place, [x] + b, gone) == [true] + KeepEntries(Step(place, x), b, gone)
  {
    assert ([x] + b)[1..] == b && ([x] + b)[0] == x;
    assert [] + Read(Step(place, x), b) == Read(Step(place, x), b);
  }

  /** Reading and dropping items around a line that is no item. */
  lemma AroundLine(place: Place, a: seq<Kind>, x: Kind, b: seq<Kind>, gone: set<string>)
    requires !x.Entry?
    ensures var next := Step(Walk(place, a), x);
            && Read(place, a + [x] + b) == Read(place, a) + Read(next, b) && Walk(place, a + [x] + b) == Walk(next, b)
            && KeepEntries(place, a + [x] + b, gone) == KeepEntries(place, a, gone) + [true] + KeepEntries(next, b, gone)
  {
    Regroup(a, x, b);
    WalkAppend(place, a, [x] + b);
    KeepAppend(place, a, [x] + b, gone);
    ConsLine(Walk(place, a), x, b, gone);
    Regroup(KeepEntries(place, a, gone), true, KeepEntries(Step(Walk(place, a), x), b, gone));
  }

  /** Around two lines that are no items. */
  lemma AroundTwo(a: seq<Kind>, x: Kind, m: seq<Kind>, y: Kind, b: seq<Kind>, gone: set<string>, inner: Place, last: Place)
    requires !x.Entry? && !y.Entry? && inner == Step(Walk(Outside, a), x) && last == Step(Walk(inner, m), y)
    ensures var ks := a + [x] + (m + [y] + b);
            && Read(Outside, ks) == Read(Outside, a) + (Read(inner, m) + Read(last, b))
            && KeepEntries(Outside, ks, gone) == KeepEntries(Outside, a, gone) + [true]
                                                 + (KeepEntries(inner, m, gone) + [true] + KeepEntries(last, b, gone))
  {
    AroundLine(Outside, a, x, m + [y] + b, gone);
    AroundLine(inner, m, y, b, gone);
  }

  lemma SetTwo(ka: seq<bool>, km: seq<bool>, kb: seq<bool>, x: bool, y: bool)
    ensures (ka + [true] + (km + [true] + kb))[|ka| + 1 + |km| := y] == ka + [true] + (km + [y] + kb)
    ensures (ka + [true] + (km + [y] + kb))[|ka| := x] == ka + [x] + (km + [y] + kb)
  {
  }

  /** The lines that stay around the header and the `update:` line, whichever comes first, when either goes. */
  lemma StayAround(a: seq<Kind>, x: Kind, m: seq<Kind>, y: Kind, b: seq<Kind>, ka: seq<bool>, km: seq<bool>, kb: seq<bool>,
                   stayX: bool, stayY: bool)
    requires |a| == |ka| && |m| == |km| && |b| == |kb|
    ensures Kept(a + [x] + (m + [y] + b), ka + [stayX] + (km + [stayY] + kb))
            == Kept(a, ka) + (if stayX then [x] else []) + (Kept(m, km) + (if stayY then [y] else []) + Kept(b, kb))
  {
    KeptAround(m, y, b, km, stayY, kb);
    KeptAround(a, x, m + [y] + b, ka, stayX, km + [stayY] + kb);
  }

  lemma NoneOfAll(a: seq<string>, b: seq<string>, gone: set<string>)
    requires Without(a + b, gone) == []
    ensures Without(a, gone) == [] && Without(b, gone) == []
  {
    WithoutAppend(a, b, gone);
  }

  /** With the last list below the last `update:` line nothing is left to read, with that line or without. */
  lemma EmptiedBelowUpdate(a: seq<Kind>, m: seq<Kind>, b: seq<Kind>, gone: set<string>)
    requires Update !in m && Update !in b && Walk(InUpdate, m) != Outside && NoHeader(InSkip, b)
    requires Without(Read(Outside, a) + (Read(InUpdate, m) + Read(InSkip, b)), gone) == []
    requires !HasOtherKey(Kept(m, KeepEntries(InUpdate, m, gone)) + Kept(b, KeepEntries(InSkip, b, gone)))
    ensures var head := Kept(a, KeepEntries(Outside, a, gone));
            var tail := Kept(m, KeepEntries(InUpdate, m, gone)) + Kept(b, KeepEntries(InSkip, b, gone));
            Read(Outside, head + [Update] + tail) == [] && Read(Outside, head + tail) == []
  {
    var head := Kept(a, KeepEntries(Outside, a, gone));
    var middle, kept := Kept(m, KeepEntries(InUpdate, m, gone)), Kept(b, KeepEntries(InSkip, b, gone));
    NoneOfAll(Read(Outside, a), Read(InUpdate, m) + Read(InSkip, b), gone);
    NoneOfAll(Read(InUpdate, m), Read(InSkip, b), gone);
    EntriesCommute(Outside, a, gone);
    MiddleIsQuiet(InUpdate, m, gone, kept);
    SectionReadsNothing(InUpdate, middle, b, gone);
    SectionReadsNothing(Walk(Outside, head), middle, b, gone);
    WalkAppend(Outside, head, middle + kept);
    AroundLine(Outside, head, Update, middle + kept, gone);
  }

  /** After an open list, lines without another key are read only if they begin with an item. */
  lemma {:induction false} OpenTailReads(ks: seq<Kind>)
    requires NoHeader(InUpdate, ks) && Update !in ks && !HasOtherKey(ks)
    ensures Read(InSkip, ks) != [] <==> StartsWithEntry(ks)
    decreases |ks|
  {
    if ks != [] {
      assert ks[0] in ks && forall k | k in ks[1..] :: k in ks;
      if ks[0].Quiet? {
        OpenTailReads(ks[1..]);
      } else if ks[0].Other? {
        OutsideStays(ks[1..]);
      }
    }
  }

  lemma {:induction false} EntryIsNoKey(ks: seq<Kind>)
    requires StartsWithEntry(ks)
    ensures !HasOtherKey(ks)
  {
    if ks[0].Quiet? {
      EntryIsNoKey(ks[1..]);
    }
  }

  /** With the last list above the last `update:` line, an open list may get what that line has kept from it. */
  lemma EmptiedAboveUpdate(a: seq<Kind>, c: seq<Kind>, d: seq<Kind>, gone: set<string>)
    requires NoHeader(InSkip, c) && NoHeader(InUpdate, d) && Update !in d && !HasOtherKey(d)
    requires Without(Read(Outside, a) + (Read(InSkip, c) + Read(InUpdate, d)), gone) == []
    ensures var head := Kept(a, KeepEntries(Outside, a, gone)) + Kept(c, KeepEntries(InSkip, c, gone));
            Read(Outside, head + d) == []
            <==> && Read(Outside, head + [Update] + d) == []
                 && !(Walk(Walk(Outside, a), AfterList(c)) == InSkip && StartsWithEntry(d))
  {
    var ka, kc := Kept(a, KeepEntries(Outside, a, gone)), Kept(c, KeepEntries(InSkip, c, gone));
    NoneOfAll(Read(Outside, a), Read(InSkip, c) + Read(InUpdate, d), gone);
    NoneOfAll(Read(InSkip, c), Read(InUpdate, d), gone);
    EntriesCommute(Outside, a, gone);
    TailKeepsOnlyRest(Walk(Outside, a), c, gone);
    WalkAppend(Outside, ka, kc);
    WalkAppend(Outside, ka + kc, d);
    AroundLine(Outside, ka + kc, Update, d, gone);
    NothingCollected(InUpdate, d, gone);
    OutsideStays(d);
    OpenTailReads(d);
  }

  lemma NoHeaderBehind(ks: seq<Kind>, n: nat)
    requires LastHeader(ks) <= n < |ks|
    ensures NoHeader(Step(Walk(Outside, ks[..n]), ks[n]), ks[n + 1..])
  {
    PlaceAfter(ks, n);
    NoHeaderAfterLast(ks, n + 1);
  }

  lemma LastHeaderAround(ks: seq<Kind>, h: nat, u: nat)
    requires h < u < |ks| && h == LastHeader(ks) && ks[u].Update?
    ensures NoHeader(InSkip, ks[h + 1..u]) && NoHeader(InUpdate, ks[u + 1..])
  {
    NoHeaderBehind(ks, h);
    NoHeaderBehind(ks, u);
    Between(ks, h, u);
    NoHeaderPrefix(InSkip, ks[h + 1..u], ks[u..]);
  }

  lemma Between(ks: seq<Kind>, h: nat, u: nat)
    requires h < u < |ks|
    ensures ks[h + 1..] == ks[h + 1..u] + ks[u..]
  {
  }

  lemma PlaceAfter(ks: seq<Kind>, n: nat)
    requires n < |ks|
    ensures Walk(Outside, ks[..n + 1]) == Step(Walk(Outside, ks[..n]), ks[n])
  {
    ReadOneMore(ks, n);
  }

  lemma {:induction false} NoHeaderPrefix(place: Place, a: seq<Kind>, b: seq<Kind>)
    requires NoHeader(place, a + b)
    ensures NoHeader(place, a)
    decreases |a|
  {
    if a != [] {
      assert (a + b)[1..] == a[1..] + b;
      NoHeaderPrefix(Step(place, a[0]), a[1..], b);
    }
  }

  /**
   When the edit empties the list, reading afterwards finds nothing unless the removed header was the only thing that
   closed the update section before a second `skip:` list, which then comes alive; or unless the `update:` line that
   goes with it was all that kept an item behind another open `skip:` line from being read. However lines are indented.
   */
  lemma CommutesWhenEmptied(ks: seq<Kind>, gone: set<string>)
    requires Read(Outside, ks) != [] && Without(Read(Outside, ks), gone) == []
    ensures Read(Outside, Edited(ks, gone)) == Without(Read(Outside, ks), gone) <==> !HidesSecondList(ks) && !RevivesEntry(ks)
  {
    if LastHeader(ks) < 0 {
      HeaderNeeded(ks);
    }
    var h, u := LastHeader(ks), LastUpdate(ks);
    DropHeaderReads(ks, gone);
    if 0 <= u < h {
      var pruned := WhenEmptied(ks, gone, h, u);
      CommutesBelow(ks, gone, u, h, pruned, HidesSecondList(ks));
    } else if h < u {
      var pruned := WhenEmptied(ks, gone, h, u);
      CommutesAbove(ks, gone, h, u, pruned, HidesSecondList(ks));
    }
  }

  lemma Parts(ks: seq<Kind>, i: nat, j: nat)
    requires i < j < |ks|
    ensures ks == ks[..i] + [ks[i]] + (ks[i + 1..j] + [ks[j]] + ks[j + 1..])
    ensures ks[..j] == ks[..i] + [ks[i]] + ks[i + 1..j]
  {
  }

  lemma FactsBelow(ks: seq<Kind>, u: nat, h: nat)
    requires u < h && u == LastUpdate(ks) && h == LastHeader(ks)
    ensures Walk(InUpdate, ks[u + 1..h]) != Outside && NoHeader(InSkip, ks[h + 1..])
    ensures Update !in ks[u + 1..h] && Update !in ks[h + 1..]
  {
    Parts(ks, u, h);
    AroundLine(Outside, ks[..u], Update, ks[u + 1..h], {});
    ReadOneMore(ks, h);
    NoHeaderAfterLast(ks, h + 1);
  }

  lemma CommutesBelow(ks: seq<Kind>, gone: set<string>, u: nat, h: nat, pruned: seq<bool>, hides: bool)
    requires u < h && u == LastUpdate(ks) && h == LastHeader(ks) && Without(Read(Outside, ks), gone) == []
    requires StayWhenEmptied(ks, gone, h, u, pruned) && (Read(Outside, Kept(ks, pruned)) == [] <==> !hides)
    ensures Read(Outside, Edited(ks, gone)) == [] <==> !hides
  {
    var a, m, header, b := PartsBelow(ks, u, h);
    EmptiedBelow(ks, gone, a, m, header, b, pruned, u, h);
  }

  /** The last list, headed between `m` and `b`, stands below the last `update:` line, which `a` precedes. */
  ghost predicate ListBelow(ks: seq<Kind>, a: seq<Kind>, m: seq<Kind>, header: Kind, b: seq<Kind>) {
    && ks == a + [Update] + (m + [header] + b) && header.Header? && Walk(InUpdate, m) != Outside
    && NoHeader(InSkip, b) && Update !in m && Update !in b
  }

  lemma PartsBelow(ks: seq<Kind>, u: nat, h: nat) returns (a: seq<Kind>, m: seq<Kind>, header: Kind, b: seq<Kind>)
    requires u < h && u == LastUpdate(ks) && h == LastHeader(ks)
    ensures ListBelow(ks, a, m, header, b) && |a| == u && |a| + 1 + |m| == h
  {
    a, m, header, b := ks[..u], ks[u + 1..h], ks[h], ks[h + 1..];
    Parts(ks, u, h);
    FactsBelow(ks, u, h);
  }

  lemma EmptiedBelow(ks: seq<Kind>, gone: set<string>, a: seq<Kind>, m: seq<Kind>, header: Kind, b: seq<Kind>, pruned: seq<bool>,
                     u: nat, h: nat)
    requires ListBelow(ks, a, m, header, b) && Without(Read(Outside, ks), gone) == []
    requires u == |a| && h == |a| + 1 + |m| && h < |ks| && StayWhenEmptied(ks, gone, h, u, pruned)
    ensures Read(Outside, Edited(ks, gone)) == [] <==> Read(Outside, Kept(ks, pruned)) == []
  {
    EditedBelow(ks, gone, a, m, header, b, pruned, u, h);
    var tail := Kept(m, KeepEntries(InUpdate, m, gone)) + Kept(b, KeepEntries(InSkip, b, gone));
    if !HasOtherKey(tail) {
      AroundTwo(a, Update, m, header, b, gone, InUpdate, InSkip);
      EmptiedBelowUpdate(a, m, b, gone);
    }
  }

  /** The lines that stay when the list empties: not the header at `h`, and the `update:` line at `u` only for another key. */
  ghost predicate StayWhenEmptied(ks: seq<Kind>, gone: set<string>, h: nat, u: nat, pruned: seq<bool>)
    requires h < |ks| && u < |ks|
  {
    && pruned == KeepEntries(Outside, ks, gone)[h := false]
    && Edited(ks, gone) == Kept(ks, if !HasOtherKey(Kept(ks[u + 1..], pruned[u + 1..])) then pruned[u := false] else pruned)
  }

  lemma WhenEmptied(ks: seq<Kind>, gone: set<string>, h: nat, u: nat) returns (pruned: seq<bool>)
    requires h == LastHeader(ks) && u == LastUpdate(ks) && Read(Outside, ks) != [] && Without(Read(Outside, ks), gone) == []
    ensures StayWhenEmptied(ks, gone, h, u, pruned)
  {
    pruned := KeepEntries(Outside, ks, gone)[h := false];
  }

  /** What the edit leaves when it empties a list below the last `update:` line. */
  lemma EditedBelow(ks: seq<Kind>, gone: set<string>, a: seq<Kind>, m: seq<Kind>, header: Kind, b: seq<Kind>, pruned: seq<bool>,
                     u: nat, h: nat)
    requires ListBelow(ks, a, m, header, b) && u == |a| && h == |a| + 1 + |m| && h < |ks| && StayWhenEmptied(ks, gone, h, u, pruned)
    ensures var head := Kept(a, KeepEntries(Outside, a, gone));
            var tail := Kept(m, KeepEntries(InUpdate, m, gone)) + Kept(b, KeepEntries(InSkip, b, gone));
            && Kept(ks, pruned) == head + [Update] + tail
            && Edited(ks, gone) == if HasOtherKey(tail) then head + [Update] + tail else head + tail
  {
    var ka, km, kb := KeepEntries(Outside, a, gone), KeepEntries(InUpdate, m, gone), KeepEntries(InSkip, b, gone);
    PrunedBelow(ks, gone, a, m, header, b, pruned);
    KeptBelow(a, m, header, b, ka, km, kb, true);
    KeptBelow(a, m, header, b, ka, km, kb, false);
    KeptBehind(a, m, header, b, ka, km, kb);
  }

  lemma PrunedBelow(ks: seq<Kind>, gone: set<string>, a: seq<Kind>, m: seq<Kind>, header: Kind, b: seq<Kind>, pruned: seq<bool>)
    requires ListBelow(ks, a, m, header, b) && pruned == KeepEntries(Outside, ks, gone)[|a| + 1 + |m| := false]
    ensures var ka, km, kb := KeepEntries(Outside, a, gone), KeepEntries(InUpdate, m, gone), KeepEntries(InSkip, b, gone);
            pruned == ka + [true] + (km + [false] + kb) && pruned[|a| := false] == ka + [false] + (km + [false] + kb)
  {
    AroundTwo(a, Update, m, header, b, gone, InUpdate, InSkip);
    SetTwo(KeepEntries(Outside, a, gone), KeepEntries(InUpdate, m, gone), KeepEntries(InSkip, b, gone), false, false);
  }

  lemma KeptBelow(a: seq<Kind>, m: seq<Kind>, header: Kind, b: seq<Kind>, ka: seq<bool>, km: seq<bool>, kb: seq<bool>, stays: bool)
    requires |a| == |ka| && |m| == |km| && |b| == |kb|
    ensures Kept(a + [Update] + (m + [header] + b), ka + [stays] + (km + [false] + kb))
            == Kept(a, ka) + (if stays then [Update] else []) + (Kept(m, km) + Kept(b, kb))
    ensures Kept(a, ka) + [] == Kept(a, ka)
  {
    StayAround(a, Update, m, header, b, ka, km, kb, stays, false);
    NothingAdded(Kept(a, ka));
    NothingAdded(Kept(m, km));
  }

  lemma KeptBehind(a: seq<Kind>, m: seq<Kind>, header: Kind, b: seq<Kind>, ka: seq<bool>, km: seq<bool>, kb: seq<bool>)
    requires |a| == |ka| && |m| == |km| && |b| == |kb|
    ensures Kept((a + [Update] + (m + [header] + b))[|a| + 1..], (ka + [true] + (km + [false] + kb))[|a| + 1..])
            == Kept(m, km) + Kept(b, kb)
  {
    Behind(a, Update, m + [header] + b, ka, true, km + [false] + kb);
    KeptAround(m, header, b, km, false, kb);
    NothingAdded(Kept(m, km));
  }

  lemma NothingAdded<T>(s: seq<T>)
    ensures s + [] == s
  {
  }

  lemma Behind<T>(xs: seq<T>, x: T, ys: seq<T>, kx: seq<bool>, stays: bool, ky: seq<bool>)
    requires |xs| == |kx| && |ys| == |ky|
    ensures (xs + [x] + ys)[|xs| + 1..] == ys && (kx + [stays] + ky)[|xs| + 1..] == ky
  {
  }

  lemma CommutesAbove(ks: seq<Kind>, gone: set<string>, h: nat, u: nat, pruned: seq<bool>, hides: bool)
    requires h < u && u == LastUpdate(ks) && h == LastHeader(ks) && Without(Read(Outside, ks), gone) == []
    requires StayWhenEmptied(ks, gone, h, u, pruned) && (Read(Outside, Kept(ks, pruned)) == [] <==> !hides)
    ensures Read(Outside, Edited(ks, gone)) == [] <==> !hides && !RevivesEntry(ks)
  {
    var a, header, c, d := PartsAbove(ks, h, u);
    EmptiedAbove(ks, gone, a, header, c, d, pruned, h, u);
  }

  /** The last list, headed between `a` and `c`, stands above the last `update:` line, which `d` follows. */
  ghost predicate ListAbove(ks: seq<Kind>, a: seq<Kind>, header: Kind, c: seq<Kind>, d: seq<Kind>) {
    && ks == a + [header] + (c + [Update] + d) && header.Header? && Walk(Outside, a) != Outside
    && NoHeader(InSkip, c) && NoHeader(InUpdate, d) && Update !in d
  }

  lemma PartsAbove(ks: seq<Kind>, h: nat, u: nat) returns (a: seq<Kind>, header: Kind, c: seq<Kind>, d: seq<Kind>)
    requires h < u && u == LastUpdate(ks) && h == LastHeader(ks)
    ensures ListAbove(ks, a, header, c, d) && |a| == h && |a| + 1 + |c| == u
    ensures RevivesEntry(ks) <==> Walk(Walk(Outside, a), AfterList(c)) == InSkip && StartsWithEntry(d)
  {
    a, header, c, d := ks[..h], ks[h], ks[h + 1..u], ks[u + 1..];
    Parts(ks, h, u);
    LastHeaderAround(ks, h, u);
  }

  lemma EmptiedAbove(ks: seq<Kind>, gone: set<string>, a: seq<Kind>, header: Kind, c: seq<Kind>, d: seq<Kind>, pruned: seq<bool>,
                     h: nat, u: nat)
    requires ListAbove(ks, a, header, c, d) && Without(Read(Outside, ks), gone) == []
    requires h == |a| && u == |a| + 1 + |c| && u < |ks| && StayWhenEmptied(ks, gone, h, u, pruned)
    ensures Read(Outside, Edited(ks, gone)) == []
            <==> Read(Outside, Kept(ks, pruned)) == [] && !(Walk(Walk(Outside, a), AfterList(c)) == InSkip && StartsWithEntry(d))
  {
    EditedAbove(ks, gone, a, header, c, d, pruned, h, u);
    if !HasOtherKey(d) {
      AroundTwo(a, header, c, Update, d, gone, InSkip, InUpdate);
      EmptiedAboveUpdate(a, c, d, gone);
    } else if StartsWithEntry(d) {
      EntryIsNoKey(d);
    }
  }

  /** What the edit leaves when it empties a list above the last `update:` line. */
  lemma EditedAbove(ks: seq<Kind>, gone: set<string>, a: seq<Kind>, header: Kind, c: seq<Kind>, d: seq<Kind>, pruned: seq<bool>,
                     h: nat, u: nat)
    requires ListAbove(ks, a, header, c, d)
    requires h == |a| && u == |a| + 1 + |c| && u < |ks| && StayWhenEmptied(ks, gone, h, u, pruned)
    ensures var head := Kept(a, KeepEntries(Outside, a, gone)) + Kept(c, KeepEntries(InSkip, c, gone));
            && Kept(ks, pruned) == head + [Update] + d
            && Edited(ks, gone) == if HasOtherKey(d) then head + [Update] + d else head + d
  {
    TailAbove(ks, gone, a, header, c, d, pruned, h, u);
    EditedByTail(ks, gone, h, u, pruned, d, KeepEntries(InUpdate, d, gone));
    KeptWithout(ks, gone, a, header, c, d, pruned, h, u);
  }

  lemma TailAbove(ks: seq<Kind>, gone: set<string>, a: seq<Kind>, header: Kind, c: seq<Kind>, d: seq<Kind>, pruned: seq<bool>,
                  h: nat, u: nat)
    requires ListAbove(ks, a, header, c, d) && h == |a| && u == |a| + 1 + |c| && u < |ks|
    requires pruned == KeepEntries(Outside, ks, gone)[h := false]
    ensures var kd := KeepEntries(InUpdate, d, gone);
            ks[u + 1..] == d && pruned[u + 1..] == kd && Kept(d, kd) == d
  {
    var ka, kc, kd := KeepEntries(Outside, a, gone), KeepEntries(InSkip, c, gone), KeepEntries(InUpdate, d, gone);
    PrunedAbove(ks, gone, a, header, c, d, pruned, h, u);
    NothingCollected(InUpdate, d, gone);
    LastParts(ks, a, header, c, d, pruned, ka, kc, kd, u);
  }

  lemma KeptWithout(ks: seq<Kind>, gone: set<string>, a: seq<Kind>, header: Kind, c: seq<Kind>, d: seq<Kind>, pruned: seq<bool>,
                    h: nat, u: nat)
    requires ListAbove(ks, a, header, c, d) && h == |a| && u == |a| + 1 + |c| && u < |ks|
    requires pruned == KeepEntries(Outside, ks, gone)[h := false]
    ensures var head := Kept(a, KeepEntries(Outside, a, gone)) + Kept(c, KeepEntries(InSkip, c, gone));
            Kept(ks, pruned) == head + [Update] + d && Kept(ks, pruned[u := false]) == head + d
  {
    var ka, kc, kd := KeepEntries(Outside, a, gone), KeepEntries(InSkip, c, gone), KeepEntries(InUpdate, d, gone);
    PrunedAbove(ks, gone, a, header, c, d, pruned, h, u);
    NothingCollected(InUpdate, d, gone);
    KeptBothWays(ks, a, header, c, d, pruned, pruned[u := false], ka, kc, kd);
  }

  lemma EditedByTail(ks: seq<Kind>, gone: set<string>, h: nat, u: nat, pruned: seq<bool>, d: seq<Kind>, kd: seq<bool>)
    requires h < |ks| && u < |ks| && StayWhenEmptied(ks, gone, h, u, pruned)
    requires ks[u + 1..] == d && pruned[u + 1..] == kd && Kept(d, kd) == d
    ensures Edited(ks, gone) == Kept(ks, if HasOtherKey(d) then pruned else pruned[u := false])
  {
  }

  lemma KeptBothWays(ks: seq<Kind>, a: seq<Kind>, header: Kind, c: seq<Kind>, d: seq<Kind>, pruned: seq<bool>, less: seq<bool>,
                   ka: seq<bool>, kc: seq<bool>, kd: seq<bool>)
    requires |a| == |ka| && |c| == |kc| && |d| == |kd| && Kept(d, kd) == d
    requires ks == a + [header] + (c + [Update] + d) && |ks| == |pruned| == |less|
    requires pruned == ka + [false] + (kc + [true] + kd) && less == ka + [false] + (kc + [false] + kd)
    ensures Kept(ks, pruned) == (Kept(a, ka) + Kept(c, kc)) + [Update] + d
    ensures Kept(ks, less) == (Kept(a, ka) + Kept(c, kc)) + d
  {
    KeptAbove(a, header, c, d, ka, kc, kd, true);
    KeptAbove(a, header, c, d, ka, kc, kd, false);
  }

  lemma LastParts(ks: seq<Kind>, a: seq<Kind>, header: Kind, c: seq<Kind>, d: seq<Kind>, pruned: seq<bool>,
                  ka: seq<bool>, kc: seq<bool>, kd: seq<bool>, u: nat)
    requires ks == a + [header] + (c + [Update] + d) && pruned == ka + [false] + (kc + [true] + kd)
    requires |a| == |ka| && |c| == |kc| && |d| == |kd| && u == |a| + 1 + |c|
    ensures |ks| == |pruned| > u && ks[u + 1..] == d && pruned[u + 1..] == kd
  {
    LastPart(a, header, c, Update, d, u);
    LastPart(ka, false, kc, true, kd, u);
  }

  lemma PrunedAbove(ks: seq<Kind>, gone: set<string>, a: seq<Kind>, header: Kind, c: seq<Kind>, d: seq<Kind>, pruned: seq<bool>,
                    h: nat, u: nat)
    requires ListAbove(ks, a, header, c, d) && h == |a| && u == |a| + 1 + |c|
    requires pruned == KeepEntries(Outside, ks, gone)[h := false]
    ensures var ka, kc, kd := KeepEntries(Outside, a, gone), KeepEntries(InSkip, c, gone), KeepEntries(InUpdate, d, gone);
            pruned == ka + [false] + (kc + [true] + kd) && pruned[u := false] == ka + [false] + (kc + [false] + kd)
  {
    AroundTwo(a, header, c, Update, d, gone, InSkip, InUpdate);
    SetOther(KeepEntries(Outside, a, gone), KeepEntries(InSkip, c, gone), KeepEntries(InUpdate, d, gone), h, u);
  }

  lemma KeptAbove(a: seq<Kind>, header: Kind, c: seq<Kind>, d: seq<Kind>, ka: seq<bool>, kc: seq<bool>, kd: seq<bool>, stays: bool)
    requires |a| == |ka| && |c| == |kc| && |d| == |kd|
    ensures Kept(a + [header] + (c + [Update] + d), ka + [false] + (kc + [stays] + kd))
            == if stays then (Kept(a, ka) + Kept(c, kc)) + [Update] + Kept(d, kd) else (Kept(a, ka) + Kept(c, kc)) + Kept(d, kd)
  {
    StayAround(a, header, c, Update, d, ka, kc, kd, false, stays);
    Joined(Kept(a, ka), Kept(c, kc), Update, Kept(d, kd));
  }

  lemma LastPart<T>(a: seq<T>, x: T, c: seq<T>, y: T, d: seq<T>, u: nat)
    requires u == |a| + 1 + |c|
    ensures (a + [x] + (c + [y] + d))[u + 1..] == d
  {
  }

  lemma Joined(a: seq<Kind>, c: seq<Kind>, x: Kind, d: seq<Kind>)
    ensures a + [] + (c + [x] + d) == (a + c) + [x] + d && a + [] + (c + [] + d) == (a + c) + d
  {
  }

  lemma SetOther(ka: seq<bool>, kc: seq<bool>, kd: seq<bool>, h: nat, u: nat)
    requires h == |ka| && u == |ka| + 1 + |kc|
    ensures (ka + [true] + (kc + [true] + kd))[h := false] == ka + [false] + (kc + [true] + kd)
    ensures (ka + [false] + (kc + [true] + kd))[u := false] == ka + [false] + (kc + [false] + kd)
  {
  }

  lemma {:induction false} NoHeaderLinesReadNothing(place: Place, ks: seq<Kind>)
    requires place != InSkip && forall k | k in ks :: !k.Header?
    ensures Read(place, ks) == []
    decreases |ks|
  {
    if ks != [] {
      assert ks[0] in ks;
      NoHeaderLinesReadNothing(Step(place, ks[0]), ks[1..]);
    }
  }

  /** With one `skip:`-shaped line in the whole text the edit always commutes, however lines are indented. */
  lemma CommutesWithOneHeader(ks: seq<Kind>, gone: set<string>)
    requires forall i, j | 0 <= i < j < |ks| :: !(ks[i].Header? && ks[j].Header?)
    ensures Read(Outside, Edited(ks, gone)) == Without(Read(Outside, ks), gone)
  {
    var read, h := Read(Outside, ks), LastHeader(ks);
    if Without(read, gone) != [] || read == [] || h < 0 {
      EntriesCommute(Outside, ks, gone);
    } else {
      var keep := Keep(ks, gone);
      KeptSplitAt(ks, keep, h);
      forall k | k in Kept(ks, keep)
        ensures !k.Header?
      {
        if k in Kept(ks[..h], keep[..h]) {
          KeptSubset(ks[..h], keep[..h], k);
        } else {
          KeptSubset(ks[h + 1..], keep[h + 1..], k);
        }
      }
      NoHeaderLinesReadNothing(Outside, Kept(ks, keep));
    }
  }

  lemma {:induction false} AllKept<T>(xs: seq<T>, keep: seq<bool>)
    requires |xs| == |keep| && forall i | 0 <= i < |keep| :: keep[i]
    ensures Kept(xs, keep) == xs
  {
    if xs != [] {
      AllKept(xs[1..], keep[1..]);
    }
  }

  lemma {:induction false} WithoutLeavesNone(paths: seq<string>, gone: set<string>)
    ensures Within(Without(paths, gone), gone) == []
  {
    if paths != [] {
      WithoutLeavesNone(paths[1..], gone);
      WithinAppend(if paths[0] in gone then [] else [paths[0]], Without(paths[1..], gone), gone);
    }
  }

  /** Wherever the first edit commutes, repeating it changes nothing. */
  lemma SecondEditIsIdle(ks: seq<Kind>, gone: set<string>)
    requires Read(Outside, Edited(ks, gone)) == Without(Read(Outside, ks), gone)
    ensures Edited(Edited(ks, gone), gone) == Edited(ks, gone)
  {
    var once := Edited(ks, gone);
    WithoutLeavesNone(Read(Outside, ks), gone);
    NothingGone(Outside, once, gone);
    AllKept(once, KeepEntries(Outside, once, gone));
  }

  /** Reader and editor have come to the end of `ks`. */
  ghost predicate Reached(ks: seq<Kind>, place: Place, read: seq<string>, h: int, u: int) {
    Walk(Outside, ks) == place && Read(Outside, ks) == read && LastHeader(ks) == h && LastUpdate(ks) == u
  }

  lemma OneMoreLine(ks: seq<Kind>, n: nat, place: Place, read: seq<string>, h: int, u: int)
    requires n < |ks| && Reached(ks[..n], place, read, h, u)
    ensures Reached(ks[..n + 1], Step(place, ks[n]), if Collects(place, ks[n]) then read + [ks[n].path] else read,
                    if ks[n].Header? && place != Outside then n else h, if ks[n].Update? then n else u)
  {
    ReadOneMore(ks, n);
    EditOneMore(ks, n, {});
  }

  lemma NoLineYet(ks: seq<Kind>)
    ensures Reached(ks[..0], Outside, [], -1, -1) && ks[..|ks|] == ks
  {
  }

  /** A text on which emptying the list brings a second list to life. */
  lemma SecondListExample(ks: seq<Kind>)
    requires ks == [Update, Header(Space), Entry("a", Space), Other(Space), Header(Space), Entry("b", Space)]
    ensures Read(Outside, ks) == ["a"] && Read(Outside, Edited(ks, {"a"})) != []
  {
    SecondListReads(ks);
    assert AfterList(ks[2..]) == ks[3..] by {
      assert ks[2..][1..] == ks[3..];
    }
    assert Reopens(ks[4..]) by {
      assert ks[4..][1..] == ks[5..];
    }
    assert ks[3..][1..] == ks[4..];
    assert Without(["a"], {"a"}) == [];
    CommutesWhenEmptied(ks, {"a"});
  }

  lemma SecondListReads(ks: seq<Kind>)
    requires |ks| == 6 && ks[0].Update? && ks[1].Header? && ks[2] == Entry("a", Space) && ks[3].Other?
    requires ks[4].Header? && ks[5].Entry?
    ensures Reached(ks, Outside, ["a"], 1, 0) && Walk(Outside, ks[..1]) == InUpdate
  {
    NoLineYet(ks);
    OneMoreLine(ks, 0, Outside, [], -1, -1);
    OneMoreLine(ks, 1, InUpdate, [], -1, 0);
    OneMoreLine(ks, 2, InSkip, [], 1, 0);
    OneMoreLine(ks, 3, InSkip, ["a"], 1, 0);
    OneMoreLine(ks, 4, Outside, ["a"], 1, 0);
    OneMoreLine(ks, 5, Outside, ["a"], 1, 0);
  }

  /** A text on which emptying the list revives an item behind the removed `update:` line. */
  lemma RevivedEntryExample(ks: seq<Kind>)
    requires ks == [Update, Header(Space), Header(Space), Entry("a", Space), Update, Entry("b", Flush)]
    ensures Read(Outside, ks) == ["a"] && Read(Outside, Edited(ks, {"a"})) != []
  {
    RevivedEntryReads(ks);
    assert ks[3..4][1..] == [] && AfterList(ks[3..4]) == [];
    assert StartsWithEntry(ks[5..]);
    assert Without(["a"], {"a"}) == [];
    CommutesWhenEmptied(ks, {"a"});
  }

  lemma RevivedEntryReads(ks: seq<Kind>)
    requires |ks| == 6 && ks[0].Update? && ks[1].Header? && ks[2].Header? && ks[3] == Entry("a", Space) && ks[4].Update?
    requires ks[5] == Entry("b", Flush)
    ensures Reached(ks, Outside, ["a"], 2, 4) && Walk(Outside, ks[..2]) == InSkip
  {
    NoLineYet(ks);
    OneMoreLine(ks, 0, Outside, [], -1, -1);
    OneMoreLine(ks, 1, InUpdate, [], -1, 0);
    OneMoreLine(ks, 2, InSkip, [], 1, 0);
    OneMoreLine(ks, 3, InSkip, [], 2, 0);
    OneMoreLine(ks, 4, InSkip, ["a"], 2, 0);
    OneMoreLine(ks, 5, InUpdate, ["a"], 2, 4);
  }
}
