/**
 The `update.skip` list of config.yaml: a line-by-line reader and a separately written editor.
 Both are state machines over the same kinds of line; the theorems say when they agree.
 */
module SkipConfig {
  import opened Text

  // ---------- Kinds of line ----------

  datatype Indent = Space | Tab | Flush

  datatype Kind = Update | Header(indent: Indent) | Entry(path: string, indent: Indent) | Quiet | Other(indent: Indent)

  function IndentOf(t: string): Indent {
    if StartsWith(t, " ") then Space else if StartsWith(t, "\t") then Tab else Flush
  }

  function StripQuotes(s: string): string {
    var t := if s != "" && s[0] in "'\"" then s[1..] else s;
    if t != "" && t[|t| - 1] in "'\"" then t[..|t| - 1] else t
  }

  /** The text after `- `, when the trimmed line is an indented list item. */
  function EntryBody(t: string): string {
    var dash := SkipSpace(t);
    if |dash| < |t| && |dash| >= 2 && dash[0] == '-' && IsSpace(dash[1]) then
      var body := SkipSpace(dash[1..]);
      if exists c | c in "\n\r\U{2028}\U{2029}" :: c in body then "" else body
    else ""
  }

  function KindOf(line: string): Kind {
    var t := TrimEnd(line);
    if t == "update:" then Update
    else if t != "skip:" && SkipSpace(t) == "skip:" then Header(IndentOf(t))
    else if EntryBody(t) != "" then Entry(StripQuotes(EntryBody(t)), IndentOf(t))
    else if t == "" || StartsWith(t, "#") then Quiet
    else Other(IndentOf(t))
  }

  function MapLines<K>(f: string -> K, lines: seq<string>): (ks: seq<K>)
    ensures |ks| == |lines|
    ensures forall i | 0 <= i < |ks| :: ks[i] == f(lines[i])
  {
    seq(|lines|, i requires 0 <= i < |lines| => f(lines[i]))
  }

  function Kinds(lines: seq<string>): (ks: seq<Kind>)
    ensures |ks| == |lines|
  {
    MapLines(KindOf, lines)
  }

  // ---------- Reading ----------

  datatype Place = Outside | InUpdate | InSkip

  function Step(place: Place, k: Kind): Place {
    match k
    case Update => InUpdate
    case Header(_) => if place == Outside then Outside else InSkip
    case Quiet => place
    case Entry(_, indent) =>
      if place == InSkip then InSkip else if place == InUpdate && indent == Space then InUpdate else Outside
    case Other(indent) => if place == InUpdate && indent == Space then InUpdate else Outside
  }

  function Walk(place: Place, ks: seq<Kind>): Place
    decreases |ks|
  {
    if ks == [] then place else Walk(Step(place, ks[0]), ks[1..])
  }

  predicate Collects(place: Place, k: Kind) {
    place == InSkip && k.Entry?
  }

  function Read(place: Place, ks: seq<Kind>): seq<string>
    decreases |ks|
  {
    if ks == [] then []
    else (if Collects(place, ks[0]) then [ks[0].path] else []) + Read(Step(place, ks[0]), ks[1..])
  }

  lemma {:induction false} WalkAppend(place: Place, a: seq<Kind>, b: seq<Kind>)
    ensures Walk(place, a + b) == Walk(Walk(place, a), b)
    ensures Read(place, a + b) == Read(place, a) + Read(Walk(place, a), b)
    decreases |a|
  {
    if a == [] {
      assert a + b == b;
    } else {
      assert (a + b)[1..] == a[1..] + b;
      WalkAppend(Step(place, a[0]), a[1..], b);
    }
  }

  lemma ReadOneMore(ks: seq<Kind>, n: nat)
    requires n < |ks|
    ensures Walk(Outside, ks[..n + 1]) == Step(Walk(Outside, ks[..n]), ks[n])
    ensures Read(Outside, ks[..n + 1]) == Read(Outside, ks[..n])
              + if Collects(Walk(Outside, ks[..n]), ks[n]) then [ks[n].path] else []
  {
    assert ks[..n + 1] == ks[..n] + [ks[n]];
    WalkAppend(Outside, ks[..n], [ks[n]]);
  }

  method LoadSkipPaths(ks: seq<Kind>) returns (paths: seq<string>)
    ensures paths == Read(Outside, ks)
  {
    paths := [];
    var inUpdate, inSkip := false, false;
    for n := 0 to |ks|
      invariant paths == Read(Outside, ks[..n])
      invariant inUpdate == (Walk(Outside, ks[..n]) != Outside)
      invariant inSkip == (Walk(Outside, ks[..n]) == InSkip)
    {
      ReadOneMore(ks, n);
      match ks[n] {
        case Update => inUpdate, inSkip := true, false;
        case Header(_) =>
          if inUpdate { inSkip := true; }
        case Entry(path, indent) =>
          if inSkip {
            paths := paths + [path];
          } else if inUpdate && indent != Space {
            inUpdate := false;
          }
        case Quiet =>
        case Other(indent) =>
          if inSkip {
            inSkip, inUpdate := false, false;
          }
          if inUpdate && indent != Space {
            inUpdate, inSkip := false, false;
          }
      }
    }
    assert ks[..|ks|] == ks;
  }

  // ---------- Editing ----------

  function Without(paths: seq<string>, gone: set<string>): seq<string> {
    if paths == [] then []
    else (if paths[0] in gone then [] else [paths[0]]) + Without(paths[1..], gone)
  }

  function Kept<T>(xs: seq<T>, keep: seq<bool>): seq<T>
    requires |xs| == |keep|
  {
    if xs == [] then [] else (if keep[0] then [xs[0]] else []) + Kept(xs[1..], keep[1..])
  }

  /** Which lines stay when only the list items in `gone` are dropped. */
  function KeepEntries(place: Place, ks: seq<Kind>, gone: set<string>): (keep: seq<bool>)
    ensures |keep| == |ks|
    decreases |ks|
  {
    if ks == [] then []
    else [!(Collects(place, ks[0]) && ks[0].path in gone)] + KeepEntries(Step(place, ks[0]), ks[1..], gone)
  }

  /** The last `skip:` line inside an update section, or -1. */
  function LastHeader(ks: seq<Kind>): (h: int)
    ensures -1 <= h < |ks|
    ensures h >= 0 ==> ks[h].Header? && Walk(Outside, ks[..h]) != Outside
    ensures forall i | h < i < |ks| && ks[i].Header? :: Walk(Outside, ks[..i]) == Outside
  {
    if ks == [] then -1
    else
      var n := |ks| - 1;
      assert forall i | 0 <= i <= n :: ks[..n][..i] == ks[..i];
      if ks[n].Header? && Walk(Outside, ks[..n]) != Outside then n else LastHeader(ks[..n])
  }

  /** The last `update:` line, or -1. */
  function LastUpdate(ks: seq<Kind>): (u: int)
    ensures -1 <= u < |ks|
    ensures u >= 0 ==> ks[u].Update?
    ensures forall i | u < i < |ks| :: !ks[i].Update?
  {
    if ks == [] then -1
    else if ks[|ks| - 1].Update? then |ks| - 1
    else LastUpdate(ks[..|ks| - 1])
  }

  /** Does the section that these lines continue still hold an indented line other than `skip:`? */
  function HasOtherKey(ks: seq<Kind>): bool {
    if ks == [] then false
    else match ks[0]
      case Quiet => HasOtherKey(ks[1..])
      case Update => false
      case Header(indent) => indent != Flush && HasOtherKey(ks[1..])
      case Entry(_, indent) => indent != Flush
      case Other(indent) => indent != Flush
  }

  function Keep(ks: seq<Kind>, gone: set<string>): (keep: seq<bool>)
    ensures |keep| == |ks|
  {
    var entries := KeepEntries(Outside, ks, gone);
    var read, h, u := Read(Outside, ks), LastHeader(ks), LastUpdate(ks);
    if Without(read, gone) != [] || read == [] || h < 0 then entries
    else
      var pruned := entries[h := false];
      if u >= 0 && !HasOtherKey(Kept(ks[u + 1..], pruned[u + 1..])) then pruned[u := false] else pruned
  }

  function Within(paths: seq<string>, gone: set<string>): seq<string> {
    if paths == [] then []
    else (if paths[0] in gone then [paths[0]] else []) + Within(paths[1..], gone)
  }

  lemma {:induction false} WithoutAppend(a: seq<string>, b: seq<string>, gone: set<string>)
    ensures Without(a + b, gone) == Without(a, gone) + Without(b, gone)
  {
    if a == [] {
      assert a + b == b;
    } else {
      assert (a + b)[1..] == a[1..] + b;
      WithoutAppend(a[1..], b, gone);
    }
  }

  lemma {:induction false} WithinAppend(a: seq<string>, b: seq<string>, gone: set<string>)
    ensures Within(a + b, gone) == Within(a, gone) + Within(b, gone)
  {
    if a == [] {
      assert a + b == b;
    } else {
      assert (a + b)[1..] == a[1..] + b;
      WithinAppend(a[1..], b, gone);
    }
  }

  lemma {:induction false} KeepAppend(place: Place, a: seq<Kind>, b: seq<Kind>, gone: set<string>)
    ensures KeepEntries(place, a + b, gone) == KeepEntries(place, a, gone) + KeepEntries(Walk(place, a), b, gone)
    decreases |a|
  {
    if a == [] {
      assert a + b == b;
    } else {
      assert (a + b)[1..] == a[1..] + b;
      KeepAppend(Step(place, a[0]), a[1..], b, gone);
    }
  }

  lemma EditOneMore(ks: seq<Kind>, n: nat, gone: set<string>)
    requires n < |ks|
    ensures var place, k := Walk(Outside, ks[..n]), ks[n];
            && KeepEntries(Outside, ks[..n + 1], gone)
               == KeepEntries(Outside, ks[..n], gone) + [!(Collects(place, k) && k.path in gone)]
            && Without(Read(Outside, ks[..n + 1]), gone)
               == Without(Read(Outside, ks[..n]), gone) + (if Collects(place, k) && k.path !in gone then [k.path] else [])
            && Within(Read(Outside, ks[..n + 1]), gone)
               == Within(Read(Outside, ks[..n]), gone) + (if Collects(place, k) && k.path in gone then [k.path] else [])
            && LastUpdate(ks[..n + 1]) == (if k.Update? then n else LastUpdate(ks[..n]))
            && LastHeader(ks[..n + 1]) == (if k.Header? && place != Outside then n else LastHeader(ks[..n]))
  {
    ReadOneMore(ks, n);
    assert ks[..n + 1] == ks[..n] + [ks[n]] && ks[..n + 1][..n] == ks[..n];
    KeepAppend(Outside, ks[..n], [ks[n]], gone);
    var now := if Collects(Walk(Outside, ks[..n]), ks[n]) then [ks[n].path] else [];
    WithoutAppend(Read(Outside, ks[..n]), now, gone);
    WithinAppend(Read(Outside, ks[..n]), now, gone);
  }

  lemma NothingGone(place: Place, ks: seq<Kind>, gone: set<string>)
    requires Within(Read(place, ks), gone) == []
    ensures forall i | 0 <= i < |ks| :: KeepEntries(place, ks, gone)[i]
    ensures Without(Read(place, ks), gone) == Read(place, ks)
    decreases |ks|
  {
    if ks != [] {
      var now := if Collects(place, ks[0]) then [ks[0].path] else [];
      WithoutAppend(now, Read(Step(place, ks[0]), ks[1..]), gone);
      WithinAppend(now, Read(Step(place, ks[0]), ks[1..]), gone);
      NothingGone(Step(place, ks[0]), ks[1..], gone);
    }
  }

  lemma KeptFrom<T>(xs: seq<T>, keep: seq<bool>, i: nat)
    requires |keep| == |xs| && i < |xs|
    ensures Kept(xs[i..], keep[i..]) == (if keep[i] then [xs[i]] else []) + Kept(xs[i + 1..], keep[i + 1..])
  {
    assert xs[i..][1..] == xs[i + 1..] && keep[i..][1..] == keep[i + 1..];
  }

  lemma OtherKeyStep(k: Kind, rest: seq<Kind>)
    ensures HasOtherKey([k] + rest) == if k.Quiet? || (k.Header? && k.indent != Flush) then HasOtherKey(rest)
                                       else !k.Update? && k.indent != Flush
  {
    assert ([k] + rest)[1..] == rest;
  }

  method HasOtherUpdateKey(ks: seq<Kind>, keep: seq<bool>, from: nat) returns (r: bool)
    requires |keep| == |ks| && from <= |ks|
    ensures r == HasOtherKey(Kept(ks[from..], keep[from..]))
  {
    for i := from to |ks|
      invariant HasOtherKey(Kept(ks[i..], keep[i..])) == HasOtherKey(Kept(ks[from..], keep[from..]))
    {
      KeptFrom(ks, keep, i);
      var k := ks[i];
      ghost var rest := Kept(ks[i + 1..], keep[i + 1..]);
      OtherKeyStep(k, rest);
      assert !keep[i] ==> Kept(ks[i..], keep[i..]) == rest;
      if keep[i] && !k.Quiet? {
        if k.Update? || k.indent == Flush {
          return false;
        }
        if !k.Header? {
          return true;
        }
      }
    }
    return false;
  }

  /** The editor: which lines stay, and which items went. */
  method RemoveSkipPaths(ks: seq<Kind>, gone: set<string>) returns (keep: seq<bool>, removed: seq<string>)
    ensures keep == Keep(ks, gone) && removed == Within(Read(Outside, ks), gone)
  {
    keep, removed := [], [];
    var inUpdate, inSkip := false, false;
    var updateLine, skipLine := -1, -1;
    var remaining: seq<string> := [];
    for n := 0 to |ks|
      invariant keep == KeepEntries(Outside, ks[..n], gone)
      invariant removed == Within(Read(Outside, ks[..n]), gone)
      invariant remaining == Without(Read(Outside, ks[..n]), gone)
      invariant updateLine == LastUpdate(ks[..n]) && skipLine == LastHeader(ks[..n])
      invariant inUpdate == (Walk(Outside, ks[..n]) != Outside)
      invariant inSkip == (Walk(Outside, ks[..n]) == InSkip)
    {
      ReadOneMore(ks, n);
      EditOneMore(ks, n, gone);
      var stays := true;
      match ks[n] {
        case Update =>
          inUpdate, inSkip, updateLine := true, false, n;
        case Header(_) =>
          if inUpdate { inSkip, skipLine := true, n; }
        case Entry(path, indent) =>
          if inSkip {
            if path in gone {
              stays, removed := false, removed + [path];
            } else {
              remaining := remaining + [path];
            }
          } else if inUpdate && indent != Space {
            inUpdate := false;
          }
        case Quiet =>
        case Other(indent) =>
          if inSkip {
            inSkip, inUpdate := false, false;
          }
          if inUpdate && indent != Space {
            inUpdate, inSkip := false, false;
          }
      }
      keep := keep + [stays];
    }
    assert ks[..|ks|] == ks;
    if removed == [] {
      NothingGone(Outside, ks, gone);
      return;
    }
    if remaining == [] && skipLine >= 0 {
      keep := keep[skipLine := false];
      if updateLine >= 0 {
        var other := HasOtherUpdateKey(ks, keep, updateLine + 1);
        if !other {
          keep := keep[updateLine := false];
        }
      }
    } else if remaining == [] {
      HeaderNeeded(ks);
    }
  }

  lemma {:induction false} HeaderNeeded(ks: seq<Kind>)
    requires LastHeader(ks) < 0
    ensures Read(Outside, ks) == [] && Walk(Outside, ks) != InSkip
    decreases |ks|
  {
    if ks != [] {
      var n := |ks| - 1;
      HeaderNeeded(ks[..n]);
      ReadOneMore(ks, n);
      assert ks[..n + 1] == ks;
    }
  }
}
