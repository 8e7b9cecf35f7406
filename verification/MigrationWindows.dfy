/** Which manifests an upgrade applies, and what they add up to. */
module MigrationWindows {
  import opened Sorting
  import opened Versions
  import Migrations

  type Comparator = (string, string) -> int

  datatype Section = Section(name: string, text: string)

  datatype Guide = Guide(version: string, guide: string, aiInstructions: string)

  /** One manifest; absent texts are empty and an absent section list has no sections. */
  datatype Manifest = Manifest(
    migrations: seq<Migrations.Item>, configSectionsAdded: seq<Section>,
    changelog: string, breaking: bool, recommendMigrate: bool,
    migrationGuide: string, aiInstructions: string)

  /** The loaded manifests by version, and the versions in the order in which they were first loaded. */
  datatype Manifests = Manifests(byVersion: map<string, Manifest>, keys: seq<string>)

  datatype Metadata = Metadata(changelog: seq<string>, breaking: bool, recommendMigrate: bool, guides: seq<Guide>)

  // ---------- The window ----------

  /** After `from` and not after `to`. */
  function Between(order: Comparator, from: string, to: string): string -> bool {
    v => order(v, from) > 0 && order(v, to) <= 0
  }

  function Window(order: Comparator, keys: seq<string>, from: string, to: string): seq<string> {
    Filter(Between(order, from, to), Sort(order, keys))
  }

  lemma AllAfter(order: Comparator, s: seq<string>, b: string)
    requires TotalPreorder(order) && Sorted(order, s) && s != [] && order(s[0], b) > 0
    ensures forall v | v in s :: order(v, b) > 0
  {
    SortedTail(order, s);
    forall v | v in s
      ensures order(v, b) > 0
    {
      Ordered(order, s[0], v, b);
      assert v == s[0] || v in s[1..];
    }
  }

  /** Everything is after `b`: the window up to `b` is empty and the other two are one. */
  lemma SplitBefore(order: Comparator, s: seq<string>, a: string, b: string, c: string)
    requires TotalPreorder(order) && order(a, b) <= 0 && forall v | v in s :: order(v, b) > 0
    ensures Filter(Between(order, a, b), s) == [] && Filter(Between(order, a, c), s) == Filter(Between(order, b, c), s)
  {
    FilterNone(Between(order, a, b), s);
    forall v | v in s
      ensures Between(order, a, c)(v) == Between(order, b, c)(v)
    {
      Ordered(order, v, a, b);
    }
    FilterSame(Between(order, a, c), Between(order, b, c), s);
  }

  lemma NotAfter(order: Comparator, v: string, a: string, b: string, c: string)
    requires TotalPreorder(order) && order(v, b) <= 0 && order(b, c) <= 0
    ensures Between(order, a, c)(v) == Between(order, a, b)(v) && !Between(order, b, c)(v)
  {
    Ordered(order, v, b, c);
  }

  lemma Rejoined<T>(head: seq<T>, b: seq<T>, c: seq<T>, x: seq<T>, y: seq<T>)
    requires x == head + (b + c) && y == head + b
    ensures x == y + c
  {
  }

  lemma FilterTakes(keep: string -> bool, s: seq<string>, head: seq<string>)
    requires s != [] && head == if keep(s[0]) then [s[0]] else []
    ensures Filter(keep, s) == head + Filter(keep, s[1..])
  {
  }

  lemma FilterSkips(keep: string -> bool, s: seq<string>)
    requires s != [] && !keep(s[0])
    ensures Filter(keep, s) == Filter(keep, s[1..])
  {
    assert [] + Filter(keep, s[1..]) == Filter(keep, s[1..]);
  }

  lemma HeadJoins(all: string -> bool, first: string -> bool, second: string -> bool, s: seq<string>)
    requires s != [] && all(s[0]) == first(s[0]) && !second(s[0])
    requires Filter(all, s[1..]) == Filter(first, s[1..]) + Filter(second, s[1..])
    ensures Filter(all, s) == Filter(first, s) + Filter(second, s)
  {
    var head := if all(s[0]) then [s[0]] else [];
    FilterTakes(all, s, head);
    FilterTakes(first, s, head);
    FilterSkips(second, s);
    Rejoined(head, Filter(first, s[1..]), Filter(second, s[1..]), Filter(all, s), Filter(first, s));
  }

  lemma {:induction false} FilterSplits(order: Comparator, s: seq<string>, a: string, b: string, c: string)
    requires TotalPreorder(order) && Sorted(order, s) && order(a, b) <= 0 && order(b, c) <= 0
    ensures Filter(Between(order, a, c), s) == Filter(Between(order, a, b), s) + Filter(Between(order, b, c), s)
  {
    if s != [] {
      if order(s[0], b) > 0 {
        AllAfter(order, s, b);
        SplitBefore(order, s, a, b, c);
      } else {
        SortedTail(order, s);
        FilterSplits(order, s[1..], a, b, c);
        NotAfter(order, s[0], a, b, c);
        HeadJoins(Between(order, a, c), Between(order, a, b), Between(order, b, c), s);
      }
    }
  }

  /** Stopping at `b` on the way from `a` to `c` splits the window, without a gap or an overlap. */
  lemma WindowsCompose(order: Comparator, keys: seq<string>, a: string, b: string, c: string)
    requires TotalPreorder(order) && order(a, b) <= 0 && order(b, c) <= 0
    ensures Window(order, keys, a, c) == Window(order, keys, a, b) + Window(order, keys, b, c)
  {
    SortSorts(order, keys);
    FilterSplits(order, Sort(order, keys), a, b, c);
  }

  /** Staying at a version or going back applies nothing. */
  lemma NoWayBack(order: Comparator, keys: seq<string>, from: string, to: string)
    requires TotalPreorder(order) && order(to, from) <= 0
    ensures Window(order, keys, from, to) == []
  {
    forall v | v in Sort(order, keys)
      ensures !Between(order, from, to)(v)
    {
      Ordered(order, v, to, from);
    }
    FilterNone(Between(order, from, to), Sort(order, keys));
  }

  // ---------- What is collected from a window ----------

  function Collect<T>(of: string -> seq<T>, versions: seq<string>): seq<T> {
    if versions == [] then [] else Collect(of, versions[..|versions| - 1]) + of(versions[|versions| - 1])
  }

  lemma {:induction false} CollectAppend<T>(of: string -> seq<T>, s: seq<string>, t: seq<string>)
    ensures Collect(of, s + t) == Collect(of, s) + Collect(of, t)
  {
    if t == [] {
      assert s + t == s;
    } else {
      assert (s + t)[..|s + t| - 1] == s + t[..|t| - 1];
      CollectAppend(of, s, t[..|t| - 1]);
    }
  }

  function MigrationsOf(m: map<string, Manifest>): string -> seq<Migrations.Item> {
    v => if v in m then m[v].migrations else []
  }

  function SectionsOf(m: map<string, Manifest>): string -> seq<Section> {
    v => if v in m then m[v].configSectionsAdded else []
  }

  function ChangelogOf(m: map<string, Manifest>): string -> seq<string> {
    v => if v in m && m[v].changelog != "" then ["v" + v + ": " + m[v].changelog] else []
  }

  function GuidesOf(m: map<string, Manifest>): string -> seq<Guide> {
    v => if v in m && m[v].migrationGuide != "" then [Guide(v, m[v].migrationGuide, m[v].aiInstructions)] else []
  }

  predicate SomeBreaking(m: map<string, Manifest>, versions: seq<string>) {
    exists v | v in versions :: v in m && m[v].breaking
  }

  predicate SomeRecommend(m: map<string, Manifest>, versions: seq<string>) {
    exists v | v in versions :: v in m && m[v].recommendMigrate
  }

  function MetadataOf(m: map<string, Manifest>, versions: seq<string>): Metadata {
    Metadata(Collect(ChangelogOf(m), versions), SomeBreaking(m, versions), SomeRecommend(m, versions),
             Collect(GuidesOf(m), versions))
  }

  function Applicable(m: Manifests, from: string, to: string): seq<string> {
    Window(Order, m.keys, from, to)
  }

  // ---------- The collecting loops ----------

  lemma CollectOneMore<T>(of: string -> seq<T>, versions: seq<string>, i: nat)
    requires i < |versions|
    ensures Collect(of, versions[..i + 1]) == Collect(of, versions[..i]) + of(versions[i])
  {
    assert versions[..i + 1][..i] == versions[..i];
  }

  method CollectMigrations(m: map<string, Manifest>, versions: seq<string>) returns (items: seq<Migrations.Item>)
    ensures items == Collect(MigrationsOf(m), versions)
  {
    items := [];
    for i := 0 to |versions|
      invariant items == Collect(MigrationsOf(m), versions[..i])
    {
      CollectOneMore(MigrationsOf(m), versions, i);
      if versions[i] in m {
        items := items + m[versions[i]].migrations;
      }
    }
    assert versions[..|versions|] == versions;
  }

  method GetMigrationsForVersion(m: Manifests, from: string, to: string) returns (items: seq<Migrations.Item>)
    ensures items == Collect(MigrationsOf(m.byVersion), Applicable(m, from, to))
  {
    items := CollectMigrations(m.byVersion, Applicable(m, from, to));
  }

  method CollectSections(m: map<string, Manifest>, versions: seq<string>) returns (sections: seq<Section>)
    ensures sections == Collect(SectionsOf(m), versions)
  {
    sections := [];
    for i := 0 to |versions|
      invariant sections == Collect(SectionsOf(m), versions[..i])
    {
      CollectOneMore(SectionsOf(m), versions, i);
      if versions[i] in m {
        sections := sections + m[versions[i]].configSectionsAdded;
      }
    }
    assert versions[..|versions|] == versions;
  }

  method GetConfigSectionsAddedBetween(m: Manifests, from: string, to: string) returns (sections: seq<Section>)
    ensures sections == Collect(SectionsOf(m.byVersion), Applicable(m, from, to))
  {
    sections := CollectSections(m.byVersion, Applicable(m, from, to));
  }

  lemma OneMoreVersion(m: map<string, Manifest>, versions: seq<string>, i: nat)
    requires i < |versions|
    ensures var before, after, v := MetadataOf(m, versions[..i]), MetadataOf(m, versions[..i + 1]), versions[i];
            && after.changelog == before.changelog + ChangelogOf(m)(v) && after.guides == before.guides + GuidesOf(m)(v)
            && (after.breaking <==> before.breaking || (v in m && m[v].breaking))
            && (after.recommendMigrate <==> before.recommendMigrate || (v in m && m[v].recommendMigrate))
  {
    assert versions[..i + 1][..i] == versions[..i] && versions[..i + 1] == versions[..i] + [versions[i]];
    assert forall v :: v in versions[..i + 1] <==> v in versions[..i] || v == versions[i];
  }

  method CollectMetadata(m: map<string, Manifest>, versions: seq<string>) returns (r: Metadata)
    ensures r == MetadataOf(m, versions)
  {
    r := Metadata([], false, false, []);
    for i := 0 to |versions|
      invariant r == MetadataOf(m, versions[..i])
    {
      OneMoreVersion(m, versions, i);
      var version := versions[i];
      if version in m {
        var manifest := m[version];
        if manifest.changelog != "" {
          r := r.(changelog := r.changelog + ["v" + version + ": " + manifest.changelog]);
        }
        if manifest.breaking {
          r := r.(breaking := true);
        }
        if manifest.recommendMigrate {
          r := r.(recommendMigrate := true);
        }
        if manifest.migrationGuide != "" {
          r := r.(guides := r.guides + [Guide(version, manifest.migrationGuide, manifest.aiInstructions)]);
        }
      }
    }
    assert versions[..|versions|] == versions;
  }

  method GetMigrationMetadata(m: Manifests, from: string, to: string) returns (r: Metadata)
    ensures r == MetadataOf(m.byVersion, Applicable(m, from, to))
  {
    r := CollectMetadata(m.byVersion, Applicable(m, from, to));
  }

  // ---------- Composition ----------

  function Merge(x: Metadata, y: Metadata): Metadata {
    Metadata(x.changelog + y.changelog, x.breaking || y.breaking, x.recommendMigrate || y.recommendMigrate,
             x.guides + y.guides)
  }

  lemma MetadataMerges(m: map<string, Manifest>, s: seq<string>, t: seq<string>)
    ensures MetadataOf(m, s + t) == Merge(MetadataOf(m, s), MetadataOf(m, t))
  {
    CollectAppend(ChangelogOf(m), s, t);
    CollectAppend(GuidesOf(m), s, t);
    assert forall v :: v in s + t <==> v in s || v in t;
  }

  /** The migrations of a sequence of upgrades, each from one version of the path to the next. */
  function UpgradeSteps<T>(order: Comparator, keys: seq<string>, of: string -> seq<T>, path: seq<string>): seq<T> {
    if |path| < 2 then []
    else Collect(of, Window(order, keys, path[0], path[1])) + UpgradeSteps(order, keys, of, path[1..])
  }

  predicate Rising(order: Comparator, path: seq<string>) {
    forall i | 0 < i < |path| :: order(path[i - 1], path[i]) <= 0
  }

  lemma {:induction false} RisesToItsEnd(order: Comparator, path: seq<string>)
    requires TotalPreorder(order) && Rising(order, path) && path != []
    ensures order(path[0], path[|path| - 1]) <= 0
  {
    if |path| == 1 {
      Ordered(order, path[0], path[0], path[0]);
    } else {
      RisesToItsEnd(order, path[1..]);
      Ordered(order, path[0], path[1], path[|path| - 1]);
    }
  }

  lemma StepThenRest<T>(order: Comparator, keys: seq<string>, of: string -> seq<T>, a: string, b: string, c: string)
    requires TotalPreorder(order) && order(a, b) <= 0 && order(b, c) <= 0
    ensures Collect(of, Window(order, keys, a, c))
            == Collect(of, Window(order, keys, a, b)) + Collect(of, Window(order, keys, b, c))
  {
    WindowsCompose(order, keys, a, b, c);
    CollectAppend(of, Window(order, keys, a, b), Window(order, keys, b, c));
  }

  lemma StayingCollectsNothing<T>(order: Comparator, keys: seq<string>, of: string -> seq<T>, v: string)
    requires TotalPreorder(order)
    ensures Collect(of, Window(order, keys, v, v)) == []
  {
    Ordered(order, v, v, v);
    NoWayBack(order, keys, v, v);
  }

  lemma RisingTail(order: Comparator, path: seq<string>)
    requires TotalPreorder(order) && Rising(order, path) && |path| >= 2
    ensures Rising(order, path[1..]) && order(path[0], path[1]) <= 0 && order(path[1], path[|path| - 1]) <= 0
  {
    RisesToItsEnd(order, path[1..]);
  }

  lemma {:induction false} StepsMakeTheWhole<T>(order: Comparator, keys: seq<string>, of: string -> seq<T>, path: seq<string>)
    requires TotalPreorder(order) && Rising(order, path) && path != []
    ensures UpgradeSteps(order, keys, of, path) == Collect(of, Window(order, keys, path[0], path[|path| - 1]))
  {
    if |path| == 1 {
      StayingCollectsNothing(order, keys, of, path[0]);
    } else {
      RisingTail(order, path);
      StepsMakeTheWhole(order, keys, of, path[1..]);
      StepThenRest(order, keys, of, path[0], path[1], path[|path| - 1]);
    }
  }

  /** However many releases an upgrade stops at, the migrations and sections applied are those of the direct one. */
  lemma UpgradePathsAgree(m: Manifests, path: seq<string>)
    requires path != [] && Rising(Order, path)
    ensures var direct := Applicable(m, path[0], path[|path| - 1]);
            && UpgradeSteps(Order, m.keys, MigrationsOf(m.byVersion), path) == Collect(MigrationsOf(m.byVersion), direct)
            && UpgradeSteps(Order, m.keys, SectionsOf(m.byVersion), path) == Collect(SectionsOf(m.byVersion), direct)
  {
    CompareIsTotalPreorder();
    StepsMakeTheWhole(Order, m.keys, MigrationsOf(m.byVersion), path);
    StepsMakeTheWhole(Order, m.keys, SectionsOf(m.byVersion), path);
  }

  /** Metadata composes too: texts in order, and a flag when either part has it. */
  lemma MetadataComposes(m: Manifests, a: string, b: string, c: string)
    requires Order(a, b) <= 0 && Order(b, c) <= 0
    ensures MetadataOf(m.byVersion, Applicable(m, a, c))
            == Merge(MetadataOf(m.byVersion, Applicable(m, a, b)), MetadataOf(m.byVersion, Applicable(m, b, c)))
  {
    CompareIsTotalPreorder();
    WindowsCompose(Order, m.keys, a, b, c);
    MetadataMerges(m.byVersion, Applicable(m, a, b), Applicable(m, b, c));
  }

  /** A manifest is applied exactly when its version is after the installed one and not after the target. */
  lemma ApplicableExactly(m: Manifests, from: string, to: string, v: string)
    ensures v in Applicable(m, from, to) <==> v in m.keys && Order(v, from) > 0 && Order(v, to) <= 0
  {
    CompareIsTotalPreorder();
    WindowMembers(Order, m.keys, from, to, v);
  }

  lemma WindowMembers(order: Comparator, keys: seq<string>, from: string, to: string, v: string)
    requires TotalPreorder(order)
    ensures v in Window(order, keys, from, to) <==> v in keys && order(v, from) > 0 && order(v, to) <= 0
  {
    SortMembers(order, keys, v);
    FilterMembers(Between(order, from, to), Sort(order, keys), v);
  }
}
