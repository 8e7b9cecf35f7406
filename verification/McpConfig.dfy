/** The managed part of `.cursor/mcp.json`: what a selection writes, and what it leaves alone. */
module McpConfig {
  import opened Wrappers
  import opened JsonObjects

  datatype Server = Server(name: string, command: string, args: seq<string>)

  datatype Capability = Capability(id: string, servers: seq<Server>)

  // ---------- The servers of a selection ----------

  /** The selected capabilities in the order of the registry. */
  function InRegistryOrder(registry: seq<Capability>, selected: set<string>): seq<Capability> {
    if registry == [] then []
    else (if registry[0].id in selected then [registry[0]] else []) + InRegistryOrder(registry[1..], selected)
  }

  function AllServers(capabilities: seq<Capability>): seq<Server> {
    if capabilities == [] then [] else AllServers(capabilities[..|capabilities| - 1]) + capabilities[|capabilities| - 1].servers
  }

  function NamesOf(servers: seq<Server>): set<string> {
    set s | s in servers :: s.name
  }

  /** The first server of each name. */
  function FirstOfEachName(servers: seq<Server>): seq<Server> {
    if servers == [] then []
    else
      var earlier, last := FirstOfEachName(servers[..|servers| - 1]), servers[|servers| - 1];
      if last.name in NamesOf(earlier) then earlier else earlier + [last]
  }

  function UniqueServers(registry: seq<Capability>, selected: set<string>): seq<Server> {
    FirstOfEachName(AllServers(InRegistryOrder(registry, selected)))
  }

  lemma FirstOneMore(before: seq<Server>, servers: seq<Server>, i: nat)
    requires i < |servers|
    ensures var earlier := FirstOfEachName(before + servers[..i]);
            FirstOfEachName(before + servers[..i + 1]) ==
            if servers[i].name in NamesOf(earlier) then earlier else earlier + [servers[i]]
  {
    assert (before + servers[..i + 1])[..|before| + i] == before + servers[..i];
    assert (before + servers[..i + 1])[|before| + i] == servers[i];
  }

  method AddServers(ghost before: seq<Server>, servers: seq<Server>, unique: seq<Server>) returns (r: seq<Server>)
    requires unique == FirstOfEachName(before)
    ensures r == FirstOfEachName(before + servers)
  {
    r := unique;
    ghost var done := before;
    assert servers[..0] == [] && before + [] == before;
    for i := 0 to |servers|
      invariant done == before + servers[..i] && r == FirstOfEachName(done)
    {
      FirstOneMore(before, servers, i);
      done := before + servers[..i + 1];
      if servers[i].name !in NamesOf(r) {
        r := r + [servers[i]];
      }
    }
    assert servers[..|servers|] == servers;
  }

  method UniqueMcpServers(registry: seq<Capability>, selected: set<string>) returns (r: seq<Server>)
    ensures r == UniqueServers(registry, selected)
  {
    var capabilities := InRegistryOrder(registry, selected);
    r := [];
    for i := 0 to |capabilities|
      invariant r == FirstOfEachName(AllServers(capabilities[..i]))
    {
      assert capabilities[..i + 1][..i] == capabilities[..i];
      r := AddServers(AllServers(capabilities[..i]), capabilities[i].servers, r);
    }
    assert capabilities[..|capabilities|] == capabilities;
  }

  function ManagedNames(registry: seq<Capability>): set<string> {
    NamesOf(AllServers(registry))
  }

  // ---------- Rendering ----------

  function Args(args: seq<string>): (r: seq<Json>)
    ensures |r| == |args| && forall i | 0 <= i < |r| :: r[i] == Str(args[i])
  {
    seq(|args|, i requires 0 <= i < |args| => Str(args[i]))
  }

  function EntryOf(s: Server): Member {
    Member(s.name, Obj([Member("command", Str(s.command)), Member("args", Arr(Args(s.args)))]))
  }

  function Desired(servers: seq<Server>): (r: seq<Member>)
    ensures |r| == |servers| && forall i | 0 <= i < |r| :: r[i] == EntryOf(servers[i])
  {
    seq(|servers|, i requires 0 <= i < |servers| => EntryOf(servers[i]))
  }

  function KeysOf(members: seq<Member>): set<string> {
    set m | m in members :: m.key
  }

  function Without(members: seq<Member>, gone: set<string>): seq<Member> {
    if members == [] then []
    else if members[0].key in gone then Without(members[1..], gone)
    else [members[0]] + Without(members[1..], gone)
  }

  function PutAll(members: seq<Member>, desired: seq<Member>): seq<Member> {
    if desired == [] then members
    else
      var last := desired[|desired| - 1];
      Put(PutAll(members, desired[..|desired| - 1]), last.key, last.value)
  }

  /** Managed names that are not wanted go, wanted ones are put. */
  function Merged(existing: seq<Member>, desired: seq<Member>, managed: set<string>): seq<Member> {
    PutAll(Without(existing, managed - KeysOf(desired)), desired)
  }

  function Rendered(registry: seq<Capability>, selected: set<string>, existing: seq<Member>): seq<Member> {
    Merged(existing, Desired(UniqueServers(registry, selected)), ManagedNames(registry))
  }

  lemma {:induction false} WithoutNone(members: seq<Member>, gone: set<string>)
    requires KeysOf(members) !! gone
    ensures Without(members, gone) == members
  {
    if members != [] {
      assert members[0] in members && forall m | m in members[1..] :: m in members;
      assert members[0].key in KeysOf(members);
      forall k | k in KeysOf(members[1..])
        ensures k in KeysOf(members)
      {
      }
      WithoutNone(members[1..], gone);
    }
  }

  lemma {:induction false} RemoveIsWithout(members: seq<Member>, gone: set<string>, key: string)
    requires DistinctKeys(members)
    ensures Remove(Without(members, gone), key) == Without(members, gone + {key})
  {
    if members != [] {
      RemoveIsWithout(members[1..], gone, key);
      assert ([members[0]] + Without(members[1..], gone))[1..] == Without(members[1..], gone);
      if members[0].key == key {
        assert forall m | m in members[1..] :: m.key != key;
        WithoutOneMore(members[1..], gone, key);
      }
    }
  }

  lemma {:induction false} WithoutOneMore(members: seq<Member>, gone: set<string>, key: string)
    requires forall m | m in members :: m.key != key
    ensures Without(members, gone + {key}) == Without(members, gone)
    ensures Remove(Without(members, gone), key) == Without(members, gone)
  {
    if members != [] {
      assert members[0] in members && forall m | m in members[1..] :: m in members;
      WithoutOneMore(members[1..], gone, key);
      assert ([members[0]] + Without(members[1..], gone))[1..] == Without(members[1..], gone);
    }
  }

  /** `existing` is empty when there is none. */
  method RenderMcpJson(registry: seq<Capability>, selected: set<string>, existing: seq<Member>) returns (merged: seq<Member>)
    requires DistinctKeys(existing)
    ensures merged == Rendered(registry, selected, existing)
  {
    var servers := UniqueMcpServers(registry, selected);
    var desired := Desired(servers);
    var managed := AllServers(registry);
    merged := RemoveUnwanted(existing, managed, desired);
    for i := 0 to |desired|
      invariant merged == PutAll(Without(existing, ManagedNames(registry) - KeysOf(desired)), desired[..i])
    {
      assert desired[..i + 1][..i] == desired[..i];
      merged := Put(merged, desired[i].key, desired[i].value);
    }
    assert desired[..|desired|] == desired;
  }

  method RemoveUnwanted(existing: seq<Member>, managed: seq<Server>, desired: seq<Member>) returns (merged: seq<Member>)
    requires DistinctKeys(existing)
    ensures merged == Without(existing, NamesOf(managed) - KeysOf(desired))
  {
    merged := existing;
    WithoutNone(existing, {});
    assert NamesOf(managed[..0]) - KeysOf(desired) == {};
    for i := 0 to |managed|
      invariant merged == Without(existing, NamesOf(managed[..i]) - KeysOf(desired))
    {
      var name := managed[i].name;
      assert managed[..i + 1] == managed[..i] + [managed[i]];
      assert NamesOf(managed[..i + 1]) == NamesOf(managed[..i]) + {name};
      if name !in KeysOf(desired) {
        RemoveIsWithout(existing, NamesOf(managed[..i]) - KeysOf(desired), name);
        assert NamesOf(managed[..i + 1]) - KeysOf(desired) == NamesOf(managed[..i]) - KeysOf(desired) + {name};
        merged := Remove(merged, name);
      } else {
        assert NamesOf(managed[..i + 1]) - KeysOf(desired) == NamesOf(managed[..i]) - KeysOf(desired);
      }
    }
    assert managed[..|managed|] == managed;
  }

  // ---------- Laws ----------

  lemma {:induction false} GetWithout(members: seq<Member>, gone: set<string>, key: string)
    ensures Get(Without(members, gone), key) == if key in gone then None else Get(members, key)
  {
    if members != [] {
      GetWithout(members[1..], gone, key);
      assert ([members[0]] + Without(members[1..], gone))[1..] == Without(members[1..], gone);
    }
  }

  lemma {:induction false} GetPutAll(members: seq<Member>, desired: seq<Member>, key: string)
    requires DistinctKeys(desired)
    ensures Get(PutAll(members, desired), key) == if HasKey(desired, key) then Get(desired, key) else Get(members, key)
  {
    if desired != [] {
      var init, last := desired[..|desired| - 1], desired[|desired| - 1];
      assert desired == init + [last];
      GetPutAll(members, init, key);
      GetPut(PutAll(members, init), last.key, last.value);
      GetAppend(init, [last], key);
      assert last in desired && forall m | m in init :: m in desired;
    }
  }

  lemma HasKeyIn(members: seq<Member>, key: string)
    ensures HasKey(members, key) <==> key in KeysOf(members)
  {
  }

  /** Each managed name has the selection's entry or none; every other name has the entry it had. */
  lemma MergedExactly(existing: seq<Member>, desired: seq<Member>, managed: set<string>, key: string)
    requires DistinctKeys(desired) && KeysOf(desired) <= managed
    ensures Get(Merged(existing, desired, managed), key) ==
            if key in managed then Get(desired, key) else Get(existing, key)
  {
    GetPutAll(Without(existing, managed - KeysOf(desired)), desired, key);
    GetWithout(existing, managed - KeysOf(desired), key);
    HasKeyIn(desired, key);
  }

  lemma {:induction false} FirstsHaveDistinctNames(servers: seq<Server>)
    ensures DistinctKeys(Desired(FirstOfEachName(servers)))
    ensures NamesOf(FirstOfEachName(servers)) == NamesOf(servers)
  {
    if servers != [] {
      var init, last := servers[..|servers| - 1], servers[|servers| - 1];
      FirstsHaveDistinctNames(init);
      assert servers == init + [last];
      assert NamesOf(servers) == NamesOf(init) + {last.name};
      var earlier := FirstOfEachName(init);
      if last.name !in NamesOf(earlier) {
        assert NamesOf(earlier + [last]) == NamesOf(earlier) + {last.name};
        forall i | 0 <= i < |earlier|
          ensures earlier[i].name != last.name
        {
          assert earlier[i].name in NamesOf(earlier);
        }
      }
    }
  }

  lemma {:induction false} SelectedAreManaged(registry: seq<Capability>, selected: set<string>, s: Server)
    requires s in AllServers(InRegistryOrder(registry, selected))
    ensures s in AllServers(registry)
  {
    ServersMembers(InRegistryOrder(registry, selected), s);
    ServersMembers(registry, s);
    var c :| c in InRegistryOrder(registry, selected) && s in c.servers;
    SelectedInRegistry(registry, selected, c);
  }

  lemma {:induction false} SelectedInRegistry(registry: seq<Capability>, selected: set<string>, c: Capability)
    requires c in InRegistryOrder(registry, selected)
    ensures c in registry && c.id in selected
  {
    if c !in InRegistryOrder(registry[1..], selected) {
      assert c == registry[0];
    } else {
      SelectedInRegistry(registry[1..], selected, c);
    }
  }

  lemma {:induction false} ServersMembers(capabilities: seq<Capability>, s: Server)
    ensures s in AllServers(capabilities) <==> exists c | c in capabilities :: s in c.servers
  {
    if capabilities != [] {
      var init, last := capabilities[..|capabilities| - 1], capabilities[|capabilities| - 1];
      ServersMembers(init, s);
      assert forall c :: c in capabilities <==> c in init || c == last by {
        assert capabilities == init + [last];
      }
    }
  }

  lemma SelectionFits(registry: seq<Capability>, selected: set<string>)
    ensures var desired := Desired(UniqueServers(registry, selected));
            DistinctKeys(desired) && KeysOf(desired) <= ManagedNames(registry)
  {
    var servers := AllServers(InRegistryOrder(registry, selected));
    FirstsHaveDistinctNames(servers);
    var desired := Desired(UniqueServers(registry, selected));
    forall key | key in KeysOf(desired)
      ensures key in ManagedNames(registry)
    {
      var i :| 0 <= i < |desired| && desired[i].key == key;
      assert key in NamesOf(FirstOfEachName(servers));
      var s :| s in servers && s.name == key;
      SelectedAreManaged(registry, selected, s);
    }
  }

  /** The managed part is the selection, the rest is as it was. */
  lemma RenderedExactly(registry: seq<Capability>, selected: set<string>, existing: seq<Member>, key: string)
    ensures Get(Rendered(registry, selected, existing), key) ==
            if key in ManagedNames(registry) then Get(Desired(UniqueServers(registry, selected)), key) else Get(existing, key)
  {
    SelectionFits(registry, selected);
    MergedExactly(existing, Desired(UniqueServers(registry, selected)), ManagedNames(registry), key);
  }

  /** The later of two selections decides: every name has the entry it would have had without the earlier one. */
  lemma LastSelectionWins(registry: seq<Capability>, first: set<string>, second: set<string>, existing: seq<Member>, key: string)
    ensures Get(Rendered(registry, second, Rendered(registry, first, existing)), key)
            == Get(Rendered(registry, second, existing), key)
  {
    RenderedExactly(registry, second, Rendered(registry, first, existing), key);
    RenderedExactly(registry, first, existing, key);
    RenderedExactly(registry, second, existing, key);
  }

  // ---------- The text, not only the mapping ----------

  lemma {:induction false} WithoutPut(members: seq<Member>, gone: set<string>, key: string, value: Json)
    requires key in gone
    ensures Without(Put(members, key, value), gone) == Without(members, gone)
  {
    if members == [] {
      assert [Member(key, value)][1..] == [];
    } else if members[0].key != key {
      WithoutPut(members[1..], gone, key, value);
      assert Put(members, key, value)[1..] == Put(members[1..], key, value);
    } else {
      assert Put(members, key, value)[1..] == members[1..];
    }
  }

  lemma {:induction false} WithoutTwice(members: seq<Member>, some: set<string>, gone: set<string>)
    requires some <= gone
    ensures Without(Without(members, some), gone) == Without(members, gone)
  {
    if members != [] {
      WithoutTwice(members[1..], some, gone);
      assert ([members[0]] + Without(members[1..], some))[1..] == Without(members[1..], some);
    }
  }

  lemma {:induction false} WithoutPutAll(members: seq<Member>, desired: seq<Member>, gone: set<string>)
    requires KeysOf(desired) <= gone
    ensures Without(PutAll(members, desired), gone) == Without(members, gone)
  {
    if desired != [] {
      var init, last := desired[..|desired| - 1], desired[|desired| - 1];
      assert forall m | m in init :: m in desired;
      assert last.key in KeysOf(desired);
      assert KeysOf(init) <= KeysOf(desired);
      WithoutPutAll(members, init, gone);
      WithoutPut(PutAll(members, init), gone, last.key, last.value);
    }
  }

  /** The entries that are not managed stay, in their order. */
  lemma ForeignEntriesStay(registry: seq<Capability>, selected: set<string>, existing: seq<Member>)
    ensures Without(Rendered(registry, selected, existing), ManagedNames(registry)) == Without(existing, ManagedNames(registry))
  {
    var desired, managed := Desired(UniqueServers(registry, selected)), ManagedNames(registry);
    SelectionFits(registry, selected);
    WithoutPutAll(Without(existing, managed - KeysOf(desired)), desired, managed);
    WithoutTwice(existing, managed - KeysOf(desired), managed);
  }

  lemma {:induction false} PutAllAgain(members: seq<Member>, desired: seq<Member>)
    requires forall m | m in desired :: Get(members, m.key) == Some(m.value)
    ensures PutAll(members, desired) == members
  {
    if desired != [] {
      var init, last := desired[..|desired| - 1], desired[|desired| - 1];
      assert last in desired && forall m | m in init :: m in desired;
      PutAllAgain(members, init);
      PutTwice(members, last.key, last.value, last.value);
    }
  }

  lemma {:induction false} GetOfMember(members: seq<Member>, m: Member)
    requires DistinctKeys(members) && m in members
    ensures Get(members, m.key) == Some(m.value)
  {
    if members[0] != m {
      assert m in members[1..];
      GetOfMember(members[1..], m);
    }
  }

  lemma NoneGone(members: seq<Member>, gone: set<string>)
    requires forall key | key in gone :: Get(members, key).None?
    ensures Without(members, gone) == members
  {
    forall key | key in KeysOf(members)
      ensures key !in gone
    {
      HasKeyIn(members, key);
    }
    WithoutNone(members, gone);
  }

  /** Rendering the same selection again changes nothing, not even the order. */
  lemma RenderIsIdempotent(registry: seq<Capability>, selected: set<string>, existing: seq<Member>)
    ensures Rendered(registry, selected, Rendered(registry, selected, existing)) == Rendered(registry, selected, existing)
  {
    var desired, managed := Desired(UniqueServers(registry, selected)), ManagedNames(registry);
    var r := Rendered(registry, selected, existing);
    SelectionFits(registry, selected);
    forall key | key in managed - KeysOf(desired)
      ensures Get(r, key).None?
    {
      RenderedExactly(registry, selected, existing, key);
      HasKeyIn(desired, key);
    }
    NoneGone(r, managed - KeysOf(desired));
    forall m | m in desired
      ensures Get(r, m.key) == Some(m.value)
    {
      assert m.key in KeysOf(desired);
      RenderedExactly(registry, selected, existing, m.key);
      GetOfMember(desired, m);
    }
    PutAllAgain(r, desired);
  }

  /** Two selections in a row need not leave the text of the second alone: the order of the first shows. */
  lemma OrderRemembersTheFirstSelection(a: Server, b: Server)
    requires a.name != b.name
    ensures var registry := [Capability("a", [a]), Capability("b", [b])];
            && Rendered(registry, {"a", "b"}, Rendered(registry, {"b"}, [])) == [EntryOf(b), EntryOf(a)]
            && Rendered(registry, {"a", "b"}, []) == [EntryOf(a), EntryOf(b)]
  {
    var registry := [Capability("a", [a]), Capability("b", [b])];
    TwoCapabilities(a, b);
    assert Desired([b]) == [EntryOf(b)] && Desired([a, b]) == [EntryOf(a), EntryOf(b)];
    PutTwoMembers(EntryOf(a), EntryOf(b));
    var managed := ManagedNames(registry);
    TwoKeys(a, b);
    WithoutNone([EntryOf(b)], {});
    assert Merged([], Desired([b]), managed) == [EntryOf(b)];
    assert managed - KeysOf(Desired([a, b])) == {};
    assert Merged([EntryOf(b)], Desired([a, b]), managed) == [EntryOf(b), EntryOf(a)];
  }

  lemma TwoKeys(a: Server, b: Server)
    ensures ManagedNames([Capability("a", [a]), Capability("b", [b])]) == {a.name, b.name}
    ensures KeysOf([EntryOf(a), EntryOf(b)]) == {a.name, b.name}
  {
    TwoServers(Capability("a", [a]), Capability("b", [b]));
    assert a in [a, b] && b in [a, b];
    assert EntryOf(a) in [EntryOf(a), EntryOf(b)] && EntryOf(b) in [EntryOf(a), EntryOf(b)];
  }

  lemma TwoServers(ca: Capability, cb: Capability)
    ensures AllServers([ca, cb]) == ca.servers + cb.servers && AllServers([ca]) == ca.servers
  {
    assert [ca, cb][..1] == [ca] && [ca][..0] == [];
    assert AllServers([ca]) == [] + ca.servers == ca.servers;
  }

  lemma OneSelected(c: Capability, rest: seq<Capability>, selected: set<string>)
    ensures InRegistryOrder([c] + rest, selected) == (if c.id in selected then [c] else []) + InRegistryOrder(rest, selected)
  {
    assert ([c] + rest)[1..] == rest;
  }

  lemma FirstOfTwo(a: Server, b: Server)
    ensures FirstOfEachName([a]) == [a]
    ensures a.name != b.name ==> FirstOfEachName([a, b]) == [a, b]
  {
    assert [a, b][..1] == [a] && [a][..0] == [];
    assert FirstOfEachName([]) == [] && NamesOf([]) == {};
    assert FirstOfEachName([a]) == [] + [a];
    assert NamesOf([a]) == {a.name};
  }

  lemma TwoCapabilities(a: Server, b: Server)
    requires a.name != b.name
    ensures var registry := [Capability("a", [a]), Capability("b", [b])];
            UniqueServers(registry, {"b"}) == [b] && UniqueServers(registry, {"a", "b"}) == [a, b]
  {
    var ca, cb := Capability("a", [a]), Capability("b", [b]);
    assert [ca, cb] == [ca] + [cb] && [cb] == [cb] + [];
    OneSelected(ca, [cb], {"b"});
    OneSelected(cb, [], {"b"});
    OneSelected(ca, [cb], {"a", "b"});
    OneSelected(cb, [], {"a", "b"});
    TwoServers(ca, cb);
    TwoServers(cb, cb);
    FirstOfTwo(a, b);
    FirstOfTwo(b, b);
  }

  lemma PutTwoMembers(x: Member, y: Member)
    requires x.key != y.key
    ensures PutAll([], [y]) == [y] && PutAll([], [x, y]) == [x, y] && PutAll([y], [x, y]) == [y, x]
  {
    assert [x, y][..1] == [x] && [x][..0] == [] && [y][..0] == [] && [x][1..] == [] && [y][1..] == [] && [y, x][1..] == [x];
    assert PutAll([], [x]) == [x] && PutAll([y], [x]) == [y, x];
  }

  // ---------- When two selections in a row leave the text of the second ----------

  function KeyList(members: seq<Member>): (r: seq<string>)
    ensures |r| == |members| && forall i | 0 <= i < |r| :: r[i] == members[i].key
  {
    seq(|members|, i requires 0 <= i < |members| => members[i].key)
  }

  function Only(names: seq<string>, keep: set<string>): seq<string> {
    if names == [] then []
    else
      var last := names[|names| - 1];
      Only(names[..|names| - 1], keep) + if last in keep then [last] else []
  }

  lemma OnlyLast(names: seq<string>, last: string, keep: set<string>)
    ensures Only(names + [last], keep) == Only(names, keep) + if last in keep then [last] else []
  {
    assert (names + [last])[..|names|] == names;
  }

  lemma {:induction false} OnlyMembers(names: seq<string>, keep: set<string>)
    ensures forall n :: n in Only(names, keep) <==> n in names && n in keep
  {
    if names != [] {
      OnlyMembers(names[..|names| - 1], keep);
      assert names == names[..|names| - 1] + [names[|names| - 1]];
    }
  }

  lemma {:induction false} OnlySame(names: seq<string>, a: set<string>, b: set<string>)
    requires forall n | n in names :: n in a <==> n in b
    ensures Only(names, a) == Only(names, b)
  {
    if names != [] {
      OnlySame(names[..|names| - 1], a, b);
    }
  }

  lemma {:induction false} OnlyAppend(left: seq<string>, right: seq<string>, keep: set<string>)
    ensures Only(left + right, keep) == Only(left, keep) + Only(right, keep)
  {
    if right == [] {
      assert left + right == left;
    } else {
      var init, last := right[..|right| - 1], right[|right| - 1];
      assert right == init + [last] && left + right == (left + init) + [last];
      OnlyAppend(left, init, keep);
      OnlyLast(left + init, last, keep);
    }
  }

  lemma {:induction false} OnlyTwice(names: seq<string>, a: set<string>, b: set<string>)
    ensures Only(Only(names, a), b) == Only(names, a * b)
  {
    if names != [] {
      var init, last := names[..|names| - 1], names[|names| - 1];
      OnlyTwice(init, a, b);
      OnlyLast(Only(init, a), last, b);
      assert last !in a ==> Only(init, a) + [] == Only(init, a);
    }
  }

  lemma {:induction false} OnlyAll(names: seq<string>, keep: set<string>)
    requires forall n | n in names :: n in keep
    ensures Only(names, keep) == names
  {
    if names != [] {
      OnlyAll(names[..|names| - 1], keep);
      assert names == names[..|names| - 1] + [names[|names| - 1]];
    }
  }

  lemma {:induction false} OnlyNone(names: seq<string>, keep: set<string>)
    requires forall n | n in names :: n !in keep
    ensures Only(names, keep) == []
  {
    if names != [] {
      var init, last := names[..|names| - 1], names[|names| - 1];
      assert last in names && forall n | n in init :: n in names;
      OnlyNone(init, keep);
    }
  }

  lemma OnlyFirst(first: string, names: seq<string>, keep: set<string>)
    ensures Only([first] + names, keep) == (if first in keep then [first] else []) + Only(names, keep)
  {
    OnlyAppend([first], names, keep);
    OnlyLast([], first, keep);
    assert [] + [first] == [first];
  }

  lemma KeysCons(m: Member, rest: seq<Member>)
    ensures KeyList([m] + rest) == [m.key] + KeyList(rest)
  {
  }

  lemma {:induction false} KeysWithout(members: seq<Member>, gone: set<string>, keep: set<string>)
    requires forall m | m in members :: m.key in keep <==> m.key !in gone
    ensures KeyList(Without(members, gone)) == Only(KeyList(members), keep)
  {
    if members == [] {
      assert KeyList(members) == [];
    } else {
      var key, rest := members[0].key, Without(members[1..], gone);
      assert members[0] in members && forall m | m in members[1..] :: m in members;
      KeysWithout(members[1..], gone, keep);
      assert members == [members[0]] + members[1..];
      KeysCons(members[0], members[1..]);
      KeysCons(members[0], rest);
      OnlyFirst(key, KeyList(members[1..]), keep);
    }
  }

  lemma InKeyList(members: seq<Member>, n: string)
    ensures n in KeyList(members) <==> n in KeysOf(members)
  {
    if n in KeysOf(members) {
      var i :| 0 <= i < |members| && members[i].key == n;
      assert KeyList(members)[i] == n;
    }
  }

  lemma {:induction false} KeysPut(members: seq<Member>, key: string, value: Json)
    ensures KeyList(Put(members, key, value)) == KeyList(members) + if key in KeysOf(members) then [] else [key]
  {
    if members == [] {
    } else {
      var m, rest := members[0], members[1..];
      assert members == [m] + rest && forall x :: x in members <==> x == m || x in rest;
      KeysCons(m, rest);
      if m.key == key {
        KeysCons(Member(key, value), rest);
        assert m in members;
      } else {
        KeysPut(rest, key, value);
        KeysCons(m, Put(rest, key, value));
      }
    }
  }

  lemma {:induction false} KeysPutAll(members: seq<Member>, desired: seq<Member>, added: set<string>)
    requires DistinctKeys(desired) && forall m | m in desired :: m.key in added <==> m.key !in KeysOf(members)
    ensures KeyList(PutAll(members, desired)) == KeyList(members) + Only(KeyList(desired), added)
  {
    if desired == [] {
      assert KeyList(desired) == [];
    } else {
      var init, last := desired[..|desired| - 1], desired[|desired| - 1];
      LastOfDistinct(desired, init, last);
      KeysPutAll(members, init, added);
      KeysOneMore(PutAll(members, init), members, init, last, added);
    }
  }

  lemma KeysOneMore(before: seq<Member>, members: seq<Member>, init: seq<Member>, last: Member, added: set<string>)
    requires KeyList(before) == KeyList(members) + Only(KeyList(init), added)
    requires (forall m | m in init :: m.key != last.key) && (last.key in added <==> last.key !in KeysOf(members))
    ensures KeyList(Put(before, last.key, last.value)) == KeyList(members) + Only(KeyList(init) + [last.key], added)
  {
    KeysPut(before, last.key, last.value);
    OnlyLast(KeyList(init), last.key, added);
    LastIsNew(before, members, init, last.key, added);
  }

  lemma LastOfDistinct(desired: seq<Member>, init: seq<Member>, last: Member)
    requires DistinctKeys(desired) && desired == init + [last]
    ensures DistinctKeys(init) && last in desired
    ensures forall m | m in init :: m in desired && m.key != last.key
    ensures KeyList(desired) == KeyList(init) + [last.key]
  {
    assert desired[|init|] == last && forall i | 0 <= i < |init| :: desired[i] == init[i];
    assert KeyList(desired)[|init|] == last.key;
    assert KeyList(desired) == KeyList(init) + [last.key];
    forall m | m in init
      ensures m in desired && m.key != last.key
    {
      var i :| 0 <= i < |init| && init[i] == m;
      assert desired[i] == m;
    }
  }

  lemma LastIsNew(before: seq<Member>, members: seq<Member>, init: seq<Member>, key: string, added: set<string>)
    requires KeyList(before) == KeyList(members) + Only(KeyList(init), added)
    requires forall m | m in init :: m.key != key
    ensures key in KeysOf(before) <==> key in KeysOf(members)
  {
    InKeyList(before, key);
    InKeyList(members, key);
    OnlyMembers(KeyList(init), added);
    assert key !in KeyList(init);
  }

  /** The names in a rendered text: what stays of the old ones, in their order, then the new ones in the selection's. */
  lemma KeysMerged(existing: seq<Member>, desired: seq<Member>, managed: set<string>)
    requires DistinctKeys(desired)
    ensures KeyList(Merged(existing, desired, managed))
            == Only(KeyList(existing), KeysOf(existing) - (managed - KeysOf(desired)))
             + Only(KeyList(desired), KeysOf(desired) - KeysOf(existing))
  {
    var gone := managed - KeysOf(desired);
    var left := Without(existing, gone);
    KeysWithout(existing, gone, KeysOf(existing) - gone);
    forall m | m in desired
      ensures m.key in KeysOf(desired) - KeysOf(existing) <==> m.key !in KeysOf(left)
    {
      assert m.key in KeysOf(desired);
      InKeyList(left, m.key);
      InKeyList(existing, m.key);
      OnlyMembers(KeyList(existing), KeysOf(existing) - gone);
    }
    KeysPutAll(left, desired, KeysOf(desired) - KeysOf(existing));
  }

  predicate DistinctNames(names: seq<string>) {
    forall i, j | 0 <= i < j < |names| :: names[i] != names[j]
  }

  lemma {:induction false} OnlyDistinct(names: seq<string>, keep: set<string>)
    requires DistinctNames(names)
    ensures DistinctNames(Only(names, keep))
  {
    if names != [] {
      var init, last := names[..|names| - 1], names[|names| - 1];
      OnlyDistinct(init, keep);
      OnlyMembers(init, keep);
      forall i | 0 <= i < |Only(init, keep)|
        ensures Only(init, keep)[i] != last
      {
        assert Only(init, keep)[i] in init;
      }
    }
  }

  /** With the same entry under every name, texts differ only in the order of their names. */
  lemma TextIsOrder(a: seq<Member>, b: seq<Member>)
    requires DistinctKeys(a) && forall key :: Get(a, key) == Get(b, key)
    ensures a == b <==> KeyList(a) == KeyList(b)
  {
    if KeyList(a) == KeyList(b) {
      assert |a| == |b|;
      forall i, j | 0 <= i < j < |b|
        ensures b[i].key != b[j].key
      {
        assert KeyList(a)[i] != KeyList(a)[j];
      }
      forall i | 0 <= i < |a|
        ensures a[i] == b[i]
      {
        assert KeyList(a)[i] == KeyList(b)[i];
        GetOfMember(a, a[i]);
        GetOfMember(b, b[i]);
      }
    }
  }

  /** The names of two selections and of what was there before, as sets. */
  ghost predicate NameSets(existing: seq<string>, first: seq<string>, second: seq<string>, e: set<string>, f: set<string>, s: set<string>) {
    && DistinctNames(existing) && DistinctNames(first) && DistinctNames(second)
    && (forall n :: n in existing <==> n in e)
    && (forall n :: n in first <==> n in f)
    && (forall n :: n in second <==> n in s)
  }

  /**
   The order of the names agrees: of the names new to the file, those that the first selection has come first in the
   second's order, arranged as in the first; and names that the file and the second selection have, but not the first,
   do not lose their place, because they are the last that stay, the second selection begins its other names with
   them in the same order, and the first has put none behind them.
   */
  predicate OrdersAgree(existing: seq<string>, first: seq<string>, second: seq<string>,
                        managed: set<string>, e: set<string>, f: set<string>, s: set<string>) {
    var returning := Only(existing, s - f);
    && Only(first, s - e) + Only(second, s - e - f) == Only(second, s - e)
    && (returning == []
        || (&& Only(first, s - e) == []
            && Only(existing, e - (managed - s)) == Only(existing, e - (managed - f * s)) + returning
            && returning <= Only(second, s - f)))
  }

  lemma InTwoSteps(existing: seq<string>, first: seq<string>, second: seq<string>,
                   managed: set<string>, e: set<string>, f: set<string>, s: set<string>, e1: set<string>)
    requires NameSets(existing, first, second, e, f, s) && f <= managed && s <= managed
    requires e1 == (e - (managed - f)) + (f - e)
    ensures Only(Only(existing, e - (managed - f)) + Only(first, f - e), e1 - (managed - s)) + Only(second, s - e1)
         == Only(existing, e - (managed - f * s)) + Only(first, s - e) + Only(second, s - f)
  {
    OnlyAppend(Only(existing, e - (managed - f)), Only(first, f - e), e1 - (managed - s));
    OnlyTwice(existing, e - (managed - f), e1 - (managed - s));
    OnlyTwice(first, f - e, e1 - (managed - s));
    OnlySame(existing, (e - (managed - f)) * (e1 - (managed - s)), e - (managed - f * s));
    OnlySame(first, (f - e) * (e1 - (managed - s)), s - e);
    OnlySame(second, s - e1, s - f);
  }

  /** Without returning names the first parts agree, and the rest has to. */
  lemma NoneReturns(existing: seq<string>, managed: set<string>, e: set<string>, f: set<string>, s: set<string>)
    requires forall n :: n in existing <==> n in e
    requires Only(existing, s - f) == [] && f <= managed && s <= managed
    ensures Only(existing, e - (managed - s)) == Only(existing, e - (managed - f * s))
    ensures s - e - f == s - f
  {
    OnlyMembers(existing, s - f);
    forall n | n in e
      ensures n !in s - f
    {
      assert n !in Only(existing, s - f);
    }
    OnlySame(existing, e - (managed - s), e - (managed - f * s));
  }

  /** A sequence of distinct names that begins with the others ends with the rest. */
  lemma RestFollows(all: seq<string>, some: seq<string>, rest: seq<string>, keep: set<string>, tail: seq<string>)
    requires all == some + tail && rest == Only(all, keep)
    requires (forall n | n in some :: n !in keep) && forall n | n in tail :: n in keep
    ensures tail == rest
  {
    OnlyAppend(some, tail, keep);
    OnlyNone(some, keep);
    OnlyAll(tail, keep);
  }

  lemma SplitEqual(a: seq<string>, b: seq<string>, c: seq<string>, d: seq<string>)
    requires a + b == c + d && |a| <= |c|
    ensures c == a + c[|a|..] && b == c[|a|..] + d
  {
    assert (a + b)[..|a|] == a && (c + d)[..|a|] == c[..|a|];
    assert b == (a + b)[|a|..] && (c + d)[|a|..] == c[|a|..] + d;
  }

  lemma {:induction false} FewerNames(names: seq<string>, a: set<string>, b: set<string>)
    requires forall n | n in names && n in a :: n in b
    ensures |Only(names, a)| <= |Only(names, b)|
    ensures |Only(names, a)| == |Only(names, b)| ==> Only(names, a) == Only(names, b)
  {
    if names != [] {
      var init := names[..|names| - 1];
      assert forall n | n in init :: n in names;
      assert names[|names| - 1] in names;
      FewerNames(init, a, b);
    }
  }

  lemma NewAmongSecond(second: seq<string>, e: set<string>, f: set<string>, s: set<string>)
    ensures Only(Only(second, s - f), s - e) == Only(second, s - e - f)
  {
    OnlyTwice(second, s - f, s - e);
    OnlySame(second, (s - f) * (s - e), s - e - f);
  }

  lemma ReturningLast(existing: seq<string>, managed: set<string>, e: set<string>, f: set<string>, s: set<string>)
    requires (forall n :: n in existing <==> n in e) && f <= managed && s <= managed
    ensures Only(Only(existing, e - (managed - s)), s - f) == Only(existing, s - f)
  {
    OnlyTwice(existing, e - (managed - s), s - f);
    OnlySame(existing, (e - (managed - s)) * (s - f), s - f);
  }

  /** Distinct names that follow `some` in a sequence are not among `some`. */
  lemma Following(all: seq<string>, some: seq<string>, tail: seq<string>, n: string)
    requires DistinctNames(all) && all == some + tail && n in tail
    ensures n in all && n !in some
  {
    var i :| 0 <= i < |tail| && tail[i] == n;
    assert all[|some| + i] == n;
    assert forall l | 0 <= l < |some| :: all[l] == some[l];
  }

  /** What stays of the old names in the direct order, but not in the order of two steps. */
  lemma TailReturns(existing: seq<string>, managed: set<string>, e: set<string>, f: set<string>, s: set<string>, tail: seq<string>)
    requires DistinctNames(existing) && (forall n :: n in existing <==> n in e) && f <= managed && s <= managed
    requires Only(existing, e - (managed - s)) == Only(existing, e - (managed - f * s)) + tail
    ensures tail == Only(existing, s - f) && forall n | n in tail :: n in e
  {
    var a, kept := Only(existing, e - (managed - f * s)), Only(existing, e - (managed - s));
    OnlyMembers(existing, e - (managed - f * s));
    OnlyMembers(existing, e - (managed - s));
    ReturningLast(existing, managed, e, f, s);
    OnlyDistinct(existing, e - (managed - s));
    forall n | n in tail
      ensures n in s - f && n in e
    {
      Following(kept, a, tail, n);
    }
    RestFollows(kept, a, Only(existing, s - f), s - f, tail);
  }

  /** Names of the file cannot stand where new ones do. */
  lemma NothingBetween(a: seq<string>, b: seq<string>, c: seq<string>, kept: seq<string>, d: seq<string>, e: set<string>)
    requires a + (b + c) == kept + d && |a| < |kept|
    requires (forall n | n in b :: n !in e) && forall n | n in kept :: n in e
    ensures b == [] && kept == a + kept[|a|..] && c == kept[|a|..] + d
  {
    var tail := kept[|a|..];
    assert kept[|a|] in kept && tail[0] == kept[|a|];
    assert b == [] || b[0] in b;
    SplitEqual(a, b + c, kept, d);
    if b == [] {
      assert b + c == c;
    } else {
      BeginsWith(b, c, tail, d);
    }
  }

  lemma BeginsWith(b: seq<string>, c: seq<string>, tail: seq<string>, d: seq<string>)
    requires b + c == tail + d && b != [] && tail != []
    ensures b[0] == tail[0]
  {
    assert (b + c)[0] == b[0] && (tail + d)[0] == tail[0];
  }

  lemma ManyReturn(existing: seq<string>, managed: set<string>, e: set<string>, f: set<string>, s: set<string>)
    requires DistinctNames(existing) && (forall n :: n in existing <==> n in e) && f <= managed && s <= managed
    requires Only(existing, s - f) != []
    ensures |Only(existing, e - (managed - f * s))| < |Only(existing, e - (managed - s))|
  {
    FewerNames(existing, e - (managed - f * s), e - (managed - s));
    OnlyMembers(existing, e - (managed - f * s));
    OnlyMembers(existing, e - (managed - s));
    OnlyMembers(existing, s - f);
    var n := Only(existing, s - f)[0];
    assert n in Only(existing, s - f);
    assert n in Only(existing, e - (managed - s)) && n !in Only(existing, e - (managed - f * s));
  }

  /** If names return, equal orders put them where the second selection puts them. */
  lemma SomeReturn(existing: seq<string>, first: seq<string>, second: seq<string>,
                   managed: set<string>, e: set<string>, f: set<string>, s: set<string>)
    requires NameSets(existing, first, second, e, f, s) && f <= managed && s <= managed
    requires Only(existing, s - f) != []
    requires Only(existing, e - (managed - f * s)) + (Only(first, s - e) + Only(second, s - f))
          == Only(existing, e - (managed - s)) + Only(second, s - e)
    ensures OrdersAgree(existing, first, second, managed, e, f, s)
  {
    var a, b, c := Only(existing, e - (managed - f * s)), Only(first, s - e), Only(second, s - f);
    var kept, new2 := Only(existing, e - (managed - s)), Only(second, s - e);
    ManyReturn(existing, managed, e, f, s);
    OnlyMembers(first, s - e);
    OnlyMembers(existing, e - (managed - s));
    NothingBetween(a, b, c, kept, new2, e);
    TailReturns(existing, managed, e, f, s, kept[|a|..]);
    NewFollow(second, e, f, s, kept[|a|..], new2);
  }

  lemma NewFollow(second: seq<string>, e: set<string>, f: set<string>, s: set<string>, tail: seq<string>, new2: seq<string>)
    requires Only(second, s - f) == tail + new2 && new2 == Only(second, s - e) && forall n | n in tail :: n in e
    ensures Only(second, s - e - f) == new2 && tail <= Only(second, s - f)
  {
    NewAmongSecond(second, e, f, s);
    OnlyMembers(second, s - e);
    RestFollows(tail + new2, tail, Only(tail + new2, s - e), s - e, new2);
  }

  lemma SomeReturnInPlace(existing: seq<string>, first: seq<string>, second: seq<string>,
                          managed: set<string>, e: set<string>, f: set<string>, s: set<string>)
    requires NameSets(existing, first, second, e, f, s) && f <= managed && s <= managed
    requires Only(existing, s - f) != [] && OrdersAgree(existing, first, second, managed, e, f, s)
    ensures Only(existing, e - (managed - f * s)) + (Only(first, s - e) + Only(second, s - f))
         == Only(existing, e - (managed - s)) + Only(second, s - e)
  {
    var c, returning := Only(second, s - f), Only(existing, s - f);
    var rest := c[|returning|..];
    assert c == returning + rest;
    NewBehind(existing, second, e, f, s, returning, rest);
    assert Only(first, s - e) + Only(second, s - e - f) == rest;
    assert Only(first, s - e) + c == c;
    Regroup(Only(existing, e - (managed - f * s)), returning, rest);
  }

  lemma Regroup(a: seq<string>, b: seq<string>, c: seq<string>)
    ensures a + (b + c) == (a + b) + c
  {
  }

  lemma NewBehind(existing: seq<string>, second: seq<string>, e: set<string>, f: set<string>, s: set<string>,
                  returning: seq<string>, rest: seq<string>)
    requires (forall n :: n in existing <==> n in e) && DistinctNames(second) && returning == Only(existing, s - f)
    requires Only(second, s - f) == returning + rest
    ensures rest == Only(second, s - e - f)
  {
    OnlyMembers(existing, s - f);
    OnlyMembers(second, s - f);
    OnlyDistinct(second, s - f);
    forall n | n in rest
      ensures n in s - e
    {
      Following(Only(second, s - f), returning, rest, n);
    }
    NewAmongSecond(second, e, f, s);
    RestFollows(Only(second, s - f), returning, Only(second, s - e - f), s - e, rest);
  }

  lemma OrdersExactly(existing: seq<string>, first: seq<string>, second: seq<string>,
                      managed: set<string>, e: set<string>, f: set<string>, s: set<string>)
    requires NameSets(existing, first, second, e, f, s) && f <= managed && s <= managed
    ensures Only(existing, e - (managed - f * s)) + Only(first, s - e) + Only(second, s - f)
         == Only(existing, e - (managed - s)) + Only(second, s - e)
         <==> OrdersAgree(existing, first, second, managed, e, f, s)
  {
    var a, b, c := Only(existing, e - (managed - f * s)), Only(first, s - e), Only(second, s - f);
    var kept, new2 := Only(existing, e - (managed - s)), Only(second, s - e);
    assert a + b + c == a + (b + c);
    if Only(existing, s - f) == [] {
      NoneReturns(existing, managed, e, f, s);
      if a + (b + c) == a + new2 {
        SplitEqual(a, b + c, a, new2);
        assert a[|a|..] == [];
      }
    } else if a + (b + c) == kept + new2 {
      SomeReturn(existing, first, second, managed, e, f, s);
    } else if OrdersAgree(existing, first, second, managed, e, f, s) {
      SomeReturnInPlace(existing, first, second, managed, e, f, s);
    }
  }

  lemma KeysAfter(registry: seq<Capability>, selected: set<string>, existing: seq<Member>)
    ensures var desired, managed := Desired(UniqueServers(registry, selected)), ManagedNames(registry);
            KeysOf(Rendered(registry, selected, existing))
            == (KeysOf(existing) - (managed - KeysOf(desired))) + (KeysOf(desired) - KeysOf(existing))
  {
    var desired, managed := Desired(UniqueServers(registry, selected)), ManagedNames(registry);
    var r := Rendered(registry, selected, existing);
    SelectionFits(registry, selected);
    forall key
      ensures key in KeysOf(r) <==> key in (KeysOf(existing) - (managed - KeysOf(desired))) + (KeysOf(desired) - KeysOf(existing))
    {
      RenderedExactly(registry, selected, existing, key);
      HasKeyIn(r, key);
      HasKeyIn(existing, key);
      HasKeyIn(desired, key);
    }
  }

  lemma RenderedIsDistinct(registry: seq<Capability>, selected: set<string>, existing: seq<Member>)
    requires DistinctKeys(existing)
    ensures DistinctKeys(Rendered(registry, selected, existing))
  {
    var desired, managed := Desired(UniqueServers(registry, selected)), ManagedNames(registry);
    SelectionFits(registry, selected);
    KeysMerged(existing, desired, managed);
    var keep, new2 := KeysOf(existing) - (managed - KeysOf(desired)), KeysOf(desired) - KeysOf(existing);
    OnlyDistinct(KeyList(existing), keep);
    OnlyDistinct(KeyList(desired), new2);
    OnlyMembers(KeyList(existing), keep);
    OnlyMembers(KeyList(desired), new2);
    var left, right := Only(KeyList(existing), keep), Only(KeyList(desired), new2);
    var r := Rendered(registry, selected, existing);
    forall i, j | 0 <= i < j < |r|
      ensures r[i].key != r[j].key
    {
      assert KeyList(r)[i] == r[i].key && KeyList(r)[j] == r[j].key && KeyList(r) == left + right;
      assert i < |left| <= j ==> left[i] in left && right[j - |left|] in right;
    }
  }

  lemma KeyListFits(members: seq<Member>)
    requires DistinctKeys(members)
    ensures DistinctNames(KeyList(members)) && forall n :: n in KeyList(members) <==> n in KeysOf(members)
  {
    forall n
      ensures n in KeyList(members) <==> n in KeysOf(members)
    {
      InKeyList(members, n);
    }
  }

  /** Two selections in a row leave the text of the second alone if and only if the orders of the names agree. */
  lemma SecondTextExactly(registry: seq<Capability>, first: set<string>, second: set<string>, existing: seq<Member>)
    requires DistinctKeys(existing)
    ensures var f, s := Desired(UniqueServers(registry, first)), Desired(UniqueServers(registry, second));
            Rendered(registry, second, Rendered(registry, first, existing)) == Rendered(registry, second, existing)
            <==> OrdersAgree(KeyList(existing), KeyList(f), KeyList(s), ManagedNames(registry), KeysOf(existing), KeysOf(f), KeysOf(s))
  {
    var f, s, managed := Desired(UniqueServers(registry, first)), Desired(UniqueServers(registry, second)), ManagedNames(registry);
    var once := Rendered(registry, first, existing);
    SelectionFits(registry, first);
    SelectionFits(registry, second);
    KeyListFits(existing);
    KeyListFits(f);
    KeyListFits(s);
    KeysMerged(existing, f, managed);
    KeysMerged(once, s, managed);
    KeysMerged(existing, s, managed);
    KeysAfter(registry, first, existing);
    InTwoSteps(KeyList(existing), KeyList(f), KeyList(s), managed, KeysOf(existing), KeysOf(f), KeysOf(s), KeysOf(once));
    OrdersExactly(KeyList(existing), KeyList(f), KeyList(s), managed, KeysOf(existing), KeysOf(f), KeysOf(s));
    RenderedIsDistinct(registry, second, existing);
    forall key
      ensures Get(Rendered(registry, second, existing), key) == Get(Rendered(registry, second, once), key)
    {
      LastSelectionWins(registry, first, second, existing, key);
    }
    TextIsOrder(Rendered(registry, second, existing), Rendered(registry, second, once));
  }

  // ---------- What loading loses ----------

  function Strings(items: seq<Json>): seq<Json> {
    if items == [] then [] else (if items[0].Str? then [items[0]] else []) + Strings(items[1..])
  }

  /** An entry as it is loaded; `None` for one without a string command. */
  function LoadedEntry(value: Json): Option<Json> {
    if value.Obj? && Get(value.members, "command").Some? && Get(value.members, "command").value.Str? then
      var args := Get(value.members, "args");
      Some(Obj(Put(value.members, "args", Arr(if args.Some? && args.value.Arr? then Strings(args.value.items) else []))))
    else None
  }

  function Loaded(members: seq<Member>): seq<Member> {
    if members == [] then []
    else
      var entry := LoadedEntry(members[0].value);
      (if entry.Some? then [Member(members[0].key, entry.value)] else []) + Loaded(members[1..])
  }

  lemma {:induction false} GetLoaded(members: seq<Member>, key: string)
    requires DistinctKeys(members)
    ensures Get(Loaded(members), key) == match Get(members, key) case None => None case Some(v) => LoadedEntry(v)
  {
    if members != [] {
      GetLoaded(members[1..], key);
      var entry := LoadedEntry(members[0].value);
      GetAppend(if entry.Some? then [Member(members[0].key, entry.value)] else [], Loaded(members[1..]), key);
      if members[0].key == key {
        assert !HasKey(members[1..], key);
      }
    }
  }

  /** Through loading and rendering, an entry that is not managed survives exactly when it is an object with a string command. */
  lemma ForeignEntrySurvivesLoading(registry: seq<Capability>, selected: set<string>, file: seq<Member>, key: string)
    requires DistinctKeys(file) && key !in ManagedNames(registry)
    ensures Get(Rendered(registry, selected, Loaded(file)), key).Some? <==>
            Get(file, key).Some? && Get(file, key).value.Obj?
            && Get(Get(file, key).value.members, "command").Some? && Get(Get(file, key).value.members, "command").value.Str?
  {
    RenderedExactly(registry, selected, Loaded(file), key);
    GetLoaded(file, key);
  }
}
