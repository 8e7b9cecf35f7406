/** JSON values; the members of an object keep their order, as the host keeps it. */
module JsonObjects {
  import opened Wrappers

  datatype Json = Null | Bool(b: bool) | Number(text: string) | Str(s: string) | Arr(items: seq<Json>) | Obj(members: seq<Member>)

  /** Members of an object, in their order. */
  datatype Member = Member(key: string, value: Json)

  predicate DistinctKeys(members: seq<Member>) {
    forall i, j | 0 <= i < j < |members| :: members[i].key != members[j].key
  }

  predicate HasKey(members: seq<Member>, key: string) {
    exists m | m in members :: m.key == key
  }

  function Get(members: seq<Member>, key: string): (r: Option<Json>)
    ensures r.Some? <==> HasKey(members, key)
    ensures r.Some? ==> Member(key, r.value) in members
  {
    if members == [] then None
    else if members[0].key == key then assert members[0] in members; Some(members[0].value)
    else
      assert forall m :: m in members <==> m == members[0] || m in members[1..];
      Get(members[1..], key)
  }

  /** `delete object[key]` */
  function Remove(members: seq<Member>, key: string): seq<Member> {
    if members == [] then []
    else if members[0].key == key then members[1..]
    else [members[0]] + Remove(members[1..], key)
  }

  /** `object[key] = value`; a new key goes to the end. */
  function Put(members: seq<Member>, key: string, value: Json): seq<Member> {
    if members == [] then [Member(key, value)]
    else if members[0].key == key then [Member(key, value)] + members[1..]
    else [members[0]] + Put(members[1..], key, value)
  }

  lemma {:induction false} GetPut(members: seq<Member>, key: string, value: Json)
    ensures Get(Put(members, key, value), key) == Some(value)
    ensures forall other | other != key :: Get(Put(members, key, value), other) == Get(members, other)
  {
    if members != [] && members[0].key != key {
      GetPut(members[1..], key, value);
      assert Put(members, key, value)[1..] == Put(members[1..], key, value);
    } else if members != [] {
      assert Put(members, key, value)[1..] == members[1..];
    } else {
      assert [Member(key, value)][1..] == [];
    }
  }

  lemma {:induction false} PutTwice(members: seq<Member>, key: string, v: Json, w: Json)
    ensures Put(Put(members, key, v), key, w) == Put(members, key, w)
    ensures Get(members, key) == Some(v) ==> Put(members, key, v) == members
  {
    if members != [] && members[0].key != key {
      PutTwice(members[1..], key, v, w);
    }
  }

  lemma {:induction false} RemovePut(members: seq<Member>, key: string, value: Json)
    ensures Remove(Put(members, key, value), key) == Remove(members, key)
  {
    if members != [] && members[0].key != key {
      RemovePut(members[1..], key, value);
    }
  }

  lemma {:induction false} NoKeyNoChange(members: seq<Member>, key: string)
    requires !HasKey(members, key)
    ensures Remove(members, key) == members
  {
    if members != [] {
      assert members[0] in members && forall m | m in members[1..] :: m in members;
      NoKeyNoChange(members[1..], key);
    }
  }

  lemma {:induction false} AtKey(a: seq<Member>, m: Member, b: seq<Member>, value: Json)
    requires !HasKey(a, m.key)
    ensures Remove(a + [m] + b, m.key) == a + b
    ensures Put(a + [m] + b, m.key, value) == a + [Member(m.key, value)] + b
  {
    if a == [] {
      assert a + [m] + b == [m] + b && a + b == b && [m] + b == ([m] + b)[..1] + b;
    } else {
      assert a[0] in a && (a + [m] + b)[0] == a[0] && (a + [m] + b)[1..] == a[1..] + [m] + b;
      assert forall x | x in a[1..] :: x in a;
      AtKey(a[1..], m, b, value);
      assert a == [a[0]] + a[1..];
    }
  }

  lemma {:induction false} GetAppend(a: seq<Member>, b: seq<Member>, key: string)
    ensures Get(a + b, key) == if HasKey(a, key) then Get(a, key) else Get(b, key)
  {
    if a == [] {
      assert a + b == b;
    } else {
      assert (a + b)[0] == a[0] && (a + b)[1..] == a[1..] + b;
      GetAppend(a[1..], b, key);
      assert forall m :: m in a <==> m == a[0] || m in a[1..];
    }
  }

  lemma {:induction false} Removed(members: seq<Member>, key: string)
    requires DistinctKeys(members)
    ensures !HasKey(Remove(members, key), key)
    ensures forall m | m in Remove(members, key) :: m in members
  {
    if members != [] && members[0].key != key {
      Removed(members[1..], key);
    }
  }

  lemma {:induction false} RemoveLength(members: seq<Member>, key: string)
    requires HasKey(members, key)
    ensures |Remove(members, key)| == |members| - 1
  {
    if members[0].key != key {
      assert forall m :: m in members <==> m == members[0] || m in members[1..];
      RemoveLength(members[1..], key);
    }
  }
}
