/** Removing the hook entries of deleted scripts from a settings file. */
module HooksScrubber {
  import opened Wrappers
  import opened JsonObjects
  import opened HookCommands

  datatype Mode = Flat | Nested

  // ---------- Entries ----------

  /** The command of an entry: `command`, else `bash`, else `powershell`. */
  function EntryCommand(entry: Json): Option<string> {
    if !entry.Obj? then None
    else
      match (Get(entry.members, "command"), Get(entry.members, "bash"), Get(entry.members, "powershell"))
      case (Some(Str(s)), _, _) => Some(s)
      case (_, Some(Str(s)), _) => Some(s)
      case (_, _, Some(Str(s))) => Some(s)
      case _ => None
  }

  /** Does the entry run a deleted script? */
  predicate Drops(entry: Json, deleted: seq<string>) {
    EntryCommand(entry).Some? && Matches(EntryCommand(entry).value, deleted)
  }

  function Dropping(deleted: seq<string>): Json -> bool {
    entry => Drops(entry, deleted)
  }

  function Kept(entries: seq<Json>, drop: Json -> bool): seq<Json> {
    if entries == [] then []
    else (if drop(entries[0]) then [] else [entries[0]]) + Kept(entries[1..], drop)
  }

  lemma {:induction false} KeptAppend(a: seq<Json>, b: seq<Json>, drop: Json -> bool)
    ensures Kept(a + b, drop) == Kept(a, drop) + Kept(b, drop)
  {
    if a == [] {
      assert a + b == b;
    } else {
      assert (a + b)[0] == a[0] && (a + b)[1..] == a[1..] + b;
      KeptAppend(a[1..], b, drop);
    }
  }

  lemma {:induction false} KeptOnly(entries: seq<Json>, drop: Json -> bool)
    ensures forall e :: e in Kept(entries, drop) <==> e in entries && !drop(e)
  {
    if entries != [] {
      KeptOnly(entries[1..], drop);
      assert forall e :: e in entries <==> e == entries[0] || e in entries[1..];
    }
  }

  lemma {:induction false} KeptAll(entries: seq<Json>, drop: Json -> bool)
    requires forall e | e in entries :: !drop(e)
    ensures Kept(entries, drop) == entries
  {
    if entries != [] {
      assert entries[0] in entries && forall e | e in entries[1..] :: e in entries;
      KeptAll(entries[1..], drop);
    }
  }

  /** The inner list of a matcher block; `None` for anything else. */
  function Inner(entry: Json): Option<seq<Json>> {
    if entry.Obj? && Get(entry.members, "hooks").Some? && Get(entry.members, "hooks").value.Arr?
    then Some(Get(entry.members, "hooks").value.items)
    else None
  }

  /** What becomes of one entry of an event: nothing, or one entry. */
  function ScrubEntry(entry: Json, drop: Json -> bool, mode: Mode): (r: seq<Json>)
    ensures |r| <= 1
  {
    if mode.Flat? then (if drop(entry) then [] else [entry])
    else if Inner(entry).None? then [entry]
    else
      var inner := Kept(Inner(entry).value, drop);
      if inner == [] then [] else [Obj(Put(entry.members, "hooks", Arr(inner)))]
  }

  function ScrubItems(items: seq<Json>, drop: Json -> bool, mode: Mode): seq<Json> {
    if items == [] then []
    else ScrubItems(items[..|items| - 1], drop, mode) + ScrubEntry(items[|items| - 1], drop, mode)
  }

  /** What becomes of one event: nothing, or the event with its new value. */
  function ScrubEvent(m: Member, drop: Json -> bool, mode: Mode): (r: seq<Member>)
    ensures r == [] || (|r| == 1 && r[0].key == m.key)
  {
    if !m.value.Arr? then [m]
    else
      var items := ScrubItems(m.value.items, drop, mode);
      if items == [] then [] else [Member(m.key, Arr(items))]
  }

  function ScrubEvents(events: seq<Member>, drop: Json -> bool, mode: Mode): seq<Member> {
    if events == [] then []
    else ScrubEvents(events[..|events| - 1], drop, mode) + ScrubEvent(events[|events| - 1], drop, mode)
  }

  /** The members of the file afterwards; `None` when the file is left as it is. */
  function ScrubRoot(root: seq<Member>, drop: Json -> bool, mode: Mode): Option<seq<Member>> {
    match Get(root, "hooks")
    case None => Some(root)
    case Some(Obj(events)) =>
      var left := ScrubEvents(events, drop, mode);
      Some(if left == [] then Remove(root, "hooks") else Put(root, "hooks", Obj(left)))
    case Some(_) => None
  }

  lemma {:induction false} ScrubbedKeys(events: seq<Member>, drop: Json -> bool, mode: Mode, key: string)
    requires !HasKey(events, key)
    ensures !HasKey(ScrubEvents(events, drop, mode), key)
  {
    if events != [] {
      assert forall m | m in events[..|events| - 1] :: m in events;
      ScrubbedKeys(events[..|events| - 1], drop, mode, key);
      assert events[|events| - 1] in events;
    }
  }

  // ---------- The loops ----------

  method FilterInner(entries: seq<Json>, deleted: seq<string>) returns (r: seq<Json>)
    ensures r == Kept(entries, Dropping(deleted))
  {
    r := [];
    for i := 0 to |entries|
      invariant r == Kept(entries[..i], Dropping(deleted))
    {
      KeptAppend(entries[..i], [entries[i]], Dropping(deleted));
      assert entries[..i + 1] == entries[..i] + [entries[i]];
      var command := EntryCommand(entries[i]);
      var drop := false;
      if command.Some? {
        drop := CommandMatchesDeletedPath(command.value, deleted);
      }
      if !drop {
        r := r + [entries[i]];
      }
    }
    assert entries[..|entries|] == entries;
  }

  method FilterEvent(items: seq<Json>, deleted: seq<string>, mode: Mode) returns (r: seq<Json>)
    ensures r == ScrubItems(items, Dropping(deleted), mode)
  {
    r := [];
    for i := 0 to |items|
      invariant r == ScrubItems(items[..i], Dropping(deleted), mode)
    {
      assert items[..i + 1][..i] == items[..i];
      var entry := items[i];
      if mode.Flat? {
        var command := EntryCommand(entry);
        if command.Some? {
          var drop := CommandMatchesDeletedPath(command.value, deleted);
          if drop {
            continue;
          }
        }
        r := r + [entry];
      } else if Inner(entry).None? {
        r := r + [entry];
      } else {
        var inner := FilterInner(Inner(entry).value, deleted);
        if inner == [] {
          continue;
        }
        r := r + [Obj(Put(entry.members, "hooks", Arr(inner)))];
      }
    }
    assert items[..|items|] == items;
  }

  lemma OneMoreEvent(events: seq<Member>, i: nat, drop: Json -> bool, mode: Mode)
    requires i < |events|
    ensures ScrubEvents(events[..i + 1], drop, mode) == ScrubEvents(events[..i], drop, mode) + ScrubEvent(events[i], drop, mode)
  {
    assert events[..i + 1][..i] == events[..i];
  }

  /** The object after one event has been dealt with in place. */
  function AfterEvent(hooks: seq<Member>, event: Member, drop: Json -> bool, mode: Mode): seq<Member> {
    if !event.value.Arr? then hooks
    else
      var items := ScrubItems(event.value.items, drop, mode);
      if items == [] then Remove(hooks, event.key) else Put(hooks, event.key, Arr(items))
  }

  lemma InPlace(done: seq<Member>, event: Member, later: seq<Member>, drop: Json -> bool, mode: Mode)
    requires !HasKey(done, event.key)
    ensures AfterEvent(done + [event] + later, event, drop, mode) == done + ScrubEvent(event, drop, mode) + later
  {
    if event.value.Arr? {
      var items := ScrubItems(event.value.items, drop, mode);
      AtKey(done, event, later, Arr(items));
      assert done + [] == done;
    }
  }

  /** The state of the event loop before and after one event. */
  lemma EventStep(events: seq<Member>, i: nat, drop: Json -> bool, mode: Mode, hooks: seq<Member>)
    requires DistinctKeys(events) && i < |events|
    requires hooks == ScrubEvents(events[..i], drop, mode) + events[i..]
    ensures AfterEvent(hooks, events[i], drop, mode) == ScrubEvents(events[..i + 1], drop, mode) + events[i + 1..]
  {
    var event, done := events[i], ScrubEvents(events[..i], drop, mode);
    assert !HasKey(events[..i], event.key);
    ScrubbedKeys(events[..i], drop, mode, event.key);
    assert events[i..] == [event] + events[i + 1..];
    assert hooks == done + [event] + events[i + 1..];
    OneMoreEvent(events, i, drop, mode);
    InPlace(done, event, events[i + 1..], drop, mode);
  }

  /** Walks over the event names once, deleting or replacing events of the object as it goes. */
  method ScrubHooks(events: seq<Member>, deleted: seq<string>, mode: Mode) returns (hooks: seq<Member>)
    requires DistinctKeys(events)
    ensures hooks == ScrubEvents(events, Dropping(deleted), mode)
  {
    hooks := events;
    for i := 0 to |events|
      invariant hooks == ScrubEvents(events[..i], Dropping(deleted), mode) + events[i..]
    {
      var event := events[i];
      EventStep(events, i, Dropping(deleted), mode, hooks);
      if !event.value.Arr? {
        continue;
      }
      var filtered := FilterEvent(event.value.items, deleted, mode);
      if filtered == [] {
        hooks := Remove(hooks, event.key);
      } else {
        hooks := Put(hooks, event.key, Arr(filtered));
      }
    }
    assert events[..|events|] == events;
  }

  /** `None` is an unreadable file, returned as it is. */
  method ScrubHooksJson(root: seq<Member>, deleted: seq<string>, mode: Mode) returns (r: Option<seq<Member>>, fullyEmpty: bool)
    requires forall events :: Get(root, "hooks") == Some(Obj(events)) ==> DistinctKeys(events)
    ensures r == ScrubRoot(root, Dropping(deleted), mode)
    ensures fullyEmpty <==> r == Some([])
  {
    var hooks := Get(root, "hooks");
    if hooks.None? {
      return Some(root), root == [];
    }
    if !hooks.value.Obj? {
      return None, false;
    }
    var left := ScrubHooks(hooks.value.members, deleted, mode);
    var after := if left == [] then Remove(root, "hooks") else Put(root, "hooks", Obj(left));
    return Some(after), after == [];
  }
}
