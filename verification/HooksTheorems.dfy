/** What scrubbing leaves: exactly the other entries, no empty container, and nothing to scrub again. */
module HooksTheorems {
  import opened Wrappers
  import opened JsonObjects
  import opened HooksScrubber

  // ---------- Entries ----------

  /** All hook entries of one item of an event. */
  function ItemEntries(item: Json, mode: Mode): seq<Json> {
    if mode.Flat? then [item] else if Inner(item).Some? then Inner(item).value else []
  }

  /** All hook entries of an event, in order. */
  function Entries(items: seq<Json>, mode: Mode): seq<Json> {
    if items == [] then [] else Entries(items[..|items| - 1], mode) + ItemEntries(items[|items| - 1], mode)
  }

  function EventEntries(value: Option<Json>, mode: Mode): seq<Json> {
    if value.Some? && value.value.Arr? then Entries(value.value.items, mode) else []
  }

  lemma EntriesOfOneMore(items: seq<Json>, more: seq<Json>, mode: Mode)
    requires |more| <= 1
    ensures Entries(items + more, mode) == Entries(items, mode) + (if more == [] then [] else ItemEntries(more[0], mode))
  {
    if more == [] {
      assert items + more == items;
    } else {
      assert (items + more)[..|items + more| - 1] == items;
    }
  }

  lemma ItemKeepsTheOthers(item: Json, drop: Json -> bool, mode: Mode)
    ensures var r := ScrubEntry(item, drop, mode);
            (if r == [] then [] else ItemEntries(r[0], mode)) == Kept(ItemEntries(item, mode), drop)
  {
    if mode.Nested? && Inner(item).Some? {
      GetPut(item.members, "hooks", Arr(Kept(Inner(item).value, drop)));
    } else if mode.Flat? {
      assert Kept([item], drop) == (if drop(item) then [] else [item]) + Kept([], drop);
    }
  }

  lemma {:induction false} ItemsKeepTheOthers(items: seq<Json>, drop: Json -> bool, mode: Mode)
    ensures Entries(ScrubItems(items, drop, mode), mode) == Kept(Entries(items, mode), drop)
  {
    if items != [] {
      var init, last := items[..|items| - 1], items[|items| - 1];
      ItemsKeepTheOthers(init, drop, mode);
      ItemKeepsTheOthers(last, drop, mode);
      EntriesOfOneMore(ScrubItems(init, drop, mode), ScrubEntry(last, drop, mode), mode);
      KeptAppend(Entries(init, mode), ItemEntries(last, mode), drop);
    }
  }

  /** What becomes of the value of an event; `None` when the event goes. */
  function ScrubbedValue(key: string, value: Option<Json>, drop: Json -> bool, mode: Mode): Option<Json> {
    if value.None? then None
    else
      var r := ScrubEvent(Member(key, value.value), drop, mode);
      if r == [] then None else Some(r[0].value)
  }

  lemma GetOfOne(m: Member, drop: Json -> bool, mode: Mode, key: string)
    ensures Get([m], key) == if m.key == key then Some(m.value) else None
    ensures Get(ScrubEvent(m, drop, mode), key) ==
            if m.key == key then ScrubbedValue(key, Some(m.value), drop, mode) else None
  {
    assert [m][1..] == [];
    var r := ScrubEvent(m, drop, mode);
    if r != [] {
      assert r[1..] == [];
    }
  }

  lemma {:induction false} ScrubbedEvent(events: seq<Member>, drop: Json -> bool, mode: Mode, key: string)
    requires DistinctKeys(events)
    ensures Get(ScrubEvents(events, drop, mode), key) == ScrubbedValue(key, Get(events, key), drop, mode)
  {
    if events != [] {
      var init, last := events[..|events| - 1], events[|events| - 1];
      ScrubbedEvent(init, drop, mode, key);
      GetOfOne(last, drop, mode, key);
      GetAppend(init, [last], key);
      GetAppend(ScrubEvents(init, drop, mode), ScrubEvent(last, drop, mode), key);
      if last.key == key {
        assert !HasKey(init, key);
        ScrubbedKeys(init, drop, mode, key);
      }
      assert events == init + [last];
    }
  }

  /** For every event, what is left are the entries that do not run a deleted script, in their order. */
  lemma SurvivorsAreExact(events: seq<Member>, drop: Json -> bool, mode: Mode, key: string)
    requires DistinctKeys(events)
    ensures EventEntries(Get(ScrubEvents(events, drop, mode), key), mode) == Kept(EventEntries(Get(events, key), mode), drop)
  {
    ScrubbedEvent(events, drop, mode, key);
    match Get(events, key)
    case None =>
    case Some(value) =>
      if value.Arr? {
        ItemsKeepTheOthers(value.items, drop, mode);
      }
  }

  // ---------- No empty containers, nothing to scrub again ----------

  /** Scrubbing leaves the item as it is. */
  predicate SettledItem(item: Json, drop: Json -> bool, mode: Mode) {
    ScrubEntry(item, drop, mode) == [item]
  }

  predicate SettledEvent(m: Member, drop: Json -> bool, mode: Mode) {
    ScrubEvent(m, drop, mode) == [m]
  }

  /** No event is an empty list, and no matcher block has an empty inner list. */
  predicate NoEmptyList(m: Member, mode: Mode) {
    m.value.Arr? ==> m.value.items != []
                     && forall item | item in m.value.items :: mode.Nested? && Inner(item).Some? ==> Inner(item).value != []
  }

  lemma ScrubbedItemSettles(item: Json, drop: Json -> bool, mode: Mode)
    ensures forall r | r in ScrubEntry(item, drop, mode) :: SettledItem(r, drop, mode)
    ensures forall r | r in ScrubEntry(item, drop, mode) :: mode.Nested? && Inner(r).Some? ==> Inner(r).value != []
  {
    if mode.Nested? && Inner(item).Some? {
      var inner := Kept(Inner(item).value, drop);
      GetPut(item.members, "hooks", Arr(inner));
      KeptOnly(Inner(item).value, drop);
      KeptAll(inner, drop);
      PutTwice(Put(item.members, "hooks", Arr(inner)), "hooks", Arr(inner), Arr(inner));
    }
  }

  lemma {:induction false} ScrubbedItemsSettle(items: seq<Json>, drop: Json -> bool, mode: Mode)
    ensures forall r | r in ScrubItems(items, drop, mode) :: SettledItem(r, drop, mode)
    ensures forall r | r in ScrubItems(items, drop, mode) :: mode.Nested? && Inner(r).Some? ==> Inner(r).value != []
  {
    if items != [] {
      ScrubbedItemsSettle(items[..|items| - 1], drop, mode);
      ScrubbedItemSettles(items[|items| - 1], drop, mode);
    }
  }

  lemma {:induction false} SettledItemsStay(items: seq<Json>, drop: Json -> bool, mode: Mode)
    requires forall item | item in items :: SettledItem(item, drop, mode)
    ensures ScrubItems(items, drop, mode) == items
  {
    if items != [] {
      var init, last := items[..|items| - 1], items[|items| - 1];
      assert items == init + [last];
      SettledItemsStay(init, drop, mode);
      assert SettledItem(last, drop, mode);
    }
  }

  lemma ScrubbedEventSettles(m: Member, drop: Json -> bool, mode: Mode)
    ensures forall r | r in ScrubEvent(m, drop, mode) :: SettledEvent(r, drop, mode) && NoEmptyList(r, mode)
  {
    if m.value.Arr? {
      ScrubbedItemsSettle(m.value.items, drop, mode);
      SettledItemsStay(ScrubItems(m.value.items, drop, mode), drop, mode);
    }
  }

  lemma {:induction false} ScrubbedEventsSettle(events: seq<Member>, drop: Json -> bool, mode: Mode)
    ensures forall r | r in ScrubEvents(events, drop, mode) :: SettledEvent(r, drop, mode) && NoEmptyList(r, mode)
  {
    if events != [] {
      ScrubbedEventsSettle(events[..|events| - 1], drop, mode);
      ScrubbedEventSettles(events[|events| - 1], drop, mode);
    }
  }

  lemma {:induction false} SettledEventsStay(events: seq<Member>, drop: Json -> bool, mode: Mode)
    requires forall m | m in events :: SettledEvent(m, drop, mode)
    ensures ScrubEvents(events, drop, mode) == events
  {
    if events != [] {
      var init, last := events[..|events| - 1], events[|events| - 1];
      assert events == init + [last];
      SettledEventsStay(init, drop, mode);
      assert SettledEvent(last, drop, mode);
    }
  }

  // ---------- The whole file ----------

  lemma LeftIsSettled(root: seq<Member>, events: seq<Member>, drop: Json -> bool, mode: Mode)
    requires ScrubEvents(events, drop, mode) != []
    ensures var r := Put(root, "hooks", Obj(ScrubEvents(events, drop, mode)));
            ScrubRoot(r, drop, mode) == Some(r)
  {
    var left := ScrubEvents(events, drop, mode);
    ScrubbedEventsSettle(events, drop, mode);
    SettledEventsStay(left, drop, mode);
    GetPut(root, "hooks", Obj(left));
    PutTwice(Put(root, "hooks", Obj(left)), "hooks", Obj(left), Obj(left));
  }

  /** A second scrubbing changes nothing. */
  lemma ScrubIsIdempotent(root: seq<Member>, drop: Json -> bool, mode: Mode, after: seq<Member>)
    requires DistinctKeys(root) && ScrubRoot(root, drop, mode) == Some(after)
    ensures ScrubRoot(after, drop, mode) == Some(after)
  {
    var hooks := Get(root, "hooks");
    if hooks.Some? {
      var events := hooks.value.members;
      if ScrubEvents(events, drop, mode) == [] {
        Removed(root, "hooks");
      } else {
        LeftIsSettled(root, events, drop, mode);
      }
    }
  }

  /** Everything outside `hooks` stays, in its order, and what is left of `hooks` has no empty container. */
  lemma ScrubTouchesOnlyHooks(root: seq<Member>, drop: Json -> bool, mode: Mode)
    requires DistinctKeys(root) && ScrubRoot(root, drop, mode).Some?
    ensures var r := ScrubRoot(root, drop, mode).value;
            && Remove(r, "hooks") == Remove(root, "hooks")
            && (Get(root, "hooks").Some? && Get(r, "hooks").Some? ==>
                  Get(r, "hooks").value.Obj? && Get(r, "hooks").value.members != []
                  && forall m | m in Get(r, "hooks").value.members :: NoEmptyList(m, mode))
  {
    var hooks := Get(root, "hooks");
    if hooks.Some? {
      var left := ScrubEvents(hooks.value.members, drop, mode);
      Removed(root, "hooks");
      NoKeyNoChange(Remove(root, "hooks"), "hooks");
      RemovePut(root, "hooks", Obj(left));
      GetPut(root, "hooks", Obj(left));
      ScrubbedEventsSettle(hooks.value.members, drop, mode);
    }
  }

  // ---------- When the file is left with nothing ----------

  /** Nothing but entries of deleted scripts. */
  predicate OnlyDeleted(item: Json, drop: Json -> bool, mode: Mode) {
    if mode.Flat? then drop(item) else Inner(item).Some? && forall e | e in Inner(item).value :: drop(e)
  }

  predicate OnlyDeletedEvent(m: Member, drop: Json -> bool, mode: Mode) {
    m.value.Arr? && forall item | item in m.value.items :: OnlyDeleted(item, drop, mode)
  }

  lemma {:induction false} ItemsVanish(items: seq<Json>, drop: Json -> bool, mode: Mode)
    ensures ScrubItems(items, drop, mode) == [] <==> forall item | item in items :: OnlyDeleted(item, drop, mode)
  {
    if items != [] {
      var init, last := items[..|items| - 1], items[|items| - 1];
      ItemsVanish(init, drop, mode);
      assert forall item :: item in items <==> item in init || item == last by {
        assert items == init + [last];
      }
      assert ScrubEntry(last, drop, mode) == [] <==> OnlyDeleted(last, drop, mode) by {
        if mode.Nested? && Inner(last).Some? {
          KeptOnly(Inner(last).value, drop);
          var kept := Kept(Inner(last).value, drop);
          assert kept != [] ==> kept[0] in kept;
        }
      }
    }
  }

  lemma {:induction false} EventsVanish(events: seq<Member>, drop: Json -> bool, mode: Mode)
    ensures ScrubEvents(events, drop, mode) == [] <==> forall m | m in events :: OnlyDeletedEvent(m, drop, mode)
  {
    if events != [] {
      var init, last := events[..|events| - 1], events[|events| - 1];
      EventsVanish(init, drop, mode);
      assert forall m :: m in events <==> m in init || m == last by {
        assert events == init + [last];
      }
      EventVanishes(last, drop, mode);
    }
  }

  lemma EventVanishes(m: Member, drop: Json -> bool, mode: Mode)
    ensures ScrubEvent(m, drop, mode) == [] <==> OnlyDeletedEvent(m, drop, mode)
  {
    if m.value.Arr? {
      ItemsVanish(m.value.items, drop, mode);
    }
  }

  /** The file may be deleted exactly when it is empty, or has `hooks` alone and in it only entries of deleted scripts. */
  lemma FullyEmptyExactly(root: seq<Member>, drop: Json -> bool, mode: Mode)
    ensures ScrubRoot(root, drop, mode) == Some([]) <==>
            root == []
            || (|root| == 1 && root[0].key == "hooks" && root[0].value.Obj?
                && forall m | m in root[0].value.members :: OnlyDeletedEvent(m, drop, mode))
  {
    var hooks := Get(root, "hooks");
    if hooks.Some? && hooks.value.Obj? {
      EventsVanish(hooks.value.members, drop, mode);
      assert Remove(root, "hooks") == [] <==> |root| == 1 && root[0].key == "hooks" by {
        RemoveLength(root, "hooks");
      }
    }
  }
}
