/**
  * What reactivation sells: the loop reclaims nights for every live item of the reservation, whatever its status,
  * and not only for the items it has just revived.
  */
module Reactivation {
  import opened Basics
  import opened Calendar
  import opened StateMachine
  import opened Tables
  import opened Booking
  import opened Invariants

  /** The rows item `i` has gained are exactly its nights in `room`, its assigned one if it has any. */
  ghost predicate SoldIn(items: seq<Item>, before: Ledger, after: Ledger, i: ItemId, room: RoomId)
    requires i < |items|
  {
    && (items[i].room.Some? ==> room == items[i].room.value)
    && (forall d :: items[i].stay.Has(d) ==>
                      && Slot(room, d) !in before && Slot(room, d) in after
                      && after[Slot(room, d)] == SoldTo(items[i].res, i))
    && (forall s :: s in after && s !in before && after[s].item == Some(i) ==>
                      s.room == room && items[i].stay.Has(s.day))
  }

  ghost predicate SoldNights(items: seq<Item>, before: Ledger, after: Ledger, i: ItemId) {
    i < |items| && exists room :: SoldIn(items, before, after, i, room)
  }

  /** The rows of `after` that `before` lacks are sold to items of `ids`, and all others are the same. */
  ghost predicate GrowsBy(before: Ledger, after: Ledger, ids: seq<ItemId>) {
    && (forall s :: s in before ==> s in after && after[s] == before[s])
    && (forall s :: s in after && s !in before ==>
                      after[s].item.Some? && after[s].item.value in ids)
  }

  /** One item, in its assigned or in a pinned room. */
  lemma ReclaimSells(t: Tables, i: ItemId, locked: set<RoomId>, t': Tables) returns (room: RoomId)
    requires i < |t.items| && t.items[i].stay.Valid() && Reclaim(t, i, locked) == Ok(t')
    ensures t' == t.(ledger := t'.ledger)
    ensures SoldIn(t.items, t.ledger, t'.ledger, i, room) && GrowsBy(t.ledger, t'.ledger, [i])
    ensures t.items[i].room.None? ==>
              AutoPin(t.hotel, t.ledger, t.items[i].roomType, Nights(t.items[i].stay), locked) == Some(room)
  {
    var item := t.items[i];
    var days := Nights(item.stay);
    assert item.stay.arrival in days;
    var choice := if item.room.Some? then item.room else AutoPin(t.hotel, t.ledger, item.roomType, days, locked);
    assert ClaimNights(t, i, choice, days) == Ok(t');
    room := choice.value;
    assert forall d :: item.stay.Has(d) ==> d in days;
  }

  /** A sale to another item keeps an earlier one. */
  lemma SaleKept(items: seq<Item>, l: Ledger, l1: Ledger, l': Ledger, ids: seq<ItemId>, i: ItemId, room: RoomId)
    requires i < |items| && i !in ids && SoldIn(items, l, l1, i, room) && GrowsBy(l1, l', ids)
    ensures SoldIn(items, l, l', i, room)
  {
  }

  /** A sale after sales to other items is a sale seen from before them. */
  lemma SaleWidened(items: seq<Item>, l: Ledger, l1: Ledger, l': Ledger, ids: seq<ItemId>, i: ItemId, room: RoomId)
    requires i < |items| && i !in ids && GrowsBy(l, l1, ids) && SoldIn(items, l1, l', i, room) && GrowsBy(l1, l', [i])
    ensures SoldIn(items, l, l', i, room)
  {
  }

  /** The whole loop, for any number of items with or without assigned rooms. */
  lemma {:induction false} ReclaimAllSells(t: Tables, ids: seq<ItemId>, locked: set<RoomId>, t': Tables)
    requires Stored(t, ids) && ReclaimAll(t, ids, locked) == Ok(t')
    requires Ascending(ids) && forall k :: 0 <= k < |ids| ==> t.items[ids[k]].stay.Valid()
    ensures t' == t.(ledger := t'.ledger) && GrowsBy(t.ledger, t'.ledger, ids)
    ensures forall k :: 0 <= k < |ids| ==> SoldNights(t.items, t.ledger, t'.ledger, ids[k])
  {
    if ids == [] {
    } else {
      var init, last := ids[..|ids| - 1], ids[|ids| - 1];
      var t1 := ReclaimAll(t, init, locked).value;
      ReclaimAllSells(t, init, locked, t1);
      var room := ReclaimSells(t1, last, locked, t');
      assert last !in init;
      SaleWidened(t.items, t.ledger, t1.ledger, t'.ledger, init, last, room);
      forall k | 0 <= k < |ids| ensures SoldNights(t.items, t.ledger, t'.ledger, ids[k]) {
        if k < |init| {
          assert init[k] == ids[k] < last;
          var r :| SoldIn(t.items, t.ledger, t1.ledger, init[k], r);
          SaleKept(t.items, t.ledger, t1.ledger, t'.ledger, [last], init[k], r);
        }
      }
    }
  }

  /** Reactivation sells all nights of every item that is live afterwards, and sells nothing else. */
  lemma ReactivationSells(t: Tables, id: ResId, version: int, now: int, mayBackdate: bool, locked: set<RoomId>,
                          t': Tables)
    requires TablesValid(t) && Reactivate(t, id, version, now, mayBackdate, locked) == Ok(t')
    ensures t'.items == ReviveItems(t.items, id)
    ensures GrowsBy(t.ledger, t'.ledger, LiveItems(t'.items, id))
    ensures forall i :: i in LiveItems(t'.items, id) ==> SoldNights(t'.items, t.ledger, t'.ledger, i)
  {
    var t1 := UpdateStatus(t, id, version, Confirmed).value;
    var m := t1.(items := ReviveItems(t1.items, id));
    var ids := LiveItems(m.items, id);
    forall k | 0 <= k < |ids| ensures m.items[ids[k]].stay.Valid() {
      assert ItemFits(t, t.items[ids[k]]);
    }
    LiveItemsAscend(m.items, id, 0);
    ReclaimAllSells(m, ids, locked, t');
    forall i | i in ids ensures SoldNights(t'.items, t.ledger, t'.ledger, i) {
      var k :| 0 <= k < |ids| && ids[k] == i;
    }
  }

  /** A live item of the reservation before the call. */
  predicate WasLive(t: Tables, id: ResId, i: int) {
    0 <= i < |t.items| && t.items[i].live && t.items[i].res == id
  }

  /** Every row that the reactivation has gained names an item that it has revived. */
  ghost predicate SoldToRevived(t: Tables, t': Tables, id: ResId) {
    forall s :: s in t'.ledger && s !in t.ledger ==>
                  && t'.ledger[s].item.Some? && t'.ledger[s].item.value in LiveItems(t'.items, id)
                  && !WasLive(t, id, t'.ledger[s].item.value)
  }

  /**
    * The comment on the loop promises inventory for each reactivated item.  A committed reactivation sells to
    * reactivated items only if and only if the reservation had no live item before the call.
    */
  lemma SellsToRevivedIff(t: Tables, id: ResId, version: int, now: int, mayBackdate: bool, locked: set<RoomId>,
                          t': Tables)
    requires TablesValid(t) && Reactivate(t, id, version, now, mayBackdate, locked) == Ok(t')
    ensures SoldToRevived(t, t', id) <==> forall i :: !WasLive(t, id, i)
  {
    ReactivationSells(t, id, version, now, mayBackdate, locked, t');
    if i :| WasLive(t, id, i) {
      assert t'.items[i] == t.items[i] && i in LiveItems(t'.items, id) && ItemFits(t, t.items[i]);
      assert SoldNights(t'.items, t.ledger, t'.ledger, i);
      var room :| SoldIn(t'.items, t.ledger, t'.ledger, i, room);
      var s := Slot(room, t.items[i].stay.arrival);
      assert t.items[i].stay.Has(s.day) && s in t'.ledger && s !in t.ledger && t'.ledger[s].item == Some(i);
    }
  }

  ghost predicate HasRow(l: Ledger, i: ItemId, d: Day) {
    exists s :: s in l && l[s].item == Some(i) && s.day == d
  }

  ghost predicate HasTwoRows(l: Ledger, i: ItemId, d: Day) {
    exists r, q :: r != q && Slot(r, d) in l && Slot(q, d) in l
                   && l[Slot(r, d)].item == Some(i) && l[Slot(q, d)].item == Some(i)
  }

  /** After a committed reactivation a live item has two rows on a night if and only if it held one before the call. */
  lemma SoldTwiceIff(t: Tables, id: ResId, version: int, now: int, mayBackdate: bool, locked: set<RoomId>,
                     t': Tables, i: ItemId, d: Day)
    requires TablesValid(t) && Reactivate(t, id, version, now, mayBackdate, locked) == Ok(t')
    requires i in LiveItems(t'.items, id)
    ensures HasTwoRows(t'.ledger, i, d) <==> HasRow(t.ledger, i, d)
  {
    ReactivationSells(t, id, version, now, mayBackdate, locked, t');
    assert SoldNights(t'.items, t.ledger, t'.ledger, i);
    var room :| SoldIn(t'.items, t.ledger, t'.ledger, i, room);
    if HasRow(t.ledger, i, d) {
      var s :| s in t.ledger && t.ledger[s].item == Some(i) && s.day == d;
      assert RowFits(t, s, t.ledger[s]) && s == Slot(s.room, d);
      assert t'.items[i].stay == t.items[i].stay;
      assert Slot(room, d) in t'.ledger && s.room != room;
    }
    if HasTwoRows(t'.ledger, i, d) {
      var r, q :| r != q && Slot(r, d) in t'.ledger && Slot(q, d) in t'.ledger
                  && t'.ledger[Slot(r, d)].item == Some(i) && t'.ledger[Slot(q, d)].item == Some(i);
      var other := if r == room then q else r;
      assert Slot(other, d) in t.ledger;
    }
  }

  /**
    * At a real input: a website guest holds one room for night 5, unassigned and pinned to room 0; reactivating that
    * hold, which the shared transition table allows, sells the same item the same night again in room 1.
    */
  lemma HoldIsSoldTwice() returns (empty: Tables, t: Tables, t': Tables)
    ensures empty == Tables(empty.hotel, [], [], map[])
    ensures Create(empty, Website, false, [ItemInput(0, Stay(5, 6), None, None, 1)], 0, 0, {}) == Ok(t)
    ensures t.ledger == map[Slot(0, 5) := SoldTo(0, 0)] && Reactivate(t, 0, 1, 0, false, {}) == Ok(t')
    ensures t'.ledger == map[Slot(0, 5) := SoldTo(0, 0), Slot(1, 5) := SoldTo(0, 0)]
  {
    var stay, input := Stay(5, 6), ItemInput(0, Stay(5, 6), None, None, 1);
    var item := NewItem(input, Booked, 0);
    var hotel := Hotel([0, 0], map[0 := Limits(0, 0)], {});
    var row := Reservation(Hold, stay, 1, Some(900));
    empty := Tables(hotel, [], [], map[]);
    t := Tables(hotel, [row], [item], map[Slot(0, 5) := SoldTo(0, 0)]);
    HeldByCreation(empty, t, input, row);
    var t1 := UpdateStatus(t, 0, 1, Confirmed).value;
    assert ReviveItems(t.items, 0) == t.items;
    OnlyLiveItem(t.items);
    RepinnedToTheOther(t1);
    t' := t1.(ledger := map[Slot(0, 5) := SoldTo(0, 0), Slot(1, 5) := SoldTo(0, 0)]);
    assert [0][..0] == [] && ReclaimAll(t1, [], {}) == Ok(t1);
    assert ReclaimAll(t1, [0], {}) == Ok(t');
  }

  lemma OnlyLiveItem(items: seq<Item>)
    requires |items| == 1 && items[0].live && items[0].res == 0
    ensures LiveItems(items, 0) == [0]
  {
    assert LiveItemsFrom(items, 0, 1) == [];
  }

  /** One sold night on a free slot. */
  lemma OneNightInserted(h: Hotel, l: Ledger, room: RoomId)
    requires room < |h.rooms| && Slot(room, 5) !in l
    ensures Nights(Stay(5, 6)) == [5]
    ensures InsertNights(h, l, Some(room), [5], 0, 0) == Ok(l[Slot(room, 5) := SoldTo(0, 0)])
  {
    assert Nights(Stay(5, 6)) == [5];
    var r := InsertNights(h, l, Some(room), [5], 0, 0);
    assert r.Ok? && r.value == l[Slot(room, 5) := SoldTo(0, 0)] by {
      assert forall s: Slot :: s == Slot(s.room, s.day);
    }
  }

  lemma HeldByCreation(empty: Tables, t: Tables, input: ItemInput, row: Reservation)
    requires input == ItemInput(0, Stay(5, 6), None, None, 1) && row == Reservation(Hold, Stay(5, 6), 1, Some(900))
    requires empty == Tables(Hotel([0, 0], map[0 := Limits(0, 0)], {}), [], [], map[])
    requires t == empty.(reservations := [row], items := [NewItem(input, Booked, 0)],
                  ledger := map[Slot(0, 5) := SoldTo(0, 0)])
    ensures Create(empty, Website, false, [input], 0, 0, {}) == Ok(t)
  {
    var t0 := empty.(reservations := [row]);
    assert empty.reservations + [row] == [row] && t0.items + [NewItem(input, Booked, 0)] == t.items;
    OneNightInserted(t0.hotel, t0.ledger, 0);
    assert FreeOn(t0.ledger, 0, [5]) && AutoPin(t0.hotel, t0.ledger, 0, [5], {}) == Some(0);
    assert InsertItem(t0, input, Booked, 0, {}) == Ok(t);
    assert [input][..0] == [] && InsertItems(t0, [], Booked, 0, {}) == Ok(t0);
    assert InsertItems(t0, [input], Booked, 0, {}) == Ok(t);
    assert InputHull([input]) == Stay(5, 6) by {
      assert seq(1, k requires 0 <= k < 1 => [input][k].stay) == [Stay(5, 6)];
    }
  }

  lemma RepinnedToTheOther(t: Tables)
    requires |t.items| == 1 && t.items[0].room == None && t.items[0].plan == None && t.items[0].res == 0
    requires t.items[0].stay == Stay(5, 6) && t.items[0].roomType == 0 && t.hotel.rooms == [0, 0]
    requires t.ledger == map[Slot(0, 5) := SoldTo(0, 0)]
    ensures Reclaim(t, 0, {}) == Ok(t.(ledger := t.ledger[Slot(1, 5) := SoldTo(0, 0)]))
  {
    OneNightInserted(t.hotel, t.ledger, 1);
    assert 5 in [5] && !FreeOn(t.ledger, 0, [5]) && FreeOn(t.ledger, 1, [5]);
    assert AutoPin(t.hotel, t.ledger, 0, [5], {}) == Some(1);
  }

  /** At a real input: a cancelled reservation whose live item was cancelled or checked out is sold its night again. */
  lemma SellsAgainExample(status: ItemStatus) returns (t: Tables, t': Tables)
    requires status == Cancelled || status == CheckedOut
    ensures TablesValid(t) && |t.items| == 1 && t.items[0].live && t.items[0].status == status && t.ledger == map[]
    ensures Reactivate(t, 0, 1, 0, false, {}) == Ok(t')
    ensures t'.items == t.items && t'.ledger == map[Slot(0, 5) := SoldTo(0, 0)]
  {
    var stay := Stay(5, 6);
    var item := Item(0, 0, Some(0), None, stay, false, status, 1, true);
    t := Tables(Hotel([0], map[], {}), [Reservation(ResCancelled, stay, 1, None)], [item], map[]);
    var t1 := UpdateStatus(t, 0, 1, Confirmed).value;
    assert ReviveItems(t.items, 0) == t.items;
    OnlyLiveItem(t.items);
    OneNightInserted(t1.hotel, t1.ledger, 0);
    t' := t1.(ledger := map[Slot(0, 5) := SoldTo(0, 0)]);
    assert Reclaim(t1, 0, {}) == Ok(t');
    assert [0][..0] == [] && ReclaimAll(t1, [], {}) == Ok(t1);
    assert ReclaimAll(t1, [0], {}) == Ok(t');
  }
}
