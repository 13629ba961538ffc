/** Cancelling a reservation and reactivating it: exactly when the pair is a round trip. */
module RoundTrip {
  import opened Basics
  import opened Calendar
  import opened StateMachine
  import opened Tables
  import opened Booking
  import opened Invariants
  import opened Inventory

  /** The rows of item `i` are exactly the nights of its stay in its assigned room. */
  ghost predicate ExactlyCovered(t: Tables, i: ItemId)
    requires i < |t.items|
  {
    t.items[i].room.Some? && Holds(t.ledger, i, t.items[i].room.value, t.items[i].stay)
  }

  predicate Uncovered(t: Tables, i: ItemId) {
    forall s :: s in t.ledger ==> t.ledger[s].item != Some(i)
  }

  /** `s` is a night of item `i` in its assigned room. */
  predicate Wants(items: seq<Item>, i: ItemId, s: Slot)
    requires i < |items|
  {
    items[i].room == Some(s.room) && items[i].stay.Has(s.day)
  }

  predicate Assigned(t: Tables, ids: seq<ItemId>) {
    Stored(t, ids) && forall i :: i in ids ==> t.items[i].room.Some? && t.items[i].stay.Valid()
  }

  /** What a successful pass of the reactivation loop adds, for any number of items with assigned rooms. */
  lemma {:induction false} ReclaimAllAdds(t: Tables, ids: seq<ItemId>, locked: set<RoomId>)
    requires Assigned(t, ids) && ReclaimAll(t, ids, locked).Ok?
    ensures var t' := ReclaimAll(t, ids, locked).value;
            && t' == t.(ledger := t'.ledger)
            && (forall s :: s in t.ledger ==> s in t'.ledger && t'.ledger[s] == t.ledger[s])
            && (forall i, s :: i in ids && Wants(t.items, i, s) ==>
                                 s !in t.ledger && s in t'.ledger && t'.ledger[s] == SoldTo(t.items[i].res, i))
            && (forall s :: s in t'.ledger && s !in t.ledger ==> exists i :: i in ids && Wants(t.items, i, s))
  {
    if ids == [] {
    } else {
      var init, last := ids[..|ids| - 1], ids[|ids| - 1];
      assert ids == init + [last];
      assert forall i :: i in ids <==> i in init || i == last;
      ReclaimAllAdds(t, init, locked);
      var t1, t' := ReclaimAll(t, init, locked).value, ReclaimAll(t, ids, locked).value;
      assert last in ids;
      ReclaimAdds(t1, last, locked, t');
      forall s | s in t'.ledger && s !in t.ledger ensures exists i :: i in ids && Wants(t.items, i, s) {
        if s !in t1.ledger {
          assert Wants(t.items, last, s);
        }
      }
    }
  }

  /** One turn of the loop for an item with an assigned room. */
  lemma ReclaimAdds(t: Tables, i: ItemId, locked: set<RoomId>, t': Tables)
    requires i < |t.items| && t.items[i].room.Some? && t.items[i].stay.Valid() && Reclaim(t, i, locked) == Ok(t')
    ensures t' == t.(ledger := t'.ledger)
    ensures forall s :: s in t.ledger ==> s in t'.ledger && t'.ledger[s] == t.ledger[s]
    ensures forall s :: Wants(t.items, i, s) ==>
                          s !in t.ledger && s in t'.ledger && t'.ledger[s] == SoldTo(t.items[i].res, i)
    ensures forall s :: s in t'.ledger && s !in t.ledger ==> Wants(t.items, i, s)
  {
  }

  /** The loop succeeds when every wanted night is free and the live items do not overlap. */
  lemma {:induction false} ReclaimAllSucceeds(t: Tables, ids: seq<ItemId>, locked: set<RoomId>)
    requires ItemsValid(t) && Assigned(t, ids)
    requires forall i :: i in ids ==> t.items[i].live
    requires Ascending(ids)
    requires forall i :: i in ids ==>
                           RatesResolve(t.hotel, t.items[i].roomType, t.items[i].plan, Nights(t.items[i].stay))
    requires forall i, s :: i in ids && s in t.ledger ==> !Wants(t.items, i, s)
    ensures ReclaimAll(t, ids, locked).Ok?
  {
    if ids == [] {
    } else {
      var init, last := ids[..|ids| - 1], ids[|ids| - 1];
      assert last in ids && forall i :: i in init ==> i in ids;
      ReclaimAllSucceeds(t, init, locked);
      ReclaimAllAdds(t, init, locked);
      var t1 := ReclaimAll(t, init, locked).value;
      var item := t.items[last];
      forall d | item.stay.Has(d) ensures Slot(item.room.value, d) !in t1.ledger {
        var s := Slot(item.room.value, d);
        assert Wants(t.items, last, s);
        if i :| i in init && Wants(t.items, i, s) {
          assert i < last && t.items[i].live && t.items[i].stay.Overlaps(item.stay);
        }
      }
      assert ItemFits(t, item);
      ReclaimSucceeds(t1, last, locked);
    }
  }

  /** One item gets its nights when its room is free on all of them. */
  lemma ReclaimSucceeds(t: Tables, i: ItemId, locked: set<RoomId>)
    requires i < |t.items| && t.items[i].room.Some? && RoomExists(t.hotel, t.items[i].room)
    requires RatesResolve(t.hotel, t.items[i].roomType, t.items[i].plan, Nights(t.items[i].stay))
    requires forall d :: t.items[i].stay.Has(d) ==> Slot(t.items[i].room.value, d) !in t.ledger
    ensures Reclaim(t, i, locked).Ok?
  {
  }

  /** The condition, item by item, under which cancel then reactivate gives the item back as it was. */
  ghost predicate Recoverable(t: Tables, i: ItemId)
    requires i < |t.items|
  {
    Returns(t.items[i]) && if t.items[i].live then ExactlyCovered(t, i) else Uncovered(t, i)
  }

  /** The item row itself comes back: a no-show or overstay would come back booked, a deleted cancelled item live. */
  predicate Returns(item: Item) {
    if item.live then item.status != NoShow && item.status != Overstay
    else item.status == CheckedOut || item.status == Archived
  }

  /** The same tables up to version counters: ledger, reservation and every item. */
  predicate Restored(t: Tables, t': Tables) {
    && t'.ledger == t.ledger && t'.hotel == t.hotel
    && |t'.reservations| == |t.reservations| && |t'.items| == |t.items|
    && (forall r :: 0 <= r < |t.reservations| ==>
                      t'.reservations[r] == t.reservations[r].(version := t'.reservations[r].version))
    && (forall i :: 0 <= i < |t.items| ==> t'.items[i] == t.items[i].(version := t'.items[i].version))
  }

  /** A confirmed reservation that can be cancelled now and whose items have resolvable rates. */
  predicate Cancellable(t: Tables, id: ResId) {
    && TablesValid(t) && id < |t.reservations| && t.reservations[id].status == Confirmed
    && !HasCheckedIn(t.items, id)
    && (forall i :: 0 <= i < |t.items| && t.items[i].res == id ==>
                      RatesResolve(t.hotel, t.items[i].roomType, t.items[i].plan, Nights(t.items[i].stay)))
  }

  /** Moreover every item has an assigned room. */
  predicate Ready(t: Tables, id: ResId) {
    Cancellable(t, id) && forall i :: 0 <= i < |t.items| && t.items[i].res == id ==> t.items[i].room.Some?
  }

  function CancelThenReactivate(t: Tables, id: ResId, now: int, mayBackdate: bool, locked: set<RoomId>): Result<Tables>
    requires id < |t.reservations|
  {
    var t1 :- Cancel(t, id, t.reservations[id].version);
    Reactivate(t1, id, t.reservations[id].version + 1, now, mayBackdate, locked)
  }

  /** The tables just before the reactivation loop. */
  function Revived(t: Tables, id: ResId): Tables
    requires id < |t.reservations|
  {
    var row := t.reservations[id];
    t.(reservations := t.reservations[id := row.(status := Confirmed, version := row.version + 2)],
    items := ReviveItems(CancelItems(t.items, id), id),
    ledger := DeleteByReservation(t.ledger, id))
  }

  lemma Unfold(t: Tables, id: ResId, now: int, mayBackdate: bool, locked: set<RoomId>)
    requires Cancellable(t, id) && (Past(t, id, now) ==> mayBackdate)
    ensures var m := Revived(t, id);
            CancelThenReactivate(t, id, now, mayBackdate, locked) ==
            if !Exclusive(m.items) then Err(StaysOverlap) else ReclaimAll(m, LiveItems(m.items, id), locked)
  {
    var row := t.reservations[id];
    var t1 := Cancel(t, id, row.version).value;
    assert t1.reservations[id] == row.(status := ResCancelled, version := row.version + 1);
    assert UpdateStatus(t1, id, row.version + 1, Confirmed).value.reservations == Revived(t, id).reservations;
  }

  ghost predicate AllRecoverable(t: Tables, id: ResId) {
    forall i :: 0 <= i < |t.items| && t.items[i].res == id ==> Recoverable(t, i)
  }

  /** Cancelling and reviving items that return changes nothing but their versions. */
  lemma RevivedItems(t: Tables, id: ResId)
    requires Cancellable(t, id) && forall i :: 0 <= i < |t.items| && t.items[i].res == id ==> Returns(t.items[i])
    ensures var m := Revived(t, id);
            && ItemsValid(m)
            && (forall i :: 0 <= i < |t.items| ==> m.items[i] == t.items[i].(version := m.items[i].version))
  {
  }
}
