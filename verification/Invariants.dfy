/** What every booking transaction keeps: valid items, a sound ledger, versions that count writes. */
module Invariants {
  import opened Basics
  import opened Calendar
  import opened StateMachine
  import opened Tables
  import opened Booking

  // ---- what holds of the tables in every reachable state ----

  /** A row naming an item is sold, carries that item's reservation and lies on a night of its current stay. */
  predicate RowFits(t: Tables, s: Slot, e: Entry) {
    && (e.res.Some? ==> e.item.Some?)
    && (e.item.Some? ==>
          && e.item.value < |t.items|
          && e == SoldTo(t.items[e.item.value].res, e.item.value)
          && t.items[e.item.value].stay.Has(s.day))
  }

  predicate LedgerSound(t: Tables) {
    forall s :: s in t.ledger ==> RowFits(t, s, t.ledger[s])
  }

  predicate ItemFits(t: Tables, item: Item) {
    item.res < |t.reservations| && item.stay.Valid() && RoomExists(t.hotel, item.room)
  }

  predicate ItemsValid(t: Tables) {
    Exclusive(t.items) && forall i :: 0 <= i < |t.items| ==> ItemFits(t, t.items[i])
  }

  predicate TablesValid(t: Tables) {
    ItemsValid(t) && LedgerSound(t)
  }

  // ---- what every step does to each row ----

  /** Every write raises the version by one; the status follows the table, plus the archival of a cancelled row. */
  predicate ReservationStep(a: Reservation, b: Reservation) {
    b == a || (b.version == a.version + 1 && b.expiresAt == a.expiresAt && StatusStep(a.status, b.status))
  }

  predicate StatusStep(a: ReservationStatus, b: ReservationStatus) {
    a == b || ReservationMove(a, b) || (a == ResCancelled && b == ResArchived)
  }

  predicate ItemStep(a: Item, b: Item) {
    || b == a
    || (b.version == a.version + 1 && b.res == a.res && b.roomType == a.roomType && b.plan == a.plan
        && ItemStatusStep(a, b))
  }

  /**
    * An item's status follows the item table, or the whole reservation is cancelled, which deletes the item; no
    * transaction takes the two edges by which the table lets an overstay end.
    */
  predicate ItemStatusStep(a: Item, b: Item) {
    || MayBecome(a.status, b.status)
    || ((a.status == CheckedIn || a.status == Overstay) && b.status == Cancelled && !b.live)
  }

  predicate Evolves(t: Tables, t': Tables) {
    && t'.hotel == t.hotel
    && |t.reservations| <= |t'.reservations|
    && |t.items| <= |t'.items|
    && (forall r :: 0 <= r < |t.reservations| ==> ReservationStep(t.reservations[r], t'.reservations[r]))
    && (forall i :: 0 <= i < |t.items| ==> ItemStep(t.items[i], t'.items[i]))
  }

  predicate Good(t: Tables, t': Tables) {
    TablesValid(t') && Evolves(t, t')
  }

  // ---- one lemma per kind of write ----

  /** Deleting ledger rows and changing items without touching their reservation or stay keeps the ledger sound. */
  lemma KeptSound(t: Tables, t': Tables)
    requires LedgerSound(t) && |t.items| <= |t'.items|
    requires forall i :: 0 <= i < |t.items| ==> t'.items[i].res == t.items[i].res && t'.items[i].stay == t.items[i].stay
    requires forall s :: s in t'.ledger ==> s in t.ledger && t'.ledger[s] == t.ledger[s]
    ensures LedgerSound(t')
  {
  }

  /** The status changes of the transactions on single items. */
  predicate MayBecome(a: ItemStatus, b: ItemStatus) {
    a == b || (ItemMove(a, b) && a != Overstay)
  }

  /** A row with the same room and stay meets the constraints its predecessor met. */
  lemma SameRowFits(t: Tables, i: ItemId, row: Item)
    requires ItemsValid(t) && i < |t.items| && row.live == t.items[i].live
    requires row.room == t.items[i].room && row.stay == t.items[i].stay
    ensures WriteItems(t, t.items[i := row], i).Ok?
  {
  }

  lemma ItemRowWritten(t: Tables, i: ItemId, version: int, room: Option<RoomId>, stay: Stay, status: ItemStatus)
    requires ItemsValid(t)
    requires UpdateItemRow(t, i, version, room, stay, status).Ok? && MayBecome(t.items[i].status, status)
    ensures var t' := UpdateItemRow(t, i, version, room, stay, status).value;
            && i < |t.items| && t.items[i].version == version
            && t' == t.(items := t'.items) && |t'.items| == |t.items|
            && (forall k :: 0 <= k < |t.items| && k != i ==> t'.items[k] == t.items[k])
            && t'.items[i] == t.items[i].(room := if room.Some? then room else t.items[i].room,
                              stay := stay, status := status, version := version + 1)
            && ItemsValid(t') && Evolves(t, t')
            && (LedgerSound(t) && stay == t.items[i].stay ==> LedgerSound(t'))
  {
  }

  /** Writing a status the table allows, alone or together with a deletion of the item's rows. */
  lemma StatusWriteGood(t: Tables, i: ItemId, version: int, status: ItemStatus, now: int)
    requires TablesValid(t) && i < |t.items|
    ensures var r := UpdateItemRow(t, i, version, t.items[i].room, t.items[i].stay, status);
            r.Ok? && MayBecome(t.items[i].status, status) ==>
              && Good(t, r.value)
              && Good(t, r.value.(ledger := DeleteByItem(r.value.ledger, i)))
              && Good(t, r.value.(ledger := DeleteByItemFrom(r.value.ledger, i, DayOf(now))))
  {
  }

  lemma LifecycleGood(t: Tables, i: ItemId, version: int, now: int)
    requires TablesValid(t)
    ensures CancelItem(t, i, version).Ok? ==> Good(t, CancelItem(t, i, version).value)
    ensures CheckinItem(t, i, version).Ok? ==> Good(t, CheckinItem(t, i, version).value)
    ensures CheckoutItem(t, i, version).Ok? ==> Good(t, CheckoutItem(t, i, version).value)
    ensures MarkNoShow(t, i, version, now).Ok? ==> Good(t, MarkNoShow(t, i, version, now).value)
  {
    if LiveItem(t, i) {
      CancelItemGood(t, i, version, now);
      StayActionGood(t, i, version, now);
    }
  }

  lemma CancelItemGood(t: Tables, i: ItemId, version: int, now: int)
    requires TablesValid(t) && i < |t.items|
    ensures CancelItem(t, i, version).Ok? ==> Good(t, CancelItem(t, i, version).value)
    ensures MarkNoShow(t, i, version, now).Ok? ==> Good(t, MarkNoShow(t, i, version, now).value)
  {
    StatusWriteGood(t, i, version, Cancelled, now);
    StatusWriteGood(t, i, version, NoShow, now);
  }

  lemma StayActionGood(t: Tables, i: ItemId, version: int, now: int)
    requires TablesValid(t) && i < |t.items|
    ensures CheckinItem(t, i, version).Ok? ==> Good(t, CheckinItem(t, i, version).value)
    ensures CheckoutItem(t, i, version).Ok? ==> Good(t, CheckoutItem(t, i, version).value)
  {
  }

  /** The writes of a cancellation: afterwards no row names an item of the reservation and all of them are over. */
  lemma CancelWritesGood(t: Tables, id: ResId, version: int)
    requires TablesValid(t) && CancelWrites(t, id, version).Ok?
    requires StatusStep(t.reservations[id].status, ResCancelled)
    ensures Good(t, CancelWrites(t, id, version).value)
    ensures Released(CancelWrites(t, id, version).value, id)
  {
  }

  /** The reservation is cancelled, holds no ledger row, and every item of it is checked out, cancelled or archived. */
  predicate Released(t: Tables, id: ResId) {
    && id < |t.reservations| && t.reservations[id].status == ResCancelled
    && (forall s :: s in t.ledger ==> t.ledger[s].res != Some(id))
    && (forall s | s in t.ledger && t.ledger[s].item.Some? && t.ledger[s].item.value < |t.items|
          :: t.items[t.ledger[s].item.value].res != id)
    && (forall i :: 0 <= i < |t.items| && t.items[i].res == id ==> TerminalItem(t.items[i].status))
  }

  lemma ArchiveGood(t: Tables, id: ResId, seen: Reservation)
    requires TablesValid(t) && Archive(t, id, seen).Ok?
    requires Archivable(t.reservations[id])
    ensures Good(t, Archive(t, id, seen).value)
  {
  }

  lemma BatchGood(t: Tables, res: ResId)
    requires TablesValid(t)
    ensures Good(t, BatchCheckin(t, res)) && Good(t, BatchCheckout(t, res))
  {
  }

  lemma OverstayGood(t: Tables, i: ItemId, seen: Item)
    requires TablesValid(t) && MarkOverstay(t, i, seen).Ok?
    requires i < |t.items| && t.items[i] == seen
    ensures Good(t, MarkOverstay(t, i, seen).value)
  {
  }

  /** Claiming nights of an item's own stay keeps the ledger sound. */
  lemma ClaimSound(t: Tables, i: ItemId, room: Option<RoomId>, days: seq<Day>)
    requires LedgerSound(t) && i < |t.items|
    requires ClaimNights(t, i, room, days).Ok?
    requires forall d :: d in days ==> t.items[i].stay.Has(d)
    ensures LedgerSound(ClaimNights(t, i, room, days).value)
  {
  }

  lemma {:induction false} ReclaimAllSound(t: Tables, ids: seq<ItemId>, locked: set<RoomId>)
    requires LedgerSound(t) && Stored(t, ids)
    requires ReclaimAll(t, ids, locked).Ok?
    ensures LedgerSound(ReclaimAll(t, ids, locked).value)
  {
    if ids == [] {
    } else {
      var init, last := ids[..|ids| - 1], ids[|ids| - 1];
      ReclaimAllSound(t, init, locked);
      var t1 := ReclaimAll(t, init, locked).value;
      var item := t1.items[last];
      var days := Nights(item.stay);
      var room := if item.room.Some? then item.room else AutoPin(t1.hotel, t1.ledger, item.roomType, days, locked);
      if days != [] {
        ClaimSound(t1, last, room, days);
      }
    }
  }

  lemma ReactivateGood(t: Tables, id: ResId, version: int, now: int, mayBackdate: bool, locked: set<RoomId>)
    requires TablesValid(t) && Reactivate(t, id, version, now, mayBackdate, locked).Ok?
    ensures Good(t, Reactivate(t, id, version, now, mayBackdate, locked).value)
  {
    var t1 := UpdateStatus(t, id, version, Confirmed).value;
    var t2 := t1.(items := ReviveItems(t1.items, id));
    RevivedGood(t, id, version, t2);
    ReclaimAllSound(t2, LiveItems(t2.items, id), locked);
  }

  /** The tables just before the reactivation loop. */
  lemma RevivedGood(t: Tables, id: ResId, version: int, t2: Tables)
    requires TablesValid(t) && id < |t.reservations| && ReservationMove(t.reservations[id].status, Confirmed)
    requires UpdateStatus(t, id, version, Confirmed).Ok?
    requires t2 == UpdateStatus(t, id, version, Confirmed).value.(items := ReviveItems(t.items, id))
             && Exclusive(t2.items)
    ensures Good(t, t2)
  {
  }

  /** What recomputeEnvelope leaves alone. */
  lemma EnvelopeKeeps(t: Tables, res: ResId, t': Tables)
    requires RecomputeEnvelope(t, res) == Ok(t')
    ensures t' == t.(reservations := t'.reservations) && |t'.reservations| == |t.reservations|
    ensures LiveHull(t.items, res).arrival != ZERO_DAY && LiveHull(t.items, res).departure != ZERO_DAY ==>
              && res < |t.reservations| && t'.reservations[res].envelope == LiveHull(t.items, res)
              && t'.reservations[res].version == t.reservations[res].version + 1
    ensures LiveHull(t.items, res).arrival == ZERO_DAY || LiveHull(t.items, res).departure == ZERO_DAY ==> t' == t
  {
  }

  lemma EnvelopeGood(t: Tables, res: ResId)
    requires RecomputeEnvelope(t, res).Ok?
    ensures var t' := RecomputeEnvelope(t, res).value;
            && t' == t.(reservations := t'.reservations) && |t'.reservations| == |t.reservations|
            && Evolves(t, t')
            && (ItemsValid(t) ==> ItemsValid(t'))
            && (LedgerSound(t) ==> LedgerSound(t'))
  {
  }

  lemma InsertItemGood(t: Tables, input: ItemInput, status: ItemStatus, res: ResId, locked: set<RoomId>)
    requires TablesValid(t) && res < |t.reservations|
    requires InsertItem(t, input, status, res, locked).Ok?
    ensures var t' := InsertItem(t, input, status, res, locked).value;
            Good(t, t') && t'.items == t.items + [NewItem(input, status, res)] && t'.reservations == t.reservations
  {
  }

  lemma {:induction false} InsertItemsGood(t: Tables, inputs: seq<ItemInput>, status: ItemStatus, res: ResId,
                                           locked: set<RoomId>)
    requires TablesValid(t) && res < |t.reservations|
    requires InsertItems(t, inputs, status, res, locked).Ok?
    ensures var t' := InsertItems(t, inputs, status, res, locked).value;
            && TablesValid(t') && t'.hotel == t.hotel && t'.reservations == t.reservations
            && |t'.items| == |t.items| + |inputs| && t'.items[..|t.items|] == t.items
  {
    if inputs == [] {
    } else {
      var init := inputs[..|inputs| - 1];
      InsertItemsGood(t, init, status, res, locked);
      InsertItemGood(InsertItems(t, init, status, res, locked).value, inputs[|inputs| - 1], status, res, locked);
    }
  }

  lemma CreateGood(t: Tables, source: Source, walkin: bool, inputs: seq<ItemInput>, now: int, midnightToday: int,
                   locked: set<RoomId>)
    requires TablesValid(t)
    requires Create(t, source, walkin, inputs, now, midnightToday, locked).Ok?
    ensures Good(t, Create(t, source, walkin, inputs, now, midnightToday, locked).value)
  {
    var status := InitialStatus(source, walkin);
    var row := Reservation(status, InputHull(inputs), 1, ExpiresAt(source, status, now));
    var t1 := t.(reservations := t.reservations + [row]);
    KeptSound(t, t1);
    InsertItemsGood(t1, inputs, InitialItemStatus(source, walkin), |t.reservations|, locked);
  }

  lemma AddItemGood(t: Tables, id: ResId, input: ItemInput, locked: set<RoomId>)
    requires TablesValid(t) && AddItem(t, id, input, locked).Ok?
    ensures Good(t, AddItem(t, id, input, locked).value)
  {
    InsertItemGood(t, input, Booked, id, locked);
    EnvelopeGood(InsertItem(t, input, Booked, id, locked).value, id);
  }

  /** Re-rooming the rows of an item keeps each of them on its night. */
  lemma MoveSound(t: Tables, i: ItemId, room: RoomId)
    requires LedgerSound(t) && MoveRows(t.hotel, t.ledger, i, room).Ok?
    ensures LedgerSound(t.(ledger := MoveRows(t.hotel, t.ledger, i, room).value))
  {
  }

  lemma AssignRoomGood(t: Tables, i: ItemId, version: int, room: RoomId, mayMove: bool, mayMutate: bool)
    requires TablesValid(t) && AssignRoom(t, i, version, room, mayMove, mayMutate).Ok?
    ensures Good(t, AssignRoom(t, i, version, room, mayMove, mayMutate).value)
  {
    ItemRowWritten(t, i, version, Some(room), t.items[i].stay, t.items[i].status);
    var t1 := UpdateItemRow(t, i, version, Some(room), t.items[i].stay, t.items[i].status).value;
    MoveSound(t1, i, room);
  }

  /** Whichever branch the date change takes, every remaining row of the item lies on a night of the new stay. */
  lemma ShiftSound(t: Tables, i: ItemId, stay: Stay, room: Option<RoomId>)
    requires TablesValid(t) && i < |t.items| && stay.Valid()
    requires ShiftLedger(t, i, stay, room).Ok?
    ensures var t' := ShiftLedger(t, i, stay, room).value;
            && t' == t.(ledger := t'.ledger)
            && (forall s :: s in t'.ledger && t'.ledger[s].item == Some(i) ==>
                              t'.ledger[s] == SoldTo(t.items[i].res, i) && stay.Has(s.day))
            && (forall s :: s in t'.ledger && t'.ledger[s].item != Some(i) ==>
                              s in t.ledger && t'.ledger[s] == t.ledger[s])
  {
    var t' := ShiftLedger(t, i, stay, room).value;
    FirstRemovedNight(t.items[i].stay, stay);
    assert ItemFits(t, t.items[i]);
    forall s | s in t.ledger && t.ledger[s].item == Some(i) ensures RowFits(t, s, t.ledger[s]) {
    }
  }

  lemma ItemRowEffect(t: Tables, i: ItemId, version: int, room: Option<RoomId>, stay: Stay, status: ItemStatus,
                      t': Tables)
    requires UpdateItemRow(t, i, version, room, stay, status) == Ok(t')
    ensures i < |t.items| == |t'.items| && t.items[i].version == version
    ensures t' == t.(items := t.items[i := t'.items[i]])
    ensures t'.items[i] == t.items[i].(room := if room.Some? then room
                           else t.items[i].room, stay := stay, status := status,
                                version := version + 1)
    ensures RoomExists(t.hotel, t'.items[i].room)
  {
  }

  lemma ShiftKeepsRest(t: Tables, i: ItemId, stay: Stay, room: Option<RoomId>, t': Tables)
    requires i < |t.items| && ShiftLedger(t, i, stay, room) == Ok(t')
    ensures t' == t.(ledger := t'.ledger)
  {
  }

  /** The three writes of a date change, one after the other. */
  lemma DateChangeSteps(t: Tables, i: ItemId, version: int, stay: Stay, room: Option<RoomId>, t': Tables)
    returns (t1: Tables, t2: Tables)
    requires UpdateItem(t, i, version, stay, room) == Ok(t') && stay != t.items[i].stay
    ensures i < |t.items| && t.items[i].live && stay.Valid()
    ensures var target := if room.Some? then room else t.items[i].room;
            && ShiftLedger(t, i, stay, target) == Ok(t1) && t1 == t.(ledger := t1.ledger)
            && RecomputeEnvelope(t1, t.items[i].res) == Ok(t2) && t2 == t1.(reservations := t2.reservations)
            && UpdateItemRow(t2, i, version, target, stay, t.items[i].status) == Ok(t')
            && t' == t2.(items := t.items[i := t'.items[i]])
            && t'.items[i] == t.items[i].(room := target, stay := stay, version := version + 1)
            && t.items[i].version == version && RoomExists(t.hotel, target)
  {
    var target := if room.Some? then room else t.items[i].room;
    t1 := ShiftLedger(t, i, stay, target).value;
    t2 := RecomputeEnvelope(t1, t.items[i].res).value;
    ShiftKeepsRest(t, i, stay, target, t1);
    EnvelopeKeeps(t1, t.items[i].res, t2);
    ItemRowEffect(t2, i, version, target, stay, t.items[i].status, t');
  }

  lemma DateChangeGood(t: Tables, i: ItemId, version: int, stay: Stay, room: Option<RoomId>)
    requires TablesValid(t) && UpdateItem(t, i, version, stay, room).Ok? && stay != t.items[i].stay
    ensures Good(t, UpdateItem(t, i, version, stay, room).value)
  {
    var item := t.items[i];
    var effective := if room.Some? then room else item.room;
    ShiftSound(t, i, stay, effective);
    var t1 := ShiftLedger(t, i, stay, effective).value;
    EnvelopeGood(t1, item.res);
    var t2 := RecomputeEnvelope(t1, item.res).value;
    ItemRowWritten(t2, i, version, effective, stay, item.status);
    var t' := UpdateItem(t, i, version, stay, room).value;
    forall s | s in t'.ledger ensures RowFits(t', s, t'.ledger[s]) {
      assert t'.ledger[s].item != Some(i) ==> RowFits(t, s, t.ledger[s]);
    }
  }

  lemma UpdateItemGood(t: Tables, i: ItemId, version: int, stay: Stay, room: Option<RoomId>)
    requires TablesValid(t) && UpdateItem(t, i, version, stay, room).Ok?
    ensures Good(t, UpdateItem(t, i, version, stay, room).value)
  {
    var item := t.items[i];
    var effective := if room.Some? then room else item.room;
    if stay != item.stay {
      DateChangeGood(t, i, version, stay, room);
    } else if room.Some? && room != item.room {
      MoveSound(t, i, room.value);
      ItemRowWritten(t.(ledger := MoveRows(t.hotel, t.ledger, i, room.value).value), i, version, effective, stay,
                     item.status);
    } else {
      ItemRowWritten(t, i, version, effective, stay, item.status);
    }
  }
}
