/**
  * The other half of inventory correctness: every active item holds exactly its nights in one room, its assigned one
  * if it has any.  Which steps keep this, and that no other does not.
  */
module Occupancy {
  import opened Basics
  import opened Calendar
  import opened StateMachine
  import opened Tables
  import opened Booking
  import opened Invariants
  import opened Inventory
  import opened Reactivation
  import opened Runs

  /** An item that is expected or in the house. */
  predicate Active(item: Item) {
    item.live && (item.status == Booked || item.status == CheckedIn)
  }

  ghost predicate HeldIn(t: Tables, i: ItemId, room: RoomId)
    requires i < |t.items|
  {
    (t.items[i].room.Some? ==> room == t.items[i].room.value) && Holds(t.ledger, i, room, t.items[i].stay)
  }

  ghost predicate Held(t: Tables, i: ItemId) {
    i < |t.items| && exists room :: HeldIn(t, i, room)
  }

  ghost predicate AllHeld(t: Tables) {
    forall i :: 0 <= i < |t.items| && Active(t.items[i]) ==> Held(t, i)
  }

  /** A deleted item has no row, unless its reservation is archived. */
  predicate RowsLive(t: Tables) {
    forall s :: s in t.ledger && t.ledger[s].item.Some? && t.ledger[s].item.value < |t.items| ==>
                  var item := t.items[t.ledger[s].item.value];
                  item.live || (item.res < |t.reservations| && t.reservations[item.res].status == ResArchived)
  }

  ghost predicate Stocked(t: Tables) {
    TablesValid(t) && RowsLive(t) && AllHeld(t)
  }

  // ---- items a step does not concern ----

  ghost predicate SameRows(before: Ledger, after: Ledger, i: ItemId) {
    forall s :: (s in before && before[s].item == Some(i)) <==> (s in after && after[s].item == Some(i))
  }

  /** An item that is active afterwards was active before, in the same room, on the same nights, with the same rows. */
  ghost predicate Undisturbed(t: Tables, t': Tables, i: ItemId)
    requires i < |t.items| <= |t'.items|
  {
    Active(t'.items[i]) ==>
      && Active(t.items[i]) && t'.items[i].room == t.items[i].room && t'.items[i].stay == t.items[i].stay
      && SameRows(t.ledger, t'.ledger, i)
  }

  lemma UndisturbedIsHeld(t: Tables, t': Tables, i: ItemId)
    requires i < |t.items| <= |t'.items| && AllHeld(t) && Undisturbed(t, t', i) && Active(t'.items[i])
    ensures Held(t', i)
  {
    assert Held(t, i);
    var room :| HeldIn(t, i, room);
    assert HeldIn(t', i, room);
  }

  // ---- requests and sweeps that only confirm, move statuses or delete ----

  predicate Plain(op: Op) {
    || op.DoConfirm? || op.DoUpdateMetadata? || op.DoCancelItem? || op.DoCheckinItem? || op.DoCheckoutItem?
    || op.DoMarkNoShow? || op.DoCheckinAll? || op.DoCheckoutAll?
  }

  lemma PlainStep(t: Tables, op: Op, t': Tables)
    requires Plain(op) && Exec(t, op) == Ok(t')
    ensures |t'.items| == |t.items| && |t'.reservations| == |t.reservations|
    ensures forall i :: 0 <= i < |t.items| ==> Undisturbed(t, t', i)
    ensures forall s :: s in t'.ledger ==> s in t.ledger && t'.ledger[s] == t.ledger[s]
    ensures forall i :: 0 <= i < |t.items| ==> t'.items[i].live == t.items[i].live && t'.items[i].res == t.items[i].res
    ensures forall r :: 0 <= r < |t.reservations| && t.reservations[r].status == ResArchived ==>
                          t'.reservations[r].status == ResArchived
  {
  }

  lemma PlainKeeps(t: Tables, op: Op, t': Tables)
    requires Stocked(t) && Plain(op) && Exec(t, op) == Ok(t') && TablesValid(t')
    ensures Stocked(t')
  {
    PlainStep(t, op, t');
    forall i | 0 <= i < |t'.items| && Active(t'.items[i]) ensures Held(t', i) {
      UndisturbedIsHeld(t, t', i);
    }
  }

  lemma CancelKeeps(t: Tables, id: ResId, version: int, t': Tables)
    requires Stocked(t) && CancelWrites(t, id, version) == Ok(t') && TablesValid(t')
    requires t.reservations[id].status != ResArchived
    ensures Stocked(t')
  {
    forall s | s in t.ledger ensures RowFits(t, s, t.ledger[s]) {
    }
    forall i | 0 <= i < |t'.items| && Active(t'.items[i]) ensures Held(t', i) {
      assert t.items[i].res != id && SameRows(t.ledger, t'.ledger, i);
      UndisturbedIsHeld(t, t', i);
    }
  }

  lemma OverstayKeeps(t: Tables, i: ItemId, seen: Item, t': Tables)
    requires Stocked(t) && MarkOverstay(t, i, seen) == Ok(t') && TablesValid(t')
    ensures Stocked(t')
  {
    ItemRowEffect(t, i, seen.version, seen.room, seen.stay, Overstay, t');
    forall k | 0 <= k < |t'.items| && Active(t'.items[k]) ensures Held(t', k) {
      UndisturbedIsHeld(t, t', k);
    }
  }

  lemma ArchiveKeeps(t: Tables, id: ResId, seen: Reservation, t': Tables)
    requires Stocked(t) && Archive(t, id, seen) == Ok(t') && TablesValid(t')
    ensures Stocked(t')
  {
    forall i | 0 <= i < |t'.items| && Active(t'.items[i]) ensures Held(t', i) {
      UndisturbedIsHeld(t, t', i);
    }
  }

  // ---- insertions ----

  lemma InsertKeeps(t: Tables, input: ItemInput, status: ItemStatus, res: ResId, locked: set<RoomId>, t': Tables)
    requires Stocked(t) && res < |t.reservations| && InsertItem(t, input, status, res, locked) == Ok(t')
    ensures Stocked(t') && t'.reservations == t.reservations
  {
    InsertItemGood(t, input, status, res, locked);
    var room := InsertedHeld(t, input, status, res, locked, t');
    forall i | 0 <= i < |t'.items| && Active(t'.items[i]) ensures Held(t', i) {
      if i < |t.items| {
        UndisturbedIsHeld(t, t', i);
      } else {
        assert HeldIn(t', i, room);
      }
    }
  }

  /** The new item holds exactly its nights, and only it has gained rows. */
  lemma InsertedHeld(t: Tables, input: ItemInput, status: ItemStatus, res: ResId, locked: set<RoomId>, t': Tables)
    returns (room: RoomId)
    requires LedgerSound(t) && InsertItem(t, input, status, res, locked) == Ok(t')
    ensures t'.items == t.items + [NewItem(input, status, res)] && HeldIn(t', |t.items|, room)
    ensures forall i :: 0 <= i < |t.items| ==> SameRows(t.ledger, t'.ledger, i)
    ensures forall s :: s in t'.ledger ==>
                          if s in t.ledger then t'.ledger[s] == t.ledger[s] else t'.ledger[s].item == Some(|t.items|)
  {
    var n, days := |t.items|, Nights(input.stay);
    var choice := if input.room.Some? then input.room else AutoPin(t.hotel, t.ledger, input.roomType, days, locked);
    assert InsertNights(t.hotel, t.ledger, choice, days, res, n) == Ok(t'.ledger);
    room := choice.value;
    forall s | s in t.ledger ensures t.ledger[s].item != Some(n) {
      assert RowFits(t, s, t.ledger[s]);
    }
    NightsHeld(t.hotel, t.ledger, room, input.stay, res, n, t'.ledger);
  }

  lemma NightsHeld(h: Hotel, l: Ledger, room: RoomId, stay: Stay, res: ResId, n: ItemId, l': Ledger)
    requires InsertNights(h, l, Some(room), Nights(stay), res, n) == Ok(l')
    requires forall s :: s in l ==> l[s].item != Some(n)
    ensures Holds(l', n, room, stay) && forall i :: 0 <= i < n ==> SameRows(l, l', i)
    ensures forall s :: s in l' ==> if s in l then l'[s] == l[s] else l'[s].item == Some(n)
  {
  }

  lemma {:induction false} InsertAllKeeps(t: Tables, inputs: seq<ItemInput>, status: ItemStatus, res: ResId,
                                          locked: set<RoomId>, t': Tables)
    requires Stocked(t) && res < |t.reservations| && InsertItems(t, inputs, status, res, locked) == Ok(t')
    ensures Stocked(t') && t'.reservations == t.reservations
  {
    if inputs == [] {
    } else {
      var init := inputs[..|inputs| - 1];
      var t1 := InsertItems(t, init, status, res, locked).value;
      InsertAllKeeps(t, init, status, res, locked, t1);
      InsertKeeps(t1, inputs[|inputs| - 1], status, res, locked, t');
    }
  }

  /** Writing the envelope or adding a reservation disturbs no item. */
  lemma ReservationsKeep(t: Tables, t': Tables)
    requires Stocked(t) && t' == t.(reservations := t'.reservations) && |t.reservations| <= |t'.reservations|
    requires TablesValid(t')
    requires forall r :: 0 <= r < |t.reservations| ==> t'.reservations[r].status == t.reservations[r].status
    ensures Stocked(t')
  {
    forall i | 0 <= i < |t'.items| && Active(t'.items[i]) ensures Held(t', i) {
      UndisturbedIsHeld(t, t', i);
    }
  }

  lemma CreateKeeps(t: Tables, op: Op, t': Tables)
    requires Stocked(t) && op.DoCreate? && Exec(t, op) == Ok(t')
    ensures Stocked(t')
  {
    var status := InitialStatus(op.source, op.walkin);
    var row := Reservation(status, InputHull(op.inputs), 1, ExpiresAt(op.source, status, op.now));
    var t1 := t.(reservations := t.reservations + [row]);
    KeptSound(t, t1);
    ReservationsKeep(t, t1);
    InsertAllKeeps(t1, op.inputs, InitialItemStatus(op.source, op.walkin), |t.reservations|, op.locked, t');
  }

  lemma AddItemKeeps(t: Tables, op: Op, t': Tables)
    requires Stocked(t) && op.DoAddItem? && Exec(t, op) == Ok(t')
    ensures Stocked(t')
  {
    var t1 := InsertItem(t, op.input, Booked, op.id, op.locked).value;
    InsertKeeps(t, op.input, Booked, op.id, op.locked, t1);
    EnvelopeKeeps(t1, op.id, t');
    EnvelopeGood(t1, op.id);
    assert forall r :: 0 <= r < |t1.reservations| ==> t'.reservations[r].status == t1.reservations[r].status;
    ReservationsKeep(t1, t');
  }

  // ---- room assignment and updates ----

  lemma AssignKeeps(t: Tables, op: Op, t': Tables)
    requires Stocked(t) && op.DoAssignRoom? && Exec(t, op) == Ok(t') && TablesValid(t')
    ensures Stocked(t')
  {
    var i, item := op.i, t.items[op.i];
    var t1 := UpdateItemRow(t, i, op.version, Some(op.newRoom), item.stay, item.status).value;
    ItemRowEffect(t, i, op.version, Some(op.newRoom), item.stay, item.status, t1);
    MoveRowsEffect(t.hotel, t.ledger, i, op.newRoom, t'.ledger);
    forall k | 0 <= k < |t'.items| && Active(t'.items[k]) ensures Held(t', k) {
      if k == i {
        assert Held(t, i);
        var home :| HeldIn(t, i, home);
        MoveHolds(t.hotel, t.ledger, i, home, item.stay, op.newRoom, t'.ledger);
        assert HeldIn(t', i, op.newRoom);
      } else {
        UndisturbedIsHeld(t, t', k);
      }
    }
  }

  /** The incremental update is right for an item that is in some room. */
  ghost predicate ExactUpdate(t: Tables, i: ItemId, stay: Stay, room: Option<RoomId>)
    requires i < |t.items|
  {
    exists home :: HeldIn(t, i, home) && DeltaIsExact(t.items[i].stay, stay, Goal(t, i, room, home) == home)
  }

  /** What a committed update does to the item row and to the reservation statuses. */
  lemma UpdateEffect(t: Tables, op: Op, t': Tables)
    requires op.DoUpdateItem? && Exec(t, op) == Ok(t')
    ensures op.i < |t.items| == |t'.items| && t'.items == t.items[op.i := t'.items[op.i]] && op.stay.Valid()
    ensures t'.items[op.i] == t.items[op.i].(
                              room := if op.room.Some? then op.room else t.items[op.i].room, stay := op.stay,
                              version := t'.items[op.i].version)
    ensures |t'.reservations| == |t.reservations|
    ensures forall r :: 0 <= r < |t.reservations| ==> t'.reservations[r].status == t.reservations[r].status
  {
    var i, item := op.i, t.items[op.i];
    if op.stay != item.stay {
      var t1, t2 := DateChangeSteps(t, i, op.version, op.stay, op.room, t');
    } else {
      var target := if op.room.Some? then op.room else item.room;
      var t1 := t.(ledger := t'.ledger);
      assert UpdateItemRow(t1, i, op.version, target, op.stay, item.status) == Ok(t');
      ItemRowEffect(t1, i, op.version, target, op.stay, item.status, t');
    }
  }

  /** Without a target room nothing can be claimed. */
  lemma UntargetedShrinks(t: Tables, i: ItemId, stay: Stay)
    requires i < |t.items| && t.items[i].room.None? && stay.Valid() && DeltaLedger(t, i, stay, None).Ok?
    ensures forall s :: s in DeltaLedger(t, i, stay, None).value ==>
                          s in t.ledger && DeltaLedger(t, i, stay, None).value[s] == t.ledger[s]
  {
  }

  /** Without a target room the rows left are in the room they were in. */
  lemma UntargetedRows(t: Tables, i: ItemId, stay: Stay, home: RoomId, r: RoomId)
    requires i < |t.items| && t.items[i].room.None? && stay.Valid() && DeltaLedger(t, i, stay, None).Ok?
    requires Holds(t.ledger, i, home, t.items[i].stay) && Holds(DeltaLedger(t, i, stay, None).value, i, r, stay)
    ensures r == home
  {
    UntargetedShrinks(t, i, stay);
    assert stay.Has(stay.arrival);
    assert Slot(r, stay.arrival) in DeltaLedger(t, i, stay, None).value;
  }

  lemma UpdateKeepsIff(t: Tables, op: Op, t': Tables)
    requires Stocked(t) && op.DoUpdateItem? && Exec(t, op) == Ok(t') && TablesValid(t')
    ensures Stocked(t') <==> (Active(t.items[op.i]) ==> ExactUpdate(t, op.i, op.stay, op.room))
  {
    var i := op.i;
    UpdateEffect(t, op, t');
    UpdateWritesDelta(t, i, op.version, op.stay, op.room);
    DeltaRows(t, i, op.stay, op.room);
    assert RowsLive(t') by {
      UpdatedRowsLive(t, t', i);
    }
    forall k | 0 <= k < |t'.items| && k != i && Active(t'.items[k]) ensures Held(t', k) {
      assert SameRows(t.ledger, t'.ledger, k);
      UndisturbedIsHeld(t, t', k);
    }
    if Active(t.items[i]) {
      assert Held(t, i);
      var home :| HeldIn(t, i, home);
      UpdatedItemHeldIff(t, op, t', home);
    }
  }

  lemma UpdatedRowsLive(t: Tables, t': Tables, i: ItemId)
    requires RowsLive(t) && i < |t.items| == |t'.items| && |t'.reservations| == |t.reservations| && t.items[i].live
    requires t'.items == t.items[i := t'.items[i]] && t'.items[i].live
    requires forall s :: s in t'.ledger && t'.ledger[s].item != Some(i) ==> s in t.ledger && t'.ledger[s] == t.ledger[s]
    requires forall r :: 0 <= r < |t.reservations| ==> t'.reservations[r].status == t.reservations[r].status
    ensures RowsLive(t')
  {
  }

  /** An item in room `home` is held after the update exactly when the delta is exact. */
  lemma UpdatedItemHeldIff(t: Tables, op: Op, t': Tables, home: RoomId)
    requires TablesValid(t) && op.DoUpdateItem? && Exec(t, op) == Ok(t') && op.i < |t.items| == |t'.items|
    requires op.stay.Valid() && DeltaLedger(t, op.i, op.stay, op.room) == Ok(t'.ledger) && HeldIn(t, op.i, home)
    requires t'.items[op.i].stay == op.stay
    requires t'.items[op.i].room == if op.room.Some? then op.room else t.items[op.i].room
    ensures Held(t', op.i) <==> ExactUpdate(t, op.i, op.stay, op.room)
  {
    var i, goal := op.i, Goal(t, op.i, op.room, home);
    UpdateHolds(t, i, op.stay, op.room, home);
    assert ItemFits(t, t.items[i]);
    forall h | HeldIn(t, i, h) ensures h == home {
      assert t.items[i].stay.Has(t.items[i].stay.arrival);
      assert Slot(h, t.items[i].stay.arrival) in t.ledger;
    }
    forall r | HeldIn(t', i, r) ensures r == goal {
      if t'.items[i].room.None? {
        UntargetedRows(t, i, op.stay, home, r);
      }
    }
    assert HeldIn(t', i, goal) <==> DeltaIsExact(t.items[i].stay, op.stay, goal == home);
  }

  // ---- reactivation ----

  /** The reservation has an active item before it is reactivated. */
  predicate HasActive(t: Tables, id: ResId) {
    exists i :: 0 <= i < |t.items| && t.items[i].res == id && Active(t.items[i])
  }

  /** An item that held its nights and is sold them again is in two rooms. */
  lemma SoldAgainIsNotHeld(t: Tables, t': Tables, i: ItemId)
    requires i < |t.items| <= |t'.items| && Held(t, i) && t.items[i].stay.Valid() && t'.items[i] == t.items[i]
    requires SoldNights(t'.items, t.ledger, t'.ledger, i)
    requires forall s :: s in t.ledger ==> s in t'.ledger && t'.ledger[s] == t.ledger[s]
    ensures !Held(t', i)
  {
    var home :| HeldIn(t, i, home);
    var room :| SoldIn(t'.items, t.ledger, t'.ledger, i, room);
    var d := t.items[i].stay.arrival;
    assert t.items[i].stay.Has(d);
    assert Slot(home, d) in t'.ledger && Slot(room, d) in t'.ledger && home != room;
    assert t'.ledger[Slot(home, d)].item == Some(i) && t'.ledger[Slot(room, d)].item == Some(i);
  }

  /** A revived item had no row, so what it is sold is all it has. */
  lemma RevivedIsHeld(t: Tables, t': Tables, i: ItemId)
    requires i < |t'.items| && SoldNights(t'.items, t.ledger, t'.ledger, i)
    requires forall s :: s in t.ledger ==> t.ledger[s].item != Some(i) && s in t'.ledger && t'.ledger[s] == t.ledger[s]
    ensures Held(t', i)
  {
    var room :| SoldIn(t'.items, t.ledger, t'.ledger, i, room);
    assert HeldIn(t', i, room);
  }

  lemma ReactivateKeepsIff(t: Tables, op: Op, t': Tables)
    requires Stocked(t) && op.DoReactivate? && Exec(t, op) == Ok(t') && TablesValid(t')
    ensures Stocked(t') <==> !HasActive(t, op.id)
  {
    var id := op.id;
    ReactivationSells(t, id, op.version, op.now, op.mayBackdate, op.locked, t');
    if i :| 0 <= i < |t.items| && t.items[i].res == id && Active(t.items[i]) {
      assert t'.items[i] == t.items[i] && i in LiveItems(t'.items, id) && ItemFits(t, t.items[i]);
      SoldAgainIsNotHeld(t, t', i);
      assert !AllHeld(t');
    } else {
      ReactivatedRowsLive(t, op, t');
      forall i | 0 <= i < |t'.items| && Active(t'.items[i]) ensures Held(t', i) {
        ReactivatedItemHeld(t, op, t', i);
      }
    }
  }

  lemma ReactivatedRowsLive(t: Tables, op: Op, t': Tables)
    requires RowsLive(t) && op.DoReactivate? && Exec(t, op) == Ok(t')
    requires t'.items == ReviveItems(t.items, op.id) && GrowsBy(t.ledger, t'.ledger, LiveItems(t'.items, op.id))
    ensures RowsLive(t')
  {
    assert |t'.reservations| == |t.reservations|;
    assert forall r :: 0 <= r < |t.reservations| && t.reservations[r].status == ResArchived ==>
                         t'.reservations[r].status == ResArchived;
  }

  lemma ReactivatedItemHeld(t: Tables, op: Op, t': Tables, i: ItemId)
    requires Stocked(t) && op.DoReactivate? && Exec(t, op) == Ok(t') && !HasActive(t, op.id)
    requires t'.items == ReviveItems(t.items, op.id) && GrowsBy(t.ledger, t'.ledger, LiveItems(t'.items, op.id))
    requires forall k :: k in LiveItems(t'.items, op.id) ==> SoldNights(t'.items, t.ledger, t'.ledger, k)
    requires i < |t'.items| && Active(t'.items[i])
    ensures Held(t', i)
  {
    if t.items[i].res == op.id {
      assert !t.items[i].live && i in LiveItems(t'.items, op.id);
      assert t.reservations[op.id].status != ResArchived;
      RevivedIsHeld(t, t', i);
    } else {
      assert i !in LiveItems(t'.items, op.id);
      assert SameRows(t.ledger, t'.ledger, i);
      UndisturbedIsHeld(t, t', i);
    }
  }

  // ---- every step and every run ----

  /** The two kinds of commits after which some active item does not hold exactly its nights. */
  ghost predicate Unstocks(t: Tables, op: Op) {
    && Exec(t, op).Ok?
    && (|| (op.DoUpdateItem? && op.i < |t.items| && Active(t.items[op.i]) && !ExactUpdate(t, op.i, op.stay, op.room))
        || (op.DoReactivate? && HasActive(t, op.id)))
  }

  lemma RequestKeepsIff(t: Tables, op: Op)
    requires Stocked(t) && Exec(t, op).Ok?
    ensures Stocked(Exec(t, op).value) <==> !Unstocks(t, op)
  {
    var t' := Exec(t, op).value;
    RequestGood(t, op);
    match op
    case DoCreate(_, _, _, _, _, _) => CreateKeeps(t, op, t');
    case DoCancel(id, version) => CancelKeeps(t, id, version, t');
    case DoReactivate(_, _, _, _, _) => ReactivateKeepsIff(t, op, t');
    case DoAddItem(_, _, _, _) => AddItemKeeps(t, op, t');
    case DoUpdateItem(_, _, _, _) => UpdateKeepsIff(t, op, t');
    case DoAssignRoom(_, _, _, _, _) => AssignKeeps(t, op, t');
    case _ => PlainKeeps(t, op, t');
  }

  /** A step keeps every active item on exactly its nights if and only if it is neither of the two. */
  lemma StepKeepsIff(s: System, e: Event)
    requires SystemValid(s) && Stocked(s.tables)
    ensures Stocked(Next(s, e).tables) <==> !(e.Request? && Unstocks(s.tables, e.op))
  {
    if e.Request? {
      if Exec(s.tables, e.op).Ok? {
        RequestKeepsIff(s.tables, e.op);
      }
    } else {
      StepGood(s, e);
      SweepKeeps(s, e);
    }
  }

  lemma SweepKeeps(s: System, e: Event)
    requires SystemValid(s) && Stocked(s.tables) && !e.Request? && TablesValid(Next(s, e).tables)
    ensures Stocked(Next(s, e).tables)
  {
    var t := s.tables;
    match e
    case SweepHold(id, seen) =>
      if (id, seen) in s.holds && ExpireHold(t, id, seen).Ok? {
        CancelKeeps(t, id, seen.version, ExpireHold(t, id, seen).value);
      }
    case SweepOverdue(i, seen) =>
      if (i, seen) in s.overdue && MarkOverstay(t, i, seen).Ok? {
        OverstayKeeps(t, i, seen, MarkOverstay(t, i, seen).value);
      }
    case SweepArchivable(id, seen) =>
      if (id, seen) in s.archivable && Archive(t, id, seen).Ok? {
        ArchiveKeeps(t, id, seen, Archive(t, id, seen).value);
      }
    case _ =>
  }

  ghost predicate StockedAt(s: System, es: seq<Event>, m: nat) {
    m <= |es| && Stocked(Run(s, es[..m]).tables)
  }

  ghost predicate UnstocksAt(s: System, es: seq<Event>, j: nat) {
    j < |es| && es[j].Request? && Unstocks(Run(s, es[..j]).tables, es[j].op)
  }

  lemma PositionKeepsIff(s: System, es: seq<Event>, j: nat)
    requires SystemValid(s) && j < |es| && StockedAt(s, es, j)
    ensures StockedAt(s, es, j + 1) <==> !UnstocksAt(s, es, j)
  {
    assert es[..j + 1][..j] == es[..j];
    RunKeepsValid(s, es[..j]);
    StepKeepsIff(Run(s, es[..j]), es[j]);
  }

  /** Over every run: all states are stocked if and only if no request of the run is one of the two kinds. */
  lemma RunsStayStockedIff(s: System, es: seq<Event>, n: nat)
    requires SystemValid(s) && Stocked(s.tables) && n <= |es|
    ensures (forall m: nat :: m <= n ==> StockedAt(s, es, m)) <==> (forall j: nat :: j < n ==> !UnstocksAt(s, es, j))
  {
    assert es[..0] == [];
    forall j: nat | j < n && StockedAt(s, es, j) ensures StockedAt(s, es, j + 1) <==> !UnstocksAt(s, es, j) {
      PositionKeepsIff(s, es, j);
    }
    var good, bad := (m: nat) => StockedAt(s, es, m), (j: nat) => UnstocksAt(s, es, j);
    StayGoodIff(good, bad, n);
    assert forall m: nat :: good(m) == StockedAt(s, es, m);
    assert forall j: nat :: bad(j) == UnstocksAt(s, es, j);
  }
}
