/** UpdateItem's incremental ledger change against deleting all rows of the item and inserting its new nights. */
module Inventory {
  import opened Basics
  import opened Calendar
  import opened StateMachine
  import opened Tables
  import opened Booking
  import opened Invariants

  // ---- UpdateItem against delete-all-and-reinsert ----

  /** The reference: drop every row of the item, then insert one row per night of `stay`. */
  function Rebuilt(t: Tables, i: ItemId, room: Option<RoomId>, stay: Stay): Result<Ledger>
    requires i < |t.items|
  {
    InsertNights(t.hotel, DeleteByItem(t.ledger, i), room, Nights(stay), t.items[i].res, i)
  }

  /** The rows of item `i` are exactly the nights of `stay` in `room`. */
  ghost predicate Holds(l: Ledger, i: ItemId, room: RoomId, stay: Stay) {
    && (forall s :: s in l && l[s].item == Some(i) ==> s.room == room && stay.Has(s.day))
    && (forall d :: stay.Has(d) ==> Slot(room, d) in l && l[Slot(room, d)].item == Some(i))
  }

  /** A sound ledger that differs only in the rows of `i` is the rebuilt one exactly when `i` holds its nights. */
  lemma RebuiltIffHolds(t: Tables, i: ItemId, room: RoomId, stay: Stay, l: Ledger)
    requires i < |t.items| && room < |t.hotel.rooms|
    requires forall s :: s in DeleteByItem(t.ledger, i) ==> s in l && l[s] == t.ledger[s]
    requires forall s :: s in l && l[s].item != Some(i) ==> s in t.ledger && l[s] == t.ledger[s]
    requires forall s :: s in l && l[s].item == Some(i) ==> l[s] == SoldTo(t.items[i].res, i)
    ensures Holds(l, i, room, stay) <==> Rebuilt(t, i, Some(room), stay) == Ok(l)
  {
    var kept := DeleteByItem(t.ledger, i);
    var r := Rebuilt(t, i, Some(room), stay);
    if Holds(l, i, room, stay) {
      forall d | d in Nights(stay) ensures Slot(room, d) !in kept {
        assert Slot(room, d) in l;
      }
      forall s | s in l ensures s in r.value {
        assert s == Slot(s.room, s.day);
      }
      forall s | s in r.value ensures s in l && r.value[s] == l[s] {
        assert s == Slot(s.room, s.day);
      }
      assert r.value == l;
    }
    if r == Ok(l) {
      forall s | s in l && l[s].item == Some(i) ensures s.room == room && stay.Has(s.day) {
        assert s !in kept;
      }
      forall d | stay.Has(d) ensures Slot(room, d) in l && l[Slot(room, d)].item == Some(i) {
        assert d in Nights(stay) && Slot(room, d) !in kept;
      }
    }
  }

  /** Both ends move the same way, so nights are removed and added. */
  predicate Shifts(oldStay: Stay, newStay: Stay) {
    || (oldStay.arrival < newStay.arrival && oldStay.departure < newStay.departure)
    || (newStay.arrival < oldStay.arrival && newStay.departure < oldStay.departure)
  }

  /** When the incremental update is right, in terms a caller can check beforehand. */
  predicate DeltaIsExact(oldStay: Stay, newStay: Stay, roomKept: bool) {
    newStay == oldStay || Shifts(oldStay, newStay) || (roomKept && newStay.arrival <= oldStay.arrival)
  }

  /** Trimming: rows from `from` on are deleted. */
  lemma TrimHolds(l: Ledger, i: ItemId, home: RoomId, oldStay: Stay, room: RoomId, stay: Stay, from: Day)
    requires oldStay.Valid() && stay.Valid() && Holds(l, i, home, oldStay)
    requires oldStay.arrival <= stay.arrival && stay.departure <= oldStay.departure
    requires from == if oldStay.arrival < stay.arrival then oldStay.arrival else stay.departure
    ensures Holds(DeleteByItemFrom(l, i, from), i, room, stay) <==> room == home && stay.arrival == oldStay.arrival
  {
    var l' := DeleteByItemFrom(l, i, from);
    assert stay.Has(stay.arrival);
    if oldStay.arrival == stay.arrival {
      forall d | stay.Has(d) ensures Slot(home, d) in l' && l'[Slot(home, d)].item == Some(i) {
        assert oldStay.Has(d);
      }
      assert Slot(home, stay.arrival) in l';
    } else {
      assert forall s :: s in l' ==> l'[s].item != Some(i);
    }
  }

  /** Extending: the added nights go to `room`, the old rows stay where they are. */
  lemma ExtendHolds(l: Ledger, l': Ledger, i: ItemId, home: RoomId, oldStay: Stay, room: RoomId, stay: Stay, res: ResId)
    requires oldStay.Valid() && stay.arrival <= oldStay.arrival && oldStay.departure <= stay.departure
             && Holds(l, i, home, oldStay)
    requires forall s :: s in l' <==> s in l || (s.room == room && stay.Has(s.day) && !oldStay.Has(s.day))
    requires forall s :: s in l' ==> l'[s] == if s in l then l[s] else SoldTo(res, i)
    requires forall d :: stay.Has(d) && !oldStay.Has(d) ==> Slot(room, d) !in l
    ensures Holds(l', i, room, stay) <==> room == home
  {
    var was := Slot(home, oldStay.arrival);
    assert oldStay.Has(oldStay.arrival);
    assert was in l' && l'[was].item == Some(i);
    if room == home {
      forall d | stay.Has(d) ensures Slot(room, d) in l' && l'[Slot(room, d)].item == Some(i) {
        assert oldStay.Has(d) ==> Slot(room, d) in l;
      }
    }
  }

  /** The room an update aims at: the requested one, else the assigned one, else the room the item is in. */
  function Goal(t: Tables, i: ItemId, room: Option<RoomId>, home: RoomId): RoomId
    requires i < |t.items|
  {
    if room.Some? then room.value else if t.items[i].room.Some? then t.items[i].room.value else home
  }

  /**
    * The date-change branches leave an item that is in room `home` on exactly its new nights iff the condition holds;
    * without a target room only nights can be given up.
    */
  lemma ShiftHolds(t: Tables, i: ItemId, stay: Stay, target: Option<RoomId>, home: RoomId)
    requires TablesValid(t) && i < |t.items| && stay.Valid() && stay != t.items[i].stay
    requires Holds(t.ledger, i, home, t.items[i].stay) && ShiftLedger(t, i, stay, target).Ok?
    ensures var goal := if target.Some? then target.value else home;
            Holds(ShiftLedger(t, i, stay, target).value.ledger, i, goal, stay) <==>
            DeltaIsExact(t.items[i].stay, stay, goal == home)
  {
    var oldStay := t.items[i].stay;
    var goal := if target.Some? then target.value else home;
    assert ItemFits(t, t.items[i]);
    FirstRemovedNight(oldStay, stay);
    FirstRemovedNight(stay, oldStay);
    if Shifts(oldStay, stay) {
      assert stay.arrival in Nights(stay);
      ClaimHolds(t.(ledger := DeleteByItem(t.ledger, i)), i, goal, stay);
    } else if oldStay.arrival < stay.arrival || stay.departure < oldStay.departure {
      TrimHolds(t.ledger, i, home, oldStay, goal, stay, Minus(Nights(oldStay), Nights(stay))[0]);
    } else {
      var added := Minus(Nights(stay), Nights(oldStay));
      assert ShiftLedger(t, i, stay, target) == ClaimNights(t, i, target, added);
      AddedHolds(t, i, home, oldStay, goal, stay, added);
    }
  }

  /** Claiming the added nights of a longer stay. */
  lemma AddedHolds(t: Tables, i: ItemId, home: RoomId, oldStay: Stay, room: RoomId, stay: Stay, added: seq<Day>)
    requires i < |t.items| && oldStay.Valid() && stay.arrival <= oldStay.arrival && oldStay.departure <= stay.departure
    requires Holds(t.ledger, i, home, oldStay) && added != []
    requires forall d :: d in added <==> stay.Has(d) && !oldStay.Has(d)
    requires ClaimNights(t, i, Some(room), added).Ok?
    ensures Holds(ClaimNights(t, i, Some(room), added).value.ledger, i, room, stay) <==> room == home
  {
    ExtendHolds(t.ledger, ClaimNights(t, i, Some(room), added).value.ledger, i, home, oldStay, room, stay,
                t.items[i].res);
  }

  lemma ClaimHolds(t: Tables, i: ItemId, room: RoomId, stay: Stay)
    requires i < |t.items| && stay.Valid() && ClaimNights(t, i, Some(room), Nights(stay)).Ok?
    requires forall s :: s in t.ledger ==> t.ledger[s].item != Some(i)
    ensures Holds(ClaimNights(t, i, Some(room), Nights(stay)).value.ledger, i, room, stay)
  {
  }

  /** Re-rooming an item that holds its nights makes it hold them in the new room. */
  lemma MoveHolds(h: Hotel, l: Ledger, i: ItemId, home: RoomId, stay: Stay, room: RoomId, l': Ledger)
    requires Holds(l, i, home, stay) && MoveRows(h, l, i, room) == Ok(l')
    ensures Holds(l', i, room, stay)
  {
    MoveRowsEffect(h, l, i, room, l');
    forall d | stay.Has(d) ensures Slot(room, d) in l' && l'[Slot(room, d)].item == Some(i) {
      assert Slot(home, d) in l;
    }
  }

  /** What a committed UpdateItem makes of the ledger. */
  function DeltaLedger(t: Tables, i: ItemId, stay: Stay, room: Option<RoomId>): Result<Ledger>
    requires i < |t.items|
  {
    var target := if room.Some? then room else t.items[i].room;
    if stay != t.items[i].stay then
      var t1 :- ShiftLedger(t, i, stay, target);
      Ok(t1.ledger)
    else if room.Some? && room != t.items[i].room then MoveRows(t.hotel, t.ledger, i, room.value)
    else Ok(t.ledger)
  }

  lemma UpdateWritesDelta(t: Tables, i: ItemId, version: int, stay: Stay, room: Option<RoomId>)
    requires UpdateItem(t, i, version, stay, room).Ok?
    ensures i < |t.items| && stay.Valid() && (room.Some? ==> room.value < |t.hotel.rooms|)
    ensures DeltaLedger(t, i, stay, room) == Ok(UpdateItem(t, i, version, stay, room).value.ledger)
  {
    var item := t.items[i];
    var target := if room.Some? then room else item.room;
    if stay != item.stay {
      var t1, t2 := DateChangeSteps(t, i, version, stay, room, UpdateItem(t, i, version, stay, room).value);
    } else if room.Some? && room != item.room {
      ItemWriteKeepsLedger(t.(ledger := MoveRows(t.hotel, t.ledger, i, room.value).value), i, version, target, stay,
                           item.status);
    } else {
      ItemWriteKeepsLedger(t, i, version, target, stay, item.status);
    }
  }

  lemma ItemWriteKeepsLedger(t: Tables, i: ItemId, version: int, room: Option<RoomId>, stay: Stay, status: ItemStatus)
    requires UpdateItemRow(t, i, version, room, stay, status).Ok?
    ensures UpdateItemRow(t, i, version, room, stay, status).value.ledger == t.ledger
    ensures room.Some? ==> room.value < |t.hotel.rooms|
  {
  }

  /** The delta touches no row of another item, and the item's own rows stay sold to it. */
  lemma DeltaRows(t: Tables, i: ItemId, stay: Stay, room: Option<RoomId>)
    requires TablesValid(t) && i < |t.items| && stay.Valid() && DeltaLedger(t, i, stay, room).Ok?
    ensures var l' := DeltaLedger(t, i, stay, room).value;
            && (forall s :: s in DeleteByItem(t.ledger, i) ==> s in l' && l'[s] == t.ledger[s])
            && (forall s :: s in l' && l'[s].item != Some(i) ==> s in t.ledger && l'[s] == t.ledger[s])
            && (forall s :: s in l' && l'[s].item == Some(i) ==> l'[s] == SoldTo(t.items[i].res, i))
  {
    var target := if room.Some? then room else t.items[i].room;
    var l' := DeltaLedger(t, i, stay, room).value;
    forall s | s in t.ledger && t.ledger[s].item == Some(i) ensures t.ledger[s] == SoldTo(t.items[i].res, i) {
      assert RowFits(t, s, t.ledger[s]);
    }
    if stay != t.items[i].stay {
      ShiftSound(t, i, stay, target);
      ShiftKeepsOthers(t, i, stay, target);
    } else if room.Some? && room != t.items[i].room {
      MoveRowsEffect(t.hotel, t.ledger, i, room.value, l');
    }
  }

  lemma ShiftKeepsOthers(t: Tables, i: ItemId, stay: Stay, room: Option<RoomId>)
    requires i < |t.items| && ShiftLedger(t, i, stay, room).Ok?
    ensures var l' := ShiftLedger(t, i, stay, room).value.ledger;
            forall s :: s in DeleteByItem(t.ledger, i) ==> s in l' && l'[s] == t.ledger[s]
  {
  }

  /** The item's rows after a committed update, for an item that is in room `home`, its assigned one if it has any. */
  lemma UpdateHolds(t: Tables, i: ItemId, stay: Stay, room: Option<RoomId>, home: RoomId)
    requires TablesValid(t) && i < |t.items| && stay.Valid() && DeltaLedger(t, i, stay, room).Ok?
    requires Holds(t.ledger, i, home, t.items[i].stay) && (t.items[i].room.Some? ==> home == t.items[i].room.value)
    ensures Holds(DeltaLedger(t, i, stay, room).value, i, Goal(t, i, room, home), stay) <==>
            DeltaIsExact(t.items[i].stay, stay, Goal(t, i, room, home) == home)
  {
    var target := if room.Some? then room else t.items[i].room;
    if stay != t.items[i].stay {
      ShiftHolds(t, i, stay, target, home);
    } else if room.Some? && room != t.items[i].room {
      MoveHolds(t.hotel, t.ledger, i, home, stay, room.value, DeltaLedger(t, i, stay, room).value);
    }
  }

  /**
    * A committed UpdateItem on an item that held exactly its nights in some room, assigned or pinned, ends with the
    * rebuilt ledger if and only if DeltaIsExact.
    */
  lemma UpdateRefinesRebuild(t: Tables, i: ItemId, version: int, stay: Stay, room: Option<RoomId>, home: RoomId)
    requires TablesValid(t) && UpdateItem(t, i, version, stay, room).Ok? && home < |t.hotel.rooms|
    requires Holds(t.ledger, i, home, t.items[i].stay) && (t.items[i].room.Some? ==> home == t.items[i].room.value)
    ensures var goal := Goal(t, i, room, home);
            Rebuilt(t, i, Some(goal), stay) == Ok(UpdateItem(t, i, version, stay, room).value.ledger) <==>
            DeltaIsExact(t.items[i].stay, stay, goal == home)
  {
    UpdateWritesDelta(t, i, version, stay, room);
    DeltaRows(t, i, stay, room);
    UpdateHolds(t, i, stay, room, home);
    RebuiltIffHolds(t, i, Goal(t, i, room, home), stay, DeltaLedger(t, i, stay, room).value);
  }

  /** With the room kept, the delta is wrong exactly when the arrival moves later and the departure does not. */
  lemma DeltaWithRoomKept(oldStay: Stay, newStay: Stay)
    ensures DeltaIsExact(oldStay, newStay, true) <==>
            !(oldStay.arrival < newStay.arrival && newStay.departure <= oldStay.departure)
  {
  }

  /** The failing family loses every night: a later arrival without a later departure empties the item's rows. */
  lemma LaterArrivalLosesAllNights(t: Tables, i: ItemId, version: int, stay: Stay, room: Option<RoomId>)
    requires TablesValid(t) && UpdateItem(t, i, version, stay, room).Ok?
    requires t.items[i].stay.arrival < stay.arrival && stay.departure <= t.items[i].stay.departure
    ensures forall s :: s in UpdateItem(t, i, version, stay, room).value.ledger ==>
                          UpdateItem(t, i, version, stay, room).value.ledger[s].item != Some(i)
  {
    UpdateWritesDelta(t, i, version, stay, room);
    assert ItemFits(t, t.items[i]);
    FirstRemovedNight(t.items[i].stay, stay);
    FirstRemovedNight(stay, t.items[i].stay);
    forall s | s in t.ledger && t.ledger[s].item == Some(i) ensures t.items[i].stay.arrival <= s.day {
      assert RowFits(t, s, t.ledger[s]);
    }
  }
}
