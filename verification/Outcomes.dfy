/**
  * When each request commits, when it is refused and with which error, and what a commit writes: in terms of stored
  * fields and inputs, next to the transactions that compute it.
  */
module Outcomes {
  import opened Basics
  import opened Calendar
  import opened StateMachine
  import opened Tables
  import opened Booking
  import opened Invariants
  import opened Inventory
  import opened Reactivation
  import opened Envelope
  import opened Runs

  // ---- vocabulary ----

  /** Every night of the stay has a rate, or there is no rate plan to ask. */
  ghost predicate Priced(h: Hotel, roomType: TypeId, plan: Option<PlanId>, stay: Stay) {
    plan.Some? ==> forall d :: stay.arrival <= d < stay.departure ==> Rate(roomType, plan.value, Weekday(d)) in h.rates
  }

  /** No row at all lies on the nights of the stay in the room. */
  ghost predicate Empty(l: Ledger, room: RoomId, stay: Stay) {
    forall d :: stay.arrival <= d < stay.departure ==> Slot(room, d) !in l
  }

  ghost predicate BlockedIn(l: Ledger, room: RoomId, stay: Stay) {
    exists d :: && stay.arrival <= d < stay.departure && Slot(room, d) in l
                && l[Slot(room, d)].status != Available && !l[Slot(room, d)].deleted
  }

  /** The room that auto-pinning chooses: the first of the type by name that is neither locked nor blocked. */
  ghost predicate FirstFree(h: Hotel, l: Ledger, roomType: TypeId, stay: Stay, locked: set<RoomId>, room: RoomId) {
    && room < |h.rooms| && h.rooms[room] == roomType && room !in locked && !BlockedIn(l, room, stay)
    && forall k :: 0 <= k < room && h.rooms[k] == roomType && k !in locked ==> BlockedIn(l, k, stay)
  }

  /** No other live item assigned to the room stays there on a night of the stay. */
  ghost predicate RoomUncontested(items: seq<Item>, i: int, room: RoomId, stay: Stay) {
    forall j, d | 0 <= j < |items| && j != i && items[j].live && items[j].room == Some(room) && items[j].stay.Has(d)
      :: !stay.Has(d)
  }

  lemma FreeIsNotBlocked(l: Ledger, room: RoomId, stay: Stay)
    ensures FreeOn(l, room, Nights(stay)) <==> !BlockedIn(l, room, stay)
  {
    forall d ensures d in Nights(stay) <==> stay.arrival <= d < stay.departure {
    }
  }

  lemma AutoPinIsFirstFree(h: Hotel, l: Ledger, roomType: TypeId, stay: Stay, locked: set<RoomId>, room: RoomId)
    ensures AutoPin(h, l, roomType, Nights(stay), locked) == Some(room) <==>
            FirstFree(h, l, roomType, stay, locked, room)
  {
    forall k | 0 <= k < |h.rooms| ensures FreeOn(l, k, Nights(stay)) <==> !BlockedIn(l, k, stay) {
      FreeIsNotBlocked(l, k, stay);
    }
  }

  lemma PricedResolves(h: Hotel, roomType: TypeId, plan: Option<PlanId>, stay: Stay)
    ensures RatesResolve(h, roomType, plan, Nights(stay)) <==> Priced(h, roomType, plan, stay)
  {
    forall d ensures d in Nights(stay) <==> stay.arrival <= d < stay.departure {
    }
  }

  // ---- the overlap constraint ----

  /** The constraint says: on no night are two live items assigned to one room. */
  lemma ExclusiveIsNightly(items: seq<Item>)
    requires forall i :: 0 <= i < |items| ==> items[i].stay.arrival < items[i].stay.departure
    ensures Exclusive(items) <==>
            forall i, j, d | && 0 <= i < j < |items| && items[i].live && items[j].live && items[i].room.Some?
                             && items[i].room == items[j].room && items[i].stay.Has(d)
              :: !items[j].stay.Has(d)
  {
    forall i, j | 0 <= i < j < |items| && items[i].stay.Overlaps(items[j].stay)
      ensures exists d :: items[i].stay.Has(d) && items[j].stay.Has(d)
    {
      var d := Later(items[i].stay.arrival, items[j].stay.arrival);
      assert items[i].stay.Has(d) && items[j].stay.Has(d);
    }
  }

  /** Writing a live row keeps the constraint exactly when the row's room is not contested. */
  lemma RowFitsIff(items: seq<Item>, i: nat, row: Item)
    requires i <= |items| && row.live && row.stay.Valid()
    requires forall j :: 0 <= j < |items| ==> items[j].stay.Valid()
    requires Exclusive(items)
    ensures var after := if i < |items| then items[i := row] else items + [row];
            Exclusive(after) <==> row.room.None? || RoomUncontested(items, i, row.room.value, row.stay)
  {
    var after := if i < |items| then items[i := row] else items + [row];
    forall j | 0 <= j < |items| && j != i
      ensures items[j].stay.Overlaps(row.stay) <==> exists d :: items[j].stay.Has(d) && row.stay.Has(d)
    {
      var d := Later(items[j].stay.arrival, row.stay.arrival);
      assert items[j].stay.Overlaps(row.stay) ==> items[j].stay.Has(d) && row.stay.Has(d);
    }
    if row.room.Some? && !RoomUncontested(items, i, row.room.value, row.stay) {
      var j, d :| 0 <= j < |items| && j != i && items[j].live && items[j].room == row.room
                  && items[j].stay.Has(d) && row.stay.Has(d);
      assert items[j].stay.Overlaps(row.stay) && row.stay.Overlaps(items[j].stay);
      assert after[j] == items[j] && after[i] == row;
      assert !Exclusive(after);
    }
    if row.room.None? || RoomUncontested(items, i, row.room.value, row.stay) {
      forall a, b | 0 <= a < b < |after| && after[a].live && after[b].live && after[a].room.Some?
                    && after[a].room == after[b].room
        ensures !after[a].stay.Overlaps(after[b].stay)
      {
        assert a != i ==> after[a] == items[a];
        assert b != i ==> after[b] == items[b];
      }
    }
  }

  // ---- reservations ----

  function WithRow(t: Tables, id: ResId, row: Reservation): Tables
    requires id < |t.reservations|
  {
    t.(reservations := t.reservations[id := row])
  }

  /** Confirm accepts a hold and a cancelled reservation under their version, and a confirmed one under any. */
  lemma ConfirmOutcome(t: Tables, id: ResId, version: int)
    ensures var r := Exec(t, DoConfirm(id, version));
            && (id >= |t.reservations| ==> r == Err(NotFound))
            && (id < |t.reservations| ==>
                  var row := t.reservations[id];
                  && (row.status == Confirmed ==> r == Ok(t))
                  && (row.status == Hold || row.status == ResCancelled ==>
                        r == if row.version != version then Err(VersionMismatch)
                        else Ok(WithRow(t, id, row.(status := Confirmed, version := version + 1))))
                  && (row.status != Confirmed && row.status != Hold && row.status != ResCancelled ==>
                        r == Err(InvalidTransition)))
  {
  }

  lemma MetadataOutcome(t: Tables, id: ResId, version: int)
    ensures var r := Exec(t, DoUpdateMetadata(id, version));
            && (r.Ok? <==> && id < |t.reservations| && t.reservations[id].version == version
                           && t.reservations[id].envelope.arrival < t.reservations[id].envelope.departure)
            && (r.Ok? ==> r.value == WithRow(t, id, t.reservations[id].(version := version + 1)))
  {
  }

  /** A live item of the reservation is in the house. */
  predicate GuestInHouse(t: Tables, id: ResId) {
    exists i :: 0 <= i < |t.items| && t.items[i].live && t.items[i].res == id && t.items[i].status == CheckedIn
  }

  /** Cancel commits on a hold or confirmed reservation under its version while no live item is checked in. */
  lemma CancelCommitsIff(t: Tables, id: ResId, version: int)
    ensures var r := Exec(t, DoCancel(id, version));
            && (r.Ok? <==> && id < |t.reservations| && t.reservations[id].version == version
                           && (t.reservations[id].status == Hold || t.reservations[id].status == Confirmed)
                           && !GuestInHouse(t, id))
            && (id >= |t.reservations| ==> r == Err(NotFound))
            && (id < |t.reservations| && t.reservations[id].status != Hold && t.reservations[id].status != Confirmed ==>
                  r == Err(InvalidTransition))
            && (id < |t.reservations| && t.reservations[id].status in {Hold, Confirmed} ==>
                  && (GuestInHouse(t, id) ==> r == Err(ItemsCheckedIn))
                  && (!GuestInHouse(t, id) && t.reservations[id].version != version ==> r == Err(VersionMismatch)))
  {
  }

  /** What a cancellation writes: the row, every item that is not over, and no ledger row is left. */
  ghost predicate CancelledBy(t: Tables, t': Tables, id: ResId)
    requires id < |t.reservations|
  {
    && t'.hotel == t.hotel && |t'.items| == |t.items|
    && t'.reservations == t.reservations[id := t.reservations[id].(status := ResCancelled,
                          version := t.reservations[id].version + 1)]
    && (forall i :: 0 <= i < |t.items| ==>
                      var item := t.items[i];
                      t'.items[i] == if item.res == id && item.status in {Booked, CheckedIn, NoShow, Overstay}
                      then item.(status := Cancelled, live := false, version := item.version + 1) else item)
    && (forall s :: s in t'.ledger <==> s in t.ledger && t.ledger[s].res != Some(id))
    && (forall s :: s in t'.ledger ==> t'.ledger[s] == t.ledger[s])
  }

  lemma CancelWritesExactly(t: Tables, id: ResId, version: int)
    requires Exec(t, DoCancel(id, version)).Ok?
    ensures id < |t.reservations| && CancelledBy(t, Exec(t, DoCancel(id, version)).value, id)
  {
  }

  /** The hold sweep writes what a cancellation writes. */
  lemma SweepWritesExactly(t: Tables, id: ResId, seen: Reservation)
    ensures ExpireHold(t, id, seen).Ok? <==> id < |t.reservations| && t.reservations[id].version == seen.version
    ensures ExpireHold(t, id, seen).Ok? ==> CancelledBy(t, ExpireHold(t, id, seen).value, id)
  {
  }

  /** Archival writes the reservation row and deletes its live items; the ledger is left alone. */
  lemma ArchiveWritesExactly(t: Tables, id: ResId, seen: Reservation)
    ensures var r := Archive(t, id, seen);
            && (r.Ok? <==> id < |t.reservations| && t.reservations[id].version == seen.version)
            && (r.Ok? ==>
                  && r.value.hotel == t.hotel && r.value.ledger == t.ledger && |r.value.items| == |t.items|
                  && r.value.reservations ==
                     t.reservations[id := t.reservations[id].(status := ResArchived, version := seen.version + 1)]
                  && forall i :: 0 <= i < |t.items| ==>
                                   var item := t.items[i];
                                   r.value.items[i] == if item.res == id && item.live
                                   then item.(live := false, version := item.version + 1) else item)
  {
  }

  // ---- single items ----

  /** Writing a status: it fails only on the version, and changes nothing but the status and the version. */
  lemma StatusWrite(t: Tables, i: ItemId, version: int, status: ItemStatus)
    requires ItemsValid(t) && i < |t.items|
    ensures UpdateItemRow(t, i, version, t.items[i].room, t.items[i].stay, status) ==
            if t.items[i].version != version then Err(VersionMismatch)
            else Ok(t.(items := t.items[i := t.items[i].(status := status, version := version + 1)]))
  {
    SameRowFits(t, i, t.items[i].(status := status, version := version + 1));
  }

  /** The stored item is there, live and of this version. */
  predicate Current(t: Tables, i: ItemId, version: int) {
    i < |t.items| && t.items[i].live && t.items[i].version == version
  }

  function WithStatus(t: Tables, i: ItemId, status: ItemStatus): Tables
    requires i < |t.items|
  {
    t.(items := t.items[i := t.items[i].(status := status, version := t.items[i].version + 1)])
  }

  /** CancelItem: booked items and no-shows; all rows of the item go. */
  lemma CancelItemOutcome(t: Tables, i: ItemId, version: int)
    requires TablesValid(t)
    ensures var r := Exec(t, DoCancelItem(i, version));
            && (r.Ok? <==> Current(t, i, version) && (t.items[i].status == Booked || t.items[i].status == NoShow))
            && (r.Ok? ==> r.value == WithStatus(t, i, Cancelled).(ledger := r.value.ledger))
            && (r.Ok? ==> forall s :: s in r.value.ledger <==> s in t.ledger && t.ledger[s].item != Some(i))
            && (r.Ok? ==> forall s :: s in r.value.ledger ==> r.value.ledger[s] == t.ledger[s])
            && (r.Err? ==> r.error == if i >= |t.items| || !t.items[i].live then NotFound
                                      else if t.items[i].status != Booked && t.items[i].status != NoShow
                                      then InvalidTransition else VersionMismatch)
  {
    if i < |t.items| {
      StatusWrite(t, i, version, Cancelled);
    }
  }

  /** CheckinItem: booked items with an assigned room. */
  lemma CheckinItemOutcome(t: Tables, i: ItemId, version: int)
    requires TablesValid(t)
    ensures var r := Exec(t, DoCheckinItem(i, version));
            && (r.Ok? <==> Current(t, i, version) && t.items[i].status == Booked && t.items[i].room.Some?)
            && (r.Ok? ==> r.value == WithStatus(t, i, CheckedIn))
            && (r.Err? ==> r.error == if i >= |t.items| || !t.items[i].live then NotFound
                                      else if t.items[i].status != Booked then InvalidTransition
                                      else if t.items[i].room.None? then UnassignedItems else VersionMismatch)
  {
    if i < |t.items| {
      StatusWrite(t, i, version, CheckedIn);
    }
  }

  /** CheckoutItem: checked-in items; the ledger is left alone. */
  lemma CheckoutItemOutcome(t: Tables, i: ItemId, version: int)
    requires TablesValid(t)
    ensures var r := Exec(t, DoCheckoutItem(i, version));
            && (r.Ok? <==> Current(t, i, version) && t.items[i].status == CheckedIn)
            && (r.Ok? ==> r.value == WithStatus(t, i, CheckedOut))
            && (r.Err? ==> r.error == if i >= |t.items| || !t.items[i].live then NotFound
                                      else if t.items[i].status != CheckedIn then InvalidTransition
                                      else VersionMismatch)
  {
    if i < |t.items| {
      StatusWrite(t, i, version, CheckedOut);
    }
  }

  /** MarkNoShow: booked items from their arrival midnight on; the rows from today on go. */
  lemma NoShowOutcome(t: Tables, i: ItemId, version: int, now: int)
    requires TablesValid(t)
    ensures var r := Exec(t, DoMarkNoShow(i, version, now));
            && (r.Ok? <==> && Current(t, i, version) && t.items[i].status == Booked
                           && now >= t.items[i].stay.arrival * 86400)
            && (r.Ok? ==> r.value == WithStatus(t, i, NoShow).(ledger := r.value.ledger))
            && (r.Ok? ==> forall s :: s in r.value.ledger <==>
                                      s in t.ledger && (t.ledger[s].item == Some(i) ==> (s.day + 1) * 86400 <= now))
            && (r.Ok? ==> forall s :: s in r.value.ledger ==> r.value.ledger[s] == t.ledger[s])
            && (r.Err? ==> r.error == if i >= |t.items| || !t.items[i].live then NotFound
                                      else if t.items[i].status != Booked then InvalidTransition
                                      else if now < t.items[i].stay.arrival * 86400 then InvalidDates
                                      else VersionMismatch)
  {
    if i < |t.items| {
      StatusWrite(t, i, version, NoShow);
    }
    forall s: Slot ensures s.day < DayOf(now) <==> (s.day + 1) * 86400 <= now {
      DayContains(now);
    }
  }

  /** The batches change exactly the live items that are ready, one version up, and nothing else. */
  lemma BatchesExactly(t: Tables, id: ResId)
    ensures Exec(t, DoCheckinAll(id)).Ok? && Exec(t, DoCheckoutAll(id)).Ok?
    ensures var t' := Exec(t, DoCheckinAll(id)).value;
            && t' == t.(items := t'.items) && |t'.items| == |t.items|
            && forall i :: 0 <= i < |t.items| ==>
                             var item := t.items[i];
                             t'.items[i] == if item.live && item.res == id && item.status == Booked && item.room.Some?
                             then item.(status := CheckedIn, version := item.version + 1) else item
    ensures var t' := Exec(t, DoCheckoutAll(id)).value;
            && t' == t.(items := t'.items) && |t'.items| == |t.items|
            && forall i :: 0 <= i < |t.items| ==>
                             var item := t.items[i];
                             t'.items[i] == if item.live && item.res == id && item.status == CheckedIn
                             then item.(status := CheckedOut, version := item.version + 1) else item
  {
  }

  // ---- rooms ----

  /** The item's rows can all go to the room: no row of others is in the way, and no two lie on one day. */
  ghost predicate Movable(l: Ledger, i: ItemId, room: RoomId) {
    && (forall s :: s in l && l[s].item == Some(i) && Slot(room, s.day) in l ==> l[Slot(room, s.day)].item == Some(i))
    && (forall s, o :: s in l && o in l && l[s].item == Some(i) && l[o].item == Some(i) && s.day == o.day ==> s == o)
  }

  lemma MoveCommitsIff(h: Hotel, l: Ledger, i: ItemId, room: RoomId)
    requires room < |h.rooms|
    ensures MoveRows(h, l, i, room).Ok? <==> Movable(l, i, room)
  {
    var own := set s | s in l && l[s].item == Some(i);
    assert forall s :: s in own <==> s in l && l[s].item == Some(i);
  }

  /** AssignRoom: permissions, version, an existing room that no overlapping live item has, and rows that can move. */
  lemma AssignCommitsIff(t: Tables, i: ItemId, version: int, room: RoomId, mayMove: bool, mayMutate: bool)
    requires TablesValid(t)
    ensures var r := Exec(t, DoAssignRoom(i, version, room, mayMove, mayMutate));
            && (r.Ok? <==> && Current(t, i, version) && (t.items[i].doNotMove ==> mayMove)
                           && (t.items[i].status == CheckedIn ==> mayMutate) && room < |t.hotel.rooms|
                           && RoomUncontested(t.items, i, room, t.items[i].stay) && Movable(t.ledger, i, room))
            && (r.Ok? ==> r.value.items == t.items[i := t.items[i].(room := Some(room), version := version + 1)])
            && (i >= |t.items| || !t.items[i].live ==> r == Err(NotFound))
            && (i < |t.items| && t.items[i].live && t.items[i].doNotMove && !mayMove ==> r == Err(DoNotMove))
            && (i < |t.items| && t.items[i].live && (t.items[i].doNotMove ==> mayMove) ==>
                  t.items[i].status == CheckedIn && !mayMutate ==> r == Err(MissingPermission))
  {
    if i < |t.items| && t.items[i].live {
      assert ItemFits(t, t.items[i]);
      forall j | 0 <= j < |t.items| ensures t.items[j].stay.Valid() {
        assert ItemFits(t, t.items[j]);
      }
      RowFitsIff(t.items, i, t.items[i].(room := Some(room), version := version + 1));
      if room < |t.hotel.rooms| {
        MoveCommitsIff(t.hotel, t.ledger, i, room);
      }
    }
  }

  // ---- updates ----

  /** A night that a date change claims: any night of the new stay if both ends move, else one outside the old stay. */
  predicate Claims(oldStay: Stay, stay: Stay, d: Day) {
    stay.Has(d) && (oldStay.Has(d) ==> !Covers(oldStay, stay) && !Covers(stay, oldStay))
  }

  /** What the ledger step of an update needs. */
  ghost predicate DeltaPossible(t: Tables, i: ItemId, stay: Stay, room: Option<RoomId>)
    requires i < |t.items|
  {
    var item := t.items[i];
    var target := if room.Some? then room else item.room;
    if stay == item.stay then room.Some? && room != item.room ==> Movable(t.ledger, i, room.value)
    else if Covers(item.stay, stay) then true
    else
      && target.Some? && target.value < |t.hotel.rooms|
      && forall d :: Claims(item.stay, stay, d) ==>
                       && (item.plan.Some? ==> Rate(item.roomType, item.plan.value, Weekday(d)) in t.hotel.rates)
                       && (Slot(target.value, d) in t.ledger ==>
                             && t.ledger[Slot(target.value, d)].item == Some(i)
                             && !Covers(item.stay, stay) && !Covers(stay, item.stay))
  }

  lemma ClaimCommitsIff(t: Tables, i: ItemId, room: Option<RoomId>, days: seq<Day>)
    requires i < |t.items| && days != []
    ensures ClaimNights(t, i, room, days).Ok? <==>
            && (forall d :: d in days && t.items[i].plan.Some? ==>
                              Rate(t.items[i].roomType, t.items[i].plan.value, Weekday(d)) in t.hotel.rates)
            && room.Some? && room.value < |t.hotel.rooms| && forall d :: d in days ==> Slot(room.value, d) !in t.ledger
  {
  }

  lemma ShiftCommitsIff(t: Tables, i: ItemId, stay: Stay, target: Option<RoomId>)
    requires i < |t.items| && stay.Valid() && t.items[i].stay.Valid() && stay != t.items[i].stay
    ensures ShiftLedger(t, i, stay, target).Ok? <==>
            || Covers(t.items[i].stay, stay)
            || (&& target.Some? && target.value < |t.hotel.rooms|
                && forall d :: Claims(t.items[i].stay, stay, d) ==>
                                 && (t.items[i].plan.Some? ==>
                                       Rate(t.items[i].roomType, t.items[i].plan.value, Weekday(d)) in t.hotel.rates)
                                 && (Slot(target.value, d) in t.ledger ==>
                                       && t.ledger[Slot(target.value, d)].item == Some(i)
                                       && !Covers(t.items[i].stay, stay) && !Covers(stay, t.items[i].stay)))
  {
    var was := t.items[i].stay;
    FirstRemovedNight(was, stay);
    FirstRemovedNight(stay, was);
    if !Covers(was, stay) {
      if Covers(stay, was) {
        var added := Minus(Nights(stay), Nights(was));
        assert forall d :: d in added <==> Claims(was, stay, d);
        ClaimCommitsIff(t, i, target, added);
      } else {
        var bare := t.(ledger := DeleteByItem(t.ledger, i));
        assert forall d :: d in Nights(stay) <==> Claims(was, stay, d);
        assert stay.arrival in Nights(stay);
        ClaimCommitsIff(bare, i, target, Nights(stay));
      }
    }
  }

  lemma DeltaCommitsIff(t: Tables, i: ItemId, stay: Stay, room: Option<RoomId>)
    requires i < |t.items| && stay.Valid() && t.items[i].stay.Valid() && (room.Some? ==> room.value < |t.hotel.rooms|)
    ensures DeltaLedger(t, i, stay, room).Ok? <==> DeltaPossible(t, i, stay, room)
  {
    var item := t.items[i];
    if stay != item.stay {
      ShiftCommitsIff(t, i, stay, if room.Some? then room else item.room);
    } else if room.Some? && room != item.room {
      MoveCommitsIff(t.hotel, t.ledger, i, room.value);
    }
  }

  /** The hull of items among which there is a proper stay is a proper interval, so the envelope write succeeds. */
  lemma EnvelopeWriteSucceeds(t: Tables, i: ItemId)
    requires ItemsValid(t) && i < |t.items| && t.items[i].live
    ensures RecomputeEnvelope(t, t.items[i].res).Ok?
  {
    assert ItemFits(t, t.items[i]) && Mine(t.items, t.items[i].res, i);
    LiveHullSpans(t.items, t.items[i].res, LiveHull(t.items, t.items[i].res));
    assert Covers(LiveHull(t.items, t.items[i].res), t.items[i].stay);
  }

  /** UpdateItem: a live item, proper dates, its version, an uncontested room, and a ledger step that is possible. */
  lemma UpdateCommitsIff(t: Tables, i: ItemId, version: int, stay: Stay, room: Option<RoomId>)
    requires TablesValid(t)
    ensures var r := Exec(t, DoUpdateItem(i, version, stay, room));
            && (r.Ok? <==>
                && Current(t, i, version) && stay.arrival < stay.departure
                && (var target := if room.Some? then room else t.items[i].room;
                    target.Some? ==> && target.value < |t.hotel.rooms|
                                     && RoomUncontested(t.items, i, target.value, stay))
                && DeltaPossible(t, i, stay, room))
            && (i >= |t.items| || !t.items[i].live ==> r == Err(NotFound))
            && (i < |t.items| && t.items[i].live && stay.arrival >= stay.departure ==> r == Err(InvalidDates))
  {
    if i < |t.items| && t.items[i].live && stay.Valid() {
      forall j | 0 <= j < |t.items| ensures t.items[j].stay.Valid() {
        assert ItemFits(t, t.items[j]);
      }
      assert ItemFits(t, t.items[i]);
      var target := if room.Some? then room else t.items[i].room;
      RowFitsIff(t.items, i, t.items[i].(room := target, stay := stay, version := version + 1));
      UpdateByParts(t, i, version, stay, room);
      if room.Some? ==> room.value < |t.hotel.rooms| {
        DeltaCommitsIff(t, i, stay, room);
      }
    }
  }

  /** The update succeeds when its ledger step and its item write do. */
  lemma UpdateByParts(t: Tables, i: ItemId, version: int, stay: Stay, room: Option<RoomId>)
    requires TablesValid(t) && i < |t.items| && t.items[i].live && stay.Valid()
    ensures var target := if room.Some? then room else t.items[i].room;
            var row := t.items[i].(room := target, stay := stay, version := version + 1);
            UpdateItem(t, i, version, stay, room).Ok? <==>
            && DeltaLedger(t, i, stay, room).Ok? && t.items[i].version == version
            && RoomExists(t.hotel, target) && Exclusive(t.items[i := row])
  {
    var target := if room.Some? then room else t.items[i].room;
    if stay != t.items[i].stay && ShiftLedger(t, i, stay, target).Ok? {
      var t1 := ShiftLedger(t, i, stay, target).value;
      ShiftKeepsRest(t, i, stay, target, t1);
      assert ItemsValid(t1) by {
        forall j | 0 <= j < |t.items| ensures ItemFits(t1, t1.items[j]) {
          assert ItemFits(t, t.items[j]);
        }
      }
      EnvelopeWriteSucceeds(t1, i);
      EnvelopeKeeps(t1, t.items[i].res, RecomputeEnvelope(t1, t.items[i].res).value);
    }
  }

  /** No committed update sells a night without a rate. */
  lemma UpdateSellsPriced(t: Tables, i: ItemId, version: int, stay: Stay, room: Option<RoomId>, d: Day)
    requires TablesValid(t) && Exec(t, DoUpdateItem(i, version, stay, room)).Ok?
    requires stay.Has(d) && !t.items[i].stay.Has(d) && t.items[i].plan.Some?
    ensures Rate(t.items[i].roomType, t.items[i].plan.value, Weekday(d)) in t.hotel.rates
  {
    UpdateCommitsIff(t, i, version, stay, room);
    assert Claims(t.items[i].stay, stay, d);
  }

  /** UpdateItemStayPeriod: a checked-in item needs the permission and keeps its arrival. */
  lemma StayPeriodCommitsIff(t: Tables, i: ItemId, version: int, stay: Stay, mayMutate: bool)
    requires TablesValid(t)
    ensures var r := UpdateStayPeriod(t, i, version, stay, mayMutate);
            && (r.Ok? <==>
                && Current(t, i, version) && stay.arrival < stay.departure
                && (t.items[i].status == CheckedIn ==> mayMutate && stay.arrival == t.items[i].stay.arrival)
                && (t.items[i].room.Some? ==> RoomUncontested(t.items, i, t.items[i].room.value, stay)))
            && (Current(t, i, version) && stay.Valid() && t.items[i].status == CheckedIn && !mayMutate ==>
                  r == Err(MissingPermission))
  {
    if i < |t.items| && t.items[i].live && stay.Valid() {
      forall j | 0 <= j < |t.items| ensures t.items[j].stay.Valid() {
        assert ItemFits(t, t.items[j]);
      }
      assert ItemFits(t, t.items[i]);
      var row := t.items[i].(stay := stay, version := version + 1);
      RowFitsIff(t.items, i, row);
      if t.items[i].version == version && Exclusive(t.items[i := row]) {
        StayWritten(t, i, version, stay, row);
      }
    }
  }

  /** After the item write the envelope can be written, with any ledger. */
  lemma StayWritten(t: Tables, i: ItemId, version: int, stay: Stay, row: Item)
    requires TablesValid(t) && i < |t.items| && t.items[i].live && t.items[i].version == version && stay.Valid()
    requires row == t.items[i].(stay := stay, version := version + 1) && Exclusive(t.items[i := row])
    ensures forall l: Ledger ::
              var t2 := t.(ledger := l, items := t.items[i := row]);
              && UpdateItemRow(t.(ledger := l), i, version, t.items[i].room, stay, t.items[i].status) == Ok(t2)
              && RecomputeEnvelope(t2, t.items[i].res).Ok?
  {
    forall l: Ledger
      ensures var t2 := t.(ledger := l, items := t.items[i := row]);
              && UpdateItemRow(t.(ledger := l), i, version, t.items[i].room, stay, t.items[i].status) == Ok(t2)
              && RecomputeEnvelope(t2, t.items[i].res).Ok?
    {
      var t2 := t.(ledger := l, items := t.items[i := row]);
      forall j | 0 <= j < |t.items| ensures ItemFits(t2, t2.items[j]) {
        assert ItemFits(t, t.items[j]);
      }
      EnvelopeWriteSucceeds(t2, i);
    }
  }

  // ---- insertions ----

  /** The room the nights of a new or revived item go to. */
  ghost predicate ChosenRoom(t: Tables, roomType: TypeId, given: Option<RoomId>, stay: Stay, locked: set<RoomId>,
                             room: RoomId)
  {
    if given.Some? then room == given.value else FirstFree(t.hotel, t.ledger, roomType, stay, locked, room)
  }

  lemma ChoiceIsChosen(t: Tables, roomType: TypeId, given: Option<RoomId>, stay: Stay, locked: set<RoomId>)
    ensures var choice := if given.Some? then given else AutoPin(t.hotel, t.ledger, roomType, Nights(stay), locked);
            forall room: RoomId :: ChosenRoom(t, roomType, given, stay, locked, room) <==> choice == Some(room)
  {
    forall room: RoomId
      ensures AutoPin(t.hotel, t.ledger, roomType, Nights(stay), locked) == Some(room)
         <==> FirstFree(t.hotel, t.ledger, roomType, stay, locked, room)
    {
      AutoPinIsFirstFree(t.hotel, t.ledger, roomType, stay, locked, room);
    }
  }

  /** insertSingleItem: occupancy limits, rates, proper dates, an uncontested assigned room and an empty chosen room. */
  lemma InsertCommitsIff(t: Tables, input: ItemInput, status: ItemStatus, res: ResId, locked: set<RoomId>)
    requires TablesValid(t)
    ensures InsertItem(t, input, status, res, locked).Ok? <==>
            && input.roomType in t.hotel.limits && t.hotel.limits[input.roomType].min <= input.guests
            && (t.hotel.limits[input.roomType].max <= 0 || input.guests <= t.hotel.limits[input.roomType].max)
            && Priced(t.hotel, input.roomType, input.plan, input.stay) && input.stay.arrival < input.stay.departure
            && (input.room.Some? ==> RoomUncontested(t.items, |t.items|, input.room.value, input.stay))
            && exists room: RoomId :: && ChosenRoom(t, input.roomType, input.room, input.stay, locked, room)
                                      && room < |t.hotel.rooms| && Empty(t.ledger, room, input.stay)
    ensures var r := InsertItem(t, input, status, res, locked);
            && (r.Ok? ==>
                  var row := Item(res, input.roomType, input.room, input.plan, input.stay, false, status, 1, true);
                  r.value.items == t.items + [row])
            && (input.roomType !in t.hotel.limits ==> r == Err(NotFound))
            && (input.roomType in t.hotel.limits ==>
                  var limits := t.hotel.limits[input.roomType];
                  input.guests < limits.min || (limits.max > 0 && input.guests > limits.max) ==> r == Err(Occupancy))
  {
    var days := Nights(input.stay);
    PricedResolves(t.hotel, input.roomType, input.plan, input.stay);
    forall d ensures d in days <==> input.stay.arrival <= d < input.stay.departure {
    }
    if input.stay.Valid() {
      forall j | 0 <= j < |t.items| ensures t.items[j].stay.Valid() {
        assert ItemFits(t, t.items[j]);
      }
      RowFitsIff(t.items, |t.items|, NewItem(input, status, res));
    }
    var choice := if input.room.Some? then input.room else AutoPin(t.hotel, t.ledger, input.roomType, days, locked);
    ChoiceIsChosen(t, input.roomType, input.room, input.stay, locked);
    assert choice.Some? ==> ChosenRoom(t, input.roomType, input.room, input.stay, locked, choice.value);
  }

  /** AddItem: a reservation that is neither cancelled nor archived, and an input that can be inserted. */
  lemma AddItemCommitsIff(t: Tables, id: ResId, version: int, input: ItemInput, locked: set<RoomId>)
    requires TablesValid(t)
    ensures var r := Exec(t, DoAddItem(id, version, input, locked));
            && (r.Ok? <==> && id < |t.reservations| && t.reservations[id].status != ResCancelled
                           && t.reservations[id].status != ResArchived && InsertItem(t, input, Booked, id, locked).Ok?)
            && (id >= |t.reservations| ==> r == Err(NotFound))
            && (id < |t.reservations| && t.reservations[id].status in {ResCancelled, ResArchived} ==>
                  r == Err(Terminal))
  {
    if id < |t.reservations| && InsertItem(t, input, Booked, id, locked).Ok? {
      InsertItemGood(t, input, Booked, id, locked);
      EnvelopeWriteSucceeds(InsertItem(t, input, Booked, id, locked).value, |t.items|);
    }
  }

  /** The reservation row a source starts with. */
  function FirstRow(source: Source, walkin: bool, envelope: Stay, now: int): Reservation {
    if source == Internal && walkin then Reservation(ResCheckedIn, envelope, 1, None)
    else if source == Ota then Reservation(Confirmed, envelope, 1, None)
    else if source == Website then Reservation(Hold, envelope, 1, Some(now + 15 * 60))
    else Reservation(Hold, envelope, 1, Some(now + 30 * 60))
  }

  /**
    * Create: a supported source; for a walk-in every room assigned, otherwise no arrival before today; some item; and
    * every item can be inserted after the ones before it.  Walk-in items start checked in, all others booked.
    */
  lemma CreateCommitsIff(t: Tables, source: Source, walkin: bool, inputs: seq<ItemInput>, now: int, midnightToday: int,
                         locked: set<RoomId>)
    ensures var r := Exec(t, DoCreate(source, walkin, inputs, now, midnightToday, locked));
            && (r.Ok? <==>
                && source != Deferred && inputs != []
                && (source == Internal && walkin ==> forall k :: 0 <= k < |inputs| ==> inputs[k].room.Some?)
                && (!(source == Internal && walkin) ==>
                      forall k :: 0 <= k < |inputs| ==> inputs[k].stay.arrival * 86400 >= midnightToday)
                && Inserted(t, source, walkin, inputs, now, locked).Ok?)
            && (r.Ok? ==> r == Inserted(t, source, walkin, inputs, now, locked))
            && (source == Deferred ==> r == Err(SourceDeferred))
            && (source == Internal && walkin && (exists k :: 0 <= k < |inputs| && inputs[k].room.None?) ==>
                  r == Err(UnassignedItems))
            && (source != Deferred && !(source == Internal && walkin) ==>
                  (exists k :: 0 <= k < |inputs| && inputs[k].stay.arrival * 86400 < midnightToday) ==>
                    r == Err(InvalidDates))
  {
    if source != Deferred {
      CreatesInserted(t, source, walkin, inputs, now, locked);
    }
  }

  /** The new row, and one item after the other. */
  function Inserted(t: Tables, source: Source, walkin: bool, inputs: seq<ItemInput>, now: int, locked: set<RoomId>)
    : Result<Tables>
  {
    var row := FirstRow(source, walkin, InputHull(inputs), now);
    var status := if source == Internal && walkin then CheckedIn else Booked;
    InsertItems(t.(reservations := t.reservations + [row]), inputs, status, |t.reservations|, locked)
  }

  lemma CreatesInserted(t: Tables, source: Source, walkin: bool, inputs: seq<ItemInput>, now: int, locked: set<RoomId>)
    requires source != Deferred
    ensures CreateInTx(t, source, walkin, inputs, now, locked).Ok? <==>
            inputs != [] && Inserted(t, source, walkin, inputs, now, locked).Ok?
    ensures CreateInTx(t, source, walkin, inputs, now, locked).Ok? ==>
              CreateInTx(t, source, walkin, inputs, now, locked) == Inserted(t, source, walkin, inputs, now, locked)
  {
    var row := FirstRow(source, walkin, InputHull(inputs), now);
    var status := if source == Internal && walkin then CheckedIn else Booked;
    assert row == Reservation(InitialStatus(source, walkin), InputHull(inputs), 1,
                              ExpiresAt(source, InitialStatus(source, walkin), now));
    if inputs != [] && Inserted(t, source, walkin, inputs, now, locked).Ok? {
      var t1 := t.(reservations := t.reservations + [row]);
      InsertedStaysValid(t1, inputs, status, |t.reservations|, locked, 0);
      HullIsProper(inputs);
    }
  }

  lemma HullIsProper(inputs: seq<ItemInput>)
    requires inputs != [] && inputs[0].stay.Valid()
    ensures InputHull(inputs).Valid()
  {
    var stays := seq(|inputs|, k requires 0 <= k < |inputs| => inputs[k].stay);
    HullIsTight(stays);
    assert Covers(Hull(stays), stays[0]);
  }

  lemma {:induction false} InsertedStaysValid(t: Tables, inputs: seq<ItemInput>, status: ItemStatus, res: ResId,
                                              locked: set<RoomId>, k: nat)
    requires InsertItems(t, inputs, status, res, locked).Ok? && k < |inputs|
    ensures inputs[k].stay.Valid()
  {
    if k == |inputs| - 1 {
    } else {
      InsertedStaysValid(t, inputs[..|inputs| - 1], status, res, locked, k);
    }
  }

  // ---- reactivation ----

  /** One turn of the reactivation loop. */
  lemma ReclaimCommitsIff(t: Tables, i: ItemId, locked: set<RoomId>)
    requires i < |t.items| && t.items[i].stay.Valid()
    ensures var item := t.items[i];
            var r := Reclaim(t, i, locked);
            && (r.Ok? <==>
                && Priced(t.hotel, item.roomType, item.plan, item.stay)
                && exists room: RoomId :: && ChosenRoom(t, item.roomType, item.room, item.stay, locked, room)
                                          && room < |t.hotel.rooms| && Empty(t.ledger, room, item.stay))
            && (item.room.Some? ==>
                  (r == Err(RoomNotAvailable) <==>
                   exists d :: && item.stay.arrival <= d < item.stay.departure && Slot(item.room.value, d) in t.ledger
                               && t.ledger[Slot(item.room.value, d)].status != Available
                               && !t.ledger[Slot(item.room.value, d)].deleted
                               && t.ledger[Slot(item.room.value, d)].item.Some?))
            && (item.room.None? ==>
                  (r == Err(NoFreeRoom) <==>
                   forall room: RoomId :: !FirstFree(t.hotel, t.ledger, item.roomType, item.stay, locked, room)))
  {
    var item := t.items[i];
    var days := Nights(item.stay);
    PricedResolves(t.hotel, item.roomType, item.plan, item.stay);
    forall d ensures d in days <==> item.stay.arrival <= d < item.stay.departure {
    }
    assert item.stay.arrival in days;
    var choice := if item.room.Some? then item.room else AutoPin(t.hotel, t.ledger, item.roomType, days, locked);
    ChoiceIsChosen(t, item.roomType, item.room, item.stay, locked);
    assert choice.Some? ==> ChosenRoom(t, item.roomType, item.room, item.stay, locked, choice.value);
  }

  /** Reactivation may start: a hold or cancelled reservation, its version, and not past or with the permission. */
  predicate MayReactivate(t: Tables, id: ResId, version: int, now: int, mayBackdate: bool) {
    && id < |t.reservations| && (t.reservations[id].status == Hold || t.reservations[id].status == ResCancelled)
    && t.reservations[id].version == version
    && (t.reservations[id].envelope.departure * 86400 >= now || mayBackdate)
  }

  /** The items after a reactivation: its deleted cancelled items are live and booked again. */
  ghost predicate RevivedFrom(items: seq<Item>, items': seq<Item>, id: ResId) {
    && |items'| == |items|
    && forall i :: 0 <= i < |items| ==>
                     var item := items[i];
                     items'[i] == if item.res == id && item.status == Cancelled && !item.live
                     then item.(status := Booked, live := true, version := item.version + 1) else item
  }

  lemma ReactivateOutcome(t: Tables, id: ResId, version: int, now: int, mayBackdate: bool, locked: set<RoomId>)
    ensures var r := Exec(t, DoReactivate(id, version, now, mayBackdate, locked));
            && (r.Ok? ==> && MayReactivate(t, id, version, now, mayBackdate) && Exclusive(r.value.items)
                          && RevivedFrom(t.items, r.value.items, id)
                          && r.value.reservations ==
                             t.reservations[id := t.reservations[id].(status := Confirmed, version := version + 1)])
            && (id >= |t.reservations| ==> r == Err(NotFound))
            && (id < |t.reservations| && t.reservations[id].status !in {Hold, ResCancelled} ==>
                  r == Err(InvalidTransition))
            && (id < |t.reservations| && t.reservations[id].envelope.departure * 86400 < now && !mayBackdate ==>
                  r == Err(InvalidTransition))
            && (id < |t.reservations| && t.reservations[id].status in {Hold, ResCancelled} ==>
                  (t.reservations[id].envelope.departure * 86400 >= now || mayBackdate) ==>
                    t.reservations[id].version != version ==> r == Err(VersionMismatch))
  {
  }

  /** When it may start and the revived items do not overlap, it commits exactly when every turn of the loop does. */
  lemma ReactivateCommitsIff(t: Tables, id: ResId, version: int, now: int, mayBackdate: bool, locked: set<RoomId>,
                             items: seq<Item>)
    requires MayReactivate(t, id, version, now, mayBackdate) && RevivedFrom(t.items, items, id)
    ensures var row := t.reservations[id].(status := Confirmed, version := version + 1);
            var m := t.(reservations := t.reservations[id := row], items := items);
            Exec(t, DoReactivate(id, version, now, mayBackdate, locked)) ==
            if Exclusive(items) then ReclaimAll(m, LiveItems(items, id), locked) else Err(StaysOverlap)
  {
    assert items == ReviveItems(t.items, id);
  }

  ghost predicate TurnCommits(m: Tables, ids: seq<ItemId>, locked: set<RoomId>, k: nat)
    requires Stored(m, ids)
  {
    && k < |ids| && ReclaimAll(m, ids[..k], locked).Ok?
    && Reclaim(ReclaimAll(m, ids[..k], locked).value, ids[k], locked).Ok?
  }

  /** The loop commits exactly when each turn does, on what the turns before it left. */
  lemma {:induction false} LoopCommitsIff(m: Tables, ids: seq<ItemId>, locked: set<RoomId>)
    requires Stored(m, ids)
    ensures ReclaimAll(m, ids, locked).Ok? <==> forall k: nat :: k < |ids| ==> TurnCommits(m, ids, locked, k)
  {
    if ids == [] {
    } else {
      var init, n := ids[..|ids| - 1], |ids| - 1;
      LoopCommitsIff(m, init, locked);
      forall k: nat | k < n ensures TurnCommits(m, ids, locked, k) <==> TurnCommits(m, init, locked, k) {
        assert init[..k] == ids[..k] && init[k] == ids[k];
      }
      assert ReclaimAll(m, ids, locked).Ok? <==> TurnCommits(m, ids, locked, n);
    }
  }

  /** No committed reactivation sells a night without a rate. */
  lemma {:induction false} LoopSellsPriced(m: Tables, ids: seq<ItemId>, locked: set<RoomId>, k: nat)
    requires Stored(m, ids) && ReclaimAll(m, ids, locked).Ok? && k < |ids| && m.items[ids[k]].stay.Valid()
    ensures Priced(m.hotel, m.items[ids[k]].roomType, m.items[ids[k]].plan, m.items[ids[k]].stay)
  {
    var init := ids[..|ids| - 1];
    if k == |ids| - 1 {
      ReclaimCommitsIff(ReclaimAll(m, init, locked).value, ids[k], locked);
    } else {
      LoopSellsPriced(m, init, locked, k);
    }
  }

  lemma ReactivateSellsPriced(t: Tables, id: ResId, version: int, now: int, mayBackdate: bool, locked: set<RoomId>,
                              t': Tables, s: Slot)
    requires TablesValid(t) && Exec(t, DoReactivate(id, version, now, mayBackdate, locked)) == Ok(t')
    requires s in t'.ledger && s !in t.ledger
    ensures t'.ledger[s].item.Some? && t'.ledger[s].item.value < |t'.items|
    ensures var item := t'.items[t'.ledger[s].item.value];
            item.plan.Some? ==> Rate(item.roomType, item.plan.value, Weekday(s.day)) in t.hotel.rates
  {
    ReactivationSells(t, id, version, now, mayBackdate, locked, t');
    var i := t'.ledger[s].item.value;
    var ids := LiveItems(t'.items, id);
    var k :| 0 <= k < |ids| && ids[k] == i;
    assert SoldNights(t'.items, t.ledger, t'.ledger, i);
    var t1 := UpdateStatus(t, id, version, Confirmed).value;
    assert ItemFits(t, t.items[i]);
    LoopSellsPriced(t1.(items := ReviveItems(t1.items, id)), ids, locked, k);
  }
}
