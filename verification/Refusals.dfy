/** With which error each write is refused, in the order in which the transaction meets the obstacles. */
module Refusals {
  import opened Basics
  import opened Calendar
  import opened StateMachine
  import opened Tables
  import opened Booking
  import opened Invariants
  import opened Inventory
  import opened Envelope
  import opened Runs
  import opened Outcomes

  // ---- rows ----

  /** An item write: version, dates, an existing room, and no live item in that room on a common night. */
  lemma ItemWrite(t: Tables, i: ItemId, version: int, room: Option<RoomId>, stay: Stay, status: ItemStatus)
    requires TablesValid(t) && i < |t.items| && t.items[i].live
    ensures var target := if room.Some? then room else t.items[i].room;
            UpdateItemRow(t, i, version, room, stay, status) ==
            if t.items[i].version != version then Err(VersionMismatch)
            else if stay.arrival >= stay.departure then Err(CheckViolation)
            else if target.Some? && target.value >= |t.hotel.rooms| then Err(ForeignKey)
            else if target.Some? && !RoomUncontested(t.items, i, target.value, stay) then Err(StaysOverlap)
            else Ok(t.(items := t.items[i := t.items[i].(room := target, stay := stay, status := status,
                    version := version + 1)]))
  {
    ProperStays(t);
    var target := if room.Some? then room else t.items[i].room;
    if stay.Valid() {
      RowFitsIff(t.items, i, t.items[i].(room := target, stay := stay, status := status, version := version + 1));
    }
  }

  lemma ProperStays(t: Tables)
    requires TablesValid(t)
    ensures forall j :: 0 <= j < |t.items| ==> t.items[j].stay.Valid()
  {
    forall j | 0 <= j < |t.items| ensures t.items[j].stay.Valid() {
      assert ItemFits(t, t.items[j]);
    }
  }

  lemma MetadataRefusal(t: Tables, id: ResId, version: int)
    requires Exec(t, DoUpdateMetadata(id, version)).Err?
    ensures Exec(t, DoUpdateMetadata(id, version)).error ==
            if id < |t.reservations| && t.reservations[id].version == version then CheckViolation else VersionMismatch
  {
  }

  /** An item without rows moves anywhere; otherwise the room must exist and every slot be free. */
  lemma MoveRefusal(h: Hotel, l: Ledger, i: ItemId, room: RoomId)
    ensures var r := MoveRows(h, l, i, room);
            && (r.Ok? <==> (exists s :: s in l && l[s].item == Some(i)) ==> room < |h.rooms| && Movable(l, i, room))
            && (r.Err? ==> r.error == if room >= |h.rooms| then ForeignKey else SlotTaken)
  {
    var own := set s | s in l && l[s].item == Some(i);
    assert forall s :: s in own <==> s in l && l[s].item == Some(i);
    if room < |h.rooms| {
      MoveCommitsIff(h, l, i, room);
    }
  }

  /** Claiming nights: rates first, then the room, then the slots. */
  lemma ClaimRefusal(t: Tables, i: ItemId, room: Option<RoomId>, days: seq<Day>)
    requires i < |t.items| && ClaimNights(t, i, room, days).Err?
    ensures ClaimNights(t, i, room, days).error ==
            if exists d :: && d in days && t.items[i].plan.Some?
                           && Rate(t.items[i].roomType, t.items[i].plan.value, Weekday(d)) !in t.hotel.rates
            then NoRate
            else if room.None? || room.value >= |t.hotel.rooms| then ForeignKey
              else SlotTaken
  {
  }

  // ---- requests ----

  lemma AssignRefusal(t: Tables, i: ItemId, version: int, room: RoomId, mayMove: bool, mayMutate: bool)
    requires TablesValid(t) && Exec(t, DoAssignRoom(i, version, room, mayMove, mayMutate)).Err?
    ensures Exec(t, DoAssignRoom(i, version, room, mayMove, mayMutate)).error ==
            if i >= |t.items| || !t.items[i].live then NotFound
            else if t.items[i].doNotMove && !mayMove then DoNotMove
            else if t.items[i].status == CheckedIn && !mayMutate then MissingPermission
            else if t.items[i].version != version then VersionMismatch
            else if room >= |t.hotel.rooms| then ForeignKey
            else if !RoomUncontested(t.items, i, room, t.items[i].stay) then StaysOverlap
            else SlotTaken
  {
    if i < |t.items| && t.items[i].live {
      assert ItemFits(t, t.items[i]);
      ItemWrite(t, i, version, Some(room), t.items[i].stay, t.items[i].status);
      MoveRefusal(t.hotel, t.ledger, i, room);
    }
  }

  lemma StayPeriodRefusal(t: Tables, i: ItemId, version: int, stay: Stay, mayMutate: bool)
    requires TablesValid(t) && UpdateStayPeriod(t, i, version, stay, mayMutate).Err?
    ensures UpdateStayPeriod(t, i, version, stay, mayMutate).error ==
            if i >= |t.items| || !t.items[i].live then NotFound
            else if stay.arrival >= stay.departure then InvalidDates
            else if t.items[i].status == CheckedIn && !mayMutate then MissingPermission
            else if t.items[i].status == CheckedIn && stay.arrival != t.items[i].stay.arrival then InvalidDates
            else if t.items[i].version != version then VersionMismatch
            else StaysOverlap
  {
    if i < |t.items| && t.items[i].live && stay.Valid() {
      var trimmed := t.(ledger := DeleteByItemFrom(t.ledger, i, stay.departure));
      assert ItemFits(t, t.items[i]);
      ItemWrite(t, i, version, t.items[i].room, stay, t.items[i].status);
      StayPeriodCommitsIff(t, i, version, stay, mayMutate);
      assert UpdateItemRow(t, i, version, t.items[i].room, stay, t.items[i].status).Err? ==>
          UpdateItemRow(trimmed, i, version, t.items[i].room, stay, t.items[i].status)
          == UpdateItemRow(t, i, version, t.items[i].room, stay, t.items[i].status);
    }
  }

  /** An insertion: limits, rates, dates, the assigned room, and last a free room or slot. */
  lemma InsertRefusal(t: Tables, input: ItemInput, status: ItemStatus, res: ResId, locked: set<RoomId>)
    requires TablesValid(t) && InsertItem(t, input, status, res, locked).Err?
    ensures InsertItem(t, input, status, res, locked).error ==
            if input.roomType !in t.hotel.limits then NotFound
            else if input.guests < t.hotel.limits[input.roomType].min
                    || 0 < t.hotel.limits[input.roomType].max < input.guests then Occupancy
            else if !Priced(t.hotel, input.roomType, input.plan, input.stay) then NoRate
            else if input.stay.arrival >= input.stay.departure then CheckViolation
            else if input.room.Some? && input.room.value >= |t.hotel.rooms| then ForeignKey
            else if input.room.Some? && !RoomUncontested(t.items, |t.items|, input.room.value, input.stay)
            then StaysOverlap
            else if input.room.None?
                    && forall room: RoomId :: !FirstFree(t.hotel, t.ledger, input.roomType, input.stay, locked, room)
              then NoFreeRoom
              else SlotTaken
  {
    ProperStays(t);
    PricedResolves(t.hotel, input.roomType, input.plan, input.stay);
    if input.stay.Valid() {
      RowFitsIff(t.items, |t.items|, NewItem(input, status, res));
    }
    ChoiceIsChosen(t, input.roomType, input.room, input.stay, locked);
    var choice := AutoPin(t.hotel, t.ledger, input.roomType, Nights(input.stay), locked);
    if input.room.None? && choice.Some? {
      assert ChosenRoom(t, input.roomType, input.room, input.stay, locked, choice.value);
    }
  }

  /** A creation that passes its first guards fails on an improper envelope, or as the first failing item does. */
  lemma CreateRefusal(t: Tables, source: Source, walkin: bool, inputs: seq<ItemInput>, now: int, locked: set<RoomId>)
    requires source != Deferred
    ensures CreateInTx(t, source, walkin, inputs, now, locked) ==
            if InputHull(inputs).arrival >= InputHull(inputs).departure then Err(CheckViolation)
            else Inserted(t, source, walkin, inputs, now, locked)
  {
    assert FirstRow(source, walkin, InputHull(inputs), now)
        == Reservation(InitialStatus(source, walkin), InputHull(inputs), 1,
                       ExpiresAt(source, InitialStatus(source, walkin), now));
  }

  /** One turn of the reactivation loop: the conflict check or auto-pin first, then as for any claim. */
  lemma ReclaimRefusal(t: Tables, i: ItemId, locked: set<RoomId>)
    requires i < |t.items| && t.items[i].stay.Valid() && Reclaim(t, i, locked).Err?
    ensures var item, error := t.items[i], Reclaim(t, i, locked).error;
            error != RoomNotAvailable && error != NoFreeRoom ==>
              error == if !Priced(t.hotel, item.roomType, item.plan, item.stay) then NoRate
              else if item.room.Some? && item.room.value >= |t.hotel.rooms| then ForeignKey
              else SlotTaken
  {
    var item := t.items[i];
    PricedResolves(t.hotel, item.roomType, item.plan, item.stay);
  }

  /** What stops the ledger step of an update. */
  ghost predicate DeltaStopped(t: Tables, i: ItemId, stay: Stay, room: Option<RoomId>, error: Error)
    requires i < |t.items|
  {
    var item := t.items[i];
    var target := if room.Some? then room else item.room;
    if stay == item.stay then room.Some? && error == if room.value >= |t.hotel.rooms| then ForeignKey else SlotTaken
    else
      && !Covers(item.stay, stay)
      && error == if exists d :: && Claims(item.stay, stay, d) && item.plan.Some?
                                 && Rate(item.roomType, item.plan.value, Weekday(d)) !in t.hotel.rates
                  then NoRate
                  else if target.None? || target.value >= |t.hotel.rooms| then ForeignKey
                    else SlotTaken
  }

  lemma DeltaRefusal(t: Tables, i: ItemId, stay: Stay, room: Option<RoomId>)
    requires i < |t.items| && stay.Valid() && t.items[i].stay.Valid() && DeltaLedger(t, i, stay, room).Err?
    ensures DeltaStopped(t, i, stay, room, DeltaLedger(t, i, stay, room).error)
  {
    var was := t.items[i].stay;
    var target := if room.Some? then room else t.items[i].room;
    if stay == was {
      MoveRefusal(t.hotel, t.ledger, i, room.value);
    } else {
      FirstRemovedNight(was, stay);
      FirstRemovedNight(stay, was);
      if Covers(stay, was) {
        var added := Minus(Nights(stay), Nights(was));
        assert forall d :: d in added <==> Claims(was, stay, d);
        ClaimRefusal(t, i, target, added);
      } else {
        assert !Covers(was, stay);
        assert forall d :: d in Nights(stay) <==> Claims(was, stay, d);
        ClaimRefusal(t.(ledger := DeleteByItem(t.ledger, i)), i, target, Nights(stay));
      }
    }
  }

  /** An update fails on the item, the dates, its ledger step, and only then on the version and the item's new room. */
  lemma UpdateRefusal(t: Tables, i: ItemId, version: int, stay: Stay, room: Option<RoomId>)
    requires TablesValid(t) && Exec(t, DoUpdateItem(i, version, stay, room)).Err?
    ensures var error := Exec(t, DoUpdateItem(i, version, stay, room)).error;
            if i >= |t.items| || !t.items[i].live then error == NotFound
            else if stay.arrival >= stay.departure then error == InvalidDates
            else if DeltaLedger(t, i, stay, room).Err? then DeltaStopped(t, i, stay, room, error)
            else if t.items[i].version != version then error == VersionMismatch
            else error == if room.Some? && room.value >= |t.hotel.rooms| then ForeignKey else StaysOverlap
  {
    if i < |t.items| && t.items[i].live && stay.Valid() {
      ProperStays(t);
      if DeltaLedger(t, i, stay, room).Err? {
        DeltaRefusal(t, i, stay, room);
      } else {
        UpdateWriteRefusal(t, i, version, stay, room);
      }
    }
  }

  lemma UpdateWriteRefusal(t: Tables, i: ItemId, version: int, stay: Stay, room: Option<RoomId>)
    requires TablesValid(t) && i < |t.items| && t.items[i].live && stay.Valid()
    requires DeltaLedger(t, i, stay, room).Ok? && UpdateItem(t, i, version, stay, room).Err?
    ensures UpdateItem(t, i, version, stay, room).error ==
            if t.items[i].version != version then VersionMismatch
            else if room.Some? && room.value >= |t.hotel.rooms| then ForeignKey
            else StaysOverlap
  {
    var target := if room.Some? then room else t.items[i].room;
    var status := t.items[i].status;
    assert ItemFits(t, t.items[i]);
    if stay != t.items[i].stay {
      var t1 := ShiftLedger(t, i, stay, target).value;
      ShiftKeepsRest(t, i, stay, target, t1);
      assert ItemsValid(t1) by {
        forall j | 0 <= j < |t.items| ensures ItemFits(t1, t1.items[j]) {
          assert ItemFits(t, t.items[j]);
        }
      }
      EnvelopeWriteSucceeds(t1, i);
      var t2 := RecomputeEnvelope(t1, t.items[i].res).value;
      EnvelopeKeeps(t1, t.items[i].res, t2);
      assert UpdateItem(t, i, version, stay, room) == UpdateItemRow(t2, i, version, target, stay, status);
    }
  }

  // ---- the overstay sweep ----

  /** The sweep marks exactly an item that is still as it was read, and writes only its status and version. */
  lemma OverstayOutcome(s: System, i: ItemId, seen: Item)
    requires SystemValid(s) && (i, seen) in s.overdue
    ensures var r := MarkOverstay(s.tables, i, seen);
            && (r.Ok? <==> s.tables.items[i] == seen)
            && (r.Ok? ==> r.value == WithStatus(s.tables, i, Overstay))
            && (r.Err? ==> r.error == if s.tables.items[i].status != CheckedIn then Skipped else VersionMismatch)
  {
    assert SeenItem(s.tables, i, seen);
    if s.tables.items[i] == seen {
      StatusWrite(s.tables, i, seen.version, Overstay);
    }
  }
}
