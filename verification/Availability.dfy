/** Auto-pinned batches and the availability counts. */
module Availability {
  import opened Basics
  import opened Calendar
  import opened StateMachine
  import opened Tables
  import opened Booking
  import opened Invariants
  import opened Inventory

  // ---- auto-pinned batches ----

  predicate AllBlocking(l: Ledger) {
    forall s :: s in l ==> l[s].Blocks()
  }

  /** An unassigned item is inserted exactly when its guards hold and some unlocked room of its type is free. */
  lemma InsertUnassignedExactly(t: Tables, input: ItemInput, status: ItemStatus, res: ResId, locked: set<RoomId>)
    requires Exclusive(t.items) && AllBlocking(t.ledger) && input.room.None?
    ensures InsertItem(t, input, status, res, locked).Ok? <==>
            && Occupiable(t.hotel, input) && input.stay.Valid()
            && RatesResolve(t.hotel, input.roomType, input.plan, Nights(input.stay))
            && exists r :: 0 <= r < |t.hotel.rooms| && t.hotel.rooms[r] == input.roomType && r !in locked
                           && FreeOn(t.ledger, r, Nights(input.stay))
    ensures InsertItem(t, input, status, res, locked).Err? ==>
              InsertItem(t, input, status, res, locked).error in {NotFound, Occupancy, NoRate, CheckViolation,
                                                                  NoFreeRoom}
  {
  }

  /** The new item holds exactly its nights in one room of its type; every older row is kept. */
  ghost predicate Pinned(t: Tables, t': Tables, i: ItemId, input: ItemInput) {
    && i < |t'.items|
    && (exists r :: 0 <= r < |t.hotel.rooms| && t.hotel.rooms[r] == input.roomType
                    && Holds(t'.ledger, i, r, input.stay))
  }

  lemma InsertUnassignedPins(t: Tables, input: ItemInput, status: ItemStatus, res: ResId, locked: set<RoomId>)
    requires TablesValid(t) && input.room.None? && AllBlocking(t.ledger)
    requires InsertItem(t, input, status, res, locked).Ok?
    ensures var t' := InsertItem(t, input, status, res, locked).value;
            && t'.hotel == t.hotel && |t'.items| == |t.items| + 1
            && AllBlocking(t'.ledger) && Pinned(t, t', |t.items|, input)
            && (forall s :: s in t.ledger ==> s in t'.ledger && t'.ledger[s] == t.ledger[s])
            && (forall s :: s in t'.ledger && s !in t.ledger ==> t'.ledger[s].item == Some(|t.items|))
  {
  }

  lemma PinKept(t: Tables, t1: Tables, t': Tables, i: ItemId, input: ItemInput)
    requires Pinned(t, t1, i, input) && |t1.items| <= |t'.items|
    requires forall s :: s in t1.ledger ==> s in t'.ledger && t'.ledger[s] == t1.ledger[s]
    requires forall s :: s in t'.ledger && s !in t1.ledger ==> t'.ledger[s].item != Some(i)
    ensures Pinned(t, t', i, input)
  {
  }

  ghost predicate BatchOutcome(t: Tables, inputs: seq<ItemInput>, r: Result<Tables>) {
    && (r.Err? ==> r.error != SlotTaken && r.error != StaysOverlap && r.error != ForeignKey)
    && (r.Ok? ==>
          && r.value.hotel == t.hotel && AllBlocking(r.value.ledger)
          && |r.value.items| == |t.items| + |inputs|
          && (forall s :: s in t.ledger ==> s in r.value.ledger && r.value.ledger[s] == t.ledger[s])
          && (forall k :: 0 <= k < |inputs| ==> Pinned(t, r.value, |t.items| + k, inputs[k])))
  }

  lemma ExtendPinned(t: Tables, init: seq<ItemInput>, t1: Tables, last: ItemInput, t': Tables)
    requires BatchOutcome(t, init, Ok(t1))
    requires t'.hotel == t1.hotel && AllBlocking(t'.ledger) && |t'.items| == |t1.items| + 1
    requires Pinned(t1, t', |t1.items|, last)
    requires forall s :: s in t1.ledger ==> s in t'.ledger && t'.ledger[s] == t1.ledger[s]
    requires forall s :: s in t'.ledger && s !in t1.ledger ==> t'.ledger[s].item == Some(|t1.items|)
    ensures BatchOutcome(t, init + [last], Ok(t'))
  {
    var inputs := init + [last];
    forall k | 0 <= k < |inputs| ensures Pinned(t, t', |t.items| + k, inputs[k]) {
      if k < |init| {
        assert inputs[k] == init[k];
        PinKept(t, t1, t', |t.items| + k, init[k]);
      }
    }
  }

  /**
    * Over a ledger of blocking rows, a batch of unassigned items never reaches the UNIQUE constraint: the
    * free-room selection alone keeps the slots apart.  On success each item holds exactly its nights in one
    * room of its type and no older row is touched.
    */
  lemma {:induction false} AutoPinNeverDoubleBooks(t: Tables, inputs: seq<ItemInput>, status: ItemStatus, res: ResId,
                                                   locked: set<RoomId>)
    requires TablesValid(t) && res < |t.reservations| && AllBlocking(t.ledger)
    requires forall k :: 0 <= k < |inputs| ==> inputs[k].room.None?
    ensures BatchOutcome(t, inputs, InsertItems(t, inputs, status, res, locked))
  {
    if inputs == [] {
    } else {
      var init, last := inputs[..|inputs| - 1], inputs[|inputs| - 1];
      AutoPinNeverDoubleBooks(t, init, status, res, locked);
      var r := InsertItems(t, init, status, res, locked);
      if r.Ok? {
        var t1 := r.value;
        InsertItemsGood(t, init, status, res, locked);
        InsertUnassignedExactly(t1, last, status, res, locked);
        assert inputs == init + [last];
        if InsertItem(t1, last, status, res, locked).Ok? {
          InsertUnassignedPins(t1, last, status, res, locked);
          ExtendPinned(t, init, t1, last, InsertItem(t1, last, status, res, locked).value);
        }
      }
    }
  }

  // ---- counts ----

  function RoomsOf(h: Hotel, roomType: TypeId): set<RoomId> {
    set r | 0 <= r < |h.rooms| && h.rooms[r] == roomType
  }

  /** CountRoomsByType. */
  function RoomCount(h: Hotel, roomType: TypeId): nat {
    |RoomsOf(h, roomType)|
  }

  /** The slots counted by the inline availability query: soft-deleted rows are not filtered out. */
  function CountedRows(t: Tables, roomType: TypeId, d: Day): set<Slot> {
    set s | s in t.ledger && s.day == d && s.room in RoomsOf(t.hotel, roomType) && t.ledger[s].status != Available
  }

  /** The inline query of CheckAvailability. */
  function InlineAvailable(t: Tables, roomType: TypeId, d: Day): int {
    RoomCount(t.hotel, roomType) - |CountedRows(t, roomType, d)|
  }

  /** The rooms counted by BlockedCountByType: COUNT(DISTINCT room_id) of undeleted blocking rows. */
  function BlockedRooms(t: Tables, roomType: TypeId, d: Day): set<RoomId> {
    set r | r in RoomsOf(t.hotel, roomType) && Slot(r, d) in t.ledger && t.ledger[Slot(r, d)].Blocks()
  }

  /** The rooms of the counted rows. */
  function CountedRooms(t: Tables, roomType: TypeId, d: Day): set<RoomId> {
    set r | r in RoomsOf(t.hotel, roomType) && Slot(r, d) in t.ledger && t.ledger[Slot(r, d)].status != Available
  }

  /** On one day a room has at most one row, so counting rows and counting rooms agree. */
  lemma {:induction false} RowsAreRooms(rows: set<Slot>, rooms: set<RoomId>, d: Day)
    requires forall s :: s in rows ==> s.day == d && s.room in rooms
    requires forall r :: r in rooms ==> Slot(r, d) in rows
    ensures |rows| == |rooms|
  {
    if rows != {} {
      var s :| s in rows;
      assert s == Slot(s.room, d);
      RowsAreRooms(rows - {s}, rooms - {s.room}, d);
    } else {
      assert rooms == {};
    }
  }

  predicate NoDeletedRows(t: Tables, roomType: TypeId, d: Day) {
    forall s | s in t.ledger && s.day == d && s.room in RoomsOf(t.hotel, roomType) && t.ledger[s].status != Available
      :: !t.ledger[s].deleted
  }

  /**
    * The inline query lies between 0 and the number of rooms, and equals rooms minus blocked rooms exactly when
    * no soft-deleted row of the type lies on that day.
    */
  lemma InlineMatchesBlockedCount(t: Tables, roomType: TypeId, d: Day)
    ensures 0 <= InlineAvailable(t, roomType, d) <= RoomCount(t.hotel, roomType)
    ensures InlineAvailable(t, roomType, d) == RoomCount(t.hotel, roomType) - |BlockedRooms(t, roomType, d)|
       <==> NoDeletedRows(t, roomType, d)
  {
    var counted, blocked := CountedRooms(t, roomType, d), BlockedRooms(t, roomType, d);
    forall s | s in CountedRows(t, roomType, d) ensures s.room in counted {
      assert s == Slot(s.room, d);
    }
    RowsAreRooms(CountedRows(t, roomType, d), counted, d);
    SubsetCard(counted, RoomsOf(t.hotel, roomType));
    SubsetCard(blocked, counted);
    if NoDeletedRows(t, roomType, d) {
      assert blocked == counted;
    }
    if blocked == counted {
      forall s | s in t.ledger && s.day == d && s.room in RoomsOf(t.hotel, roomType) && t.ledger[s].status != Available
        ensures !t.ledger[s].deleted
      {
        assert s == Slot(s.room, d) && s.room in counted;
      }
    }
  }

  /** A successful auto-pin means at least one available room on every requested night. */
  lemma AutoPinMeansAvailable(t: Tables, roomType: TypeId, days: seq<Day>, locked: set<RoomId>, d: Day)
    requires AutoPin(t.hotel, t.ledger, roomType, days, locked).Some? && d in days && NoDeletedRows(t, roomType, d)
    ensures InlineAvailable(t, roomType, d) >= 1
  {
    var r := AutoPin(t.hotel, t.ledger, roomType, days, locked).value;
    InlineMatchesBlockedCount(t, roomType, d);
    assert r in RoomsOf(t.hotel, roomType) - BlockedRooms(t, roomType, d);
    SubsetCard(BlockedRooms(t, roomType, d), RoomsOf(t.hotel, roomType));
  }

  /** For one night and no locked rooms the two are equivalent. */
  lemma OneNightAutoPinIsAvailability(t: Tables, roomType: TypeId, d: Day)
    requires NoDeletedRows(t, roomType, d)
    ensures AutoPin(t.hotel, t.ledger, roomType, [d], {}).Some? <==> InlineAvailable(t, roomType, d) >= 1
  {
    InlineMatchesBlockedCount(t, roomType, d);
    if AutoPin(t.hotel, t.ledger, roomType, [d], {}).Some? {
      AutoPinMeansAvailable(t, roomType, [d], {}, d);
    } else {
      forall r | r in RoomsOf(t.hotel, roomType) ensures r in BlockedRooms(t, roomType, d) {
        assert !FreeOn(t.ledger, r, [d]);
      }
      assert BlockedRooms(t, roomType, d) == RoomsOf(t.hotel, roomType);
    }
  }

  /** For two nights the converse fails: each night has a free room, but no room is free on both. */
  lemma TwoNightsNeedOneRoom()
    ensures exists t: Tables ::
              && InlineAvailable(t, 0, 1) >= 1 && InlineAvailable(t, 0, 2) >= 1
              && NoDeletedRows(t, 0, 1) && NoDeletedRows(t, 0, 2)
              && AutoPin(t.hotel, t.ledger, 0, [1, 2], {}).None?
  {
    var e := Entry(None, None, Maintenance, false);
    var t := Tables(Hotel([0, 0], map[], {}), [], [], map[Slot(0, 1) := e, Slot(1, 2) := e]);
    assert RoomsOf(t.hotel, 0) == {0, 1};
    assert CountedRows(t, 0, 1) == {Slot(0, 1)} && CountedRows(t, 0, 2) == {Slot(1, 2)};
    assert 1 in [1, 2] && 2 in [1, 2];
    assert !FreeOn(t.ledger, 0, [1, 2]) && !FreeOn(t.ledger, 1, [1, 2]);
    assert AutoPin(t.hotel, t.ledger, 0, [1, 2], {}).None?;
  }

  /** Inserting an auto-pinned item lowers its type's availability by one on exactly its nights. */
  lemma InsertLowersByOne(t: Tables, input: ItemInput, status: ItemStatus, res: ResId, locked: set<RoomId>,
                          roomType: TypeId, d: Day)
    requires TablesValid(t) && input.room.None? && AllBlocking(t.ledger)
    requires InsertItem(t, input, status, res, locked).Ok?
    ensures InlineAvailable(InsertItem(t, input, status, res, locked).value, roomType, d) ==
            InlineAvailable(t, roomType, d) - if roomType == input.roomType && input.stay.Has(d) then 1 else 0
  {
    var t' := InsertItem(t, input, status, res, locked).value;
    var r := AutoPin(t.hotel, t.ledger, input.roomType, Nights(input.stay), locked).value;
    assert t'.hotel == t.hotel;
    forall k | input.stay.Has(k) ensures Slot(r, k) !in t.ledger {
      assert k in Nights(input.stay);
    }
    NewRowsCount(t, t', r, input.stay, roomType, d);
  }

  /** Sold rows added on free slots of one room each take one from the count of that room's type. */
  lemma NewRowsCount(t: Tables, t': Tables, room: RoomId, stay: Stay, roomType: TypeId, d: Day)
    requires t'.hotel == t.hotel && room < |t.hotel.rooms|
    requires forall k :: stay.Has(k) ==> Slot(room, k) !in t.ledger
    requires forall s :: s in t'.ledger <==> s in t.ledger || (s.room == room && stay.Has(s.day))
    requires forall s :: s in t'.ledger ==> if s in t.ledger then t'.ledger[s] == t.ledger[s]
                           else t'.ledger[s].status == Sold
    ensures InlineAvailable(t', roomType, d) ==
            InlineAvailable(t, roomType, d) - if roomType == t.hotel.rooms[room] && stay.Has(d) then 1 else 0
  {
    var before, after := CountedRows(t, roomType, d), CountedRows(t', roomType, d);
    var added := if roomType == t.hotel.rooms[room] && stay.Has(d) then {Slot(room, d)} else {};
    forall s ensures s in after <==> s in before + added {
      NewRowCounted(t, t', room, stay, roomType, d, s);
    }
    assert after == before + added && added !! before;
  }

  lemma NewRowCounted(t: Tables, t': Tables, room: RoomId, stay: Stay, roomType: TypeId, d: Day, s: Slot)
    requires t'.hotel == t.hotel && room < |t.hotel.rooms|
    requires s in t'.ledger <==> s in t.ledger || (s.room == room && stay.Has(s.day))
    requires s in t'.ledger ==> if s in t.ledger then t'.ledger[s] == t.ledger[s] else t'.ledger[s].status == Sold
    requires s.room == room && stay.Has(s.day) ==> s !in t.ledger
    ensures s in CountedRows(t', roomType, d) <==>
            || s in CountedRows(t, roomType, d)
            || (s == Slot(room, d) && roomType == t.hotel.rooms[room] && stay.Has(d))
  {
  }
}
