/**
  * The tables of migrations/00003_reservations.sql and the SQL statements of internal/store as functions
  * on them.  Rows of reservations and reservation_items are only ever soft-deleted, so an id is the
  * position of its row, and positions follow created_at.
  */
module Tables {
  import opened Basics
  import opened Calendar
  import opened StateMachine

  datatype Error =
    | NotFound | InvalidTransition | VersionMismatch | InvalidDates | ItemsCheckedIn | Terminal
    | RoomNotAvailable | NoFreeRoom | NoRate | Occupancy | UnassignedItems | DoNotMove | MissingPermission
    | SourceDeferred | Skipped
      // Constraint violations reported by the database.
    | ForeignKey | SlotTaken | StaysOverlap | CheckViolation

  datatype Result<+T> = Ok(value: T) | Err(error: Error) {
    predicate IsFailure() {
      Err?
    }

    function PropagateFailure<U>(): Result<U>
      requires Err?
    {
      Err(error)
    }

    function Extract(): T
      requires Ok?
    {
      value
    }
  }

  type ResId = nat
  type ItemId = nat
  type RoomId = nat
  type TypeId = nat
  type PlanId = nat

  datatype Limits = Limits(min: int, max: int)

  datatype Rate = Rate(roomType: TypeId, plan: PlanId, weekday: int)

  /** Reference data no booking transaction changes; rooms are in name order and give each room's type. */
  datatype Hotel = Hotel(rooms: seq<TypeId>, limits: map<TypeId, Limits>, rates: set<Rate>)

  datatype Reservation = Reservation(
    status: ReservationStatus, envelope: Stay, version: int, expiresAt: Option<int>)

  /** A reservation item; `live` is deleted_at IS NULL. */
  datatype Item = Item(
    res: ResId, roomType: TypeId, room: Option<RoomId>, plan: Option<PlanId>, stay: Stay,
    doNotMove: bool, status: ItemStatus, version: int, live: bool)

  datatype InventoryStatus = Available | Sold | OnHold | Maintenance | Decommissioned

  datatype Slot = Slot(room: RoomId, day: Day)

  /** A ledger row without its key; `deleted` is deleted_at IS NOT NULL. */
  datatype Entry = Entry(res: Option<ResId>, item: Option<ItemId>, status: InventoryStatus, deleted: bool) {
    predicate Blocks() {
      status != Available && !deleted
    }
  }

  /** UNIQUE (room_id, calendar_date) makes the ledger a map from slots. */
  type Ledger = map<Slot, Entry>

  datatype Tables = Tables(hotel: Hotel, reservations: seq<Reservation>, items: seq<Item>, ledger: Ledger)

  // ---- reservation_items ----

  /** EXCLUDE USING GIST: two live items assigned to one room never overlap. */
  predicate Exclusive(items: seq<Item>) {
    forall i, j | 0 <= i < j < |items| && items[i].live && items[j].live && items[i].room.Some?
                  && items[i].room == items[j].room :: !items[i].stay.Overlaps(items[j].stay)
  }

  /** GetReservationItem. */
  predicate LiveItem(t: Tables, i: ItemId) {
    i < |t.items| && t.items[i].live
  }

  /** GetReservationItems from position `from` on: the live items of a reservation in creation order. */
  function LiveItemsFrom(items: seq<Item>, res: ResId, from: nat): (ids: seq<ItemId>)
    requires from <= |items|
    ensures forall i :: i in ids <==> from <= i < |items| && items[i].live && items[i].res == res
    decreases |items| - from
  {
    if from == |items| then []
    else
      var rest := LiveItemsFrom(items, res, from + 1);
      if items[from].live && items[from].res == res then [from] + rest else rest
  }

  function LiveItems(items: seq<Item>, res: ResId): (ids: seq<ItemId>)
    ensures forall i :: i in ids <==> 0 <= i < |items| && items[i].live && items[i].res == res
    ensures forall k :: 0 <= k < |ids| ==> ids[k] < |items| && items[ids[k]].live && items[ids[k]].res == res
  {
    assert forall k :: 0 <= k < |LiveItemsFrom(items, res, 0)| ==>
                         LiveItemsFrom(items, res, 0)[k] in LiveItemsFrom(items, res, 0);
    LiveItemsFrom(items, res, 0)
  }

  lemma {:induction false} LiveItemsAscend(items: seq<Item>, res: ResId, from: nat)
    requires from <= |items|
    ensures Ascending(LiveItemsFrom(items, res, from))
    decreases |items| - from
  {
    if from == |items| {
    } else {
      LiveItemsAscend(items, res, from + 1);
      var rest := LiveItemsFrom(items, res, from + 1);
      assert forall k :: 0 <= k < |rest| ==> rest[k] in rest;
    }
  }

  predicate RoomExists(h: Hotel, room: Option<RoomId>) {
    room.None? || room.value < |h.rooms|
  }

  /** Constraint checks of an INSERT or UPDATE that gives the items table the content `items`. */
  function WriteItems(t: Tables, items: seq<Item>, i: ItemId): Result<Tables>
    requires i < |items|
  {
    if !items[i].stay.Valid() then Err(CheckViolation)
    else if !RoomExists(t.hotel, items[i].room) then Err(ForeignKey)
    else if !Exclusive(items) then Err(StaysOverlap)
    else Ok(t.(items := items))
  }

  function CreateItemRow(t: Tables, row: Item): Result<Tables> {
    WriteItems(t, t.items + [row], |t.items|)
  }

  /** UpdateReservationItem: guarded by the version; a NULL room keeps the stored one. */
  function UpdateItemRow(t: Tables, i: ItemId, version: int, room: Option<RoomId>, stay: Stay, status: ItemStatus)
    : Result<Tables>
  {
    if i < |t.items| && t.items[i].version == version then
      var stored := t.items[i];
      var row := stored.(room := if room.Some? then room else stored.room, stay := stay, status := status,
                 version := version + 1);
      WriteItems(t, t.items[i := row], i)
    else Err(VersionMismatch)
  }

  /** CancelReservationItems: no version guard and no deleted_at filter. */
  function CancelItems(items: seq<Item>, res: ResId): (r: seq<Item>)
    ensures |r| == |items|
  {
    seq(|items|, i requires 0 <= i < |items| =>
      if items[i].res == res && !TerminalItem(items[i].status)
      then items[i].(status := Cancelled, live := false, version := items[i].version + 1)
      else items[i])
  }

  /** ReactivateReservationItems before its constraint checks. */
  function ReviveItems(items: seq<Item>, res: ResId): (r: seq<Item>)
    ensures |r| == |items|
  {
    seq(|items|, i requires 0 <= i < |items| =>
      if items[i].res == res && items[i].status == Cancelled && !items[i].live
      then items[i].(status := Booked, live := true, version := items[i].version + 1)
      else items[i])
  }

  /** The soft delete of the archival sweep. */
  function RetireItems(items: seq<Item>, res: ResId): (r: seq<Item>)
    ensures |r| == |items|
  {
    seq(|items|, i requires 0 <= i < |items| =>
      if items[i].res == res && items[i].live
      then items[i].(live := false, version := items[i].version + 1)
      else items[i])
  }

  // ---- reservations ----

  /** UpdateReservationStatus: guarded by the version only, not by the current status. */
  function UpdateStatus(t: Tables, id: ResId, version: int, status: ReservationStatus): Result<Tables> {
    if id < |t.reservations| && t.reservations[id].version == version then
      Ok(t.(reservations := t.reservations[id := t.reservations[id].(status := status, version := version + 1)]))
    else Err(VersionMismatch)
  }

  /** UpdateReservationMetadata; None keeps the stored envelope. */
  function UpdateMetadataRow(t: Tables, id: ResId, version: int, envelope: Option<Stay>): Result<Tables> {
    if id < |t.reservations| && t.reservations[id].version == version then
      var stored := t.reservations[id];
      var env := if envelope.Some? then envelope.value else stored.envelope;
      if env.Valid()
      then Ok(t.(reservations := t.reservations[id := stored.(envelope := env, version := version + 1)]))
      else Err(CheckViolation)
    else Err(VersionMismatch)
  }

  // ---- room_inventory_ledger ----

  function SoldTo(res: ResId, item: ItemId): Entry {
    Entry(Some(res), Some(item), Sold, false)
  }

  function DeleteByItem(l: Ledger, item: ItemId): Ledger {
    map s | s in l && l[s].item != Some(item) :: l[s]
  }

  function DeleteByItemFrom(l: Ledger, item: ItemId, from: Day): Ledger {
    map s | s in l && !(l[s].item == Some(item) && from <= s.day) :: l[s]
  }

  function DeleteByReservation(l: Ledger, res: ResId): Ledger {
    map s | s in l && l[s].res != Some(res) :: l[s]
  }

  /** BulkInsertLedgerRows of one sold row per day: foreign key on the room, UNIQUE on (room, date). */
  function InsertNights(h: Hotel, l: Ledger, room: Option<RoomId>, days: seq<Day>, res: ResId, item: ItemId)
    : (r: Result<Ledger>)
    ensures r.Ok? <==> room.Some? && room.value < |h.rooms| && forall d :: d in days ==> Slot(room.value, d) !in l
    ensures r.Ok? ==> forall s :: s in r.value <==> s in l || (s.room == room.value && s.day in days)
    ensures r.Ok? ==> forall s :: s in r.value ==> r.value[s] == if s in l then l[s] else SoldTo(res, item)
    ensures r.Err? ==> r.error == ForeignKey || r.error == SlotTaken
  {
    if room.None? || room.value >= |h.rooms| then Err(ForeignKey)
    else if exists d :: d in days && Slot(room.value, d) in l then Err(SlotTaken)
    else
      var added := set d | d in days :: Slot(room.value, d);
      assert forall s :: s in added <==> s.room == room.value && s.day in days by {
        assert forall s: Slot :: s == Slot(s.room, s.day);
      }
      Ok(map s | s in l.Keys + added :: if s in l then l[s] else SoldTo(res, item))
  }

  /** UpdateLedgerRowRoom: re-rooms the rows of an item; UNIQUE and the foreign key can fail. */
  function MoveRows(h: Hotel, l: Ledger, item: ItemId, room: RoomId): Result<Ledger> {
    var own := set s | s in l && l[s].item == Some(item);
    if own == {} then Ok(l)
    else if room >= |h.rooms| then Err(ForeignKey)
    else if exists s :: s in own && Slot(room, s.day) in l && Slot(room, s.day) !in own then Err(SlotTaken)
    else if exists s, o :: s in own && o in own && s != o && s.day == o.day then Err(SlotTaken)
    else
      var moved := map s | s in own :: Slot(room, s.day) := l[s];
      Ok((map s | s in l && s !in own :: l[s]) + moved)
  }

  /** Moving keeps every other row and puts each row of the item on the same day in the new room. */
  lemma MoveRowsEffect(h: Hotel, l: Ledger, item: ItemId, room: RoomId, l': Ledger)
    requires MoveRows(h, l, item, room) == Ok(l')
    ensures forall s :: s in l && l[s].item != Some(item) ==> s in l' && l'[s] == l[s]
    ensures forall o :: o in l && l[o].item == Some(item) ==> Slot(room, o.day) in l' && l'[Slot(room, o.day)] == l[o]
    ensures forall s :: s in l' && !(s in l && l[s].item != Some(item)) ==>
                          && s.room == room
                          && exists o :: o in l && l[o].item == Some(item) && o.day == s.day && l'[s] == l[o]
  {
    var own := set s | s in l && l[s].item == Some(item);
    if own == {} {
      assert forall s :: s in l ==> s !in own;
    }
  }

  /**
    * ConflictCheckOnLedger as both callers use it: the excluded id is the zero UUID, not NULL, so a row
    * whose item is NULL compares as unknown and is never reported.
    */
  predicate ReportsConflict(l: Ledger, room: RoomId, days: seq<Day>) {
    exists d :: d in days && Slot(room, d) in l && l[Slot(room, d)].Blocks() && l[Slot(room, d)].item.Some?
  }

  predicate FreeOn(l: Ledger, room: RoomId, days: seq<Day>) {
    forall d :: d in days && Slot(room, d) in l ==> !l[Slot(room, d)].Blocks()
  }

  /** SelectRoomForAutoPin from room `from` on: first by name, SKIP LOCKED passes over `locked`. */
  function AutoPinFrom(h: Hotel, l: Ledger, roomType: TypeId, days: seq<Day>, locked: set<RoomId>, from: nat)
    : (r: Option<RoomId>)
    requires from <= |h.rooms|
    ensures r.Some? ==> from <= r.value < |h.rooms| && h.rooms[r.value] == roomType && r.value !in locked
                        && FreeOn(l, r.value, days)
    ensures forall k | from <= k < (if r.Some? then r.value else |h.rooms|)
                       && h.rooms[k] == roomType && k !in locked :: !FreeOn(l, k, days)
    decreases |h.rooms| - from
  {
    if from == |h.rooms| then None
    else if h.rooms[from] == roomType && from !in locked && FreeOn(l, from, days) then Some(from)
    else AutoPinFrom(h, l, roomType, days, locked, from + 1)
  }

  function AutoPin(h: Hotel, l: Ledger, roomType: TypeId, days: seq<Day>, locked: set<RoomId>)
    : (r: Option<RoomId>)
    ensures r.Some? ==> r.value < |h.rooms| && h.rooms[r.value] == roomType && r.value !in locked
                        && FreeOn(l, r.value, days)
    ensures forall k | 0 <= k < (if r.Some? then r.value else |h.rooms|)
                       && h.rooms[k] == roomType && k !in locked :: !FreeOn(l, k, days)
  {
    AutoPinFrom(h, l, roomType, days, locked, 0)
  }

  /** GetBaseRate succeeds for every day: an item without a rate plan needs no lookup. */
  predicate RatesResolve(h: Hotel, roomType: TypeId, plan: Option<PlanId>, days: seq<Day>) {
    plan.Some? ==> forall d :: d in days ==> Rate(roomType, plan.value, Weekday(d)) in h.rates
  }
}
