/**
  * What each booking transaction does to the tables.  An Err result stands for a rolled-back transaction.
  * Inputs that come from the request context (the If-Match version, permissions, the clock) and the set of
  * room rows locked by other transactions are parameters.
  */
module Booking {
  import opened Basics
  import opened Calendar
  import opened StateMachine
  import opened Tables

  datatype Source = Website | Internal | Ota | Deferred

  datatype ItemInput = ItemInput(
    roomType: TypeId, stay: Stay, room: Option<RoomId>, plan: Option<PlanId>, guests: int)

  // ---- envelopes ----

  function Earlier(a: Day, b: Day): Day {
    if b < a then b else a
  }

  function Later(a: Day, b: Day): Day {
    if b > a then b else a
  }

  /** The least stay that covers all of `stays`; Go's zero times when there are none. */
  function Hull(stays: seq<Stay>): Stay {
    if stays == [] then Stay(ZERO_DAY, ZERO_DAY)
    else if |stays| == 1 then stays[0]
    else
      var h, last := Hull(stays[..|stays| - 1]), stays[|stays| - 1];
      Stay(Earlier(h.arrival, last.arrival), Later(h.departure, last.departure))
  }

  function StaysOf(items: seq<Item>, ids: seq<ItemId>): (stays: seq<Stay>)
    requires forall k :: 0 <= k < |ids| ==> ids[k] < |items|
    ensures |stays| == |ids|
  {
    seq(|ids|, k requires 0 <= k < |ids| => items[ids[k]].stay)
  }

  function LiveHull(items: seq<Item>, res: ResId): Stay {
    Hull(StaysOf(items, LiveItems(items, res)))
  }

  function InputHull(inputs: seq<ItemInput>): Stay {
    Hull(seq(|inputs|, k requires 0 <= k < |inputs| => inputs[k].stay))
  }

  /** recomputeEnvelope: a zero bound skips the write. */
  function RecomputeEnvelope(t: Tables, res: ResId): Result<Tables> {
    var h := LiveHull(t.items, res);
    if h.arrival == ZERO_DAY || h.departure == ZERO_DAY then Ok(t)
    else if res >= |t.reservations| then Err(NotFound)
    else UpdateMetadataRow(t, res, t.reservations[res].version, Some(h))
  }

  // ---- claiming inventory ----

  /** insertItemLedger for item `i`. */
  function ClaimNights(t: Tables, i: ItemId, room: Option<RoomId>, days: seq<Day>): Result<Tables>
    requires i < |t.items|
  {
    var item := t.items[i];
    if days == [] then Ok(t)
    else if !RatesResolve(t.hotel, item.roomType, item.plan, days) then Err(NoRate)
    else
      var l :- InsertNights(t.hotel, t.ledger, room, days, item.res, i);
      Ok(t.(ledger := l))
  }

  /** reactivateItemInventory. */
  function Reclaim(t: Tables, i: ItemId, locked: set<RoomId>): Result<Tables>
    requires i < |t.items|
  {
    var item := t.items[i];
    var days := Nights(item.stay);
    if days == [] then Ok(t)
    else if item.room.Some? then
      if ReportsConflict(t.ledger, item.room.value, days) then Err(RoomNotAvailable)
      else ClaimNights(t, i, item.room, days)
    else
      var room := AutoPin(t.hotel, t.ledger, item.roomType, days, locked);
      if room.None? then Err(NoFreeRoom) else ClaimNights(t, i, room, days)
  }

  predicate Stored(t: Tables, ids: seq<ItemId>) {
    forall k :: 0 <= k < |ids| ==> ids[k] < |t.items|
  }

  /** The loop over reactivated items. */
  function ReclaimAll(t: Tables, ids: seq<ItemId>, locked: set<RoomId>): (r: Result<Tables>)
    requires Stored(t, ids)
    ensures r.Ok? ==> r.value == t.(ledger := r.value.ledger)
  {
    if ids == [] then Ok(t)
    else
      var init, last := ids[..|ids| - 1], ids[|ids| - 1];
      var t1 :- ReclaimAll(t, init, locked);
      Reclaim(t1, last, locked)
  }

  predicate Occupiable(h: Hotel, input: ItemInput) {
    && input.roomType in h.limits
    && input.guests >= h.limits[input.roomType].min
    && (h.limits[input.roomType].max > 0 ==> input.guests <= h.limits[input.roomType].max)
  }

  function NewItem(input: ItemInput, status: ItemStatus, res: ResId): Item {
    Item(res, input.roomType, input.room, input.plan, input.stay, false, status, 1, true)
  }

  /** insertSingleItem: the new item keeps a NULL room when its room was auto-pinned. */
  function InsertItem(t: Tables, input: ItemInput, status: ItemStatus, res: ResId, locked: set<RoomId>)
    : Result<Tables>
  {
    var days := Nights(input.stay);
    if input.roomType !in t.hotel.limits then Err(NotFound)
    else if !Occupiable(t.hotel, input) then Err(Occupancy)
    else if !RatesResolve(t.hotel, input.roomType, input.plan, days) then Err(NoRate)
    else
      var t1 :- CreateItemRow(t, NewItem(input, status, res));
      var room := if input.room.Some? then input.room
                  else AutoPin(t.hotel, t.ledger, input.roomType, days, locked);
      if room.None? then Err(NoFreeRoom)
      else
        var l :- InsertNights(t.hotel, t.ledger, room, days, res, |t.items|);
        Ok(t1.(ledger := l))
  }

  /** insertAllItems. */
  function InsertItems(t: Tables, inputs: seq<ItemInput>, status: ItemStatus, res: ResId, locked: set<RoomId>)
    : Result<Tables>
  {
    if inputs == [] then Ok(t)
    else
      var t1 :- InsertItems(t, inputs[..|inputs| - 1], status, res, locked);
      InsertItem(t1, inputs[|inputs| - 1], status, res, locked)
  }

  // ---- creation and confirmation ----

  predicate WalkIn(source: Source, walkin: bool) {
    source == Internal && walkin
  }

  function InitialStatus(source: Source, walkin: bool): ReservationStatus {
    if WalkIn(source, walkin) then ResCheckedIn else if source == Ota then Confirmed else Hold
  }

  function InitialItemStatus(source: Source, walkin: bool): ItemStatus {
    if WalkIn(source, walkin) then CheckedIn else Booked
  }

  /** computeExpiresAt. */
  function ExpiresAt(source: Source, status: ReservationStatus, now: int): Option<int> {
    if status != Hold then None else Some(now + if source == Website then 900 else 1800)
  }

  /** CreateReservation; `midnightToday` is midnight in the property's time zone. */
  function Create(t: Tables, source: Source, walkin: bool, inputs: seq<ItemInput>, now: int, midnightToday: int,
                  locked: set<RoomId>): Result<Tables>
  {
    if source == Deferred then Err(SourceDeferred)
    else if WalkIn(source, walkin) && exists k :: 0 <= k < |inputs| && inputs[k].room.None? then Err(UnassignedItems)
    else if !WalkIn(source, walkin) && exists k :: 0 <= k < |inputs| && Midnight(inputs[k].stay.arrival) < midnightToday
    then Err(InvalidDates)
    else CreateInTx(t, source, walkin, inputs, now, locked)
  }

  /** createReservationInTx. */
  function CreateInTx(t: Tables, source: Source, walkin: bool, inputs: seq<ItemInput>, now: int, locked: set<RoomId>)
    : Result<Tables>
  {
    var status, envelope := InitialStatus(source, walkin), InputHull(inputs);
    if !envelope.Valid() then Err(CheckViolation)
    else
      var row := Reservation(status, envelope, 1, ExpiresAt(source, status, now));
      InsertItems(t.(reservations := t.reservations + [row]), inputs, InitialItemStatus(source, walkin),
                  |t.reservations|, locked)
  }

  /** ConfirmReservation: a confirmed reservation is returned as it is, before any version check. */
  function Confirm(t: Tables, id: ResId, version: int): Result<Tables> {
    if id >= |t.reservations| then Err(NotFound)
    else if t.reservations[id].status == Confirmed then Ok(t)
    else if !ReservationMove(t.reservations[id].status, Confirmed) then Err(InvalidTransition)
    else UpdateStatus(t, id, version, Confirmed)
  }

  /** UpdateMetadata: only the version of the row is modelled. */
  function UpdateMetadata(t: Tables, id: ResId, version: int): Result<Tables> {
    UpdateMetadataRow(t, id, version, None)
  }

  // ---- lifecycle ----

  predicate HasCheckedIn(items: seq<Item>, res: ResId) {
    exists i :: 0 <= i < |items| && items[i].live && items[i].res == res && items[i].status == CheckedIn
  }

  /** The three writes shared by CancelReservation and the hold sweep. */
  function CancelWrites(t: Tables, id: ResId, version: int): Result<Tables> {
    UpdateStatus(t.(items := CancelItems(t.items, id), ledger := DeleteByReservation(t.ledger, id)),
                 id, version, ResCancelled)
  }

  function Cancel(t: Tables, id: ResId, version: int): Result<Tables> {
    if id >= |t.reservations| then Err(NotFound)
    else if !ReservationMove(t.reservations[id].status, ResCancelled) then Err(InvalidTransition)
    else if HasCheckedIn(t.items, id) then Err(ItemsCheckedIn)
    else CancelWrites(t, id, version)
  }

  function CancelItem(t: Tables, i: ItemId, version: int): Result<Tables> {
    if !LiveItem(t, i) then Err(NotFound)
    else if !ItemMove(t.items[i].status, Cancelled) then Err(InvalidTransition)
    else
      var t1 :- UpdateItemRow(t, i, version, t.items[i].room, t.items[i].stay, Cancelled);
      Ok(t1.(ledger := DeleteByItem(t1.ledger, i)))
  }

  function CheckinItem(t: Tables, i: ItemId, version: int): Result<Tables> {
    if !LiveItem(t, i) then Err(NotFound)
    else if t.items[i].status != Booked then Err(InvalidTransition)
    else if t.items[i].room.None? then Err(UnassignedItems)
    else UpdateItemRow(t, i, version, t.items[i].room, t.items[i].stay, CheckedIn)
  }

  function CheckoutItem(t: Tables, i: ItemId, version: int): Result<Tables> {
    if !LiveItem(t, i) then Err(NotFound)
    else if t.items[i].status != CheckedIn then Err(InvalidTransition)
    else UpdateItemRow(t, i, version, t.items[i].room, t.items[i].stay, CheckedOut)
  }

  function MarkNoShow(t: Tables, i: ItemId, version: int, now: int): Result<Tables> {
    if !LiveItem(t, i) then Err(NotFound)
    else if !ItemMove(t.items[i].status, NoShow) then Err(InvalidTransition)
    else if now < Midnight(t.items[i].stay.arrival) then Err(InvalidDates)
    else
      var t1 :- UpdateItemRow(t, i, version, t.items[i].room, t.items[i].stay, NoShow);
      Ok(t1.(ledger := DeleteByItemFrom(t1.ledger, i, DayOf(now))))
  }

  predicate CheckinReady(item: Item, res: ResId) {
    item.live && item.res == res && item.status == Booked && item.room.Some?
  }

  function CheckedInItem(item: Item, res: ResId): Item {
    if CheckinReady(item, res) then item.(status := CheckedIn, version := item.version + 1) else item
  }

  /** CheckinReservation: every live booked item with a room is checked in, the others are reported as failed. */
  function BatchCheckin(t: Tables, res: ResId): Tables {
    t.(items := seq(|t.items|, i requires 0 <= i < |t.items| => CheckedInItem(t.items[i], res)))
  }

  predicate CheckoutReady(item: Item, res: ResId) {
    item.live && item.res == res && item.status == CheckedIn
  }

  function CheckedOutItem(item: Item, res: ResId): Item {
    if CheckoutReady(item, res) then item.(status := CheckedOut, version := item.version + 1) else item
  }

  /** CheckoutReservation. */
  function BatchCheckout(t: Tables, res: ResId): Tables {
    t.(items := seq(|t.items|, i requires 0 <= i < |t.items| => CheckedOutItem(t.items[i], res)))
  }

  predicate Past(t: Tables, id: ResId, now: int)
    requires id < |t.reservations|
  {
    Midnight(t.reservations[id].envelope.departure) < now
  }

  /** ReactivateReservation. */
  function Reactivate(t: Tables, id: ResId, version: int, now: int, mayBackdate: bool, locked: set<RoomId>)
    : Result<Tables>
  {
    if id >= |t.reservations| then Err(NotFound)
    else if !ReservationMove(t.reservations[id].status, Confirmed) then Err(InvalidTransition)
    else if Past(t, id, now) && !mayBackdate then Err(InvalidTransition)
    else
      var t1 :- UpdateStatus(t, id, version, Confirmed);
      var items := ReviveItems(t1.items, id);
      if !Exclusive(items) then Err(StaysOverlap)
      else ReclaimAll(t1.(items := items), LiveItems(items, id), locked)
  }

  // ---- item changes ----

  function AddItem(t: Tables, id: ResId, input: ItemInput, locked: set<RoomId>): Result<Tables> {
    if id >= |t.reservations| then Err(NotFound)
    else if TerminalReservation(t.reservations[id].status) then Err(Terminal)
    else
      var t1 :- InsertItem(t, input, Booked, id, locked);
      RecomputeEnvelope(t1, id)
  }

  /** The ledger part of UpdateItem when the dates change: rebuild, trim or extend. */
  function ShiftLedger(t: Tables, i: ItemId, stay: Stay, room: Option<RoomId>): Result<Tables>
    requires i < |t.items|
  {
    var oldNights, newNights := Nights(t.items[i].stay), Nights(stay);
    var removed, added := Minus(oldNights, newNights), Minus(newNights, oldNights);
    if removed != [] && added != [] then
      ClaimNights(t.(ledger := DeleteByItem(t.ledger, i)), i, room, newNights)
    else if removed != [] then
      Ok(t.(ledger := DeleteByItemFrom(t.ledger, i, removed[0])))
    else ClaimNights(t, i, room, added)
  }

  /** UpdateItem without its room-type and rate-plan branches; the envelope is recomputed before the item row. */
  function UpdateItem(t: Tables, i: ItemId, version: int, stay: Stay, room: Option<RoomId>): Result<Tables> {
    if !LiveItem(t, i) then Err(NotFound)
    else if !stay.Valid() then Err(InvalidDates)
    else
      var item := t.items[i];
      var effective := if room.Some? then room else item.room;
      if stay != item.stay then
        var t1 :- ShiftLedger(t, i, stay, effective);
        var t2 :- RecomputeEnvelope(t1, item.res);
        UpdateItemRow(t2, i, version, effective, stay, item.status)
      else if room.Some? && room != item.room then
        var l :- MoveRows(t.hotel, t.ledger, i, room.value);
        UpdateItemRow(t.(ledger := l), i, version, effective, stay, item.status)
      else UpdateItemRow(t, i, version, effective, stay, item.status)
  }

  /** UpdateItemStayPeriod; no route reaches it. */
  function UpdateStayPeriod(t: Tables, i: ItemId, version: int, stay: Stay, mayMutate: bool): Result<Tables> {
    if !LiveItem(t, i) then Err(NotFound)
    else if !stay.Valid() then Err(InvalidDates)
    else if t.items[i].status == CheckedIn && !mayMutate then Err(MissingPermission)
    else if t.items[i].status == CheckedIn && stay.arrival != t.items[i].stay.arrival then Err(InvalidDates)
    else
      var t1 := if t.items[i].status == CheckedIn
                then t.(ledger := DeleteByItemFrom(t.ledger, i, stay.departure)) else t;
      var t2 :- UpdateItemRow(t1, i, version, t.items[i].room, stay, t.items[i].status);
      RecomputeEnvelope(t2, t.items[i].res)
  }

  /** AssignRoom; `mayMove` is the do-not-move permission together with a reason. */
  function AssignRoom(t: Tables, i: ItemId, version: int, room: RoomId, mayMove: bool, mayMutate: bool)
    : Result<Tables>
  {
    if !LiveItem(t, i) then Err(NotFound)
    else if t.items[i].doNotMove && !mayMove then Err(DoNotMove)
    else if t.items[i].status == CheckedIn && !mayMutate then Err(MissingPermission)
    else
      var t1 :- UpdateItemRow(t, i, version, Some(room), t.items[i].stay, t.items[i].status);
      var l :- MoveRows(t.hotel, t1.ledger, i, room);
      Ok(t1.(ledger := l))
  }

  // ---- sweeps: the transaction each one runs for a row it found earlier ----

  /** cancelHoldTx: a version mismatch rolls everything back and is not reported as an error. */
  function ExpireHold(t: Tables, id: ResId, seen: Reservation): Result<Tables> {
    CancelWrites(t, id, seen.version)
  }

  /** markOverstayTx: re-checks the status, then writes the row it found under that row's version. */
  function MarkOverstay(t: Tables, i: ItemId, seen: Item): Result<Tables> {
    if i >= |t.items| || t.items[i].status != CheckedIn then Err(Skipped)
    else UpdateItemRow(t, i, seen.version, seen.room, seen.stay, Overstay)
  }

  /** archiveReservationTx. */
  function Archive(t: Tables, id: ResId, seen: Reservation): Result<Tables> {
    UpdateStatus(t.(items := RetireItems(t.items, id)), id, seen.version, ResArchived)
  }

  /** FindExpiredHolds, FindOverstays and FindArchivableReservations on one row. */
  predicate ExpiredHold(r: Reservation, now: int) {
    r.status == Hold && r.expiresAt.Some? && r.expiresAt.value < now
  }

  predicate OverdueItem(item: Item, now: int) {
    item.status == CheckedIn && Midnight(item.stay.departure) + 6000 < now
  }

  predicate Archivable(r: Reservation) {
    r.status == ResCheckedOut || r.status == ResCancelled
  }
}
