/**
  * The booking service as it runs: statements change the tables one after the other, and a transaction that
  * fails restores what it found.  Each transaction is proved to be one step of Runs that keeps the invariants, and
  * the backend as a whole to run as Runs does.
  */
module Service {
  import opened Basics
  import opened Calendar
  import opened StateMachine
  import opened Tables
  import opened Booking
  import opened Invariants
  import opened Runs

  /** A transaction that ended with `r` and tables `after` did what `spec` says, and rolled back on an error. */
  predicate Performs(before: Tables, after: Tables, r: Result<()>, spec: Result<Tables>) {
    && (spec.Ok? ==> r.Ok? && after == spec.value)
    && (spec.Err? ==> r == Err(spec.error) && after == before)
  }

  /** The transaction is the step that Runs takes for `op`, reports its error, and keeps all invariants. */
  predicate Serves(before: Tables, after: Tables, r: Result<()>, op: Op) {
    Performs(before, after, r, Exec(before, op)) && Good(before, after)
  }

  /** What a request will keep, known before it runs. */
  lemma ExecGood(t: Tables, op: Op)
    requires TablesValid(t)
    ensures Good(t, t) && (Exec(t, op).Ok? ==> Good(t, Exec(t, op).value))
  {
    if Exec(t, op).Ok? {
      RequestGood(t, op);
    }
  }

  datatype BatchLine = BatchLine(item: ItemId, ok: bool)

  /** One line per live item, in order: who was ready for check-in. */
  function BatchCheckinLines(items: seq<Item>, ids: seq<ItemId>, res: ResId): (lines: seq<BatchLine>)
    requires forall k :: 0 <= k < |ids| ==> ids[k] < |items|
  {
    seq(|ids|, k requires 0 <= k < |ids| => BatchLine(ids[k], CheckinReady(items[ids[k]], res)))
  }

  /** Checking out is also reported as done for an item that is already over. */
  function BatchCheckoutLines(items: seq<Item>, ids: seq<ItemId>, res: ResId): (lines: seq<BatchLine>)
    requires forall k :: 0 <= k < |ids| ==> ids[k] < |items|
  {
    seq(|ids|, k requires 0 <= k < |ids| =>
      BatchLine(ids[k], TerminalItem(items[ids[k]].status) || CheckoutReady(items[ids[k]], res)))
  }

  class Database {
    const hotel: Hotel
    var reservations: seq<Reservation>
    var items: seq<Item>
    var ledger: Ledger

    function View(): Tables
      reads this
    {
      Tables(hotel, reservations, items, ledger)
    }

    /** Valid items and a sound ledger: what every transaction may rely on and keeps. */
    ghost predicate Valid()
      reads this
    {
      TablesValid(View())
    }

    constructor (hotel: Hotel)
      ensures View() == Tables(hotel, [], [], map[]) && Valid()
    {
      this.hotel := hotel;
      reservations, items, ledger := [], [], map[];
    }

    method Rollback(saved: Tables)
      requires saved.hotel == hotel
      modifies this
      ensures View() == saved
    {
      reservations, items, ledger := saved.reservations, saved.items, saved.ledger;
    }

    // ---- statements ----

    method UpdateReservationStatus(id: ResId, version: int, status: ReservationStatus) returns (rows: nat)
      modifies this`reservations
      ensures rows == if UpdateStatus(old(View()), id, version, status).Ok? then 1 else 0
      ensures View() == if rows == 1 then UpdateStatus(old(View()), id, version, status).value else old(View())
    {
      rows := 0;
      if id < |reservations| && reservations[id].version == version {
        reservations := reservations[id := reservations[id].(status := status, version := version + 1)];
        rows := 1;
      }
    }

    method UpdateReservationMetadata(id: ResId, version: int, envelope: Option<Stay>) returns (r: Result<()>)
      modifies this`reservations
      ensures Performs(old(View()), View(), r, UpdateMetadataRow(old(View()), id, version, envelope))
    {
      if id >= |reservations| || reservations[id].version != version {
        return Err(VersionMismatch);
      }
      var row := reservations[id].(version := version + 1);
      if envelope.Some? {
        row := row.(envelope := envelope.value);
      }
      if !row.envelope.Valid() {
        return Err(CheckViolation);
      }
      reservations := reservations[id := row];
      return Ok(());
    }

    /** The constraint checks of a statement that writes row `i`. */
    method StoreItems(rows: seq<Item>, i: ItemId) returns (r: Result<()>)
      requires i < |rows|
      modifies this`items
      ensures Performs(old(View()), View(), r, WriteItems(old(View()), rows, i))
    {
      if !rows[i].stay.Valid() {
        return Err(CheckViolation);
      }
      if rows[i].room.Some? && rows[i].room.value >= |hotel.rooms| {
        return Err(ForeignKey);
      }
      if !Exclusive(rows) {
        return Err(StaysOverlap);
      }
      items := rows;
      return Ok(());
    }

    method UpdateReservationItem(i: ItemId, version: int, room: Option<RoomId>, stay: Stay, status: ItemStatus)
      returns (r: Result<()>)
      modifies this`items
      ensures Performs(old(View()), View(), r, UpdateItemRow(old(View()), i, version, room, stay, status))
    {
      if i >= |items| || items[i].version != version {
        return Err(VersionMismatch);
      }
      var row := items[i].(stay := stay, status := status, version := version + 1);
      if room.Some? {
        row := row.(room := room);
      }
      r := StoreItems(items[i := row], i);
    }

    method CreateReservationItem(row: Item) returns (r: Result<()>)
      modifies this`items
      ensures Performs(old(View()), View(), r, CreateItemRow(old(View()), row))
    {
      r := StoreItems(items + [row], |items|);
    }

    /** One row at a time; a violated constraint undoes the whole statement. */
    method BulkInsertLedgerRows(room: Option<RoomId>, days: seq<Day>, res: ResId, item: ItemId) returns (r: Result<()>)
      requires Ascending(days)
      modifies this`ledger
      ensures var spec := InsertNights(hotel, old(ledger), room, days, res, item);
              if spec.Ok? then r.Ok? && ledger == spec.value else r == Err(spec.error) && ledger == old(ledger)
    {
      if room.None? || room.value >= |hotel.rooms| {
        return Err(ForeignKey);
      }
      var rows := ledger;
      for k := 0 to |days|
        invariant ledger == old(ledger)
        invariant forall d :: d in days[..k] ==> Slot(room.value, d) !in ledger
        invariant forall s :: s in rows <==> s in ledger || (s.room == room.value && s.day in days[..k])
        invariant forall s :: s in rows ==> rows[s] == if s in ledger then ledger[s] else SoldTo(res, item)
      {
        var slot := Slot(room.value, days[k]);
        assert days[..k + 1] == days[..k] + [days[k]];
        assert days[k] !in days[..k];
        if slot in rows {
          assert days[k] in days && slot in ledger;
          return Err(SlotTaken);
        }
        rows := rows[slot := SoldTo(res, item)];
      }
      assert days[..|days|] == days;
      assert InsertNights(hotel, ledger, room, days, res, item).value == rows;
      ledger := rows;
      return Ok(());
    }

    // ---- helpers of the service ----

    /** insertItemLedger: look up every rate, then insert every row. */
    method InsertItemLedger(i: ItemId, dates: seq<Day>, room: Option<RoomId>) returns (r: Result<()>)
      requires i < |items| && Ascending(dates)
      modifies this`ledger
      ensures Performs(old(View()), View(), r, ClaimNights(old(View()), i, room, dates))
    {
      if |dates| == 0 {
        return Ok(());
      }
      var item := items[i];
      if item.plan.Some? {
        for k := 0 to |dates|
          invariant forall j :: 0 <= j < k ==> Rate(item.roomType, item.plan.value, Weekday(dates[j])) in hotel.rates
          invariant View() == old(View())
        {
          if Rate(item.roomType, item.plan.value, Weekday(dates[k])) !in hotel.rates {
            assert dates[k] in dates;
            return Err(NoRate);
          }
        }
      }
      r := BulkInsertLedgerRows(room, dates, item.res, i);
    }

    /** recomputeEnvelope. */
    method RecomputeStayEnvelope(res: ResId) returns (r: Result<()>)
      modifies this`reservations
      ensures Performs(old(View()), View(), r, RecomputeEnvelope(old(View()), res))
    {
      var ids := LiveItems(items, res);
      ghost var stays := StaysOf(items, ids);
      var lower, upper := ZERO_DAY, ZERO_DAY;
      for k := 0 to |ids|
        invariant View() == old(View())
        invariant Stay(lower, upper) == Hull(stays[..k])
      {
        assert stays[..k + 1][..k] == stays[..k] && ids[k] in ids;
        var stay := items[ids[k]].stay;
        if k == 0 || stay.arrival < lower {
          lower := stay.arrival;
        }
        if k == 0 || stay.departure > upper {
          upper := stay.departure;
        }
      }
      assert stays[..|ids|] == stays;
      if lower == ZERO_DAY || upper == ZERO_DAY {
        return Ok(());
      }
      if res >= |reservations| {
        return Err(NotFound);
      }
      r := UpdateReservationMetadata(res, reservations[res].version, Some(Stay(lower, upper)));
    }

    /** reactivateItemInventory. */
    method ReactivateItemInventory(i: ItemId, locked: set<RoomId>) returns (r: Result<()>)
      requires i < |items|
      modifies this`ledger
      ensures Performs(old(View()), View(), r, Reclaim(old(View()), i, locked))
    {
      var item := items[i];
      var dates := NightsBetween(item.stay.arrival, item.stay.departure);
      if |dates| == 0 {
        return Ok(());
      }
      var room := item.room;
      if item.room.Some? {
        if ReportsConflict(ledger, item.room.value, dates) {
          return Err(RoomNotAvailable);
        }
      } else {
        room := AutoPin(hotel, ledger, item.roomType, dates, locked);
        if room.None? {
          return Err(NoFreeRoom);
        }
      }
      r := InsertItemLedger(i, dates, room);
    }

    /** insertSingleItem; on an error the enclosing transaction rolls back. */
    method InsertSingleItem(input: ItemInput, status: ItemStatus, res: ResId,
                            locked: set<RoomId>) returns (r: Result<()>)
      modifies this`items, this`ledger
      ensures var spec := InsertItem(old(View()), input, status, res, locked);
              if spec.Ok? then r.Ok? && View() == spec.value else r == Err(spec.error)
    {
      if input.roomType !in hotel.limits {
        return Err(NotFound);
      }
      if !Occupiable(hotel, input) {
        return Err(Occupancy);
      }
      var dates := NightsBetween(input.stay.arrival, input.stay.departure);
      if !RatesResolve(hotel, input.roomType, input.plan, dates) {
        return Err(NoRate);
      }
      var created := CreateReservationItem(NewItem(input, status, res));
      if created.Err? {
        return created;
      }
      var room := input.room;
      if input.room.None? {
        room := AutoPin(hotel, ledger, input.roomType, dates, locked);
        if room.None? {
          return Err(NoFreeRoom);
        }
      }
      assert |items| - 1 == |old(items)|;
      r := BulkInsertLedgerRows(room, dates, res, |items| - 1);
    }

    /** insertAllItems. */
    method InsertAllItems(inputs: seq<ItemInput>, status: ItemStatus, res: ResId, locked: set<RoomId>)
      returns (r: Result<()>)
      modifies this`items, this`ledger
      ensures var spec := InsertItems(old(View()), inputs, status, res, locked);
              if spec.Ok? then r.Ok? && View() == spec.value else r == Err(spec.error)
    {
      ghost var before := View();
      for k := 0 to |inputs|
        invariant InsertItems(before, inputs[..k], status, res, locked) == Ok(View())
      {
        assert inputs[..k + 1][..k] == inputs[..k];
        var one := InsertSingleItem(inputs[k], status, res, locked);
        if one.Err? {
          InsertItemsFails(before, inputs, status, res, locked, k + 1);
          return one;
        }
      }
      assert inputs[..|inputs|] == inputs;
      return Ok(());
    }

    // ---- transactions ----

    method CreateReservation(source: Source, walkin: bool, inputs: seq<ItemInput>, now: int, midnightToday: int,
                             locked: set<RoomId>) returns (r: Result<()>)
      requires Valid()
      modifies this
      ensures Valid() && Serves(old(View()), View(), r, DoCreate(source, walkin, inputs, now, midnightToday, locked))
    {
      ExecGood(View(), DoCreate(source, walkin, inputs, now, midnightToday, locked));
      if source == Deferred {
        return Err(SourceDeferred);
      }
      for k := 0 to |inputs|
        invariant View() == old(View())
        invariant WalkIn(source, walkin) ==> forall j :: 0 <= j < k ==> inputs[j].room.Some?
      {
        if WalkIn(source, walkin) && inputs[k].room.None? {
          return Err(UnassignedItems);
        }
      }
      var saved := View();
      for k := 0 to |inputs|
        invariant View() == old(View())
        invariant !WalkIn(source, walkin) ==> forall j :: 0 <= j < k ==>
                                                            Midnight(inputs[j].stay.arrival) >= midnightToday
      {
        if !WalkIn(source, walkin) && Midnight(inputs[k].stay.arrival) < midnightToday {
          return Err(InvalidDates);
        }
      }
      r := CreateReservationInTx(source, walkin, inputs, now, locked);
      if r.Err? {
        Rollback(saved);
      }
    }

    /** createReservationInTx: an error leaves the undoing to the caller. */
    method CreateReservationInTx(source: Source, walkin: bool, inputs: seq<ItemInput>, now: int, locked: set<RoomId>)
      returns (r: Result<()>)
      modifies this
      ensures var spec := CreateInTx(old(View()), source, walkin, inputs, now, locked);
              if spec.Ok? then r.Ok? && View() == spec.value else r == Err(spec.error)
    {
      var envelope := ComputeEnvelope(inputs);
      if !envelope.Valid() {
        return Err(CheckViolation);
      }
      var status := InitialStatus(source, walkin);
      reservations := reservations + [Reservation(status, envelope, 1, ExpiresAt(source, status, now))];
      r := InsertAllItems(inputs, InitialItemStatus(source, walkin), |reservations| - 1, locked);
    }

    /** Notes and the primary guest are not modelled, only the guarded write of the row. */
    method UpdateMetadata(id: ResId, version: int) returns (r: Result<()>)
      requires Valid()
      modifies this
      ensures Valid() && Serves(old(View()), View(), r, DoUpdateMetadata(id, version))
    {
      ExecGood(View(), DoUpdateMetadata(id, version));
      r := UpdateReservationMetadata(id, version, None);
    }

    method ConfirmReservation(id: ResId, version: int) returns (r: Result<()>)
      requires Valid()
      modifies this
      ensures Valid() && Serves(old(View()), View(), r, DoConfirm(id, version))
      ensures r.Ok? ==> id < |reservations| && reservations[id].status == Confirmed
      ensures items == old(items) && ledger == old(ledger)
    {
      ExecGood(View(), DoConfirm(id, version));
      if id >= |reservations| {
        return Err(NotFound);
      }
      if reservations[id].status == Confirmed {
        return Ok(());
      }
      if !ReservationMove(reservations[id].status, Confirmed) {
        return Err(InvalidTransition);
      }
      var rows := UpdateReservationStatus(id, version, Confirmed);
      return if rows == 0 then Err(VersionMismatch) else Ok(());
    }

    /** The version is compared last: the cancelled items and deleted rows come back on a mismatch. */
    method CancelReservation(id: ResId, version: int) returns (r: Result<()>)
      requires Valid()
      modifies this
      ensures Valid() && Serves(old(View()), View(), r, DoCancel(id, version))
      ensures r.Ok? ==> Released(View(), id)
    {
      ExecGood(View(), DoCancel(id, version));
      if Exec(View(), DoCancel(id, version)).Ok? {
        CancelWritesGood(View(), id, version);
      }
      var saved := View();
      if id >= |reservations| {
        return Err(NotFound);
      }
      if !ReservationMove(reservations[id].status, ResCancelled) {
        return Err(InvalidTransition);
      }
      var ids := LiveItems(items, id);
      for k := 0 to |ids|
        invariant View() == old(View())
        invariant forall j :: 0 <= j < k ==> items[ids[j]].status != CheckedIn
      {
        assert ids[k] in ids;
        if items[ids[k]].status == CheckedIn {
          return Err(ItemsCheckedIn);
        }
      }
      assert !HasCheckedIn(items, id) by {
        forall i | 0 <= i < |items| && items[i].live && items[i].res == id ensures items[i].status != CheckedIn {
          assert i in ids;
        }
      }
      items := CancelItems(items, id);
      ledger := DeleteByReservation(ledger, id);
      var rows := UpdateReservationStatus(id, version, ResCancelled);
      if rows == 0 {
        Rollback(saved);
        return Err(VersionMismatch);
      }
      return Ok(());
    }

    method CancelReservationItem(i: ItemId, version: int) returns (r: Result<()>)
      requires Valid()
      modifies this
      ensures Valid() && Serves(old(View()), View(), r, DoCancelItem(i, version))
      ensures r.Ok? ==> i < |items| && items[i].status == Cancelled
      ensures r.Ok? ==> forall s :: s in ledger <==> s in old(ledger) && old(ledger)[s].item != Some(i)
    {
      ExecGood(View(), DoCancelItem(i, version));
      if !LiveItem(View(), i) {
        return Err(NotFound);
      }
      var item := items[i];
      if !ItemMove(item.status, Cancelled) {
        return Err(InvalidTransition);
      }
      r := UpdateReservationItem(i, version, item.room, item.stay, Cancelled);
      if r.Ok? {
        ledger := DeleteByItem(ledger, i);
      }
    }

    method CheckinReservation(res: ResId) returns (result: seq<BatchLine>)
      requires Valid()
      modifies this
      ensures Valid() && Serves(old(View()), View(), Ok(()), DoCheckinAll(res))
      ensures |result| == |LiveItems(old(items), res)|
      ensures forall k :: 0 <= k < |result| ==>
                            var i := LiveItems(old(items), res)[k];
                            var was := old(items)[i];
                            result[k] == BatchLine(i, was.status == Booked && was.room.Some?)
    {
      ExecGood(View(), DoCheckinAll(res));
      result := CheckinLoop(res);
    }

    method CheckinLoop(res: ResId) returns (result: seq<BatchLine>)
      modifies this`items
      ensures View() == BatchCheckin(old(View()), res)
      ensures result == BatchCheckinLines(old(items), LiveItems(old(items), res), res)
    {
      var ids := LiveItems(items, res);
      ghost var was, target := items, BatchCheckin(View(), res).items;
      ghost var lines := BatchCheckinLines(items, ids, res);
      LiveItemsAscend(items, res, 0);
      result := [];
      for k := 0 to |ids|
        invariant |items| == |was|
        invariant result == lines[..k]
        invariant Halfway(was, items, target, ids, k)
      {
        var i := ids[k];
        HalfwayStep(was, items, target, ids, k);
        assert lines[..k + 1] == lines[..k] + [lines[k]];
        var row, ok := CheckinOne(items[i], res);
        items := items[i := row];
        result := result + [BatchLine(i, ok)];
      }
      assert ids[..|ids|] == ids;
      AllTheWay(was, items, target, ids);
    }

    method CheckoutReservation(res: ResId) returns (result: seq<BatchLine>)
      requires Valid()
      modifies this
      ensures Valid() && Serves(old(View()), View(), Ok(()), DoCheckoutAll(res))
      ensures |result| == |LiveItems(old(items), res)|
      ensures forall k :: 0 <= k < |result| ==>
                            var i := LiveItems(old(items), res)[k];
                            var was := old(items)[i];
                            result[k] == BatchLine(i, was.status in {CheckedOut, Cancelled, Archived, CheckedIn})
    {
      ExecGood(View(), DoCheckoutAll(res));
      result := CheckoutLoop(res);
    }

    method CheckoutLoop(res: ResId) returns (result: seq<BatchLine>)
      modifies this`items
      ensures View() == BatchCheckout(old(View()), res)
      ensures result == BatchCheckoutLines(old(items), LiveItems(old(items), res), res)
    {
      var ids := LiveItems(items, res);
      ghost var was, target := items, BatchCheckout(View(), res).items;
      ghost var lines := BatchCheckoutLines(items, ids, res);
      LiveItemsAscend(items, res, 0);
      result := [];
      for k := 0 to |ids|
        invariant |items| == |was|
        invariant result == lines[..k]
        invariant Halfway(was, items, target, ids, k)
      {
        var i := ids[k];
        HalfwayStep(was, items, target, ids, k);
        assert lines[..k + 1] == lines[..k] + [lines[k]];
        var row, ok := CheckoutOne(items[i], res);
        items := items[i := row];
        result := result + [BatchLine(i, ok)];
      }
      assert ids[..|ids|] == ids;
      AllTheWay(was, items, target, ids);
    }

    method CheckinReservationItem(i: ItemId, version: int) returns (r: Result<()>)
      requires Valid()
      modifies this
      ensures Valid() && Serves(old(View()), View(), r, DoCheckinItem(i, version))
      ensures r.Ok? ==> i < |items| && items[i].status == CheckedIn && items[i].room.Some?
      ensures ledger == old(ledger) && reservations == old(reservations)
    {
      ExecGood(View(), DoCheckinItem(i, version));
      if !LiveItem(View(), i) {
        return Err(NotFound);
      }
      if items[i].status != Booked {
        return Err(InvalidTransition);
      }
      if items[i].room.None? {
        return Err(UnassignedItems);
      }
      r := UpdateReservationItem(i, version, items[i].room, items[i].stay, CheckedIn);
    }

    method CheckoutReservationItem(i: ItemId, version: int) returns (r: Result<()>)
      requires Valid()
      modifies this
      ensures Valid() && Serves(old(View()), View(), r, DoCheckoutItem(i, version))
      ensures r.Ok? ==> i < |items| && old(items)[i].status == CheckedIn && items[i].status == CheckedOut
      ensures ledger == old(ledger) && reservations == old(reservations)
    {
      ExecGood(View(), DoCheckoutItem(i, version));
      if !LiveItem(View(), i) {
        return Err(NotFound);
      }
      if items[i].status != CheckedIn {
        return Err(InvalidTransition);
      }
      r := UpdateReservationItem(i, version, items[i].room, items[i].stay, CheckedOut);
    }

    method MarkItemNoShow(i: ItemId, version: int, now: int) returns (r: Result<()>)
      requires Valid()
      modifies this
      ensures Valid() && Serves(old(View()), View(), r, DoMarkNoShow(i, version, now))
      ensures r.Ok? ==> i < |items| && items[i].status == NoShow && items[i].stay.arrival <= DayOf(now)
      ensures r.Ok? ==>
                forall s :: s in ledger <==> s in old(ledger) && (old(ledger)[s].item == Some(i) ==> s.day < DayOf(now))
    {
      ExecGood(View(), DoMarkNoShow(i, version, now));
      if !LiveItem(View(), i) {
        return Err(NotFound);
      }
      if !ItemMove(items[i].status, NoShow) {
        return Err(InvalidTransition);
      }
      if now < Midnight(items[i].stay.arrival) {
        return Err(InvalidDates);
      }
      r := UpdateReservationItem(i, version, items[i].room, items[i].stay, NoShow);
      if r.Ok? {
        ledger := DeleteByItemFrom(ledger, i, DayOf(now));
      }
    }

    method ReactivateReservation(id: ResId, version: int, now: int, mayBackdate: bool, locked: set<RoomId>)
      returns (r: Result<()>)
      requires Valid()
      modifies this
      ensures Valid() && Serves(old(View()), View(), r, DoReactivate(id, version, now, mayBackdate, locked))
    {
      ExecGood(View(), DoReactivate(id, version, now, mayBackdate, locked));
      var saved := View();
      if id >= |reservations| {
        return Err(NotFound);
      }
      if !ReservationMove(reservations[id].status, Confirmed) {
        return Err(InvalidTransition);
      }
      if Midnight(reservations[id].envelope.departure) < now && !mayBackdate {
        return Err(InvalidTransition);
      }
      var rows := UpdateReservationStatus(id, version, Confirmed);
      if rows == 0 {
        return Err(VersionMismatch);
      }
      items := ReviveItems(items, id);
      if !Exclusive(items) {
        Rollback(saved);
        return Err(StaysOverlap);
      }
      r := ReclaimItems(LiveItems(items, id), locked);
      if r.Err? {
        Rollback(saved);
      }
    }

    /** The loop over the reactivated items. */
    method ReclaimItems(ids: seq<ItemId>, locked: set<RoomId>) returns (r: Result<()>)
      requires Stored(View(), ids)
      modifies this`ledger
      ensures var spec := ReclaimAll(old(View()), ids, locked);
              if spec.Ok? then r.Ok? && View() == spec.value else r == Err(spec.error)
    {
      ghost var before := View();
      for k := 0 to |ids|
        invariant ReclaimAll(before, ids[..k], locked) == Ok(View())
      {
        assert ids[..k + 1][..k] == ids[..k];
        r := ReactivateItemInventory(ids[k], locked);
        if r.Err? {
          ReclaimAllFails(before, ids, locked, k + 1);
          return;
        }
      }
      assert ids[..|ids|] == ids;
      return Ok(());
    }

    /** The If-Match version arrives here and is never looked at. */
    method AddReservationItem(id: ResId, version: int, input: ItemInput, locked: set<RoomId>) returns (r: Result<()>)
      requires Valid()
      modifies this
      ensures Valid() && Serves(old(View()), View(), r, DoAddItem(id, version, input, locked))
    {
      ExecGood(View(), DoAddItem(id, version, input, locked));
      var saved := View();
      if id >= |reservations| {
        return Err(NotFound);
      }
      if TerminalReservation(reservations[id].status) {
        return Err(Terminal);
      }
      r := InsertSingleItem(input, Booked, id, locked);
      if r.Ok? {
        r := RecomputeStayEnvelope(id);
      }
      if r.Err? {
        Rollback(saved);
      }
    }

    /** UpdateItem: the ledger and the envelope are written before the item row and its version check. */
    method UpdateReservationStay(i: ItemId, version: int, stay: Stay, room: Option<RoomId>) returns (r: Result<()>)
      requires Valid()
      modifies this
      ensures Valid() && Serves(old(View()), View(), r, DoUpdateItem(i, version, stay, room))
    {
      ExecGood(View(), DoUpdateItem(i, version, stay, room));
      var saved := View();
      if !LiveItem(View(), i) {
        return Err(NotFound);
      }
      if stay.departure <= stay.arrival {
        return Err(InvalidDates);
      }
      var item := items[i];
      var datesChanged := stay.arrival != item.stay.arrival || stay.departure != item.stay.departure;
      var roomChanged := room.Some? && room != item.room;
      var effective := if room.Some? then room else item.room;
      r := Ok(());
      if datesChanged {
        r := ShiftItemLedger(i, stay, effective);
        if r.Ok? {
          r := RecomputeStayEnvelope(item.res);
        }
      } else if roomChanged {
        var moved := MoveRows(hotel, ledger, i, room.value);
        if moved.Ok? {
          ledger := moved.value;
        } else {
          r := Err(moved.error);
        }
      }
      if r.Ok? {
        r := UpdateReservationItem(i, version, effective, stay, item.status);
      }
      if r.Err? {
        Rollback(saved);
      }
    }

    /** The switch over removed and added nights. */
    method ShiftItemLedger(i: ItemId, stay: Stay, room: Option<RoomId>) returns (r: Result<()>)
      requires i < |items|
      modifies this`ledger
      ensures var spec := ShiftLedger(old(View()), i, stay, room);
              if spec.Ok? then r.Ok? && View() == spec.value else r == Err(spec.error)
    {
      var oldNights := NightsBetween(items[i].stay.arrival, items[i].stay.departure);
      var newNights := NightsBetween(stay.arrival, stay.departure);
      var removed := DatesOutside(oldNights, newNights);
      var added := DatesOutside(newNights, oldNights);
      MinusAscends(newNights, oldNights);
      if |removed| > 0 && |added| > 0 {
        ledger := DeleteByItem(ledger, i);
        r := InsertItemLedger(i, newNights, room);
      } else if |removed| > 0 {
        ledger := DeleteByItemFrom(ledger, i, removed[0]);
        r := Ok(());
      } else {
        r := InsertItemLedger(i, added, room);
      }
    }

    method AssignItemRoom(i: ItemId, version: int, room: RoomId, mayMove: bool, mayMutate: bool) returns (r: Result<()>)
      requires Valid()
      modifies this
      ensures Valid() && Serves(old(View()), View(), r, DoAssignRoom(i, version, room, mayMove, mayMutate))
    {
      ExecGood(View(), DoAssignRoom(i, version, room, mayMove, mayMutate));
      var saved := View();
      if !LiveItem(View(), i) {
        return Err(NotFound);
      }
      var item := items[i];
      if item.doNotMove && !mayMove {
        return Err(DoNotMove);
      }
      if item.status == CheckedIn && !mayMutate {
        return Err(MissingPermission);
      }
      r := UpdateReservationItem(i, version, Some(room), item.stay, item.status);
      if r.Err? {
        return;
      }
      var moved := MoveRows(hotel, ledger, i, room);
      if moved.Err? {
        Rollback(saved);
        return Err(moved.error);
      }
      ledger := moved.value;
    }

    // ---- sweep transactions ----

    /** cancelHoldTx: a mismatch is not reported, but nothing of the transaction is committed. */
    method CancelHold(id: ResId, seen: Reservation) returns (committed: bool)
      requires Valid() && SeenReservation(View(), id, seen) && seen.status == Hold
      modifies this
      ensures Valid() && Good(old(View()), View()) && View() == After(old(View()), ExpireHold(old(View()), id, seen))
      ensures committed <==> old(reservations)[id] == seen
      ensures committed ==> Released(View(), id) && OthersUntouched(old(View()), View(), id)
      ensures !committed ==> View() == old(View())
    {
      if reservations[id] == seen {
        CancelWritesGood(View(), id, seen.version);
      }
      var saved := View();
      items := CancelItems(items, id);
      ledger := DeleteByReservation(ledger, id);
      var rows := UpdateReservationStatus(id, seen.version, ResCancelled);
      if rows == 0 {
        Rollback(saved);
      }
      return rows != 0;
    }

    /** markOverstayTx. */
    method MarkItemOverstay(i: ItemId, seen: Item) returns (committed: bool)
      requires Valid() && SeenItem(View(), i, seen) && seen.status == CheckedIn
      modifies this
      ensures Valid() && Good(old(View()), View()) && View() == After(old(View()), MarkOverstay(old(View()), i, seen))
      ensures committed <==> old(items)[i] == seen
      ensures committed ==> items == old(items)[i := seen.(status := Overstay, version := seen.version + 1)]
      ensures !committed ==> View() == old(View())
    {
      if items[i] == seen {
        SameRowFits(View(), i, seen.(status := Overstay, version := seen.version + 1));
        OverstayGood(View(), i, seen);
      }
      if i >= |items| || items[i].status != CheckedIn {
        return false;
      }
      var r := UpdateReservationItem(i, seen.version, seen.room, seen.stay, Overstay);
      return r.Ok?;
    }

    /** archiveReservationTx. */
    method ArchiveReservation(id: ResId, seen: Reservation) returns (committed: bool)
      requires Valid() && SeenReservation(View(), id, seen) && Archivable(seen)
      modifies this
      ensures Valid() && Good(old(View()), View()) && View() == After(old(View()), Archive(old(View()), id, seen))
      ensures committed <==> old(reservations)[id] == seen
      ensures committed ==> reservations[id].status == ResArchived
      ensures committed ==> forall i :: 0 <= i < |items| && items[i].res == id ==> !items[i].live
      ensures !committed ==> View() == old(View())
    {
      if reservations[id] == seen {
        ArchiveGood(View(), id, seen);
      }
      var saved := View();
      items := RetireItems(items, id);
      var rows := UpdateReservationStatus(id, seen.version, ResArchived);
      if rows == 0 {
        Rollback(saved);
      }
      return rows != 0;
    }
  }

  /** The database together with the rows that the sweeps have read and may still act on. */
  class Backend {
    const db: Database
    var holds: set<(ResId, Reservation)>
    var overdue: set<(ItemId, Item)>
    var archivable: set<(ResId, Reservation)>

    ghost function State(): System
      reads this, db
    {
      System(db.View(), holds, overdue, archivable)
    }

    ghost predicate Valid()
      reads this, db
    {
      SystemValid(State())
    }

    constructor (hotel: Hotel)
      ensures Valid() && State() == System(Tables(hotel, [], [], map[]), {}, {}, {}) && fresh(db)
    {
      db := new Database(hotel);
      holds, overdue, archivable := {}, {}, {};
    }

    /** Routes a request to its transaction. */
    method Handle(op: Op) returns (r: Result<()>)
      requires db.Valid()
      modifies db
      ensures db.Valid() && Serves(old(db.View()), db.View(), r, op)
    {
      match op
      case DoCreate(source, walkin, inputs, now, midnightToday, locked) =>
        r := db.CreateReservation(source, walkin, inputs, now, midnightToday, locked);
      case DoConfirm(id, version) => r := db.ConfirmReservation(id, version);
      case DoCancel(id, version) => r := db.CancelReservation(id, version);
      case DoReactivate(id, version, now, mayBackdate, locked) =>
        r := db.ReactivateReservation(id, version, now, mayBackdate, locked);
      case DoUpdateMetadata(id, version) => r := db.UpdateMetadata(id, version);
      case DoAddItem(id, version, input, locked) => r := db.AddReservationItem(id, version, input, locked);
      case DoUpdateItem(i, version, stay, room) => r := db.UpdateReservationStay(i, version, stay, room);
      case DoAssignRoom(i, version, room, mayMove, mayMutate) =>
        r := db.AssignItemRoom(i, version, room, mayMove, mayMutate);
      case DoCancelItem(i, version) => r := db.CancelReservationItem(i, version);
      case DoCheckinItem(i, version) => r := db.CheckinReservationItem(i, version);
      case DoCheckoutItem(i, version) => r := db.CheckoutReservationItem(i, version);
      case DoMarkNoShow(i, version, now) => r := db.MarkItemNoShow(i, version, now);
      case DoCheckinAll(id) =>
        var lines := db.CheckinReservation(id);
        r := Ok(());
      case DoCheckoutAll(id) =>
        var lines := db.CheckoutReservation(id);
        r := Ok(());
    }

    /** A sweep acts on a row it has read; a row it has not read is not its business. */
    method Sweep(e: Event)
      requires Valid() && (e.SweepHold? || e.SweepOverdue? || e.SweepArchivable?)
      modifies db
      ensures State() == Next(old(State()), e)
    {
      match e
      case SweepHold(id, seen) =>
        if (id, seen) in holds {
          assert SeenReservation(State().tables, id, seen);
          var committed := db.CancelHold(id, seen);
        }
      case SweepOverdue(i, seen) =>
        if (i, seen) in overdue {
          assert SeenItem(State().tables, i, seen);
          var committed := db.MarkItemOverstay(i, seen);
        }
      case SweepArchivable(id, seen) =>
        if (id, seen) in archivable {
          assert SeenReservation(State().tables, id, seen);
          var committed := db.ArchiveReservation(id, seen);
        }
    }

    /** FindExpiredHolds, FindOverstays and FindArchivableReservations: remembers matching rows among the named ones. */
    method Find(e: Event)
      requires e.FindHolds? || e.FindOverdue? || e.FindArchivable?
      modifies this
      ensures State() == Next(old(State()), e)
    {
      var t := db.View();
      match e
      case FindHolds(ids, now) =>
        holds := holds + set id | id in ids && id < |t.reservations| && ExpiredHold(t.reservations[id], now)
          :: (id, t.reservations[id]);
      case FindOverdue(ids, now) =>
        overdue := overdue + set i | i in ids && i < |t.items| && OverdueItem(t.items[i], now) :: (i, t.items[i]);
      case FindArchivable(ids) =>
        archivable := archivable + set id | id in ids && id < |t.reservations| && Archivable(t.reservations[id])
          :: (id, t.reservations[id]);
    }

    /** One event is one step of Runs. */
    method Step(e: Event)
      requires Valid()
      modifies this, db
      ensures Valid() && State() == Next(old(State()), e)
    {
      StepKeepsValid(State(), e);
      if e.Request? {
        var r := Handle(e.op);
      } else if e.SweepHold? || e.SweepOverdue? || e.SweepArchivable? {
        Sweep(e);
      } else {
        Find(e);
      }
    }

    /** Whatever the events, the program's state is the state that Runs reaches: its theorems are about this class. */
    method Drive(es: seq<Event>)
      requires Valid()
      modifies this, db
      ensures Valid() && State() == Run(old(State()), es)
    {
      for k := 0 to |es|
        invariant Valid() && State() == Run(old(State()), es[..k])
      {
        assert es[..k + 1][..k] == es[..k];
        Step(es[k]);
      }
      assert es[..|es|] == es;
    }
  }

  /** The items named by the first `k` ids have their target row, the others still have the row they had. */
  ghost predicate Halfway(was: seq<Item>, items: seq<Item>, target: seq<Item>, ids: seq<ItemId>, k: nat)
    requires k <= |ids|
  {
    && |items| == |was| == |target|
    && forall i :: 0 <= i < |was| ==> items[i] == if i in ids[..k] then target[i] else was[i]
  }

  lemma HalfwayStep(was: seq<Item>, items: seq<Item>, target: seq<Item>, ids: seq<ItemId>, k: nat)
    requires k < |ids| && ids[k] < |was| && Halfway(was, items, target, ids, k)
    requires Ascending(ids)
    ensures items[ids[k]] == was[ids[k]]
    ensures Halfway(was, items[ids[k] := target[ids[k]]], target, ids, k + 1)
  {
  }

  lemma AllTheWay(was: seq<Item>, items: seq<Item>, target: seq<Item>, ids: seq<ItemId>)
    requires Halfway(was, items, target, ids, |ids|)
    requires forall i :: 0 <= i < |was| && i !in ids ==> target[i] == was[i]
    ensures items == target
  {
  }

  /** One turn of the check-in loop: the row to store and whether the line reports success. */
  method CheckinOne(item: Item, res: ResId) returns (row: Item, ok: bool)
    requires item.live && item.res == res
    ensures row == CheckedInItem(item, res) && ok == CheckinReady(item, res)
  {
    if item.status != Booked {
      return item, false;
    } else if item.room.None? {
      return item, false;
    }
    return item.(status := CheckedIn, version := item.version + 1), true;
  }

  /** One turn of the check-out loop. */
  method CheckoutOne(item: Item, res: ResId) returns (row: Item, ok: bool)
    requires item.live && item.res == res
    ensures row == CheckedOutItem(item, res) && ok == (TerminalItem(item.status) || CheckoutReady(item, res))
  {
    if TerminalItem(item.status) {
      return item, true;
    } else if item.status == CheckedIn {
      return item.(status := CheckedOut, version := item.version + 1), true;
    }
    return item, false;
  }

  /** computeEnvelope. */
  method ComputeEnvelope(inputs: seq<ItemInput>) returns (envelope: Stay)
    ensures envelope == InputHull(inputs)
  {
    ghost var stays := seq(|inputs|, k requires 0 <= k < |inputs| => inputs[k].stay);
    var lower, upper := ZERO_DAY, ZERO_DAY;
    for k := 0 to |inputs|
      invariant Stay(lower, upper) == Hull(stays[..k])
    {
      assert stays[..k + 1][..k] == stays[..k];
      if k == 0 || inputs[k].stay.arrival < lower {
        lower := inputs[k].stay.arrival;
      }
      if k == 0 || inputs[k].stay.departure > upper {
        upper := inputs[k].stay.departure;
      }
    }
    assert stays[..|inputs|] == stays;
    envelope := Stay(lower, upper);
  }

  /** An insert that fails at some prefix makes the whole batch fail with the same error. */
  lemma {:induction false} InsertItemsFails(t: Tables, inputs: seq<ItemInput>, status: ItemStatus, res: ResId,
                                            locked: set<RoomId>, k: nat)
    requires k <= |inputs| && InsertItems(t, inputs[..k], status, res, locked).Err?
    ensures InsertItems(t, inputs, status, res, locked) == InsertItems(t, inputs[..k], status, res, locked)
  {
    if k < |inputs| {
      var init := inputs[..|inputs| - 1];
      assert init[..k] == inputs[..k];
      InsertItemsFails(t, init, status, res, locked, k);
    } else {
      assert inputs[..k] == inputs;
    }
  }

  lemma {:induction false} ReclaimAllFails(t: Tables, ids: seq<ItemId>, locked: set<RoomId>, k: nat)
    requires k <= |ids| && Stored(t, ids) && ReclaimAll(t, ids[..k], locked).Err?
    ensures ReclaimAll(t, ids, locked) == ReclaimAll(t, ids[..k], locked)
  {
    if k < |ids| {
      var init := ids[..|ids| - 1];
      assert init[..k] == ids[..k];
      ReclaimAllFails(t, init, locked, k);
    } else {
      assert ids[..k] == ids;
    }
  }
}
