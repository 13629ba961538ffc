/**
  * Ledger rows that belong to no item (maintenance, decommissioned rooms, manual holds) over whole runs, and what that
  * means for auto-pinning.
  */
module Blocks {
  import opened Basics
  import opened Calendar
  import opened StateMachine
  import opened Tables
  import opened Booking
  import opened Invariants
  import opened Inventory
  import opened Availability
  import opened Reactivation
  import opened Runs

  /** Both ledgers have the same rows without an item. */
  ghost predicate SameBlocks(before: Ledger, after: Ledger) {
    && (forall s :: s in before && before[s].item.None? ==> s in after && after[s] == before[s])
    && (forall s :: s in after && after[s].item.None? ==> s in before && before[s] == after[s])
  }

  lemma InsertKeepsBlocks(t: Tables, input: ItemInput, status: ItemStatus, res: ResId, locked: set<RoomId>)
    requires InsertItem(t, input, status, res, locked).Ok?
    ensures SameBlocks(t.ledger, InsertItem(t, input, status, res, locked).value.ledger)
  {
  }

  lemma {:induction false} InsertAllKeepsBlocks(t: Tables, inputs: seq<ItemInput>, status: ItemStatus, res: ResId,
                                                locked: set<RoomId>)
    requires InsertItems(t, inputs, status, res, locked).Ok?
    ensures SameBlocks(t.ledger, InsertItems(t, inputs, status, res, locked).value.ledger)
  {
    if inputs == [] {
    } else {
      var init := inputs[..|inputs| - 1];
      InsertAllKeepsBlocks(t, init, status, res, locked);
      InsertKeepsBlocks(InsertItems(t, init, status, res, locked).value, inputs[|inputs| - 1], status, res, locked);
    }
  }

  lemma AddItemKeepsBlocks(t: Tables, id: ResId, input: ItemInput, locked: set<RoomId>)
    requires AddItem(t, id, input, locked).Ok?
    ensures SameBlocks(t.ledger, AddItem(t, id, input, locked).value.ledger)
  {
    InsertKeepsBlocks(t, input, Booked, id, locked);
    var t1 := InsertItem(t, input, Booked, id, locked).value;
    EnvelopeKeeps(t1, id, RecomputeEnvelope(t1, id).value);
  }

  lemma CancelKeepsBlocks(t: Tables, id: ResId, version: int)
    requires LedgerSound(t) && CancelWrites(t, id, version).Ok?
    ensures SameBlocks(t.ledger, CancelWrites(t, id, version).value.ledger)
  {
  }

  lemma UpdateKeepsBlocks(t: Tables, i: ItemId, version: int, stay: Stay, room: Option<RoomId>)
    requires TablesValid(t) && UpdateItem(t, i, version, stay, room).Ok?
    ensures SameBlocks(t.ledger, UpdateItem(t, i, version, stay, room).value.ledger)
  {
    UpdateWritesDelta(t, i, version, stay, room);
    DeltaRows(t, i, stay, room);
  }

  lemma AssignKeepsBlocks(t: Tables, i: ItemId, version: int, room: RoomId, mayMove: bool, mayMutate: bool)
    requires AssignRoom(t, i, version, room, mayMove, mayMutate).Ok?
    ensures SameBlocks(t.ledger, AssignRoom(t, i, version, room, mayMove, mayMutate).value.ledger)
  {
    var t' := AssignRoom(t, i, version, room, mayMove, mayMutate).value;
    MoveRowsEffect(t.hotel, t.ledger, i, room, t'.ledger);
  }

  lemma ItemActionKeepsBlocks(t: Tables, op: Op)
    requires op.DoCancelItem? || op.DoCheckinItem? || op.DoCheckoutItem? || op.DoMarkNoShow?
    requires Exec(t, op).Ok?
    ensures SameBlocks(t.ledger, Exec(t, op).value.ledger)
  {
  }

  lemma RequestKeepsBlocks(t: Tables, op: Op)
    requires TablesValid(t) && Exec(t, op).Ok?
    ensures SameBlocks(t.ledger, Exec(t, op).value.ledger)
  {
    match op
    case DoCreate(source, walkin, inputs, now, midnightToday, locked) =>
      var status := InitialStatus(source, walkin);
      var row := Reservation(status, InputHull(inputs), 1, ExpiresAt(source, status, now));
      InsertAllKeepsBlocks(t.(reservations := t.reservations + [row]), inputs, InitialItemStatus(source, walkin),
                           |t.reservations|, locked);
    case DoCancel(id, version) => CancelKeepsBlocks(t, id, version);
    case DoReactivate(id, version, now, mayBackdate, locked) =>
      ReactivationSells(t, id, version, now, mayBackdate, locked, Exec(t, op).value);
    case DoAddItem(id, _, input, locked) => AddItemKeepsBlocks(t, id, input, locked);
    case DoUpdateItem(i, version, stay, room) => UpdateKeepsBlocks(t, i, version, stay, room);
    case DoAssignRoom(i, version, room, mayMove, mayMutate) => AssignKeepsBlocks(t, i, version, room, mayMove,
                                                                                 mayMutate);
    case DoConfirm(_, _) =>
    case DoUpdateMetadata(_, _) =>
    case DoCheckinAll(_) =>
    case DoCheckoutAll(_) =>
    case _ => ItemActionKeepsBlocks(t, op);
  }

  lemma StepKeepsBlocks(s: System, e: Event)
    requires SystemValid(s)
    ensures SameBlocks(s.tables.ledger, Next(s, e).tables.ledger)
  {
    var t := s.tables;
    match e
    case Request(op) =>
      if Exec(t, op).Ok? {
        RequestKeepsBlocks(t, op);
      }
    case SweepHold(id, seen) =>
      if (id, seen) in s.holds && ExpireHold(t, id, seen).Ok? {
        CancelKeepsBlocks(t, id, seen.version);
      }
    case _ =>
  }

  /** No run of requests and sweeps ever adds, changes or removes a row that belongs to no item. */
  lemma {:induction false} RunKeepsBlocks(s: System, es: seq<Event>)
    requires SystemValid(s)
    ensures SameBlocks(s.tables.ledger, Run(s, es).tables.ledger)
  {
    if es == [] {
    } else {
      var init := es[..|es| - 1];
      RunKeepsBlocks(s, init);
      RunKeepsValid(s, init);
      StepKeepsBlocks(Run(s, init), es[|es| - 1]);
    }
  }

  /** A ledger of blocking rows stays one over every run. */
  lemma RunKeepsAllBlocking(s: System, es: seq<Event>)
    requires SystemValid(s) && AllBlocking(s.tables.ledger)
    ensures AllBlocking(Run(s, es).tables.ledger)
  {
    RunKeepsBlocks(s, es);
    RunKeepsValid(s, es);
    var t := Run(s, es).tables;
    forall x | x in t.ledger ensures t.ledger[x].Blocks() {
      assert RowFits(t, x, t.ledger[x]);
    }
  }

  /**
    * Over whole runs: from any valid start with blocking rows only, creating a reservation of unassigned items after
    * any run never meets a uniqueness, overlap or foreign-key error, and on success each item holds exactly its
    * nights in one room of its type and no older row is touched.
    */
  lemma CreateNeverDoubleBooks(s: System, es: seq<Event>, source: Source, walkin: bool, inputs: seq<ItemInput>,
                               now: int, midnightToday: int, locked: set<RoomId>)
    requires SystemValid(s) && AllBlocking(s.tables.ledger)
    requires forall k :: 0 <= k < |inputs| ==> inputs[k].room.None?
    ensures var t := Run(s, es).tables;
            BatchOutcome(t, inputs, Create(t, source, walkin, inputs, now, midnightToday, locked))
  {
    RunKeepsAllBlocking(s, es);
    RunKeepsValid(s, es);
    var t := Run(s, es).tables;
    var status := InitialStatus(source, walkin);
    var row := Reservation(status, InputHull(inputs), 1, ExpiresAt(source, status, now));
    var t1 := t.(reservations := t.reservations + [row]);
    KeptSound(t, t1);
    var r := InsertItems(t1, inputs, InitialItemStatus(source, walkin), |t.reservations|, locked);
    AutoPinNeverDoubleBooks(t1, inputs, InitialItemStatus(source, walkin), |t.reservations|, locked);
    SameOutcome(t1, t, inputs, r);
  }

  lemma SameOutcome(t1: Tables, t: Tables, inputs: seq<ItemInput>, r: Result<Tables>)
    requires BatchOutcome(t1, inputs, r) && t1 == t.(reservations := t1.reservations)
    ensures BatchOutcome(t, inputs, r)
  {
  }
}
