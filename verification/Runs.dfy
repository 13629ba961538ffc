/**
  * Every interleaving of the routed booking transactions and the background sweeps.  A service transaction is
  * one step.  A sweep is two: it reads candidate rows, and later runs one transaction per row it has read.
  */
module Runs {
  import opened Basics
  import opened Calendar
  import opened StateMachine
  import opened Tables
  import opened Booking
  import opened Invariants

  /** The routed requests; every op with a `version` comes from a route that demands If-Match. */
  datatype Op =
    | DoCreate(source: Source, walkin: bool, inputs: seq<ItemInput>, now: int, midnightToday: int, locked: set<RoomId>)
    | DoConfirm(id: ResId, version: int)
    | DoCancel(id: ResId, version: int)
    | DoReactivate(id: ResId, version: int, now: int, mayBackdate: bool, locked: set<RoomId>)
    | DoUpdateMetadata(id: ResId, version: int)
    | DoAddItem(id: ResId, version: int, input: ItemInput, locked: set<RoomId>)
    | DoUpdateItem(i: ItemId, version: int, stay: Stay, room: Option<RoomId>)
    | DoAssignRoom(i: ItemId, version: int, newRoom: RoomId, mayMove: bool, mayMutate: bool)
    | DoCancelItem(i: ItemId, version: int)
    | DoCheckinItem(i: ItemId, version: int)
    | DoCheckoutItem(i: ItemId, version: int)
    | DoMarkNoShow(i: ItemId, version: int, now: int)
    | DoCheckinAll(id: ResId)
    | DoCheckoutAll(id: ResId)

  /** AddItem is the one op that ignores the version it was sent. */
  function Exec(t: Tables, op: Op): Result<Tables> {
    match op
    case DoCreate(source, walkin, inputs, now, midnightToday, locked) =>
      Create(t, source, walkin, inputs, now, midnightToday, locked)
    case DoConfirm(id, version) => Confirm(t, id, version)
    case DoCancel(id, version) => Cancel(t, id, version)
    case DoReactivate(id, version, now, mayBackdate, locked) => Reactivate(t, id, version, now, mayBackdate, locked)
    case DoUpdateMetadata(id, version) => UpdateMetadata(t, id, version)
    case DoAddItem(id, version, input, locked) => AddItem(t, id, input, locked)
    case DoUpdateItem(i, version, stay, room) => UpdateItem(t, i, version, stay, room)
    case DoAssignRoom(i, version, room, mayMove, mayMutate) => AssignRoom(t, i, version, room, mayMove, mayMutate)
    case DoCancelItem(i, version) => CancelItem(t, i, version)
    case DoCheckinItem(i, version) => CheckinItem(t, i, version)
    case DoCheckoutItem(i, version) => CheckoutItem(t, i, version)
    case DoMarkNoShow(i, version, now) => MarkNoShow(t, i, version, now)
    case DoCheckinAll(id) => Ok(BatchCheckin(t, id))
    case DoCheckoutAll(id) => Ok(BatchCheckout(t, id))
  }

  /** The tables together with the rows the sweeps have read and may still act on. */
  datatype System = System(
    tables: Tables,
    holds: set<(ResId, Reservation)>,
    overdue: set<(ItemId, Item)>,
    archivable: set<(ResId, Reservation)>)

  /** A Find event reads any of the matching rows: LIMIT and SKIP LOCKED choose `ids`. */
  datatype Event =
    | Request(op: Op)
    | FindHolds(ids: set<ResId>, now: int)
    | SweepHold(id: ResId, seen: Reservation)
    | FindOverdue(items: set<ItemId>, now: int)
    | SweepOverdue(i: ItemId, seenItem: Item)
    | FindArchivable(ids: set<ResId>)
    | SweepArchivable(id: ResId, seen: Reservation)

  function After(t: Tables, r: Result<Tables>): Tables {
    if r.Ok? then r.value else t
  }

  function Next(s: System, e: Event): System {
    var t := s.tables;
    match e
    case Request(op) => s.(tables := After(t, Exec(t, op)))
    case FindHolds(ids, now) =>
      s.(holds := s.holds + set id | id in ids && id < |t.reservations| && ExpiredHold(t.reservations[id], now)
        :: (id, t.reservations[id]))
    case SweepHold(id, seen) =>
      if (id, seen) in s.holds then s.(tables := After(t, ExpireHold(t, id, seen))) else s
    case FindOverdue(items, now) =>
      s.(overdue := s.overdue + set i | i in items && i < |t.items| && OverdueItem(t.items[i], now)
        :: (i, t.items[i]))
    case SweepOverdue(i, seen) =>
      if (i, seen) in s.overdue then s.(tables := After(t, MarkOverstay(t, i, seen))) else s
    case FindArchivable(ids) =>
      s.(archivable := s.archivable + set id | id in ids && id < |t.reservations| && Archivable(t.reservations[id])
        :: (id, t.reservations[id]))
    case SweepArchivable(id, seen) =>
      if (id, seen) in s.archivable then s.(tables := After(t, Archive(t, id, seen))) else s
  }

  function Run(s: System, es: seq<Event>): System {
    if es == [] then s else Next(Run(s, es[..|es| - 1]), es[|es| - 1])
  }

  // ---- the invariant of every run ----

  /** A row that was read is older than the stored row, or it is the stored row. */
  predicate SeenReservation(t: Tables, id: ResId, seen: Reservation) {
    && id < |t.reservations|
    && (t.reservations[id] == seen || seen.version < t.reservations[id].version)
  }

  predicate SeenItem(t: Tables, i: ItemId, seen: Item) {
    i < |t.items| && (t.items[i] == seen || seen.version < t.items[i].version)
  }

  predicate SystemValid(s: System) {
    && TablesValid(s.tables)
    && (forall p :: p in s.holds ==> SeenReservation(s.tables, p.0, p.1) && p.1.status == Hold)
    && (forall p :: p in s.overdue ==> SeenItem(s.tables, p.0, p.1) && p.1.status == CheckedIn)
    && (forall p :: p in s.archivable ==> SeenReservation(s.tables, p.0, p.1) && Archivable(p.1))
  }

  lemma RequestGood(t: Tables, op: Op)
    requires TablesValid(t) && Exec(t, op).Ok?
    ensures Good(t, Exec(t, op).value)
  {
    match op
    case DoCreate(source, walkin, inputs, now, midnightToday, locked) =>
      CreateGood(t, source, walkin, inputs, now, midnightToday, locked);
    case DoConfirm(id, version) =>
      KeptSound(t, Exec(t, op).value);
    case DoCancel(id, version) =>
      CancelWritesGood(t, id, version);
    case DoReactivate(id, version, now, mayBackdate, locked) =>
      ReactivateGood(t, id, version, now, mayBackdate, locked);
    case DoUpdateMetadata(id, version) =>
      KeptSound(t, Exec(t, op).value);
    case DoAddItem(id, version, input, locked) =>
      AddItemGood(t, id, input, locked);
    case DoUpdateItem(i, version, stay, room) =>
      UpdateItemGood(t, i, version, stay, room);
    case DoAssignRoom(i, version, room, mayMove, mayMutate) =>
      AssignRoomGood(t, i, version, room, mayMove, mayMutate);
    case DoCancelItem(i, version) =>
      LifecycleGood(t, i, version, 0);
    case DoCheckinItem(i, version) =>
      LifecycleGood(t, i, version, 0);
    case DoCheckoutItem(i, version) =>
      LifecycleGood(t, i, version, 0);
    case DoMarkNoShow(i, version, now) =>
      LifecycleGood(t, i, version, now);
    case DoCheckinAll(id) =>
      BatchGood(t, id);
    case DoCheckoutAll(id) =>
      BatchGood(t, id);
  }

  lemma StepGood(s: System, e: Event)
    requires SystemValid(s)
    ensures Good(s.tables, Next(s, e).tables)
  {
    var t := s.tables;
    match e
    case Request(op) =>
      if Exec(t, op).Ok? {
        RequestGood(t, op);
      }
    case SweepHold(id, seen) =>
      if (id, seen) in s.holds && ExpireHold(t, id, seen).Ok? {
        CancelWritesGood(t, id, seen.version);
      }
    case SweepOverdue(i, seen) =>
      if (i, seen) in s.overdue && MarkOverstay(t, i, seen).Ok? {
        OverstayGood(t, i, seen);
      }
    case SweepArchivable(id, seen) =>
      if (id, seen) in s.archivable && Archive(t, id, seen).Ok? {
        ArchiveGood(t, id, seen);
      }
    case FindHolds(_, _) =>
    case FindOverdue(_, _) =>
    case FindArchivable(_) =>
  }

  lemma StepKeepsValid(s: System, e: Event)
    requires SystemValid(s)
    ensures SystemValid(Next(s, e))
  {
    StepGood(s, e);
    var t, t' := s.tables, Next(s, e).tables;
    forall p | p in s.holds + s.archivable ensures SeenReservation(t', p.0, p.1) {
      assert ReservationStep(t.reservations[p.0], t'.reservations[p.0]);
    }
    forall p | p in s.overdue ensures SeenItem(t', p.0, p.1) {
      assert ItemStep(t.items[p.0], t'.items[p.0]);
    }
  }

  /** Ledger soundness, exclusive rooms and usable snapshots hold after every run. */
  lemma {:induction false} RunKeepsValid(s: System, es: seq<Event>)
    requires SystemValid(s)
    ensures SystemValid(Run(s, es))
  {
    if es == [] {
    } else {
      RunKeepsValid(s, es[..|es| - 1]);
      StepKeepsValid(Run(s, es[..|es| - 1]), es[|es| - 1]);
    }
  }

  // ---- reservation status ----

  lemma RunStep(s: System, es: seq<Event>, k: nat)
    requires SystemValid(s) && k < |es|
    ensures Evolves(Run(s, es[..k]).tables, Run(s, es[..k + 1]).tables)
  {
    assert es[..k + 1][..k] == es[..k];
    RunKeepsValid(s, es[..k]);
    StepGood(Run(s, es[..k]), es[k]);
  }

  /** Each status change of a run is a table edge or cancelled to archived. */
  lemma StatusChangesAreEdges(s: System, es: seq<Event>, k: nat, id: ResId)
    requires SystemValid(s) && k < |es| && id < |Run(s, es[..k]).tables.reservations|
    ensures id < |Run(s, es[..k + 1]).tables.reservations|
    ensures var a := Run(s, es[..k]).tables.reservations[id].status;
            var b := Run(s, es[..k + 1]).tables.reservations[id].status;
            a == b || ReservationMove(a, b) || (a == ResCancelled && b == ResArchived)
  {
    RunStep(s, es, k);
    assert ReservationStep(Run(s, es[..k]).tables.reservations[id], Run(s, es[..k + 1]).tables.reservations[id]);
  }

  /**
    * Each change of an item's status in a run is an edge of the item table, or CheckedIn or Overstay to Cancelled
    * together with the deletion of the item; an overstay stays one or is cancelled that way.
    */
  lemma ItemStatusChangesAreEdges(s: System, es: seq<Event>, k: nat, i: ItemId)
    requires SystemValid(s) && k < |es| && i < |Run(s, es[..k]).tables.items|
    ensures i < |Run(s, es[..k + 1]).tables.items|
    ensures var a, b := Run(s, es[..k]).tables.items[i], Run(s, es[..k + 1]).tables.items[i];
            && (|| a.status == b.status || ItemMove(a.status, b.status)
                || ((a.status == CheckedIn || a.status == Overstay) && b.status == Cancelled && !b.live))
            && (a.status == Overstay ==> b.status == Overstay || b.status == Cancelled)
  {
    RunStep(s, es, k);
    assert ItemStep(Run(s, es[..k]).tables.items[i], Run(s, es[..k + 1]).tables.items[i]);
  }

  /** Versions never fall, and a row whose version has not moved has not changed at all. */
  lemma {:induction false} VersionsCountWrites(s: System, es: seq<Event>, a: nat, b: nat)
    requires SystemValid(s) && a <= b <= |es|
    ensures var t, t' := Run(s, es[..a]).tables, Run(s, es[..b]).tables;
            && |t.reservations| <= |t'.reservations| && |t.items| <= |t'.items|
            && (forall r :: 0 <= r < |t.reservations| ==>
                              t'.reservations[r] == t.reservations[r]
                              || t'.reservations[r].version > t.reservations[r].version)
            && (forall i :: 0 <= i < |t.items| ==>
                              t'.items[i] == t.items[i] || t'.items[i].version > t.items[i].version)
  {
    if a == b {
    } else {
      VersionsCountWrites(s, es, a, b - 1);
      RunStep(s, es, b - 1);
      var t, m, t' := Run(s, es[..a]).tables, Run(s, es[..b - 1]).tables, Run(s, es[..b]).tables;
      forall r | 0 <= r < |t.reservations|
        ensures t'.reservations[r] == t.reservations[r] || t'.reservations[r].version > t.reservations[r].version
      {
        assert ReservationStep(m.reservations[r], t'.reservations[r]);
      }
      forall i | 0 <= i < |t.items|
        ensures t'.items[i] == t.items[i] || t'.items[i].version > t.items[i].version
      {
        assert ItemStep(m.items[i], t'.items[i]);
      }
    }
  }

  /** An archived reservation stays archived, whatever old rows the sweeps still hold. */
  lemma {:induction false} ArchivedIsForever(s: System, es: seq<Event>, a: nat, b: nat, id: ResId)
    requires SystemValid(s) && a <= b <= |es|
    requires id < |Run(s, es[..a]).tables.reservations|
    requires Run(s, es[..a]).tables.reservations[id].status == ResArchived
    ensures id < |Run(s, es[..b]).tables.reservations|
    ensures Run(s, es[..b]).tables.reservations[id].status == ResArchived
  {
    if a == b {
    } else {
      ArchivedIsForever(s, es, a, b - 1, id);
      StatusChangesAreEdges(s, es, b - 1, id);
    }
  }

  // ---- hold expiry ----

  /** Everything that does not belong to reservation `id` is untouched. */
  predicate OthersUntouched(t: Tables, t': Tables, id: ResId) {
    && t'.hotel == t.hotel && |t'.reservations| == |t.reservations| && |t'.items| == |t.items|
    && (forall r :: 0 <= r < |t.reservations| && r != id ==> t'.reservations[r] == t.reservations[r])
    && (forall i :: 0 <= i < |t.items| && t.items[i].res != id ==> t'.items[i] == t.items[i])
    && (forall s :: s in t.ledger && t.ledger[s].res != Some(id) ==> s in t'.ledger && t'.ledger[s] == t.ledger[s])
    && (forall s :: s in t'.ledger ==> s in t.ledger && t'.ledger[s] == t.ledger[s])
  }

  /**
    * In every interleaving the hold sweep does nothing at all, or the stored row still is the hold it read;
    * then the reservation is cancelled, released, and nothing else changes.
    */
  lemma HoldSweepAllOrNothing(s: System, es: seq<Event>, id: ResId, seen: Reservation)
    requires SystemValid(s) && (id, seen) in Run(s, es).holds
    ensures var before := Run(s, es);
            var after := Next(before, SweepHold(id, seen));
            && id < |before.tables.reservations| && seen.status == Hold
            && if before.tables.reservations[id] == seen
               then Released(after.tables, id) && OthersUntouched(before.tables, after.tables, id)
               else after == before
  {
    RunKeepsValid(s, es);
    var before := Run(s, es);
    assert SeenReservation(before.tables, id, seen);
    if before.tables.reservations[id] == seen {
      CancelWritesGood(before.tables, id, seen.version);
    }
  }

  /** A write to the reservation row between the read and the sweep's transaction makes that transaction void. */
  lemma MovedRowDefeatsSweep(s: System, es: seq<Event>, a: nat, b: nat, id: ResId, seen: Reservation)
    requires SystemValid(s) && a <= b <= |es| && (id, seen) in Run(s, es[..a]).holds
    requires id < |Run(s, es[..b]).tables.reservations|
    requires Run(s, es[..b]).tables.reservations[id].version > seen.version
    ensures Next(Run(s, es), SweepHold(id, seen)) == Run(s, es)
  {
    VersionsCountWrites(s, es, b, |es|);
    assert es[..|es|] == es;
  }

  predicate TouchesZeroTime(h: Stay) {
    h.arrival == ZERO_DAY || h.departure == ZERO_DAY
  }

  /** Adding an item writes the reservation row, unless the new hull touches Go's zero time. */
  lemma AddItemMovesTheRow(t: Tables, id: ResId, input: ItemInput, locked: set<RoomId>)
    requires TablesValid(t) && AddItem(t, id, input, locked).Ok?
    ensures var t' := AddItem(t, id, input, locked).value;
            && id < |t'.reservations|
            && (t'.reservations[id].version == t.reservations[id].version + 1 <==>
                !TouchesZeroTime(LiveHull(t'.items, id)))
  {
  }

  /** Changing dates writes the reservation row, unless the hull of the old stays touches Go's zero time. */
  lemma DateChangeMovesTheRow(t: Tables, i: ItemId, version: int, stay: Stay, room: Option<RoomId>)
    requires TablesValid(t) && UpdateItem(t, i, version, stay, room).Ok? && stay != t.items[i].stay
    ensures var id, t' := t.items[i].res, UpdateItem(t, i, version, stay, room).value;
            && id < |t.reservations| == |t'.reservations|
            && (t'.reservations[id].version == t.reservations[id].version + 1 <==>
                !TouchesZeroTime(LiveHull(t.items, id)))
  {
    assert ItemFits(t, t.items[i]);
    var t1, t2 := DateChangeSteps(t, i, version, stay, room, UpdateItem(t, i, version, stay, room).value);
    EnvelopeKeeps(t1, t.items[i].res, t2);
  }

  // ---- optimistic locking ----

  datatype RowName = ReservationRow(id: ResId) | ItemRow(i: ItemId)

  /** The row whose version the transaction itself compares with the If-Match version. */
  function GuardedRow(op: Op): Option<RowName> {
    match op
    case DoConfirm(id, _) => Some(ReservationRow(id))
    case DoCancel(id, _) => Some(ReservationRow(id))
    case DoReactivate(id, _, _, _, _) => Some(ReservationRow(id))
    case DoUpdateMetadata(id, _) => Some(ReservationRow(id))
    case DoUpdateItem(i, _, _, _) => Some(ItemRow(i))
    case DoAssignRoom(i, _, _, _, _) => Some(ItemRow(i))
    case DoCancelItem(i, _) => Some(ItemRow(i))
    case DoCheckinItem(i, _) => Some(ItemRow(i))
    case DoCheckoutItem(i, _) => Some(ItemRow(i))
    case DoMarkNoShow(i, _, _) => Some(ItemRow(i))
    case _ => None
  }

  function VersionOf(t: Tables, row: RowName): Option<int> {
    match row
    case ReservationRow(id) => if id < |t.reservations| then Some(t.reservations[id].version) else None
    case ItemRow(i) => if i < |t.items| then Some(t.items[i].version) else None
  }

  /** The request commits; confirming a confirmed reservation commits without writing. */
  predicate Commits(t: Tables, op: Op) {
    Exec(t, op).Ok? && !(op.DoConfirm? && t.reservations[op.id].status == Confirmed)
  }

  lemma ReservationCommit(t: Tables, op: Op)
    requires Commits(t, op) && GuardedRow(op).Some? && GuardedRow(op).value.ReservationRow?
    ensures VersionOf(t, GuardedRow(op).value) == Some(op.version)
    ensures VersionOf(Exec(t, op).value, GuardedRow(op).value) == Some(op.version + 1)
  {
  }

  lemma ItemCommit(t: Tables, op: Op)
    requires Commits(t, op) && GuardedRow(op).Some? && GuardedRow(op).value.ItemRow? && !op.DoUpdateItem?
    ensures VersionOf(t, GuardedRow(op).value) == Some(op.version)
    ensures VersionOf(Exec(t, op).value, GuardedRow(op).value) == Some(op.version + 1)
  {
  }

  lemma UpdateItemCommit(t: Tables, i: ItemId, version: int, stay: Stay, room: Option<RoomId>)
    requires UpdateItem(t, i, version, stay, room).Ok?
    ensures VersionOf(t, ItemRow(i)) == Some(version)
    ensures VersionOf(UpdateItem(t, i, version, stay, room).value, ItemRow(i)) == Some(version + 1)
  {
    if stay != t.items[i].stay {
      var t1, t2 := DateChangeSteps(t, i, version, stay, room, UpdateItem(t, i, version, stay, room).value);
    }
  }

  /** A guarded commit finds exactly its version and leaves the next one. */
  lemma GuardedCommit(t: Tables, op: Op)
    requires Commits(t, op) && GuardedRow(op).Some?
    ensures VersionOf(t, GuardedRow(op).value) == Some(op.version)
    ensures VersionOf(Exec(t, op).value, GuardedRow(op).value) == Some(op.version + 1)
  {
    if GuardedRow(op).value.ReservationRow? {
      ReservationCommit(t, op);
    } else if op.DoUpdateItem? {
      UpdateItemCommit(t, op.i, op.version, op.stay, op.room);
    } else {
      ItemCommit(t, op);
    }
  }

  /** Of two If-Match writes that carry the same version for the same row, at most one commits. */
  lemma NoLostUpdates(s: System, es: seq<Event>, a: nat, b: nat)
    requires SystemValid(s) && a < b < |es|
    requires es[a].Request? && es[b].Request?
    requires GuardedRow(es[a].op).Some? && GuardedRow(es[a].op) == GuardedRow(es[b].op)
    requires es[a].op.version == es[b].op.version
    ensures !(Commits(Run(s, es[..a]).tables, es[a].op) && Commits(Run(s, es[..b]).tables, es[b].op))
  {
    var ta, tb := Run(s, es[..a]).tables, Run(s, es[..b]).tables;
    RunKeepsValid(s, es[..a]);
    RunKeepsValid(s, es[..b]);
    assert es[..a + 1][..a] == es[..a];
    if Commits(ta, es[a].op) {
      GuardedCommit(ta, es[a].op);
      VersionsCountWrites(s, es, a + 1, b);
      if Commits(tb, es[b].op) {
        GuardedCommit(tb, es[b].op);
      }
    }
  }
}
