/** What becomes of cancelled reservations and cancelled items over whole runs. */
module Cancellation {
  import opened Basics
  import opened Calendar
  import opened StateMachine
  import opened Tables
  import opened Booking
  import opened Invariants
  import opened Inventory
  import opened Reactivation
  import opened Envelope
  import opened Occupancy
  import opened Runs

  // ---- the items of a cancelled reservation ----

  predicate ItemOver(t: Tables, item: Item) {
    && item.status != Archived
    && (item.res < |t.reservations| && t.reservations[item.res].status == ResCancelled ==>
          item.status == CheckedOut || item.status == Cancelled)
  }

  /** Items of a cancelled reservation are checked out or cancelled, and no item is ever archived. */
  predicate CancelledIsOver(t: Tables) {
    forall i :: 0 <= i < |t.items| ==> ItemOver(t, t.items[i])
  }

  /** No item of a cancelled reservation changes its status and no item is archived, unless a cancellation ends it. */
  predicate Settles(t: Tables, t': Tables) {
    && |t.items| <= |t'.items| && |t.reservations| <= |t'.reservations|
    && (forall i | 0 <= i < |t.items| && t.items[i].res < |t.reservations|
          :: && t'.items[i].res == t.items[i].res && (t'.items[i].status == Archived ==> t.items[i].status == Archived)
             && (t'.reservations[t.items[i].res].status == ResCancelled ==>
                   || TerminalItem(t'.items[i].status)
                   || (t.reservations[t.items[i].res].status == ResCancelled
                       && t'.items[i].status == t.items[i].status)))
    && (forall i :: |t.items| <= i < |t'.items| ==> t'.items[i].status == Booked || t'.items[i].status == CheckedIn)
    && (forall i :: |t.items| <= i < |t'.items| && t'.items[i].res < |t'.reservations| ==>
                      t'.reservations[t'.items[i].res].status != ResCancelled)
  }

  lemma SettledIsOver(t: Tables, t': Tables)
    requires CancelledIsOver(t) && Settles(t, t')
    requires forall i :: 0 <= i < |t.items| ==> t.items[i].res < |t.reservations|
    ensures CancelledIsOver(t')
  {
  }

  lemma InsertedRowsSettle(t: Tables, inputs: seq<ItemInput>, status: ItemStatus, res: ResId, locked: set<RoomId>,
                           t': Tables)
    requires status == Booked || status == CheckedIn
    requires InsertItems(t, inputs, status, res, locked) == Ok(t')
    ensures t'.reservations == t.reservations && |t.items| <= |t'.items| && t'.items[..|t.items|] == t.items
    ensures forall i :: |t.items| <= i < |t'.items| ==> t'.items[i].status == status && t'.items[i].res == res
  {
    InsertedRows(t, inputs, status, res, locked);
  }

  lemma CreateSettles(t: Tables, op: Op, t': Tables)
    requires op.DoCreate? && Exec(t, op) == Ok(t') && CancelledIsOver(t)
    requires forall i :: 0 <= i < |t.items| ==> t.items[i].res < |t.reservations|
    ensures Settles(t, t')
  {
    var status := InitialStatus(op.source, op.walkin);
    var row := Reservation(status, InputHull(op.inputs), 1, ExpiresAt(op.source, status, op.now));
    var t1 := t.(reservations := t.reservations + [row]);
    InsertedRowsSettle(t1, op.inputs, InitialItemStatus(op.source, op.walkin), |t.reservations|, op.locked, t');
    forall i | 0 <= i < |t.items| ensures t'.items[i] == t.items[i] {
      assert t'.items[..|t.items|][i] == t.items[i];
    }
  }

  lemma AddItemSettles(t: Tables, op: Op, t': Tables)
    requires op.DoAddItem? && Exec(t, op) == Ok(t')
    ensures Settles(t, t')
  {
    var t1 := InsertItem(t, op.input, Booked, op.id, op.locked).value;
    EnvelopeKeeps(t1, op.id, t');
    assert t1.items == t.items + [NewItem(op.input, Booked, op.id)] && t1.reservations == t.reservations;
    assert forall r :: 0 <= r < |t.reservations| ==> t'.reservations[r].status == t.reservations[r].status;
  }

  lemma UpdateSettles(t: Tables, op: Op, t': Tables)
    requires op.DoUpdateItem? && Exec(t, op) == Ok(t')
    ensures Settles(t, t')
  {
    UpdateEffect(t, op, t');
  }

  lemma ReactivateSettles(t: Tables, op: Op, t': Tables)
    requires op.DoReactivate? && Exec(t, op) == Ok(t')
    ensures Settles(t, t')
  {
    assert t'.items == ReviveItems(t.items, op.id);
    assert t'.reservations == UpdateStatus(t, op.id, op.version, Confirmed).value.reservations;
  }

  lemma ItemActionSettles(t: Tables, op: Op, t': Tables)
    requires op.DoCancelItem? || op.DoCheckinItem? || op.DoCheckoutItem? || op.DoMarkNoShow? || op.DoAssignRoom?
    requires Exec(t, op) == Ok(t') && CancelledIsOver(t)
    ensures Settles(t, t')
  {
  }

  lemma BatchSettles(t: Tables, op: Op, t': Tables)
    requires op.DoCheckinAll? || op.DoCheckoutAll?
    requires Exec(t, op) == Ok(t') && CancelledIsOver(t)
    ensures Settles(t, t')
  {
  }

  lemma RequestSettles(t: Tables, op: Op)
    requires TablesValid(t) && CancelledIsOver(t) && Exec(t, op).Ok?
    ensures Settles(t, Exec(t, op).value)
  {
    var t' := Exec(t, op).value;
    forall i | 0 <= i < |t.items| ensures t.items[i].res < |t.reservations| {
      assert ItemFits(t, t.items[i]);
    }
    match op
    case DoCreate(_, _, _, _, _, _) => CreateSettles(t, op, t');
    case DoConfirm(_, _) =>
    case DoUpdateMetadata(_, _) =>
    case DoCancel(_, _) =>
    case DoReactivate(_, _, _, _, _) => ReactivateSettles(t, op, t');
    case DoAddItem(_, _, _, _) => AddItemSettles(t, op, t');
    case DoUpdateItem(_, _, _, _) => UpdateSettles(t, op, t');
    case DoCheckinAll(_) => BatchSettles(t, op, t');
    case DoCheckoutAll(_) => BatchSettles(t, op, t');
    case _ => ItemActionSettles(t, op, t');
  }

  lemma StepSettles(s: System, e: Event)
    requires SystemValid(s) && CancelledIsOver(s.tables)
    ensures Settles(s.tables, Next(s, e).tables)
  {
    var t := s.tables;
    match e
    case Request(op) =>
      if Exec(t, op).Ok? {
        RequestSettles(t, op);
      }
    case SweepOverdue(i, seen) =>
      if (i, seen) in s.overdue && MarkOverstay(t, i, seen).Ok? {
        assert ItemOver(t, t.items[i]);
      }
    case _ =>
  }

  /** Over every run the items of cancelled reservations are checked out or cancelled, and no item is archived. */
  lemma {:induction false} CancelledStaysOver(s: System, es: seq<Event>)
    requires SystemValid(s) && CancelledIsOver(s.tables)
    ensures CancelledIsOver(Run(s, es).tables)
  {
    if es == [] {
    } else {
      var init := es[..|es| - 1];
      CancelledStaysOver(s, init);
      RunKeepsValid(s, init);
      StepSettles(Run(s, init), es[|es| - 1]);
      var t := Run(s, init).tables;
      forall i | 0 <= i < |t.items| ensures t.items[i].res < |t.reservations| {
        assert ItemFits(t, t.items[i]);
      }
      SettledIsOver(t, Run(s, es).tables);
    }
  }

  // ---- rows of cancelled items ----

  /** No row names a cancelled item.  (A checked-out item keeps the rows of the nights it stayed.) */
  predicate NoneSoldToCancelled(t: Tables) {
    forall s :: s in t.ledger && t.ledger[s].item.Some? && t.ledger[s].item.value < |t.items| ==>
                  t.items[t.ledger[s].item.value].status != Cancelled
  }

  predicate HasCancelled(t: Tables, id: ResId) {
    exists i :: 0 <= i < |t.items| && WasLive(t, id, i) && t.items[i].status == Cancelled
  }

  /** The two kinds of commits that sell a night to a cancelled item. */
  predicate SellsToCancelled(t: Tables, op: Op) {
    && Exec(t, op).Ok?
    && (|| (op.DoUpdateItem? && op.i < |t.items| && t.items[op.i].status == Cancelled
            && !Covers(t.items[op.i].stay, op.stay))
        || (op.DoReactivate? && HasCancelled(t, op.id)))
  }

  lemma InsertsKeepClean(t: Tables, inputs: seq<ItemInput>, status: ItemStatus, res: ResId, locked: set<RoomId>,
                         t': Tables)
    requires TablesValid(t) && NoneSoldToCancelled(t) && (status == Booked || status == CheckedIn)
    requires InsertItems(t, inputs, status, res, locked) == Ok(t') && TablesValid(t')
    ensures NoneSoldToCancelled(t')
  {
    InsertedRowsSettle(t, inputs, status, res, locked, t');
    InsertsOnlyGrow(t, inputs, status, res, locked, t');
    forall s | s in t'.ledger && t'.ledger[s].item.Some? ensures t'.items[t'.ledger[s].item.value].status != Cancelled {
      assert RowFits(t', s, t'.ledger[s]);
      assert s in t.ledger ==> RowFits(t, s, t.ledger[s]);
      assert forall i :: 0 <= i < |t.items| ==> t'.items[..|t.items|][i] == t.items[i];
    }
  }

  /** A batch only adds rows, and only for its own items. */
  lemma {:induction false} InsertsOnlyGrow(t: Tables, inputs: seq<ItemInput>, status: ItemStatus, res: ResId,
                                           locked: set<RoomId>, t': Tables)
    requires InsertItems(t, inputs, status, res, locked) == Ok(t')
    ensures |t.items| <= |t'.items|
    ensures forall s :: s in t.ledger ==> s in t'.ledger && t'.ledger[s] == t.ledger[s]
    ensures forall s :: s in t'.ledger && s !in t.ledger ==>
                          t'.ledger[s].item.Some? && |t.items| <= t'.ledger[s].item.value < |t'.items|
  {
    if inputs == [] {
    } else {
      var init := inputs[..|inputs| - 1];
      InsertsOnlyGrow(t, init, status, res, locked, InsertItems(t, init, status, res, locked).value);
    }
  }

  lemma CreateKeepsClean(t: Tables, op: Op, t': Tables)
    requires TablesValid(t) && NoneSoldToCancelled(t) && op.DoCreate? && Exec(t, op) == Ok(t') && TablesValid(t')
    ensures NoneSoldToCancelled(t')
  {
    var status := InitialStatus(op.source, op.walkin);
    var row := Reservation(status, InputHull(op.inputs), 1, ExpiresAt(op.source, status, op.now));
    var t1 := t.(reservations := t.reservations + [row]);
    KeptSound(t, t1);
    InsertsKeepClean(t1, op.inputs, InitialItemStatus(op.source, op.walkin), |t.reservations|, op.locked, t');
  }

  lemma AddItemKeepsClean(t: Tables, op: Op, t': Tables)
    requires TablesValid(t) && NoneSoldToCancelled(t) && op.DoAddItem? && Exec(t, op) == Ok(t')
    ensures NoneSoldToCancelled(t')
  {
    var t1 := InsertItem(t, op.input, Booked, op.id, op.locked).value;
    EnvelopeKeeps(t1, op.id, t');
    forall s | s in t.ledger ensures RowFits(t, s, t.ledger[s]) {
    }
  }

  lemma PlainKeepsClean(t: Tables, op: Op, t': Tables)
    requires TablesValid(t) && NoneSoldToCancelled(t) && Plain(op) && Exec(t, op) == Ok(t')
    ensures NoneSoldToCancelled(t')
  {
  }

  lemma CancelKeepsClean(t: Tables, id: ResId, version: int, t': Tables)
    requires TablesValid(t) && NoneSoldToCancelled(t) && CancelWrites(t, id, version) == Ok(t')
    ensures NoneSoldToCancelled(t')
  {
  }

  lemma AssignKeepsClean(t: Tables, op: Op, t': Tables)
    requires TablesValid(t) && NoneSoldToCancelled(t) && op.DoAssignRoom? && Exec(t, op) == Ok(t')
    ensures NoneSoldToCancelled(t')
  {
    var t1 := UpdateItemRow(t, op.i, op.version, Some(op.newRoom), t.items[op.i].stay, t.items[op.i].status).value;
    ItemRowEffect(t, op.i, op.version, Some(op.newRoom), t.items[op.i].stay, t.items[op.i].status, t1);
    MoveRowsEffect(t.hotel, t.ledger, op.i, op.newRoom, t'.ledger);
  }

  /** An item without rows gains one exactly when the new stay has a night outside the old one. */
  lemma RowlessUpdateGainsIff(t: Tables, i: ItemId, stay: Stay, room: Option<RoomId>)
    requires TablesValid(t) && i < |t.items| && stay.Valid() && DeltaLedger(t, i, stay, room).Ok?
    requires forall s :: s in t.ledger ==> t.ledger[s].item != Some(i)
    ensures var l' := DeltaLedger(t, i, stay, room).value;
            (exists s :: s in l' && l'[s].item == Some(i)) <==> !Covers(t.items[i].stay, stay)
  {
    var item := t.items[i];
    assert ItemFits(t, item);
    if stay != item.stay {
      RowlessShiftGainsIff(t, i, stay, if room.Some? then room else item.room);
    } else if room.Some? && room != item.room {
      MoveRowsEffect(t.hotel, t.ledger, i, room.value, DeltaLedger(t, i, stay, room).value);
    }
  }

  lemma RowlessShiftGainsIff(t: Tables, i: ItemId, stay: Stay, target: Option<RoomId>)
    requires i < |t.items| && t.items[i].stay.Valid() && stay.Valid() && ShiftLedger(t, i, stay, target).Ok?
    requires forall s :: s in t.ledger ==> t.ledger[s].item != Some(i)
    ensures var l' := ShiftLedger(t, i, stay, target).value.ledger;
            (exists s :: s in l' && l'[s].item == Some(i)) <==> !Covers(t.items[i].stay, stay)
  {
    var was, l' := t.items[i].stay, ShiftLedger(t, i, stay, target).value.ledger;
    FirstRemovedNight(was, stay);
    FirstRemovedNight(stay, was);
    if !Covers(was, stay) {
      var d := if stay.arrival < was.arrival then stay.arrival else stay.departure - 1;
      assert stay.Has(d) && !was.Has(d);
      assert d in Nights(stay) && d in Minus(Nights(stay), Nights(was));
      assert Slot(target.value, d) in l';
    }
  }

  lemma UpdateKeepsCleanIff(t: Tables, op: Op, t': Tables)
    requires TablesValid(t) && NoneSoldToCancelled(t) && op.DoUpdateItem? && Exec(t, op) == Ok(t') && TablesValid(t')
    ensures NoneSoldToCancelled(t') <==> !SellsToCancelled(t, op)
  {
    var i := op.i;
    UpdateEffect(t, op, t');
    UpdateWritesDelta(t, i, op.version, op.stay, op.room);
    DeltaRows(t, i, op.stay, op.room);
    forall s | s in t'.ledger ensures RowFits(t', s, t'.ledger[s]) {
    }
    if t.items[i].status == Cancelled {
      RowlessUpdateGainsIff(t, i, op.stay, op.room);
    }
  }

  lemma ReactivateKeepsCleanIff(t: Tables, op: Op, t': Tables)
    requires TablesValid(t) && NoneSoldToCancelled(t) && op.DoReactivate? && Exec(t, op) == Ok(t') && TablesValid(t')
    ensures NoneSoldToCancelled(t') <==> !SellsToCancelled(t, op)
  {
    ReactivationSells(t, op.id, op.version, op.now, op.mayBackdate, op.locked, t');
    if i :| 0 <= i < |t.items| && WasLive(t, op.id, i) && t.items[i].status == Cancelled {
      assert t'.items[i] == t.items[i] && i in LiveItems(t'.items, op.id) && ItemFits(t, t.items[i]);
      assert SoldNights(t'.items, t.ledger, t'.ledger, i);
      var room :| SoldIn(t'.items, t.ledger, t'.ledger, i, room);
      assert t.items[i].stay.Has(t.items[i].stay.arrival);
      assert Slot(room, t.items[i].stay.arrival) in t'.ledger;
    } else {
      forall s | s in t'.ledger && t'.ledger[s].item.Some?
        ensures t'.items[t'.ledger[s].item.value].status != Cancelled
      {
        assert RowFits(t', s, t'.ledger[s]);
        assert s in t.ledger ==> RowFits(t, s, t.ledger[s]);
      }
    }
  }

  lemma RequestKeepsCleanIff(t: Tables, op: Op)
    requires TablesValid(t) && NoneSoldToCancelled(t) && Exec(t, op).Ok?
    ensures NoneSoldToCancelled(Exec(t, op).value) <==> !SellsToCancelled(t, op)
  {
    var t' := Exec(t, op).value;
    RequestGood(t, op);
    match op
    case DoCreate(_, _, _, _, _, _) => CreateKeepsClean(t, op, t');
    case DoCancel(id, version) => CancelKeepsClean(t, id, version, t');
    case DoReactivate(_, _, _, _, _) => ReactivateKeepsCleanIff(t, op, t');
    case DoAddItem(_, _, _, _) => AddItemKeepsClean(t, op, t');
    case DoUpdateItem(_, _, _, _) => UpdateKeepsCleanIff(t, op, t');
    case DoAssignRoom(_, _, _, _, _) => AssignKeepsClean(t, op, t');
    case _ => PlainKeepsClean(t, op, t');
  }

  /** A step sells no night to a cancelled item if and only if it is neither of the two kinds of commits. */
  lemma StepKeepsCleanIff(s: System, e: Event)
    requires SystemValid(s) && NoneSoldToCancelled(s.tables)
    ensures NoneSoldToCancelled(Next(s, e).tables) <==> !(e.Request? && SellsToCancelled(s.tables, e.op))
  {
    var t := s.tables;
    match e
    case Request(op) =>
      if Exec(t, op).Ok? {
        RequestKeepsCleanIff(t, op);
      }
    case SweepHold(id, seen) =>
      if (id, seen) in s.holds && ExpireHold(t, id, seen).Ok? {
        CancelKeepsClean(t, id, seen.version, ExpireHold(t, id, seen).value);
      }
    case _ =>
  }

  ghost predicate CleanAt(s: System, es: seq<Event>, m: nat) {
    m <= |es| && NoneSoldToCancelled(Run(s, es[..m]).tables)
  }

  ghost predicate SellsAt(s: System, es: seq<Event>, j: nat) {
    j < |es| && es[j].Request? && SellsToCancelled(Run(s, es[..j]).tables, es[j].op)
  }

  lemma PositionKeepsIff(s: System, es: seq<Event>, j: nat)
    requires SystemValid(s) && j < |es| && CleanAt(s, es, j)
    ensures CleanAt(s, es, j + 1) <==> !SellsAt(s, es, j)
  {
    assert es[..j + 1][..j] == es[..j];
    RunKeepsValid(s, es[..j]);
    StepKeepsCleanIff(Run(s, es[..j]), es[j]);
  }

  /** Over every run: no state has a row of a cancelled item if and only if no request is of the two kinds. */
  lemma RunsStayCleanIff(s: System, es: seq<Event>, n: nat)
    requires SystemValid(s) && NoneSoldToCancelled(s.tables) && n <= |es|
    ensures (forall m: nat :: m <= n ==> CleanAt(s, es, m)) <==> (forall j: nat :: j < n ==> !SellsAt(s, es, j))
  {
    assert es[..0] == [];
    forall j: nat | j < n && CleanAt(s, es, j) ensures CleanAt(s, es, j + 1) <==> !SellsAt(s, es, j) {
      PositionKeepsIff(s, es, j);
    }
    var good, bad := (m: nat) => CleanAt(s, es, m), (j: nat) => SellsAt(s, es, j);
    StayGoodIff(good, bad, n);
    assert forall m: nat :: good(m) == CleanAt(s, es, m);
    assert forall j: nat :: bad(j) == SellsAt(s, es, j);
  }

  /** At a real input: an item cancelled on its own, of a cancelled reservation, is sold night 6 by a date change. */
  lemma CancelledItemGainsNight() returns (t: Tables, t': Tables)
    ensures TablesValid(t) && CancelledIsOver(t) && NoneSoldToCancelled(t)
    ensures |t.items| == 1 && t.items[0].status == Cancelled && t.reservations[0].status == ResCancelled
    ensures UpdateItem(t, 0, 1, Stay(5, 7), None) == Ok(t') && t'.ledger == map[Slot(0, 6) := SoldTo(0, 0)]
  {
    var item := Item(0, 0, Some(0), None, Stay(5, 6), false, Cancelled, 1, true);
    t := Tables(Hotel([0], map[], {}), [Reservation(ResCancelled, Stay(5, 6), 1, None)], [item], map[]);
    AddsNightSix(t, Some(0), map[Slot(0, 6) := SoldTo(0, 0)]);
    t' := OnlyItemUpdated(t, map[Slot(0, 6) := SoldTo(0, 0)], Stay(5, 7), None);
  }
}
