/**
  * The stay envelope of a reservation against the stays of its live items: which transactions leave it exact,
  * and exactly when UpdateItem, which recomputes it before it writes the new stay, does not.
  */
module Envelope {
  import opened Basics
  import opened Calendar
  import opened StateMachine
  import opened Tables
  import opened Booking
  import opened Invariants
  import opened Inventory
  import opened Runs

  predicate Covers(h: Stay, s: Stay) {
    h.arrival <= s.arrival && s.departure <= h.departure
  }

  /** The hull covers every stay and touches one at each end. */
  lemma {:induction false} HullIsTight(stays: seq<Stay>)
    requires stays != []
    ensures forall k :: 0 <= k < |stays| ==> Covers(Hull(stays), stays[k])
    ensures exists k :: 0 <= k < |stays| && stays[k].arrival == Hull(stays).arrival
    ensures exists k :: 0 <= k < |stays| && stays[k].departure == Hull(stays).departure
  {
    var n := |stays| - 1;
    assert stays[n] == stays[|stays| - 1];
    if n == 0 {
    } else {
      var init := stays[..n];
      HullIsTight(init);
      var a :| 0 <= a < |init| && init[a].arrival == Hull(init).arrival;
      var d :| 0 <= d < |init| && init[d].departure == Hull(init).departure;
      assert stays[a] == init[a] && stays[d] == init[d];
      forall k | 0 <= k < |stays| ensures Covers(Hull(stays), stays[k]) {
        assert k < n ==> stays[k] == init[k];
      }
    }
  }

  predicate Mine(items: seq<Item>, id: ResId, i: int) {
    0 <= i < |items| && items[i].live && items[i].res == id
  }

  /** `h` is exactly the span of the live items of `id`: the least interval that covers all their stays. */
  ghost predicate Spans(items: seq<Item>, id: ResId, h: Stay) {
    && (forall i :: Mine(items, id, i) ==> Covers(h, items[i].stay))
    && (exists i :: Mine(items, id, i) && items[i].stay.arrival == h.arrival)
    && (exists i :: Mine(items, id, i) && items[i].stay.departure == h.departure)
  }

  /** The recomputed envelope is the span, and nothing else is. */
  lemma LiveHullSpans(items: seq<Item>, id: ResId, h: Stay)
    requires exists i :: Mine(items, id, i)
    ensures Spans(items, id, h) <==> h == LiveHull(items, id)
  {
    var ids := LiveItems(items, id);
    var stays := StaysOf(items, ids);
    var some :| Mine(items, id, some);
    assert some in ids;
    HullIsTight(stays);
    var hull := Hull(stays);
    forall i | Mine(items, id, i) ensures Covers(hull, items[i].stay) {
      assert i in ids;
      var k :| 0 <= k < |ids| && ids[k] == i;
      assert stays[k] == items[i].stay;
    }
    var a :| 0 <= a < |stays| && stays[a].arrival == hull.arrival;
    var d :| 0 <= d < |stays| && stays[d].departure == hull.departure;
    assert Mine(items, id, ids[a]) && Mine(items, id, ids[d]);
    assert Spans(items, id, hull);
  }

  // ---- the rows a creation inserts ----

  lemma {:induction false} InsertedRows(t: Tables, inputs: seq<ItemInput>, status: ItemStatus, res: ResId,
                                        locked: set<RoomId>)
    requires InsertItems(t, inputs, status, res, locked).Ok?
    ensures var t' := InsertItems(t, inputs, status, res, locked).value;
            && t' == t.(items := t'.items, ledger := t'.ledger)
            && t'.items == t.items + seq(|inputs|, k requires 0 <= k < |inputs| => NewItem(inputs[k], status, res))
  {
    if inputs == [] {
    } else {
      InsertedRows(t, inputs[..|inputs| - 1], status, res, locked);
    }
  }

  /** A new reservation's envelope is the span of its items. */
  lemma CreateSpans(t: Tables, source: Source, walkin: bool, inputs: seq<ItemInput>, now: int, midnightToday: int,
                    locked: set<RoomId>)
    requires TablesValid(t) && Create(t, source, walkin, inputs, now, midnightToday, locked).Ok?
    ensures var t' := Create(t, source, walkin, inputs, now, midnightToday, locked).value;
            && |t'.reservations| == |t.reservations| + 1
            && Spans(t'.items, |t.reservations|, t'.reservations[|t.reservations|].envelope)
  {
    var id := |t.reservations|;
    var status, itemStatus := InitialStatus(source, walkin), InitialItemStatus(source, walkin);
    var row := Reservation(status, InputHull(inputs), 1, ExpiresAt(source, status, now));
    var t1 := t.(reservations := t.reservations + [row]);
    InsertedRows(t1, inputs, itemStatus, id, locked);
    forall i | 0 <= i < |t.items| ensures t.items[i].res != id {
      assert ItemFits(t, t.items[i]);
    }
    assert inputs != [];
    InputHullSpans(t.items, inputs, itemStatus, id);
  }

  lemma InputHullSpans(before: seq<Item>, inputs: seq<ItemInput>, status: ItemStatus, id: ResId)
    requires inputs != [] && forall i :: 0 <= i < |before| ==> before[i].res != id
    ensures var added := seq(|inputs|, k requires 0 <= k < |inputs| => NewItem(inputs[k], status, id));
            Spans(before + added, id, InputHull(inputs))
  {
    var items := before + seq(|inputs|, k requires 0 <= k < |inputs| => NewItem(inputs[k], status, id));
    var stays := seq(|inputs|, k requires 0 <= k < |inputs| => inputs[k].stay);
    var h, base := Hull(stays), |before|;
    HullIsTight(stays);
    forall k | 0 <= k < |inputs| ensures Mine(items, id, base + k) && items[base + k].stay == stays[k] {
    }
    forall i | Mine(items, id, i) ensures Covers(h, items[i].stay) {
      assert i >= base && items[i].stay == stays[i - base];
    }
    var a :| 0 <= a < |stays| && stays[a].arrival == h.arrival;
    var d :| 0 <= d < |stays| && stays[d].departure == h.departure;
    assert Mine(items, id, base + a) && Mine(items, id, base + d);
  }

  /** After AddItem the envelope is the span of the items, unless the write was skipped. */
  lemma AddItemSpans(t: Tables, id: ResId, input: ItemInput, locked: set<RoomId>)
    requires TablesValid(t) && AddItem(t, id, input, locked).Ok?
    requires !TouchesZeroTime(LiveHull(AddItem(t, id, input, locked).value.items, id))
    ensures var t' := AddItem(t, id, input, locked).value;
            id < |t'.reservations| && Spans(t'.items, id, t'.reservations[id].envelope)
  {
    InsertItemGood(t, input, Booked, id, locked);
    var t' := AddItem(t, id, input, locked).value;
    assert Mine(t'.items, id, |t.items|);
    LiveHullSpans(t'.items, id, t'.reservations[id].envelope);
  }

  // ---- the date change that lags behind ----

  /** What a caller can check: the new stay lies in the old span, and each end of it is still touched. */
  ghost predicate SpanUnmoved(t: Tables, i: ItemId, stay: Stay)
    requires i < |t.items|
  {
    var id, h := t.items[i].res, LiveHull(t.items, t.items[i].res);
    && Covers(h, stay)
    && (|| stay.arrival == h.arrival
        || exists j :: j != i && Mine(t.items, id, j) && t.items[j].stay.arrival == h.arrival)
    && (|| stay.departure == h.departure
        || exists j :: j != i && Mine(t.items, id, j) && t.items[j].stay.departure == h.departure)
  }

  /** What a date change writes: the item's new stay, and as envelope the span of the old stays. */
  lemma DateChangeWrites(t: Tables, i: ItemId, version: int, stay: Stay, room: Option<RoomId>, t': Tables)
    requires TablesValid(t) && UpdateItem(t, i, version, stay, room) == Ok(t') && stay != t.items[i].stay
    ensures var id := t.items[i].res;
            && id < |t.reservations| == |t'.reservations|
            && (!TouchesZeroTime(LiveHull(t.items, id)) ==> t'.reservations[id].envelope == LiveHull(t.items, id))
            && |t'.items| == |t.items| && t'.items == t.items[i := t'.items[i]] && t'.items[i].stay == stay
            && Mine(t.items, id, i) && Mine(t'.items, id, i)
  {
    assert ItemFits(t, t.items[i]);
    var t1, t2 := DateChangeSteps(t, i, version, stay, room, t');
    EnvelopeKeeps(t1, t.items[i].res, t2);
  }

  lemma SpanAfterChange(t: Tables, i: ItemId, stay: Stay, items: seq<Item>)
    requires i < |t.items| && Mine(t.items, t.items[i].res, i) && |items| == |t.items|
             && items == t.items[i := items[i]]
    requires items[i].stay == stay && Mine(items, t.items[i].res, i)
    ensures Spans(items, t.items[i].res, LiveHull(t.items, t.items[i].res)) <==> SpanUnmoved(t, i, stay)
  {
    var id := t.items[i].res;
    var h := LiveHull(t.items, id);
    LiveHullSpans(t.items, id, h);
    forall j | j != i ensures Mine(items, id, j) <==> Mine(t.items, id, j) {
    }
    if SpanUnmoved(t, i, stay) {
      assert stay.arrival == h.arrival ==> Mine(items, id, i) && items[i].stay.arrival == h.arrival;
      assert stay.departure == h.departure ==> Mine(items, id, i) && items[i].stay.departure == h.departure;
      if stay.arrival != h.arrival {
        var j :| j != i && Mine(t.items, id, j) && t.items[j].stay.arrival == h.arrival;
        assert Mine(items, id, j) && items[j].stay.arrival == h.arrival;
      }
      if stay.departure != h.departure {
        var j :| j != i && Mine(t.items, id, j) && t.items[j].stay.departure == h.departure;
        assert Mine(items, id, j) && items[j].stay.departure == h.departure;
      }
    }
  }

  /** After a date change the envelope is the span of the items if and only if the change did not move the span. */
  lemma DateChangeSpansIff(t: Tables, i: ItemId, version: int, stay: Stay, room: Option<RoomId>, t': Tables)
    requires TablesValid(t) && UpdateItem(t, i, version, stay, room) == Ok(t') && stay != t.items[i].stay
    requires !TouchesZeroTime(LiveHull(t.items, t.items[i].res))
    ensures var id := t.items[i].res;
            && id < |t'.reservations|
            && (Spans(t'.items, id, t'.reservations[id].envelope) <==> SpanUnmoved(t, i, stay))
  {
    DateChangeWrites(t, i, version, stay, room, t');
    SpanAfterChange(t, i, stay, t'.items);
  }

  /** In particular every date change of a reservation's only live item leaves the envelope behind. */
  lemma OnlyItemLeavesEnvelopeBehind(t: Tables, i: ItemId, version: int, stay: Stay, room: Option<RoomId>, t': Tables)
    requires TablesValid(t) && UpdateItem(t, i, version, stay, room) == Ok(t') && stay != t.items[i].stay
    requires !TouchesZeroTime(LiveHull(t.items, t.items[i].res))
    requires forall j :: Mine(t.items, t.items[i].res, j) ==> j == i
    ensures i < |t'.items| && t.items[i].res < |t'.reservations|
    ensures t'.reservations[t.items[i].res].envelope == t.items[i].stay != t'.items[i].stay
  {
    DateChangeWrites(t, i, version, stay, room, t');
    OnlyItemSpan(t.items, i);
  }

  lemma OnlyItemSpan(items: seq<Item>, i: ItemId)
    requires i < |items| && items[i].live && forall j :: Mine(items, items[i].res, j) ==> j == i
    ensures LiveHull(items, items[i].res) == items[i].stay
  {
    assert Mine(items, items[i].res, i);
    LiveHullSpans(items, items[i].res, items[i].stay);
  }

  /**
    * A concrete date change that goes wrong in both ways: an item on nights 5 and 6 that is to arrive on day 6
    * loses its only remaining night, and the envelope keeps day 5.  A rebuild would have kept night 6.
    */
  lemma LaterArrivalExample() returns (t: Tables, t': Tables)
    ensures TablesValid(t) && |t.items| == 1 && t.items[0].room == Some(0) && Holds(t.ledger, 0, 0, t.items[0].stay)
    ensures UpdateItem(t, 0, 1, Stay(6, 7), None) == Ok(t') && t'.ledger == map[]
    ensures Rebuilt(t, 0, Some(0), Stay(6, 7)).Ok? && Slot(0, 6) in Rebuilt(t, 0, Some(0), Stay(6, 7)).value
    ensures |t'.reservations| == 1 && t'.reservations[0].envelope == Stay(5, 7)
  {
    var oldStay, newStay := Stay(5, 7), Stay(6, 7);
    var item := Item(0, 0, Some(0), None, oldStay, false, Booked, 1, true);
    t := Tables(Hotel([0], map[], {}), [Reservation(Confirmed, oldStay, 1, None)], [item],
                map[Slot(0, 5) := SoldTo(0, 0), Slot(0, 6) := SoldTo(0, 0)]);
    FirstRemovedNight(oldStay, newStay);
    FirstRemovedNight(newStay, oldStay);
    assert DeleteByItemFrom(t.ledger, 0, 5) == map[];
    t' := OnlyItemUpdated(t, map[], newStay, None);
    assert 6 in Nights(newStay);
  }

  /**
    * The other failing family, a change of dates and room at once: an item on night 5 in room 0 that is to have nights
    * 5 and 6 in room 1 keeps night 5 in room 0.
    */
  lemma RoomChangeExample() returns (t: Tables, t': Tables)
    ensures TablesValid(t) && |t.items| == 1 && t.items[0].room == Some(0) && Holds(t.ledger, 0, 0, t.items[0].stay)
    ensures UpdateItem(t, 0, 1, Stay(5, 7), Some(1)) == Ok(t') && |t'.items| == 1 && t'.items[0].room == Some(1)
    ensures t'.ledger == map[Slot(0, 5) := SoldTo(0, 0), Slot(1, 6) := SoldTo(0, 0)]
  {
    var oldStay, newStay := Stay(5, 6), Stay(5, 7);
    var item := Item(0, 0, Some(0), None, oldStay, false, Booked, 1, true);
    t := Tables(Hotel([0, 0], map[], {}), [Reservation(Confirmed, oldStay, 1, None)], [item],
                map[Slot(0, 5) := SoldTo(0, 0)]);
    FirstRemovedNight(oldStay, newStay);
    var l := map[Slot(0, 5) := SoldTo(0, 0), Slot(1, 6) := SoldTo(0, 0)];
    AddsNightSix(t, Some(1), l);
    t' := OnlyItemUpdated(t, l, newStay, Some(1));
  }

  /** Nights 5 to 7 instead of night 5: night 6 is claimed in the target room. */
  lemma AddsNightSix(t: Tables, room: Option<RoomId>, l: Ledger)
    requires |t.items| == 1 && t.items[0].res == 0 && t.items[0].plan == None && t.items[0].stay == Stay(5, 6)
    requires room.Some? && room.value < |t.hotel.rooms| && Slot(room.value, 6) !in t.ledger
    requires l == t.ledger[Slot(room.value, 6) := SoldTo(0, 0)]
    ensures ShiftLedger(t, 0, Stay(5, 7), room) == Ok(t.(ledger := l))
  {
    FirstRemovedNight(Stay(5, 6), Stay(5, 7));
    var added := Minus(Nights(Stay(5, 7)), Nights(Stay(5, 6)));
    assert forall d :: d in added <==> d == 6;
    var r := InsertNights(t.hotel, t.ledger, room, added, 0, 0);
    assert r.Ok? && r.value == l by {
      assert forall s: Slot :: s == Slot(s.room, s.day);
    }
    assert 6 in added;
  }

  /** A date change of a reservation's only item, given what its ledger step does. */
  lemma OnlyItemUpdated(t: Tables, l: Ledger, stay: Stay, room: Option<RoomId>) returns (t': Tables)
    requires |t.items| == 1 && |t.reservations| == 1
    requires t.items[0].live && t.items[0].res == 0 && t.items[0].version == 1
    requires stay.Valid() && t.items[0].stay.Valid() && !TouchesZeroTime(t.items[0].stay) && stay != t.items[0].stay
    requires RoomExists(t.hotel, room) && RoomExists(t.hotel, t.items[0].room)
    requires ShiftLedger(t, 0, stay, if room.Some? then room else t.items[0].room) == Ok(t.(ledger := l))
    ensures UpdateItem(t, 0, 1, stay, room) == Ok(t') && t'.ledger == l
    ensures t'.items == [t.items[0].(room := if room.Some? then room else t.items[0].room, stay := stay, version := 2)]
    ensures |t'.reservations| == 1 && t'.reservations[0].envelope == t.items[0].stay
  {
    var target := if room.Some? then room else t.items[0].room;
    OnlyItemSpan(t.items, 0);
    var t1 := t.(ledger := l);
    var t2 := RecomputeEnvelope(t1, 0).value;
    EnvelopeKeeps(t1, 0, t2);
    t' := UpdateItemRow(t2, 0, 1, target, stay, t.items[0].status).value;
  }

  // ---- the unrouted stay-period change ----

  /** UpdateItemStayPeriod recomputes the envelope last, so it is the span unless the write was skipped. */
  lemma StayPeriodSpans(t: Tables, i: ItemId, version: int, stay: Stay, mayMutate: bool)
    requires TablesValid(t) && UpdateStayPeriod(t, i, version, stay, mayMutate).Ok?
    requires !TouchesZeroTime(LiveHull(UpdateStayPeriod(t, i, version, stay, mayMutate).value.items, t.items[i].res))
    ensures var id, t' := t.items[i].res, UpdateStayPeriod(t, i, version, stay, mayMutate).value;
            id < |t'.reservations| && Spans(t'.items, id, t'.reservations[id].envelope)
  {
    assert ItemFits(t, t.items[i]);
    var id, t' := t.items[i].res, UpdateStayPeriod(t, i, version, stay, mayMutate).value;
    assert Mine(t'.items, id, i);
    LiveHullSpans(t'.items, id, t'.reservations[id].envelope);
  }

  /**
    * It trims the ledger only for a checked-in item, so it keeps the ledger sound exactly when the item is
    * checked in or already has no row outside the new stay.  No route reaches it.
    */
  lemma StayPeriodSoundIff(t: Tables, i: ItemId, version: int, stay: Stay, mayMutate: bool)
    requires TablesValid(t) && UpdateStayPeriod(t, i, version, stay, mayMutate).Ok?
    ensures LedgerSound(UpdateStayPeriod(t, i, version, stay, mayMutate).value) <==>
            || t.items[i].status == CheckedIn
            || forall s :: s in t.ledger && t.ledger[s].item == Some(i) ==> stay.Has(s.day)
  {
    var t' := UpdateStayPeriod(t, i, version, stay, mayMutate).value;
    assert t'.items[i].stay == stay && forall j :: 0 <= j < |t.items| && j != i ==> t'.items[j] == t.items[j];
  }

  /** At a real input: a booked item on night 5 moves to night 8 and its row stays behind. */
  lemma StayPeriodExample() returns (t: Tables, t': Tables)
    ensures TablesValid(t) && UpdateStayPeriod(t, 0, 1, Stay(8, 9), false) == Ok(t')
    ensures |t'.items| == 1 && t'.items[0].stay == Stay(8, 9)
    ensures t'.ledger == map[Slot(0, 5) := SoldTo(0, 0)] && !LedgerSound(t')
  {
    var stay := Stay(5, 6);
    var item := Item(0, 0, Some(0), None, stay, false, Booked, 1, true);
    t := Tables(Hotel([0], map[], {}), [Reservation(Confirmed, stay, 1, None)], [item],
                map[Slot(0, 5) := SoldTo(0, 0)]);
    var t1 := t.(items := [item.(stay := Stay(8, 9), version := 2)]);
    assert t.items[0 := t1.items[0]] == t1.items;
    assert UpdateItemRow(t, 0, 1, Some(0), Stay(8, 9), Booked) == Ok(t1);
    OnlyItemSpan(t1.items, 0);
    t' := RecomputeEnvelope(t1, 0).value;
    EnvelopeKeeps(t1, 0, t');
    assert !RowFits(t', Slot(0, 5), t'.ledger[Slot(0, 5)]);
  }
}
