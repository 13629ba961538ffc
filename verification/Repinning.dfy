/**
  * Cancel and reactivate when items have no assigned room: each is pinned again, in creation order, to the first free
  * room of its type, which need not be the room it had.
  */
module Repinning {
  import opened Basics
  import opened Calendar
  import opened StateMachine
  import opened Tables
  import opened Booking
  import opened Invariants
  import opened Occupancy
  import opened Reactivation
  import opened RoundTrip

  /** The ledger with, of the reservation's rows, only those of the items in `done`. */
  function Regained(t: Tables, id: ResId, done: seq<ItemId>): Ledger {
    map s | s in t.ledger
            && (t.ledger[s].res == Some(id) ==> t.ledger[s].item.Some? && t.ledger[s].item.value in done) :: t.ledger[s]
  }

  /** When its turn comes, an item without an assigned room is pinned to the room it had. */
  ghost predicate PinsBack(t: Tables, id: ResId, ids: seq<ItemId>, k: nat, locked: set<RoomId>)
    requires k < |ids| && ids[k] < |t.items|
  {
    var item := t.items[ids[k]];
    var pinned := AutoPin(t.hotel, Regained(t, id, ids[..k]), item.roomType, Nights(item.stay), locked);
    item.room.None? ==> exists home: RoomId :: HeldIn(t, ids[k], home) && pinned == Some(home)
  }

  /** The row of the item returns, and its ledger rows are its nights in one room, or none if it is deleted. */
  ghost predicate ComesBack(t: Tables, i: ItemId)
    requires i < |t.items|
  {
    Returns(t.items[i]) && if t.items[i].live then Held(t, i) else Uncovered(t, i)
  }

  ghost predicate AllComeBack(t: Tables, id: ResId, locked: set<RoomId>) {
    && (forall i :: 0 <= i < |t.items| && t.items[i].res == id ==> ComesBack(t, i))
    && (forall k :: 0 <= k < |LiveItems(t.items, id)| ==> PinsBack(t, id, LiveItems(t.items, id), k, locked))
  }

  // ---- the condition is enough ----

  /** One turn of the loop gives the item its old rows. */
  lemma TurnRegains(t: Tables, id: ResId, m: Tables, ids: seq<ItemId>, k: nat, locked: set<RoomId>)
    requires Cancellable(t, id) && k < |ids| && Ascending(ids) && ids[k] < |t.items| == |m.items| && m.hotel == t.hotel
    requires t.items[ids[k]].res == id && Held(t, ids[k]) && PinsBack(t, id, ids, k, locked)
    requires m.items[ids[k]] == t.items[ids[k]].(version := m.items[ids[k]].version)
    requires m.ledger == Regained(t, id, ids[..k])
    ensures Reclaim(m, ids[k], locked) == Ok(m.(ledger := Regained(t, id, ids[..k + 1])))
  {
    var i, item := ids[k], t.items[ids[k]];
    var home := RoomOnTurn(t, id, ids, k, locked);
    assert ItemFits(t, item) && i !in ids[..k] && ids[..k + 1] == ids[..k] + [i];
    var days := Nights(item.stay);
    assert item.stay.arrival in days;
    forall d | d in days ensures Slot(home, d) !in m.ledger {
      assert Slot(home, d) in t.ledger && RowFits(t, Slot(home, d), t.ledger[Slot(home, d)]);
    }
    var r := InsertNights(m.hotel, m.ledger, Some(home), days, id, i);
    RegainedGrows(t, id, ids[..k], i, home, r.value);
    assert Reclaim(m, i, locked) == ClaimNights(m, i, Some(home), days);
  }

  /** The room that an item had is the room it is given. */
  lemma RoomOnTurn(t: Tables, id: ResId, ids: seq<ItemId>, k: nat, locked: set<RoomId>) returns (home: RoomId)
    requires TablesValid(t) && k < |ids| && ids[k] < |t.items| && Held(t, ids[k]) && PinsBack(t, id, ids, k, locked)
    ensures HeldIn(t, ids[k], home) && home < |t.hotel.rooms|
    ensures var item := t.items[ids[k]];
            Some(home) == if item.room.Some? then item.room
            else AutoPin(t.hotel, Regained(t, id, ids[..k]), item.roomType, Nights(item.stay), locked)
  {
    var item := t.items[ids[k]];
    assert ItemFits(t, item);
    if item.room.Some? {
      home :| HeldIn(t, ids[k], home);
    } else {
      home :| HeldIn(t, ids[k], home)
              && AutoPin(t.hotel, Regained(t, id, ids[..k]), item.roomType, Nights(item.stay), locked) == Some(home);
    }
  }

  /** Adding an item's nights in its room to the rows of `done` gives the rows of `done` and of the item. */
  lemma RegainedGrows(t: Tables, id: ResId, done: seq<ItemId>, i: ItemId, home: RoomId, l: Ledger)
    requires LedgerSound(t) && i < |t.items| && t.items[i].res == id && i !in done && HeldIn(t, i, home)
    requires forall s :: s in l <==> s in Regained(t, id, done) || (s.room == home && t.items[i].stay.Has(s.day))
    requires forall s :: s in l ==> l[s] == if s in Regained(t, id, done) then t.ledger[s] else SoldTo(id, i)
    ensures l == Regained(t, id, done + [i])
  {
  }

  lemma {:induction false} LoopRegains(t: Tables, id: ResId, m: Tables, ids: seq<ItemId>, k: nat, locked: set<RoomId>)
    requires Cancellable(t, id) && k <= |ids| && Ascending(ids) && |t.items| == |m.items| && m.hotel == t.hotel
    requires forall j :: 0 <= j < |ids| ==> ids[j] < |t.items| && t.items[ids[j]].res == id && Held(t, ids[j])
    requires forall j :: 0 <= j < |ids| ==> PinsBack(t, id, ids, j, locked)
    requires forall i :: 0 <= i < |t.items| ==> m.items[i] == t.items[i].(version := m.items[i].version)
    requires m.ledger == Regained(t, id, [])
    ensures ReclaimAll(m, ids[..k], locked) == Ok(m.(ledger := Regained(t, id, ids[..k])))
  {
    if k == 0 {
      assert ids[..0] == [];
    } else {
      LoopRegains(t, id, m, ids, k - 1, locked);
      assert ids[..k][..k - 1] == ids[..k - 1];
      TurnRegains(t, id, m.(ledger := Regained(t, id, ids[..k - 1])), ids, k - 1, locked);
    }
  }

  lemma {:induction false} SameLiveItems(a: seq<Item>, b: seq<Item>, id: ResId, from: nat)
    requires from <= |a| == |b| && forall i :: 0 <= i < |a| ==> a[i].live == b[i].live && a[i].res == b[i].res
    ensures LiveItemsFrom(a, id, from) == LiveItemsFrom(b, id, from)
    decreases |a| - from
  {
    if from == |a| {
    } else {
      SameLiveItems(a, b, id, from + 1);
    }
  }

  lemma LoopIsEnough(t: Tables, id: ResId, m: Tables, locked: set<RoomId>)
    requires Cancellable(t, id) && AllComeBack(t, id, locked) && |m.items| == |t.items| && m.hotel == t.hotel
    requires forall i :: 0 <= i < |t.items| ==> m.items[i] == t.items[i].(version := m.items[i].version)
    requires m.ledger == DeleteByReservation(t.ledger, id)
    ensures ReclaimAll(m, LiveItems(m.items, id), locked) == Ok(m.(ledger := t.ledger))
  {
    var ids := LiveItems(t.items, id);
    SameLiveItems(t.items, m.items, id, 0);
    LiveItemsAscend(t.items, id, 0);
    forall j | 0 <= j < |ids| ensures Held(t, ids[j]) {
      assert ComesBack(t, ids[j]);
    }
    assert m.ledger == Regained(t, id, []);
    LoopRegains(t, id, m, ids, |ids|, locked);
    assert ids[..|ids|] == ids;
    AllRegained(t, id, ids);
  }

  lemma ConditionIsEnough(t: Tables, id: ResId, now: int, mayBackdate: bool, locked: set<RoomId>)
    requires Cancellable(t, id) && (Past(t, id, now) ==> mayBackdate) && AllComeBack(t, id, locked)
    ensures var r := CancelThenReactivate(t, id, now, mayBackdate, locked); r.Ok? && Restored(t, r.value)
  {
    Unfold(t, id, now, mayBackdate, locked);
    forall i | 0 <= i < |t.items| && t.items[i].res == id ensures Returns(t.items[i]) {
      assert ComesBack(t, i);
    }
    RevivedItems(t, id);
    LoopIsEnough(t, id, Revived(t, id), locked);
  }

  lemma AllRegained(t: Tables, id: ResId, ids: seq<ItemId>)
    requires LedgerSound(t) && forall i :: 0 <= i < |t.items| && t.items[i].res == id ==> ComesBack(t, i)
    requires forall i :: 0 <= i < |t.items| && t.items[i].res == id && t.items[i].live ==> i in ids
    ensures Regained(t, id, ids) == t.ledger
  {
  }

  // ---- the condition is needed ----

  /** Rows are only added, and only for the items from position `k` of the list on. */
  ghost predicate GrowsFrom(before: Ledger, after: Ledger, ids: seq<ItemId>, k: nat) {
    && (forall s :: s in before ==> s in after && after[s] == before[s])
    && (forall s :: s in after && s !in before ==> exists j :: k <= j < |ids| && after[s].item == Some(ids[j]))
  }

  lemma {:induction false} PrefixSucceeds(m: Tables, ids: seq<ItemId>, locked: set<RoomId>, k: nat)
    requires Stored(m, ids) && ReclaimAll(m, ids, locked).Ok? && k <= |ids|
    ensures ReclaimAll(m, ids[..k], locked).Ok?
    ensures k < |ids| ==> ReclaimAll(m, ids[..k + 1], locked) ==
                          Reclaim(ReclaimAll(m, ids[..k], locked).value, ids[k], locked)
  {
    if k == |ids| {
      assert ids[..k] == ids;
    } else {
      var init := ids[..|ids| - 1];
      PrefixSucceeds(m, init, locked, k);
      assert init[..k] == ids[..k] && ids[..k + 1][..k] == ids[..k];
    }
  }

  /** One turn and whatever follows it. */
  lemma TurnGrows(tk: Tables, locked: set<RoomId>, tn: Tables, l': Ledger, ids: seq<ItemId>, k: nat)
    requires k < |ids| && ids[k] < |tk.items| && tk.items[ids[k]].stay.Valid()
    requires Reclaim(tk, ids[k], locked) == Ok(tn) && GrowsFrom(tn.ledger, l', ids, k + 1)
    ensures GrowsFrom(tk.ledger, l', ids, k)
  {
  }

  /** Later turns of a successful loop only add rows of later items. */
  lemma {:induction false} SuffixGrows(m: Tables, ids: seq<ItemId>, locked: set<RoomId>, t': Tables, k: nat, tk: Tables)
    requires Stored(m, ids) && ReclaimAll(m, ids, locked) == Ok(t') && k <= |ids|
    requires forall j :: 0 <= j < |ids| ==> m.items[ids[j]].stay.Valid()
    requires ReclaimAll(m, ids[..k], locked) == Ok(tk)
    ensures GrowsFrom(tk.ledger, t'.ledger, ids, k)
    decreases |ids| - k
  {
    if k == |ids| {
      assert ids[..k] == ids;
    } else {
      var tn := NextPrefix(m, ids, locked, k, tk);
      SuffixGrows(m, ids, locked, t', k + 1, tn);
      TurnGrows(tk, locked, tn, t'.ledger, ids, k);
    }
  }

  lemma NextPrefix(m: Tables, ids: seq<ItemId>, locked: set<RoomId>, k: nat, tk: Tables) returns (tn: Tables)
    requires Stored(m, ids) && ReclaimAll(m, ids, locked).Ok? && k < |ids| && ReclaimAll(m, ids[..k], locked) == Ok(tk)
    ensures ReclaimAll(m, ids[..k + 1], locked) == Ok(tn)
    ensures tk.items == m.items && Reclaim(tk, ids[k], locked) == Ok(tn)
  {
    PrefixSucceeds(m, ids, locked, k);
    PrefixSucceeds(m, ids, locked, k + 1);
    tn := ReclaimAll(m, ids[..k + 1], locked).value;
  }

  /** If the loop gave the ledger back, then up to each item it had given back exactly the rows of the items before. */
  lemma PrefixIsRegained(t: Tables, id: ResId, ids: seq<ItemId>, k: nat, l: Ledger)
    requires LedgerSound(t) && k <= |ids| && Ascending(ids)
    requires GrowsBy(DeleteByReservation(t.ledger, id), l, ids[..k]) && GrowsFrom(l, t.ledger, ids, k)
    requires forall j :: 0 <= j < |ids| ==> ids[j] < |t.items| && t.items[ids[j]].res == id
    ensures l == Regained(t, id, ids[..k])
  {
  }

  /** A live item of a restored reservation was in one room. */
  lemma RestoredItemHeld(t: Tables, id: ResId, m: Tables, ids: seq<ItemId>, i: ItemId)
    requires LedgerSound(t) && i < |t.items| == |m.items| && t.items[i].res == id && t.items[i].live
    requires m.items[i].room == t.items[i].room && m.items[i].stay == t.items[i].stay
    requires m.ledger == DeleteByReservation(t.ledger, id) && SoldNights(m.items, m.ledger, t.ledger, i)
    ensures Held(t, i)
  {
    var room :| SoldIn(m.items, m.ledger, t.ledger, i, room);
    forall s | s in t.ledger && t.ledger[s].item == Some(i) ensures s !in m.ledger {
      assert RowFits(t, s, t.ledger[s]);
    }
    assert HeldIn(t, i, room);
  }

  lemma PrefixSells(m: Tables, ids: seq<ItemId>, locked: set<RoomId>, k: nat, tk: Tables)
    requires Stored(m, ids) && Ascending(ids) && k <= |ids| && ReclaimAll(m, ids[..k], locked) == Ok(tk)
    requires forall j :: 0 <= j < |ids| ==> m.items[ids[j]].stay.Valid()
    ensures GrowsBy(m.ledger, tk.ledger, ids[..k]) && tk == m.(ledger := tk.ledger)
  {
    ReclaimAllSells(m, ids[..k], locked, tk);
  }

  /** What the loop has before and after the turn of an item, if it gave the ledger back in the end. */
  lemma TurnOfRestored(t: Tables, id: ResId, m: Tables, ids: seq<ItemId>, locked: set<RoomId>, t': Tables, k: nat)
    returns (tn: Tables)
    requires LedgerSound(t) && Stored(m, ids) && Ascending(ids) && ReclaimAll(m, ids, locked) == Ok(t') && k < |ids|
    requires m.ledger == DeleteByReservation(t.ledger, id) && t'.ledger == t.ledger
    requires forall j :: 0 <= j < |ids| ==> ids[j] < |t.items| && t.items[ids[j]].res == id
    requires forall j :: 0 <= j < |ids| ==> m.items[ids[j]].stay.Valid()
    ensures Reclaim(m.(ledger := Regained(t, id, ids[..k])), ids[k], locked) == Ok(tn)
    ensures forall s :: s in tn.ledger ==> s in t.ledger && t.ledger[s] == tn.ledger[s]
  {
    PrefixSucceeds(m, ids, locked, k);
    var tk := ReclaimAll(m, ids[..k], locked).value;
    tn := NextPrefix(m, ids, locked, k, tk);
    SuffixGrows(m, ids, locked, t', k, tk);
    SuffixGrows(m, ids, locked, t', k + 1, tn);
    PrefixSells(m, ids, locked, k, tk);
    PrefixIsRegained(t, id, ids, k, tk.ledger);
  }

  lemma RestoredPinsBack(t: Tables, id: ResId, m: Tables, ids: seq<ItemId>, locked: set<RoomId>, t': Tables, k: nat)
    requires TablesValid(t) && Stored(m, ids) && Ascending(ids) && ReclaimAll(m, ids, locked) == Ok(t') && k < |ids|
    requires m.hotel == t.hotel && m.ledger == DeleteByReservation(t.ledger, id) && t'.ledger == t.ledger
    requires |m.items| == |t.items|
    requires forall i :: 0 <= i < |t.items| ==> m.items[i] == t.items[i].(version := m.items[i].version)
    requires forall j :: 0 <= j < |ids| ==> t.items[ids[j]].res == id && Held(t, ids[j])
    ensures PinsBack(t, id, ids, k, locked)
  {
    forall j | 0 <= j < |ids| ensures m.items[ids[j]].stay.Valid() {
      assert ItemFits(t, t.items[ids[j]]);
    }
    var tn := TurnOfRestored(t, id, m, ids, locked, t', k);
    PinnedHome(t, m.(ledger := Regained(t, id, ids[..k])), ids[k], locked, tn);
  }

  /** The room an item is given on its turn is the room it had. */
  lemma PinnedHome(t: Tables, mk: Tables, i: ItemId, locked: set<RoomId>, tn: Tables)
    requires i < |t.items| == |mk.items| && mk.hotel == t.hotel && Held(t, i) && t.items[i].stay.Valid()
    requires mk.items[i] == t.items[i].(version := mk.items[i].version) && Reclaim(mk, i, locked) == Ok(tn)
    requires forall s :: s in tn.ledger ==> s in t.ledger && t.ledger[s] == tn.ledger[s]
    ensures t.items[i].room.None? ==>
              exists home: RoomId ::
                && HeldIn(t, i, home)
                && AutoPin(t.hotel, mk.ledger, t.items[i].roomType, Nights(t.items[i].stay), locked) == Some(home)
  {
  }

  lemma ConditionIsNeeded(t: Tables, id: ResId, locked: set<RoomId>, t': Tables)
    requires Cancellable(t, id) && Restored(t, t')
    requires ReclaimAll(Revived(t, id), LiveItems(Revived(t, id).items, id), locked) == Ok(t')
    ensures AllComeBack(t, id, locked)
  {
    var m, ids := Revived(t, id), LiveItems(t.items, id);
    assert t'.items == m.items;
    SameLiveItems(t.items, m.items, id, 0);
    LiveItemsAscend(t.items, id, 0);
    forall j | 0 <= j < |ids| ensures m.items[ids[j]].stay.Valid() {
      assert ItemFits(t, t.items[ids[j]]);
    }
    ReclaimAllSells(m, ids, locked, t');
    forall i | 0 <= i < |t.items| && t.items[i].res == id ensures ComesBack(t, i) {
      RestoredComesBack(t, id, m, ids, t', i);
    }
    forall j | 0 <= j < |ids| ensures Held(t, ids[j]) {
      assert ComesBack(t, ids[j]);
    }
    forall k | 0 <= k < |ids| ensures PinsBack(t, id, ids, k, locked) {
      RestoredPinsBack(t, id, m, ids, locked, t', k);
    }
  }

  lemma RestoredComesBack(t: Tables, id: ResId, m: Tables, ids: seq<ItemId>, t': Tables, i: ItemId)
    requires Cancellable(t, id) && m == Revived(t, id) && t'.items == m.items && Restored(t, t')
    requires ids == LiveItems(t.items, id) && GrowsBy(m.ledger, t'.ledger, ids)
    requires forall j :: 0 <= j < |ids| ==> SoldNights(m.items, m.ledger, t'.ledger, ids[j])
    requires i < |t.items| && t.items[i].res == id
    ensures ComesBack(t, i)
  {
    assert t'.items[i] == t.items[i].(version := t'.items[i].version);
    assert m.items[i] == ReviveItems(CancelItems(t.items, id), id)[i];
    if t.items[i].live {
      assert i in ids;
      var j :| 0 <= j < |ids| && ids[j] == i;
      RestoredItemHeld(t, id, m, ids, i);
    } else {
      forall s | s in t.ledger ensures t.ledger[s].item != Some(i) {
        assert RowFits(t, s, t.ledger[s]);
      }
    }
  }

  /**
    * For items with or without assigned rooms: cancel then reactivate gives back the ledger, the statuses and every
    * other column if and only if each item row returns, each live item is in one room, its assigned one if it has
    * any, and each unassigned one is pinned to that room again when its turn comes.
    */
  lemma RepinnedRoundTrip(t: Tables, id: ResId, now: int, mayBackdate: bool, locked: set<RoomId>)
    requires Cancellable(t, id) && (Past(t, id, now) ==> mayBackdate)
    ensures var r := CancelThenReactivate(t, id, now, mayBackdate, locked);
            r.Ok? && Restored(t, r.value) <==> AllComeBack(t, id, locked)
  {
    var r := CancelThenReactivate(t, id, now, mayBackdate, locked);
    if AllComeBack(t, id, locked) {
      ConditionIsEnough(t, id, now, mayBackdate, locked);
    }
    if r.Ok? && Restored(t, r.value) {
      Unfold(t, id, now, mayBackdate, locked);
      ConditionIsNeeded(t, id, locked, r.value);
    }
  }

  /** In particular, with assigned rooms: if and only if each item of the reservation is recoverable. */
  lemma CancelReactivateRoundTrip(t: Tables, id: ResId, now: int, mayBackdate: bool, locked: set<RoomId>)
    requires Ready(t, id) && (Past(t, id, now) ==> mayBackdate)
    ensures var r := CancelThenReactivate(t, id, now, mayBackdate, locked);
            r.Ok? && Restored(t, r.value) <==> AllRecoverable(t, id)
  {
    RepinnedRoundTrip(t, id, now, mayBackdate, locked);
    forall i | 0 <= i < |t.items| && t.items[i].res == id ensures ComesBack(t, i) <==> Recoverable(t, i) {
      assert ExactlyCovered(t, i) <==> HeldIn(t, i, t.items[i].room.value);
      assert Held(t, i) <==> HeldIn(t, i, t.items[i].room.value);
    }
  }

  /** At a real input: an item pinned to room 1 while room 0 was taken comes back in room 0. */
  lemma ComesBackElsewhere() returns (t: Tables, t': Tables)
    ensures Cancellable(t, 0) && |t.items| == 1 && t.ledger == map[Slot(1, 5) := SoldTo(0, 0)] && HeldIn(t, 0, 1)
    ensures CancelThenReactivate(t, 0, 0, false, {}) == Ok(t') && t'.ledger == map[Slot(0, 5) := SoldTo(0, 0)]
  {
    t := OneInRoomOne();
    Unfold(t, 0, 0, false, {});
    var m := Revived(t, 0);
    OneRevived(t, m);
    PinnedToTheFirst(m);
    t' := m.(ledger := map[Slot(0, 5) := SoldTo(0, 0)]);
  }

  lemma OneInRoomOne() returns (t: Tables)
    ensures Cancellable(t, 0) && HeldInRoomOne(t) && !Past(t, 0, 0) && HeldIn(t, 0, 1)
  {
    var item := Item(0, 0, None, None, Stay(5, 6), false, Booked, 1, true);
    t := Tables(Hotel([0, 0], map[], {}), [Reservation(Confirmed, Stay(5, 6), 1, None)], [item],
                map[Slot(1, 5) := SoldTo(0, 0)]);
  }

  predicate HeldInRoomOne(t: Tables) {
    && |t.reservations| == 1 && t.items == [Item(0, 0, None, None, Stay(5, 6), false, Booked, 1, true)]
    && t.hotel.rooms == [0, 0] && t.ledger == map[Slot(1, 5) := SoldTo(0, 0)]
  }

  lemma OneRevived(t: Tables, m: Tables)
    requires HeldInRoomOne(t) && m == Revived(t, 0)
    ensures m.ledger == map[] && m.items == [t.items[0].(version := 3)] && Exclusive(m.items)
  {
    assert DeleteByReservation(t.ledger, 0) == map[];
  }

  lemma PinnedToTheFirst(m: Tables)
    requires |m.items| == 1 && m.items[0].live && m.items[0].res == 0
    requires m.items[0].room == None && m.items[0].plan == None
    requires m.items[0].stay == Stay(5, 6) && m.items[0].roomType == 0 && m.hotel.rooms == [0, 0] && m.ledger == map[]
    ensures ReclaimAll(m, LiveItems(m.items, 0), {}) == Ok(m.(ledger := map[Slot(0, 5) := SoldTo(0, 0)]))
  {
    OnlyLiveItem(m.items);
    OneNightInserted(m.hotel, m.ledger, 0);
    assert FreeOn(m.ledger, 0, [5]) && AutoPin(m.hotel, m.ledger, 0, [5], {}) == Some(0);
    assert Reclaim(m, 0, {}) == Ok(m.(ledger := map[Slot(0, 5) := SoldTo(0, 0)]));
    assert [0][..0] == [] && ReclaimAll(m, [], {}) == Ok(m);
  }
}
