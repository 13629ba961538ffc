/** Cancel and reactivate with any run of other requests and sweeps in between. */
module Interleaved {
  import opened Basics
  import opened StateMachine
  import opened Tables
  import opened Booking
  import opened Invariants
  import opened Runs
  import opened RoundTrip

  lemma {:induction false} RunKeepsHotel(s: System, es: seq<Event>)
    requires SystemValid(s)
    ensures Run(s, es).tables.hotel == s.tables.hotel
  {
    if es == [] {
    } else {
      RunKeepsHotel(s, es[..|es| - 1]);
      RunKeepsValid(s, es[..|es| - 1]);
      StepGood(Run(s, es[..|es| - 1]), es[|es| - 1]);
    }
  }

  /** From `before` to `after` the reservation and its items are left alone; everything else may change. */
  predicate LeftAlone(before: Tables, after: Tables, id: ResId) {
    && id < |before.reservations| <= |after.reservations| && |before.items| <= |after.items|
    && after.reservations[id] == before.reservations[id]
    && (forall i :: 0 <= i < |before.items| && before.items[i].res == id ==> after.items[i] == before.items[i])
    && (forall i :: 0 <= i < |after.items| && after.items[i].res == id ==>
                      i < |before.items| && before.items[i].res == id)
  }

  /** Nobody has taken a slot that the reservation held in `t`. */
  predicate SlotsFree(t: Tables, now: Tables, id: ResId) {
    forall s :: s in t.ledger && t.ledger[s].res == Some(id) ==> s !in now.ledger
  }

  /** `t'` is `now` with the reservation's row, items and ledger rows as they were in `t`, up to versions. */
  ghost predicate PutBack(t: Tables, now: Tables, t': Tables, id: ResId) {
    && id < |t.reservations| <= |now.reservations| && |t.items| <= |now.items| == |t'.items|
    && t'.hotel == now.hotel
    && t'.reservations == now.reservations[id := t.reservations[id].(version := t.reservations[id].version + 2)]
    && (forall i :: 0 <= i < |t.items| && t.items[i].res == id ==>
                      t'.items[i] == t.items[i].(version := t'.items[i].version))
    && (forall i :: 0 <= i < |now.items| && !(i < |t.items| && t.items[i].res == id) ==> t'.items[i] == now.items[i])
    && (forall s :: s in t'.ledger <==> s in now.ledger || (s in t.ledger && t.ledger[s].res == Some(id)))
    && (forall s :: s in t'.ledger ==> t'.ledger[s] == if s in now.ledger then now.ledger[s] else t.ledger[s])
  }

  /** The tables just before the reactivation loop, when it starts from `now`. */
  function Reopened(now: Tables, id: ResId, version: int): Tables
    requires id < |now.reservations|
  {
    now.(reservations := now.reservations[id := now.reservations[id].(status := Confirmed, version := version + 1)],
    items := ReviveItems(now.items, id))
  }

  lemma CancelledRow(t: Tables, id: ResId, t1: Tables)
    requires Ready(t, id) && Cancel(t, id, t.reservations[id].version) == Ok(t1)
    ensures t1.hotel == t.hotel && |t1.reservations| == |t.reservations| && t1.items == CancelItems(t.items, id)
    ensures t1.reservations[id] == t.reservations[id].(status := ResCancelled,
                                   version := t.reservations[id].version + 1)
  {
  }

  /** The revived items of the reservation are what they were before the cancellation. */
  lemma ItemsBack(t: Tables, id: ResId, now: Tables)
    requires AllRecoverable(t, id) && !HasCheckedIn(t.items, id) && id < |now.reservations|
    requires LeftAlone(t.(items := CancelItems(t.items, id), reservations := now.reservations), now, id)
    ensures forall i :: 0 <= i < |t.items| && t.items[i].res == id ==>
                          var back := ReviveItems(now.items, id)[i]; back == t.items[i].(version := back.version)
    ensures forall i :: i in LiveItems(ReviveItems(now.items, id), id) <==>
                        0 <= i < |t.items| && t.items[i].res == id && t.items[i].live
  {
  }

  /** The slots the loop wants are exactly the slots the reservation held. */
  lemma WantedWereHeld(t: Tables, id: ResId, items: seq<Item>, ids: seq<ItemId>, s: Slot)
    requires LedgerSound(t) && AllRecoverable(t, id) && |t.items| <= |items|
    requires forall i :: i in ids <==> 0 <= i < |t.items| && t.items[i].res == id && t.items[i].live
    requires forall i :: 0 <= i < |t.items| && t.items[i].res == id ==>
                           items[i].room == t.items[i].room && items[i].stay == t.items[i].stay
    ensures (exists i :: i in ids && Wants(items, i, s)) <==> s in t.ledger && t.ledger[s].res == Some(id)
    ensures forall i :: i in ids && Wants(items, i, s) ==> s in t.ledger && t.ledger[s] == SoldTo(id, i)
  {
  }

  /** The loop after the interruption: it succeeds exactly on free slots, and then adds exactly the rows held before. */
  lemma LoopPutsBack(t: Tables, id: ResId, m: Tables, ids: seq<ItemId>, locked: set<RoomId>)
    requires Ready(t, id) && AllRecoverable(t, id) && ItemsValid(m) && m.hotel == t.hotel && |t.items| <= |m.items|
    requires ids == LiveItems(m.items, id)
    requires forall i :: i in ids <==> 0 <= i < |t.items| && t.items[i].res == id && t.items[i].live
    requires forall i :: 0 <= i < |t.items| && t.items[i].res == id ==>
                           m.items[i] == t.items[i].(version := m.items[i].version)
    ensures ReclaimAll(m, ids, locked).Ok? <==> SlotsFree(t, m, id)
    ensures ReclaimAll(m, ids, locked).Ok? ==>
              var l := ReclaimAll(m, ids, locked).value.ledger;
              && (forall s :: s in l <==> s in m.ledger || (s in t.ledger && t.ledger[s].res == Some(id)))
              && (forall s :: s in l ==> l[s] == if s in m.ledger then m.ledger[s] else t.ledger[s])
  {
    forall s ensures (exists i :: i in ids && Wants(m.items, i, s)) <==> s in t.ledger && t.ledger[s].res == Some(id)
      ensures forall i :: i in ids && Wants(m.items, i, s) ==> s in t.ledger && t.ledger[s] == SoldTo(id, i)
    {
      WantedWereHeld(t, id, m.items, ids, s);
    }
    forall i | i in ids ensures m.items[i].stay.Valid() {
      assert ItemFits(m, m.items[i]);
    }
    if SlotsFree(t, m, id) {
      LiveItemsAscend(m.items, id, 0);
      ReclaimAllSucceeds(m, ids, locked);
    }
    if ReclaimAll(m, ids, locked).Ok? {
      ReclaimAllAdds(m, ids, locked);
      forall s | s in t.ledger && t.ledger[s].res == Some(id) ensures s !in m.ledger {
        var i :| i in ids && Wants(m.items, i, s);
      }
    }
  }

  lemma ReopensFirst(later: Tables, id: ResId, version: int, now: int, mayBackdate: bool, locked: set<RoomId>)
    requires id < |later.reservations| && later.reservations[id].status == ResCancelled
    requires later.reservations[id].version == version && (Past(later, id, now) ==> mayBackdate)
    ensures var m := Reopened(later, id, version);
            Reactivate(later, id, version, now, mayBackdate, locked) ==
            if Exclusive(m.items) then ReclaimAll(m, LiveItems(m.items, id), locked) else Err(StaysOverlap)
  {
  }

  /**
    * Cancel, then any run of requests and sweeps that leaves the reservation and its items alone, then reactivate:
    * this succeeds if and only if no slot the reservation held was taken and the revived items overlap no live item
    * in their rooms, and then the row, the items and the ledger rows are back and nothing else is touched.
    */
  lemma RoundTripAcrossRun(t: Tables, id: ResId, s: System, es: seq<Event>, now: int, mayBackdate: bool,
                           locked: set<RoomId>)
    requires Ready(t, id) && AllRecoverable(t, id) && (Past(t, id, now) ==> mayBackdate)
    requires SystemValid(s) && Cancel(t, id, t.reservations[id].version) == Ok(s.tables)
    requires LeftAlone(s.tables, Run(s, es).tables, id)
    ensures var later := Run(s, es).tables;
            var r := Reactivate(later, id, t.reservations[id].version + 1, now, mayBackdate, locked);
            && (r.Ok? <==> Exclusive(ReviveItems(later.items, id)) && SlotsFree(t, later, id))
            && (r.Ok? ==> PutBack(t, later, r.value, id))
  {
    var later, v := Run(s, es).tables, t.reservations[id].version;
    RunKeepsValid(s, es);
    RunKeepsHotel(s, es);
    CancelledRow(t, id, s.tables);
    ItemsBack(t, id, later);
    var m := Reopened(later, id, v + 1);
    var ids := LiveItems(m.items, id);
    var r := Reactivate(later, id, v + 1, now, mayBackdate, locked);
    ReopensFirst(later, id, v + 1, now, mayBackdate, locked);
    if Exclusive(m.items) {
      forall i | 0 <= i < |m.items| ensures ItemFits(m, m.items[i]) {
        assert ItemFits(later, later.items[i]);
      }
      LoopPutsBack(t, id, m, ids, locked);
    }
  }
}
