/** Which rows the sweeps pick up, and what that means for a reservation or item that a sweep later changes. */
module Sweeps {
  import opened Basics
  import opened Calendar
  import opened StateMachine
  import opened Tables
  import opened Booking
  import opened Runs

  /** The row is a hold whose time ran out before `now`. */
  predicate PastExpiry(row: Reservation, now: int) {
    row.status == Hold && row.expiresAt.Some? && row.expiresAt.value < now
  }

  /** A read of expired holds adds exactly the named rows whose expiry lies before `now`. */
  lemma FindsExpiredHolds(s: System, ids: set<ResId>, now: int, id: ResId, row: Reservation)
    ensures (id, row) in Next(s, FindHolds(ids, now)).holds <==>
            || (id, row) in s.holds
            || (id in ids && id < |s.tables.reservations| && row == s.tables.reservations[id] && PastExpiry(row, now))
  {
  }

  /** A read of overstays adds exactly the named checked-in items whose departure is over by more than 100 minutes. */
  lemma FindsOverstays(s: System, items: set<ItemId>, now: int, i: ItemId, row: Item)
    ensures (i, row) in Next(s, FindOverdue(items, now)).overdue <==>
            || (i, row) in s.overdue
            || (&& i in items && i < |s.tables.items| && row == s.tables.items[i] && row.status == CheckedIn
                && now - row.stay.departure * 86400 > 100 * 60)
  {
  }

  /** A read of archivable reservations adds exactly the named checked-out and cancelled ones. */
  lemma FindsArchivable(s: System, ids: set<ResId>, id: ResId, row: Reservation)
    ensures (id, row) in Next(s, FindArchivable(ids)).archivable <==>
            || (id, row) in s.archivable
            || (&& id in ids && id < |s.tables.reservations| && row == s.tables.reservations[id]
                && (row.status == ResCheckedOut || row.status == ResCancelled))
  {
  }

  /** Reads change no table, and nothing else changes what the sweeps have read. */
  lemma OnlyReadsRemember(s: System, e: Event)
    ensures e.FindHolds? || e.FindOverdue? || e.FindArchivable? ==> Next(s, e).tables == s.tables
    ensures !e.FindHolds? ==> Next(s, e).holds == s.holds
    ensures !e.FindOverdue? ==> Next(s, e).overdue == s.overdue
    ensures !e.FindArchivable? ==> Next(s, e).archivable == s.archivable
  {
  }

  /** Over every run: a hold that a sweep holds was past its stored expiry when some earlier step read it. */
  lemma {:induction false} HeldWasExpired(s: System, es: seq<Event>, id: ResId, seen: Reservation) returns (j: nat)
    requires s.holds == {} && (id, seen) in Run(s, es).holds
    ensures j < |es| && es[j].FindHolds? && id in es[j].ids && PastExpiry(seen, es[j].now)
    ensures id < |Run(s, es[..j]).tables.reservations| && Run(s, es[..j]).tables.reservations[id] == seen
  {
    var init, e := es[..|es| - 1], es[|es| - 1];
    OnlyReadsRemember(Run(s, init), e);
    if (id, seen) in Run(s, init).holds {
      j := HeldWasExpired(s, init, id, seen);
      assert init[..j] == es[..j];
    } else {
      FindsExpiredHolds(Run(s, init), e.ids, e.now, id, seen);
      j := |es| - 1;
    }
  }

  /**
    * Over every run: a reservation that the hold sweep changes was, at some earlier read, the very hold that is still
    * stored, and its expiry lay before the time of that read.
    */
  lemma OnlyExpiredHoldsAreSwept(s: System, es: seq<Event>, id: ResId, seen: Reservation) returns (j: nat)
    requires SystemValid(s) && s.holds == {} && Next(Run(s, es), SweepHold(id, seen)) != Run(s, es)
    ensures j < |es| && es[j].FindHolds? && id in es[j].ids && PastExpiry(seen, es[j].now)
    ensures id < |Run(s, es).tables.reservations| && Run(s, es).tables.reservations[id] == seen
  {
    j := HeldWasExpired(s, es, id, seen);
    HoldSweepAllOrNothing(s, es, id, seen);
  }

  /** Likewise an item that the overstay sweep changes was read as checked in and more than 100 minutes overdue. */
  lemma {:induction false} OverdueWasLate(s: System, es: seq<Event>, i: ItemId, seen: Item) returns (j: nat)
    requires s.overdue == {} && (i, seen) in Run(s, es).overdue
    ensures j < |es| && es[j].FindOverdue? && i in es[j].items && seen.status == CheckedIn
    ensures es[j].now - seen.stay.departure * 86400 > 100 * 60
  {
    var init, e := es[..|es| - 1], es[|es| - 1];
    OnlyReadsRemember(Run(s, init), e);
    if (i, seen) in Run(s, init).overdue {
      j := OverdueWasLate(s, init, i, seen);
    } else {
      FindsOverstays(Run(s, init), e.items, e.now, i, seen);
      j := |es| - 1;
    }
  }

  /** A website hold is swept no sooner than a quarter of an hour after it was made, any other no sooner than half. */
  lemma HoldsLiveTheirTime(t: Tables, source: Source, inputs: seq<ItemInput>, made: int, midnightToday: int,
                           locked: set<RoomId>, now: int)
    requires source == Website || source == Internal
    requires Create(t, source, false, inputs, made, midnightToday, locked).Ok?
    ensures var t' := Create(t, source, false, inputs, made, midnightToday, locked).value;
            && |t'.reservations| == |t.reservations| + 1
            && (PastExpiry(t'.reservations[|t.reservations|], now) <==>
                now > made + if source == Website then 15 * 60 else 30 * 60)
  {
    var row := Reservation(Hold, InputHull(inputs), 1, Some(made + if source == Website then 15 * 60 else 30 * 60));
    var t1 := t.(reservations := t.reservations + [row]);
    KeepsReservations(t1, inputs, Booked, |t.reservations|, locked);
  }

  lemma {:induction false} KeepsReservations(t: Tables, inputs: seq<ItemInput>, status: ItemStatus, res: ResId,
                                             locked: set<RoomId>)
    requires InsertItems(t, inputs, status, res, locked).Ok?
    ensures InsertItems(t, inputs, status, res, locked).value.reservations == t.reservations
  {
    if inputs == [] {
    } else {
      KeepsReservations(t, inputs[..|inputs| - 1], status, res, locked);
    }
  }
}
