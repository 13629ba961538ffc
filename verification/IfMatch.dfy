/** The one routed write that escapes optimistic locking. */
module IfMatch {
  import opened Basics
  import opened Calendar
  import opened StateMachine
  import opened Tables
  import opened Booking
  import opened Invariants
  import opened Runs
  import opened Envelope

  const ONE_NIGHT := Stay(5, 6)

  function Input(room: RoomId): ItemInput {
    ItemInput(0, ONE_NIGHT, Some(room), None, 1)
  }

  /** A hotel with one confirmed reservation whose items all stay on the same night, and with `room` free. */
  ghost predicate Roomy(t: Tables, room: RoomId) {
    && |t.reservations| == 1 && t.reservations[0].status == Confirmed
    && room < |t.hotel.rooms| && t.hotel.limits == map[0 := Limits(0, 0)]
    && Exclusive(t.items)
    && (forall i :: 0 <= i < |t.items| ==> t.items[i].live && t.items[i].res == 0 && t.items[i].stay == ONE_NIGHT)
    && (forall i :: 0 <= i < |t.items| ==> t.items[i].room != Some(room))
    && (forall s :: s in t.ledger ==> s.room != room)
  }

  lemma FreeRoomTakesItem(t: Tables, room: RoomId)
    requires Roomy(t, room)
    ensures InsertItem(t, Input(room), Booked, 0, {}).Ok?
    ensures var t' := InsertItem(t, Input(room), Booked, 0, {}).value;
            && t' == t.(items := t.items + [NewItem(Input(room), Booked, 0)], ledger := t'.ledger)
            && Exclusive(t'.items) && forall s :: s in t'.ledger ==> s in t.ledger || s.room == room
  {
  }

  lemma SameNightHull(items: seq<Item>)
    requires items != []
    requires forall i :: 0 <= i < |items| ==> items[i].live && items[i].res == 0 && items[i].stay == ONE_NIGHT
    ensures LiveHull(items, 0) == ONE_NIGHT
  {
    assert Mine(items, 0, 0);
    LiveHullSpans(items, 0, ONE_NIGHT);
  }

  /** Adding an item to a free room commits, whatever the version, and leaves every other free room free. */
  lemma AddCommits(t: Tables, room: RoomId, others: set<RoomId>, version: int) returns (t': Tables)
    requires Roomy(t, room) && room !in others && forall r :: r in others ==> Roomy(t, r)
    ensures Exec(t, DoAddItem(0, version, Input(room), {})) == Ok(t') && forall r :: r in others ==> Roomy(t', r)
    ensures t'.reservations[0].version == t.reservations[0].version + 1
  {
    FreeRoomTakesItem(t, room);
    var t1 := InsertItem(t, Input(room), Booked, 0, {}).value;
    SameNightHull(t1.items);
    t' := RecomputeEnvelope(t1, 0).value;
    EnvelopeKeeps(t1, 0, t');
    forall r | r in others ensures Roomy(t', r) {
      assert Roomy(t, r);
    }
  }

  lemma Vacant(version: int) returns (s: System)
    ensures SystemValid(s) && Roomy(s.tables, 0) && Roomy(s.tables, 1) && s.tables.reservations[0].version == version
  {
    var hotel := Hotel([0, 0], map[0 := Limits(0, 0)], {});
    s := System(Tables(hotel, [Reservation(Confirmed, ONE_NIGHT, version, None)], [], map[]), {}, {}, {});
  }

  /**
    * At a real input: two AddItem requests carry the stored version, the first commits and moves it, and the second
    * commits all the same.
    */
  lemma StaleAddCommits(version: int) returns (s: System, first: Op, second: Op)
    ensures SystemValid(s) && first.DoAddItem? && second.DoAddItem? && first.id == second.id
    ensures first.version == second.version == version
    ensures Exec(s.tables, first).Ok? && VersionOf(s.tables, TargetRow(first)) == Some(version)
    ensures var t1 := Next(s, Request(first)).tables;
            Exec(t1, second).Ok? && VersionOf(t1, TargetRow(second)) == Some(version + 1)
  {
    s := Vacant(version);
    var t := s.tables;
    first, second := DoAddItem(0, version, Input(0), {}), DoAddItem(0, version, Input(1), {});
    var t1 := AddCommits(t, 0, {1}, version);
    var t2 := AddCommits(t1, 1, {}, version);
    StoredVersion(t, version);
    StoredVersion(t1, version + 1);
    CommittedStep(s, first, t1);
  }

  lemma StoredVersion(t: Tables, version: int)
    requires |t.reservations| == 1 && t.reservations[0].version == version
    ensures VersionOf(t, ReservationRow(0)) == Some(version)
  {
  }

  lemma CommittedStep(s: System, op: Op, t1: Tables)
    requires Exec(s.tables, op) == Ok(t1)
    ensures Next(s, Request(op)).tables == t1
  {
  }

  // ---- the exact law ----

  /** The ops from routes that demand If-Match. */
  predicate CarriesVersion(op: Op) {
    GuardedRow(op).Some? || op.DoAddItem?
  }

  /** The row whose version the client names. */
  function TargetRow(op: Op): RowName
    requires CarriesVersion(op)
  {
    if op.DoAddItem? then ReservationRow(op.id) else GuardedRow(op).value
  }

  /** A valid state in which the op commits although the stored version is not the one it carries. */
  ghost predicate CommitsStale(t: Tables, op: Op)
    requires CarriesVersion(op)
  {
    TablesValid(t) && Commits(t, op) && VersionOf(t, TargetRow(op)) != Some(op.version)
  }

  /** What AddItem does never depends on the version it carries. */
  lemma AddItemIgnoresIfMatch(t: Tables, id: ResId, v: int, w: int, input: ItemInput, locked: set<RoomId>)
    ensures Exec(t, DoAddItem(id, v, input, locked)) == Exec(t, DoAddItem(id, w, input, locked))
  {
  }

  lemma {:induction false} AboveAll(rooms: set<RoomId>, least: nat) returns (n: nat)
    ensures n >= least && forall r :: r in rooms ==> r < n
  {
    if rooms == {} {
      n := least;
    } else {
      var r :| r in rooms;
      n := AboveAll(rooms - {r}, if least <= r then r + 1 else least);
      assert forall x :: x in rooms ==> x == r || x in rooms - {r};
    }
  }

  /** A hotel with enough rooms of the wanted type, and reservation `id` confirmed under another version. */
  function Spacious(op: Op, rooms: nat): Tables
    requires op.DoAddItem?
  {
    var input := op.input;
    var rates := if input.plan.Some? then set w | 0 <= w < 7 :: Rate(input.roomType, input.plan.value, w) else {};
    var row := Reservation(Confirmed, input.stay, op.version + 1, None);
    Tables(Hotel(seq(rooms, _ => input.roomType), map[input.roomType := Limits(input.guests, 0)], rates),
           seq(op.id + 1, _ => row), [], map[])
  }

  lemma SpaciousTakesItem(op: Op, rooms: nat)
    requires op.DoAddItem? && op.input.stay.Valid() && rooms > 0 && forall r :: r in op.locked ==> r < rooms - 1
    requires op.input.room.Some? ==> op.input.room.value < rooms
    ensures var r := InsertItem(Spacious(op, rooms), op.input, Booked, op.id, op.locked);
            && r.Ok? && r.value == Spacious(op, rooms).(items := r.value.items, ledger := r.value.ledger)
            && r.value.items == [NewItem(op.input, Booked, op.id)]
  {
    var t := Spacious(op, rooms);
    assert RatesResolve(t.hotel, op.input.roomType, op.input.plan, Nights(op.input.stay));
    EmptyHotelTakesItem(t, op.input, op.id, op.locked, rooms - 1);
  }

  /** With no item and no row yet, an input that passes the guards is inserted. */
  lemma EmptyHotelTakesItem(t: Tables, input: ItemInput, res: ResId, locked: set<RoomId>, free: RoomId)
    requires t.items == [] && t.ledger == map[] && input.stay.Valid() && Occupiable(t.hotel, input)
    requires RatesResolve(t.hotel, input.roomType, input.plan, Nights(input.stay)) && RoomExists(t.hotel, input.room)
    requires free < |t.hotel.rooms| && t.hotel.rooms[free] == input.roomType && free !in locked
    ensures var r := InsertItem(t, input, Booked, res, locked);
            && r.Ok? && r.value == t.(items := r.value.items, ledger := r.value.ledger)
            && r.value.items == [NewItem(input, Booked, res)]
  {
  }

  lemma AcceptsStale(op: Op) returns (t: Tables)
    requires op.DoAddItem? && op.input.stay.Valid()
    ensures CommitsStale(t, op)
  {
    var rooms := AboveAll(op.locked, if op.input.room.Some? then op.input.room.value + 1 else 0);
    rooms := rooms + 1;
    t := Spacious(op, rooms);
    SpaciousTakesItem(op, rooms);
    FirstItemCommits(t, op, InsertItem(t, op.input, Booked, op.id, op.locked).value);
  }

  lemma FirstItemCommits(t: Tables, op: Op, t1: Tables)
    requires op.DoAddItem? && op.input.stay.Valid() && op.id < |t.reservations|
    requires !TerminalReservation(t.reservations[op.id].status)
    requires InsertItem(t, op.input, Booked, op.id, op.locked) == Ok(t1) && t1.reservations == t.reservations
    requires t1.items == [NewItem(op.input, Booked, op.id)]
    ensures Exec(t, op).Ok?
  {
  }

  /**
    * The exact law: of all requests that carry an If-Match version, those that can commit in some valid state
    * against a stored version other than the one they carry are the AddItem requests with a proper stay.
    */
  lemma StaleCommitIff(op: Op)
    requires CarriesVersion(op)
    ensures (exists t :: CommitsStale(t, op)) <==> op.DoAddItem? && op.input.stay.Valid()
  {
    if op.DoAddItem? && op.input.stay.Valid() {
      var t := AcceptsStale(op);
    }
    forall t | CommitsStale(t, op) ensures op.DoAddItem? && op.input.stay.Valid() {
      if !op.DoAddItem? {
        GuardedCommit(t, op);
      }
    }
  }
}
