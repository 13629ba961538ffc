/** Status tables and the status rollup (internal/booking/state_machine.go and the SQL rollup query). */
module StateMachine {

  datatype ReservationStatus =
    | Hold | Confirmed | ResCheckedIn | ResCheckedOut | PendingCancellation | ResCancelled | ResArchived

  datatype ItemStatus = Booked | CheckedIn | CheckedOut | NoShow | Overstay | Cancelled | Archived

  /** reservationTransitions: the direct reservation-level moves. */
  predicate ReservationMove(from: ReservationStatus, to: ReservationStatus) {
    match from
    case Hold => to == Confirmed || to == ResCancelled
    case Confirmed => to == ResCancelled
    case ResCheckedOut => to == ResArchived
    case ResCancelled => to == Confirmed
    case ResCheckedIn => false
    case ResArchived => false
    case PendingCancellation => false
  }

  /** itemTransitions. */
  predicate ItemMove(from: ItemStatus, to: ItemStatus) {
    match from
    case Booked => to == CheckedIn || to == NoShow || to == Cancelled
    case CheckedIn => to == CheckedOut || to == Overstay
    case CheckedOut => to == Archived
    case NoShow => to == Cancelled
    case Overstay => to == CheckedIn || to == CheckedOut
    case Cancelled => to == Booked
    case Archived => false
  }

  predicate TerminalItem(s: ItemStatus) {
    s == CheckedOut || s == Cancelled || s == Archived
  }

  predicate TerminalReservation(s: ReservationStatus) {
    s == ResCancelled || s == ResArchived
  }

  /** The statuses the Go rollup counts as terminal: overstay is one of them. */
  const GO_TERMINAL: set<ItemStatus> := {CheckedOut, NoShow, Cancelled, Archived, Overstay}
  /** The statuses the SQL rollup counts as terminal. */
  const SQL_TERMINAL: set<ItemStatus> := {CheckedOut, NoShow, Cancelled, Archived}

  predicate AllIn(items: seq<ItemStatus>, statuses: set<ItemStatus>) {
    forall s :: s in items ==> s in statuses
  }

  lemma AllInSnoc(items: seq<ItemStatus>, last: ItemStatus, statuses: set<ItemStatus>)
    ensures AllIn(items + [last], statuses) <==> AllIn(items, statuses) && last in statuses
  {
  }

  /** The documented rollup, first match wins; it looks only at which statuses occur. */
  function FirstMatch(current: ReservationStatus, items: seq<ItemStatus>): (r: ReservationStatus)
  {
    if AllIn(items, {Cancelled}) then ResCancelled
    else if AllIn(items, GO_TERMINAL) && CheckedOut in items then ResCheckedOut
    else if CheckedIn in items && Booked !in items then ResCheckedIn
    else current
  }

  method RollupReservationStatus(current: ReservationStatus, items: seq<ItemStatus>)
    returns (status: ReservationStatus, changed: bool)
    ensures status == FirstMatch(current, items)
    ensures changed <==> status != current
  {
    if |items| == 0 {
      return ResCancelled, current != ResCancelled;
    }
    var total := |items|;
    var terminal, checkedOut, checkedIn, booked, cancelled := 0, 0, 0, 0, 0;
    for k := 0 to total
      invariant 0 <= terminal <= k && 0 <= cancelled <= k
      invariant 0 <= checkedOut && 0 <= checkedIn && 0 <= booked
      invariant terminal == k <==> AllIn(items[..k], GO_TERMINAL)
      invariant cancelled == k <==> AllIn(items[..k], {Cancelled})
      invariant checkedOut > 0 <==> CheckedOut in items[..k]
      invariant checkedIn > 0 <==> CheckedIn in items[..k]
      invariant booked > 0 <==> Booked in items[..k]
    {
      assert items[..k + 1] == items[..k] + [items[k]];
      AllInSnoc(items[..k], items[k], GO_TERMINAL);
      AllInSnoc(items[..k], items[k], {Cancelled});
      match items[k]
      case CheckedOut => terminal, checkedOut := terminal + 1, checkedOut + 1;
      case NoShow => terminal := terminal + 1;
      case Cancelled => terminal, cancelled := terminal + 1, cancelled + 1;
      case Archived => terminal := terminal + 1;
      case CheckedIn => checkedIn := checkedIn + 1;
      case Overstay => terminal := terminal + 1;
      case Booked => booked := booked + 1;
    }
    assert items[..total] == items;
    if cancelled == total {
      return ResCancelled, current != ResCancelled;
    }
    if terminal == total && checkedOut > 0 {
      return ResCheckedOut, current != ResCheckedOut;
    }
    if checkedIn > 0 && booked == 0 {
      return ResCheckedIn, current != ResCheckedIn;
    }
    return current, false;
  }

  /** COUNT(*) FILTER (WHERE status IN statuses). */
  function CountFilter(items: seq<ItemStatus>, statuses: set<ItemStatus>): (n: nat)
    ensures n <= |items|
    ensures n == |items| <==> AllIn(items, statuses)
    ensures n > 0 <==> exists s :: s in items && s in statuses
  {
    if items == [] then 0
    else
      assert items == [items[0]] + items[1..];
      (if items[0] in statuses then 1 else 0) + CountFilter(items[1..], statuses)
  }

  /** The CASE expression of the SQL rollup; the empty string means unchanged. */
  function SqlRollup(current: ReservationStatus, items: seq<ItemStatus>): ReservationStatus {
    if |items| == 0 then ResCancelled
    else if CountFilter(items, SQL_TERMINAL) == |items| && CountFilter(items, {CheckedOut}) > 0 then ResCheckedOut
    else if CountFilter(items, {CheckedIn}) > 0 && CountFilter(items, {Booked}) == 0 then ResCheckedIn
    else current
  }

  /** The rollup depends neither on the order nor on the number of items with a status. */
  lemma RollupIgnoresOrder(current: ReservationStatus, a: seq<ItemStatus>, b: seq<ItemStatus>)
    requires multiset(a) == multiset(b)
    ensures FirstMatch(current, a) == FirstMatch(current, b)
    ensures SqlRollup(current, a) == SqlRollup(current, b)
  {
    forall s ensures s in a <==> s in b {
      assert s in a <==> s in multiset(a);
      assert s in b <==> s in multiset(b);
    }
    assert |a| == |multiset(a)| == |multiset(b)| == |b|;
    SqlByOccurrence(current, a);
    SqlByOccurrence(current, b);
  }

  lemma SqlByOccurrence(current: ReservationStatus, items: seq<ItemStatus>)
    ensures SqlRollup(current, items) ==
            if items == [] then ResCancelled
            else if AllIn(items, SQL_TERMINAL) && CheckedOut in items then ResCheckedOut
            else if CheckedIn in items && Booked !in items then ResCheckedIn
            else current
  {
  }

  lemma RollupIdempotent(current: ReservationStatus, items: seq<ItemStatus>)
    ensures FirstMatch(FirstMatch(current, items), items) == FirstMatch(current, items)
    ensures SqlRollup(SqlRollup(current, items), items) == SqlRollup(current, items)
  {
  }

  /** The Go and the SQL rollup disagree on exactly two families of item lists. */
  lemma RollupsDifferExactly(current: ReservationStatus, items: seq<ItemStatus>)
    ensures FirstMatch(current, items) != SqlRollup(current, items)
            <==>
            || (items != [] && AllIn(items, {Cancelled}) && current != ResCancelled)
            || (AllIn(items, GO_TERMINAL) && CheckedOut in items && Overstay in items && current != ResCheckedOut)
  {
  }

  /** The edges of the two tables, and the statuses without a way out that the guards use. */
  lemma TablesAsSets(a: ReservationStatus, b: ReservationStatus, c: ItemStatus, d: ItemStatus)
    ensures ReservationMove(a, b) <==>
            (a, b) in {(Hold, Confirmed), (Hold, ResCancelled), (Confirmed, ResCancelled), (ResCancelled, Confirmed),
                       (ResCheckedOut, ResArchived)}
    ensures ItemMove(c, d) <==>
            (c, d) in {(Booked, CheckedIn), (Booked, NoShow), (Booked, Cancelled), (CheckedIn, CheckedOut),
                       (CheckedIn, Overstay), (CheckedOut, Archived), (NoShow, Cancelled), (Overstay, CheckedIn),
                       (Overstay, CheckedOut), (Cancelled, Booked)}
    ensures TerminalReservation(a) <==> a in {ResCancelled, ResArchived}
    ensures TerminalItem(c) <==> c in {CheckedOut, Cancelled, Archived}
  {
  }
}
