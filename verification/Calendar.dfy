/** Calendar days, half-open stays and the night lists of internal/platform/util/time.go. */
module Calendar {

  /** Days are counted from 0001-01-01, Go's zero time, which is day 0. */
  type Day = int

  const ZERO_DAY: Day := 0
  const SECONDS_PER_DAY := 86400

  /** Midnight of a day, in seconds since day 0. */
  function Midnight(d: Day): int {
    d * SECONDS_PER_DAY
  }

  /** The calendar day that contains an instant. */
  function DayOf(instant: int): Day {
    instant / SECONDS_PER_DAY
  }

  /** time.Weekday: Sunday is 0, and day 0 was a Monday. */
  function Weekday(d: Day): int {
    (d + 1) % 7
  }

  /** A stay period: arrival inclusive, departure exclusive. */
  datatype Stay = Stay(arrival: Day, departure: Day) {
    predicate Valid() {
      arrival < departure
    }

    predicate Has(d: Day) {
      arrival <= d < departure
    }

    predicate Overlaps(other: Stay) {
      arrival < other.departure && other.arrival < departure
    }
  }

  /** The nights of a stay, in order. */
  function Nights(s: Stay): (nights: seq<Day>)
    ensures forall d :: d in nights <==> s.Has(d)
  {
    if s.Valid() then
      var nights := seq(s.departure - s.arrival, k => s.arrival + k);
      assert forall d | s.Has(d) :: nights[d - s.arrival] == d;
      nights
    else []
  }

  predicate Ascending(days: seq<Day>) {
    forall i, j :: 0 <= i < j < |days| ==> days[i] < days[j]
  }

  /** The days of `days` outside `other`, in their original order. */
  function Minus(days: seq<Day>, other: seq<Day>): (r: seq<Day>)
    ensures forall d :: d in r <==> d in days && d !in other
  {
    if days == [] then []
    else
      var init, last := days[..|days| - 1], days[|days| - 1];
      var rest := Minus(init, other);
      assert days == init + [last];
      if last in other then rest else rest + [last]
  }

  lemma {:induction false} MinusAscends(days: seq<Day>, other: seq<Day>)
    requires Ascending(days)
    ensures Ascending(Minus(days, other))
  {
    if days == [] {
    } else {
      var init, last := days[..|days| - 1], days[|days| - 1];
      MinusAscends(init, other);
      var rest := Minus(init, other);
      forall k | 0 <= k < |rest| ensures rest[k] < last {
        assert rest[k] in init;
      }
    }
  }

  method NightsBetween(arrival: Day, departure: Day) returns (dates: seq<Day>)
    ensures dates == Nights(Stay(arrival, departure))
  {
    dates := [];
    var current := arrival;
    while current < departure
      invariant arrival <= current
      invariant current <= departure || dates == []
      invariant |dates| == current - arrival
      invariant forall k :: 0 <= k < |dates| ==> dates[k] == arrival + k
      decreases departure - current
    {
      dates := dates + [current];
      current := current + 1;
    }
  }

  /** The loop shared by RemovedDates (old, new) and AddedDates (new, old): build the set, then filter. */
  method DatesOutside(days: seq<Day>, other: seq<Day>) returns (outside: seq<Day>)
    ensures outside == Minus(days, other)
  {
    var otherSet: set<Day> := {};
    for k := 0 to |other|
      invariant forall d :: d in otherSet <==> d in other[..k]
    {
      otherSet := otherSet + {other[k]};
    }
    assert other[..|other|] == other;
    outside := [];
    for k := 0 to |days|
      invariant outside == Minus(days[..k], other)
    {
      assert days[..k + 1][..k] == days[..k];
      if days[k] !in otherSet {
        outside := outside + [days[k]];
      }
    }
    assert days[..|days|] == days;
  }

  /**
    * What a change of dates removes: the first removed night is the old arrival exactly when the arrival
    * moved later or the new stay lies wholly before the old one, and otherwise it is the new departure.
    */
  lemma FirstRemovedNight(oldStay: Stay, newStay: Stay)
    requires oldStay.Valid() && newStay.Valid()
    ensures var removed := Minus(Nights(oldStay), Nights(newStay));
            && (removed == [] <==> newStay.arrival <= oldStay.arrival && oldStay.departure <= newStay.departure)
            && (removed != [] ==>
                  removed[0] == if oldStay.arrival < newStay.arrival || newStay.departure <= oldStay.arrival
                  then oldStay.arrival else newStay.departure)
  {
    var removed := Minus(Nights(oldStay), Nights(newStay));
    MinusAscends(Nights(oldStay), Nights(newStay));
    assert removed != [] ==> removed[0] in removed;
    if newStay.arrival <= oldStay.arrival && oldStay.departure <= newStay.departure {
      assert forall d :: d !in removed;
    } else {
      var first := if oldStay.arrival < newStay.arrival || newStay.departure <= oldStay.arrival
      then oldStay.arrival else newStay.departure;
      assert oldStay.Has(first) && !newStay.Has(first);
      assert first in removed;
    }
  }

  /** An instant lies in its day. */
  lemma DayContains(instant: int)
    ensures DayOf(instant) * 86400 <= instant < (DayOf(instant) + 1) * 86400
  {
  }

  /** Weekdays count from Sunday and repeat every seven days; 0001-01-01 and 2024-01-01 were Mondays. */
  lemma WeekdaysRepeat(d: Day)
    ensures 0 <= Weekday(d) <= 6 && Weekday(d + 7) == Weekday(d)
    ensures Weekday(d + 1) == if Weekday(d) == 6 then 0 else Weekday(d) + 1
    ensures Weekday(0) == 1 && Weekday(738885) == 1
  {
  }

  /** Two proper stays overlap exactly when they share a night. */
  lemma OverlapIsSharedNight(a: Stay, b: Stay)
    requires a.arrival < a.departure && b.arrival < b.departure
    ensures a.Overlaps(b) <==> exists d :: a.Has(d) && b.Has(d)
  {
    if a.Overlaps(b) {
      var d := if a.arrival < b.arrival then b.arrival else a.arrival;
      assert a.Has(d) && b.Has(d);
    }
  }
}
