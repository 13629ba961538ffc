/** The read-through availability cache of internal/booking/availability.go. */
module ReadThrough {
  import opened Basics
  import opened Calendar
  import opened Tables
  import opened Booking
  import opened Availability

  /** yop:availability:{property}:{room type}:{date}, for one property. */
  datatype Key = Key(roomType: TypeId, day: Day)

  /** A cached string: a parsable number or anything else. */
  datatype Cached = Number(n: int) | Garbage

  datatype DateAvailability = DateAvailability(day: Day, available: int)

  /** Every number in the cache is the count over the ledger. */
  ghost predicate Agrees(t: Tables, cache: map<Key, Cached>) {
    forall k :: k in cache && cache[k].Number? ==> cache[k].n == InlineAvailable(t, k.roomType, k.day)
  }

  /** The direct answer: one count per night, in order. */
  function DirectCount(t: Tables, roomType: TypeId, nights: seq<Day>): seq<DateAvailability> {
    seq(|nights|, k requires 0 <= k < |nights| => DateAvailability(nights[k], InlineAvailable(t, roomType, nights[k])))
  }

  predicate Hit(cache: map<Key, Cached>, roomType: TypeId, d: Day) {
    Key(roomType, d) in cache && cache[Key(roomType, d)].Number?
  }

  class AvailabilityReader {
    var tables: Tables
    var cache: map<Key, Cached>

    constructor (tables: Tables)
      ensures this.tables == tables && cache == map[]
    {
      this.tables, cache := tables, map[];
    }

    /** SELECT over generate_series from the first to the last day, both included. */
    method QueryRange(roomType: TypeId, first: Day, last: Day) returns (avail: map<Day, int>)
      ensures forall d :: d in avail <==> first <= d <= last
      ensures forall d :: d in avail ==> avail[d] == InlineAvailable(tables, roomType, d)
    {
      avail := map[];
      var d := first;
      while d <= last
        invariant first <= d
        invariant d <= last + 1 || (d == first && last < first)
        invariant forall x :: x in avail <==> first <= x < d
        invariant forall x :: x in avail ==> avail[x] == InlineAvailable(tables, roomType, x)
      {
        avail := avail[d := InlineAvailable(tables, roomType, d)];
        d := d + 1;
      }
    }

    /** The MGET pass: parsed hits by day, and the nights left over in order. */
    method SplitByCache(roomType: TypeId, nights: seq<Day>) returns (hits: map<Day, int>, uncached: seq<Day>)
      ensures uncached == Misses(cache, roomType, nights)
      ensures forall d :: d in hits <==> d in nights && Hit(cache, roomType, d)
      ensures forall d :: d in hits ==> hits[d] == cache[Key(roomType, d)].n
    {
      hits, uncached := map[], [];
      for k := 0 to |nights|
        invariant uncached == Misses(cache, roomType, nights[..k])
        invariant forall d :: d in hits <==> d in nights[..k] && Hit(cache, roomType, d)
        invariant forall d :: d in hits ==> hits[d] == cache[Key(roomType, d)].n
      {
        var d := nights[k];
        assert nights[..k + 1] == nights[..k] + [d];
        if Hit(cache, roomType, d) {
          hits := hits[d := cache[Key(roomType, d)].n];
        } else {
          uncached := uncached + [d];
        }
      }
      assert nights[..|nights|] == nights;
    }

    /** One range query from the first to the last missing night, then one SET per missing night. */
    method LoadMissing(roomType: TypeId, uncached: seq<Day>, hits: map<Day, int>)
      returns (values: map<Day, int>, filled: map<Key, Cached>)
      requires |uncached| > 0 && Ascending(uncached)
      ensures forall d :: d in values <==> d in hits || d in uncached
      ensures forall d :: d in values ==>
                            values[d] == if d in uncached then InlineAvailable(tables, roomType, d) else hits[d]
      ensures forall k :: k in filled <==> k in cache || (k.roomType == roomType && k.day in uncached)
      ensures forall k :: k in filled ==>
                            filled[k] == if k.roomType == roomType && k.day in uncached
                            then Number(InlineAvailable(tables, roomType, k.day)) else cache[k]
    {
      var availByDate := QueryRange(roomType, uncached[0], uncached[|uncached| - 1]);
      values, filled := hits, cache;
      for k := 0 to |uncached|
        invariant forall d :: d in values <==> d in hits || d in uncached[..k]
        invariant forall d :: d in values ==>
                                values[d] == if d in uncached[..k]
                                then InlineAvailable(tables, roomType, d) else hits[d]
        invariant forall key :: key in filled <==>
                                key in cache || (key.roomType == roomType && key.day in uncached[..k])
        invariant forall key :: key in filled ==>
                                  filled[key] == if key.roomType == roomType && key.day in uncached[..k]
                                  then Number(InlineAvailable(tables, roomType, key.day)) else cache[key]
      {
        var d := uncached[k];
        assert uncached[..k + 1] == uncached[..k] + [d];
        assert uncached[0] <= d <= uncached[|uncached| - 1];
        var n := if d in availByDate then availByDate[d] else 0;
        values := values[d := n];
        filled := filled[Key(roomType, d) := Number(n)];
      }
      assert uncached[..|uncached|] == uncached;
    }

    /**
      * CheckAvailability.  `mget` and `pipeline` say whether the two Redis round trips succeed, and `query` whether
      * the range query would: without the first the call fails, without the query it fails if some night is missing,
      * and without the pipeline the answer is right and only the cache is left as it was.
      */
    method CheckAvailability(roomType: TypeId, start: Day, end: Day, mget: bool, query: bool, pipeline: bool)
      returns (r: Result<seq<DateAvailability>>)
      requires Agrees(tables, cache)
      modifies this`cache
      ensures end <= start ==> r == Err(InvalidDates) && cache == old(cache)
      ensures start < end && !mget ==> r.Err? && cache == old(cache)
      ensures start < end && mget ==>
                (r.Err? <==> !query && exists d :: start <= d < end && !Hit(old(cache), roomType, d))
      ensures start < end && r.Ok? ==> r == Ok(DirectCount(tables, roomType, Nights(Stay(start, end))))
      ensures start < end && r.Ok? ==>
                && |r.value| == end - start
                && forall k :: 0 <= k < end - start ==>
                                 && r.value[k].day == start + k
                                 && r.value[k].available == InlineAvailable(tables, roomType, start + k)
      ensures Agrees(tables, cache) && (r.Err? ==> cache == old(cache))
      ensures start < end && r.Ok? && pipeline ==> forall d :: start <= d < end ==> Hit(cache, roomType, d)
      ensures forall k :: k in cache && k !in old(cache) ==> k.roomType == roomType && start <= k.day < end
      ensures forall k :: k in old(cache) && old(cache)[k].Number? ==> k in cache && cache[k] == old(cache)[k]
      ensures !pipeline ==> cache == old(cache)
    {
      if end <= start {
        return Err(InvalidDates);
      }
      var nights := NightsBetween(start, end);
      if !mget {
        return Err(Skipped);
      }
      var found, values, filled := Lookup(roomType, nights, query);
      if !found {
        return Err(Skipped);
      }
      if pipeline {
        cache := filled;
      }
      var result := BuildAvailabilityResult(nights, values);
      LookedUpIsDirect(tables, roomType, nights, values, result);
      return Ok(result);
    }

    /** The values for all nights and the cache content after the pipeline; only a needed query can fail. */
    method Lookup(roomType: TypeId, nights: seq<Day>, query: bool)
      returns (found: bool, values: map<Day, int>, filled: map<Key, Cached>)
      requires Agrees(tables, cache) && Ascending(nights)
      ensures found <==> query || forall d :: d in nights ==> Hit(cache, roomType, d)
      ensures found ==> forall d :: d in nights ==> d in values && values[d] == InlineAvailable(tables, roomType, d)
      ensures Agrees(tables, filled)
      ensures found ==> forall d :: d in nights ==> Hit(filled, roomType, d)
      ensures forall k :: k in filled && k !in cache ==> k.roomType == roomType && k.day in nights
      ensures forall k :: k in cache && cache[k].Number? ==> k in filled && filled[k] == cache[k]
    {
      var uncached;
      values, uncached := SplitByCache(roomType, nights);
      found, filled := true, cache;
      if |uncached| > 0 {
        if !query {
          var first := uncached[0];
          assert first in Misses(cache, roomType, nights);
          assert first in nights && !Hit(cache, roomType, first);
          return false, values, cache;
        }
        MissesWithin(cache, roomType, nights);
        values, filled := LoadMissing(roomType, uncached, values);
      }
      forall d | d in nights
        ensures d in values && values[d] == InlineAvailable(tables, roomType, d) && Hit(filled, roomType, d)
      {
        assert Hit(cache, roomType, d) || d in uncached;
      }
    }

    /** InvalidateAvailabilityCache: one DEL per night of the stay. */
    method InvalidateAvailabilityCache(roomType: TypeId, stay: Stay)
      modifies this`cache
      ensures forall k :: k in cache <==> k in old(cache) && !(k.roomType == roomType && stay.Has(k.day))
      ensures forall k :: k in cache ==> cache[k] == old(cache)[k]
    {
      var nights := NightsBetween(stay.arrival, stay.departure);
      for j := 0 to |nights|
        invariant forall k :: k in cache <==> k in old(cache) && !(k.roomType == roomType && k.day in nights[..j])
        invariant forall k :: k in cache ==> cache[k] == old(cache)[k]
      {
        assert nights[..j + 1] == nights[..j] + [nights[j]];
        cache := cache - {Key(roomType, nights[j])};
      }
      assert nights[..|nights|] == nights;
    }

    /** invalidateAvailabilityAfterCreate: only the first item of each room type is invalidated. */
    method InvalidateAfterCreate(inputs: seq<ItemInput>)
      modifies this`cache
      ensures forall k :: k in cache <==> k in old(cache) && !Invalidated(inputs, |inputs|, k)
      ensures forall k :: k in cache ==> cache[k] == old(cache)[k]
    {
      var seen: set<TypeId> := {};
      for j := 0 to |inputs|
        invariant forall rt :: rt in seen <==> exists i :: 0 <= i < j && inputs[i].roomType == rt
        invariant forall k :: k in cache <==> k in old(cache) && !Invalidated(inputs, j, k)
        invariant forall k :: k in cache ==> cache[k] == old(cache)[k]
      {
        assert FirstOfType(inputs, j) <==> inputs[j].roomType !in seen;
        InvalidatedNext(inputs, j);
        if inputs[j].roomType !in seen {
          seen := seen + {inputs[j].roomType};
          InvalidateAvailabilityCache(inputs[j].roomType, inputs[j].stay);
        }
      }
    }
  }

  predicate FirstOfType(inputs: seq<ItemInput>, j: nat) {
    j < |inputs| && forall i :: 0 <= i < j ==> inputs[i].roomType != inputs[j].roomType
  }

  /** Among the first n items, the first of the key's room type stays on the key's day. */
  predicate Invalidated(inputs: seq<ItemInput>, n: nat, k: Key) {
    exists j :: 0 <= j < n && FirstOfType(inputs, j) && inputs[j].roomType == k.roomType && inputs[j].stay.Has(k.day)
  }

  lemma InvalidatedNext(inputs: seq<ItemInput>, n: nat)
    requires n < |inputs|
    ensures forall k :: Invalidated(inputs, n + 1, k) <==>
                        || Invalidated(inputs, n, k)
                        || (FirstOfType(inputs, n) && inputs[n].roomType == k.roomType && inputs[n].stay.Has(k.day))
  {
  }

  /**
    * The nights of every created item are invalidated exactly when each item stays within the stay of the first
    * item of its room type; other nights are left to the change notification.
    */
  lemma CreationInvalidatesAllIff(inputs: seq<ItemInput>)
    requires forall j :: 0 <= j < |inputs| ==> inputs[j].stay.Valid()
    ensures (forall j, d :: 0 <= j < |inputs| && inputs[j].stay.Has(d) ==>
                              Invalidated(inputs, |inputs|, Key(inputs[j].roomType, d)))
       <==> (forall i, j :: 0 <= i < |inputs| && 0 <= j < |inputs| && FirstOfType(inputs, i)
                            && inputs[i].roomType == inputs[j].roomType ==>
                              inputs[i].stay.arrival <= inputs[j].stay.arrival
                              && inputs[j].stay.departure <= inputs[i].stay.departure)
  {
    if forall j, d :: 0 <= j < |inputs| && inputs[j].stay.Has(d) ==>
                        Invalidated(inputs, |inputs|, Key(inputs[j].roomType, d)) {
      forall i, j | 0 <= i < |inputs| && 0 <= j < |inputs| && FirstOfType(inputs, i)
                    && inputs[i].roomType == inputs[j].roomType
        ensures inputs[i].stay.arrival <= inputs[j].stay.arrival && inputs[j].stay.departure <= inputs[i].stay.departure
      {
        var first, last := inputs[j].stay.arrival, inputs[j].stay.departure - 1;
        assert inputs[j].stay.Has(first) && inputs[j].stay.Has(last);
        OneFirst(inputs, Key(inputs[j].roomType, first), i);
        OneFirst(inputs, Key(inputs[j].roomType, last), i);
      }
    } else {
      var j, d :| 0 <= j < |inputs| && inputs[j].stay.Has(d)
                  && !Invalidated(inputs, |inputs|, Key(inputs[j].roomType, d));
      var i := FindFirst(inputs, j);
      assert !inputs[i].stay.Has(d);
    }
  }

  lemma OneFirst(inputs: seq<ItemInput>, k: Key, i: nat)
    requires Invalidated(inputs, |inputs|, k) && FirstOfType(inputs, i) && inputs[i].roomType == k.roomType
    ensures inputs[i].stay.Has(k.day)
  {
  }

  lemma {:induction false} FindFirst(inputs: seq<ItemInput>, j: nat) returns (i: nat)
    requires j < |inputs|
    ensures i <= j && FirstOfType(inputs, i) && inputs[i].roomType == inputs[j].roomType
  {
    if FirstOfType(inputs, j) {
      i := j;
    } else {
      var e :| 0 <= e < j && inputs[e].roomType == inputs[j].roomType;
      i := FindFirst(inputs, e);
    }
  }

  /** At a real input: the second item of the same type stays one night longer, and that night is not invalidated. */
  lemma LaterNightIsMissed() returns (inputs: seq<ItemInput>, k: Key)
    ensures |inputs| == 2 && inputs[0].roomType == inputs[1].roomType == k.roomType
    ensures inputs[0].stay.Valid() && inputs[1].stay.Has(k.day) && !Invalidated(inputs, |inputs|, k)
  {
    var input := ItemInput(0, Stay(5, 6), None, None, 1);
    inputs, k := [input, input.(stay := Stay(5, 7))], Key(0, 6);
    assert inputs[0].roomType == inputs[1].roomType;
  }

  /** The nights the MGET pass leaves for the database. */
  function Misses(cache: map<Key, Cached>, roomType: TypeId, nights: seq<Day>): (r: seq<Day>)
    ensures forall d :: d in r <==> d in nights && !Hit(cache, roomType, d)
  {
    if nights == [] then []
    else
      var init, last := nights[..|nights| - 1], nights[|nights| - 1];
      assert nights == init + [last];
      var rest := Misses(cache, roomType, init);
      if Hit(cache, roomType, last) then rest else rest + [last]
  }

  /** Every missing night lies between the first and the last missing one, so one range query covers all gaps. */
  lemma {:induction false} MissesWithin(cache: map<Key, Cached>, roomType: TypeId, nights: seq<Day>)
    requires Ascending(nights)
    ensures Ascending(Misses(cache, roomType, nights))
  {
    if nights == [] {
    } else {
      var init, last := nights[..|nights| - 1], nights[|nights| - 1];
      MissesWithin(cache, roomType, init);
      var rest := Misses(cache, roomType, init);
      forall k | 0 <= k < |rest| ensures rest[k] < last {
        assert rest[k] in init;
      }
    }
  }

  /** Reading a Go map: 0 for a missing key. */
  function ValueAt(values: map<Day, int>, d: Day): int {
    if d in values then values[d] else 0
  }

  lemma LookedUpIsDirect(t: Tables, roomType: TypeId, nights: seq<Day>, values: map<Day, int>,
                         result: seq<DateAvailability>)
    requires forall d :: d in nights ==> d in values && values[d] == InlineAvailable(t, roomType, d)
    requires |result| == |nights| && forall k :: 0 <= k < |nights| ==>
                                                   result[k] == DateAvailability(nights[k], ValueAt(values, nights[k]))
    ensures result == DirectCount(t, roomType, nights)
  {
  }

  method BuildAvailabilityResult(nights: seq<Day>, cachedByDate: map<Day, int>) returns (result: seq<DateAvailability>)
    ensures |result| == |nights|
    ensures forall k :: 0 <= k < |nights| ==>
                          && result[k].day == nights[k]
                          && result[k].available == if nights[k] in cachedByDate then cachedByDate[nights[k]] else 0
    ensures forall k :: 0 <= k < |nights| ==>
                          result[k] == DateAvailability(nights[k], ValueAt(cachedByDate, nights[k]))
  {
    result := [];
    for k := 0 to |nights|
      invariant |result| == k
      invariant forall j :: 0 <= j < k ==>
                              result[j] == DateAvailability(nights[j], ValueAt(cachedByDate, nights[j]))
    {
      result := result + [DateAvailability(nights[k], ValueAt(cachedByDate, nights[k]))];
    }
  }
}
