/**
  * The availability cache against the ledger under the notification protocol: commits notify whoever listens,
  * the listener loses notifications while it is disconnected and flushes after it has subscribed again, and
  * handlers delete keys night by night with scans that run concurrently with everything else, and readers fill the
  * cache with counts that they read some time before.
  */
module Coherence {
  import opened Basics
  import opened Calendar
  import opened Tables
  import opened Availability
  import opened ReadThrough

  /** A running handler: the nights still to invalidate, and the keys its scan of the first one still owes. */
  datatype Handler = Handler(nights: Stay, scan: Option<set<Key>>)

  /**
    * Down: no session listens; `reconnect` is the isReconnect flag.  Subscribed: LISTEN has run and the flush
    * has not begun.  Flushing: the scan of the flush still owes `todo`.  Up: notifications are processed.
    */
  datatype Listener = Down(reconnect: bool) | Subscribed | Flushing(todo: set<Key>) | Up

  /** A fill in progress: the counts that were read from the ledger and are still to be stored. */
  type Fill = map<Key, int>

  datatype State = State(
    tables: Tables, cache: map<Key, int>, listener: Listener, queue: seq<Stay>, handlers: seq<Handler>,
    fills: seq<Fill>)

  datatype Event =
    | Commit(tables: Tables, nights: Stay)
    | Read(keys: set<Key>)
    | Write(f: nat, key: Key)
    | Abandon(f: nat)
    | Expire(expired: set<Key>)
    | ConnectFails
    | Listen
    | BeginFlush
    | FlushDelete(flushed: set<Key>)
    | EndFlush
    | Disconnect
    | Dispatch
    | BeginNight(h: nat)
    | DeleteScanned(h: nat, scanned: set<Key>)
    | EndNight(h: nat)

  function Count(t: Tables, k: Key): int {
    InlineAvailable(t, k.roomType, k.day)
  }

  /** A commit publishes an event that covers every night whose counts it changes. */
  ghost predicate CoversChange(t: Tables, t': Tables, nights: Stay) {
    forall k: Key :: Count(t, k) != Count(t', k) ==> nights.Has(k.day)
  }

  /** A scan returns every key that is present from its beginning to its end, so it ends when it owes none. */
  ghost predicate Enabled(s: State, e: Event) {
    match e
    case Commit(t, nights) => CoversChange(s.tables, t, nights)
    case Read(_) => true
    case Write(f, k) => f < |s.fills| && k in s.fills[f]
    case Abandon(f) => f < |s.fills|
    case Expire(_) => true
    case ConnectFails => s.listener.Down?
    case Listen => s.listener.Down?
    case BeginFlush => s.listener == Subscribed
    case FlushDelete(keys) => s.listener.Flushing? && keys <= s.listener.todo
    case EndFlush => s.listener.Flushing? && s.listener.todo == {}
    case Disconnect => !s.listener.Down?
    case Dispatch => s.listener == Up && s.queue != []
    case BeginNight(h) => h < |s.handlers| && s.handlers[h].nights.Valid() && s.handlers[h].scan.None?
    case DeleteScanned(h, keys) => h < |s.handlers| && s.handlers[h].scan.Some? && keys <= s.handlers[h].scan.value
    case EndNight(h) => h < |s.handlers| && s.handlers[h].scan == Some({})
  }

  /** Deleted or expired keys are owed by no scan any more. */
  function Forget(s: State, keys: set<Key>): State {
    s.(cache := s.cache - keys,
    listener := if s.listener.Flushing? then Flushing(s.listener.todo - keys) else s.listener,
    handlers := seq(|s.handlers|, h requires 0 <= h < |s.handlers| =>
      if s.handlers[h].scan.Some?
      then s.handlers[h].(scan := Some(s.handlers[h].scan.value - keys)) else s.handlers[h]))
  }

  function Counts(t: Tables, keys: set<Key>): Fill {
    map k | k in keys :: Count(t, k)
  }

  /**
    * A fill reads its counts in one query and stores them later, key by key and whatever the cache then holds;
    * a failed pipeline abandons the rest.
    */
  ghost function Next(s: State, e: Event): State
    requires Enabled(s, e)
  {
    match e
    case Commit(t, nights) => s.(tables := t, queue := if s.listener.Down? then s.queue else s.queue + [nights])
    case Read(keys) => s.(fills := s.fills + [Counts(s.tables, keys)])
    case Write(f, k) => s.(cache := s.cache[k := s.fills[f][k]], fills := s.fills[f := s.fills[f] - {k}])
    case Abandon(f) => s.(fills := s.fills[f := map[]])
    case Expire(keys) => Forget(s, keys)
    case ConnectFails => s.(listener := Down(true))
    case Listen => s.(listener := if s.listener == Down(true) then Subscribed else Up)
    case BeginFlush => s.(listener := Flushing(s.cache.Keys))
    case FlushDelete(keys) => Forget(s, keys)
    case EndFlush => s.(listener := Up)
    case Disconnect => s.(listener := Down(true), queue := [])
    case Dispatch => s.(queue := s.queue[1..], handlers := s.handlers + [Handler(s.queue[0], None)])
    case BeginNight(h) =>
      var present := set k | k in s.cache && k.day == s.handlers[h].nights.arrival;
      s.(handlers := s.handlers[h := s.handlers[h].(scan := Some(present))])
    case DeleteScanned(h, keys) => Forget(s, keys)
    case EndNight(h) =>
      var n := s.handlers[h].nights;
      s.(handlers := s.handlers[h := Handler(Stay(n.arrival + 1, n.departure), None)])
  }

  predicate Owes(h: Handler, k: Key) {
    h.nights.Has(k.day) && (h.scan.Some? && k.day == h.nights.arrival ==> k in h.scan.value)
  }

  predicate Covered(s: State, k: Key) {
    || (exists q :: 0 <= q < |s.queue| && s.queue[q].Has(k.day))
    || (exists h :: 0 <= h < |s.handlers| && Owes(s.handlers[h], k))
  }

  /** The disconnect window: lost notifications will be made good by a flush that has not reached the key yet. */
  predicate InOutage(s: State, k: Key) {
    s.listener == Down(true) || s.listener == Subscribed || (s.listener.Flushing? && k in s.listener.todo)
  }

  predicate Stale(s: State, k: Key) {
    k in s.cache && s.cache[k] != Count(s.tables, k)
  }

  /** Every cached value is the ledger count, is owed by an unhandled notification, or sits in an outage. */
  predicate Coherent(s: State) {
    && (forall k :: k in s.cache && Stale(s, k) ==> Covered(s, k) || InOutage(s, k))
    && (s.listener == Down(false) ==> s.queue == [] && s.handlers == [])
  }

  /** Before the first LISTEN no flush is due, so a commit that outdates a cached key is lost. */
  predicate LostCommit(s: State, e: Event) {
    e.Commit? && s.listener == Down(false) && exists k :: k in s.cache && s.cache[k] != Count(e.tables, k)
  }

  /** A count that a commit has outdated since it was read is stored when nothing is left to delete the key. */
  predicate LateWrite(s: State, e: Event)
    requires e.Write? ==> e.f < |s.fills| && e.key in s.fills[e.f]
  {
    e.Write? && s.fills[e.f][e.key] != Count(s.tables, e.key) && !Covered(s, e.key) && !InOutage(s, e.key)
  }

  lemma ForgetKeepsCover(s: State, keys: set<Key>, k: Key)
    requires k !in keys && Covered(s, k)
    ensures Covered(Forget(s, keys), k)
  {
    var f := Forget(s, keys);
    if h :| 0 <= h < |s.handlers| && Owes(s.handlers[h], k) {
      assert Owes(f.handlers[h], k);
    }
  }

  lemma CoverMoves(s: State, e: Event, k: Key)
    requires Enabled(s, e) && (e.Dispatch? || e.BeginNight? || e.EndNight?) && k in s.cache && Covered(s, k)
    ensures Covered(Next(s, e), k)
  {
    var n := Next(s, e);
    if q :| 0 <= q < |s.queue| && s.queue[q].Has(k.day) {
      if e.Dispatch? {
        if q == 0 {
          assert Owes(n.handlers[|s.handlers|], k);
        } else {
          assert n.queue[q - 1].Has(k.day);
        }
      } else {
        assert n.queue[q].Has(k.day);
      }
    } else {
      var h :| 0 <= h < |s.handlers| && Owes(s.handlers[h], k);
      assert Owes(n.handlers[h], k);
    }
  }

  lemma CommitKeepsCover(s: State, e: Event, k: Key)
    requires Enabled(s, e) && e.Commit? && !s.listener.Down?
    requires k in s.cache && (Stale(s, k) ==> Covered(s, k) || InOutage(s, k)) && Stale(Next(s, e), k)
    ensures Covered(Next(s, e), k) || InOutage(Next(s, e), k)
  {
    var n := Next(s, e);
    if Count(s.tables, k) != Count(e.tables, k) {
      assert n.queue[|s.queue|] == e.nights;
    } else if Covered(s, k) {
      if q :| 0 <= q < |s.queue| && s.queue[q].Has(k.day) {
        assert n.queue[q].Has(k.day);
      }
    }
  }

  /** Forgetting keys and moving a notification on keep a stale key covered or in the outage. */
  lemma AccountKept(s: State, e: Event, k: Key)
    requires Enabled(s, e) && !e.Commit? && k in s.cache && k in Next(s, e).cache
    requires Covered(s, k) || InOutage(s, k)
    ensures Covered(Next(s, e), k) || InOutage(Next(s, e), k)
  {
    var n := Next(s, e);
    if Covered(s, k) {
      if e.Dispatch? || e.BeginNight? || e.EndNight? {
        CoverMoves(s, e, k);
      } else if e.Expire? {
        ForgetKeepsCover(s, e.expired, k);
      } else if e.FlushDelete? {
        ForgetKeepsCover(s, e.flushed, k);
      } else if e.DeleteScanned? {
        ForgetKeepsCover(s, e.scanned, k);
      } else {
        assert e.Disconnect? || Covered(n, k);
      }
    }
  }

  lemma StaleKeyAccounted(s: State, e: Event, k: Key)
    requires Coherent(s) && Enabled(s, e) && !LostCommit(s, e) && !LateWrite(s, e)
    requires k in Next(s, e).cache && Stale(Next(s, e), k)
    ensures Covered(Next(s, e), k) || InOutage(Next(s, e), k)
  {
    if e.Commit? {
      if !s.listener.Down? {
        CommitKeepsCover(s, e, k);
      }
    } else if e.Write? && e.key == k {
      assert Next(s, e).queue == s.queue && Next(s, e).handlers == s.handlers;
    } else {
      assert k in s.cache && Stale(s, k);
      AccountKept(s, e, k);
    }
  }

  /** A step keeps the cache coherent exactly when it is neither a lost commit nor a late write. */
  lemma StepKeepsCoherence(s: State, e: Event)
    requires Coherent(s) && Enabled(s, e)
    ensures Coherent(Next(s, e)) <==> !LostCommit(s, e) && !LateWrite(s, e)
  {
    var n := Next(s, e);
    if LostCommit(s, e) {
      var k :| k in s.cache && s.cache[k] != Count(e.tables, k);
      assert Stale(n, k) && !Covered(n, k);
    } else if LateWrite(s, e) {
      assert n.queue == s.queue && n.handlers == s.handlers;
      assert Stale(n, e.key) && !Covered(n, e.key);
    } else {
      forall k | k in n.cache && Stale(n, k) ensures Covered(n, k) || InOutage(n, k) {
        StaleKeyAccounted(s, e, k);
      }
    }
  }

  // ---- whole runs ----

  /** `trace` lists the states of a run whose steps are `es`. */
  ghost predicate IsRun(trace: seq<State>, es: seq<Event>) {
    && |trace| == |es| + 1
    && forall j :: 0 <= j < |es| ==> Enabled(trace[j], es[j]) && trace[j + 1] == Next(trace[j], es[j])
  }

  predicate AllCoherent(trace: seq<State>, n: nat)
    requires n < |trace|
  {
    forall m :: 0 <= m <= n ==> Coherent(trace[m])
  }

  ghost predicate NoneBreaks(trace: seq<State>, es: seq<Event>, n: nat)
    requires IsRun(trace, es) && n <= |es|
  {
    forall j :: 0 <= j < n ==> !LostCommit(trace[j], es[j]) && !LateWrite(trace[j], es[j])
  }

  /** From a coherent start n steps stay coherent if and only if none of them loses a commit or writes late. */
  lemma {:induction false} RunsStayCoherent(trace: seq<State>, es: seq<Event>, n: nat)
    requires IsRun(trace, es) && Coherent(trace[0]) && n <= |es|
    ensures AllCoherent(trace, n) <==> NoneBreaks(trace, es, n)
  {
    if n == 0 {
    } else {
      RunsStayCoherent(trace, es, n - 1);
      assert AllCoherent(trace, n) <==> AllCoherent(trace, n - 1) && Coherent(trace[n]);
      if AllCoherent(trace, n - 1) {
        assert Coherent(trace[n - 1]) && trace[n] == Next(trace[n - 1], es[n - 1]);
        StepKeepsCoherence(trace[n - 1], es[n - 1]);
      }
    }
  }

  /** When the listener is up and nothing is pending, every cached value is the ledger count. */
  lemma QuiescentCacheAgrees(s: State)
    requires Coherent(s) && s.listener == Up && s.queue == []
    requires forall h :: 0 <= h < |s.handlers| ==> !s.handlers[h].nights.Valid()
    ensures forall k :: k in s.cache ==> s.cache[k] == Count(s.tables, k)
  {
  }

  // ---- the window of a fill, from its read to its write ----

  /** What a fill holds for a key is the count at the moment it was read. */
  lemma {:induction false} FillHoldsOldCount(trace: seq<State>, es: seq<Event>, a: nat, b: nat, k: Key)
    requires IsRun(trace, es) && a < b <= |es| && es[a].Read? && k in es[a].keys
    ensures |trace[a].fills| < |trace[b].fills|
    ensures k in trace[b].fills[|trace[a].fills|] ==> trace[b].fills[|trace[a].fills|][k] == Count(trace[a].tables, k)
  {
    if b == a + 1 {
      assert trace[b] == Next(trace[a], es[a]);
    } else {
      FillHoldsOldCount(trace, es, a, b - 1, k);
      var s, e := trace[b - 1], es[b - 1];
      assert trace[b] == Next(s, e);
    }
  }

  /**
    * A fill that reads key k at a and stores it at b keeps the cache coherent if and only if the count is the same
    * at both moments, or a queued notification, an unfinished handler or a pending flush still reaches the key.
    */
  lemma WindowExact(trace: seq<State>, es: seq<Event>, a: nat, b: nat, k: Key)
    requires IsRun(trace, es) && a < b < |es| && es[a].Read? && k in es[a].keys
    requires es[b] == Write(|trace[a].fills|, k) && Coherent(trace[b])
    ensures Coherent(trace[b + 1]) <==>
            || Count(trace[a].tables, k) == Count(trace[b].tables, k)
            || Covered(trace[b], k) || InOutage(trace[b], k)
  {
    FillHoldsOldCount(trace, es, a, b, k);
    StepKeepsCoherence(trace[b], es[b]);
  }

  /** Once every handler is past the key's night and nothing is queued, a write is coherent only if nothing changed. */
  lemma QuietWindowExact(trace: seq<State>, es: seq<Event>, a: nat, b: nat, k: Key)
    requires IsRun(trace, es) && a < b < |es| && es[a].Read? && k in es[a].keys
    requires es[b] == Write(|trace[a].fills|, k) && Coherent(trace[b])
    requires trace[b].listener == Up && trace[b].queue == []
    requires forall h :: 0 <= h < |trace[b].handlers| ==> !trace[b].handlers[h].nights.Has(k.day)
    ensures Coherent(trace[b + 1]) <==> Count(trace[a].tables, k) == Count(trace[b].tables, k)
  {
    WindowExact(trace, es, a, b, k);
  }

  /** A scan that reaches key k begins: a handler starts on the key's night, or the flush starts. */
  predicate ScanBegins(s: State, e: Event, k: Key) {
    e.BeginFlush? || (e.BeginNight? && e.h < |s.handlers| && s.handlers[e.h].nights.arrival == k.day)
  }

  /** Something that has not begun to scan for k will do so: it will find the key even if it is stored only now. */
  predicate Guarded(s: State, k: Key) {
    || s.listener == Down(true) || s.listener == Subscribed
    || (exists q :: 0 <= q < |s.queue| && s.queue[q].Has(k.day))
    || (exists h :: 0 <= h < |s.handlers| && s.handlers[h].nights.Has(k.day)
                    && (s.handlers[h].scan.Some? ==> s.handlers[h].nights.arrival != k.day))
  }

  lemma GuardedIsAccounted(s: State, k: Key)
    requires Guarded(s, k)
    ensures Covered(s, k) || InOutage(s, k)
  {
  }

  /** A commit that is notified, or that falls into an outage, guards its nights until a scan for them begins. */
  lemma GuardedStep(s: State, e: Event, k: Key)
    requires Enabled(s, e) && !ScanBegins(s, e, k)
    requires Guarded(s, k) || (e.Commit? && e.nights.Has(k.day) && s.listener != Down(false))
    ensures Guarded(Next(s, e), k)
  {
    var n := Next(s, e);
    if q :| 0 <= q < |s.queue| && s.queue[q].Has(k.day) {
      if e.Dispatch? {
        assert q == 0 ==> n.handlers[|s.handlers|] == Handler(s.queue[0], None);
        assert q > 0 ==> n.queue[q - 1] == s.queue[q];
      } else {
        assert e.Disconnect? || n.queue[q] == s.queue[q];
      }
    } else if h :| 0 <= h < |s.handlers| && s.handlers[h].nights.Has(k.day)
                   && (s.handlers[h].scan.Some? ==> s.handlers[h].nights.arrival != k.day)
    {
      assert n.handlers[h].nights.Has(k.day) && (n.handlers[h].scan.Some? ==> n.handlers[h].nights.arrival != k.day);
    } else if e.Commit? && !s.listener.Down? {
      assert n.queue[|s.queue|] == e.nights;
    }
  }

  predicate ScanBetween(trace: seq<State>, es: seq<Event>, c: nat, b: nat, k: Key)
    requires b <= |es| <= |trace|
  {
    exists m :: c < m < b && ScanBegins(trace[m], es[m], k)
  }

  lemma {:induction false} GuardedUntilScan(trace: seq<State>, es: seq<Event>, c: nat, b: nat, k: Key)
    requires IsRun(trace, es) && c < b <= |es|
    requires es[c].Commit? && es[c].nights.Has(k.day) && trace[c].listener != Down(false)
    requires !ScanBetween(trace, es, c, b, k)
    ensures Guarded(trace[b], k)
  {
    if b == c + 1 {
      GuardedStep(trace[c], es[c], k);
    } else {
      GuardedUntilScan(trace, es, c, b - 1, k);
      GuardedStep(trace[b - 1], es[b - 1], k);
    }
  }

  /** A count that differs at the ends of a stretch of a run was changed by some commit in it. */
  lemma {:induction false} ChangedBy(trace: seq<State>, es: seq<Event>, a: nat, b: nat, k: Key) returns (c: nat)
    requires IsRun(trace, es) && a <= b <= |es| && Count(trace[a].tables, k) != Count(trace[b].tables, k)
    ensures a <= c < b && es[c].Commit? && es[c].nights.Has(k.day)
    ensures Count(trace[c].tables, k) != Count(trace[c + 1].tables, k)
  {
    if Count(trace[b - 1].tables, k) != Count(trace[b].tables, k) {
      c := b - 1;
    } else {
      c := ChangedBy(trace, es, a, b - 1, k);
    }
  }

  /**
    * Which windows can go wrong: a fill leaks only if a commit within its window changes the key's count and either
    * that commit precedes the first LISTEN or a scan that reaches the key begins after the commit and before the
    * write.  A window without such a pair is safe.
    */
  lemma LeakNeedsCommitThenScan(trace: seq<State>, es: seq<Event>, a: nat, b: nat, k: Key) returns (c: nat)
    requires IsRun(trace, es) && a < b < |es| && es[a].Read? && k in es[a].keys
    requires es[b] == Write(|trace[a].fills|, k) && Coherent(trace[b]) && !Coherent(trace[b + 1])
    ensures a < c < b && es[c].Commit? && es[c].nights.Has(k.day)
    ensures Count(trace[c].tables, k) != Count(trace[c + 1].tables, k)
    ensures trace[c].listener == Down(false) || ScanBetween(trace, es, c, b, k)
  {
    WindowExact(trace, es, a, b, k);
    c := ChangedBy(trace, es, a, b, k);
    if trace[c].listener != Down(false) && !ScanBetween(trace, es, c, b, k) {
      GuardedUntilScan(trace, es, c, b, k);
      GuardedIsAccounted(trace[b], k);
    }
  }

  // ---- why each part of the protocol is there ----

  /** Two one-room hotels that differ in one row: room 0 is free or taken on day 1. */
  function Vacant(): Tables {
    Tables(Hotel([0], map[], {}), [], [], map[])
  }

  function Taken(): Tables {
    Tables(Hotel([0], map[], {}), [], [], map[Slot(0, 1) := Entry(None, None, Maintenance, false)])
  }

  const ONE_NIGHT := Stay(1, 2)
  const KEY := Key(0, 1)

  lemma VacantTakenCounts()
    ensures Count(Vacant(), KEY) == 1 && Count(Taken(), KEY) == 0
    ensures CoversChange(Vacant(), Taken(), ONE_NIGHT)
  {
    forall k: Key ensures Count(Vacant(), k) == RoomCount(Vacant().hotel, k.roomType)
                          && (k != KEY ==> Count(Taken(), k) == RoomCount(Vacant().hotel, k.roomType))
    {
      assert CountedRows(Vacant(), k.roomType, k.day) == {};
      if k != KEY {
        assert CountedRows(Taken(), k.roomType, k.day) == {};
      }
    }
    assert RoomsOf(Vacant().hotel, 0) == {0} == RoomsOf(Taken().hotel, 0);
    assert CountedRows(Taken(), 0, 1) == {Slot(0, 1)};
  }

  lemma Extend(trace: seq<State>, es: seq<Event>, e: Event, s: State) returns (trace': seq<State>, es': seq<Event>)
    requires IsRun(trace, es) && Enabled(trace[|es|], e) && Next(trace[|es|], e) == s
    ensures trace' == trace + [s] && es' == es + [e] && IsRun(trace', es')
  {
    trace', es' := trace + [s], es + [e];
  }

  lemma ReadsOne(s: State)
    ensures Next(s, Read({KEY})) == s.(fills := s.fills + [map[KEY := Count(s.tables, KEY)]])
  {
    assert Counts(s.tables, {KEY}) == map[KEY := Count(s.tables, KEY)];
  }

  /** A run that starts coherent and goes wrong: fill, commit, then the first LISTEN, which does not flush. */
  lemma FirstConnectDoesNotFlush() returns (trace: seq<State>, es: seq<Event>)
    ensures IsRun(trace, es) && Coherent(trace[0]) && trace[|es|].listener == Up && !Coherent(trace[|es|])
    ensures forall j :: 0 <= j < |es| ==> !LateWrite(trace[j], es[j])
  {
    VacantTakenCounts();
    var s0 := State(Vacant(), map[], Down(false), [], [], []);
    var s2 := State(Vacant(), map[KEY := 1], Down(false), [], [], [map[]]);
    ReadsOne(s0);
    trace, es := Extend([s0], [], Read({KEY}), s0.(fills := [map[KEY := 1]]));
    trace, es := Extend(trace, es, Write(0, KEY), s2);
    trace, es := Extend(trace, es, Commit(Taken(), ONE_NIGHT), s2.(tables := Taken()));
    trace, es := Extend(trace, es, Listen, s2.(tables := Taken(), listener := Up));
    assert Stale(trace[|es|], KEY) && !Covered(trace[|es|], KEY);
  }

  /** A count is read, a commit takes the room, and its notification is handled to the end. */
  lemma HandledInWindow() returns (trace: seq<State>, es: seq<Event>)
    ensures IsRun(trace, es) && trace[0] == State(Vacant(), map[], Up, [], [], [])
    ensures trace[|es|] == State(Taken(), map[], Up, [], [Handler(Stay(2, 2), None)], [map[KEY := 1]])
  {
    VacantTakenCounts();
    var s0 := State(Vacant(), map[], Up, [], [], []);
    var s2 := State(Taken(), map[], Up, [ONE_NIGHT], [], [map[KEY := 1]]);
    ReadsOne(s0);
    trace, es := Extend([s0], [], Read({KEY}), s0.(fills := [map[KEY := 1]]));
    trace, es := Extend(trace, es, Commit(Taken(), ONE_NIGHT), s2);
    trace, es := HandleTheOnly(trace, es);
  }

  lemma HandleTheOnly(trace: seq<State>, es: seq<Event>) returns (trace': seq<State>, es': seq<Event>)
    requires IsRun(trace, es) && trace[|es|] == State(Taken(), map[], Up, [ONE_NIGHT], [], [map[KEY := 1]])
    ensures IsRun(trace', es') && trace'[0] == trace[0]
    ensures trace'[|es'|] == State(Taken(), map[], Up, [], [Handler(Stay(2, 2), None)], [map[KEY := 1]])
  {
    var s := State(Taken(), map[], Up, [], [Handler(ONE_NIGHT, None)], [map[KEY := 1]]);
    trace', es' := Extend(trace, es, Dispatch, s);
    assert (set k | k in s.cache && k.day == ONE_NIGHT.arrival) == {};
    trace', es' := Extend(trace', es', BeginNight(0), s.(handlers := [Handler(ONE_NIGHT, Some({}))]));
    trace', es' := Extend(trace', es', EndNight(0), s.(handlers := [Handler(Stay(2, 2), None)]));
  }

  /**
    * Every fill of the program is split, and a split fill can leak: the old count is stored after the handler of
    * the commit that outdated it has finished.
    */
  lemma SplitFillLeaks() returns (trace: seq<State>, es: seq<Event>)
    ensures IsRun(trace, es) && Coherent(trace[0]) && trace[0].listener == Up
    ensures trace[|es|].listener == Up && trace[|es|].queue == [] && !Coherent(trace[|es|])
    ensures forall h :: 0 <= h < |trace[|es|].handlers| ==> !trace[|es|].handlers[h].nights.Valid()
  {
    VacantTakenCounts();
    trace, es := HandledInWindow();
    var last := State(Taken(), map[KEY := 1], Up, [], [Handler(Stay(2, 2), None)], [map[]]);
    trace, es := Extend(trace, es, Write(0, KEY), last);
    assert Stale(last, KEY) && !Covered(last, KEY);
  }

  // ---- single steps ----

  /** Scans owe only keys that are in the cache: a deleted or expired key is off every list at once. */
  predicate OwesPresent(s: State) {
    && (s.listener.Flushing? ==> s.listener.todo <= s.cache.Keys)
    && forall h :: 0 <= h < |s.handlers| && s.handlers[h].scan.Some? ==> s.handlers[h].scan.value <= s.cache.Keys
  }

  lemma StepOwesPresent(s: State, e: Event)
    requires OwesPresent(s) && Enabled(s, e)
    ensures OwesPresent(Next(s, e))
  {
  }

  lemma {:induction false} RunsOwePresent(trace: seq<State>, es: seq<Event>, n: nat)
    requires IsRun(trace, es) && OwesPresent(trace[0]) && n <= |es|
    ensures OwesPresent(trace[n])
  {
    if n == 0 {
    } else {
      RunsOwePresent(trace, es, n - 1);
      assert trace[n] == Next(trace[n - 1], es[n - 1]);
      StepOwesPresent(trace[n - 1], es[n - 1]);
    }
  }

  /** A listener whose first attempts to connect failed flushes when it gets through. */
  lemma FailedConnectFlushes(s: State)
    requires s.listener.Down?
    ensures var n := Next(s, ConnectFails); Enabled(n, Listen) && Next(n, Listen).listener == Subscribed
  {
  }

  /** The protocol without the flush: a new connection goes straight to processing. */
  ghost function UnflushedNext(s: State, e: Event): State
    requires Enabled(s, e)
  {
    if e.Listen? then s.(listener := Up) else Next(s, e)
  }

  /**
    * Why a reconnect must flush: a commit is notified, the connection breaks before the notification is processed, and
    * processing resumes on a new connection; the cached value is stale and nothing is pending.
    */
  lemma UnflushedReconnectWouldLeak() returns (s0: State, s1: State, s2: State, s3: State)
    ensures Coherent(s0) && s0.listener == Up && CoversChange(s0.tables, Taken(), ONE_NIGHT)
    ensures s1 == UnflushedNext(s0, Commit(Taken(), ONE_NIGHT)) && s2 == UnflushedNext(s1, Disconnect)
    ensures Enabled(s2, Listen) && s3 == UnflushedNext(s2, Listen)
    ensures s3.listener == Up && s3.queue == [] && s3.handlers == [] && !Coherent(s3)
  {
    VacantTakenCounts();
    s0 := State(Vacant(), map[KEY := 1], Up, [], [], []);
    s1 := s0.(tables := Taken(), queue := [ONE_NIGHT]);
    s2 := s0.(tables := Taken(), listener := Down(true));
    s3 := s2.(listener := Up);
    assert Stale(s3, KEY) && !Covered(s3, KEY);
  }

  // ---- the other order: flush first, then LISTEN ----

  /**
    * The protocol with the two steps swapped.  A dead session is flushed first (Flushing), then subscribed
    * (Subscribed now means flushed and not yet listening), and only an Up session receives notifications.
    */
  ghost predicate SwappedEnabled(s: State, e: Event) {
    match e
    case Listen => s.listener == Down(false) || s.listener == Subscribed
    case BeginFlush => s.listener == Down(true)
    case _ => Enabled(s, e)
  }

  ghost function SwappedNext(s: State, e: Event): State
    requires SwappedEnabled(s, e)
  {
    match e
    case Listen => s.(listener := Up)
    case BeginFlush => s.(listener := Flushing(s.cache.Keys))
    case EndFlush => s.(listener := Subscribed)
    case Commit(t, nights) => s.(tables := t, queue := if s.listener == Up then s.queue + [nights] else s.queue)
    case _ => Next(s, e)
  }

  ghost predicate IsSwappedRun(trace: seq<State>, es: seq<Event>) {
    && |trace| == |es| + 1
    && forall j :: 0 <= j < |es| ==>
                     SwappedEnabled(trace[j], es[j]) && trace[j + 1] == SwappedNext(trace[j], es[j])
                     && !LateWrite(trace[j], es[j])
  }

  lemma SwappedExtend(trace: seq<State>, es: seq<Event>, e: Event, s: State)
    returns (trace': seq<State>, es': seq<Event>)
    requires IsSwappedRun(trace, es) && SwappedEnabled(trace[|es|], e) && SwappedNext(trace[|es|], e) == s
    requires !LateWrite(trace[|es|], e)
    ensures trace' == trace + [s] && es' == es + [e] && IsSwappedRun(trace', es')
  {
    trace', es' := trace + [s], es + [e];
  }

  /** Flushed and not yet listening, with a value that was filled in between. */
  lemma FilledAfterFlush() returns (trace: seq<State>, es: seq<Event>)
    ensures IsSwappedRun(trace, es) && trace[0] == State(Vacant(), map[], Down(true), [], [], [])
    ensures trace[|es|] == State(Vacant(), map[KEY := 1], Subscribed, [], [], [map[]])
  {
    VacantTakenCounts();
    var s := State(Vacant(), map[], Down(true), [], [], []);
    assert s.cache.Keys == {};
    trace, es := SwappedExtend([s], [], BeginFlush, s.(listener := Flushing({})));
    trace, es := SwappedExtend(trace, es, EndFlush, s.(listener := Subscribed));
    trace, es := SwappedFill(trace, es);
  }

  lemma SwappedFill(trace: seq<State>, es: seq<Event>) returns (trace': seq<State>, es': seq<Event>)
    requires IsSwappedRun(trace, es) && trace[|es|] == State(Vacant(), map[], Subscribed, [], [], [])
    ensures IsSwappedRun(trace', es') && trace'[0] == trace[0]
    ensures trace'[|es'|] == State(Vacant(), map[KEY := 1], Subscribed, [], [], [map[]])
  {
    VacantTakenCounts();
    var s := State(Vacant(), map[], Subscribed, [], [], []);
    ReadsOne(s);
    trace', es' := SwappedExtend(trace, es, Read({KEY}), s.(fills := [map[KEY := 1]]));
    trace', es' := SwappedExtend(trace', es', Write(0, KEY), s.(cache := map[KEY := 1], fills := [map[]]));
  }

  /**
    * The swapped order leaks without any late write: a value filled after the flush and outdated before LISTEN is
    * stale when the session is up and nothing is pending.
    */
  lemma FlushBeforeListenWouldLeak() returns (trace: seq<State>, es: seq<Event>)
    ensures IsSwappedRun(trace, es) && Coherent(trace[0]) && trace[0].listener == Down(true)
    ensures var last := trace[|es|];
            last.listener == Up && last.queue == [] && last.handlers == [] && !Coherent(last)
  {
    VacantTakenCounts();
    trace, es := FilledAfterFlush();
    var s := State(Taken(), map[KEY := 1], Subscribed, [], [], [map[]]);
    trace, es := SwappedExtend(trace, es, Commit(Taken(), ONE_NIGHT), s);
    trace, es := SwappedExtend(trace, es, Listen, s.(listener := Up));
    assert Stale(trace[|es|], KEY) && !Covered(trace[|es|], KEY);
  }
}
