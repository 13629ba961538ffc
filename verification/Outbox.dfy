/**
  * The outbox engine of internal/platform/worker/engine.go as a timed step system.  Times are seconds.  Any
  * number of pollers claim due rows; each claim is a goroutine that starts later, runs a handler for as long as
  * it likes and may then write one outcome, provided its ten-second database context has not expired.
  */
module Outbox {
  import opened Basics

  const VISIBILITY := 300
  const DB_TIMEOUT := 10
  /** A goroutine that starts this long after its claim still writes before the row can be claimed again. */
  const SAFE_START := 290

  datatype Status = Pending | Processing | Completed | Failed

  /** An outbox row, with the number of times it was claimed and when it was claimed first and last. */
  datatype Row = Row(status: Status, processAt: int, retryCount: nat, claims: nat, firstClaim: int, lastClaim: int) {
    predicate Claimable() {
      status == Pending || status == Processing
    }
  }

  /** A claimed row in the hands of a goroutine: the `no`-th claim of its row. */
  datatype Claim = Claim(row: nat, no: nat, at: int, retrySeen: nat, started: Option<int>)

  datatype Outcome = Success | Failure | NoHandler | Canceled

  /** A recorded outcome: which claim wrote it. */
  datatype Record = Record(row: nat, no: nat, outcome: Outcome)

  datatype State = State(now: int, rows: seq<Row>, claims: set<Claim>, log: seq<Record>)

  /** Finish says whether its database write, if it has one, goes through. */
  datatype Event =
    | Tick(seconds: nat)
    | Enqueue(processAt: int)
    | Poll(ids: set<nat>)
    | Start(claim: Claim)
    | Finish(claim: Claim, outcome: Outcome, writes: bool)
    | Crash(lost: set<Claim>)

  // ---- backoff ----

  function Pow2(n: nat): (p: nat)
    ensures p >= 1
  {
    if n == 0 then 1 else 2 * Pow2(n - 1)
  }

  function BackoffSeconds(retryCount: nat): (s: nat)
    ensures 1 <= s <= 1800
  {
    if retryCount >= 11 then 1800
    else
      assert Pow2(retryCount) <= 1024 by { PowBound(retryCount); }
      Pow2(retryCount)
  }

  lemma PowBound(n: nat)
    ensures n <= 10 ==> Pow2(n) <= 1024
    ensures n >= 11 ==> Pow2(n) >= 2048
  {
    if n <= 10 {
      assert Pow2(10) == 1024;
      PowMonotone(n, 10);
    } else {
      assert Pow2(11) == 2 * Pow2(10) == 2048;
      PowMonotone(11, n);
    }
  }

  lemma {:induction false} PowMonotone(a: nat, b: nat)
    requires a <= b
    ensures Pow2(a) <= Pow2(b)
  {
    if a == b {
    } else {
      PowMonotone(a, b - 1);
    }
  }

  /** The documented formula: min(2^n, 1800). */
  lemma BackoffIsCappedPower(n: nat)
    ensures BackoffSeconds(n) == if Pow2(n) < 1800 then Pow2(n) else 1800
  {
    PowBound(n);
  }

  /** The backoffs of the first k retries together. */
  function Backoffs(k: nat): (s: nat) {
    if k == 0 then 0 else Backoffs(k - 1) + BackoffSeconds(k - 1)
  }

  // ---- steps ----

  predicate Due(s: State, r: nat) {
    r < |s.rows| && s.rows[r].Claimable() && s.rows[r].processAt <= s.now
  }

  /** `startLimit` bounds how long after its claim a goroutine may start; `batch` is the LIMIT of a poll. */
  ghost predicate Enabled(s: State, e: Event, startLimit: int, batch: nat) {
    match e
    case Tick(_) => true
    case Enqueue(_) => true
    case Poll(ids) => |ids| <= batch && forall r :: r in ids ==> Due(s, r)
    case Start(c) => c in s.claims && c.started.None? && s.now <= c.at + startLimit
    case Finish(c, outcome, writes) =>
      && c in s.claims && c.started.Some? && c.row < |s.rows|
      && (writes ==> outcome != Canceled && s.now < c.started.value + DB_TIMEOUT)
    case Crash(lost) => lost <= s.claims
  }

  function ClaimRow(row: Row, now: int): Row {
    row.(status := Processing, processAt := now + VISIBILITY, claims := row.claims + 1, lastClaim := now,
    firstClaim := if row.claims == 0 then now else row.firstClaim)
  }

  function NewClaim(rows: seq<Row>, r: nat, now: int): Claim
    requires r < |rows|
  {
    Claim(r, rows[r].claims + 1, now, rows[r].retryCount, None)
  }

  /** markCompleted, scheduleRetry and markFailed: keyed by id alone. */
  function WriteOutcome(row: Row, c: Claim, outcome: Outcome, now: int, maxRetries: nat): Row {
    match outcome
    case Success => row.(status := Completed)
    case NoHandler => row.(status := Failed)
    case Failure =>
      if c.retrySeen + 1 >= maxRetries then row.(status := Failed, retryCount := row.retryCount + 1)
      else row.(status := Pending, retryCount := row.retryCount + 1, processAt := now + BackoffSeconds(c.retrySeen))
    case Canceled => row
  }

  function Next(s: State, e: Event, maxRetries: nat): State
    requires e.Poll? ==> forall r :: r in e.ids ==> r < |s.rows|
    requires e.Finish? ==> e.claim.row < |s.rows|
  {
    match e
    case Tick(seconds) => s.(now := s.now + seconds)
    case Enqueue(processAt) => s.(rows := s.rows + [Row(Pending, processAt, 0, 0, 0, 0)])
    case Poll(ids) =>
      s.(rows := seq(|s.rows|, r requires 0 <= r < |s.rows| => if r in ids then ClaimRow(s.rows[r], s.now)
        else s.rows[r]),
             claims := s.claims + set r | r in ids :: NewClaim(s.rows, r, s.now))
    case Start(c) => s.(claims := s.claims - {c} + {c.(started := Some(s.now))})
    case Finish(c, outcome, writes) =>
      if writes then
        s.(claims := s.claims - {c},
        rows := s.rows[c.row := WriteOutcome(s.rows[c.row], c, outcome, s.now, maxRetries)],
        log := s.log + [Record(c.row, c.no, outcome)])
      else s.(claims := s.claims - {c})
    case Crash(lost) => s.(claims := s.claims - lost)
  }

  // ---- the invariant ----

  function Failures(log: seq<Record>, r: nat): nat {
    if log == [] then 0
    else Failures(log[..|log| - 1], r)
         + if log[|log| - 1].row == r && log[|log| - 1].outcome == Failure then 1 else 0
  }

  /** The latest claim of a row finds the row as it left it; an older one is past any time it could write. */
  predicate ClaimValid(s: State, c: Claim) {
    && c.row < |s.rows| && c.at <= s.now && 1 <= c.no <= s.rows[c.row].claims
    && (c.started.Some? ==> c.started.value <= c.at + SAFE_START)
    && if c.no == s.rows[c.row].claims
       then s.rows[c.row].status == Processing && s.rows[c.row].processAt == c.at + VISIBILITY
            && s.rows[c.row].retryCount == c.retrySeen && s.rows[c.row].lastClaim == c.at
       else c.at + VISIBILITY <= s.now
  }

  predicate RowValid(row: Row, now: int, maxRetries: nat) {
    && (row.claims == 0 ==> row.status == Pending && row.retryCount == 0)
    && (row.claims > 0 ==> row.lastClaim <= now)
    && (row.claims > 0 && row.status == Pending ==> row.firstClaim + Backoffs(row.retryCount) <= row.processAt)
    && (row.claims > 0 && row.status == Processing ==> row.firstClaim + Backoffs(row.retryCount) <= row.lastClaim)
    && (row.status == Failed ==> row.retryCount <= maxRetries)
    && (row.status != Failed ==> row.retryCount < maxRetries)
  }

  predicate Safe(s: State, maxRetries: nat) {
    && (forall r :: 0 <= r < |s.rows| ==>
                      RowValid(s.rows[r], s.now, maxRetries) && s.rows[r].retryCount == Failures(s.log, r))
    && (forall c :: c in s.claims ==> ClaimValid(s, c))
    && (forall c, d :: c in s.claims && d in s.claims && c.row == d.row && c.no == d.no ==> c == d)
    && (forall j :: 0 <= j < |s.log| ==> s.log[j].row < |s.rows|)
  }

  lemma {:induction false} NoFailuresBeyond(log: seq<Record>, r: nat)
    requires forall j :: 0 <= j < |log| ==> log[j].row != r
    ensures Failures(log, r) == 0
  {
    if log == [] {
    } else {
      NoFailuresBeyond(log[..|log| - 1], r);
    }
  }

  /** Only the latest claim of a row can still write: its row is as the claim left it. */
  lemma WriterIsLatest(s: State, c: Claim, outcome: Outcome, maxRetries: nat, startLimit: int, batch: nat)
    requires Safe(s, maxRetries) && startLimit <= SAFE_START
    requires Enabled(s, Finish(c, outcome, true), startLimit, batch)
    ensures c.no == s.rows[c.row].claims && s.rows[c.row].status == Processing
            && s.rows[c.row].retryCount == c.retrySeen
  {
  }

  lemma PollSafe(s: State, ids: set<nat>, maxRetries: nat, startLimit: int, batch: nat)
    requires Safe(s, maxRetries) && Enabled(s, Poll(ids), startLimit, batch)
    ensures Safe(Next(s, Poll(ids), maxRetries), maxRetries)
  {
    var n := Next(s, Poll(ids), maxRetries);
    forall r | r in ids ensures Due(s, r) && RowValid(n.rows[r], n.now, maxRetries) {
      assert RowValid(s.rows[r], s.now, maxRetries);
    }
    forall c | c in n.claims ensures ClaimValid(n, c) {
      if c in s.claims {
        assert ClaimValid(s, c);
      }
    }
    forall c, d | c in n.claims && d in n.claims && c.row == d.row && c.no == d.no ensures c == d {
      assert c in s.claims ==> ClaimValid(s, c);
      assert d in s.claims ==> ClaimValid(s, d);
    }
  }

  /** An outcome leaves a valid row and counts exactly the failures. */
  lemma OutcomeValid(row: Row, c: Claim, outcome: Outcome, now: int, maxRetries: nat)
    requires RowValid(row, now, maxRetries) && maxRetries >= 1 && outcome != Canceled
    requires row.status == Processing && row.retryCount == c.retrySeen && row.claims == c.no >= 1
    ensures RowValid(WriteOutcome(row, c, outcome, now, maxRetries), now, maxRetries)
    ensures WriteOutcome(row, c, outcome, now,
                         maxRetries).retryCount == row.retryCount + if outcome == Failure then 1 else 0
  {
  }

  lemma FinishSafe(s: State, c: Claim, outcome: Outcome, maxRetries: nat, startLimit: int, batch: nat)
    requires Safe(s, maxRetries) && maxRetries >= 1 && startLimit <= SAFE_START
    requires Enabled(s, Finish(c, outcome, true), startLimit, batch)
    ensures Safe(Next(s, Finish(c, outcome, true), maxRetries), maxRetries)
  {
    WriterIsLatest(s, c, outcome, maxRetries, startLimit, batch);
    var n := Next(s, Finish(c, outcome, true), maxRetries);
    OutcomeValid(s.rows[c.row], c, outcome, s.now, maxRetries);
    assert n.log[..|s.log|] == s.log;
    forall r | 0 <= r < |n.rows| ensures RowValid(n.rows[r], n.now, maxRetries)
                                         && n.rows[r].retryCount == Failures(n.log, r) {
      assert r != c.row ==> RowValid(s.rows[r], s.now, maxRetries);
    }
    forall d | d in n.claims ensures ClaimValid(n, d) {
      assert ClaimValid(s, d);
      assert d.row == c.row ==> d.no != c.no;
    }
  }

  /** Every step that respects the start limit keeps the invariant. */
  lemma StepSafe(s: State, e: Event, maxRetries: nat, startLimit: int, batch: nat)
    requires Safe(s, maxRetries) && maxRetries >= 1 && startLimit <= SAFE_START && Enabled(s, e, startLimit, batch)
    ensures Safe(Next(s, e, maxRetries), maxRetries)
  {
    var n := Next(s, e, maxRetries);
    match e
    case Poll(ids) =>
      PollSafe(s, ids, maxRetries, startLimit, batch);
    case Finish(c, outcome, writes) =>
      if writes {
        FinishSafe(s, c, outcome, maxRetries, startLimit, batch);
      } else {
        forall d | d in n.claims ensures ClaimValid(n, d) {
          assert ClaimValid(s, d);
        }
      }
    case Enqueue(processAt) =>
      NoFailuresBeyond(s.log, |s.rows|);
      forall d | d in n.claims ensures ClaimValid(n, d) {
        assert ClaimValid(s, d);
      }
    case Start(c) =>
      assert ClaimValid(s, c);
      forall d | d in n.claims ensures ClaimValid(n, d) {
        assert d in s.claims ==> ClaimValid(s, d);
      }
    case Tick(_) =>
      forall d | d in n.claims ensures ClaimValid(n, d) {
        assert ClaimValid(s, d);
      }
    case Crash(_) =>
      forall d | d in n.claims ensures ClaimValid(n, d) {
        assert ClaimValid(s, d);
      }
  }

  // ---- whole runs ----

  ghost predicate IsRun(trace: seq<State>, es: seq<Event>, maxRetries: nat, startLimit: int, batch: nat) {
    && |trace| == |es| + 1
    && forall j :: 0 <= j < |es| ==>
                     Enabled(trace[j], es[j], startLimit, batch) && trace[j + 1] == Next(trace[j], es[j], maxRetries)
  }

  predicate Fresh(s: State) {
    s.claims == {} && s.log == [] && forall r :: 0 <= r < |s.rows| ==>
                                                   s.rows[r] == Row(Pending, s.rows[r].processAt, 0, 0, 0, 0)
  }

  lemma {:induction false} RunSafe(trace: seq<State>, es: seq<Event>, maxRetries: nat, startLimit: int, batch: nat,
                                   n: nat)
    requires IsRun(trace, es, maxRetries, startLimit, batch) && Fresh(trace[0]) && n <= |es|
    requires maxRetries >= 1 && startLimit <= SAFE_START
    ensures Safe(trace[n], maxRetries)
  {
    if n > 0 {
      RunSafe(trace, es, maxRetries, startLimit, batch, n - 1);
      StepSafe(trace[n - 1], es[n - 1], maxRetries, startLimit, batch);
    } else {
      assert forall r :: 0 <= r < |trace[0].rows| ==> trace[0].rows[r].retryCount == 0 == Failures([], r);
    }
  }

  /**
    * What every run records: an outcome is written only by the latest claim of its row, a completed or failed
    * row never changes again, and retry_count is the number of counted failures and never exceeds maxRetries.
    */
  lemma OutcomesAreFinal(trace: seq<State>, es: seq<Event>, maxRetries: nat, startLimit: int, batch: nat, j: nat)
    requires IsRun(trace, es, maxRetries, startLimit, batch) && Fresh(trace[0]) && j < |es|
    requires maxRetries >= 1 && startLimit <= SAFE_START
    ensures es[j].Finish? && es[j].writes ==>
              es[j].claim.row < |trace[j].rows| && es[j].claim.no == trace[j].rows[es[j].claim.row].claims
    ensures |trace[j].rows| <= |trace[j + 1].rows|
    ensures forall r :: 0 <= r < |trace[j].rows| && !trace[j].rows[r].Claimable() ==>
                          trace[j + 1].rows[r] == trace[j].rows[r]
    ensures forall r :: 0 <= r < |trace[j].rows| ==>
                          trace[j].rows[r].retryCount == Failures(trace[j].log, r) <= maxRetries
  {
    RunSafe(trace, es, maxRetries, startLimit, batch, j);
    var s, e := trace[j], es[j];
    if e.Finish? && e.writes {
      WriterIsLatest(s, e.claim, e.outcome, maxRetries, startLimit, batch);
    }
    if e.Poll? {
      assert forall r :: r in e.ids ==> Due(s, r);
    }
    forall r | 0 <= r < |s.rows| ensures s.rows[r].retryCount <= maxRetries {
      assert RowValid(s.rows[r], s.now, maxRetries);
    }
  }

  /** A row claimed for its k-th counted retry is claimed no sooner than the first k backoffs after its first claim. */
  lemma RetriesAreDelayed(trace: seq<State>, es: seq<Event>, maxRetries: nat, startLimit: int, batch: nat, j: nat,
                          r: nat)
    requires IsRun(trace, es, maxRetries, startLimit, batch) && Fresh(trace[0]) && j < |es|
    requires maxRetries >= 1 && startLimit <= SAFE_START
    requires es[j].Poll? && r in es[j].ids && trace[j].rows[r].claims > 0
    ensures trace[j].now >= trace[j].rows[r].firstClaim + Backoffs(trace[j].rows[r].retryCount)
  {
    RunSafe(trace, es, maxRetries, startLimit, batch, j);
    assert Due(trace[j], r);
    assert RowValid(trace[j].rows[r], trace[j].now, maxRetries);
  }

  /** 2 to the n, or 1800 if that is more. */
  function Delay(n: nat): int {
    if Pow2(n) < 1800 then Pow2(n) else 1800
  }

  /**
    * What a recorded outcome makes of the row: success completes it, a missing handler fails it at once, and a failure
    * fails it exactly when it is the maxRetries-th, and otherwise makes it pending after the next backoff.
    */
  lemma OutcomeExactly(s: State, c: Claim, outcome: Outcome, maxRetries: nat, startLimit: int, batch: nat)
    requires Safe(s, maxRetries) && maxRetries >= 1 && startLimit <= SAFE_START
    requires Enabled(s, Finish(c, outcome, true), startLimit, batch)
    ensures var n := Next(s, Finish(c, outcome, true), maxRetries);
            var row := n.rows[c.row];
            && (outcome == Success ==> row.status == Completed)
            && (outcome == NoHandler ==> row.status == Failed)
            && (outcome != Failure ==> row.retryCount == s.rows[c.row].retryCount)
            && (outcome == Failure ==>
                  && row.retryCount == s.rows[c.row].retryCount + 1 == Failures(n.log, c.row)
                  && (row.status == Failed <==> Failures(n.log, c.row) == maxRetries)
                  && (row.status != Failed ==>
                        row.status == Pending && row.processAt == s.now + Delay(Failures(n.log, c.row) - 1)))
            && n.log == s.log + [Record(c.row, c.no, outcome)] && c !in n.claims
            && forall r :: 0 <= r < |s.rows| && r != c.row ==> n.rows[r] == s.rows[r]
  {
    WriterIsLatest(s, c, outcome, maxRetries, startLimit, batch);
    FinishSafe(s, c, outcome, maxRetries, startLimit, batch);
    BackoffIsCappedPower(c.retrySeen);
    assert RowValid(s.rows[c.row], s.now, maxRetries);
  }

  /** A claim takes the row for exactly five minutes and counts; nothing else of the row changes. */
  lemma ClaimExactly(s: State, ids: set<nat>, maxRetries: nat, startLimit: int, batch: nat, r: nat)
    requires Enabled(s, Poll(ids), startLimit, batch) && r < |s.rows|
    ensures var row, row' := s.rows[r], Next(s, Poll(ids), maxRetries).rows[r];
            && (r in ids ==> && (row.status == Pending || row.status == Processing) && row.processAt <= s.now
                             && row'.status == Processing && row'.processAt == s.now + 5 * 60
                             && row'.claims == row.claims + 1 && row'.lastClaim == s.now
                             && row'.retryCount == row.retryCount)
            && (r !in ids ==> row' == row)
  {
    assert r in ids ==> Due(s, r);
  }

  ghost predicate Recorded(log: seq<Record>, r: nat, outcome: Outcome) {
    exists j :: 0 <= j < |log| && log[j].row == r && log[j].outcome == outcome
  }

  lemma RecordedGrows(log: seq<Record>, x: Record, r: nat, outcome: Outcome)
    ensures Recorded(log + [x], r, outcome) <==> Recorded(log, r, outcome) || (x.row == r && x.outcome == outcome)
  {
    if Recorded(log, r, outcome) {
      var j :| 0 <= j < |log| && log[j].row == r && log[j].outcome == outcome;
      assert (log + [x])[j] == log[j];
    }
    assert (log + [x])[|log|] == x;
  }

  /**
    * Over every run: a row is completed exactly when a success was recorded for it, and failed exactly when it has used
    * up its retries or no handler was registered.
    */
  lemma {:induction false} FinalExactly(trace: seq<State>, es: seq<Event>, maxRetries: nat, startLimit: int, batch: nat,
                                        n: nat, r: nat)
    requires IsRun(trace, es, maxRetries, startLimit, batch) && Fresh(trace[0]) && n <= |es| && r < |trace[n].rows|
    requires maxRetries >= 1 && startLimit <= SAFE_START
    ensures var s := trace[n];
            && (s.rows[r].status == Completed <==> Recorded(s.log, r, Success))
            && (s.rows[r].status == Failed <==> Failures(s.log, r) == maxRetries || Recorded(s.log, r, NoHandler))
  {
    if n == 0 {
      assert trace[0].rows[r].status == Pending;
    } else {
      var s, e := trace[n - 1], es[n - 1];
      RunSafe(trace, es, maxRetries, startLimit, batch, n - 1);
      assert trace[n] == Next(s, e, maxRetries);
      if r < |s.rows| {
        FinalExactly(trace, es, maxRetries, startLimit, batch, n - 1, r);
        assert RowValid(s.rows[r], s.now, maxRetries);
        FinalStep(s, e, maxRetries, startLimit, batch, r);
      } else {
        NoFailuresBeyond(s.log, r);
      }
    }
  }

  lemma FinalStep(s: State, e: Event, maxRetries: nat, startLimit: int, batch: nat, r: nat)
    requires Safe(s, maxRetries) && maxRetries >= 1 && startLimit <= SAFE_START && Enabled(s, e, startLimit, batch)
    requires r < |s.rows| && RowValid(s.rows[r], s.now, maxRetries)
    requires s.rows[r].status == Completed <==> Recorded(s.log, r, Success)
    requires s.rows[r].status == Failed <==> Failures(s.log, r) == maxRetries || Recorded(s.log, r, NoHandler)
    ensures var n := Next(s, e, maxRetries);
            && (n.rows[r].status == Completed <==> Recorded(n.log, r, Success))
            && (n.rows[r].status == Failed <==> Failures(n.log, r) == maxRetries || Recorded(n.log, r, NoHandler))
  {
    var n := Next(s, e, maxRetries);
    if e.Finish? && e.writes {
      var c := e.claim;
      OutcomeExactly(s, c, e.outcome, maxRetries, startLimit, batch);
      WriterIsLatest(s, c, e.outcome, maxRetries, startLimit, batch);
      assert n.log[..|s.log|] == s.log;
      RecordedGrows(s.log, Record(c.row, c.no, e.outcome), r, Success);
      RecordedGrows(s.log, Record(c.row, c.no, e.outcome), r, NoHandler);
    } else if e.Poll? {
      ClaimExactly(s, e.ids, maxRetries, startLimit, batch, r);
    }
  }

  /** Polling a table with one due row. */
  lemma PollSingle(s: State, startLimit: int)
    requires |s.rows| == 1 && Due(s, 0)
    ensures Enabled(s, Poll({0}), startLimit, 1)
    ensures Next(s, Poll({0}), 3) ==
            State(s.now, [ClaimRow(s.rows[0], s.now)],
                  s.claims + {Claim(0, s.rows[0].claims + 1, s.now, s.rows[0].retryCount, None)}, s.log)
  {
  }

  /** A goroutine of the first claim that started at 291 is still alive when the row is claimed again at 300. */
  lemma LateStart(startLimit: int) returns (trace: seq<State>, es: seq<Event>)
    requires startLimit > SAFE_START
    ensures IsRun(trace, es, 3, startLimit, 1) && Fresh(trace[0]) && |es| == 5
    ensures trace[5] == State(300, [Row(Processing, 600, 0, 2, 0, 300)],
                              {Claim(0, 1, 0, 0, Some(291)), Claim(0, 2, 300, 0, None)}, [])
  {
    var c := Claim(0, 1, 0, 0, None);
    var once := Row(Processing, 300, 0, 1, 0, 0);
    var s0 := State(0, [Row(Pending, 0, 0, 0, 0, 0)], {}, []);
    PollSingle(s0, startLimit);
    trace, es := Extend([s0], [], Poll({0}), State(0, [once], {c}, []), startLimit);
    trace, es := Extend(trace, es, Tick(291), State(291, [once], {c}, []), startLimit);
    trace, es := Extend(trace, es, Start(c), State(291, [once], {c.(started := Some(291))}, []), startLimit);
    trace, es := ClaimedAgain(trace, es, startLimit);
  }

  lemma ClaimedAgain(trace: seq<State>, es: seq<Event>, startLimit: int) returns (trace': seq<State>, es': seq<Event>)
    requires IsRun(trace, es, 3, startLimit, 1)
    requires trace[|es|] == State(291, [Row(Processing, 300, 0, 1, 0, 0)], {Claim(0, 1, 0, 0, Some(291))}, [])
    ensures IsRun(trace', es', 3, startLimit, 1) && |es'| == |es| + 2 && trace'[0] == trace[0]
    ensures trace'[|es'|] == State(300, [Row(Processing, 600, 0, 2, 0, 300)],
                                   {Claim(0, 1, 0, 0, Some(291)), Claim(0, 2, 300, 0, None)}, [])
  {
    var s := trace[|es|].(now := 300);
    trace', es' := Extend(trace, es, Tick(9), s, startLimit);
    PollSingle(s, startLimit);
    trace', es' := Extend(trace', es', Poll({0}), Next(s, Poll({0}), 3), startLimit);
  }

  /** The limit is exact: allow one second more and a stale goroutine makes a completed row pending again. */
  lemma LateStartUndoesCompletion(startLimit: int)
    requires startLimit > SAFE_START
    ensures exists trace: seq<State>, es: seq<Event> ::
              && IsRun(trace, es, 3, startLimit, 1) && Fresh(trace[0]) && |es| == 8
              && |trace[6].rows| == |trace[8].rows| == 1
              && trace[6].rows[0].status == Completed && trace[8].rows[0].status == Pending
  {
    var late, c := Claim(0, 1, 0, 0, Some(291)), Claim(0, 2, 300, 0, None);
    var c' := c.(started := Some(300));
    var row := Row(Processing, 600, 0, 2, 0, 300);
    var trace, es := LateStart(startLimit);
    var s6 := State(300, [row.(status := Completed)], {c}, [Record(0, 1, Success)]);
    trace, es := Extend(trace, es, Finish(late, Success, true), s6, startLimit);
    trace, es := Extend(trace, es, Start(c), s6.(claims := {c'}), startLimit);
    var s8 := State(300, [Row(Pending, 301, 1, 2, 0, 300)], {}, s6.log + [Record(0, 2, Failure)]);
    assert BackoffSeconds(0) == 1;
    trace, es := Extend(trace, es, Finish(c', Failure, true), s8, startLimit);
    assert trace[6] == s6 && trace[8] == s8;
  }

  /** Appends one step to a run. */
  lemma Extend(trace: seq<State>, es: seq<Event>, e: Event, s: State, startLimit: int)
    returns (trace': seq<State>, es': seq<Event>)
    requires IsRun(trace, es, 3, startLimit, 1) && Enabled(trace[|es|], e, startLimit, 1)
             && s == Next(trace[|es|], e, 3)
    ensures trace' == trace + [s] && es' == es + [e] && IsRun(trace', es', 3, startLimit, 1)
  {
    trace', es' := trace + [s], es + [e];
  }

  // ---- progress ----

  /** The rows that a poll ordered by process_at may take before row r. */
  function Ahead(s: State, r: nat): set<nat>
    requires r < |s.rows|
  {
    set i | 0 <= i < |s.rows| && i != r && s.rows[i].Claimable() && s.rows[i].processAt <= s.rows[r].processAt
  }

  /** ORDER BY process_at LIMIT batch with no other poller: the due rows in order, as many as fit. */
  ghost predicate TakesFirst(s: State, ids: set<nat>, batch: nat) {
    && (|ids| == batch || forall r :: 0 <= r < |s.rows| && Due(s, r) ==> r in ids)
    && forall i, r :: i in ids && i < |s.rows| && 0 <= r < |s.rows| && Due(s, r) && r !in ids ==>
                        s.rows[i].processAt <= s.rows[r].processAt
  }

  /** A step that does not claim the due row r, takes rows in order and enqueues nothing dated at or before r. */
  ghost predicate PassesOver(s: State, e: Event, r: nat, batch: nat)
    requires r < |s.rows|
  {
    && (e.Poll? ==> r !in e.ids && TakesFirst(s, e.ids, batch))
    && (e.Enqueue? ==> e.processAt > s.rows[r].processAt)
  }

  /** A due row that is passed over keeps its place, and no row gets ahead of it. */
  lemma PassedOver(s: State, e: Event, r: nat, maxRetries: nat, startLimit: int, batch: nat)
    requires Safe(s, maxRetries) && startLimit <= SAFE_START && Enabled(s, e, startLimit, batch)
    requires Due(s, r) && PassesOver(s, e, r, batch)
    ensures var n := Next(s, e, maxRetries);
            Due(n, r) && n.rows[r] == s.rows[r] && Ahead(n, r) <= Ahead(s, r) - if e.Poll? then e.ids else {}
    ensures e.Poll? ==> e.ids <= Ahead(s, r) && |e.ids| == batch
  {
  }

  function Polls(es: seq<Event>): nat {
    if es == [] then 0 else Polls(es[..|es| - 1]) + if es[|es| - 1].Poll? then 1 else 0
  }

  lemma CardDifference(a: set<nat>, b: set<nat>, c: set<nat>)
    requires a <= b - c && c <= b
    ensures |a| <= |b| - |c|
  {
    assert b == (b - c) + c;
    assert |b| == |b - c| + |c|;
    SubsetCard(a, b - c);
  }

  /** What `polls` polls of full batches take. */
  function Taken(batch: nat, polls: nat): nat {
    if polls == 0 then 0 else Taken(batch, polls - 1) + batch
  }

  lemma {:induction false} TakenIsProduct(batch: nat, polls: nat)
    ensures Taken(batch, polls) == batch * polls
  {
    if polls == 0 {
    } else {
      TakenIsProduct(batch, polls - 1);
      assert batch * polls == batch * (polls - 1) + batch;
    }
  }

  lemma EnoughPolls(batch: nat, polls: nat, q: nat)
    requires batch >= 1 && polls >= q / batch + 1
    ensures Taken(batch, polls) > q
  {
    TakenIsProduct(batch, polls);
    assert batch * polls >= batch * (q / batch + 1) by {
      MulMonotone(batch, q / batch + 1, polls);
    }
    assert batch * (q / batch) + q % batch == q;
  }

  lemma MulMonotone(a: nat, b: nat, c: nat)
    requires b <= c
    ensures a * b <= a * c
  {
  }

  /** Polls take rows in order and nothing is enqueued with a date at or before `date`. */
  ghost predicate Orderly(s: State, e: Event, date: int, batch: nat) {
    && (e.Poll? ==> TakesFirst(s, e.ids, batch))
    && (e.Enqueue? ==> e.processAt > date)
  }

  ghost predicate OrderlyRun(trace: seq<State>, es: seq<Event>, date: int, maxRetries: nat, startLimit: int,
                             batch: nat) {
    && IsRun(trace, es, maxRetries, startLimit, batch)
    && forall j :: 0 <= j < |es| ==> Orderly(trace[j], es[j], date, batch)
  }

  lemma PollsSnoc(es: seq<Event>, n: nat, batch: nat)
    requires 0 < n <= |es|
    ensures Taken(batch, Polls(es[..n])) == Taken(batch, Polls(es[..n - 1])) + if es[n - 1].Poll? then batch else 0
  {
    assert es[..n][..n - 1] == es[..n - 1];
  }

  lemma QueueStep(s: State, e: Event, r: nat, maxRetries: nat, startLimit: int, batch: nat)
    requires maxRetries >= 1 && startLimit <= SAFE_START && Safe(s, maxRetries) && Enabled(s, e, startLimit, batch)
    requires Due(s, r) && PassesOver(s, e, r, batch)
    ensures var n := Next(s, e, maxRetries);
            && Safe(n, maxRetries) && Due(n, r) && n.rows[r] == s.rows[r]
            && |Ahead(n, r)| + (if e.Poll? then batch else 0) <= |Ahead(s, r)|
  {
    StepSafe(s, e, maxRetries, startLimit, batch);
    PassedOver(s, e, r, maxRetries, startLimit, batch);
    CardDifference(Ahead(Next(s, e, maxRetries), r), Ahead(s, r), if e.Poll? then e.ids else {});
  }

  /** While no poll takes row r, it keeps its place and each poll takes `batch` rows out of those ahead of it. */
  lemma {:induction false} QueueShrinks(trace: seq<State>, es: seq<Event>, r: nat, n: nat, maxRetries: nat,
                                        startLimit: int,
                                        batch: nat)
    requires maxRetries >= 1 && startLimit <= SAFE_START && n <= |es| < |trace|
    requires Safe(trace[0], maxRetries) && Due(trace[0], r)
    requires OrderlyRun(trace, es, trace[0].rows[r].processAt, maxRetries, startLimit, batch)
    requires forall j :: 0 <= j < n && es[j].Poll? ==> r !in es[j].ids
    ensures Safe(trace[n], maxRetries) && Due(trace[n], r) && trace[n].rows[r] == trace[0].rows[r]
    ensures |Ahead(trace[n], r)| + Taken(batch, Polls(es[..n])) <= |Ahead(trace[0], r)|
  {
    if n == 0 {
    } else {
      QueueShrinks(trace, es, r, n - 1, maxRetries, startLimit, batch);
      var s, e := trace[n - 1], es[n - 1];
      assert Orderly(s, e, s.rows[r].processAt, batch) && trace[n] == Next(s, e, maxRetries);
      QueueStep(s, e, r, maxRetries, startLimit, batch);
      PollsSnoc(es, n, batch);
    }
  }

  /** A due row with q rows ahead of it is claimed within q / batch + 1 polls. */
  lemma DueRowIsClaimed(trace: seq<State>, es: seq<Event>, r: nat, maxRetries: nat, startLimit: int, batch: nat)
    requires maxRetries >= 1 && startLimit <= SAFE_START && batch >= 1 && |es| < |trace|
    requires Safe(trace[0], maxRetries) && Due(trace[0], r)
    requires OrderlyRun(trace, es, trace[0].rows[r].processAt, maxRetries, startLimit, batch)
    requires Polls(es) >= |Ahead(trace[0], r)| / batch + 1
    ensures exists j :: 0 <= j < |es| && es[j].Poll? && r in es[j].ids
  {
    EnoughPolls(batch, Polls(es), |Ahead(trace[0], r)|);
    assert es[..|es|] == es;
    if forall j :: 0 <= j < |es| && es[j].Poll? ==> r !in es[j].ids {
      QueueShrinks(trace, es, r, |es|, maxRetries, startLimit, batch);
    }
  }

  // ---- nothing is lost ----

  /** An event can be enqueued at any time: a row of its own that is claimed from its process_at on, with no history. */
  lemma EnqueuedBecomesDue(s: State, processAt: int, wait: nat, maxRetries: nat, startLimit: int, batch: nat)
    requires s.now + wait >= processAt && batch >= 1
    ensures Enabled(s, Enqueue(processAt), startLimit, batch)
    ensures var n := Next(s, Enqueue(processAt), maxRetries);
            && n.rows == s.rows + [Row(Pending, processAt, 0, 0, 0, 0)] && n == s.(rows := n.rows)
            && Enabled(Next(n, Tick(wait), maxRetries), Poll({|s.rows|}), startLimit, batch)
  {
  }

  /** Should every goroutine die at any moment, each unfinished row is due once its visibility window has passed. */
  lemma CrashedRowsComeBack(trace: seq<State>, es: seq<Event>, maxRetries: nat, startLimit: int, batch: nat, r: nat)
    requires IsRun(trace, es, maxRetries, startLimit, batch) && Fresh(trace[0]) && r < |trace[|es|].rows|
    ensures var s := trace[|es|];
            && Enabled(s, Crash(s.claims), startLimit, batch)
            && var n := Next(Next(s, Crash(s.claims), maxRetries), Tick(5 * 60), maxRetries);
            n.claims == {} && n.rows == s.rows && (s.rows[r].status == Processing ==> Due(n, r))
  {
    ProcessingIsClaimed(trace, es, maxRetries, startLimit, batch, |es|, r);
  }

  /** A row in processing was made visible again at most five minutes from now. */
  lemma {:induction false} ProcessingIsClaimed(trace: seq<State>, es: seq<Event>, maxRetries: nat, startLimit: int,
                                               batch: nat, n: nat, r: nat)
    requires IsRun(trace, es, maxRetries, startLimit, batch) && Fresh(trace[0]) && n <= |es| && r < |trace[n].rows|
    ensures trace[n].rows[r].status == Processing ==> trace[n].rows[r].processAt <= trace[n].now + VISIBILITY
  {
    if n > 0 {
      assert Enabled(trace[n - 1], es[n - 1], startLimit, batch);
      if r < |trace[n - 1].rows| {
        ProcessingIsClaimed(trace, es, maxRetries, startLimit, batch, n - 1, r);
      }
    }
  }
}
