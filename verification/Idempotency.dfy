/**
  * The idempotency middleware of internal/platform/middleware/idempotency.go: any number of concurrent POST and
  * PATCH requests reserve, poll, replay and store one record per Idempotency-Key in a shared store.  Every Redis
  * command is one atomic step.
  */
module Idempotency {
  import opened Basics

  type Byte = bv8

  /** Digests are taken to be injective, so a fingerprint is what it digests. */
  datatype Fingerprint = Fingerprint(httpMethod: string, uri: string, authorization: string, body: seq<Byte>)

  datatype Response = Response(status: int, body: seq<Byte>) {
    predicate Success() {
      200 <= status < 300
    }
  }

  /** A stored record.  `life` numbers the reservations: it identifies the one that created the record. */
  datatype Record =
    | Processing(fingerprint: Fingerprint, life: nat)
    | Completed(fingerprint: Fingerprint, life: nat, response: Response)

  datatype Answer = Direct(response: Response) | Replayed(response: Response) | Mismatch | StillProcessing | Gone

  /**
    * Where a request is: about to reserve; about to read the record; having read that there is none; sleeping
    * between two reads; in the handler as the creator of record `life`; back from the handler; in the handler
    * without a record because Redis failed; answered.
    */
  datatype Phase =
    | Arrived
    | Polling
    | Missing
    | Waiting
    | Running(life: nat)
    | Storing(life: nat, response: Response)
    | Bypassing
    | Finished(answer: Answer)
  {
    predicate Holds() {
      Running? || Storing?
    }

    predicate InHandler() {
      Running? || Bypassing?
    }

    predicate InPoll() {
      Polling? || Missing? || Waiting?
    }

    predicate AsksRedis() {
      Arrived? || Polling? || Missing?
    }
  }

  datatype Request = Request(key: string, fingerprint: Fingerprint, phase: Phase)

  /** `creators` is history: which request made the reservation numbered by its index. */
  datatype State = State(records: map<string, Record>, requests: map<nat, Request>, creators: seq<nat>)

  datatype Event =
    | Arrive(r: nat, key: string, fingerprint: Fingerprint)
    | Reserve(r: nat)
    | Check(r: nat)
    | Retry(r: nat)
    | Tick(r: nat)
    | Deadline(r: nat)
    | Cancel(r: nat)
    | FailOpen(r: nat)
    | Return(r: nat, response: Response)
    | Crash(r: nat)
    | Store(r: nat)
    | StoreLost(r: nat)
    | Expire(expired: string)

  /** What each step needs.  A request whose client has gone leaves the poll; a handler may run for ever. */
  predicate Enabled(s: State, e: Event) {
    match e
    case Arrive(r, _, _) => r !in s.requests
    case Reserve(r) => r in s.requests && s.requests[r].phase.Arrived?
    case Check(r) => r in s.requests && s.requests[r].phase.Polling?
    case Retry(r) => r in s.requests && s.requests[r].phase.Missing?
    case Tick(r) => r in s.requests && s.requests[r].phase.Waiting?
    case Deadline(r) => r in s.requests && s.requests[r].phase.Waiting?
    case Cancel(r) => r in s.requests && s.requests[r].phase.InPoll()
    case FailOpen(r) => r in s.requests && s.requests[r].phase.AsksRedis()
    case Return(r, _) => r in s.requests && s.requests[r].phase.InHandler()
    case Crash(r) => r in s.requests && s.requests[r].phase.InHandler()
    case Store(r) => r in s.requests && s.requests[r].phase.Storing?
    case StoreLost(r) => r in s.requests && s.requests[r].phase.Storing?
    case Expire(k) => k in s.records
  }

  function At(s: State, r: nat, phase: Phase): State
    requires r in s.requests
  {
    s.(requests := s.requests[r := s.requests[r].(phase := phase)])
  }

  /** SET NX: creates a processing record if there is none, and says where the request goes next. */
  function TryReserve(s: State, r: nat, otherwise: Phase): State
    requires r in s.requests
  {
    var q := s.requests[r];
    if q.key in s.records then At(s, r, otherwise)
    else
      At(s, r, Running(|s.creators|)).(
      records := s.records[q.key := Processing(q.fingerprint, |s.creators|)], creators := s.creators + [r])
  }

  /** One read of the record: absent, another request's, completed, or still processing. */
  function Look(s: State, q: Request): Phase {
    if q.key !in s.records then Missing
    else if s.records[q.key].fingerprint != q.fingerprint then Finished(Mismatch)
    else if s.records[q.key].Completed? then Finished(Replayed(s.records[q.key].response))
    else Waiting
  }

  function Next(s: State, e: Event): State
    requires Enabled(s, e)
  {
    match e
    case Arrive(r, k, fp) => s.(requests := s.requests[r := Request(k, fp, Arrived)])
    case Reserve(r) => TryReserve(s, r, Polling)
    case Check(r) => At(s, r, Look(s, s.requests[r]))
    case Retry(r) => TryReserve(s, r, Waiting)
    case Tick(r) => At(s, r, Polling)
    case Deadline(r) => At(s, r, Finished(StillProcessing))
    case Cancel(r) => At(s, r, Finished(Gone))
    case FailOpen(r) => At(s, r, Bypassing)
    case Return(r, resp) =>
      At(s, r, if s.requests[r].phase.Bypassing? then Finished(Direct(resp))
         else Storing(s.requests[r].phase.life, resp))
    case Crash(r) => At(s, r, Finished(Gone))
    case Store(r) =>
      var q := s.requests[r];
      At(s, r, Finished(Direct(q.phase.response))).(
      records := if q.phase.response.Success()
      then s.records[q.key := Completed(q.fingerprint, q.phase.life, q.phase.response)]
      else s.records - {q.key})
    case StoreLost(r) => At(s, r, Finished(Direct(s.requests[r].phase.response)))
    case Expire(k) => s.(records := s.records - {k})
  }

  // ---- the invariant ----

  /** A request in or just back from the handler owns the processing record of its key. */
  predicate Owns(s: State, r: nat)
    requires r in s.requests && s.requests[r].phase.Holds()
  {
    var q := s.requests[r];
    && q.key in s.records && s.records[q.key] == Processing(q.fingerprint, q.phase.life)
    && q.phase.life < |s.creators| && s.creators[q.phase.life] == r
  }

  predicate Safe(s: State) {
    && (forall r :: r in s.requests ==> !s.requests[r].phase.Bypassing?)
    && (forall r :: r in s.requests && s.requests[r].phase.Holds() ==> Owns(s, r))
    && (forall k :: k in s.records ==> s.records[k].life < |s.creators|)
    && (forall k :: k in s.records && s.records[k].Completed? ==> s.records[k].response.Success())
  }

  /** No Redis error, and no record that expires before its creator has stored the outcome. */
  predicate Clean(s: State, e: Event) {
    && !e.FailOpen?
    && (e.Expire? ==> forall r :: r in s.requests && s.requests[r].phase.Holds() ==> s.requests[r].key != e.expired)
  }

  /** Two requests of one key cannot both hold it. */
  lemma HolderIsUnique(s: State, r: nat, q: nat)
    requires Safe(s) && r in s.requests && q in s.requests
    requires s.requests[r].phase.Holds() && s.requests[q].phase.Holds()
    ensures s.requests[r].key == s.requests[q].key ==> r == q
  {
  }

  lemma CleanStepKeepsOwners(s: State, e: Event, r: nat)
    requires Safe(s) && Enabled(s, e) && Clean(s, e)
    requires r in Next(s, e).requests && Next(s, e).requests[r].phase.Holds()
    ensures Owns(Next(s, e), r)
  {
    if r in s.requests && s.requests[r].phase.Holds() {
      assert Owns(s, r);
      if e.Store? {
        HolderIsUnique(s, r, e.r);
      }
    }
  }

  /** A step keeps the invariant exactly when it is clean. */
  lemma StepKeepsSafe(s: State, e: Event)
    requires Safe(s) && Enabled(s, e)
    ensures Safe(Next(s, e)) <==> Clean(s, e)
  {
    var n := Next(s, e);
    if Clean(s, e) {
      forall r | r in n.requests && n.requests[r].phase.Holds() ensures Owns(n, r) {
        CleanStepKeepsOwners(s, e, r);
      }
    } else if e.FailOpen? {
      assert n.requests[e.r].phase.Bypassing?;
    } else {
      var r :| r in s.requests && s.requests[r].phase.Holds() && s.requests[r].key == e.expired;
      assert !Owns(n, r);
    }
  }

  // ---- whole runs ----

  predicate IsRun(trace: seq<State>, es: seq<Event>) {
    && |trace| == |es| + 1 && trace[0] == State(map[], map[], [])
    && forall j :: 0 <= j < |es| ==> Enabled(trace[j], es[j]) && trace[j + 1] == Next(trace[j], es[j])
  }

  predicate CleanUpTo(trace: seq<State>, es: seq<Event>, n: nat)
    requires |trace| == |es| + 1 && n <= |es|
  {
    forall j :: 0 <= j < n ==> Clean(trace[j], es[j])
  }

  lemma {:induction false} RunSafe(trace: seq<State>, es: seq<Event>, n: nat)
    requires IsRun(trace, es) && n <= |es| && CleanUpTo(trace, es, n)
    ensures Safe(trace[n])
  {
    if n == 0 {
    } else {
      RunSafe(trace, es, n - 1);
      StepKeepsSafe(trace[n - 1], es[n - 1]);
    }
  }

  /**
    * In every state of every clean run at most one request per key is in the handler, and the record that is
    * then present is the processing record of that very request: no other fingerprint runs beside a record.
    */
  lemma MutualExclusion(trace: seq<State>, es: seq<Event>, n: nat, r: nat)
    requires IsRun(trace, es) && n <= |es| && CleanUpTo(trace, es, n)
    requires r in trace[n].requests && trace[n].requests[r].phase.InHandler()
    ensures var s := trace[n];
            && s.requests[r].key in s.records && s.records[s.requests[r].key].Processing?
            && s.records[s.requests[r].key].fingerprint == s.requests[r].fingerprint
            && forall q | q in s.requests && s.requests[q].key == s.requests[r].key && s.requests[q].phase.InHandler()
                 :: q == r
  {
    RunSafe(trace, es, n);
    var s := trace[n];
    assert Owns(s, r);
    forall q | q in s.requests && s.requests[q].key == s.requests[r].key && s.requests[q].phase.InHandler()
      ensures q == r
    {
      HolderIsUnique(s, q, r);
    }
  }

  /** A record that is present before and after a step is still the same reservation's record. */
  lemma RecordKept(s: State, e: Event, k: string)
    requires Safe(s) && Enabled(s, e) && Clean(s, e) && k in s.records && k in Next(s, e).records
    ensures Next(s, e).records[k].life == s.records[k].life
    ensures s.creators <= Next(s, e).creators
    ensures s.records[k].Completed? ==> Next(s, e).records[k] == s.records[k]
  {
  }

  predicate PresentThroughout(trace: seq<State>, k: string, a: nat, b: nat)
    requires a <= b < |trace|
  {
    forall m :: a <= m <= b ==> k in trace[m].records
  }

  lemma {:induction false} RecordKeptThroughout(trace: seq<State>, es: seq<Event>, k: string, a: nat, b: nat)
    requires IsRun(trace, es) && a <= b <= |es| && CleanUpTo(trace, es, b) && PresentThroughout(trace, k, a, b)
    ensures trace[b].records[k].life == trace[a].records[k].life && trace[a].creators <= trace[b].creators
    ensures trace[a].records[k].Completed? ==> trace[b].records[k] == trace[a].records[k]
  {
    if a == b {
    } else {
      RecordKeptThroughout(trace, es, k, a, b - 1);
      RunSafe(trace, es, b - 1);
      assert k in trace[b].records && trace[b] == Next(trace[b - 1], es[b - 1]);
      RecordKept(trace[b - 1], es[b - 1], k);
    }
  }

  /** As long as a record lives, only one request ever gets into the handler, and so at most one execution happens. */
  lemma OneHandlerPerRecord(trace: seq<State>, es: seq<Event>, a: nat, b: nat, r: nat, q: nat)
    requires IsRun(trace, es) && a <= b <= |es| && CleanUpTo(trace, es, b)
    requires r in trace[a].requests && trace[a].requests[r].phase.InHandler()
    requires q in trace[b].requests && trace[b].requests[q].phase.InHandler()
    requires trace[a].requests[r].key == trace[b].requests[q].key
    requires PresentThroughout(trace, trace[a].requests[r].key, a, b)
    ensures q == r
  {
    RecordKeptThroughout(trace, es, trace[a].requests[r].key, a, b);
    RunSafe(trace, es, a);
    RunSafe(trace, es, b);
    assert Owns(trace[a], r) && Owns(trace[b], q);
  }

  /** How far a request has got; it never goes back, so it is in the handler once. */
  function Stage(p: Phase): nat {
    match p
    case Running(_) => 1
    case Bypassing => 1
    case Storing(_, _) => 2
    case Finished(_) => 3
    case _ => 0
  }

  lemma StageStep(s: State, e: Event, r: nat)
    requires Enabled(s, e) && r in s.requests
    ensures var n := Next(s, e);
            && r in n.requests && Stage(s.requests[r].phase) <= Stage(n.requests[r].phase)
            && n.requests[r].key == s.requests[r].key && n.requests[r].fingerprint == s.requests[r].fingerprint
  {
  }

  lemma {:induction false} StagesAdvance(trace: seq<State>, es: seq<Event>, a: nat, b: nat, r: nat)
    requires IsRun(trace, es) && a <= b <= |es| && r in trace[a].requests
    ensures r in trace[b].requests && Stage(trace[a].requests[r].phase) <= Stage(trace[b].requests[r].phase)
    ensures trace[b].requests[r].key == trace[a].requests[r].key
    ensures trace[b].requests[r].fingerprint == trace[a].requests[r].fingerprint
  {
    if a == b {
    } else {
      StagesAdvance(trace, es, a, b - 1, r);
      StageStep(trace[b - 1], es[b - 1], r);
      assert trace[b] == Next(trace[b - 1], es[b - 1]);
    }
  }

  /** Two handler calls for one key return only if the key's record was gone at some moment between them. */
  lemma OneExecutionPerRecord(trace: seq<State>, es: seq<Event>, a: nat, b: nat)
    requires IsRun(trace, es) && a < b < |es| && CleanUpTo(trace, es, b)
    requires es[a].Return? && es[b].Return? && trace[a].requests[es[a].r].key == trace[b].requests[es[b].r].key
    ensures exists m :: a <= m <= b && trace[a].requests[es[a].r].key !in trace[m].records
  {
    if PresentThroughout(trace, trace[a].requests[es[a].r].key, a, b) {
      OneHandlerPerRecord(trace, es, a, b, es[a].r, es[b].r);
      StagesAdvance(trace, es, a + 1, b, es[a].r);
    }
  }

  /**
    * Once a successful outcome is stored, and for as long as its record lives, every request that reads the
    * record gets exactly the stored response if its fingerprint is the same and a conflict if it is not, and
    * no request can reserve the key.
    */
  lemma LaterRequestsReplay(trace: seq<State>, es: seq<Event>, a: nat, b: nat, r: nat)
    requires IsRun(trace, es) && a < b < |es| && CleanUpTo(trace, es, b)
    requires es[a].Store? && trace[a].requests[es[a].r].phase.response.Success()
    requires PresentThroughout(trace, trace[a].requests[es[a].r].key, a + 1, b)
    requires r in trace[b].requests && trace[b].requests[r].key == trace[a].requests[es[a].r].key
    ensures var stored := trace[a].requests[es[a].r];
            && (es[b] == Check(r) && trace[b].requests[r].fingerprint == stored.fingerprint ==>
                  trace[b + 1].requests[r].phase == Finished(Replayed(stored.phase.response)))
            && (es[b] == Check(r) && trace[b].requests[r].fingerprint != stored.fingerprint ==>
                  trace[b + 1].requests[r].phase == Finished(Mismatch))
            && (es[b] == Reserve(r) ==> trace[b + 1].requests[r].phase == Polling)
            && (es[b] == Retry(r) ==> trace[b + 1].requests[r].phase == Waiting)
            && !trace[b].requests[r].phase.InHandler()
  {
    RunSafe(trace, es, b);
    assert trace[b].requests[r].phase.Holds() ==> Owns(trace[b], r);
    var k := trace[a].requests[es[a].r].key;
    assert trace[a + 1].records[k].Completed?;
    RecordKeptThroughout(trace, es, k, a + 1, b);
  }

  /** The handler call that produced a response: by a request with this key and fingerprint, before position n. */
  predicate ProducedBy(trace: seq<State>, es: seq<Event>, a: nat, n: nat, k: string, fp: Fingerprint, resp: Response)
    requires IsRun(trace, es) && n <= |es|
  {
    && a < n && es[a].Return? && es[a].response == resp
    && trace[a].requests[es[a].r].key == k && trace[a].requests[es[a].r].fingerprint == fp
  }

  lemma {:induction false} StoringWasProduced(trace: seq<State>, es: seq<Event>, n: nat, r: nat) returns (a: nat)
    requires IsRun(trace, es) && n <= |es| && r in trace[n].requests && trace[n].requests[r].phase.Storing?
    ensures var q := trace[n].requests[r]; ProducedBy(trace, es, a, n, q.key, q.fingerprint, q.phase.response)
  {
    var e := es[n - 1];
    if e.Return? && e.r == r {
      a := n - 1;
    } else {
      a := StoringWasProduced(trace, es, n - 1, r);
    }
  }

  lemma {:induction false} CompletedWasProduced(trace: seq<State>, es: seq<Event>, n: nat, k: string) returns (a: nat)
    requires IsRun(trace, es) && n <= |es| && k in trace[n].records && trace[n].records[k].Completed?
    ensures ProducedBy(trace, es, a, n, k, trace[n].records[k].fingerprint, trace[n].records[k].response)
    ensures trace[n].records[k].response.Success()
  {
    var s, e := trace[n - 1], es[n - 1];
    if e.Store? && s.requests[e.r].key == k {
      a := StoringWasProduced(trace, es, n - 1, e.r);
    } else {
      a := CompletedWasProduced(trace, es, n - 1, k);
    }
  }

  /**
    * In every run, clean or not, a replayed response is exactly what a handler returned, with a success status,
    * for an earlier request with the same key and the same fingerprint.
    */
  lemma ReplaysAreGenuine(trace: seq<State>, es: seq<Event>, n: nat)
    requires IsRun(trace, es) && n < |es| && es[n].Check?
    requires trace[n + 1].requests[es[n].r].phase.Finished? && trace[n + 1].requests[es[n].r].phase.answer.Replayed?
    ensures var q := trace[n + 1].requests[es[n].r];
            q.phase.answer.response.Success()
            && exists a :: ProducedBy(trace, es, a, n, q.key, q.fingerprint, q.phase.answer.response)
  {
    var a := CompletedWasProduced(trace, es, n, trace[n].requests[es[n].r].key);
  }

  // ---- what each step does to the record ----

  /** Only the request that moves changes its phase; other keys' records are never touched. */
  predicate OnlyMoves(s: State, n: State, r: nat, key: string) {
    && n.requests.Keys == s.requests.Keys
    && (forall q :: q in s.requests && q != r ==> n.requests[q] == s.requests[q])
    && (forall k :: k in s.records && k != key ==> k in n.records && n.records[k] == s.records[k])
    && (forall k :: k in n.records && k != key ==> k in s.records)
  }

  /** A 2xx outcome is stored as it is; after any other the key is free again. */
  lemma StoreExactly(s: State, r: nat)
    requires Enabled(s, Store(r))
    ensures var q, n := s.requests[r], Next(s, Store(r));
            && OnlyMoves(s, n, r, q.key) && n.requests[r].phase == Finished(Direct(q.phase.response))
            && (200 <= q.phase.response.status <= 299 ==>
                  q.key in n.records && n.records[q.key] == Completed(q.fingerprint, q.phase.life, q.phase.response))
            && (!(200 <= q.phase.response.status <= 299) ==> q.key !in n.records)
  {
  }

  /** SET NX: the request runs the handler exactly when there was no record, and then its record is the one there. */
  lemma ReserveExactly(s: State, e: Event)
    requires (e.Reserve? || e.Retry?) && Enabled(s, e)
    ensures var q, n := s.requests[e.r], Next(s, e);
            && OnlyMoves(s, n, e.r, q.key)
            && (n.requests[e.r].phase.Running? <==> q.key !in s.records)
            && (q.key !in s.records ==> && q.key in n.records && n.requests[e.r].phase == Running(|s.creators|)
                                        && n.records[q.key] == Processing(q.fingerprint, |s.creators|))
            && (q.key in s.records ==> && n.records == s.records
                                       && n.requests[e.r].phase == if e.Reserve? then Polling else Waiting)
  {
  }

  /** A read: gone, another request's, completed, or still processing. */
  lemma CheckExactly(s: State, r: nat)
    requires Enabled(s, Check(r))
    ensures var q, n := s.requests[r], Next(s, Check(r));
            && OnlyMoves(s, n, r, q.key) && n.records == s.records
            && (n.requests[r].phase == Missing <==> q.key !in s.records)
            && (n.requests[r].phase == Finished(Mismatch) <==>
                q.key in s.records && s.records[q.key].fingerprint != q.fingerprint)
            && (n.requests[r].phase == Waiting <==>
                q.key in s.records && s.records[q.key].fingerprint == q.fingerprint && s.records[q.key].Processing?)
            && (q.key in s.records && s.records[q.key].fingerprint == q.fingerprint && s.records[q.key].Completed? ==>
                  n.requests[r].phase == Finished(Replayed(s.records[q.key].response)))
  {
  }

  /** The other steps of a request leave every record alone and lead where they should. */
  lemma OtherStepsExactly(s: State, e: Event)
    requires Enabled(s, e) && !(e.Reserve? || e.Retry? || e.Check? || e.Store? || e.Expire? || e.Arrive?)
    ensures var q, n := s.requests[e.r], Next(s, e);
            && OnlyMoves(s, n, e.r, q.key) && n.records == s.records
            && n.requests[e.r].key == q.key && n.requests[e.r].fingerprint == q.fingerprint
            && (e.Tick? ==> n.requests[e.r].phase == Polling)
            && (e.Deadline? ==> n.requests[e.r].phase == Finished(StillProcessing))
            && (e.Cancel? || e.Crash? ==> n.requests[e.r].phase == Finished(Gone))
            && (e.FailOpen? ==> n.requests[e.r].phase == Bypassing)
            && (e.StoreLost? ==> n.requests[e.r].phase == Finished(Direct(q.phase.response)))
            && (e.Return? && q.phase.Running? ==> n.requests[e.r].phase == Storing(q.phase.life, e.response))
  {
  }

  /** A step by which some request tries to reserve the key. */
  predicate Attempts(s: State, e: Event, k: string) {
    (e.Reserve? || e.Retry?) && e.r in s.requests && s.requests[e.r].key == k
  }

  /** In a clean run a free key stays free until somebody tries to reserve it. */
  lemma {:induction false} FreeUntilAttempt(trace: seq<State>, es: seq<Event>, k: string, a: nat, b: nat)
    requires IsRun(trace, es) && a <= b <= |es| && CleanUpTo(trace, es, b) && k !in trace[a].records
    requires forall m :: a <= m < b ==> !Attempts(trace[m], es[m], k)
    ensures k !in trace[b].records
  {
    if a == b {
    } else {
      FreeUntilAttempt(trace, es, k, a, b - 1);
      RunSafe(trace, es, b - 1);
      var s, e := trace[b - 1], es[b - 1];
      assert trace[b] == Next(s, e) && !Attempts(s, e, k);
      if e.Store? {
        assert Owns(s, e.r);
        StoreExactly(s, e.r);
      }
    }
  }

  /**
    * Over clean runs a failed request frees its key: after an outcome outside 2xx has been dealt with, the next request
    * that tries to reserve the key, whatever its fingerprint, runs the handler.
    */
  lemma FailureFreesKey(trace: seq<State>, es: seq<Event>, a: nat, b: nat)
    requires IsRun(trace, es) && a < b < |es| && CleanUpTo(trace, es, b) && es[a].Store?
    requires !(200 <= trace[a].requests[es[a].r].phase.response.status <= 299)
    requires Attempts(trace[b], es[b], trace[a].requests[es[a].r].key)
    requires forall m :: a < m < b ==> !Attempts(trace[m], es[m], trace[a].requests[es[a].r].key)
    ensures trace[b + 1].requests[es[b].r].phase.Running?
  {
    StoreExactly(trace[a], es[a].r);
    assert trace[a + 1] == Next(trace[a], es[a]) && trace[b + 1] == Next(trace[b], es[b]);
    FreeUntilAttempt(trace, es, trace[a].requests[es[a].r].key, a + 1, b);
    ReserveExactly(trace[b], es[b]);
  }

  // ---- why both conditions are there ----

  lemma Extend(trace: seq<State>, es: seq<Event>, e: Event, s: State) returns (trace': seq<State>, es': seq<Event>)
    requires IsRun(trace, es) && Enabled(trace[|es|], e) && s == Next(trace[|es|], e)
    ensures trace' == trace + [s] && es' == es + [e] && IsRun(trace', es')
  {
    trace', es' := trace + [s], es + [e];
  }

  /** A run after which two requests of one key are in the handler. */
  predicate Doubled(trace: seq<State>, es: seq<Event>) {
    && IsRun(trace, es)
    && exists r, q :: r in trace[|es|].requests && q in trace[|es|].requests && r != q
                      && trace[|es|].requests[r].phase.InHandler() && trace[|es|].requests[q].phase.InHandler()
                      && trace[|es|].requests[r].key == trace[|es|].requests[q].key
  }

  lemma DoubledByBoth(trace: seq<State>, es: seq<Event>)
    requires IsRun(trace, es) && 0 in trace[|es|].requests && 1 in trace[|es|].requests
    requires trace[|es|].requests[0].key == trace[|es|].requests[1].key
    requires trace[|es|].requests[0].phase.InHandler() && trace[|es|].requests[1].phase.InHandler()
    ensures Doubled(trace, es)
  {
  }

  /** Request 0 of key `k` is in the handler and request 1 has arrived. */
  lemma OneRunsOneArrives(k: string, fp: Fingerprint) returns (trace: seq<State>, es: seq<Event>)
    ensures IsRun(trace, es) && es == [Arrive(0, k, fp), Reserve(0), Arrive(1, k, fp)]
    ensures trace[|es|] == State(map[k := Processing(fp, 0)],
                                 map[0 := Request(k, fp, Running(0)), 1 := Request(k, fp, Arrived)], [0])
  {
    var first, second := Request(k, fp, Arrived), Request(k, fp, Running(0));
    trace, es := Extend([State(map[], map[], [])], [], Arrive(0, k, fp), State(map[], map[0 := first], []));
    trace, es := Extend(trace, es, Reserve(0), State(map[k := Processing(fp, 0)], map[0 := second], [0]));
    trace, es := Extend(trace, es, Arrive(1, k, fp),
                        State(map[k := Processing(fp, 0)], map[0 := second, 1 := first], [0]));
  }

  /** A handler that outlives the two-minute lock lets a second request with the same key in. */
  lemma ExpiredLockAdmitsTwo(k: string, fp: Fingerprint) returns (trace: seq<State>, es: seq<Event>)
    ensures Doubled(trace, es) && forall j :: 0 <= j < |es| ==> !es[j].FailOpen?
  {
    trace, es := OneRunsOneArrives(k, fp);
    var s := trace[|es|];
    var both := map[0 := Request(k, fp, Running(0)), 1 := Request(k, fp, Running(1))];
    trace, es := Extend(trace, es, Expire(k), s.(records := map[]));
    trace, es := Extend(trace, es, Reserve(1), State(map[k := Processing(fp, 1)], both, [0, 1]));
    DoubledByBoth(trace, es);
  }

  /** Failing open on a Redis error lets one in even though the record is there. */
  lemma FailingOpenAdmitsTwo(k: string, fp: Fingerprint) returns (trace: seq<State>, es: seq<Event>)
    ensures Doubled(trace, es) && forall j :: 0 <= j < |es| ==> !es[j].Expire?
  {
    trace, es := OneRunsOneArrives(k, fp);
    var both := map[0 := Request(k, fp, Running(0)), 1 := Request(k, fp, Bypassing)];
    trace, es := Extend(trace, es, FailOpen(1), trace[|es|].(requests := both));
    DoubledByBoth(trace, es);
  }

  // ---- the response capture ----

  // ---- no request is stuck ----

  /** The steps request r takes by itself while Redis answers and neither client nor handler gives up. */
  predicate Proceeds(e: Event, r: nat, response: Response) {
    e in {Reserve(r), Check(r), Retry(r), Tick(r), Deadline(r), Return(r, response), Store(r)}
  }

  function StepsLeft(phase: Phase): nat {
    match phase
    case Arrived => 5
    case Polling => 4
    case Missing => 3
    case Waiting => 1
    case Running(_) => 2
    case Storing(_, _) => 1
    case Bypassing => 1
    case Finished(_) => 0
  }

  /** The next step of a request that is not answered yet. */
  lemma CanProceed(s: State, r: nat, response: Response) returns (e: Event)
    requires r in s.requests && !s.requests[r].phase.Finished?
    ensures Proceeds(e, r, response) && Enabled(s, e)
    ensures r in Next(s, e).requests && StepsLeft(Next(s, e).requests[r].phase) < StepsLeft(s.requests[r].phase)
  {
    match s.requests[r].phase
    case Arrived => e := Reserve(r);
    case Polling => e := Check(r);
    case Missing => e := Retry(r);
    case Waiting => e := Deadline(r);
    case Running(_) => e := Return(r, response);
    case Storing(_, _) => e := Store(r);
    case Bypassing => e := Return(r, response);
  }

  /** Whatever the others have done, a request can be answered by its own steps, five at the most. */
  lemma RequestsAreAnswered(trace: seq<State>, es: seq<Event>, r: nat, response: Response)
    returns (trace': seq<State>, es': seq<Event>)
    requires IsRun(trace, es) && r in trace[|es|].requests
    ensures IsRun(trace', es') && |es| <= |es'| <= |es| + StepsLeft(trace[|es|].requests[r].phase) <= |es| + 5
    ensures es'[..|es|] == es && forall j :: |es| <= j < |es'| ==> Proceeds(es'[j], r, response)
    ensures r in trace'[|es'|].requests && trace'[|es'|].requests[r].phase.Finished?
    decreases StepsLeft(trace[|es|].requests[r].phase)
  {
    trace', es' := trace, es;
    if !trace[|es|].requests[r].phase.Finished? {
      var e := CanProceed(trace[|es|], r, response);
      var trace1, es1 := Extend(trace, es, e, Next(trace[|es|], e));
      trace', es' := RequestsAreAnswered(trace1, es1, r, response);
      assert es1[..|es|] == es && es'[..|es|] == es'[..|es1|][..|es|];
      assert es'[|es|] == es'[..|es1|][|es|];
    }
  }

  /**
    * The other ways out: a client that goes away is noticed anywhere in the poll and only there; a Redis error at any
    * of the three commands before the handler runs the handler without a record.
    */
  lemma OtherWaysOut(s: State, r: nat)
    requires r in s.requests
    ensures var phase := s.requests[r].phase;
            && (Enabled(s, Cancel(r)) <==> phase in {Polling, Missing, Waiting})
            && (Enabled(s, FailOpen(r)) <==> phase in {Arrived, Polling, Missing})
            && (Enabled(s, FailOpen(r)) ==>
                  Next(s, FailOpen(r)) == s.(requests := s.requests[r := s.requests[r].(phase := Bypassing)]))
  {
  }

  /** What a handler does to its response writer. */
  datatype Call = Header(status: int) | Body(bytes: seq<Byte>)

  /** What the client receives: the first status, which a body without one makes 200, and all the bytes. */
  function Received(calls: seq<Call>): Response {
    if calls == [] then Response(200, [])
    else Response(if calls[0].Header? then calls[0].status else 200, Bytes(calls))
  }

  function Bytes(calls: seq<Call>): seq<Byte> {
    if calls == [] then []
    else Bytes(calls[..|calls| - 1]) + if calls[|calls| - 1].Body? then calls[|calls| - 1].bytes else []
  }

  class ResponseCapture {
    var status: int
    var written: bool
    var body: seq<Byte>
    /** The wrapped writer: the status line it has sent, if any, and the bytes after it. */
    var sentStatus: Option<int>
    var sentBody: seq<Byte>

    /** The capture is exactly what went through to the client. */
    ghost predicate Valid()
      reads this
    {
      && body == sentBody
      && sentStatus == (if written then Some(status) else None)
      && (!written ==> status == 0 && body == [])
    }

    constructor ()
      ensures Valid() && !written
    {
      status, written, body, sentStatus, sentBody := 0, false, [], None, [];
    }

    /** Only the first status counts. */
    method WriteHeader(code: int)
      requires Valid()
      modifies this
      ensures Valid() && written && body == old(body)
      ensures status == if old(written) then old(status) else code
    {
      if written {
        return;
      }
      written := true;
      status := code;
      sentStatus := Some(code);
    }

    method Write(bytes: seq<Byte>)
      requires Valid()
      modifies this
      ensures Valid() && written && body == old(body) + bytes
      ensures status == if old(written) then old(status) else 200
    {
      if !written {
        WriteHeader(200);
      }
      body := body + bytes;
      sentBody := sentBody + bytes;
    }

    /**
      * Runs a handler that makes these calls.  What is captured is what the client receives, except that a
      * handler that writes nothing is captured with status 0 although the client receives 200, so the
      * middleware stores exactly the successes the client saw but for that one.
      */
    method Serve(calls: seq<Call>)
      requires Valid() && !written
      modifies this
      ensures Valid() && (written <==> calls != [])
      ensures calls != [] ==> Response(status, body) == Received(calls)
      ensures calls == [] ==> status == 0 && body == [] && Received(calls) == Response(200, [])
      ensures Response(status, body).Success() <==> calls != [] && Received(calls).Success()
    {
      for i := 0 to |calls|
        invariant Valid() && (written <==> i > 0)
        invariant i > 0 ==> Response(status, body) == Received(calls[..i])
        invariant i == 0 ==> status == 0 && body == []
      {
        var now := calls[..i + 1];
        assert now[..i] == calls[..i] && now[0] == calls[0] && now[i] == calls[i];
        assert Bytes(now) == Bytes(calls[..i]) + if calls[i].Body? then calls[i].bytes else [];
        if calls[i].Header? {
          WriteHeader(calls[i].status);
        } else {
          Write(calls[i].bytes);
        }
      }
      assert calls[..|calls|] == calls;
    }
  }
}
