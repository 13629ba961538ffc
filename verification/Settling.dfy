/** The cache protocol never gets stuck: from every coherent state it can bring the cache to agree with the ledger. */
module Settling {
  import opened Basics
  import opened Calendar
  import opened Tables
  import opened ReadThrough
  import opened Coherence

  /** The listener's and its handlers' own steps, on a connection that does not break. */
  predicate Housekeeping(e: Event) {
    || e.Listen? || e.BeginFlush? || e.FlushDelete? || e.EndFlush?
    || e.Dispatch? || e.BeginNight? || e.DeleteScanned? || e.EndNight?
  }

  /** A run of such steps that is coherent at its end. */
  ghost predicate Recovery(trace: seq<State>, es: seq<Event>) {
    && IsRun(trace, es) && Coherent(trace[|es|])
    && (forall j :: 0 <= j < |es| ==> Housekeeping(es[j]))
    && trace[|es|].tables == trace[0].tables
  }

  predicate Done(h: Handler) {
    h.nights.arrival >= h.nights.departure
  }

  predicate Settled(s: State) {
    s.listener == Up && s.queue == [] && forall h :: 0 <= h < |s.handlers| ==> Done(s.handlers[h])
  }

  lemma Go(trace: seq<State>, es: seq<Event>, e: Event) returns (trace': seq<State>, es': seq<Event>)
    requires Recovery(trace, es) && Enabled(trace[|es|], e) && Housekeeping(e)
    ensures Recovery(trace', es') && trace'[0] == trace[0] && trace'[|es'|] == Next(trace[|es|], e)
  {
    StepKeepsCoherence(trace[|es|], e);
    trace', es' := Extend(trace, es, e, Next(trace[|es|], e));
  }

  /** Whatever the listener was doing, it can get to processing notifications. */
  lemma ComeUp(trace: seq<State>, es: seq<Event>) returns (trace': seq<State>, es': seq<Event>)
    requires Recovery(trace, es)
    ensures Recovery(trace', es') && trace'[0] == trace[0] && trace'[|es'|].listener == Up
  {
    trace', es' := trace, es;
    if trace'[|es'|].listener.Down? {
      trace', es' := Go(trace', es', Listen);
    }
    if trace'[|es'|].listener == Subscribed {
      trace', es' := Go(trace', es', BeginFlush);
    }
    if trace'[|es'|].listener.Flushing? {
      trace', es' := Go(trace', es', FlushDelete(trace'[|es'|].listener.todo));
      trace', es' := Go(trace', es', EndFlush);
    }
  }

  lemma DispatchAll(trace: seq<State>, es: seq<Event>) returns (trace': seq<State>, es': seq<Event>)
    requires Recovery(trace, es) && trace[|es|].listener == Up
    ensures Recovery(trace', es') && trace'[0] == trace[0] && trace'[|es'|].listener == Up && trace'[|es'|].queue == []
    decreases |trace[|es|].queue|
  {
    trace', es' := trace, es;
    if trace[|es|].queue != [] {
      trace', es' := Go(trace, es, Dispatch);
      trace', es' := DispatchAll(trace', es');
    }
  }

  /** The listener is up, nothing is queued, and the handlers other than h have the nights they had. */
  ghost predicate OnlyWorked(s: State, n: State, h: nat) {
    && n.listener == Up && n.queue == [] && |n.handlers| == |s.handlers|
    && forall o :: 0 <= o < |s.handlers| && o != h ==> n.handlers[o].nights == s.handlers[o].nights
  }

  /** A handler can finish the night it is at: scan, delete what the scan owes, move on. */
  lemma FinishNight(trace: seq<State>, es: seq<Event>, h: nat) returns (trace': seq<State>, es': seq<Event>)
    requires Recovery(trace, es) && trace[|es|].listener == Up && trace[|es|].queue == []
    requires h < |trace[|es|].handlers| && !Done(trace[|es|].handlers[h])
    ensures Recovery(trace', es') && trace'[0] == trace[0] && OnlyWorked(trace[|es|], trace'[|es'|], h)
    ensures var nights := trace[|es|].handlers[h].nights;
            trace'[|es'|].handlers[h].nights == Stay(nights.arrival + 1, nights.departure)
  {
    trace', es' := trace, es;
    if trace[|es|].handlers[h].scan.None? {
      trace', es' := Go(trace', es', BeginNight(h));
    }
    var owed := trace'[|es'|].handlers[h].scan.value;
    trace', es' := Go(trace', es', DeleteScanned(h, owed));
    assert owed - owed == {};
    assert trace'[|es'|].handlers[h].scan == Some({});
    trace', es' := Go(trace', es', EndNight(h));
  }

  lemma FinishHandler(trace: seq<State>, es: seq<Event>, h: nat) returns (trace': seq<State>, es': seq<Event>)
    requires Recovery(trace, es) && trace[|es|].listener == Up && trace[|es|].queue == []
    requires h < |trace[|es|].handlers|
    ensures Recovery(trace', es') && trace'[0] == trace[0] && OnlyWorked(trace[|es|], trace'[|es'|], h)
    ensures Done(trace'[|es'|].handlers[h])
    decreases trace[|es|].handlers[h].nights.departure - trace[|es|].handlers[h].nights.arrival
  {
    trace', es' := trace, es;
    if !Done(trace[|es|].handlers[h]) {
      trace', es' := FinishNight(trace, es, h);
      trace', es' := FinishHandler(trace', es', h);
    }
  }

  lemma FinishHandlers(trace: seq<State>, es: seq<Event>, n: nat) returns (trace': seq<State>, es': seq<Event>)
    requires Recovery(trace, es) && trace[|es|].listener == Up && trace[|es|].queue == []
    requires n <= |trace[|es|].handlers| && forall h :: 0 <= h < n ==> Done(trace[|es|].handlers[h])
    ensures Recovery(trace', es') && trace'[0] == trace[0] && Settled(trace'[|es'|])
    decreases |trace[|es|].handlers| - n
  {
    trace', es' := trace, es;
    if n < |trace[|es|].handlers| {
      trace', es' := FinishHandler(trace, es, n);
      forall h | 0 <= h <= n ensures Done(trace'[|es'|].handlers[h]) {
        assert h < n ==> trace'[|es'|].handlers[h].nights == trace[|es|].handlers[h].nights;
      }
      trace', es' := FinishHandlers(trace', es', n + 1);
    }
  }

  /**
    * From every coherent state, in an outage or not and with any handlers at work, housekeeping alone leads to a state
    * with nothing pending, the same tables, and a cache all of whose values are the ledger counts.
    */
  lemma AlwaysSettles(s: State) returns (trace: seq<State>, es: seq<Event>)
    requires Coherent(s)
    ensures IsRun(trace, es) && trace[0] == s && forall j :: 0 <= j < |es| ==> Housekeeping(es[j])
    ensures trace[|es|].tables == s.tables && Settled(trace[|es|])
    ensures forall k :: k in trace[|es|].cache ==> trace[|es|].cache[k] == Count(s.tables, k)
  {
    trace, es := ComeUp([s], []);
    trace, es := DispatchAll(trace, es);
    trace, es := FinishHandlers(trace, es, 0);
    QuiescentCacheAgrees(trace[|es|]);
  }

  /** Keys may expire at any moment; they leave the cache and every scan, and the cache stays coherent. */
  lemma ExpiryIsHarmless(s: State, keys: set<Key>)
    requires Coherent(s)
    ensures Enabled(s, Expire(keys)) && Coherent(Next(s, Expire(keys)))
    ensures Next(s, Expire(keys)).cache == s.cache - keys
  {
    StepKeepsCoherence(s, Expire(keys));
  }
}
