/**
  * The server-sent-events hub of internal/platform/realtime/hub.go.  A mutex guards the client map, so at most
  * one fan-out or broadcast is under way; subscribers receive from their channels, leave and close them between
  * any two sends of that fan-out.
  */
module Hub {
  import opened Basics

  const MAX_CLIENTS := 1000
  const BUFFER := 64

  datatype Table = Reservations | ReservationItems | RoomInventoryLedger | BookedDailyRates | OtherTable

  datatype Name = ReservationChanged | AvailabilityChanged | RateChanged | OtherChange

  /** The JSON payload is kept abstract; a resync has none. */
  datatype Message = Change(name: Name, payload: nat) | Resync

  function EventName(table: Table): Name {
    match table
    case Reservations => ReservationChanged
    case ReservationItems => ReservationChanged
    case RoomInventoryLedger => AvailabilityChanged
    case BookedDailyRates => RateChanged
    case OtherTable => OtherChange
  }

  /** A subscriber is in its loop, out of it, deleted from the client map, or has closed its channel. */
  datatype Phase = Streaming | Leaving | Removed | Closed

  /**
    * A client's channel.  `received`, `since` (how many events preceded the subscription) and `missed` (how many
    * of its events found the buffer full) are history.
    */
  datatype Channel = Channel(
    property: nat, phase: Phase, buffer: seq<Message>, received: seq<Message>, since: nat, missed: nat)
  {
    function Stream(): seq<Message> {
      received + buffer
    }

    /** A send that does not block: it happens only if the buffer has room. */
    function Send(m: Message): Channel {
      if |buffer| < BUFFER then this.(buffer := buffer + [m]) else this
    }
  }

  datatype Published = Published(property: nat, message: Message)

  /**
    * Who holds the mutex: nobody; a fan-out that still has to visit `todo` and has found the buffer of `full`
    * full; or a resync broadcast.
    */
  datatype Job =
    | Idle
    | FanOut(property: nat, message: Message, todo: set<nat>, full: Option<nat>)
    | Broadcast(todo: set<nat>)

  /**
    * `pending` are notifications whose goroutine has not got the mutex yet; `log` is the order in which they got it,
    * and `notified`, which is history, the order in which the listener dispatched them.
    */
  datatype State = State(
    clients: map<nat, nat>, channels: map<nat, Channel>, job: Job, log: seq<Published>, pending: seq<Published>,
    notified: seq<Published>)

  datatype Event =
    | Subscribe(c: nat, property: nat)
    | Receive(c: nat)
    | Leave(c: nat)
    | Remove(c: nat)
    | Close(c: nat)
    | Notify(property: nat, table: Table, payload: nat)
    | Publish(j: nat)
    | Offer(c: nat)
    | SignalFull(c: nat)
    | BeginResync
    | Nudge(c: nat)
    | Unlock

  predicate Enabled(s: State, e: Event) {
    match e
    case Subscribe(c, _) => c !in s.channels && s.job.Idle?
    case Receive(c) => c in s.channels && s.channels[c].phase == Streaming && s.channels[c].buffer != []
    case Leave(c) => c in s.channels && s.channels[c].phase == Streaming
    case Remove(c) => c in s.channels && s.channels[c].phase == Leaving && s.job.Idle?
    case Close(c) => c in s.channels && s.channels[c].phase == Removed
    case Notify(_, _, _) => true
    case Publish(j) => s.job.Idle? && j < |s.pending|
    case Offer(c) => s.job.FanOut? && s.job.full.None? && c in s.job.todo && c in s.clients && c in s.channels
    case SignalFull(c) => s.job.FanOut? && s.job.full == Some(c) && c in s.channels
    case BeginResync => s.job.Idle?
    case Nudge(c) => s.job.Broadcast? && c in s.job.todo && c in s.channels
    case Unlock => (s.job.FanOut? && s.job.todo == {} && s.job.full.None?) || (s.job.Broadcast? && s.job.todo == {})
  }

  function Put(s: State, c: nat, ch: Channel): State {
    s.(channels := s.channels[c := ch])
  }

  /** The fan-out at one client: not its property, room in the buffer, or a full buffer. */
  function OfferTo(s: State, c: nat): State
    requires Enabled(s, Offer(c))
  {
    var ch := s.channels[c];
    var next := s.(job := s.job.(todo := s.job.todo - {c}));
    if s.clients[c] != s.job.property then next
    else if |ch.buffer| < BUFFER then Put(next, c, ch.Send(s.job.message))
    else Put(s.(job := s.job.(full := Some(c))), c, ch.(missed := ch.missed + 1))
  }

  function Next(s: State, e: Event): State
    requires Enabled(s, e)
  {
    match e
    case Subscribe(c, p) =>
      if |s.clients| >= MAX_CLIENTS then s
      else Put(s, c, Channel(p, Streaming, [], [], |s.log|, 0)).(clients := s.clients[c := p])
    case Receive(c) =>
      var ch := s.channels[c];
      Put(s, c, ch.(received := ch.received + [ch.buffer[0]], buffer := ch.buffer[1..]))
    case Leave(c) => Put(s, c, s.channels[c].(phase := Leaving))
    case Remove(c) => Put(s, c, s.channels[c].(phase := Removed)).(clients := s.clients - {c})
    case Close(c) => Put(s, c, s.channels[c].(phase := Closed))
    case Notify(p, table, payload) =>
      var x := Published(p, Change(EventName(table), payload));
      s.(pending := s.pending + [x], notified := s.notified + [x])
    case Publish(j) =>
      var x := s.pending[j];
      s.(job := FanOut(x.property, x.message, s.clients.Keys, None), log := s.log + [x],
      pending := s.pending[..j] + s.pending[j + 1..])
    case Offer(c) => OfferTo(s, c)
    case SignalFull(c) => Put(s, c, s.channels[c].Send(Resync)).(job := s.job.(todo := s.job.todo - {c}, full := None))
    case BeginResync => s.(job := Broadcast(s.clients.Keys))
    case Nudge(c) => Put(s, c, s.channels[c].Send(Resync)).(job := Broadcast(s.job.todo - {c}))
    case Unlock => s.(job := Idle)
  }

  // ---- what a client is due ----

  /** The events of property p published from position `since` on. */
  function Own(log: seq<Published>, since: nat, p: nat): seq<Message> {
    if |log| <= since then []
    else Own(log[..|log| - 1], since, p) + if log[|log| - 1].property == p then [log[|log| - 1].message] else []
  }

  /** A stream without its resyncs. */
  function Changes(stream: seq<Message>): seq<Message> {
    if stream == [] then []
    else Changes(stream[..|stream| - 1]) + if stream[|stream| - 1] == Resync then [] else [stream[|stream| - 1]]
  }

  /** xs is ys with some elements left out. */
  predicate Subsequence(xs: seq<Message>, ys: seq<Message>) {
    || xs == []
    || (ys != [] && Subsequence(xs, ys[..|ys| - 1]))
    || (ys != [] && xs[|xs| - 1] == ys[|ys| - 1] && Subsequence(xs[..|xs| - 1], ys[..|ys| - 1]))
  }

  lemma SubsequenceGrows(xs: seq<Message>, ys: seq<Message>, m: Message)
    requires Subsequence(xs, ys)
    ensures Subsequence(xs, ys + [m]) && Subsequence(xs + [m], ys + [m])
  {
  }

  /** A subsequence that leaves nothing out is the whole. */
  lemma {:induction false} FullSubsequence(xs: seq<Message>, ys: seq<Message>)
    requires Subsequence(xs, ys)
    ensures |xs| <= |ys| && (|xs| == |ys| ==> xs == ys)
  {
    if xs == [] {
    } else {
      if Subsequence(xs, ys[..|ys| - 1]) {
        FullSubsequence(xs, ys[..|ys| - 1]);
      } else {
        FullSubsequence(xs[..|xs| - 1], ys[..|ys| - 1]);
        assert xs == xs[..|xs| - 1] + [xs[|xs| - 1]] && ys == ys[..|ys| - 1] + [ys[|ys| - 1]];
      }
    }
  }

  // ---- the invariant ----

  /** The events that a fan-out in progress has already decided for c. */
  function Decided(s: State, c: nat): seq<Published>
    requires s.job.FanOut? ==> s.log != []
  {
    if s.job.FanOut? && c in s.job.todo && s.job.full != Some(c) then s.log[..|s.log| - 1] else s.log
  }

  /** What does not depend on the history: the client map lists the open channels that are not being closed. */
  predicate Linked(s: State, c: nat)
    requires c in s.channels
  {
    var ch := s.channels[c];
    && |ch.buffer| <= BUFFER && ch.since <= |s.log|
    && (c in s.clients <==> ch.phase == Streaming || ch.phase == Leaving)
    && (c in s.clients ==> s.clients[c] == ch.property)
    && (s.job.FanOut? && c in s.job.todo ==> ch.since < |s.log|)
  }

  /** A stream holds its due in order, and while connected it lacks only what it missed. */
  predicate Fair(ch: Channel, decided: seq<Published>, connected: bool) {
    var changes, due := Changes(ch.Stream()), Own(decided, ch.since, ch.property);
    && Subsequence(changes, due)
    && (connected ==> |changes| + ch.missed == |due|)
  }

  predicate JobValid(s: State) {
    match s.job
    case Idle => true
    case Broadcast(todo) => todo <= s.clients.Keys
    case FanOut(p, m, todo, full) =>
      && todo <= s.clients.Keys && m != Resync
      && s.log != [] && s.log[|s.log| - 1] == Published(p, m)
      && (full.Some? ==> full.value in todo && s.clients[full.value] == p)
  }

  predicate PendingValid(s: State) {
    forall k :: 0 <= k < |s.pending| ==> s.pending[k].message != Resync
  }

  predicate Valid(s: State) {
    && |s.clients| <= MAX_CLIENTS
    && s.clients.Keys <= s.channels.Keys
    && JobValid(s) && PendingValid(s)
    && forall c :: c in s.channels ==> Linked(s, c)
  }

  predicate AllFair(s: State)
    requires s.job.FanOut? ==> s.log != []
  {
    forall c :: c in s.channels ==> Fair(s.channels[c], Decided(s, c), c in s.clients)
  }

  lemma SendKeepsStream(ch: Channel, m: Message)
    requires |ch.buffer| <= BUFFER
    ensures |ch.Send(m).buffer| <= BUFFER
    ensures ch.Send(Resync) == ch.(buffer := ch.Send(Resync).buffer)
    ensures Changes(ch.Send(Resync).Stream()) == Changes(ch.Stream())
    ensures m != Resync && |ch.buffer| < BUFFER ==> Changes(ch.Send(m).Stream()) == Changes(ch.Stream()) + [m]
  {
    var stream := ch.Stream();
    assert |ch.buffer| < BUFFER ==>
        ch.Send(m).Stream() == stream + [m] && ch.Send(Resync).Stream() == stream + [Resync];
    assert (stream + [m])[..|stream|] == stream && (stream + [Resync])[..|stream|] == stream;
  }

  lemma OwnSnoc(log: seq<Published>, x: Published, since: nat, p: nat)
    requires since <= |log|
    ensures Own(log + [x], since, p) == Own(log, since, p) + if x.property == p then [x.message] else []
  {
  }

  lemma StepKeepsSize(s: State, e: Event)
    requires |s.clients| <= MAX_CLIENTS && s.clients.Keys <= s.channels.Keys && Enabled(s, e)
    ensures |Next(s, e).clients| <= MAX_CLIENTS && Next(s, e).clients.Keys <= Next(s, e).channels.Keys
  {
  }

  lemma StepKeepsJob(s: State, e: Event)
    requires JobValid(s) && PendingValid(s) && Enabled(s, e)
    ensures JobValid(Next(s, e)) && PendingValid(Next(s, e))
  {
  }

  lemma HubStepKeepsLink(s: State, e: Event, c: nat)
    requires JobValid(s) && Enabled(s, e) && c in s.channels && Linked(s, c)
    requires !(e.Subscribe? || e.Receive? || e.Leave? || e.Remove? || e.Close?)
    ensures c in Next(s, e).channels && Linked(Next(s, e), c)
  {
  }

  lemma ClientStepKeepsLink(s: State, e: Event, c: nat)
    requires JobValid(s) && Enabled(s, e) && s.clients.Keys <= s.channels.Keys
    requires c in Next(s, e).channels && (c in s.channels ==> Linked(s, c))
    requires e.Subscribe? || e.Receive? || e.Leave? || e.Remove? || e.Close?
    ensures Linked(Next(s, e), c)
  {
  }

  lemma StepKeepsValid(s: State, e: Event)
    requires Valid(s) && Enabled(s, e)
    ensures Valid(Next(s, e))
  {
    StepKeepsSize(s, e);
    StepKeepsJob(s, e);
    forall c | c in Next(s, e).channels ensures Linked(Next(s, e), c) {
      assert c in s.channels ==> Linked(s, c);
      if e.Subscribe? || e.Receive? || e.Leave? || e.Remove? || e.Close? {
        ClientStepKeepsLink(s, e, c);
      } else {
        HubStepKeepsLink(s, e, c);
      }
    }
  }

  lemma DueGrows(ch: Channel, log: seq<Published>, x: Published, connected: bool)
    requires Fair(ch, log, connected) && ch.since <= |log|
    ensures Fair(ch, log + [x], connected && x.property != ch.property)
    ensures x.property == ch.property ==> Fair(ch.(missed := ch.missed + 1), log + [x], connected)
  {
    OwnSnoc(log, x, ch.since, ch.property);
    SubsequenceGrows(Changes(ch.Stream()), Own(log, ch.since, ch.property), x.message);
    assert Own(log, ch.since, ch.property) + [] == Own(log, ch.since, ch.property);
    assert ch.(missed := ch.missed + 1).Stream() == ch.Stream();
  }

  lemma SendIsFair(ch: Channel, log: seq<Published>, x: Published, connected: bool)
    requires Fair(ch, log, connected) && ch.since <= |log| && |ch.buffer| < BUFFER
    requires x.property == ch.property && x.message != Resync
    ensures Fair(ch.Send(x.message), log + [x], connected)
  {
    OwnSnoc(log, x, ch.since, ch.property);
    SendKeepsStream(ch, x.message);
    SubsequenceGrows(Changes(ch.Stream()), Own(log, ch.since, ch.property), x.message);
  }

  lemma ResyncIsFair(ch: Channel, log: seq<Published>, connected: bool)
    requires Fair(ch, log, connected) && |ch.buffer| <= BUFFER
    ensures Fair(ch.Send(Resync), log, connected)
  {
    SendKeepsStream(ch, Resync);
  }

  lemma ReceiveIsFair(ch: Channel, log: seq<Published>, connected: bool)
    requires Fair(ch, log, connected) && ch.buffer != []
    ensures Fair(ch.(received := ch.received + [ch.buffer[0]], buffer := ch.buffer[1..]), log, connected)
  {
    assert ch.received + [ch.buffer[0]] + ch.buffer[1..] == ch.Stream();
  }

  lemma PhaseIsFair(ch: Channel, phase: Phase, log: seq<Published>, connected: bool)
    requires Fair(ch, log, connected)
    ensures Fair(ch.(phase := phase), log, connected) && Fair(ch.(phase := phase), log, false)
  {
  }

  lemma NewIsFair(p: nat, log: seq<Published>)
    ensures Fair(Channel(p, Streaming, [], [], |log|, 0), log, true)
  {
  }

  /** A fan-out is fair to the client it visits. */
  lemma OfferIsFair(s: State, c: nat)
    requires Valid(s) && Enabled(s, Offer(c)) && Fair(s.channels[c], Decided(s, c), true)
    ensures var n := OfferTo(s, c); Fair(n.channels[c], Decided(n, c), true)
  {
    var ch, n := s.channels[c], OfferTo(s, c);
    assert Linked(s, c);
    var before, x := s.log[..|s.log| - 1], s.log[|s.log| - 1];
    assert s.log == before + [x] && Decided(s, c) == before && Decided(n, c) == s.log;
    if x.property == ch.property && |ch.buffer| < BUFFER {
      SendIsFair(ch, before, x, true);
    } else {
      DueGrows(ch, before, x, true);
    }
  }

  lemma PublishIsFair(s: State, e: Event, c: nat)
    requires Valid(s) && e.Publish? && Enabled(s, e) && c in s.channels && Fair(s.channels[c], s.log, c in s.clients)
    ensures var n := Next(s, e); n.job.FanOut? && n.log != [] && Fair(n.channels[c], Decided(n, c), c in n.clients)
  {
    var n := Next(s, e);
    assert Linked(s, c);
    if c in s.clients {
      assert Decided(n, c) == s.log;
    } else {
      DueGrows(s.channels[c], s.log, n.log[|s.log|], false);
    }
  }

  /** A step changes neither the channel nor the events decided for it, unless it is the one the step names. */
  ghost predicate Keeps(s: State, n: State, c: nat)
    requires c in s.channels && JobValid(s)
  {
    && c in n.channels && n.channels[c] == s.channels[c] && (c in n.clients <==> c in s.clients)
    && (n.job.FanOut? ==> n.log != []) && Decided(n, c) == Decided(s, c)
  }

  lemma HubKeepsOthers(s: State, e: Event, c: nat)
    requires Valid(s) && Enabled(s, e) && c in s.channels
    requires e.Notify? || e.BeginResync? || e.Unlock? || ((e.Offer? || e.SignalFull? || e.Nudge?) && e.c != c)
    ensures Keeps(s, Next(s, e), c)
  {
    var n := Next(s, e);
    assert n.clients == s.clients && n.log == s.log;
  }

  lemma ClientKeepsOthers(s: State, e: Event, c: nat)
    requires Valid(s) && Enabled(s, e) && c in s.channels
    requires (e.Subscribe? || e.Receive? || e.Leave? || e.Remove? || e.Close?) && e.c != c
    ensures Keeps(s, Next(s, e), c)
  {
    var n := Next(s, e);
    assert n.job == s.job && n.log == s.log && n.channels[c] == s.channels[c];
  }

  /** A subscriber's own steps are fair to it. */
  lemma OwnStepIsFair(s: State, e: Event, c: nat)
    requires Valid(s) && Enabled(s, e) && c in s.channels && Fair(s.channels[c], Decided(s, c), c in s.clients)
    requires e == Receive(c) || e == Leave(c) || e == Remove(c) || e == Close(c)
    ensures var n := Next(s, e);
            c in n.channels && (n.job.FanOut? ==> n.log != []) && Fair(n.channels[c], Decided(n, c), c in n.clients)
  {
    var ch, decided, connected := s.channels[c], Decided(s, c), c in s.clients;
    assert Decided(Next(s, e), c) == decided;
    if e.Receive? {
      ReceiveIsFair(ch, decided, connected);
    } else {
      PhaseIsFair(ch, Next(s, e).channels[c].phase, decided, connected);
    }
  }

  lemma SignalIsFair(s: State, e: Event, c: nat)
    requires Valid(s) && Enabled(s, e) && c in s.channels && Fair(s.channels[c], Decided(s, c), c in s.clients)
    requires e == SignalFull(c) || e == Nudge(c)
    ensures var n := Next(s, e);
            c in n.channels && (n.job.FanOut? ==> n.log != []) && Fair(n.channels[c], Decided(n, c), c in n.clients)
  {
    assert Linked(s, c);
    assert Decided(Next(s, e), c) == Decided(s, c);
    ResyncIsFair(s.channels[c], Decided(s, c), c in s.clients);
  }

  lemma StepIsFairTo(s: State, e: Event, c: nat)
    requires Valid(s) && Enabled(s, e) && Valid(Next(s, e)) && c in Next(s, e).channels
    requires c in s.channels ==> Fair(s.channels[c], Decided(s, c), c in s.clients)
    ensures var n := Next(s, e); Fair(n.channels[c], Decided(n, c), c in n.clients)
  {
    if e.Publish? {
      PublishIsFair(s, e, c);
    } else if c in s.channels && (e.Notify? || e.BeginResync? || e.Unlock? || e.c != c) {
      if e.Subscribe? || e.Receive? || e.Leave? || e.Remove? || e.Close? {
        ClientKeepsOthers(s, e, c);
      } else {
        HubKeepsOthers(s, e, c);
      }
    } else if e.Subscribe? {
      NewIsFair(e.property, s.log);
    } else if e.Offer? {
      OfferIsFair(s, c);
    } else if e.SignalFull? || e.Nudge? {
      SignalIsFair(s, e, c);
    } else {
      OwnStepIsFair(s, e, c);
    }
  }

  // ---- whole runs ----

  predicate IsRun(trace: seq<State>, es: seq<Event>) {
    && |trace| == |es| + 1 && trace[0] == State(map[], map[], Idle, [], [], [])
    && forall j :: 0 <= j < |es| ==> Enabled(trace[j], es[j]) && trace[j + 1] == Next(trace[j], es[j])
  }

  lemma {:induction false} RunValid(trace: seq<State>, es: seq<Event>, n: nat)
    requires IsRun(trace, es) && n <= |es|
    ensures Valid(trace[n]) && AllFair(trace[n])
  {
    if n == 0 {
    } else {
      RunValid(trace, es, n - 1);
      StepKeepsValid(trace[n - 1], es[n - 1]);
      forall c | c in trace[n].channels ensures Fair(trace[n].channels[c], Decided(trace[n], c),
                                                     c in trace[n].clients) {
        StepIsFairTo(trace[n - 1], es[n - 1], c);
      }
    }
  }

  /** The sends on channels: a closed channel would make them panic. */
  predicate SendsTo(e: Event, c: nat) {
    e == Offer(c) || e == SignalFull(c) || e == Nudge(c)
  }

  /** In every run a channel in the client map is open, so no send meets a closed one; the two limits hold. */
  lemma NoSendOnClosed(trace: seq<State>, es: seq<Event>, n: nat, c: nat)
    requires IsRun(trace, es) && n <= |es|
    ensures |trace[n].clients| <= 1000
    ensures c in trace[n].clients ==> c in trace[n].channels && trace[n].channels[c].phase != Closed
    ensures c in trace[n].channels ==> |trace[n].channels[c].buffer| <= 64
    ensures n < |es| && SendsTo(es[n], c) ==> c in trace[n].channels && trace[n].channels[c].phase != Closed
  {
    RunValid(trace, es, n);
    assert c in trace[n].channels ==> Linked(trace[n], c);
  }

  /**
    * Whatever the interleaving, what a client has received is, apart from resyncs, an order-preserving
    * subsequence of the events of its own property published since it subscribed.
    */
  lemma ReceivedInOrder(trace: seq<State>, es: seq<Event>, n: nat, c: nat)
    requires IsRun(trace, es) && n <= |es| && c in trace[n].channels
    ensures var ch := trace[n].channels[c];
            Subsequence(Changes(ch.received), Own(trace[n].log, ch.since, ch.property))
  {
    RunValid(trace, es, n);
    var s, ch := trace[n], trace[n].channels[c];
    var decided := Decided(s, c);
    assert Linked(s, c) && Fair(ch, decided, c in s.clients);
    if decided != s.log {
      assert s.log == decided + [s.log[|s.log| - 1]];
      DueGrows(ch, decided, s.log[|s.log| - 1], c in s.clients);
    }
    assert Fair(ch, s.log, false);
    ChangesPrefix(ch.received, ch.buffer);
    SubsequencePrefix(Changes(ch.received), Changes(ch.Stream()), Own(s.log, ch.since, ch.property));
  }

  lemma {:induction false} ChangesPrefix(xs: seq<Message>, ys: seq<Message>)
    ensures Changes(xs) <= Changes(xs + ys)
  {
    if ys == [] {
      assert xs + ys == xs;
    } else {
      ChangesPrefix(xs, ys[..|ys| - 1]);
      assert (xs + ys)[..|xs + ys| - 1] == xs + ys[..|ys| - 1];
    }
  }

  lemma {:induction false} SubsequencePrefix(xs: seq<Message>, ys: seq<Message>, zs: seq<Message>)
    requires xs <= ys && Subsequence(ys, zs)
    ensures Subsequence(xs, zs)
    decreases |zs|
  {
    if xs == [] {
    } else {
      var front := zs[..|zs| - 1];
      if Subsequence(ys, front) {
        SubsequencePrefix(xs, ys, front);
      } else if |xs| < |ys| {
        SubsequencePrefix(xs, ys[..|ys| - 1], front);
      } else {
        assert xs == ys;
      }
    }
  }

  /**
    * Nothing is lost but to a full buffer: when no fan-out is under way, a connected client's stream holds as
    * many changes as its property has published since it subscribed, less those that found the buffer full; a
    * client that never let it fill has all of them, in order, once.
    */
  lemma OnlyOverflowLoses(trace: seq<State>, es: seq<Event>, n: nat, c: nat)
    requires IsRun(trace, es) && n <= |es| && c in trace[n].clients && trace[n].job.Idle?
    ensures c in trace[n].channels
    ensures var ch := trace[n].channels[c];
            var due := Own(trace[n].log, ch.since, ch.property);
            && |Changes(ch.Stream())| + ch.missed == |due|
            && (ch.missed == 0 <==> Changes(ch.Stream()) == due)
  {
    RunValid(trace, es, n);
    var ch := trace[n].channels[c];
    assert Fair(ch, trace[n].log, true);
    FullSubsequence(Changes(ch.Stream()), Own(trace[n].log, ch.since, ch.property));
  }

  // ---- the resync that is meant to cover an overflow ----

  predicate ReceivesBetween(es: seq<Event>, a: nat, b: nat, c: nat)
    requires b <= |es|
  {
    exists m :: a < m < b && es[m] == Receive(c)
  }

  predicate StandsAt(s: State, c: nat) {
    s.job.FanOut? && s.job.full == Some(c) && c in s.channels && |s.channels[c].buffer| <= BUFFER
  }

  /** While the fan-out stands at a full client, its buffer changes only when the client receives. */
  lemma StandingStep(s: State, e: Event, c: nat)
    requires Enabled(s, e) && StandsAt(s, c) && e != SignalFull(c)
    ensures var n := Next(s, e);
            StandsAt(n, c) && (|n.channels[c].buffer| < BUFFER <==> |s.channels[c].buffer| < BUFFER || e == Receive(c))
  {
  }

  lemma {:induction false} FullUntilReceive(trace: seq<State>, es: seq<Event>, a: nat, b: nat, c: nat)
    requires IsRun(trace, es) && a < b <= |es|
    requires StandsAt(trace[a + 1], c) && |trace[a + 1].channels[c].buffer| == BUFFER
    requires forall m :: a < m < b ==> es[m] != SignalFull(c)
    ensures StandsAt(trace[b], c)
    ensures |trace[b].channels[c].buffer| < BUFFER <==> ReceivesBetween(es, a, b, c)
  {
    if b == a + 1 {
    } else {
      FullUntilReceive(trace, es, a, b - 1, c);
      StandingStep(trace[b - 1], es[b - 1], c);
      assert trace[b] == Next(trace[b - 1], es[b - 1]);
    }
  }

  /** An offer that leaves the fan-out standing at the client found its buffer full. */
  lemma FullOnOverflow(s: State, c: nat)
    requires Valid(s) && Enabled(s, Offer(c)) && Next(s, Offer(c)).job.full == Some(c)
    ensures StandsAt(Next(s, Offer(c)), c) && |Next(s, Offer(c)).channels[c].buffer| == BUFFER
  {
  }

  /**
    * The resync sent in place of an event that found the buffer full goes out exactly when the client received
    * something between the two attempts; otherwise the event is lost without a signal.
    */
  lemma OverflowIsSignalledIff(trace: seq<State>, es: seq<Event>, a: nat, b: nat, c: nat)
    requires IsRun(trace, es) && a < b < |es| && es[a] == Offer(c) && es[b] == SignalFull(c)
    requires trace[a + 1].job.FanOut? && trace[a + 1].job.full == Some(c)
    requires forall m :: a < m < b ==> es[m] != SignalFull(c)
    ensures c in trace[b].channels && c in trace[b + 1].channels
    ensures ReceivesBetween(es, a, b, c) ==>
              trace[b + 1].channels[c].Stream() == trace[b].channels[c].Stream() + [Resync]
    ensures !ReceivesBetween(es, a, b, c) ==> trace[b + 1].channels[c].Stream() == trace[b].channels[c].Stream()
  {
    RunValid(trace, es, a);
    FullOnOverflow(trace[a], c);
    assert trace[a + 1] == Next(trace[a], es[a]);
    FullUntilReceive(trace, es, a, b, c);
    assert trace[b + 1] == Next(trace[b], es[b]);
  }

  // ---- a silent loss at a real input ----

  lemma Extend(trace: seq<State>, es: seq<Event>, e: Event, s: State) returns (trace': seq<State>, es': seq<Event>)
    requires IsRun(trace, es) && Enabled(trace[|es|], e) && Next(trace[|es|], e) == s
    ensures trace' == trace + [s] && es' == es + [e] && IsRun(trace', es')
  {
    trace', es' := trace + [s], es + [e];
  }

  const CHANGE := Change(OtherChange, 0)

  /** One client that has not read any of the n events published so far. */
  function Lazy(n: nat): State {
    State(map[0 := 0], map[0 := Channel(0, Streaming, seq(n, _ => CHANGE), [], 0, 0)], Idle,
          seq(n, _ => Published(0, CHANGE)), [], seq(n, _ => Published(0, CHANGE)))
  }

  /** One more event has been dispatched. */
  function Told(n: nat): State {
    Lazy(n).(pending := [Published(0, CHANGE)], notified := Lazy(n + 1).notified)
  }

  /** Its fan-out stands at the client. */
  function Visiting(n: nat): State {
    Lazy(n).(job := FanOut(0, CHANGE, {0}, None), log := Lazy(n + 1).log, notified := Lazy(n + 1).notified)
  }

  lemma PublishToLazy(n: nat)
    ensures Next(Lazy(n), Notify(0, OtherTable, 0)) == Told(n)
    ensures Enabled(Told(n), Publish(0)) && Next(Told(n), Publish(0)) == Visiting(n)
  {
    assert map[0 := 0].Keys == {0};
    assert Lazy(n).log + [Published(0, CHANGE)] == Lazy(n + 1).log;
    assert [Published(0, CHANGE)][..0] + [Published(0, CHANGE)][1..] == [];
  }

  lemma OfferToLazy(n: nat)
    requires n < BUFFER
    ensures Enabled(Visiting(n), Offer(0))
    ensures Next(Visiting(n), Offer(0)) == Lazy(n + 1).(job := FanOut(0, CHANGE, {}, None))
  {
    assert seq(n, _ => CHANGE) + [CHANGE] == seq(n + 1, _ => CHANGE);
    assert {0} - {0} == {};
  }

  lemma Visit(trace: seq<State>, es: seq<Event>, n: nat) returns (trace': seq<State>, es': seq<Event>)
    requires IsRun(trace, es) && trace[|es|] == Lazy(n)
    ensures IsRun(trace', es') && trace'[|es'|] == Visiting(n)
  {
    PublishToLazy(n);
    trace', es' := Extend(trace, es, Notify(0, OtherTable, 0), Told(n));
    trace', es' := Extend(trace', es', Publish(0), Visiting(n));
  }

  /** Up to 64 events pile up in the buffer of a client that does not read. */
  lemma {:induction false} PilesUp(n: nat) returns (trace: seq<State>, es: seq<Event>)
    requires n <= BUFFER
    ensures IsRun(trace, es) && trace[|es|] == Lazy(n)
  {
    if n == 0 {
      var none := State(map[], map[], Idle, [], [], []);
      assert seq(0, _ => CHANGE) == [] && seq(0, _ => Published(0, CHANGE)) == [];
      trace, es := Extend([none], [], Subscribe(0, 0), Lazy(0));
    } else {
      trace, es := PilesUp(n - 1);
      trace, es := Visit(trace, es, n - 1);
      OfferToLazy(n - 1);
      trace, es := Extend(trace, es, Offer(0), Lazy(n).(job := FanOut(0, CHANGE, {}, None)));
      trace, es := Extend(trace, es, Unlock, Lazy(n));
    }
  }

  /**
    * The 65th event finds the buffer full and so does the resync meant to stand for it: the client has missed an
    * event, and nothing in its stream says so.
    */
  lemma SilentLoss() returns (trace: seq<State>, es: seq<Event>)
    ensures IsRun(trace, es) && trace[|es|].clients == map[0 := 0] && 0 in trace[|es|].channels
    ensures trace[|es|].channels[0].missed == 1 && Resync !in trace[|es|].channels[0].Stream()
  {
    trace, es := PilesUp(BUFFER);
    trace, es := Visit(trace, es, BUFFER);
    var full := Visiting(BUFFER);
    full := full.(job := full.job.(full := Some(0)), channels := map[0 := full.channels[0].(missed := 1)]);
    trace, es := Extend(trace, es, Offer(0), full);
    assert {0} - {0} == {} && map[0 := full.channels[0]] == full.channels;
    trace, es := Extend(trace, es, SignalFull(0), full.(job := FanOut(0, CHANGE, {}, None)));
  }

  // ---- dispatch order and fan-out order ----

  /** Each notification is handled by a goroutine of its own: none is lost or doubled on the way to the mutex. */
  lemma {:induction false} EachDispatchedOnce(trace: seq<State>, es: seq<Event>, n: nat)
    requires IsRun(trace, es) && n <= |es|
    ensures multiset(trace[n].log) + multiset(trace[n].pending) == multiset(trace[n].notified)
  {
    if n == 0 {
    } else {
      EachDispatchedOnce(trace, es, n - 1);
      var s, e := trace[n - 1], es[n - 1];
      assert trace[n] == Next(s, e);
      if e.Publish? {
        assert s.pending == s.pending[..e.j] + [s.pending[e.j]] + s.pending[e.j + 1..];
      }
    }
  }

  const FIRST := Published(0, Change(ReservationChanged, 0))
  const SECOND := Published(0, Change(ReservationChanged, 1))

  /** One subscriber, and two notifications dispatched one after the other. */
  lemma TwoDispatched() returns (trace: seq<State>, es: seq<Event>)
    ensures IsRun(trace, es)
    ensures trace[|es|] == State(map[0 := 0], map[0 := Channel(0, Streaming, [], [], 0, 0)], Idle, [],
                                 [FIRST, SECOND], [FIRST, SECOND])
  {
    var s := State(map[0 := 0], map[0 := Channel(0, Streaming, [], [], 0, 0)], Idle, [], [], []);
    trace, es := Extend([State(map[], map[], Idle, [], [], [])], [], Subscribe(0, 0), s);
    trace, es := Extend(trace, es, Notify(0, Reservations, 0), s.(pending := [FIRST], notified := [FIRST]));
    trace, es := Extend(trace, es, Notify(0, Reservations, 1),
                        s.(pending := [FIRST, SECOND], notified := [FIRST, SECOND]));
  }

  /** One pending notification gets the mutex and is sent to the only client. */
  lemma SendPending(trace: seq<State>, es: seq<Event>, j: nat, ch: Channel, ch': Channel)
    returns (trace': seq<State>, es': seq<Event>)
    requires IsRun(trace, es) && j < |trace[|es|].pending|
    requires trace[|es|].job.Idle? && trace[|es|].clients == map[0 := 0]
    requires trace[|es|].channels == map[0 := ch] && |ch.buffer| < BUFFER && trace[|es|].pending[j].property == 0
    requires ch' == ch.(buffer := ch.buffer + [trace[|es|].pending[j].message])
    ensures IsRun(trace', es')
    ensures var s := trace[|es|];
            trace'[|es'|] == s.(channels := map[0 := ch'], log := s.log + [s.pending[j]],
            pending := s.pending[..j] + s.pending[j + 1..])
  {
    var s := trace[|es|];
    var x := s.pending[j];
    var s1 := s.(job := FanOut(0, x.message, {0}, None), log := s.log + [x],
    pending := s.pending[..j] + s.pending[j + 1..]);
    assert s.clients.Keys == {0} && {0} - {0} == {};
    trace', es' := Extend(trace, es, Publish(j), s1);
    var s2 := s1.(job := FanOut(0, x.message, {}, None), channels := map[0 := ch']);
    trace', es' := Extend(trace', es', Offer(0), s2);
    trace', es' := Extend(trace', es', Unlock, s2.(job := Idle));
  }

  /** The goroutine of the later notification can get the mutex first: the client then sees the two swapped. */
  lemma DeliveredSwapped() returns (trace: seq<State>, es: seq<Event>)
    ensures IsRun(trace, es) && trace[|es|].notified == [FIRST, SECOND] && 0 in trace[|es|].channels
    ensures trace[|es|].channels[0].Stream() == [SECOND.message, FIRST.message]
  {
    trace, es := TwoDispatched();
    var ch := Channel(0, Streaming, [], [], 0, 0);
    var ch1 := ch.(buffer := [SECOND.message]);
    trace, es := SendPending(trace, es, 1, ch, ch1);
    assert [FIRST, SECOND][..1] + [FIRST, SECOND][2..] == [FIRST];
    trace, es := SendPending(trace, es, 0, ch1, ch1.(buffer := [SECOND.message, FIRST.message]));
  }

  // ---- what single steps do ----

  /** A subscriber is admitted, with an empty channel and nothing due, exactly while there are fewer than 1000. */
  lemma AdmittedIff(s: State, c: nat, property: nat)
    requires Enabled(s, Subscribe(c, property))
    ensures var n := Next(s, Subscribe(c, property));
            && (|s.clients| >= 1000 ==> n == s)
            && (|s.clients| < 1000 ==>
                  && n.clients == s.clients[c := property] && c in n.channels
                  && n.channels[c] == Channel(property, Streaming, [], [], |s.log|, 0))
  {
  }

  /** A change of a reservation or of one of its items has one name; every other table has its own. */
  lemma NamesOfChanges()
    ensures EventName(Reservations) == EventName(ReservationItems) == ReservationChanged
    ensures EventName(RoomInventoryLedger) == AvailabilityChanged && EventName(BookedDailyRates) == RateChanged
    ensures EventName(OtherTable) == OtherChange
  {
  }

  /** A nudge appends a resync exactly when there is room, and touches no other channel. */
  lemma NudgeExactly(s: State, c: nat)
    requires Enabled(s, Nudge(c))
    ensures var n := Next(s, Nudge(c));
            && c in n.channels && n.channels.Keys == s.channels.Keys
            && n.channels[c].Stream() == s.channels[c].Stream() + (if |s.channels[c].buffer| < 64 then [Resync] else [])
            && forall o :: o in s.channels && o != c ==> n.channels[o] == s.channels[o]
  {
  }

  /** Until it is nudged, a client of the broadcast is still to be visited. */
  lemma {:induction false} BroadcastPending(trace: seq<State>, es: seq<Event>, a: nat, b: nat, c: nat)
    requires IsRun(trace, es) && a < b <= |es| && es[a] == BeginResync && c in trace[a].clients
    requires forall m :: a < m < b ==> es[m] != Nudge(c) && es[m] != Unlock
    ensures trace[b].job.Broadcast? && c in trace[b].job.todo
  {
    if b == a + 1 {
      assert trace[b] == Next(trace[a], es[a]);
    } else {
      BroadcastPending(trace, es, a, b - 1, c);
      assert trace[b] == Next(trace[b - 1], es[b - 1]);
    }
  }

  /** A resync broadcast ends only after every client that was connected when it began has been nudged. */
  lemma BroadcastReachesAll(trace: seq<State>, es: seq<Event>, a: nat, b: nat, c: nat)
    requires IsRun(trace, es) && a < b < |es| && es[a] == BeginResync && es[b] == Unlock && c in trace[a].clients
    requires forall m :: a < m < b ==> es[m] != Unlock
    ensures exists m :: a < m < b && es[m] == Nudge(c)
  {
    assert Enabled(trace[b], es[b]);
    if forall m :: a < m < b ==> es[m] != Nudge(c) {
      BroadcastPending(trace, es, a, b, c);
    }
  }

  // ---- nobody blocks the hub ----

  /** The steps of whoever holds the mutex. */
  predicate HubStep(e: Event) {
    e.Offer? || e.SignalFull? || e.Nudge? || e.Unlock?
  }

  /** Clients stay as they are but for what is sent to them. */
  predicate SameClients(s: State, n: State) {
    && n.clients == s.clients && n.channels.Keys == s.channels.Keys
    && forall c :: c in s.channels ==> n.channels[c].phase == s.channels[c].phase
  }

  /** How much the holder of the mutex still has to do. */
  function Work(job: Job): nat {
    match job
    case Idle => 0
    case FanOut(_, _, todo, full) => 1 + 2 * |todo| + if full.None? then 1 else 0
    case Broadcast(todo) => 1 + 2 * |todo|
  }

  /** Whoever holds the mutex always has a step to do, whatever the clients do or fail to do. */
  lemma HolderCanStep(s: State) returns (e: Event)
    requires Valid(s) && !s.job.Idle?
    ensures HubStep(e) && Enabled(s, e) && Work(Next(s, e).job) < Work(s.job)
  {
    if s.job.FanOut? && s.job.full.Some? {
      e := SignalFull(s.job.full.value);
      assert |s.job.todo - {s.job.full.value}| < |s.job.todo|;
    } else if s.job.todo == {} {
      e := Unlock;
    } else {
      var c :| c in s.job.todo;
      e := if s.job.FanOut? then Offer(c) else Nudge(c);
      assert |s.job.todo - {c}| < |s.job.todo|;
    }
  }

  lemma HubStepKeepsClients(s: State, e: Event)
    requires HubStep(e) && Enabled(s, e)
    ensures SameClients(s, Next(s, e))
  {
  }

  /** Sends do not block: from every state of a run the hub can finish its job and release the mutex. */
  lemma MutexIsReleased(trace: seq<State>, es: seq<Event>) returns (trace': seq<State>, es': seq<Event>)
    requires IsRun(trace, es)
    ensures IsRun(trace', es') && |es| <= |es'| && es'[..|es|] == es
    ensures forall j :: |es| <= j < |es'| ==> HubStep(es'[j])
    ensures trace'[|es'|].job.Idle? && SameClients(trace[|es|], trace'[|es'|])
    decreases Work(trace[|es|].job)
  {
    trace', es' := trace, es;
    if !trace[|es|].job.Idle? {
      var trace1, es1 := HolderSteps(trace, es);
      trace', es' := MutexIsReleased(trace1, es1);
      SameClientsTransitive(trace[|es|], trace1[|es1|], trace'[|es'|]);
      forall j | 0 <= j < |es1| ensures es'[j] == es1[j] {
        assert es'[..|es1|][j] == es'[j];
      }
    }
  }

  lemma HolderSteps(trace: seq<State>, es: seq<Event>) returns (trace': seq<State>, es': seq<Event>)
    requires IsRun(trace, es) && !trace[|es|].job.Idle?
    ensures IsRun(trace', es') && |es'| == |es| + 1 && es'[..|es|] == es && HubStep(es'[|es|])
    ensures SameClients(trace[|es|], trace'[|es'|]) && Work(trace'[|es'|].job) < Work(trace[|es|].job)
  {
    RunValid(trace, es, |es|);
    var e := HolderCanStep(trace[|es|]);
    HubStepKeepsClients(trace[|es|], e);
    trace', es' := Extend(trace, es, e, Next(trace[|es|], e));
  }

  lemma SameClientsTransitive(s: State, m: State, n: State)
    requires SameClients(s, m) && SameClients(m, n)
    ensures SameClients(s, n)
  {
  }

  /** A client can always leave: it is out of the map and its channel is closed, once the hub has finished its job. */
  lemma ClientsCanLeave(trace: seq<State>, es: seq<Event>, c: nat) returns (trace': seq<State>, es': seq<Event>)
    requires IsRun(trace, es) && c in trace[|es|].clients
    ensures IsRun(trace', es') && |es| <= |es'|
    ensures forall j :: |es| <= j < |es'| ==> HubStep(es'[j]) || es'[j] in {Leave(c), Remove(c), Close(c)}
    ensures trace'[|es'|].clients == trace[|es|].clients - {c}
    ensures c in trace'[|es'|].channels && trace'[|es'|].channels[c].phase == Closed
  {
    RunValid(trace, es, |es|);
    assert Linked(trace[|es|], c);
    var trace1, es1 := trace, es;
    if trace[|es|].channels[c].phase == Streaming {
      trace1, es1 := Extend(trace, es, Leave(c), Next(trace[|es|], Leave(c)));
    }
    var trace2, es2 := MutexIsReleased(trace1, es1);
    assert forall j :: |es| <= j < |es1| ==> es2[j] == es1[j];
    trace', es' := Depart(trace2, es2, c);
  }

  lemma Depart(trace: seq<State>, es: seq<Event>, c: nat) returns (trace': seq<State>, es': seq<Event>)
    requires IsRun(trace, es) && trace[|es|].job.Idle?
    requires c in trace[|es|].channels && trace[|es|].channels[c].phase == Leaving
    ensures IsRun(trace', es') && es' == es + [Remove(c), Close(c)]
    ensures trace'[|es'|].clients == trace[|es|].clients - {c}
    ensures c in trace'[|es'|].channels && trace'[|es'|].channels[c].phase == Closed
  {
    trace', es' := Extend(trace, es, Remove(c), Next(trace[|es|], Remove(c)));
    trace', es' := Extend(trace', es', Close(c), Next(trace'[|es'|], Close(c)));
  }

  /** A streaming client can read everything that was sent to it, in order. */
  lemma StreamIsReadable(trace: seq<State>, es: seq<Event>, c: nat) returns (trace': seq<State>, es': seq<Event>)
    requires IsRun(trace, es) && c in trace[|es|].channels && trace[|es|].channels[c].phase == Streaming
    ensures IsRun(trace', es') && |es'| == |es| + |trace[|es|].channels[c].buffer| && es'[..|es|] == es
    ensures forall j :: |es| <= j < |es'| ==> es'[j] == Receive(c)
    ensures c in trace'[|es'|].channels && trace'[|es'|].channels[c].received == trace[|es|].channels[c].Stream()
    decreases |trace[|es|].channels[c].buffer|
  {
    trace', es' := trace, es;
    var ch := trace[|es|].channels[c];
    if ch.buffer != [] {
      trace', es' := Extend(trace, es, Receive(c), Next(trace[|es|], Receive(c)));
      assert ch.received + [ch.buffer[0]] + ch.buffer[1..] == ch.Stream();
      trace', es' := StreamIsReadable(trace', es', c);
    } else {
      assert ch.Stream() == ch.received;
    }
  }
}
