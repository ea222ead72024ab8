/** Stored and live delivery together: connections on cluster workers register,
    query and stream, while events are stored, fanned out on their own worker,
    and relayed through the primary to the others. Steps of all of them
    interleave freely. */
module Delivery {
  import opened Wrappers
  import opened Hex
  import opened NostrEvents
  import opened TagIndex
  import opened EventStore
  import opened StoreHistory
  import opened StoreGuarantees
  import opened IndexAgreement
  import opened FilterQuery
  import opened QueryExactness

  // ---- states ----

  /** A client socket. Closing detaches its handlers for good. */
  datatype Session = Session(worker: nat, open: bool)

  /** A registered subscription; each registration has its own generation. */
  datatype Subscription = Subscription(generation: nat, filters: seq<Filter>)

  /** The stored query of one registration: not yet run, or streaming its
      remaining events. `seen` is what was visible when it ran, and `cut` says
      that a limit was reached. */
  datatype Phase = Waiting | Streaming(todo: set<Event>, seen: set<Event>, cut: bool)

  datatype Fetch = Fetch(socket: nat, filters: seq<Filter>, phase: Phase)

  type SubscriptionKey = (nat, string)

  datatype State = State(
    workers: nat,
    log: Log,
    sessions: map<nat, Session>,
    subscriptions: map<SubscriptionKey, Subscription>,
    fetches: map<nat, Fetch>,
    publishing: set<(nat, Event)>,            // stored, broadcast not yet emitted
    toPrimary: multiset<(nat, Event)>,        // origin worker, event
    toWorker: multiset<(nat, nat, Event)>,    // receiving worker, origin, event
    sent: set<(nat, Event)>,                  // generation, event put on its socket
    emitted: multiset<(nat, Event)>,          // broadcasts begun, by origin worker
    handled: multiset<(nat, nat, Event)>,     // local fan-outs: worker, origin, event
    lost: set<Event>)                         // broadcasts dropped

  function Start(workers: nat): State {
    State(workers, [], map[], map[], map[], {}, multiset{}, multiset{}, {}, multiset{}, multiset{}, {})
  }

  datatype Step =
    | Connect(socket: nat, worker: nat)
    | Disconnect(socket: nat)
    | Subscribe(socket: nat, id: string, filters: seq<Filter>, generation: nat)
    | Unsubscribe(socket: nat, id: string)
    | RunQuery(generation: nat, result: set<Event>, cut: bool)
    | Send(generation: nat, event: Event)
    | Publish(socket: nat, event: Event)
    | Relay(socket: nat, event: Event)
    | MarkDeleted(pubkey: string, ids: seq<string>)
    | Emit(socket: nat, event: Event)
    | Forward(origin: nat, event: Event)
    | Receive(receiver: nat, origin: nat, event: Event)

  // ---- what a query and a fan-out reach ----

  function VisibleEvents(t: Table): set<Event> {
    set r | r in t.rows && !r.deleted :: ToNostrEvent(r)
  }

  /** The queries of all filters are one statement. */
  ghost predicate SelectedBy(t: Table, filters: seq<Filter>, r: Row) {
    AllBindable(filters) && exists i :: 0 <= i < |filters| && Selects(QueryFor(filters[i]), r, t.tagRows)
  }

  /** The events that the stored query streams when no limit interferes. */
  ghost function Found(t: Table, filters: seq<Filter>): set<Event> {
    set r | r in t.rows && !r.deleted && SelectedBy(t, filters, r) :: ToNostrEvent(r)
  }

  predicate Hears(s: State, key: SubscriptionKey, worker: nat, e: Event) {
    && key in s.subscriptions && key.0 in s.sessions
    && s.sessions[key.0] == Session(worker, true)
    && MatchesAny(s.subscriptions[key].filters, e)
  }

  /** What one worker puts on its open sockets for a broadcast. */
  function FanOut(s: State, worker: nat, e: Event): set<(nat, Event)> {
    set key | key in s.subscriptions && Hears(s, key, worker, e) :: (s.subscriptions[key].generation, e)
  }

  function Others(s: State, origin: nat, e: Event): set<(nat, nat, Event)> {
    set v | 0 <= v < s.workers && v != origin :: (v, origin, e)
  }

  // ---- steps ----

  ghost predicate Enabled(s: State, step: Step) {
    match step
    case Connect(socket, worker) => socket !in s.sessions && worker < s.workers
    case Disconnect(socket) => socket in s.sessions
    case Subscribe(socket, _, filters, generation) =>
      socket in s.sessions && s.sessions[socket].open && generation !in s.fetches && ValidFilters(filters)
    case Unsubscribe(socket, _) => socket in s.sessions && s.sessions[socket].open
    case RunQuery(generation, result, cut) =>
      generation in s.fetches && s.fetches[generation].phase.Waiting?
      // no filters, or a refused statement, end the query before it begins
      && s.fetches[generation].filters != [] && AllBindable(s.fetches[generation].filters)
      && result <= Found(Run(s.log), s.fetches[generation].filters)
      && (!cut ==> result == Found(Run(s.log), s.fetches[generation].filters))
    case Send(generation, e) =>
      generation in s.fetches && s.fetches[generation].phase.Streaming? && e in s.fetches[generation].phase.todo
    // the insert of an EVENT goes on after its socket has closed
    case Publish(socket, e) => socket in s.sessions && !IsEphemeral(e.kind) && Legal(s.log + [Store(e)])
    // an ephemeral event has no effect once its socket has closed
    case Relay(socket, e) => socket in s.sessions && s.sessions[socket].open && IsEphemeral(e.kind)
    case MarkDeleted(_, _) => true
    case Emit(socket, e) => (socket, e) in s.publishing && socket in s.sessions
    case Forward(origin, e) => (origin, e) in s.toPrimary
    case Receive(receiver, origin, e) => (receiver, origin, e) in s.toWorker
  }

  function Streamed(s: State, generation: nat, e: Event): State
    requires generation in s.fetches && s.fetches[generation].phase.Streaming?
  {
    var fetch := s.fetches[generation];
    var rest := fetch.(phase := fetch.phase.(todo := fetch.phase.todo - {e}));
    var heard := fetch.socket in s.sessions && s.sessions[fetch.socket].open && MatchesAny(fetch.filters, e);
    s.(fetches := s.fetches[generation := rest], sent := s.sent + if heard then {(generation, e)} else {})
  }

  /** A broadcast begins: the worker fans it out to its own sockets and hands
      it to the primary. */
  function Begun(s: State, worker: nat, e: Event): State {
    s.(sent := s.sent + FanOut(s, worker, e),
       toPrimary := s.toPrimary + multiset{(worker, e)},
       emitted := s.emitted + multiset{(worker, e)},
       handled := s.handled + multiset{(worker, worker, e)})
  }

  function Emitted(s: State, socket: nat, e: Event): State
    requires socket in s.sessions
  {
    var rest := s.(publishing := s.publishing - {(socket, e)});
    if !s.sessions[socket].open then rest.(lost := s.lost + {e})
    else Begun(rest, s.sessions[socket].worker, e)
  }

  ghost function Do(s: State, step: Step): State
    requires Enabled(s, step)
  {
    match step
    case Connect(socket, worker) => s.(sessions := s.sessions[socket := Session(worker, true)])
    case Disconnect(socket) =>
      s.(sessions := s.sessions[socket := s.sessions[socket].(open := false)],
         subscriptions := map key | key in s.subscriptions && key.0 != socket :: s.subscriptions[key])
    case Subscribe(socket, id, filters, generation) =>
      s.(subscriptions := s.subscriptions[(socket, id) := Subscription(generation, filters)],
         fetches := s.fetches[generation := Fetch(socket, filters, Waiting)])
    case Unsubscribe(socket, id) => s.(subscriptions := s.subscriptions - {(socket, id)})
    case RunQuery(generation, result, cut) =>
      var phase := Streaming(result, VisibleEvents(Run(s.log)), cut);
      s.(fetches := s.fetches[generation := s.fetches[generation].(phase := phase)])
    case Send(generation, e) => Streamed(s, generation, e)
    case Publish(socket, e) =>
      s.(log := s.log + [Store(e)],
         publishing := s.publishing + if AfterStore(Run(s.log), e).1 > 0 then {(socket, e)} else {})
    case Relay(socket, e) => Begun(s, s.sessions[socket].worker, e)
    case MarkDeleted(pubkey, ids) => s.(log := s.log + [SoftDelete(pubkey, ids)])
    case Emit(socket, e) => Emitted(s, socket, e)
    case Forward(origin, e) =>
      s.(toPrimary := s.toPrimary - multiset{(origin, e)},
         toWorker := s.toWorker + multiset(Others(s, origin, e)))
    case Receive(receiver, origin, e) =>
      s.(toWorker := s.toWorker - multiset{(receiver, origin, e)},
         sent := s.sent + FanOut(s, receiver, e),
         handled := s.handled + multiset{(receiver, origin, e)})
  }

  /** The state after a sequence of steps, if each could be taken. */
  ghost function After(workers: nat, steps: seq<Step>): Option<State> {
    if steps == [] then Some(Start(workers))
    else
      match After(workers, steps[..|steps| - 1])
      case None => None
      case Some(s) => if Enabled(s, steps[|steps| - 1]) then Some(Do(s, steps[|steps| - 1])) else None
  }

  // ---- bookkeeping that every step keeps ----

  ghost predicate Sane(s: State) {
    && Legal(s.log) && Persistent(s.log)
    && (forall socket :: socket in s.sessions ==> s.sessions[socket].worker < s.workers)
    && (forall key :: key in s.subscriptions ==>
          && key.0 in s.sessions && s.sessions[key.0].open
          && s.subscriptions[key].generation in s.fetches
          && s.fetches[s.subscriptions[key].generation].socket == key.0
          && s.fetches[s.subscriptions[key].generation].filters == s.subscriptions[key].filters
          && ValidFilters(s.subscriptions[key].filters))
    && (forall g, e :: g in s.fetches && s.fetches[g].phase.Streaming? && e in s.fetches[g].phase.todo ==>
          e in s.fetches[g].phase.seen && FindsAny(s.fetches[g].filters, e))
    && (forall p, e :: (p, e) in s.publishing ==> !IsEphemeral(e.kind))
    && (forall e :: e in s.lost ==> !IsEphemeral(e.kind))
    && (forall g :: g in s.fetches ==> ValidFilters(s.fetches[g].filters))
    && (forall v, o, e :: (v, o, e) in s.toWorker ==> v < s.workers && v != o)
  }

  lemma LegalMark(log: Log, pubkey: string, ids: seq<string>)
    requires Legal(log)
    ensures Legal(log + [SoftDelete(pubkey, ids)])
  {
  }

  /** The stored query finds exactly the visible events that some filter
      finds. */
  lemma FoundWhenVisible(log: Log, filters: seq<Filter>, e: Event)
    requires Legal(log) && ValidFilters(filters) && e in VisibleEvents(Run(log))
    ensures e in Found(Run(log), filters) <==> FindsAny(filters, e)
  {
    var t := Run(log);
    forall i, k | 0 <= i < |t.rows| && ToNostrEvent(t.rows[i]) == e && 0 <= k < |filters|
      ensures Selects(QueryFor(filters[k]), t.rows[i], t.tagRows) <==> Finds(filters[k], e)
    {
      RowMeaning(log, i, filters[k]);
    }
    var i :| 0 <= i < |t.rows| && !t.rows[i].deleted && ToNostrEvent(t.rows[i]) == e;
    assert SelectedBy(t, filters, t.rows[i]) <==> FindsAny(filters, e);
  }

  lemma FoundIsVisible(log: Log, filters: seq<Filter>)
    requires Legal(log) && ValidFilters(filters)
    ensures forall e :: e in Found(Run(log), filters) ==> e in VisibleEvents(Run(log)) && FindsAny(filters, e)
  {
    forall e | e in Found(Run(log), filters) ensures e in VisibleEvents(Run(log)) && FindsAny(filters, e) {
      FoundWhenVisible(log, filters, e);
    }
  }

  lemma SubscribeSane(s: State, socket: nat, id: string, filters: seq<Filter>, generation: nat)
    requires Sane(s) && Enabled(s, Subscribe(socket, id, filters, generation))
    ensures Sane(Do(s, Subscribe(socket, id, filters, generation)))
  {
  }

  lemma DisconnectSane(s: State, socket: nat)
    requires Sane(s) && Enabled(s, Disconnect(socket))
    ensures Sane(Do(s, Disconnect(socket)))
  {
  }

  lemma QuerySane(s: State, generation: nat, result: set<Event>, cut: bool)
    requires Sane(s) && Enabled(s, RunQuery(generation, result, cut))
    ensures Sane(Do(s, RunQuery(generation, result, cut)))
  {
    FoundIsVisible(s.log, s.fetches[generation].filters);
  }

  lemma SendSane(s: State, generation: nat, e: Event)
    requires Sane(s) && Enabled(s, Send(generation, e))
    ensures Sane(Do(s, Send(generation, e)))
  {
  }

  lemma LogSane(s: State, step: Step)
    requires Sane(s) && Enabled(s, step) && (step.Publish? || step.MarkDeleted?)
    ensures Sane(Do(s, step))
  {
    if step.MarkDeleted? { LegalMark(s.log, step.pubkey, step.ids); }
  }

  lemma BeginSane(s: State, step: Step)
    requires Sane(s) && Enabled(s, step) && (step.Emit? || step.Relay?)
    ensures Sane(Do(s, step))
  {
  }

  /** Messages between workers touch nothing else. */
  lemma MessageSane(s: State, step: Step)
    requires Sane(s) && Enabled(s, step) && (step.Forward? || step.Receive?)
    ensures Sane(Do(s, step))
  {
  }

  lemma SaneStep(s: State, step: Step)
    requires Sane(s) && Enabled(s, step)
    ensures Sane(Do(s, step))
  {
    match step {
      case Subscribe(socket, id, filters, generation) => SubscribeSane(s, socket, id, filters, generation);
      case Disconnect(socket) => DisconnectSane(s, socket);
      case RunQuery(generation, result, cut) => QuerySane(s, generation, result, cut);
      case Send(generation, e) => SendSane(s, generation, e);
      case Publish(_, _) => LogSane(s, step);
      case MarkDeleted(_, _) => LogSane(s, step);
      case Emit(_, _) => BeginSane(s, step);
      case Relay(_, _) => BeginSane(s, step);
      case Forward(_, _) => MessageSane(s, step);
      case Receive(_, _, _) => MessageSane(s, step);
      case Connect(_, _) =>
      case Unsubscribe(_, _) =>
    }
  }

  // ---- each accepted event has one announcement, in one of three places ----

  ghost predicate Announced(s: State, e: Event) {
    (exists socket :: (socket, e) in s.publishing) || (exists w :: (w, e) in s.emitted) || e in s.lost
  }

  ghost predicate Held(log: Log, e: Event) {
    AtLeast(Run(log).rows, EventSlot(e), e.createdAt)
  }

  /** The slot of every announced event that is stored keeps a row at least as
      new. */
  ghost predicate AllHeld(s: State) {
    forall e: Event :: !IsEphemeral(e.kind) && Announced(s, e) ==> Held(s.log, e)
  }

  ghost predicate Placed(s: State, e: Event) {
    PlacedIn(s.publishing, s.emitted, s.lost, e) && forall socket :: (socket, e) in s.publishing ==> socket in s.sessions
  }

  ghost predicate PlacedIn(publishing: set<(nat, Event)>, emitted: multiset<(nat, Event)>, lost: set<Event>, e: Event) {
    && (forall socket, other :: (socket, e) in publishing && (other, e) in publishing ==> socket == other)
    && (forall socket :: (socket, e) in publishing ==> e !in lost)
    && (forall socket, w :: (socket, e) in publishing ==> (w, e) !in emitted)
    && (forall w :: (w, e) in emitted ==> e !in lost && emitted[(w, e)] == 1)
    && (forall w, v :: (w, e) in emitted && (v, e) in emitted ==> w == v)
  }

  ghost predicate AllPlaced(s: State) {
    forall e: Event :: !IsEphemeral(e.kind) ==> Placed(s, e)
  }

  lemma HeldNext(log: Log, statement: Statement, e: Event)
    requires Legal(log + [statement]) && Held(log, e)
    ensures Held(log + [statement], e)
  {
    assert (log + [statement])[..|log|] == log;
    SlotMovesForward(log, statement, EventSlot(e));
  }

  lemma FreshWhenAccepted(log: Log, e: Event)
    requires Legal(log) && Legal(log + [Store(e)]) && AfterStore(Run(log), e).1 > 0
    ensures !Held(log, e) && Held(log + [Store(e)], e)
  {
    var longer := log + [Store(e)];
    assert longer[..|log|] == log && longer[..|log| + 1] == longer;
    assert Accepted(longer, |log|);
    AcceptedIsHeld(longer, |log|);
  }

  lemma PublishHeld(s: State, socket: nat, e: Event)
    requires Sane(s) && AllHeld(s) && Enabled(s, Publish(socket, e))
    ensures AllHeld(Do(s, Publish(socket, e)))
  {
    var after := Do(s, Publish(socket, e));
    forall x: Event | !IsEphemeral(x.kind) && Announced(after, x) ensures Held(after.log, x) {
      if Announced(s, x) {
        HeldNext(s.log, Store(e), x);
      } else {
        FreshWhenAccepted(s.log, e);
      }
    }
  }

  lemma MarkHeld(s: State, pubkey: string, ids: seq<string>)
    requires Sane(s) && AllHeld(s)
    ensures AllHeld(Do(s, MarkDeleted(pubkey, ids)))
  {
    var after := Do(s, MarkDeleted(pubkey, ids));
    LegalMark(s.log, pubkey, ids);
    forall x: Event | !IsEphemeral(x.kind) && Announced(after, x) ensures Held(after.log, x) {
      assert Announced(s, x);
      HeldNext(s.log, SoftDelete(pubkey, ids), x);
    }
  }

  lemma EmitHeld(s: State, socket: nat, e: Event)
    requires AllHeld(s) && Enabled(s, Emit(socket, e))
    ensures AllHeld(Do(s, Emit(socket, e)))
  {
    var after := Do(s, Emit(socket, e));
    assert Announced(s, e);
    forall x | Announced(after, x) ensures Announced(s, x) {}
  }

  /** An ephemeral broadcast announces nothing that is stored. */
  lemma RelayHeld(s: State, socket: nat, e: Event)
    requires AllHeld(s) && Enabled(s, Relay(socket, e))
    ensures AllHeld(Do(s, Relay(socket, e)))
  {
    var after := Do(s, Relay(socket, e));
    forall x: Event | !IsEphemeral(x.kind) && Announced(after, x) ensures Announced(s, x) {}
  }

  lemma QuietStep(s: State, step: Step)
    requires Enabled(s, step) && !step.Publish? && !step.Relay? && !step.MarkDeleted? && !step.Emit?
    ensures var after := Do(s, step);
      after.log == s.log && after.publishing == s.publishing && after.emitted == s.emitted && after.lost == s.lost
  {
  }

  lemma HeldStep(s: State, step: Step)
    requires Sane(s) && AllHeld(s) && Enabled(s, step)
    ensures AllHeld(Do(s, step))
  {
    match step {
      case Publish(socket, e) => PublishHeld(s, socket, e);
      case MarkDeleted(pubkey, ids) => MarkHeld(s, pubkey, ids);
      case Emit(socket, e) => EmitHeld(s, socket, e);
      case Relay(socket, e) => RelayHeld(s, socket, e);
      case _ => QuietStep(s, step);
    }
  }

  lemma PublishPlaced(s: State, socket: nat, e: Event, x: Event)
    requires Sane(s) && AllHeld(s) && !IsEphemeral(x.kind) && Placed(s, x) && Enabled(s, Publish(socket, e))
    ensures Placed(Do(s, Publish(socket, e)), x)
  {
    if AfterStore(Run(s.log), e).1 > 0 {
      if x == e {
        FreshWhenAccepted(s.log, e);
        assert !Announced(s, e);
      }
      PlacedPublished(s.publishing, s.emitted, s.lost, socket, e, x);
    } else {
      assert s.publishing + {} == s.publishing;
    }
  }

  lemma PlacedPublished(publishing: set<(nat, Event)>, emitted: multiset<(nat, Event)>, lost: set<Event>,
                        socket: nat, e: Event, x: Event)
    requires PlacedIn(publishing, emitted, lost, x)
    requires x == e ==>
      (forall other :: (other, e) !in publishing) && (forall w :: (w, e) !in emitted) && e !in lost
    ensures PlacedIn(publishing + {(socket, e)}, emitted, lost, x)
  {
  }

  lemma PlacedEmitted(publishing: set<(nat, Event)>, emitted: multiset<(nat, Event)>, lost: set<Event>,
                      socket: nat, w: nat, e: Event, x: Event)
    requires PlacedIn(publishing, emitted, lost, x) && (socket, e) in publishing
    ensures PlacedIn(publishing - {(socket, e)}, emitted + multiset{(w, e)}, lost, x)
    ensures PlacedIn(publishing - {(socket, e)}, emitted, lost + {e}, x)
  {
    if x == e {
      assert (w, e) !in emitted;
      assert emitted[(w, e)] == 0;
    }
  }

  lemma EmitPlaced(s: State, socket: nat, e: Event, x: Event)
    requires Placed(s, x) && Enabled(s, Emit(socket, e))
    ensures Placed(Do(s, Emit(socket, e)), x)
  {
    PlacedEmitted(s.publishing, s.emitted, s.lost, socket, s.sessions[socket].worker, e, x);
  }

  lemma RelayPlaced(s: State, socket: nat, e: Event, x: Event)
    requires Placed(s, x) && !IsEphemeral(x.kind) && Enabled(s, Relay(socket, e))
    ensures Placed(Do(s, Relay(socket, e)), x)
  {
    assert x != e;
  }

  lemma PlacedStep(s: State, step: Step)
    requires Sane(s) && AllHeld(s) && AllPlaced(s) && Enabled(s, step)
    ensures AllPlaced(Do(s, step))
  {
    forall x: Event | !IsEphemeral(x.kind) ensures Placed(Do(s, step), x) {
      assert Placed(s, x);
      match step {
        case Publish(socket, e) => PublishPlaced(s, socket, e, x);
        case Emit(socket, e) => EmitPlaced(s, socket, e, x);
        case Relay(socket, e) => RelayPlaced(s, socket, e, x);
        case _ =>
      }
    }
  }

  // ---- every worker handles every broadcast once ----

  /** A broadcast begun on one worker has, for every worker, been handled
      there, or is on its way there; it is never on its way back. */
  ghost predicate BalancedAt(s: State, v: nat, o: nat, e: Event) {
    s.emitted[(o, e)] == s.handled[(v, o, e)] + s.toWorker[(v, o, e)] + if v == o then 0 else s.toPrimary[(o, e)]
  }

  ghost predicate Balanced(s: State) {
    forall v: nat, o: nat, e :: v < s.workers ==> BalancedAt(s, v, o, e)
  }

  lemma OthersCount(s: State, origin: nat, e: Event, v: nat, o: nat, x: Event)
    requires v < s.workers
    ensures multiset(Others(s, origin, e))[(v, o, x)] == if o == origin && x == e && v != o then 1 else 0
  {
    assert (v, o, x) in Others(s, origin, e) <==> o == origin && x == e && v != o;
  }

  lemma ForwardBalanced(s: State, origin: nat, event: Event, v: nat, o: nat, e: Event)
    requires v < s.workers && BalancedAt(s, v, o, e) && Enabled(s, Forward(origin, event))
    ensures BalancedAt(Do(s, Forward(origin, event)), v, o, e)
  {
    OthersCount(s, origin, event, v, o, e);
  }

  /** The origin fans a broadcast out itself while it hands it to the primary. */
  lemma EmitBalanced(s: State, socket: nat, event: Event, v: nat, o: nat, e: Event)
    requires v < s.workers && BalancedAt(s, v, o, e) && Enabled(s, Emit(socket, event))
    ensures BalancedAt(Do(s, Emit(socket, event)), v, o, e)
  {
  }

  lemma RelayBalanced(s: State, socket: nat, event: Event, v: nat, o: nat, e: Event)
    requires v < s.workers && BalancedAt(s, v, o, e) && Enabled(s, Relay(socket, event))
    ensures BalancedAt(Do(s, Relay(socket, event)), v, o, e)
  {
  }

  lemma ReceiveBalanced(s: State, receiver: nat, origin: nat, event: Event, v: nat, o: nat, e: Event)
    requires v < s.workers && BalancedAt(s, v, o, e) && Enabled(s, Receive(receiver, origin, event))
    ensures BalancedAt(Do(s, Receive(receiver, origin, event)), v, o, e)
  {
  }

  lemma BalancedStep(s: State, step: Step)
    requires Balanced(s) && Enabled(s, step)
    ensures Balanced(Do(s, step))
  {
    forall v: nat, o: nat, x | v < s.workers ensures BalancedAt(Do(s, step), v, o, x) {
      assert BalancedAt(s, v, o, x);
      match step {
        case Forward(origin, event) => ForwardBalanced(s, origin, event, v, o, x);
        case Emit(socket, event) => EmitBalanced(s, socket, event, v, o, x);
        case Relay(socket, event) => RelayBalanced(s, socket, event, v, o, x);
        case Receive(receiver, origin, event) => ReceiveBalanced(s, receiver, origin, event, v, o, x);
        case _ =>
      }
    }
  }

  // ---- nothing falls between the stored query and the broadcast ----

  predicate Cut(s: State, generation: nat) {
    generation in s.fetches && s.fetches[generation].phase.Streaming? && s.fetches[generation].phase.cut
  }

  /** An open subscription, not cut short by a limit, asks for the event, and
      does so in a way that its stored query can find. */
  ghost predicate Wanted(s: State, key: SubscriptionKey, e: Event) {
    && key in s.subscriptions
    && FindsAny(s.subscriptions[key].filters, e) && MatchesAny(s.subscriptions[key].filters, e)
    && !Cut(s, s.subscriptions[key].generation)
  }

  ghost predicate InQuery(s: State, generation: nat, e: Event) {
    generation in s.fetches
    && (s.fetches[generation].phase.Waiting? || e in s.fetches[generation].phase.todo)
  }

  /** The event has been put on the socket, its broadcast is on the way to the
      subscription's worker, or was dropped. */
  ghost predicate Coming(s: State, key: SubscriptionKey, e: Event)
    requires key in s.subscriptions && key.0 in s.sessions
  {
    var generation, worker := s.subscriptions[key].generation, s.sessions[key.0].worker;
    || (generation, e) in s.sent
    || (exists socket :: (socket, e) in s.publishing)
    || (exists origin :: origin != worker && (origin, e) in s.toPrimary)
    || (exists origin :: (worker, origin, e) in s.toWorker)
    || e in s.lost
  }

  /** A live copy is coming, or the query will still bring the event. */
  ghost predicate Covered(s: State, key: SubscriptionKey, e: Event)
    requires key in s.subscriptions && key.0 in s.sessions
  {
    Coming(s, key, e) || InQuery(s, s.subscriptions[key].generation, e)
  }

  /** A step that leaves an open subscription, which asks for the event, as it
      is. */
  ghost predicate Keeps(s: State, step: Step, key: SubscriptionKey, e: Event) {
    && Sane(s) && Enabled(s, step)
    && key in s.subscriptions && MatchesAny(s.subscriptions[key].filters, e)
    && key in Do(s, step).subscriptions && Do(s, step).subscriptions[key] == s.subscriptions[key]
  }

  /** A broadcast that begins reaches every subscription that asks for it. */
  lemma BegunComing(s: State, worker: nat, e: Event, key: SubscriptionKey)
    requires key in s.subscriptions && MatchesAny(s.subscriptions[key].filters, e)
    requires key.0 in s.sessions && s.sessions[key.0].open
    ensures Coming(Begun(s, worker, e), key, e)
  {
    if s.sessions[key.0].worker == worker {
      assert Hears(s, key, worker, e);
    } else {
      assert (worker, e) in Begun(s, worker, e).toPrimary;
    }
  }

  lemma EmitComing(s: State, socket: nat, event: Event, key: SubscriptionKey, e: Event)
    requires Keeps(s, Emit(socket, event), key, e) && Coming(s, key, e)
    ensures Coming(Do(s, Emit(socket, event)), key, e)
  {
    if e == event && s.sessions[socket].open {
      BegunComing(s.(publishing := s.publishing - {(socket, e)}), s.sessions[socket].worker, e, key);
    }
  }

  lemma ForwardComing(s: State, origin: nat, event: Event, key: SubscriptionKey, e: Event)
    requires Keeps(s, Forward(origin, event), key, e) && Coming(s, key, e)
    ensures Coming(Do(s, Forward(origin, event)), key, e)
  {
    var worker := s.sessions[key.0].worker;
    if e == event && worker != origin {
      assert (worker, origin, e) in Others(s, origin, event);
      assert (worker, origin, e) in Do(s, Forward(origin, event)).toWorker;
    }
  }

  lemma ReceiveComing(s: State, receiver: nat, origin: nat, event: Event, key: SubscriptionKey, e: Event)
    requires Keeps(s, Receive(receiver, origin, event), key, e) && Coming(s, key, e)
    ensures Coming(Do(s, Receive(receiver, origin, event)), key, e)
  {
    if e == event && s.sessions[key.0].worker == receiver {
      assert Hears(s, key, receiver, e);
    }
  }

  /** All other steps take nothing from the way. */
  lemma OtherComing(s: State, step: Step, key: SubscriptionKey, e: Event)
    requires Keeps(s, step, key, e) && Coming(s, key, e)
    requires !step.Emit? && !step.Forward? && !step.Receive?
    ensures Coming(Do(s, step), key, e)
  {
  }

  lemma ComingStep(s: State, step: Step, key: SubscriptionKey, e: Event)
    requires Keeps(s, step, key, e) && Coming(s, key, e)
    ensures Coming(Do(s, step), key, e)
  {
    match step {
      case Emit(socket, event) => EmitComing(s, socket, event, key, e);
      case Forward(origin, event) => ForwardComing(s, origin, event, key, e);
      case Receive(receiver, origin, event) => ReceiveComing(s, receiver, origin, event, key, e);
      case _ => OtherComing(s, step, key, e);
    }
  }

  ghost predicate NoGap(s: State) {
    forall key, e :: Wanted(s, key, e) && key.0 in s.sessions && e in VisibleEvents(Run(s.log)) ==> Covered(s, key, e)
  }

  lemma VisibleAfterStore(log: Log, e: Event, x: Event)
    requires Legal(log) && Legal(log + [Store(e)])
    requires x in VisibleEvents(Run(log + [Store(e)]))
    ensures x in VisibleEvents(Run(log)) || (x == e && AfterStore(Run(log), e).1 > 0)
  {
    assert (log + [Store(e)])[..|log|] == log;
    assert (log + [Store(e)])[|log|] == Store(e);
    RunReflects(log);
    StoreIsSlotStore(Run(log), log, e);
    EventRoundTrip(e, DedupOf(e), false);
    var after := Run(log + [Store(e)]).rows;
    var r :| r in after && !r.deleted && ToNostrEvent(r) == x;
  }

  lemma VisibleAfterMark(log: Log, pubkey: string, ids: seq<string>)
    ensures VisibleEvents(Run(log + [SoftDelete(pubkey, ids)])) <= VisibleEvents(Run(log))
  {
    assert (log + [SoftDelete(pubkey, ids)])[..|log|] == log;
    SoftDeletedRows(Run(log), ToBuffer(pubkey), Buffers(ids));
    var after := Run(log + [SoftDelete(pubkey, ids)]).rows;
    forall x | x in VisibleEvents(Run(log + [SoftDelete(pubkey, ids)])) ensures x in VisibleEvents(Run(log)) {
      var i :| 0 <= i < |after| && !after[i].deleted && ToNostrEvent(after[i]) == x;
      assert after[i] == Run(log).rows[i];
    }
  }

  /** What becomes visible was just accepted, and is pending. */
  lemma VisibleBefore(s: State, step: Step, e: Event)
    requires Sane(s) && Enabled(s, step) && e in VisibleEvents(Run(Do(s, step).log))
    ensures e in VisibleEvents(Run(s.log)) || exists socket :: (socket, e) in Do(s, step).publishing
  {
    match step {
      case Publish(socket, event) =>
        VisibleAfterStore(s.log, event, e);
        assert e in VisibleEvents(Run(s.log)) || (socket, e) in Do(s, step).publishing;
      case MarkDeleted(pubkey, ids) => VisibleAfterMark(s.log, pubkey, ids);
      case _ =>
    }
  }

  /** A query still to run, or still streaming, goes on to bring the event. */
  lemma InQueryStep(s: State, step: Step, key: SubscriptionKey, e: Event)
    requires Keeps(s, step, key, e) && InQuery(s, s.subscriptions[key].generation, e)
    requires !(step.RunQuery? && step.generation == s.subscriptions[key].generation)
    ensures Covered(Do(s, step), key, e)
  {
  }

  /** The stored query, when it runs, finds what is visible and wanted. */
  lemma QueryCovers(s: State, step: Step, key: SubscriptionKey, e: Event)
    requires Sane(s) && Enabled(s, step) && step.RunQuery? && e in VisibleEvents(Run(s.log))
    requires Wanted(Do(s, step), key, e) && step.generation == s.subscriptions[key].generation
    ensures Covered(Do(s, step), key, e)
  {
    FoundWhenVisible(s.log, s.subscriptions[key].filters, e);
  }

  lemma SubscribedBefore(s: State, socket: nat, id: string, filters: seq<Filter>, g: nat,
                         key: SubscriptionKey, e: Event)
    requires Sane(s) && Enabled(s, Subscribe(socket, id, filters, g))
    requires var after := Do(s, Subscribe(socket, id, filters, g)); Wanted(after, key, e)
    ensures var step := Subscribe(socket, id, filters, g);
      InQuery(Do(s, step), Do(s, step).subscriptions[key].generation, e)
      || (Keeps(s, step, key, e) && Wanted(s, key, e))
  {
  }

  /** A subscription is new, and its query has not run, or was there before. */
  lemma WantedBefore(s: State, step: Step, key: SubscriptionKey, e: Event)
    requires Sane(s) && Enabled(s, step) && Wanted(Do(s, step), key, e)
    requires !(step.RunQuery? && key in s.subscriptions && step.generation == s.subscriptions[key].generation)
    ensures InQuery(Do(s, step), Do(s, step).subscriptions[key].generation, e)
            || (Keeps(s, step, key, e) && Wanted(s, key, e))
  {
    if step.Subscribe? {
      SubscribedBefore(s, step.socket, step.id, step.filters, step.generation, key, e);
    }
  }

  lemma NoGapAt(s: State, step: Step, key: SubscriptionKey, e: Event)
    requires Sane(s) && NoGap(s) && Enabled(s, step)
    requires Wanted(Do(s, step), key, e) && key.0 in Do(s, step).sessions && e in VisibleEvents(Run(Do(s, step).log))
    ensures Covered(Do(s, step), key, e)
  {
    VisibleBefore(s, step, e);
    if e in VisibleEvents(Run(s.log)) {
      if step.RunQuery? && key in s.subscriptions && step.generation == s.subscriptions[key].generation {
        QueryCovers(s, step, key, e);
      } else {
        WantedBefore(s, step, key, e);
        if !InQuery(Do(s, step), Do(s, step).subscriptions[key].generation, e) {
          KeptCovered(s, step, key, e);
        }
      }
    }
  }

  lemma KeptCovered(s: State, step: Step, key: SubscriptionKey, e: Event)
    requires Keeps(s, step, key, e) && Wanted(s, key, e) && NoGap(s) && e in VisibleEvents(Run(s.log))
    requires !(step.RunQuery? && step.generation == s.subscriptions[key].generation)
    ensures Covered(Do(s, step), key, e)
  {
    assert Covered(s, key, e);
    if Coming(s, key, e) {
      ComingStep(s, step, key, e);
    } else {
      InQueryStep(s, step, key, e);
    }
  }

  lemma NoGapStep(s: State, step: Step)
    requires Sane(s) && NoGap(s) && Enabled(s, step)
    ensures NoGap(Do(s, step))
  {
    var after := Do(s, step);
    forall key, e: Event | Wanted(after, key, e) && key.0 in after.sessions && e in VisibleEvents(Run(after.log))
      ensures Covered(after, key, e)
    {
      NoGapAt(s, step, key, e);
    }
  }

  // ---- where a delivery comes from ----

  ghost predicate InSnapshot(s: State, generation: nat, e: Event) {
    generation in s.fetches && s.fetches[generation].phase.Streaming? && e in s.fetches[generation].phase.seen
  }

  /** Whatever the query saw and the filters ask for is streamed. */
  ghost predicate SnapshotKept(s: State) {
    forall key, e :: Wanted(s, key, e) && InSnapshot(s, s.subscriptions[key].generation, e) ==>
      (s.subscriptions[key].generation, e) in s.sent || InQuery(s, s.subscriptions[key].generation, e)
  }

  lemma SnapshotStep(s: State, step: Step)
    requires Sane(s) && SnapshotKept(s) && Enabled(s, step)
    ensures SnapshotKept(Do(s, step))
  {
    var after := Do(s, step);
    forall key, e | Wanted(after, key, e) && InSnapshot(after, after.subscriptions[key].generation, e)
      ensures (after.subscriptions[key].generation, e) in after.sent
              || InQuery(after, after.subscriptions[key].generation, e)
    {
      SnapshotStepAt(s, step, key, e);
    }
  }

  lemma SnapshotStepAt(s: State, step: Step, key: SubscriptionKey, e: Event)
    requires Sane(s) && SnapshotKept(s) && Enabled(s, step)
    requires var after := Do(s, step);
      Wanted(after, key, e) && InSnapshot(after, after.subscriptions[key].generation, e)
    ensures var after := Do(s, step);
      (after.subscriptions[key].generation, e) in after.sent || InQuery(after, after.subscriptions[key].generation, e)
  {
    var after := Do(s, step);
    var generation := after.subscriptions[key].generation;
    if step.RunQuery? && step.generation == generation {
      FoundWhenVisible(s.log, s.subscriptions[key].filters, e);
    } else {
      SnapshotBefore(s, step, key, e);
    }
  }

  /** Every other step finds the subscription and its snapshot in place. */
  lemma SnapshotBefore(s: State, step: Step, key: SubscriptionKey, e: Event)
    requires Sane(s) && Enabled(s, step)
    requires var after := Do(s, step);
      && Wanted(after, key, e) && InSnapshot(after, after.subscriptions[key].generation, e)
      && !(step.RunQuery? && step.generation == after.subscriptions[key].generation)
    ensures key in s.subscriptions && s.subscriptions[key] == Do(s, step).subscriptions[key]
    ensures Wanted(s, key, e) && InSnapshot(s, s.subscriptions[key].generation, e)
  {
  }

  /** The stored query saw the event and finds it. */
  ghost predicate FoundInSnapshot(s: State, generation: nat, e: Event) {
    InSnapshot(s, generation, e) && FindsAny(s.fetches[generation].filters, e)
  }

  /** Everything put on a socket matches its filters and comes from what the
      stored query saw and finds, or from a broadcast. */
  ghost predicate Sourced(s: State, generation: nat, e: Event) {
    && generation in s.fetches && MatchesAny(s.fetches[generation].filters, e)
    && (FoundInSnapshot(s, generation, e) || exists w :: (w, e) in s.emitted)
  }

  ghost predicate AllSourced(s: State) {
    forall g, e :: (g, e) in s.sent ==> Sourced(s, g, e)
  }

  lemma EmitSourced(s: State, socket: nat, event: Event, g: nat, e: Event)
    requires Sane(s) && AllSourced(s) && Enabled(s, Emit(socket, event))
    requires (g, e) in Do(s, Emit(socket, event)).sent
    ensures Sourced(Do(s, Emit(socket, event)), g, e)
  {
    var after := Do(s, Emit(socket, event));
    if (g, e) in s.sent {
      assert Sourced(s, g, e);
      if !FoundInSnapshot(s, g, e) {
        var w :| (w, e) in s.emitted;
        assert (w, e) in after.emitted;
      }
    } else {
      assert (s.sessions[socket].worker, event) in after.emitted;
    }
  }

  lemma RelaySourced(s: State, socket: nat, event: Event, g: nat, e: Event)
    requires Sane(s) && AllSourced(s) && Enabled(s, Relay(socket, event))
    requires (g, e) in Do(s, Relay(socket, event)).sent
    ensures Sourced(Do(s, Relay(socket, event)), g, e)
  {
    var after := Do(s, Relay(socket, event));
    if (g, e) in s.sent {
      assert Sourced(s, g, e);
      if !FoundInSnapshot(s, g, e) {
        var w :| (w, e) in s.emitted;
        assert (w, e) in after.emitted;
      }
    } else {
      assert (s.sessions[socket].worker, event) in after.emitted;
    }
  }

  lemma ReceiveSourced(s: State, receiver: nat, origin: nat, event: Event, g: nat, e: Event)
    requires Sane(s) && Balanced(s) && AllSourced(s) && Enabled(s, Receive(receiver, origin, event))
    requires (g, e) in Do(s, Receive(receiver, origin, event)).sent
    ensures Sourced(Do(s, Receive(receiver, origin, event)), g, e)
  {
    if (g, e) in s.sent {
      assert Sourced(s, g, e);
    } else {
      assert BalancedAt(s, receiver, origin, event);
      assert (origin, event) in s.emitted;
    }
  }

  lemma SourcedStep(s: State, step: Step)
    requires Sane(s) && Balanced(s) && AllSourced(s) && Enabled(s, step)
    ensures AllSourced(Do(s, step))
  {
    forall g, e | (g, e) in Do(s, step).sent ensures Sourced(Do(s, step), g, e) {
      match step {
        case Emit(socket, event) => EmitSourced(s, socket, event, g, e);
        case Relay(socket, event) => RelaySourced(s, socket, event, g, e);
        case Receive(receiver, origin, event) => ReceiveSourced(s, receiver, origin, event, g, e);
        case Send(generation, event) => SendSourced(s, generation, event, g, e);
        case _ => assert Sourced(s, g, e);
      }
    }
  }

  lemma SendSourced(s: State, generation: nat, event: Event, g: nat, e: Event)
    requires Sane(s) && AllSourced(s) && Enabled(s, Send(generation, event))
    requires (g, e) in Do(s, Send(generation, event)).sent
    ensures Sourced(Do(s, Send(generation, event)), g, e)
  {
    if (g, e) in s.sent {
      assert Sourced(s, g, e);
    }
  }

  // ---- the guarantees, in every reachable state ----

  ghost predicate Invariant(s: State) {
    Sane(s) && AllHeld(s) && AllPlaced(s) && Balanced(s) && NoGap(s) && SnapshotKept(s) && AllSourced(s)
  }

  lemma InvariantStep(s: State, step: Step)
    requires Invariant(s) && Enabled(s, step)
    ensures Invariant(Do(s, step))
  {
    SaneStep(s, step);
    HeldStep(s, step);
    PlacedStep(s, step);
    BalancedStep(s, step);
    NoGapStep(s, step);
    SnapshotStep(s, step);
    SourcedStep(s, step);
  }

  lemma {:induction false} InvariantHolds(workers: nat, steps: seq<Step>)
    requires After(workers, steps).Some?
    ensures Invariant(After(workers, steps).value)
  {
    if steps == [] {
      assert forall v: nat, o: nat, e :: BalancedAt(Start(workers), v, o, e);
    } else {
      InvariantHolds(workers, steps[..|steps| - 1]);
      InvariantStep(After(workers, steps[..|steps| - 1]).value, steps[|steps| - 1]);
    }
  }

  /** No broadcast is pending or in flight. */
  predicate Drained(s: State) {
    s.publishing == {} && s.toPrimary == multiset{} && s.toWorker == multiset{}
  }

  predicate Finished(s: State, generation: nat) {
    generation in s.fetches && s.fetches[generation].phase.Streaming? && s.fetches[generation].phase.todo == {}
  }

  // ---- which broadcasts are dropped ----

  predicate LeavesAt(steps: seq<Step>, e: Event, p: nat, j: int, k: int) {
    0 <= j < k < |steps| && steps[j] == Disconnect(p) && steps[k] == Emit(p, e)
  }

  /** The client that stores an event has left when it comes to broadcast it;
      the store itself may come before or after it left. */
  ghost predicate LeftBefore(steps: seq<Step>, e: Event) {
    exists p, j, k :: LeavesAt(steps, e, p, j, k)
  }

  /** A socket is closed for good by its own Disconnect. */
  ghost predicate Tracked(s: State, steps: seq<Step>) {
    && (forall p :: p in s.sessions ==> (s.sessions[p].open <==> Disconnect(p) !in steps))
    && (forall p :: p !in s.sessions ==> Disconnect(p) !in steps)
  }

  lemma TrackedStep(s: State, steps: seq<Step>, step: Step)
    requires Tracked(s, steps) && Enabled(s, step)
    ensures Tracked(Do(s, step), steps + [step])
  {
  }

  lemma LeftStill(steps: seq<Step>, step: Step, e: Event)
    requires LeftBefore(steps, e)
    ensures LeftBefore(steps + [step], e)
  {
    var p, j, k :| LeavesAt(steps, e, p, j, k);
    assert LeavesAt(steps + [step], e, p, j, k);
  }

  lemma LeftJustNow(steps: seq<Step>, step: Step, e: Event)
    requires LeftBefore(steps + [step], e) && !LeftBefore(steps, e)
    ensures step.Emit? && step.event == e && Disconnect(step.socket) in steps
  {
    var p, j, k :| LeavesAt(steps + [step], e, p, j, k);
    assert LeavesAt(steps, e, p, j, k) || k == |steps|;
    assert steps[j] == Disconnect(p);
  }

  /** Emitting from a socket that has closed comes after leaving. */
  lemma LateEmit(s: State, steps: seq<Step>, p: nat, e: Event)
    requires Tracked(s, steps) && Enabled(s, Emit(p, e)) && !s.sessions[p].open
    ensures LeftBefore(steps + [Emit(p, e)], e)
  {
    var j :| 0 <= j < |steps| && steps[j] == Disconnect(p);
    assert LeavesAt(steps + [Emit(p, e)], e, p, j, |steps|);
  }

  lemma LostStep(s: State, steps: seq<Step>, step: Step, e: Event)
    requires Tracked(s, steps) && Enabled(s, step) && (e in s.lost <==> LeftBefore(steps, e))
    ensures e in Do(s, step).lost <==> LeftBefore(steps + [step], e)
  {
    if LeftBefore(steps, e) {
      LeftStill(steps, step, e);
    } else if LeftBefore(steps + [step], e) {
      LeftJustNow(steps, step, e);
    }
    if step.Emit? && step.event == e && !s.sessions[step.socket].open {
      LateEmit(s, steps, step.socket, e);
    }
  }

  /** Over any run a broadcast is dropped exactly when its publisher left before
      broadcasting it. */
  lemma {:induction false} DroppedExactly(workers: nat, steps: seq<Step>, e: Event)
    requires After(workers, steps).Some?
    ensures Tracked(After(workers, steps).value, steps)
    ensures e in After(workers, steps).value.lost <==> LeftBefore(steps, e)
  {
    if steps != [] {
      var before, step := steps[..|steps| - 1], steps[|steps| - 1];
      DroppedExactly(workers, before, e);
      assert steps == before + [step];
      TrackedStep(After(workers, before).value, before, step);
      LostStep(After(workers, before).value, before, step, e);
    }
  }

  /** Once things settle, a visible event that an open subscription asks for
      has been delivered exactly when its publisher did not leave before
      broadcasting it, or the stored query already saw it. */
  lemma DeliveredUnlessDropped(workers: nat, steps: seq<Step>, key: SubscriptionKey, e: Event)
    requires After(workers, steps).Some?
    requires var s := After(workers, steps).value;
      Drained(s) && Wanted(s, key, e) && Finished(s, s.subscriptions[key].generation)
      && e in VisibleEvents(Run(s.log))
    ensures var s := After(workers, steps).value;
      var generation := s.subscriptions[key].generation;
      (generation, e) in s.sent <==> !LeftBefore(steps, e) || InSnapshot(s, generation, e)
  {
    InvariantHolds(workers, steps);
    DroppedExactly(workers, steps, e);
    SentUnlessLost(After(workers, steps).value, key, e);
  }

  lemma VisibleIsPersistent(log: Log, e: Event)
    requires Legal(log) && Persistent(log) && e in VisibleEvents(Run(log))
    ensures !IsEphemeral(e.kind)
  {
    var i :| 0 <= i < |Run(log).rows| && ToNostrEvent(Run(log).rows[i]) == e;
    RowComparable(log, i, Filter(None, None, None, None, None, None, []));
  }

  lemma SentUnlessLost(s: State, key: SubscriptionKey, e: Event)
    requires Invariant(s) && Drained(s) && Wanted(s, key, e) && Finished(s, s.subscriptions[key].generation)
    requires e in VisibleEvents(Run(s.log))
    ensures var generation := s.subscriptions[key].generation;
      (generation, e) in s.sent <==> e !in s.lost || InSnapshot(s, generation, e)
  {
    VisibleIsPersistent(s.log, e);
    assert Covered(s, key, e);
    assert Placed(s, e);
  }

  /** There is no gap between stored and live delivery for any event whose
      publisher stays until it has broadcast it, whoever else leaves. */
  lemma NoGapWhilePublisherStays(workers: nat, steps: seq<Step>, key: SubscriptionKey, e: Event)
    requires After(workers, steps).Some? && !LeftBefore(steps, e)
    requires var s := After(workers, steps).value;
      Drained(s) && Wanted(s, key, e) && Finished(s, s.subscriptions[key].generation)
      && e in VisibleEvents(Run(s.log))
    ensures var s := After(workers, steps).value; (s.subscriptions[key].generation, e) in s.sent
  {
    DeliveredUnlessDropped(workers, steps, key, e);
  }

  // ---- live delivery by itself, for every filter ----

  /** The step takes the event: it is stored and counted, or is ephemeral. */
  ghost predicate Announces(s: State, step: Step, e: Event) {
    || (step.Publish? && step.event == e && AfterStore(Run(s.log), e).1 > 0)
    || (step.Relay? && step.event == e)
  }

  /** The event was taken by some step after the registration. */
  ghost predicate Due(workers: nat, steps: seq<Step>, generation: nat, e: Event) {
    steps != []
    && (|| Due(workers, steps[..|steps| - 1], generation, e)
        || match After(workers, steps[..|steps| - 1])
           case None => false
           case Some(s) => generation in s.fetches && Announces(s, steps[|steps| - 1], e))
  }

  lemma RegisteredStays(s: State, step: Step, generation: nat)
    requires Enabled(s, step) && generation in s.fetches
    ensures generation in Do(s, step).fetches
  {
  }

  lemma {:induction false} DueIsRegistered(workers: nat, steps: seq<Step>, generation: nat, e: Event)
    requires After(workers, steps).Some? && Due(workers, steps, generation, e)
    ensures generation in After(workers, steps).value.fetches
  {
    var before, step := steps[..|steps| - 1], steps[|steps| - 1];
    if Due(workers, before, generation, e) { DueIsRegistered(workers, before, generation, e); }
    RegisteredStays(After(workers, before).value, step, generation);
  }

  /** A generation registers once, so an old one is where it was. */
  lemma RegisteredBefore(s: State, step: Step, key: SubscriptionKey, e: Event)
    requires Sane(s) && Enabled(s, step) && key in Do(s, step).subscriptions
    requires Do(s, step).subscriptions[key].generation in s.fetches
    requires MatchesAny(Do(s, step).subscriptions[key].filters, e)
    ensures Keeps(s, step, key, e)
  {
  }

  lemma AnnouncedComes(s: State, step: Step, key: SubscriptionKey, e: Event)
    requires Keeps(s, step, key, e) && Announces(s, step, e)
    ensures Coming(Do(s, step), key, e)
  {
    if step.Publish? {
      assert (step.socket, e) in Do(s, step).publishing;
    } else {
      BegunComing(s, s.sessions[step.socket].worker, e, key);
    }
  }

  lemma KeptSince(workers: nat, steps: seq<Step>, step: Step, key: SubscriptionKey, e: Event)
    requires After(workers, steps).Some? && Enabled(After(workers, steps).value, step)
    requires var s := After(workers, steps).value;
      && key in Do(s, step).subscriptions && Do(s, step).subscriptions[key].generation in s.fetches
      && MatchesAny(Do(s, step).subscriptions[key].filters, e)
    ensures var s := After(workers, steps).value;
      && key in s.subscriptions && s.subscriptions[key] == Do(s, step).subscriptions[key] && key.0 in s.sessions
      && key.0 in Do(s, step).sessions
      && (Announces(s, step, e) || Coming(s, key, e) ==> Coming(Do(s, step), key, e))
  {
    var s := After(workers, steps).value;
    InvariantHolds(workers, steps);
    RegisteredBefore(s, step, key, e);
    if Announces(s, step, e) {
      AnnouncedComes(s, step, key, e);
    } else if Coming(s, key, e) {
      ComingStep(s, step, key, e);
    }
  }

  lemma {:induction false} DueComes(workers: nat, steps: seq<Step>, key: SubscriptionKey, e: Event)
    requires After(workers, steps).Some?
    requires var s := After(workers, steps).value;
      && key in s.subscriptions && key.0 in s.sessions && MatchesAny(s.subscriptions[key].filters, e)
      && Due(workers, steps, s.subscriptions[key].generation, e)
    ensures Coming(After(workers, steps).value, key, e)
  {
    var before, step := steps[..|steps| - 1], steps[|steps| - 1];
    var generation := After(workers, steps).value.subscriptions[key].generation;
    if Due(workers, before, generation, e) { DueIsRegistered(workers, before, generation, e); }
    KeptSince(workers, before, step, key, e);
    if Due(workers, before, generation, e) { DueComes(workers, before, key, e); }
  }

  /** What a dropped broadcast leaves to the stored query. */
  lemma SentThoughLost(s: State, key: SubscriptionKey, e: Event)
    requires Invariant(s) && e in s.lost && key in s.subscriptions && MatchesAny(s.subscriptions[key].filters, e)
    ensures var generation := s.subscriptions[key].generation;
      && ((generation, e) in s.sent ==> FoundInSnapshot(s, generation, e))
      && (Finished(s, generation) && !Cut(s, generation) && FoundInSnapshot(s, generation, e) ==>
            (generation, e) in s.sent)
  {
    var generation := s.subscriptions[key].generation;
    assert Placed(s, e);
    if (generation, e) in s.sent { assert Sourced(s, generation, e); }
    if FoundInSnapshot(s, generation, e) && !Cut(s, generation) { assert Wanted(s, key, e); }
  }

  /** Once broadcasts have drained, an event taken after an open subscription
      was registered, and matching it by any criteria, has been delivered unless
      its publisher left before broadcasting it, whatever the stored query can
      find and whether it ran, failed or was cut. A dropped one, which is never
      ephemeral, is delivered only when the query saw it and finds it, and after
      a whole query exactly then. */
  lemma LiveDelivered(workers: nat, steps: seq<Step>, key: SubscriptionKey, e: Event)
    requires After(workers, steps).Some?
    requires var s := After(workers, steps).value;
      && Drained(s) && key in s.subscriptions && MatchesAny(s.subscriptions[key].filters, e)
      && Due(workers, steps, s.subscriptions[key].generation, e)
    ensures var s := After(workers, steps).value;
      var generation := s.subscriptions[key].generation;
      && (!LeftBefore(steps, e) ==> (generation, e) in s.sent)
      && (IsEphemeral(e.kind) ==> !LeftBefore(steps, e))
      && (LeftBefore(steps, e) && (generation, e) in s.sent ==> FoundInSnapshot(s, generation, e))
      && (Finished(s, generation) && !Cut(s, generation) ==>
            ((generation, e) in s.sent <==> !LeftBefore(steps, e) || FoundInSnapshot(s, generation, e)))
  {
    InvariantHolds(workers, steps);
    DroppedExactly(workers, steps, e);
    DueComes(workers, steps, key, e);
    if e in After(workers, steps).value.lost {
      SentThoughLost(After(workers, steps).value, key, e);
    }
  }

  /** Every worker handles a broadcast at most once for each time it began, and
      exactly once when things settle; it never comes back to the worker it
      began on. Ephemeral events may be broadcast again, on any worker; the
      others begin once, on one worker. */
  lemma EveryWorkerOnce(workers: nat, steps: seq<Step>, v: nat, o: nat, e: Event)
    requires After(workers, steps).Some? && v < After(workers, steps).value.workers
    ensures var s := After(workers, steps).value;
      && s.handled[(v, o, e)] <= s.emitted[(o, e)]
      && (Drained(s) ==> s.handled[(v, o, e)] == s.emitted[(o, e)])
      && (o, o, e) !in s.toWorker
      && (!IsEphemeral(e.kind) ==>
            s.emitted[(o, e)] <= 1 && forall w: nat :: (w, e) in s.emitted && (o, e) in s.emitted ==> w == o)
  {
    InvariantHolds(workers, steps);
    var s := After(workers, steps).value;
    assert BalancedAt(s, v, o, e);
    if !IsEphemeral(e.kind) { assert Placed(s, e); }
  }

  /** Everything that any subscription receives matches its own filters. */
  lemma OnlyMatchingDelivered(workers: nat, steps: seq<Step>, generation: nat, e: Event)
    requires After(workers, steps).Some? && (generation, e) in After(workers, steps).value.sent
    ensures var s := After(workers, steps).value;
      generation in s.fetches && MatchesAny(s.fetches[generation].filters, e)
  {
    InvariantHolds(workers, steps);
    assert Sourced(After(workers, steps).value, generation, e);
  }

  lemma SentToOpen(s: State, step: Step, generation: nat, e: Event)
    requires Sane(s) && Enabled(s, step) && (generation, e) in Do(s, step).sent && (generation, e) !in s.sent
    ensures generation in s.fetches && s.fetches[generation].socket in s.sessions
    ensures s.sessions[s.fetches[generation].socket].open
  {
  }

  /** Once a client has left, nothing more is put on its socket, neither by a
      query that still streams nor by a broadcast. */
  lemma NothingAfterLeaving(workers: nat, steps: seq<Step>, step: Step, generation: nat, e: Event)
    requires After(workers, steps).Some? && Enabled(After(workers, steps).value, step)
    requires generation in After(workers, steps).value.fetches
    requires Disconnect(After(workers, steps).value.fetches[generation].socket) in steps
    ensures var s := After(workers, steps).value; (generation, e) in Do(s, step).sent ==> (generation, e) in s.sent
  {
    var s := After(workers, steps).value;
    InvariantHolds(workers, steps);
    DroppedExactly(workers, steps, e);
    if (generation, e) in Do(s, step).sent && (generation, e) !in s.sent { SentToOpen(s, step, generation, e); }
  }

  // ---- the gap that is there ----

  lemma AfterOneMore(workers: nat, steps: seq<Step>, step: Step)
    requires After(workers, steps).Some? && Enabled(After(workers, steps).value, step)
    ensures After(workers, steps + [step]) == Some(Do(After(workers, steps).value, step))
  {
    assert (steps + [step])[..|steps|] == steps;
  }

  lemma NothingFound(filters: seq<Filter>)
    ensures Found(Run([]), filters) == {}
  {
  }

  function Listener(filters: seq<Filter>): seq<Step> {
    [Connect(0, 0), Connect(1, 0), Subscribe(0, "live", filters, 0), RunQuery(0, {}, false)]
  }

  /** One subscriber that has finished its stored query, and one publisher. */
  function Listening(filters: seq<Filter>): State {
    Start(1).(sessions := map[0 := Session(0, true), 1 := Session(0, true)],
              subscriptions := map[(0, "live") := Subscription(0, filters)],
              fetches := map[0 := Fetch(0, filters, Streaming({}, {}, false))])
  }

  lemma ListenerReached(filters: seq<Filter>)
    requires ValidFilters(filters) && filters != [] && AllBindable(filters)
    ensures After(1, Listener(filters)) == Some(Listening(filters))
  {
    var steps := Listener(filters);
    TwoSockets();
    AfterOneMore(1, [Connect(0, 0), Connect(1, 0)], steps[2]);
    QueriedNothing(filters);
    AfterOneMore(1, [Connect(0, 0), Connect(1, 0)] + [steps[2]], steps[3]);
    assert [Connect(0, 0), Connect(1, 0)] + [steps[2]] + [steps[3]] == steps;
  }

  function Connected(): State {
    Start(1).(sessions := map[0 := Session(0, true), 1 := Session(0, true)])
  }

  lemma TwoSockets()
    ensures After(1, [Connect(0, 0), Connect(1, 0)]) == Some(Connected())
  {
    AfterOneMore(1, [], Connect(0, 0));
    assert [] + [Connect(0, 0)] == [Connect(0, 0)];
    AfterOneMore(1, [Connect(0, 0)], Connect(1, 0));
    assert [Connect(0, 0)] + [Connect(1, 0)] == [Connect(0, 0), Connect(1, 0)];
    assert Do(Do(Start(1), Connect(0, 0)), Connect(1, 0)) == Connected();
  }

  lemma QueriedNothing(filters: seq<Filter>)
    requires ValidFilters(filters) && filters != [] && AllBindable(filters)
    ensures Enabled(Connected(), Subscribe(0, "live", filters, 0))
    ensures var waiting := Do(Connected(), Subscribe(0, "live", filters, 0));
      Enabled(waiting, RunQuery(0, {}, false)) && Do(waiting, RunQuery(0, {}, false)) == Listening(filters)
  {
    NothingFound(filters);
    assert VisibleEvents(Run([])) == {};
    var waiting := Do(Connected(), Subscribe(0, "live", filters, 0));
    assert waiting.subscriptions == map[(0, "live") := Subscription(0, filters)];
    assert waiting.fetches == map[0 := Fetch(0, filters, Waiting)];
  }

  lemma StoredAlone(e: Event)
    requires ValidEvent(e) && Fits(e)
    ensures Legal([Store(e)]) && AfterStore(Run([]), e).1 > 0 && e in VisibleEvents(Run([Store(e)]))
  {
    assert [Store(e)][..0] == [];
    assert Reflects(Run([]).rows, []) by { RunReflects([]); }
    assert [] + [Store(e)] == [Store(e)];
    StoreIsSlotStore(Run([]), [], e);
    EventRoundTrip(e, DedupOf(e), false);
    assert StoredRow(e) in Run([Store(e)]).rows;
  }

  /** Everything has settled, and an open subscription lacks a visible event
      that it asks for. */
  ghost predicate Missed(s: State, key: SubscriptionKey, e: Event) {
    && Drained(s) && Wanted(s, key, e) && Finished(s, s.subscriptions[key].generation)
    && e in VisibleEvents(Run(s.log)) && (s.subscriptions[key].generation, e) !in s.sent
  }

  /** A publisher stores an event and leaves, or leaves while its event is on
      the way to the store. */
  function StoreAndLeave(e: Event): seq<Step> {
    [Publish(1, e), Disconnect(1), Emit(1, e)]
  }

  function LeaveAndStore(e: Event): seq<Step> {
    [Disconnect(1), Publish(1, e), Emit(1, e)]
  }

  const PUBLISHER_LEFT: map<nat, Session> := map[0 := Session(0, true), 1 := Session(0, false)]

  function LeftBehind(filters: seq<Filter>, e: Event): State {
    Listening(filters).(log := [Store(e)], sessions := PUBLISHER_LEFT, lost := {e})
  }

  function JustStored(filters: seq<Filter>, e: Event): State {
    Listening(filters).(log := [Store(e)], publishing := {(1, e)})
  }

  lemma LeaveStep(s: State, filters: seq<Filter>)
    requires s.sessions == Listening(filters).sessions && s.subscriptions == Listening(filters).subscriptions
    ensures Enabled(s, Disconnect(1)) && Do(s, Disconnect(1)) == s.(sessions := PUBLISHER_LEFT)
  {
    var left := Do(s, Disconnect(1));
    assert left.sessions == PUBLISHER_LEFT;
    assert left.subscriptions == s.subscriptions;
  }

  /** Storing does not look at the socket. */
  lemma PublishStep(s: State, e: Event, filters: seq<Filter>)
    requires ValidEvent(e) && Fits(e) && !IsEphemeral(e.kind)
    requires s == Listening(filters) || s == Listening(filters).(sessions := PUBLISHER_LEFT)
    ensures Enabled(s, Publish(1, e)) && Do(s, Publish(1, e)) == s.(log := [Store(e)], publishing := {(1, e)})
  {
    StoredAlone(e);
    assert [] + [Store(e)] == [Store(e)];
    assert {} + {(1 as nat, e)} == {(1 as nat, e)};
  }

  lemma LateEmitStep(e: Event, filters: seq<Filter>)
    ensures var left := JustStored(filters, e).(sessions := PUBLISHER_LEFT);
      Enabled(left, Emit(1, e)) && Do(left, Emit(1, e)) == LeftBehind(filters, e)
  {
  }

  lemma LeavingReached(e: Event, filters: seq<Filter>)
    requires ValidEvent(e) && Fits(e) && !IsEphemeral(e.kind)
    requires ValidFilters(filters) && filters != [] && AllBindable(filters)
    ensures After(1, Listener(filters) + StoreAndLeave(e)) == Some(LeftBehind(filters, e))
  {
    ListenerReached(filters);
    PublishStep(Listening(filters), e, filters);
    LeaveStep(JustStored(filters, e), filters);
    LateEmitStep(e, filters);
    var steps := Listener(filters);
    AfterOneMore(1, steps, Publish(1, e));
    AfterOneMore(1, steps + [Publish(1, e)], Disconnect(1));
    AfterOneMore(1, steps + [Publish(1, e)] + [Disconnect(1)], Emit(1, e));
    assert steps + [Publish(1, e)] + [Disconnect(1)] + [Emit(1, e)] == steps + StoreAndLeave(e);
  }

  lemma LeavingFirstReached(e: Event, filters: seq<Filter>)
    requires ValidEvent(e) && Fits(e) && !IsEphemeral(e.kind)
    requires ValidFilters(filters) && filters != [] && AllBindable(filters)
    ensures After(1, Listener(filters) + LeaveAndStore(e)) == Some(LeftBehind(filters, e))
  {
    ListenerReached(filters);
    LeaveStep(Listening(filters), filters);
    PublishStep(Listening(filters).(sessions := PUBLISHER_LEFT), e, filters);
    LateEmitStep(e, filters);
    var steps := Listener(filters);
    AfterOneMore(1, steps, Disconnect(1));
    AfterOneMore(1, steps + [Disconnect(1)], Publish(1, e));
    AfterOneMore(1, steps + [Disconnect(1)] + [Publish(1, e)], Emit(1, e));
    assert steps + [Disconnect(1)] + [Publish(1, e)] + [Emit(1, e)] == steps + LeaveAndStore(e);
  }

  /** A publisher that closes its connection before it has broadcast an event
      takes the broadcast with it, whether it leaves after the event is stored
      or before: any event that can be stored then stays undelivered to any open
      subscription that asks for it. */
  lemma LeavingPublisherDropsBroadcast(e: Event, filters: seq<Filter>)
    requires ValidEvent(e) && Fits(e) && !IsEphemeral(e.kind)
    requires ValidFilters(filters) && FindsAny(filters, e) && MatchesAny(filters, e)
    ensures var last := After(1, Listener(filters) + StoreAndLeave(e));
      last.Some? && Missed(last.value, (0, "live"), e)
    ensures After(1, Listener(filters) + LeaveAndStore(e)) == After(1, Listener(filters) + StoreAndLeave(e))
  {
    LeavingReached(e, filters);
    LeavingFirstReached(e, filters);
    StoredAlone(e);
    var s := LeftBehind(filters, e);
    assert s.subscriptions[(0, "live")] == Subscription(0, filters);
    assert Wanted(s, (0, "live"), e);
  }
}
