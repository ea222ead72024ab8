/** One client connection: its subscriptions, its authentication, and what is
    put on the socket (nostream-share/src/adapters/web-socket-adapter.ts, the
    subscribe handler's admission test, and the auth strategy of NIP-42). */
module Connection {
  import opened Wrappers
  import opened NostrEvents

  datatype Rejection = DuplicateSubscription | TooManySubscriptions | TooManyFilters | IdTooLong

  datatype OutgoingMessage =
    | EventMessage(subscriptionId: string, event: Event)
    | EndOfStoredEvents(subscriptionId: string)
    | SubscriptionRejected(reason: Rejection)
    | CommandResult(eventId: string, accepted: bool, message: string)
    | AuthRequest(challenge: string)

  /** Limits of zero or less are no limits. */
  datatype Limits = Limits(maxSubscriptions: int, maxFilters: int, maxSubscriptionIdLength: Option<nat>)

  datatype Settings = Settings(authenticationEnabled: bool, limits: Limits)

  datatype Challenge = Challenge(value: string, createdAt: int)

  type Subscriptions = map<string, seq<Filter>>

  /** What a connection remembers. */
  datatype Conn = Conn(
    subscriptions: Subscriptions, challenge: Option<Challenge>, authenticated: bool, connected: bool)

  const FRESH := Conn(map[], None, false, true)

  const RESPONSE_DELAY_MS: int := 1000 * 60 * 10

  // ---- admission of a subscription ----

  /** `uniqWith(equals)`: the first occurrence of each filter. */
  function Unique(filters: seq<Filter>): (u: seq<Filter>)
    ensures |u| <= |filters| && (filters != [] ==> u != [])
    ensures forall f :: f in u <==> f in filters
  {
    if filters == [] then []
    else
      var init, last := filters[..|filters| - 1], filters[|filters| - 1];
      assert filters == init + [last];
      var u := Unique(init);
      if last in init then u else u + [last]
  }

  function CanSubscribe(subscriptions: Subscriptions, id: string, filters: seq<Filter>, limits: Limits): Option<Rejection> {
    var existing := if id in subscriptions then subscriptions[id] else [];
    if existing != [] && filters == existing then Some(DuplicateSubscription)
    else if limits.maxSubscriptions > 0 && existing == [] && |subscriptions| + 1 > limits.maxSubscriptions
    then Some(TooManySubscriptions)
    else if limits.maxFilters > 0 && |filters| > limits.maxFilters then Some(TooManyFilters)
    else if limits.maxSubscriptionIdLength.Some? && |id| > limits.maxSubscriptionIdLength.value then Some(IdTooLong)
    else None
  }

  // ---- signed authentication events ----

  predicate NamedTag(tag: Tag, name: string) {
    |tag| >= 2 && tag[0] == name
  }

  predicate HasTag(tags: seq<Tag>, name: string) {
    exists i :: 0 <= i < |tags| && NamedTag(tags[i], name)
  }

  const CHALLENGE_TAG := "challenge"
  const RELAY_TAG := "relay"

  predicate SignedAuth(e: Event) {
    e.kind == AUTH && HasTag(e.tags, CHALLENGE_TAG) && HasTag(e.tags, RELAY_TAG)
  }

  /** The value of the first challenge tag. */
  function AnsweredChallenge(tags: seq<Tag>): (value: string)
    requires HasTag(tags, CHALLENGE_TAG)
    ensures exists i :: 0 <= i < |tags| && NamedTag(tags[i], CHALLENGE_TAG) && tags[i][1] == value
                        && forall j :: 0 <= j < i ==> !NamedTag(tags[j], CHALLENGE_TAG)
  {
    if NamedTag(tags[0], CHALLENGE_TAG) then tags[0][1]
    else
      assert HasTag(tags[1..], CHALLENGE_TAG) by {
        var i :| 0 <= i < |tags| && NamedTag(tags[i], CHALLENGE_TAG);
        assert tags[1..][i - 1] == tags[i];
      }
      var value := AnsweredChallenge(tags[1..]);
      assert exists i :: 0 <= i < |tags| && NamedTag(tags[i], CHALLENGE_TAG) && tags[i][1] == value
                         && forall j :: 0 <= j < i ==> !NamedTag(tags[j], CHALLENGE_TAG) by {
        var k :| 0 <= k < |tags[1..]| && NamedTag(tags[1..][k], CHALLENGE_TAG) && tags[1..][k][1] == value
          && forall j :: 0 <= j < k ==> !NamedTag(tags[1..][j], CHALLENGE_TAG);
        forall j | 0 <= j < k + 1 ensures !NamedTag(tags[j], CHALLENGE_TAG) {
          if j > 0 { assert tags[j] == tags[1..][j - 1]; }
        }
        assert NamedTag(tags[k + 1], CHALLENGE_TAG);
      }
      value
  }

  /** One pass over the tags, looking for both names in either order. */
  method IsSignedAuthEvent(e: Event) returns (r: bool)
    ensures r <==> SignedAuth(e)
  {
    if e.kind != AUTH {
      return false;
    }
    var relay, challenge := false, false;
    for i := 0 to |e.tags|
      invariant challenge <==> exists k :: 0 <= k < i && NamedTag(e.tags[k], CHALLENGE_TAG)
      invariant relay <==> exists k :: 0 <= k < i && NamedTag(e.tags[k], RELAY_TAG)
      invariant !(relay && challenge)
    {
      var tag := e.tags[i];
      if |tag| < 2 {
        continue;
      }
      if tag[0] == CHALLENGE_TAG {
        if relay {
          return true;
        }
        challenge := true;
      }
      if tag[0] == RELAY_TAG {
        if challenge {
          return true;
        }
        relay := true;
      }
    }
    r := false;
  }

  // ---- one step of a connection ----

  /** A message whose handler reaches its state change. `passes` says that an
      AUTH event got through identifier, signature, rate and admission tests. */
  datatype Input =
    | Req(id: string, filters: seq<Filter>)
    | Unsubscribe(unsubscribed: string)
    | Publish(event: Event)
    | Answer(answer: Event, passes: bool)
    | Disconnect

  /** An input with the clock and the random challenge it would be given. */
  datatype Arrival = Arrival(input: Input, now: int, nonce: string)

  datatype Outcome =
    | Ignored
    | Registered
    | Rejected(reason: Rejection)
    | Dispatched
    | Unauthorized
    | Authenticated
    | NotAuthenticated

  predicate Accepts(challenge: Option<Challenge>, answer: Event, now: int) {
    challenge.Some? && SignedAuth(answer)
    && AnsweredChallenge(answer.tags) == challenge.value.value
    && challenge.value.createdAt + RESPONSE_DELAY_MS > now
  }

  function Next(c: Conn, settings: Settings, a: Arrival): (Conn, Outcome) {
    match a.input
    case Req(id, filters) =>
      if !c.connected then (c, Ignored)
      else
        var unique := Unique(filters);
        var reason := CanSubscribe(c.subscriptions, id, unique, settings.limits);
        if reason.Some? then (c, Rejected(reason.value))
        else (c.(subscriptions := c.subscriptions[id := unique]), Registered)
    case Unsubscribe(id) =>
      if !c.connected then (c, Ignored) else (c.(subscriptions := c.subscriptions - {id}), Ignored)
    case Publish(_) =>
      if !c.authenticated && settings.authenticationEnabled
      then (c.(challenge := Some(Challenge(a.nonce, a.now))), Unauthorized)
      else (c, Dispatched)
    case Answer(e, passes) =>
      if passes && Accepts(c.challenge, e, a.now)
      then (c.(authenticated := true, challenge := None), Authenticated)
      else (c, NotAuthenticated)
    case Disconnect => (c.(subscriptions := map[], connected := false), Ignored)
  }

  function StateAfter(settings: Settings, trace: seq<Arrival>): Conn {
    if trace == [] then FRESH
    else Next(StateAfter(settings, trace[..|trace| - 1]), settings, trace[|trace| - 1]).0
  }

  function OutcomeAt(settings: Settings, trace: seq<Arrival>, n: nat): Outcome
    requires n < |trace|
  {
    Next(StateAfter(settings, trace[..n]), settings, trace[n]).1
  }

  // ---- the adapter ----

  predicate IsMatched(subscriptions: Subscriptions, id: string, e: Event) {
    id in subscriptions && MatchesAny(subscriptions[id], e)
  }

  function MessagesFor(subscriptions: Subscriptions, ids: set<string>, e: Event): set<OutgoingMessage> {
    set id | id in ids && IsMatched(subscriptions, id, e) :: EventMessage(id, e)
  }

  /** The messages that one event causes on one connection. */
  function LiveMessages(subscriptions: Subscriptions, e: Event): set<OutgoingMessage> {
    MessagesFor(subscriptions, subscriptions.Keys, e)
  }

  /** They are one message for each subscription that has a matching filter. */
  lemma LiveMeaning(subscriptions: Subscriptions, e: Event, m: OutgoingMessage)
    ensures m in LiveMessages(subscriptions, e) <==>
            && m.EventMessage? && m.event == e && m.subscriptionId in subscriptions
            && var filters := subscriptions[m.subscriptionId];
               exists i :: 0 <= i < |filters| && Matches(filters[i], e)
  {
    if m.EventMessage? && m.subscriptionId in subscriptions {
      assert IsMatched(subscriptions, m.subscriptionId, e) <==> MatchesAny(subscriptions[m.subscriptionId], e);
    }
  }

  lemma MessagesForOneMore(subscriptions: Subscriptions, ids: set<string>, id: string, e: Event)
    requires id !in ids && id in subscriptions
    ensures multiset(MessagesFor(subscriptions, ids + {id}, e))
            == multiset(MessagesFor(subscriptions, ids, e))
               + if MatchesAny(subscriptions[id], e) then multiset{EventMessage(id, e)} else multiset{}
  {
    var before, after := MessagesFor(subscriptions, ids, e), MessagesFor(subscriptions, ids + {id}, e);
    assert EventMessage(id, e) !in before;
    if MatchesAny(subscriptions[id], e) {
      assert after == before + {EventMessage(id, e)};
    } else {
      assert after == before;
    }
  }

  lemma OneMoreSent(subscriptions: Subscriptions, ids: set<string>, id: string, e: Event, out: seq<OutgoingMessage>)
    requires id !in ids && id in subscriptions && multiset(out) == multiset(MessagesFor(subscriptions, ids, e))
    ensures multiset(if IsMatched(subscriptions, id, e) then out + [EventMessage(id, e)] else out)
            == multiset(MessagesFor(subscriptions, ids + {id}, e))
  {
    MessagesForOneMore(subscriptions, ids, id, e);
  }

  class WebSocketAdapter {
    var subscriptions: Subscriptions
    var authChallenge: Option<Challenge>
    var authenticated: bool
    var listening: bool  // event handlers attached; lost when the client closes
    var open: bool       // readyState is OPEN
    var sent: seq<OutgoingMessage>
    var broadcasts: seq<Event>

    function State(): Conn
      reads this
    {
      Conn(subscriptions, authChallenge, authenticated, listening)
    }

    constructor ()
      ensures State() == FRESH && open && sent == [] && broadcasts == []
    {
      subscriptions, authChallenge, authenticated, listening, open := map[], None, false, true, true;
      sent, broadcasts := [], [];
    }

    method SendMessage(message: OutgoingMessage)
      modifies this`sent
      ensures sent == old(sent) + if open then [message] else []
    {
      if open {
        sent := sent + [message];
      }
    }

    /** `emit(Message)`: reaches the socket only while handlers are attached. */
    method EmitMessage(message: OutgoingMessage)
      modifies this`sent
      ensures sent == old(sent) + if listening && open then [message] else []
    {
      if listening {
        SendMessage(message);
      }
    }

    /** `emit(Broadcast)`: lost when the handlers are already detached. */
    method EmitBroadcast(e: Event)
      modifies this`broadcasts
      ensures broadcasts == old(broadcasts) + if listening then [e] else []
    {
      if listening {
        broadcasts := broadcasts + [e];
      }
    }

    method SetNewAuthChallenge(now: int, nonce: string)
      modifies this`authChallenge
      ensures authChallenge == Some(Challenge(nonce, now))
    {
      authChallenge := Some(Challenge(nonce, now));
    }

    method SetClientToAuthenticated()
      modifies this`authenticated, this`authChallenge
      ensures authenticated && authChallenge == None
    {
      authenticated := true;
      authChallenge := None;
    }

    /** Every matching subscription gets the event once. */
    method OnSendEvent(e: Event) returns (ghost out: seq<OutgoingMessage>)
      modifies this`sent
      ensures multiset(out) == multiset(LiveMessages(subscriptions, e))
      ensures sent == old(sent) + if open then out else []
    {
      var pending := subscriptions.Keys;
      out := [];
      while pending != {}
        invariant pending <= subscriptions.Keys
        invariant sent == old(sent) + if open then out else []
        invariant multiset(out) == multiset(MessagesFor(subscriptions, subscriptions.Keys - pending, e))
        decreases pending
      {
        var id :| id in pending;
        OneMoreSent(subscriptions, subscriptions.Keys - pending, id, e, out);
        assert subscriptions.Keys - pending + {id} == subscriptions.Keys - (pending - {id});
        pending := pending - {id};
        if IsMatched(subscriptions, id, e) {
          SendMessage(EventMessage(id, e));
          out := out + [EventMessage(id, e)];
        }
      }
      assert subscriptions.Keys - {} == subscriptions.Keys;
    }

    method OnRequest(settings: Settings, id: string, filters: seq<Filter>, ghost now: int, ghost nonce: string)
      returns (registered: bool)
      modifies this`subscriptions, this`sent
      ensures var (c, outcome) := Next(old(State()), settings, Arrival(Req(id, filters), now, nonce));
        State() == c && (registered <==> outcome == Registered)
        && sent == old(sent) + if outcome.Rejected? && open then [SubscriptionRejected(outcome.reason)] else []
    {
      if !listening {
        return false;
      }
      var unique := Unique(filters);
      var reason := CanSubscribe(subscriptions, id, unique, settings.limits);
      if reason.Some? {
        EmitMessage(SubscriptionRejected(reason.value));
        return false;
      }
      subscriptions := subscriptions[id := unique];
      registered := true;
    }

    method OnUnsubscribed(settings: Settings, id: string, ghost now: int, ghost nonce: string)
      modifies this`subscriptions
      ensures State() == Next(old(State()), settings, Arrival(Unsubscribe(id), now, nonce)).0
      ensures listening ==> id !in subscriptions
      ensures forall other :: other != id ==>
                (other in subscriptions <==> other in old(subscriptions))
                && (other in subscriptions ==> subscriptions[other] == old(subscriptions)[other])
    {
      if listening {
        subscriptions := subscriptions - {id};
      }
    }

    /** `isAuthenticationRequired` for an EVENT message: hand it on, or refuse
        it and issue a challenge. A message that was waiting for the rate
        limiter gets here even after the client has closed. */
    method OnEventMessage(settings: Settings, e: Event, now: int, nonce: string) returns (dispatched: bool)
      modifies this`authChallenge, this`sent
      ensures var (c, outcome) := Next(old(State()), settings, Arrival(Publish(e), now, nonce));
        State() == c && (dispatched <==> outcome == Dispatched)
        && sent == old(sent) + if outcome == Unauthorized && open
                               then [CommandResult(e.id, false, "rejected: unauthorized"), AuthRequest(nonce)] else []
    {
      if !authenticated && settings.authenticationEnabled {
        SetNewAuthChallenge(now, nonce);
        SendMessage(CommandResult(e.id, false, "rejected: unauthorized"));
        SendMessage(AuthRequest(nonce));
        return false;
      }
      dispatched := true;
    }

    /** The auth strategy. Without an outstanding challenge it fails as well; an
        event that does not pass the tests before it is answered there. */
    method OnAuthEvent(settings: Settings, e: Event, passes: bool, now: int, ghost nonce: string) returns (succeeded: bool)
      modifies this`authChallenge, this`authenticated, this`sent
      ensures var (c, outcome) := Next(old(State()), settings, Arrival(Answer(e, passes), now, nonce));
        State() == c && (succeeded <==> outcome == Authenticated)
        && sent == old(sent)
           + if !passes || !listening || !open then []
             else if outcome == Authenticated then [CommandResult(e.id, true, "authentication: succeeded")]
             else if old(authChallenge).Some? then [CommandResult(e.id, false, "authentication: failed")]
             else [CommandResult(e.id, false, "error: unable to process event")]
    {
      if !passes {
        return false;
      }
      if authChallenge.None? {
        EmitMessage(CommandResult(e.id, false, "error: unable to process event"));
        return false;
      }
      var challenge := authChallenge.value;
      var signed := IsSignedAuthEvent(e);
      var verified := signed && AnsweredChallenge(e.tags) == challenge.value;
      if verified && challenge.createdAt + RESPONSE_DELAY_MS > now {
        SetClientToAuthenticated();
        EmitMessage(CommandResult(e.id, true, "authentication: succeeded"));
        return true;
      }
      EmitMessage(CommandResult(e.id, false, "authentication: failed"));
      succeeded := false;
    }

    method OnClientClose(settings: Settings, ghost now: int, ghost nonce: string)
      modifies this`subscriptions, this`listening, this`open
      ensures State() == Next(old(State()), settings, Arrival(Disconnect, now, nonce)).0 && !open
    {
      subscriptions := map[];
      listening := false;
      open := false;
    }
  }

  // ---- every message sequence ----

  lemma StateStep(settings: Settings, trace: seq<Arrival>, n: nat)
    requires n < |trace|
    ensures StateAfter(settings, trace[..n + 1]) == Next(StateAfter(settings, trace[..n]), settings, trace[n]).0
  {
    assert trace[..n + 1][..n] == trace[..n];
  }

  ghost predicate WithinLimits(subscriptions: Subscriptions, limits: Limits) {
    && (limits.maxSubscriptions > 0 ==> |subscriptions| <= limits.maxSubscriptions)
    && (limits.maxFilters > 0 ==> forall id :: id in subscriptions ==> |subscriptions[id]| <= limits.maxFilters)
    && (limits.maxSubscriptionIdLength.Some? ==>
          forall id :: id in subscriptions ==> |id| <= limits.maxSubscriptionIdLength.value)
  }

  lemma RemovedKeepsLimits(subscriptions: Subscriptions, id: string, limits: Limits)
    requires WithinLimits(subscriptions, limits)
    ensures WithinLimits(subscriptions - {id}, limits)
  {
    var fewer := subscriptions - {id};
    assert subscriptions.Keys == fewer.Keys + (subscriptions.Keys - fewer.Keys);
  }

  lemma AddedKeepsLimits(subscriptions: Subscriptions, id: string, filters: seq<Filter>, limits: Limits)
    requires WithinLimits(subscriptions, limits) && CanSubscribe(subscriptions, id, filters, limits).None?
    ensures WithinLimits(subscriptions[id := filters], limits)
  {
    assert subscriptions[id := filters].Keys == subscriptions.Keys + {id};
    if id in subscriptions {
      assert subscriptions.Keys + {id} == subscriptions.Keys;
    }
  }

  /** No sequence of messages takes a connection over its limits. */
  lemma {:induction false} SubscriptionsBounded(settings: Settings, trace: seq<Arrival>)
    ensures WithinLimits(StateAfter(settings, trace).subscriptions, settings.limits)
  {
    if trace != [] {
      var before, a := trace[..|trace| - 1], trace[|trace| - 1];
      SubscriptionsBounded(settings, before);
      var c := StateAfter(settings, before);
      match a.input {
        case Req(id, filters) =>
          if CanSubscribe(c.subscriptions, id, Unique(filters), settings.limits).None? {
            AddedKeepsLimits(c.subscriptions, id, Unique(filters), settings.limits);
          }
        case Unsubscribe(id) => RemovedKeepsLimits(c.subscriptions, id, settings.limits);
        case _ =>
      }
    }
  }

  /** The k-th message was refused and issued the challenge outstanding after
      the first n messages. */
  ghost predicate Issued(settings: Settings, trace: seq<Arrival>, k: nat, n: nat) {
    && k < n <= |trace| && trace[k].input.Publish? && OutcomeAt(settings, trace, k) == Unauthorized
    && StateAfter(settings, trace[..n]).challenge == Some(Challenge(trace[k].nonce, trace[k].now))
  }

  lemma ChallengeStep(c: Conn, settings: Settings, a: Arrival)
    requires Next(c, settings, a).0.challenge.Some?
    ensures (a.input.Publish? && Next(c, settings, a).1 == Unauthorized
             && Next(c, settings, a).0.challenge == Some(Challenge(a.nonce, a.now)))
            || Next(c, settings, a).0.challenge == c.challenge
  {
  }

  lemma {:induction false} ChallengesAreIssued(settings: Settings, trace: seq<Arrival>, n: nat)
    requires n <= |trace| && StateAfter(settings, trace[..n]).challenge.Some?
    ensures exists k: nat :: Issued(settings, trace, k, n)
  {
    assert trace[..0] == [];
    if n > 0 {
      StateStep(settings, trace, n - 1);
      var c := StateAfter(settings, trace[..n - 1]);
      ChallengeStep(c, settings, trace[n - 1]);
      if StateAfter(settings, trace[..n]).challenge == c.challenge {
        ChallengesAreIssued(settings, trace, n - 1);
        var k: nat :| Issued(settings, trace, k, n - 1);
        assert Issued(settings, trace, k, n);
      } else {
        assert Issued(settings, trace, n - 1, n);
      }
    }
  }

  /** The m-th message answered the outstanding challenge in time, with a
      signed AUTH event that names it. */
  ghost predicate AnsweredAt(settings: Settings, trace: seq<Arrival>, m: nat) {
    m < |trace| && trace[m].input.Answer? && trace[m].input.passes && SignedAuth(trace[m].input.answer)
    && exists k: nat :: Issued(settings, trace, k, m)
         && AnsweredChallenge(trace[m].input.answer.tags) == trace[k].nonce
         && trace[m].now < trace[k].now + RESPONSE_DELAY_MS
  }

  /** Only an answer to the outstanding challenge authenticates. */
  lemma AuthenticatedNow(settings: Settings, trace: seq<Arrival>, n: nat)
    requires n < |trace| && !StateAfter(settings, trace[..n]).authenticated
    requires Next(StateAfter(settings, trace[..n]), settings, trace[n]).0.authenticated
    ensures AnsweredAt(settings, trace, n)
  {
    ChallengesAreIssued(settings, trace, n);
  }

  lemma {:induction false} AuthenticatedByAnswer(settings: Settings, trace: seq<Arrival>, n: nat)
    requires n <= |trace| && StateAfter(settings, trace[..n]).authenticated
    ensures exists m: nat :: m < n && AnsweredAt(settings, trace, m)
  {
    assert trace[..0] == [];
    if n > 0 {
      StateStep(settings, trace, n - 1);
      if StateAfter(settings, trace[..n - 1]).authenticated {
        AuthenticatedByAnswer(settings, trace, n - 1);
      } else {
        AuthenticatedNow(settings, trace, n - 1);
      }
    }
  }

  /** With authentication enabled, an event is handed on only after an earlier
      message answered the outstanding challenge in time. */
  lemma DispatchNeedsAnswer(settings: Settings, trace: seq<Arrival>, n: nat)
    requires settings.authenticationEnabled && n < |trace| && OutcomeAt(settings, trace, n) == Dispatched
    ensures exists m: nat :: m < n && AnsweredAt(settings, trace, m)
  {
    AuthenticatedByAnswer(settings, trace, n);
  }

  lemma AuthenticationSticks(c: Conn, settings: Settings, a: Arrival)
    requires Next(c, settings, a).1 == Authenticated || (c.authenticated && c.challenge.None?)
    ensures Next(c, settings, a).0.authenticated && Next(c, settings, a).0.challenge.None?
  {
  }

  lemma {:induction false} AuthenticatedForGood(settings: Settings, trace: seq<Arrival>, m: nat, n: nat)
    requires m < n <= |trace| && OutcomeAt(settings, trace, m) == Authenticated
    ensures StateAfter(settings, trace[..n]).authenticated && StateAfter(settings, trace[..n]).challenge.None?
    decreases n - m
  {
    StateStep(settings, trace, n - 1);
    if n - 1 > m { AuthenticatedForGood(settings, trace, m, n - 1); }
    AuthenticationSticks(StateAfter(settings, trace[..n - 1]), settings, trace[n - 1]);
  }

  /** A challenge is used up: no connection authenticates twice. */
  lemma AuthenticatesOnce(settings: Settings, trace: seq<Arrival>, m: nat, n: nat)
    requires m < |trace| && n < |trace|
    requires OutcomeAt(settings, trace, m) == Authenticated && OutcomeAt(settings, trace, n) == Authenticated
    ensures m == n
  {
    if m < n {
      AuthenticatedForGood(settings, trace, m, n);
    } else if n < m {
      AuthenticatedForGood(settings, trace, n, m);
    }
  }
}
