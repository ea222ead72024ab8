/** What a connection is after a sequence of messages, told from the messages:
    its subscriptions, and which messages are handed on, refused or
    authenticate (nostream-share/src/adapters/web-socket-adapter.ts,
    nostream-share/src/handlers/subscribe-message-handler.ts, NIP-42). */
module ConnectionRuns {
  import opened Wrappers
  import opened NostrEvents
  import opened Connection

  // ---- subscriptions ----

  /** The REQ is admitted: it does not repeat what the identifier has, and keeps
      the positive limits. */
  predicate Admissible(subscriptions: Subscriptions, id: string, filters: seq<Filter>, limits: Limits) {
    var existing := id in subscriptions && subscriptions[id] != [];
    && !(existing && subscriptions[id] == filters)
    && (limits.maxSubscriptions > 0 && !existing ==> |subscriptions| < limits.maxSubscriptions)
    && (limits.maxFilters > 0 ==> |filters| <= limits.maxFilters)
    && (limits.maxSubscriptionIdLength.Some? ==> |id| <= limits.maxSubscriptionIdLength.value)
  }

  /** Where a filter occurs first. */
  predicate FirstAt(filters: seq<Filter>, f: Filter, i: int) {
    0 <= i < |filters| && filters[i] == f && forall j :: 0 <= j < i ==> filters[j] != f
  }

  /** The same filters, each once, in the order of their first occurrences. */
  ghost predicate DistinctOf(u: seq<Filter>, filters: seq<Filter>) {
    && (forall f :: f in u <==> f in filters)
    && (forall i, j, a, b :: 0 <= i < j < |u| && FirstAt(filters, u[i], a) && FirstAt(filters, u[j], b) ==> a < b)
  }

  lemma {:induction false} UniqueIsDistinct(filters: seq<Filter>)
    ensures DistinctOf(Unique(filters), filters)
  {
    if filters != [] {
      var init, last := filters[..|filters| - 1], filters[|filters| - 1];
      UniqueIsDistinct(init);
      forall f, a | FirstAt(filters, f, a) && f in init ensures FirstAt(init, f, a) { assert f in init; }
      var u := Unique(filters);
      assert forall i :: 0 <= i < |Unique(init)| ==> u[i] == Unique(init)[i] && u[i] in Unique(init);
    }
  }

  lemma AdmissionMeaning(subscriptions: Subscriptions, id: string, filters: seq<Filter>, limits: Limits)
    ensures CanSubscribe(subscriptions, id, filters, limits).None? <==> Admissible(subscriptions, id, filters, limits)
  {
  }

  /** Which test a rejected REQ fails first. */
  lemma RejectionMeaning(subscriptions: Subscriptions, id: string, filters: seq<Filter>, limits: Limits)
    ensures CanSubscribe(subscriptions, id, filters, limits) == Some(DuplicateSubscription) <==>
            id in subscriptions && filters != [] && subscriptions[id] == filters
    ensures CanSubscribe(subscriptions, id, filters, limits) == Some(TooManySubscriptions) <==>
            (id !in subscriptions || subscriptions[id] == []) && 0 < limits.maxSubscriptions <= |subscriptions|
    ensures CanSubscribe(subscriptions, id, filters, limits) == Some(TooManyFilters) ==>
              0 < limits.maxFilters < |filters|
    ensures CanSubscribe(subscriptions, id, filters, limits) == Some(IdTooLong) ==>
              limits.maxSubscriptionIdLength.Some? && limits.maxSubscriptionIdLength.value < |id|
  {
  }

  /** The k-th message is a REQ for the identifier that is admitted. */
  predicate Registers(settings: Settings, trace: seq<Arrival>, k: nat, id: string)
    requires k < |trace|
  {
    trace[k].input.Req? && trace[k].input.id == id && OutcomeAt(settings, trace, k) == Registered
  }

  /** An admitted REQ for the identifier, and since then no CLOSE of it and no
      other such REQ. */
  predicate LastRegistration(settings: Settings, trace: seq<Arrival>, k: nat, id: string) {
    && k < |trace| && Registers(settings, trace, k, id)
    && forall j :: k < j < |trace| ==> trace[j].input != Unsubscribe(id) && !Registers(settings, trace, j, id)
  }

  predicate Closed(trace: seq<Arrival>) {
    exists k :: 0 <= k < |trace| && trace[k].input == Disconnect
  }

  lemma OutcomeBefore(settings: Settings, trace: seq<Arrival>, a: Arrival, k: nat)
    requires k < |trace|
    ensures (trace + [a])[k] == trace[k] && OutcomeAt(settings, trace + [a], k) == OutcomeAt(settings, trace, k)
  {
    assert (trace + [a])[..k] == trace[..k];
  }

  lemma OutcomeNow(settings: Settings, trace: seq<Arrival>, a: Arrival)
    ensures OutcomeAt(settings, trace + [a], |trace|) == Next(StateAfter(settings, trace), settings, a).1
    ensures StateAfter(settings, trace + [a]) == Next(StateAfter(settings, trace), settings, a).0
  {
    assert (trace + [a])[..|trace|] == trace;
  }

  lemma ClosedSnoc(trace: seq<Arrival>, a: Arrival)
    ensures Closed(trace + [a]) <==> Closed(trace) || a.input == Disconnect
  {
    var longer := trace + [a];
    assert longer[|trace|] == a;
    if Closed(trace) {
      var k :| 0 <= k < |trace| && trace[k].input == Disconnect;
      assert longer[k] == trace[k];
    }
  }

  lemma ConnectedNext(c: Conn, settings: Settings, a: Arrival)
    ensures Next(c, settings, a).0.connected <==> c.connected && a.input != Disconnect
    ensures (c.connected || c.subscriptions == map[]) && !Next(c, settings, a).0.connected ==>
              Next(c, settings, a).0.subscriptions == map[]
  {
  }

  lemma {:induction false} ConnectedUnlessClosed(settings: Settings, trace: seq<Arrival>)
    ensures StateAfter(settings, trace).connected <==> !Closed(trace)
    ensures Closed(trace) ==> StateAfter(settings, trace).subscriptions == map[]
  {
    if trace != [] {
      var before, a := trace[..|trace| - 1], trace[|trace| - 1];
      ConnectedUnlessClosed(settings, before);
      ConnectedNext(StateAfter(settings, before), settings, a);
      assert trace == before + [a];
      ClosedSnoc(before, a);
    }
  }

  lemma LastStays(settings: Settings, trace: seq<Arrival>, a: Arrival, k: nat, id: string)
    requires k < |trace|
    ensures LastRegistration(settings, trace + [a], k, id) <==>
            LastRegistration(settings, trace, k, id) && a.input != Unsubscribe(id)
            && !Registers(settings, trace + [a], |trace|, id)
  {
    var longer := trace + [a];
    forall j: nat | j < |trace|
      ensures longer[j] == trace[j] && (Registers(settings, longer, j, id) <==> Registers(settings, trace, j, id))
    {
      OutcomeBefore(settings, trace, a, j);
    }
    assert longer[|trace|] == a;
    if LastRegistration(settings, longer, k, id) {
      forall j: nat | k < j < |trace|
        ensures trace[j].input != Unsubscribe(id) && !Registers(settings, trace, j, id)
      {
        assert longer[j].input != Unsubscribe(id) && !Registers(settings, longer, j, id);
      }
    }
  }

  /** Which filters an identifier has. */
  ghost predicate Has(subscriptions: Subscriptions, id: string, filters: seq<Filter>) {
    id in subscriptions && DistinctOf(subscriptions[id], filters)
  }

  /** On a connection that has not closed, an identifier is registered exactly
      when its last admitted REQ comes after its last CLOSE, and then with the
      distinct filters of that REQ; after closing nothing is. */
  lemma {:induction false} RegisteredExactly(settings: Settings, trace: seq<Arrival>, id: string)
    ensures id in StateAfter(settings, trace).subscriptions <==>
            !Closed(trace) && exists k: nat :: LastRegistration(settings, trace, k, id)
    ensures forall k: nat :: !Closed(trace) && LastRegistration(settings, trace, k, id) ==>
              Has(StateAfter(settings, trace).subscriptions, id, trace[k].input.filters)
  {
    ConnectedUnlessClosed(settings, trace);
    if trace != [] && !Closed(trace) {
      var before, a := trace[..|trace| - 1], trace[|trace| - 1];
      assert trace == before + [a];
      assert !Closed(before) by { assert forall k :: 0 <= k < |before| ==> before[k] == trace[k]; }
      RegisteredExactly(settings, before, id);
      ConnectedUnlessClosed(settings, before);
      RegisteredNext(settings, before, a, id);
    }
  }

  lemma RegisteredNext(settings: Settings, trace: seq<Arrival>, a: Arrival, id: string)
    requires StateAfter(settings, trace).connected && a.input != Disconnect
    requires id in StateAfter(settings, trace).subscriptions <==>
             exists k: nat :: LastRegistration(settings, trace, k, id)
    requires forall k: nat :: LastRegistration(settings, trace, k, id) ==>
               Has(StateAfter(settings, trace).subscriptions, id, trace[k].input.filters)
    ensures var after := StateAfter(settings, trace + [a]).subscriptions;
      && (id in after <==> exists k: nat :: LastRegistration(settings, trace + [a], k, id))
      && forall k: nat :: LastRegistration(settings, trace + [a], k, id) ==>
           Has(after, id, (trace + [a])[k].input.filters)
  {
    var longer := trace + [a];
    OutcomeNow(settings, trace, a);
    forall k: nat | k < |trace|
      ensures longer[k] == trace[k]
      ensures LastRegistration(settings, longer, k, id) <==>
              LastRegistration(settings, trace, k, id) && a.input != Unsubscribe(id)
              && !Registers(settings, longer, |trace|, id)
    {
      LastStays(settings, trace, a, k, id);
    }
    assert Registers(settings, longer, |trace|, id) ==> LastRegistration(settings, longer, |trace|, id);
    if a.input.Req? { UniqueIsDistinct(a.input.filters); }
  }

  // ---- authentication ----

  predicate Authenticates(settings: Settings, trace: seq<Arrival>, m: nat)
    requires m < |trace|
  {
    OutcomeAt(settings, trace, m) == Authenticated
  }

  predicate Refuses(settings: Settings, trace: seq<Arrival>, m: nat)
    requires m < |trace|
  {
    OutcomeAt(settings, trace, m) == Unauthorized
  }

  predicate AuthenticatedBefore(settings: Settings, trace: seq<Arrival>, n: nat)
    requires n <= |trace|
  {
    exists m: nat :: m < n && Authenticates(settings, trace, m)
  }

  /** The challenge of the k-th message is outstanding at the n-th: no later
      one replaced it, and none was answered. */
  predicate Outstanding(settings: Settings, trace: seq<Arrival>, k: nat, n: nat)
    requires n <= |trace|
  {
    && k < n && Refuses(settings, trace, k)
    && forall j: nat :: k < j < n ==> !Refuses(settings, trace, j) && !Authenticates(settings, trace, j)
  }

  ghost predicate SomeOutstanding(settings: Settings, trace: seq<Arrival>, n: nat)
    requires n <= |trace|
  {
    exists k: nat :: Outstanding(settings, trace, k, n)
  }

  /** The first challenge tag that has a value has this one. */
  ghost predicate FirstChallenge(tags: seq<Tag>, value: string) {
    exists i :: 0 <= i < |tags| && |tags[i]| >= 2 && tags[i][0] == "challenge" && tags[i][1] == value
                && forall j :: 0 <= j < i ==> !(|tags[j]| >= 2 && tags[j][0] == "challenge")
  }

  ghost predicate NamesRelay(tags: seq<Tag>) {
    exists i :: 0 <= i < |tags| && |tags[i]| >= 2 && tags[i][0] == "relay"
  }

  /** An AUTH event for this challenge, which names a relay. */
  ghost predicate AnswersChallenge(e: Event, challenge: string) {
    e.kind == 22242 && NamesRelay(e.tags) && FirstChallenge(e.tags, challenge)
  }

  lemma AnswerMeaning(e: Event, challenge: Challenge, now: int)
    ensures Accepts(Some(challenge), e, now) <==>
            AnswersChallenge(e, challenge.value) && now < challenge.createdAt + 600000
  {
    if HasTag(e.tags, CHALLENGE_TAG) {
      var value := AnsweredChallenge(e.tags);
      var i :| 0 <= i < |e.tags| && NamedTag(e.tags[i], CHALLENGE_TAG) && e.tags[i][1] == value
        && forall j :: 0 <= j < i ==> !NamedTag(e.tags[j], CHALLENGE_TAG);
      assert FirstChallenge(e.tags, value);
    }
    if FirstChallenge(e.tags, challenge.value) {
      var i :| 0 <= i < |e.tags| && |e.tags[i]| >= 2 && e.tags[i][0] == "challenge" && e.tags[i][1] == challenge.value
        && forall j :: 0 <= j < i ==> !(|e.tags[j]| >= 2 && e.tags[j][0] == "challenge");
      assert NamedTag(e.tags[i], CHALLENGE_TAG);
    }
    if NamesRelay(e.tags) {
      var i :| 0 <= i < |e.tags| && |e.tags[i]| >= 2 && e.tags[i][0] == "relay";
      assert NamedTag(e.tags[i], RELAY_TAG);
    }
    if HasTag(e.tags, RELAY_TAG) {
      var i :| 0 <= i < |e.tags| && NamedTag(e.tags[i], RELAY_TAG);
      assert |e.tags[i]| >= 2 && e.tags[i][0] == "relay";
    }
  }

  /** What the connection remembers is what the outcomes so far say. */
  lemma {:induction false} Remembers(settings: Settings, trace: seq<Arrival>, n: nat)
    requires n <= |trace|
    ensures var c := StateAfter(settings, trace[..n]);
      && (c.authenticated <==> AuthenticatedBefore(settings, trace, n))
      && (c.challenge.Some? <==> SomeOutstanding(settings, trace, n))
      && forall k: nat :: Outstanding(settings, trace, k, n) ==>
           c.challenge == Some(Challenge(trace[k].nonce, trace[k].now))
  {
    assert trace[..0] == [];
    if n > 0 {
      Remembers(settings, trace, n - 1);
      StateStep(settings, trace, n - 1);
      RemembersNext(settings, trace, n - 1);
    }
  }

  lemma OutstandingNext(settings: Settings, trace: seq<Arrival>, k: nat, n: nat)
    requires n < |trace|
    ensures Outstanding(settings, trace, k, n + 1) <==>
            (k == n && Refuses(settings, trace, n))
            || (Outstanding(settings, trace, k, n) && !Refuses(settings, trace, n) && !Authenticates(settings, trace, n))
  {
  }

  lemma AuthenticatedNext(settings: Settings, trace: seq<Arrival>, n: nat)
    requires n < |trace|
    ensures AuthenticatedBefore(settings, trace, n + 1) <==>
            AuthenticatedBefore(settings, trace, n) || Authenticates(settings, trace, n)
  {
    if AuthenticatedBefore(settings, trace, n) {
      var m: nat :| m < n && Authenticates(settings, trace, m);
      assert m < n + 1 && Authenticates(settings, trace, m);
    }
  }

  lemma SomeOutstandingNext(settings: Settings, trace: seq<Arrival>, n: nat)
    requires n < |trace|
    ensures SomeOutstanding(settings, trace, n + 1) <==>
            Refuses(settings, trace, n) || (SomeOutstanding(settings, trace, n) && !Authenticates(settings, trace, n))
  {
    if SomeOutstanding(settings, trace, n + 1) {
      var k: nat :| Outstanding(settings, trace, k, n + 1);
      OutstandingNext(settings, trace, k, n);
    }
    OutstandingNext(settings, trace, n, n);
    if SomeOutstanding(settings, trace, n) {
      var k: nat :| Outstanding(settings, trace, k, n);
      OutstandingNext(settings, trace, k, n);
    }
  }

  /** What a message does to the two fields. */
  lemma FieldsNext(c: Conn, settings: Settings, a: Arrival)
    ensures var (d, outcome) := Next(c, settings, a);
      && (d.authenticated <==> c.authenticated || outcome == Authenticated)
      && (outcome == Authenticated ==> d.challenge == None)
      && (outcome == Unauthorized ==> d.challenge == Some(Challenge(a.nonce, a.now)))
      && (outcome != Authenticated && outcome != Unauthorized ==> d.challenge == c.challenge)
  {
  }

  lemma RemembersNext(settings: Settings, trace: seq<Arrival>, n: nat)
    requires n < |trace|
    requires var c := StateAfter(settings, trace[..n]);
      && (c.authenticated <==> AuthenticatedBefore(settings, trace, n))
      && (c.challenge.Some? <==> SomeOutstanding(settings, trace, n))
      && forall k: nat :: Outstanding(settings, trace, k, n) ==>
           c.challenge == Some(Challenge(trace[k].nonce, trace[k].now))
    ensures var d := Next(StateAfter(settings, trace[..n]), settings, trace[n]).0;
      && (d.authenticated <==> AuthenticatedBefore(settings, trace, n + 1))
      && (d.challenge.Some? <==> SomeOutstanding(settings, trace, n + 1))
      && forall k: nat :: Outstanding(settings, trace, k, n + 1) ==>
           d.challenge == Some(Challenge(trace[k].nonce, trace[k].now))
  {
    var c := StateAfter(settings, trace[..n]);
    FieldsNext(c, settings, trace[n]);
    AuthenticatedNext(settings, trace, n);
    SomeOutstandingNext(settings, trace, n);
    forall k: nat | Outstanding(settings, trace, k, n + 1)
      ensures Next(c, settings, trace[n]).0.challenge == Some(Challenge(trace[k].nonce, trace[k].now))
    {
      OutstandingNext(settings, trace, k, n);
    }
  }

  /** An EVENT is refused, and issues a challenge, exactly while authentication
      is required and no earlier message has authenticated; else it is handed
      on. */
  lemma HandedOnExactly(settings: Settings, trace: seq<Arrival>, n: nat)
    requires n < |trace|
    ensures Refuses(settings, trace, n) <==>
            trace[n].input.Publish? && settings.authenticationEnabled && !AuthenticatedBefore(settings, trace, n)
    ensures OutcomeAt(settings, trace, n) == Dispatched <==>
            trace[n].input.Publish? && (!settings.authenticationEnabled || AuthenticatedBefore(settings, trace, n))
  {
    Remembers(settings, trace, n);
  }

  /** A message authenticates exactly when it answers the challenge that is
      outstanding, by name and less than ten minutes after it was issued, and
      passes the tests before. */
  lemma AuthenticatesExactly(settings: Settings, trace: seq<Arrival>, n: nat)
    requires n < |trace|
    ensures Authenticates(settings, trace, n) <==>
            && trace[n].input.Answer? && trace[n].input.passes
            && exists k: nat :: Outstanding(settings, trace, k, n)
                 && AnswersChallenge(trace[n].input.answer, trace[k].nonce) && trace[n].now < trace[k].now + 600000
  {
    Remembers(settings, trace, n);
    if trace[n].input.Answer? && StateAfter(settings, trace[..n]).challenge.Some? {
      var k: nat :| Outstanding(settings, trace, k, n);
      AnswerMeaning(trace[n].input.answer, Challenge(trace[k].nonce, trace[k].now), trace[n].now);
    }
  }
}
