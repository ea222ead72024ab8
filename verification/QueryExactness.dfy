/** For exactly which filters the compiled query agrees with the direct
    predicate, over every table that a run reaches. */
module QueryExactness {
  import opened Wrappers
  import opened Hex
  import opened NostrEvents
  import opened TagIndex
  import opened EventStore
  import opened StoreHistory
  import opened StoreGuarantees
  import opened IndexAgreement
  import opened FilterQuery

  ghost predicate Reached(log: Log) {
    Legal(log) && Persistent(log)
  }

  /** No stored event that the filter matches is missed. */
  ghost predicate Complete(f: Filter) {
    forall log, i | Reached(log) && 0 <= i < |Run(log).rows| ::
      Matches(f, ToNostrEvent(Run(log).rows[i])) ==> Selects(QueryFor(f), Run(log).rows[i], Run(log).tagRows)
  }

  /** No stored event is selected that the filter does not match. */
  ghost predicate Sound(f: Filter) {
    forall log, i | Reached(log) && 0 <= i < |Run(log).rows| ::
      Selects(QueryFor(f), Run(log).rows[i], Run(log).tagRows) ==> Matches(f, ToNostrEvent(Run(log).rows[i]))
  }

  // ---- conditions on a filter ----

  /** Can the criteria other than tags hold of any event that can be stored? */
  predicate ScalarsSatisfiable(f: Filter) {
    && (f.ids.Some? ==> exists p :: p in f.ids.value && |p| <= 64)
    && (f.authors.Some? ==> exists p :: p in f.authors.value && |p| <= 64)
    && (f.kinds.Some? ==> exists k :: k in f.kinds.value && k <= MAX_INT4 && !IsEphemeral(k))
    && (f.since.Some? ==> f.since.value <= MAX_INT4)
    && (f.since.Some? && f.until.Some? ==> f.since.value <= f.until.value)
  }

  predicate Storable(criteria: seq<string>) {
    exists v :: v in criteria && !HasNul(v)
  }

  /** Can the filter match any event that can be stored? */
  predicate Satisfiable(f: Filter) {
    ScalarsSatisfiable(f) && forall i :: 0 <= i < |f.tagQueries| ==> Storable(f.tagQueries[i].criteria)
  }

  /** Is the text the stored form of a string that a column can hold? */
  predicate IsStoredForm(v: string) {
    Stored(Unescape(v)) == v && !HasNul(Unescape(v))
  }

  /** Every criterion that is a stored form comes with the string it is stored
      for. */
  predicate OriginsListed(f: Filter) {
    forall i, v :: 0 <= i < |f.tagQueries| && v in f.tagQueries[i].criteria && IsStoredForm(v) ==>
      Unescape(v) in f.tagQueries[i].criteria
  }

  // ---- rows of reachable tables ----

  /** Every row is an event that was accepted, under an index that speaks for
      it. */
  lemma RowComparable(log: Log, i: nat, f: Filter)
    requires Legal(log) && i < |Run(log).rows| && ValidFilter(f)
    ensures var e := ToNostrEvent(Run(log).rows[i]);
      && Comparable(f, e, Run(log).rows[i], Run(log).tagRows) && Fits(e) && Store(e) in log
      && (Persistent(log) ==> !IsEphemeral(e.kind))
  {
    RunReflects(log);
    var row := Run(log).rows[i];
    var e := EventOf(row, log);
    EventRoundTrip(e, DedupOf(e), row.deleted);
    assert row == StoredRow(e).(deleted := row.deleted);
    forall x: TagRow | x.eventId == row.eventId
      ensures x in Run(log).tagRows <==> x in TagRowsOf(row.eventId, row.tags)
    {
      IndexOfRow(log, i, x);
    }
  }

  lemma RowMeaning(log: Log, i: nat, f: Filter)
    requires Legal(log) && i < |Run(log).rows| && ValidFilter(f)
    ensures Selects(QueryFor(f), Run(log).rows[i], Run(log).tagRows) <==> Finds(f, ToNostrEvent(Run(log).rows[i]))
  {
    RowComparable(log, i, f);
    QueryMeaning(f, ToNostrEvent(Run(log).rows[i]), Run(log).rows[i], Run(log).tagRows);
  }

  lemma StoredInEmpty(e: Event)
    requires Fits(e)
    ensures AfterStore(EMPTY, e).0.rows == [StoredRow(e)]
  {
    KeyedKinds(e);
  }

  lemma RunOne(s: Statement)
    ensures Run([s]) == Executed(EMPTY, s).0
  {
    assert [s][..0] == [];
  }

  lemma LegalAlone(e: Event)
    requires ValidEvent(e)
    ensures Legal([Store(e)])
  {
  }

  /** One event in an empty table. */
  lemma Alone(e: Event)
    requires ValidEvent(e) && Fits(e) && !IsEphemeral(e.kind)
    ensures Reached([Store(e)]) && Run([Store(e)]).rows == [StoredRow(e)]
    ensures ToNostrEvent(StoredRow(e)) == e
  {
    LegalAlone(e);
    RunOne(Store(e));
    StoredInEmpty(e);
    EventRoundTrip(e, DedupOf(e), false);
  }

  lemma AloneAgainstComplete(f: Filter, e: Event)
    requires ValidFilter(f) && ValidEvent(e) && Fits(e) && !IsEphemeral(e.kind)
    ensures Complete(f) && Matches(f, e) ==> Finds(f, e)
    ensures Sound(f) && Finds(f, e) ==> Matches(f, e)
  {
    Alone(e);
    RowMeaning([Store(e)], 0, f);
    AtRow(f, [Store(e)], 0);
  }

  lemma AtRow(f: Filter, log: Log, i: nat)
    requires Reached(log) && i < |Run(log).rows|
    ensures Complete(f) && Matches(f, ToNostrEvent(Run(log).rows[i])) ==>
              Selects(QueryFor(f), Run(log).rows[i], Run(log).tagRows)
    ensures Sound(f) && Selects(QueryFor(f), Run(log).rows[i], Run(log).tagRows) ==>
              Matches(f, ToNostrEvent(Run(log).rows[i]))
  {
  }

  // ---- events for a filter ----

  function Zeros(n: nat): (s: string)
    ensures |s| == n && IsLowerHex(s)
  {
    seq(n, _ => '0')
  }

  /** A full key that starts with some short enough prefix of the list. */
  ghost function KeyFor(prefixes: Option<seq<string>>): (key: string)
    requires ValidPrefixes(prefixes)
    requires prefixes.Some? ==> exists p :: p in prefixes.value && |p| <= 64
    ensures IsKey(key) && (prefixes.Some? ==> HasPrefix(prefixes.value, key))
  {
    if prefixes.None? then Zeros(64)
    else
      var p :| p in prefixes.value && |p| <= 64;
      var i :| 0 <= i < |prefixes.value| && prefixes.value[i] == p;
      assert IsLowerHex(p) && p <= p + Zeros(64 - |p|);
      p + Zeros(64 - |p|)
  }

  ghost function KindFor(kinds: Option<seq<nat>>): (kind: nat)
    requires kinds.Some? ==> exists k :: k in kinds.value && k <= MAX_INT4 && !IsEphemeral(k)
    ensures kind <= MAX_INT4 && !IsEphemeral(kind) && (kinds.Some? ==> kind in kinds.value)
  {
    if kinds.None? then 1
    else var k :| k in kinds.value && k <= MAX_INT4 && !IsEphemeral(k); k
  }

  lemma {:induction false} NoExpiration(tags: seq<Tag>)
    requires forall i :: 0 <= i < |tags| && |tags[i]| >= 2 ==> |tags[i][0]| == 1
    ensures Expiration(tags) == None
  {
    if tags != [] { NoExpiration(tags[1..]); }
    assert tags != [] && |tags[0]| >= 2 ==> |tags[0][0]| != |EXPIRATION_TAG|;
  }

  /** An event with the given tags for which all other criteria hold. */
  ghost function EventFor(f: Filter, tags: seq<Tag>): (e: Event)
    requires ValidFilter(f) && ScalarsSatisfiable(f)
    requires forall i, j :: 0 <= i < |tags| && 0 <= j < |tags[i]| ==> !HasNul(tags[i][j])
    requires forall i :: 0 <= i < |tags| && |tags[i]| >= 2 ==> |tags[i][0]| == 1
    ensures ValidEvent(e) && Fits(e) && !IsEphemeral(e.kind) && MatchesScalars(f, e) && e.tags == tags
  {
    NoExpiration(tags);
    Event(KeyFor(f.ids), KeyFor(f.authors), if f.since.Some? then f.since.value else 0, KindFor(f.kinds), tags, "",
          Zeros(128))
  }

  ghost function TagFor(q: TagQuery): (tag: Tag)
    requires 'a' <= q.name <= 'z' && Storable(q.criteria)
    ensures TagMatches(q, tag) && |tag[0]| == 1 && forall j :: 0 <= j < |tag| ==> !HasNul(tag[j])
  {
    var v :| v in q.criteria && !HasNul(v);
    [[q.name], v]
  }

  lemma MatchedIsSatisfiable(f: Filter, e: Event)
    requires ValidEvent(e) && Fits(e) && !IsEphemeral(e.kind) && MatchesScalars(f, e)
    ensures ScalarsSatisfiable(f)
    ensures Matches(f, e) ==> Satisfiable(f)
  {
    if f.ids.Some? {
      var i :| 0 <= i < |f.ids.value| && f.ids.value[i] <= e.id;
      assert f.ids.value[i] in f.ids.value;
    }
    if f.authors.Some? {
      var i :| 0 <= i < |f.authors.value| && f.authors.value[i] <= e.pubkey;
      assert f.authors.value[i] in f.authors.value;
    }
    if Matches(f, e) {
      forall i | 0 <= i < |f.tagQueries| ensures Storable(f.tagQueries[i].criteria) {
        assert SomeTagMatches(f.tagQueries[i], e.tags);
        var k :| 0 <= k < |e.tags| && TagMatches(f.tagQueries[i], e.tags[k]);
        assert e.tags[k][1] in f.tagQueries[i].criteria && !HasNul(e.tags[k][1]);
      }
    }
  }

  // ---- completeness ----

  lemma {:induction false} LongestBounds(criteria: seq<string>, v: string)
    requires v in criteria
    ensures |v| <= Longest(criteria)
  {
    if v != criteria[|criteria| - 1] {
      assert criteria == criteria[..|criteria| - 1] + [criteria[|criteria| - 1]];
      LongestBounds(criteria[..|criteria| - 1], v);
    }
  }

  function Longest(criteria: seq<string>): nat {
    if criteria == [] then 0
    else
      var rest, n := Longest(criteria[..|criteria| - 1]), |criteria[|criteria| - 1]|;
      if n > rest then n else rest
  }

  lemma StoredHasNoNul(v: string)
    ensures !HasNul(Stored(v))
  {
    StoredHasNoControls(v);
  }

  /** Stored forms of what needs an escape grow, so a finite list of criteria
      with such a string has one whose stored form is not in the list. */
  lemma {:induction false} SomeStoredFormUnlisted(criteria: seq<string>, v: string) returns (w: string)
    requires v in criteria && !HasNul(v) && !Plain(v)
    ensures w in criteria && !HasNul(w) && Stored(w) !in criteria
    decreases Longest(criteria) - |v|
  {
    var next := Stored(v);
    StoredGrows(v);
    StoredHasNoNul(v);
    if next !in criteria {
      w := v;
    } else if Stored(next) !in criteria {
      w := next;
    } else {
      StoredGrows(next);
      StoredHasNoNul(next);
      LongestBounds(criteria, Stored(next));
      w := SomeStoredFormUnlisted(criteria, Stored(next));
    }
  }

  lemma OneTag(q: TagQuery, value: string)
    ensures SomeTagMatches(q, [[[q.name], value]]) <==> value in q.criteria
    ensures SomeTagStoredAs(q, [[[q.name], value]]) <==> Stored(value) in q.criteria
  {
    var tags := [[[q.name], value]];
    assert TagMatches(q, tags[0]) <==> value in q.criteria;
    assert |tags[0]| >= 2 && tags[0][0] == [q.name] && tags[0][1] == value;
  }

  /** A refused statement, or one that asks for two keys of one index row,
      misses even an event that has a tag for every key. */
  lemma NothingFoundMissesSomething(f: Filter)
    requires ValidFilter(f) && Satisfiable(f) && (!Bindable(f) || |f.tagQueries| >= 2)
    ensures !Complete(f)
  {
    var tags := seq(|f.tagQueries|, i requires 0 <= i < |f.tagQueries| => TagFor(f.tagQueries[i]));
    var e := EventFor(f, tags);
    forall i | 0 <= i < |f.tagQueries| ensures SomeTagMatches(f.tagQueries[i], e.tags) {
      assert TagMatches(f.tagQueries[i], e.tags[i]);
    }
    AloneAgainstComplete(f, e);
  }

  lemma EscapedCriterionMissesSomething(f: Filter)
    requires ValidFilter(f) && |f.tagQueries| == 1 && Satisfiable(f) && Bindable(f) && !PlainCriteria(f)
    ensures !Complete(f)
  {
    var q := f.tagQueries[0];
    var v :| v in q.criteria && !Plain(v);
    var w := SomeStoredFormUnlisted(q.criteria, v);
    var e := EventFor(f, [[[q.name], w]]);
    OneTag(q, w);
    AloneAgainstComplete(f, e);
  }

  /** The query misses no stored matching event exactly for the filters that
      nothing stored can match, and for those that the database takes, with at
      most one tag key and no criterion that needs a JSON escape. */
  lemma CompleteExactly(f: Filter)
    requires ValidFilter(f)
    ensures Complete(f) <==> !Satisfiable(f) || (Bindable(f) && |f.tagQueries| <= 1 && PlainCriteria(f))
  {
    if !Satisfiable(f) || (Bindable(f) && |f.tagQueries| <= 1 && PlainCriteria(f)) {
      forall log, i | Reached(log) && 0 <= i < |Run(log).rows| && Matches(f, ToNostrEvent(Run(log).rows[i]))
        ensures Selects(QueryFor(f), Run(log).rows[i], Run(log).tagRows)
      {
        var e := ToNostrEvent(Run(log).rows[i]);
        RowComparable(log, i, f);
        MatchedIsSatisfiable(f, e);
        PlainFinds(f, e);
        RowMeaning(log, i, f);
      }
    } else if !Bindable(f) || |f.tagQueries| >= 2 {
      NothingFoundMissesSomething(f);
    } else {
      EscapedCriterionMissesSomething(f);
    }
  }

  // ---- soundness ----

  lemma ListedOriginsMatch(f: Filter, e: Event)
    requires OriginsListed(f) && Fits(e) && Finds(f, e)
    ensures Matches(f, e)
  {
    if f.tagQueries != [] {
      var q := f.tagQueries[0];
      var i :| 0 <= i < |e.tags| && |e.tags[i]| >= 2 && e.tags[i][0] == [q.name] && Stored(e.tags[i][1]) in q.criteria;
      assert !HasNul(e.tags[i][1]);
      StoredInverse(e.tags[i][1]);
      assert IsStoredForm(Stored(e.tags[i][1]));
      assert TagMatches(q, e.tags[i]);
    }
  }

  lemma UnlistedOriginSelected(f: Filter)
    requires ValidFilter(f) && |f.tagQueries| == 1 && ScalarsSatisfiable(f) && Bindable(f) && !OriginsListed(f)
    ensures !Sound(f)
  {
    var q := f.tagQueries[0];
    var v :| v in q.criteria && IsStoredForm(v) && Unescape(v) !in q.criteria;
    var e := EventFor(f, [[[q.name], Unescape(v)]]);
    OneTag(q, Unescape(v));
    AloneAgainstComplete(f, e);
  }

  /** The query selects no stored event that the filter does not match exactly
      for the filters that select nothing, and for those whose criteria that
      are stored forms come with their origins: a criterion that ends in a
      backslash, say, also selects the tag that ends in a quote instead. */
  lemma SoundExactly(f: Filter)
    requires ValidFilter(f)
    ensures Sound(f) <==> !ScalarsSatisfiable(f) || !Bindable(f) || |f.tagQueries| >= 2 || OriginsListed(f)
  {
    if !ScalarsSatisfiable(f) || !Bindable(f) || |f.tagQueries| >= 2 || OriginsListed(f) {
      forall log, i | Reached(log) && 0 <= i < |Run(log).rows|
        && Selects(QueryFor(f), Run(log).rows[i], Run(log).tagRows)
        ensures Matches(f, ToNostrEvent(Run(log).rows[i]))
      {
        var e := ToNostrEvent(Run(log).rows[i]);
        RowComparable(log, i, f);
        RowMeaning(log, i, f);
        MatchedIsSatisfiable(f, e);
        ListedOriginsMatch(f, e);
      }
    } else {
      UnlistedOriginSelected(f);
    }
  }

  /** The inputs behind both conditions. */
  lemma EscapedQuote()
    ensures Stored("a\"") == "a\\" && IsStoredForm("a\\") && Unescape("a\\") == "a\"" && !Plain("a\"")
  {
    var s := "a\"";
    assert s[1] == '"';
    assert s[..1] == "a" && "a"[..0] == "";
    StoredText(s);
    assert Escape("a") == Escape("") + EscapeChar('a');
    StoredInverse(s);
  }
}
