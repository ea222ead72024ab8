/** `findByFilters`: a subscription filter compiled into a query over bytes and
    the tag index, and what the query means
    (nostream-share/src/repositories/event-repository.ts). */
module FilterQuery {
  import opened Wrappers
  import opened Hex
  import opened NostrEvents
  import opened TagIndex
  import opened EventStore
  import opened StoreHistory

  // ---- queries ----

  datatype Column = EventIdColumn | EventPubkeyColumn

  datatype Cond =
    | Never
    | InList(column: Column, values: seq<seq<Byte>>)
    | PrefixEquals(column: Column, length: nat, bytes: seq<Byte>)
    | PrefixBetween(column: Column, length: nat, low: seq<Byte>, high: seq<Byte>)
    | KindIn(kinds: seq<nat>)
    | CreatedSince(time: nat)
    | CreatedUntil(time: nat)
    | TagIs(name: string, value: string)

  /** Alternatives joined by OR. */
  type Group = seq<Cond>

  /** Groups joined by AND. */
  datatype Query = Query(groups: seq<Group>, joinsTags: bool, limit: nat, newestFirst: bool)

  const DEFAULT_LIMIT: nat := 500

  // ---- compilation ----

  datatype LengthSpec = Exact | Even | Odd

  function SpecOf(prefix: string): LengthSpec {
    if |prefix| == 64 then Exact else if |prefix| % 2 == 0 then Even else Odd
  }

  function OfSpec(prefixes: seq<string>, spec: LengthSpec): (chosen: seq<string>)
    ensures forall p :: p in chosen <==> p in prefixes && SpecOf(p) == spec
  {
    if prefixes == [] then []
    else
      var rest := OfSpec(prefixes[..|prefixes| - 1], spec);
      var last := prefixes[|prefixes| - 1];
      assert prefixes == prefixes[..|prefixes| - 1] + [last];
      if SpecOf(last) == spec then rest + [last] else rest
  }

  function EvenCond(column: Column, prefix: string): Cond {
    PrefixEquals(column, |prefix| / 2, ToBuffer(prefix))
  }

  function OddCond(column: Column, prefix: string): Cond {
    PrefixBetween(column, |prefix| / 2 + 1, ToBuffer(prefix + "0"), ToBuffer(prefix + "f"))
  }

  function Mapped<A, B>(f: A -> B, xs: seq<A>): seq<B> {
    seq(|xs|, i requires 0 <= i < |xs| => f(xs[i]))
  }

  function ExactConds(column: Column, exact: seq<string>): Group {
    if exact == [] then [] else [InList(column, Mapped(ToBuffer, exact))]
  }

  function EvenConds(column: Column, even: seq<string>): (g: Group)
    ensures |g| == |even| && forall i :: 0 <= i < |even| ==> g[i] == EvenCond(column, even[i])
  {
    seq(|even|, i requires 0 <= i < |even| => EvenCond(column, even[i]))
  }

  function OddConds(column: Column, odd: seq<string>): (g: Group)
    ensures |g| == |odd| && forall i :: 0 <= i < |odd| ==> g[i] == OddCond(column, odd[i])
  {
    seq(|odd|, i requires 0 <= i < |odd| => OddCond(column, odd[i]))
  }

  function PrefixGroup(column: Column, prefixes: seq<string>): Group {
    ExactConds(column, OfSpec(prefixes, Exact))
    + EvenConds(column, OfSpec(prefixes, Even))
    + OddConds(column, OfSpec(prefixes, Odd))
  }

  /** An absent list adds nothing, an empty one can never hold. */
  function PrefixGroups(column: Column, prefixes: Option<seq<string>>): seq<Group> {
    match prefixes
    case None => []
    case Some(ps) => if ps == [] then [[Never]] else [PrefixGroup(column, ps)]
  }

  function ScalarGroups(f: Filter): seq<Group> {
    PrefixGroups(EventPubkeyColumn, f.authors)
    + PrefixGroups(EventIdColumn, f.ids)
    + (if f.kinds.Some? then [[KindIn(f.kinds.value)]] else [])
    + (if f.since.Some? then [[CreatedSince(f.since.value)]] else [])
    + (if f.until.Some? then [[CreatedUntil(f.until.value)]] else [])
  }

  function TagGroup(q: TagQuery): Group {
    if q.criteria == [] then [Never] else Mapped(v => TagIs([q.name], v), q.criteria)
  }

  function QueryFor(f: Filter): Query {
    Query(ScalarGroups(f) + Mapped(TagGroup, f.tagQueries),
          f.tagQueries != [],
          if f.limit.Some? then f.limit.value else DEFAULT_LIMIT,
          f.limit.Some?)
  }

  method AddEven(group: Group, column: Column, even: seq<string>) returns (r: Group)
    ensures r == group + EvenConds(column, even)
  {
    r := group;
    for k := 0 to |even|
      invariant r == group + EvenConds(column, even[..k])
    {
      r := r + [EvenCond(column, even[k])];
    }
    assert even[..|even|] == even;
  }

  method AddOdd(group: Group, column: Column, odd: seq<string>) returns (r: Group)
    ensures r == group + OddConds(column, odd)
  {
    r := group;
    for k := 0 to |odd|
      invariant r == group + OddConds(column, odd[..k])
    {
      r := r + [OddCond(column, odd[k])];
    }
    assert odd[..|odd|] == odd;
  }

  /** The condition on one list of prefixes: all equalities in one list, then
      the even prefixes, then the odd ones. */
  method CompilePrefixes(column: Column, prefixes: Option<seq<string>>) returns (groups: seq<Group>)
    ensures groups == PrefixGroups(column, prefixes)
  {
    if prefixes.None? {
      return [];
    }
    if prefixes.value == [] {
      return [[Never]];
    }
    var group := ExactConds(column, OfSpec(prefixes.value, Exact));
    group := AddEven(group, column, OfSpec(prefixes.value, Even));
    group := AddOdd(group, column, OfSpec(prefixes.value, Odd));
    groups := [group];
  }

  method CompileScalars(f: Filter) returns (groups: seq<Group>)
    ensures groups == ScalarGroups(f)
  {
    groups := CompilePrefixes(EventPubkeyColumn, f.authors);
    var ids := CompilePrefixes(EventIdColumn, f.ids);
    groups := groups + ids;
    if f.kinds.Some? {
      groups := groups + [[KindIn(f.kinds.value)]];
    }
    if f.since.Some? {
      groups := groups + [[CreatedSince(f.since.value)]];
    }
    if f.until.Some? {
      groups := groups + [[CreatedUntil(f.until.value)]];
    }
  }

  /** The builder of one filter. */
  method Compile(f: Filter) returns (query: Query)
    ensures query == QueryFor(f)
  {
    var groups := CompileScalars(f);
    var limit, newestFirst := DEFAULT_LIMIT, false;
    if f.limit.Some? {
      limit, newestFirst := f.limit.value, true;
    }
    var isTagQuery := false;
    for k := 0 to |f.tagQueries|
      invariant groups == ScalarGroups(f) + Mapped(TagGroup, f.tagQueries[..k])
      invariant isTagQuery <==> k > 0
    {
      isTagQuery := true;
      groups := groups + [TagGroup(f.tagQueries[k])];
    }
    assert f.tagQueries[..|f.tagQueries|] == f.tagQueries;
    query := Query(groups, isTagQuery, limit, newestFirst);
  }

  method FindByFilters(filters: seq<Filter>) returns (r: Result<seq<Query>, string>)
    ensures filters == [] ==> r.Err?
    ensures filters != [] ==> r == Ok(Mapped(QueryFor, filters))
  {
    if filters == [] {
      return Err("Filters cannot be empty");
    }
    var queries: seq<Query> := [];
    for k := 0 to |filters|
      invariant queries == Mapped(QueryFor, filters[..k])
    {
      var query := Compile(filters[k]);
      queries := queries + [query];
    }
    assert filters[..|filters|] == filters;
    r := Ok(queries);
  }

  // ---- meaning of a query ----

  function ColumnOf(column: Column, row: Row): seq<Byte> {
    match column
    case EventIdColumn => row.eventId
    case EventPubkeyColumn => row.pubkey
  }

  /** A condition on a row joined with a row of the tag index, or with none. */
  predicate CondHolds(c: Cond, row: Row, tag: Option<TagRow>) {
    match c
    case Never => false
    case InList(column, values) => ColumnOf(column, row) in values
    case PrefixEquals(column, n, value) => Substring(ColumnOf(column, row), n) == value
    case PrefixBetween(column, n, low, high) => Between(Substring(ColumnOf(column, row), n), low, high)
    case KindIn(kinds) => row.kind in kinds
    case CreatedSince(time) => time <= row.createdAt
    case CreatedUntil(time) => row.createdAt <= time
    case TagIs(name, value) => tag.Some? && tag.value.name == name && tag.value.value == value
  }

  predicate GroupHolds(g: Group, row: Row, tag: Option<TagRow>) {
    exists i :: 0 <= i < |g| && CondHolds(g[i], row, tag)
  }

  predicate WhereHolds(groups: seq<Group>, row: Row, tag: Option<TagRow>) {
    forall i :: 0 <= i < |groups| ==> GroupHolds(groups[i], row, tag)
  }

  /** Does the left join with the tag index put this row beside that one? */
  predicate Joined(row: Row, tagRows: seq<TagRow>, tag: Option<TagRow>) {
    match tag
    case Some(x) => x in tagRows && x.eventId == row.eventId
    case None => forall x :: x in tagRows ==> x.eventId != row.eventId
  }

  /** Does every parameter take the type of its column: a four-byte integer, or
      text without NUL? */
  predicate CondBinds(c: Cond) {
    match c
    case KindIn(kinds) => forall kind :: kind in kinds ==> kind <= MAX_INT4
    case CreatedSince(time) => time <= MAX_INT4
    case CreatedUntil(time) => time <= MAX_INT4
    case TagIs(_, value) => !HasNul(value)
    case _ => true
  }

  predicate GroupBinds(g: Group) {
    forall i :: 0 <= i < |g| ==> CondBinds(g[i])
  }

  predicate GroupsBind(groups: seq<Group>) {
    forall i :: 0 <= i < |groups| ==> GroupBinds(groups[i])
  }

  /** The database refuses the whole statement for one parameter that it cannot
      bind; then nothing is selected. */
  ghost predicate Selects(q: Query, row: Row, tagRows: seq<TagRow>) {
    && GroupsBind(q.groups)
    && if q.joinsTags then exists tag :: Joined(row, tagRows, tag) && WhereHolds(q.groups, row, tag)
       else WhereHolds(q.groups, row, None)
  }

  /** The index rows under the row's identifier are the row's own; this holds
      in every reachable table. */
  ghost predicate IndexSpeaks(tagRows: seq<TagRow>, row: Row) {
    forall x: TagRow :: x.eventId == row.eventId ==> (x in tagRows <==> x in TagRowsOf(row.eventId, row.tags))
  }

  // ---- scalar criteria ----

  lemma GroupAppend(a: Group, b: Group, row: Row, tag: Option<TagRow>)
    ensures GroupHolds(a + b, row, tag) <==> GroupHolds(a, row, tag) || GroupHolds(b, row, tag)
  {
    if GroupHolds(a, row, tag) {
      var i :| 0 <= i < |a| && CondHolds(a[i], row, tag);
      assert (a + b)[i] == a[i];
    }
    if GroupHolds(b, row, tag) {
      var i :| 0 <= i < |b| && CondHolds(b[i], row, tag);
      assert (a + b)[|a| + i] == b[i];
    }
  }

  ghost predicate AnyPrefix(prefixes: seq<string>, input: string) {
    exists p :: p in prefixes && p <= input
  }

  lemma ExactCondsMeaning(column: Column, ps: seq<string>, row: Row, tag: Option<TagRow>)
    requires forall p :: p in ps ==> IsLowerHex(p) && |p| == 64
    requires |ColumnOf(column, row)| == 32
    ensures GroupHolds(ExactConds(column, ps), row, tag) <==> AnyPrefix(ps, FromBuffer(ColumnOf(column, row)))
  {
    var bytes, values := ColumnOf(column, row), Mapped(ToBuffer, ps);
    forall p | p in ps ensures bytes == ToBuffer(p) <==> p <= FromBuffer(bytes) {
      ExactPrefix(p, bytes);
    }
    forall k | 0 <= k < |ps| ensures values[k] == ToBuffer(ps[k]) && ps[k] in ps {}
    if ps != [] {
      assert GroupHolds([InList(column, values)], row, tag) <==> CondHolds([InList(column, values)][0], row, tag);
    }
    if AnyPrefix(ps, FromBuffer(bytes)) {
      var p :| p in ps && p <= FromBuffer(bytes);
      var k :| 0 <= k < |ps| && ps[k] == p;
      assert values[k] == bytes;
    }
  }

  lemma CondsAsPrefixes(g: Group, ps: seq<string>, input: string, row: Row, tag: Option<TagRow>)
    requires |g| == |ps|
    requires forall k :: 0 <= k < |ps| ==> (CondHolds(g[k], row, tag) <==> ps[k] <= input)
    ensures GroupHolds(g, row, tag) <==> AnyPrefix(ps, input)
  {
    if AnyPrefix(ps, input) {
      var p :| p in ps && p <= input;
      var k :| 0 <= k < |ps| && ps[k] == p;
      assert CondHolds(g[k], row, tag);
    }
    if GroupHolds(g, row, tag) {
      var k :| 0 <= k < |g| && CondHolds(g[k], row, tag);
      assert ps[k] in ps;
    }
  }

  lemma EvenCondMeaning(column: Column, p: string, row: Row, tag: Option<TagRow>)
    requires IsLowerHex(p) && |p| % 2 == 0
    ensures CondHolds(EvenCond(column, p), row, tag) <==> p <= FromBuffer(ColumnOf(column, row))
  {
    EvenPrefix(p, ColumnOf(column, row));
  }

  lemma OddCondMeaning(column: Column, p: string, row: Row, tag: Option<TagRow>)
    requires IsLowerHex(p) && |p| % 2 == 1
    ensures CondHolds(OddCond(column, p), row, tag) <==> p <= FromBuffer(ColumnOf(column, row))
  {
    OddPrefix(p, ColumnOf(column, row));
  }

  lemma EvenCondsMeaning(column: Column, ps: seq<string>, row: Row, tag: Option<TagRow>)
    requires forall k :: 0 <= k < |ps| ==> IsLowerHex(ps[k]) && |ps[k]| % 2 == 0
    ensures GroupHolds(EvenConds(column, ps), row, tag) <==> AnyPrefix(ps, FromBuffer(ColumnOf(column, row)))
  {
    var g, input := EvenConds(column, ps), FromBuffer(ColumnOf(column, row));
    forall k | 0 <= k < |ps| ensures CondHolds(g[k], row, tag) <==> ps[k] <= input {
      EvenCondMeaning(column, ps[k], row, tag);
    }
    CondsAsPrefixes(g, ps, input, row, tag);
  }

  lemma OddCondsMeaning(column: Column, ps: seq<string>, row: Row, tag: Option<TagRow>)
    requires forall k :: 0 <= k < |ps| ==> IsLowerHex(ps[k]) && |ps[k]| % 2 == 1
    ensures GroupHolds(OddConds(column, ps), row, tag) <==> AnyPrefix(ps, FromBuffer(ColumnOf(column, row)))
  {
    var g, input := OddConds(column, ps), FromBuffer(ColumnOf(column, row));
    forall k | 0 <= k < |ps| ensures CondHolds(g[k], row, tag) <==> ps[k] <= input {
      var c := g[k];
      assert c == OddCond(column, ps[k]);
      OddCondMeaning(column, ps[k], row, tag);
    }
    CondsAsPrefixes(g, ps, input, row, tag);
  }

  lemma SpecsAreValid(prefixes: seq<string>)
    requires ValidPrefixes(Some(prefixes))
    ensures forall p :: p in OfSpec(prefixes, Exact) ==> IsLowerHex(p) && |p| == 64
    ensures forall k :: 0 <= k < |OfSpec(prefixes, Even)| ==>
              IsLowerHex(OfSpec(prefixes, Even)[k]) && |OfSpec(prefixes, Even)[k]| % 2 == 0
    ensures forall k :: 0 <= k < |OfSpec(prefixes, Odd)| ==>
              IsLowerHex(OfSpec(prefixes, Odd)[k]) && |OfSpec(prefixes, Odd)[k]| % 2 == 1
  {
    assert forall k :: 0 <= k < |OfSpec(prefixes, Even)| ==> OfSpec(prefixes, Even)[k] in OfSpec(prefixes, Even);
    assert forall k :: 0 <= k < |OfSpec(prefixes, Odd)| ==> OfSpec(prefixes, Odd)[k] in OfSpec(prefixes, Odd);
  }

  lemma SpecsCover(prefixes: seq<string>, input: string)
    ensures HasPrefix(prefixes, input) <==>
            AnyPrefix(OfSpec(prefixes, Exact), input) || AnyPrefix(OfSpec(prefixes, Even), input)
            || AnyPrefix(OfSpec(prefixes, Odd), input)
  {
    if HasPrefix(prefixes, input) {
      var i :| 0 <= i < |prefixes| && prefixes[i] <= input;
      assert prefixes[i] in OfSpec(prefixes, SpecOf(prefixes[i]));
    }
  }

  /** One list of prefixes, however its lengths mix, is the string-prefix test. */
  lemma PrefixGroupMeaning(column: Column, prefixes: seq<string>, row: Row, tag: Option<TagRow>)
    requires ValidPrefixes(Some(prefixes)) && |ColumnOf(column, row)| == 32
    ensures GroupHolds(PrefixGroup(column, prefixes), row, tag) <==>
            HasPrefix(prefixes, FromBuffer(ColumnOf(column, row)))
  {
    var exact, even, odd := OfSpec(prefixes, Exact), OfSpec(prefixes, Even), OfSpec(prefixes, Odd);
    SpecsAreValid(prefixes);
    ExactCondsMeaning(column, exact, row, tag);
    EvenCondsMeaning(column, even, row, tag);
    OddCondsMeaning(column, odd, row, tag);
    GroupAppend(ExactConds(column, exact), EvenConds(column, even), row, tag);
    GroupAppend(ExactConds(column, exact) + EvenConds(column, even), OddConds(column, odd), row, tag);
    SpecsCover(prefixes, FromBuffer(ColumnOf(column, row)));
  }

  /** A list of prefixes compiles into the string-prefix test. */
  lemma PrefixGroupsMeaning(column: Column, prefixes: Option<seq<string>>, row: Row, tag: Option<TagRow>)
    requires ValidPrefixes(prefixes) && |ColumnOf(column, row)| == 32
    ensures WhereHolds(PrefixGroups(column, prefixes), row, tag) <==>
            (prefixes.Some? ==> HasPrefix(prefixes.value, FromBuffer(ColumnOf(column, row))))
  {
    if prefixes.Some? {
      var groups := PrefixGroups(column, prefixes);
      assert WhereHolds(groups, row, tag) <==> GroupHolds(groups[0], row, tag);
      if prefixes.value != [] {
        PrefixGroupMeaning(column, prefixes.value, row, tag);
      }
    }
  }

  lemma WhereAppend(a: seq<Group>, b: seq<Group>, row: Row, tag: Option<TagRow>)
    ensures WhereHolds(a + b, row, tag) <==> WhereHolds(a, row, tag) && WhereHolds(b, row, tag)
  {
    if WhereHolds(a + b, row, tag) {
      forall i | 0 <= i < |a| ensures GroupHolds(a[i], row, tag) { assert (a + b)[i] == a[i]; }
      forall i | 0 <= i < |b| ensures GroupHolds(b[i], row, tag) { assert (a + b)[|a| + i] == b[i]; }
    }
  }

  lemma SingleCond(c: Cond, row: Row, tag: Option<TagRow>)
    ensures WhereHolds([[c]], row, tag) <==> CondHolds(c, row, tag)
  {
    assert [[c]][0] == [c] && [c][0] == c;
    assert WhereHolds([[c]], row, tag) <==> GroupHolds([c], row, tag);
  }

  /** The scalar part of the WHERE clause, on the row of an event, is the
      scalar part of the direct test on the event. */
  lemma ScalarMeaning(f: Filter, e: Event, row: Row, tag: Option<TagRow>)
    requires ValidFilter(f) && ValidEvent(e) && ToNostrEvent(row) == e
    ensures WhereHolds(ScalarGroups(f), row, tag) <==> MatchesScalars(f, e)
  {
    var authors, ids := PrefixGroups(EventPubkeyColumn, f.authors), PrefixGroups(EventIdColumn, f.ids);
    var kinds := if f.kinds.Some? then [[KindIn(f.kinds.value)]] else [];
    var since := if f.since.Some? then [[CreatedSince(f.since.value)]] else [];
    var until := if f.until.Some? then [[CreatedUntil(f.until.value)]] else [];
    WhereAppend(authors, ids, row, tag);
    WhereAppend(authors + ids, kinds, row, tag);
    WhereAppend(authors + ids + kinds, since, row, tag);
    WhereAppend(authors + ids + kinds + since, until, row, tag);
    PrefixGroupsMeaning(EventPubkeyColumn, f.authors, row, tag);
    PrefixGroupsMeaning(EventIdColumn, f.ids, row, tag);
    if f.kinds.Some? { SingleCond(KindIn(f.kinds.value), row, tag); }
    if f.since.Some? { SingleCond(CreatedSince(f.since.value), row, tag); }
    if f.until.Some? { SingleCond(CreatedUntil(f.until.value), row, tag); }
  }

  // ---- tag criteria ----

  lemma TagGroupMeaning(q: TagQuery, row: Row, tag: Option<TagRow>)
    ensures GroupHolds(TagGroup(q), row, tag) <==> TagFits(q, tag)
  {
    var g := TagGroup(q);
    if q.criteria != [] {
      assert forall i :: 0 <= i < |g| ==> g[i] == TagIs([q.name], q.criteria[i]);
      if tag.Some? && tag.value.name == [q.name] && tag.value.value in q.criteria {
        var i :| 0 <= i < |q.criteria| && q.criteria[i] == tag.value.value;
        assert CondHolds(g[i], row, tag);
      }
    }
  }

  ghost predicate TagFits(q: TagQuery, tag: Option<TagRow>) {
    tag.Some? && tag.value.name == [q.name] && tag.value.value in q.criteria
  }

  lemma TagFitsOneKey(p: TagQuery, q: TagQuery, tag: Option<TagRow>)
    requires TagFits(p, tag) && TagFits(q, tag)
    ensures p.name == q.name
  {
    assert [p.name][0] == [q.name][0];
  }

  lemma TagGroupsMeaning(queries: seq<TagQuery>, row: Row, tag: Option<TagRow>)
    ensures WhereHolds(Mapped(TagGroup, queries), row, tag) <==>
            forall i :: 0 <= i < |queries| ==> TagFits(queries[i], tag)
  {
    var groups := Mapped(TagGroup, queries);
    forall i | 0 <= i < |queries|
      ensures GroupHolds(groups[i], row, tag) <==> TagFits(queries[i], tag)
    {
      TagGroupMeaning(queries[i], row, tag);
    }
    if WhereHolds(groups, row, tag) {
      forall i | 0 <= i < |queries| ensures TagFits(queries[i], tag) {
        assert GroupHolds(groups[i], row, tag);
      }
    }
  }

  // ---- statements that the database takes ----

  /** Kinds and times that four bytes hold, and criteria without NUL. */
  predicate Bindable(f: Filter) {
    && (f.kinds.Some? ==> forall kind :: kind in f.kinds.value ==> kind <= MAX_INT4)
    && (f.since.Some? ==> f.since.value <= MAX_INT4)
    && (f.until.Some? ==> f.until.value <= MAX_INT4)
    && forall i, v :: 0 <= i < |f.tagQueries| && v in f.tagQueries[i].criteria ==> !HasNul(v)
  }

  lemma BindAppend(a: seq<Group>, b: seq<Group>)
    ensures GroupsBind(a + b) <==> GroupsBind(a) && GroupsBind(b)
  {
    if GroupsBind(a + b) {
      forall i | 0 <= i < |a| ensures GroupBinds(a[i]) { assert (a + b)[i] == a[i]; }
      forall i | 0 <= i < |b| ensures GroupBinds(b[i]) { assert (a + b)[|a| + i] == b[i]; }
    }
  }

  lemma BindSingle(c: Cond)
    ensures GroupsBind([[c]]) <==> CondBinds(c)
  {
    assert [[c]][0] == [c] && [c][0] == c;
    assert GroupsBind([[c]]) <==> GroupBinds([c]);
  }

  /** Prefixes are bytes, which always bind. */
  lemma PrefixGroupsBind(column: Column, prefixes: Option<seq<string>>)
    ensures GroupsBind(PrefixGroups(column, prefixes))
  {
  }

  lemma ScalarsBind(f: Filter)
    ensures GroupsBind(ScalarGroups(f)) <==> Bindable(f.(tagQueries := []))
  {
    var authors, ids := PrefixGroups(EventPubkeyColumn, f.authors), PrefixGroups(EventIdColumn, f.ids);
    var kinds := if f.kinds.Some? then [[KindIn(f.kinds.value)]] else [];
    var since := if f.since.Some? then [[CreatedSince(f.since.value)]] else [];
    var until := if f.until.Some? then [[CreatedUntil(f.until.value)]] else [];
    BindAppend(authors, ids);
    BindAppend(authors + ids, kinds);
    BindAppend(authors + ids + kinds, since);
    BindAppend(authors + ids + kinds + since, until);
    PrefixGroupsBind(EventPubkeyColumn, f.authors);
    PrefixGroupsBind(EventIdColumn, f.ids);
    if f.kinds.Some? { BindSingle(KindIn(f.kinds.value)); }
    if f.since.Some? { BindSingle(CreatedSince(f.since.value)); }
    if f.until.Some? { BindSingle(CreatedUntil(f.until.value)); }
  }

  lemma TagGroupBinds(q: TagQuery)
    ensures GroupBinds(TagGroup(q)) <==> forall v :: v in q.criteria ==> !HasNul(v)
  {
    if q.criteria != [] {
      var g := TagGroup(q);
      assert forall i :: 0 <= i < |g| ==> g[i] == TagIs([q.name], q.criteria[i]);
      forall v | v in q.criteria && GroupBinds(g) ensures !HasNul(v) {
        var i :| 0 <= i < |q.criteria| && q.criteria[i] == v;
        assert CondBinds(g[i]);
      }
    }
  }

  lemma TagGroupsBind(queries: seq<TagQuery>)
    ensures GroupsBind(Mapped(TagGroup, queries)) <==>
            forall i, v :: 0 <= i < |queries| && v in queries[i].criteria ==> !HasNul(v)
  {
    var groups := Mapped(TagGroup, queries);
    forall i | 0 <= i < |queries|
      ensures GroupBinds(groups[i]) <==> forall v :: v in queries[i].criteria ==> !HasNul(v)
    {
      TagGroupBinds(queries[i]);
    }
  }

  /** The database takes the statement exactly for the filters whose numbers
      and criteria the columns could hold. */
  lemma BindsExactly(f: Filter)
    ensures GroupsBind(QueryFor(f).groups) <==> Bindable(f)
  {
    BindAppend(ScalarGroups(f), Mapped(TagGroup, f.tagQueries));
    ScalarsBind(f);
    TagGroupsBind(f.tagQueries);
  }

  // ---- the meaning of the whole query ----

  /** Some tag of this name has a value whose stored form is asked for. */
  predicate SomeTagStoredAs(q: TagQuery, tags: seq<Tag>) {
    exists i :: 0 <= i < |tags| && |tags[i]| >= 2 && tags[i][0] == [q.name] && Stored(tags[i][1]) in q.criteria
  }

  /** What the query finds of an event: as the direct test, but tag values are
      compared as they are stored, two tag keys find nothing, and neither does
      a statement that the database refuses. */
  predicate Finds(f: Filter, e: Event) {
    && Bindable(f) && MatchesScalars(f, e)
    && (f.tagQueries == [] || (|f.tagQueries| == 1 && SomeTagStoredAs(f.tagQueries[0], e.tags)))
  }

  predicate AllBindable(filters: seq<Filter>) {
    forall i :: 0 <= i < |filters| ==> Bindable(filters[i])
  }

  /** What the union of the queries of several filters finds: it is one
      statement. */
  predicate FindsAny(filters: seq<Filter>, e: Event) {
    AllBindable(filters) && exists i :: 0 <= i < |filters| && Finds(filters[i], e)
  }

  ghost predicate Comparable(f: Filter, e: Event, row: Row, tagRows: seq<TagRow>) {
    ValidFilter(f) && ValidEvent(e) && ToNostrEvent(row) == e && IndexSpeaks(tagRows, row)
  }

  lemma TagJoined(q: TagQuery, row: Row, tagRows: seq<TagRow>)
    requires 'a' <= q.name <= 'z' && "" !in q.criteria && IndexSpeaks(tagRows, row)
    ensures (exists tag :: Joined(row, tagRows, tag) && TagFits(q, tag)) <==> SomeTagStoredAs(q, row.tags)
  {
    var id, tags, name := row.eventId, row.tags, [q.name];
    forall s ensures Stored(s) == name <==> s == name {
      StoredPlain(s, name);
    }
    if exists tag :: Joined(row, tagRows, tag) && TagFits(q, tag) {
      var tag :| Joined(row, tagRows, tag) && TagFits(q, tag);
      TagRowsStored(id, tags, name, tag.value.value);
      assert tag.value == TagRow(id, name, tag.value.value);
    }
    if SomeTagStoredAs(q, tags) {
      var i :| 0 <= i < |tags| && |tags[i]| >= 2 && tags[i][0] == name && Stored(tags[i][1]) in q.criteria;
      var x := TagRow(id, name, Stored(tags[i][1]));
      TagRowsStored(id, tags, name, x.value);
      assert Joined(row, tagRows, Some(x)) && TagFits(q, Some(x));
    }
  }

  /** Two tag keys constrain the same index row, so together they select
      nothing. */
  lemma TwoTagKeysSelectNothing(f: Filter, row: Row, tagRows: seq<TagRow>)
    requires ValidFilter(f) && |f.tagQueries| >= 2
    ensures !Selects(QueryFor(f), row, tagRows)
  {
    var scalars, tags := ScalarGroups(f), Mapped(TagGroup, f.tagQueries);
    forall tag ensures !WhereHolds(scalars + tags, row, tag) {
      WhereAppend(scalars, tags, row, tag);
      TagGroupsMeaning(f.tagQueries, row, tag);
      if TagFits(f.tagQueries[0], tag) && TagFits(f.tagQueries[1], tag) {
        TagFitsOneKey(f.tagQueries[0], f.tagQueries[1], tag);
      }
    }
  }

  lemma ClauseMeaning(f: Filter, e: Event, row: Row, tag: Option<TagRow>)
    requires ValidFilter(f) && ValidEvent(e) && ToNostrEvent(row) == e
    ensures WhereHolds(QueryFor(f).groups, row, tag) <==>
            MatchesScalars(f, e) && forall i :: 0 <= i < |f.tagQueries| ==> TagFits(f.tagQueries[i], tag)
  {
    WhereAppend(ScalarGroups(f), Mapped(TagGroup, f.tagQueries), row, tag);
    ScalarMeaning(f, e, row, tag);
    TagGroupsMeaning(f.tagQueries, row, tag);
  }

  lemma OneKeyMeaning(f: Filter, e: Event, row: Row, tagRows: seq<TagRow>)
    requires Comparable(f, e, row, tagRows) && |f.tagQueries| == 1
    ensures Selects(QueryFor(f), row, tagRows) <==>
            GroupsBind(QueryFor(f).groups) && MatchesScalars(f, e) && SomeTagStoredAs(f.tagQueries[0], e.tags)
  {
    TagJoined(f.tagQueries[0], row, tagRows);
    forall tag ensures WhereHolds(QueryFor(f).groups, row, tag) <==>
                       MatchesScalars(f, e) && TagFits(f.tagQueries[0], tag)
    {
      ClauseMeaning(f, e, row, tag);
    }
  }

  /** What the statement selects, for every filter and every event. */
  lemma QueryMeaning(f: Filter, e: Event, row: Row, tagRows: seq<TagRow>)
    requires Comparable(f, e, row, tagRows)
    ensures Selects(QueryFor(f), row, tagRows) <==> Finds(f, e)
  {
    BindsExactly(f);
    if f.tagQueries == [] {
      ClauseMeaning(f, e, row, None);
    } else if |f.tagQueries| == 1 {
      OneKeyMeaning(f, e, row, tagRows);
    } else {
      TwoTagKeysSelectNothing(f, row, tagRows);
    }
  }

  // ---- the query and the direct predicate ----

  /** No criterion of the filter needs a JSON escape. */
  predicate PlainCriteria(f: Filter) {
    forall i, v :: 0 <= i < |f.tagQueries| && v in f.tagQueries[i].criteria ==> Plain(v)
  }

  lemma PlainTagStoredAs(q: TagQuery, tags: seq<Tag>)
    requires forall v :: v in q.criteria ==> Plain(v)
    ensures SomeTagStoredAs(q, tags) <==> SomeTagMatches(q, tags)
  {
    forall s ensures Stored(s) in q.criteria <==> s in q.criteria {
      if Stored(s) in q.criteria { StoredPlain(s, Stored(s)); }
      if s in q.criteria { StoredPlain(s, s); }
    }
    if SomeTagStoredAs(q, tags) {
      var i :| 0 <= i < |tags| && |tags[i]| >= 2 && tags[i][0] == [q.name] && Stored(tags[i][1]) in q.criteria;
      assert TagMatches(q, tags[i]);
    }
    if SomeTagMatches(q, tags) {
      var i :| 0 <= i < |tags| && TagMatches(q, tags[i]);
      assert Stored(tags[i][1]) in q.criteria;
    }
  }

  lemma PlainFinds(f: Filter, e: Event)
    requires PlainCriteria(f)
    ensures Finds(f, e) <==> Bindable(f) && Matches(f, e) && |f.tagQueries| <= 1
  {
    if |f.tagQueries| == 1 {
      PlainTagStoredAs(f.tagQueries[0], e.tags);
    }
  }

  /** Filters that the database takes, whose criteria are plain, each with at
      most one tag key, find what they match. */
  lemma PlainFiltersFind(filters: seq<Filter>, e: Event)
    requires AllBindable(filters)
    requires forall i :: 0 <= i < |filters| ==> PlainCriteria(filters[i]) && |filters[i].tagQueries| <= 1
    ensures FindsAny(filters, e) <==> MatchesAny(filters, e)
  {
    forall i | 0 <= i < |filters| ensures Finds(filters[i], e) <==> Matches(filters[i], e) {
      PlainFinds(filters[i], e);
    }
  }

  /** With plain criteria, whatever the query selects satisfies the direct
      predicate, whatever the event's tags hold. */
  lemma QuerySound(f: Filter, e: Event, row: Row, tagRows: seq<TagRow>)
    requires Comparable(f, e, row, tagRows) && PlainCriteria(f) && Selects(QueryFor(f), row, tagRows)
    ensures Matches(f, e)
  {
    QueryMeaning(f, e, row, tagRows);
    PlainFinds(f, e);
  }

  /** With plain criteria under at most one tag key, every row that satisfies
      the direct predicate is selected, exactly when the database takes the
      statement. */
  lemma QueryComplete(f: Filter, e: Event, row: Row, tagRows: seq<TagRow>)
    requires Comparable(f, e, row, tagRows) && PlainCriteria(f) && |f.tagQueries| <= 1 && Matches(f, e)
    ensures Selects(QueryFor(f), row, tagRows) <==> Bindable(f)
  {
    QueryMeaning(f, e, row, tagRows);
    PlainFinds(f, e);
  }

  /** What escaping does to one tag key: an event that the direct predicate
      matches is missed exactly when the database refuses the statement or no
      tag of that name is asked for in its stored form. */
  lemma EscapedTagIsMissed(f: Filter, e: Event, row: Row, tagRows: seq<TagRow>)
    requires Comparable(f, e, row, tagRows) && |f.tagQueries| == 1 && Matches(f, e)
    ensures !Selects(QueryFor(f), row, tagRows) <==>
            || !Bindable(f)
            || forall i :: 0 <= i < |e.tags| && |e.tags[i]| >= 2 && e.tags[i][0] == [f.tagQueries[0].name] ==>
                 Stored(e.tags[i][1]) !in f.tagQueries[0].criteria
  {
    QueryMeaning(f, e, row, tagRows);
  }
}
