/** Events, subscription filters and the direct matching predicate
    (nostream-share/src/utils/event.ts, NIP-01 "Communication between clients
    and relays" and NIP-12). */
module NostrEvents {
  import opened Wrappers
  import opened Hex

  type Tag = seq<string>

  datatype Event = Event(
    id: string, pubkey: string, createdAt: nat, kind: nat,
    tags: seq<Tag>, content: string, sig: string)

  /** One `#x` criterion of a filter. */
  datatype TagQuery = TagQuery(name: char, criteria: seq<string>)

  datatype Filter = Filter(
    ids: Option<seq<string>>, authors: Option<seq<string>>, kinds: Option<seq<nat>>,
    since: Option<nat>, until: Option<nat>, limit: Option<nat>, tagQueries: seq<TagQuery>)

  // ---- what the message schemas admit ----

  predicate IsKey(s: string) {
    |s| == 64 && IsLowerHex(s)
  }

  predicate ValidEvent(e: Event) {
    IsKey(e.id) && IsKey(e.pubkey) && |e.sig| == 128 && IsLowerHex(e.sig)
  }

  /** The schema asks for 4 to 64 lower-case hexadecimal digits; nothing below
      needs the bounds on the length. */
  predicate ValidPrefixes(prefixes: Option<seq<string>>) {
    prefixes.Some? ==> forall i :: 0 <= i < |prefixes.value| ==> IsLowerHex(prefixes.value[i])
  }

  /** Tag keys are one lower-case letter and appear once, criteria are
      non-empty strings. */
  predicate ValidFilter(f: Filter) {
    && ValidPrefixes(f.ids) && ValidPrefixes(f.authors)
    && (forall i :: 0 <= i < |f.tagQueries| ==> 'a' <= f.tagQueries[i].name <= 'z')
    && (forall i, j :: 0 <= i < j < |f.tagQueries| ==> f.tagQueries[i].name != f.tagQueries[j].name)
    && (forall i :: 0 <= i < |f.tagQueries| ==> "" !in f.tagQueries[i].criteria)
  }

  predicate ValidFilters(filters: seq<Filter>) {
    forall i :: 0 <= i < |filters| ==> ValidFilter(filters[i])
  }

  // ---- kinds ----

  const SET_METADATA: nat := 0
  const CONTACT_LIST: nat := 3
  const DELETE: nat := 5
  const CHANNEL_METADATA: nat := 41
  const REPLACEABLE_FIRST: nat := 10000
  const REPLACEABLE_LAST: nat := 19999
  const EPHEMERAL_FIRST: nat := 20000
  const AUTH: nat := 22242
  const EPHEMERAL_LAST: nat := 29999
  const PARAMETERIZED_REPLACEABLE_FIRST: nat := 30000
  const PARAMETERIZED_REPLACEABLE_LAST: nat := 39999

  predicate IsReplaceable(kind: nat) {
    kind == SET_METADATA || kind == CONTACT_LIST || kind == CHANNEL_METADATA
    || REPLACEABLE_FIRST <= kind <= REPLACEABLE_LAST
  }

  predicate IsEphemeral(kind: nat) {
    EPHEMERAL_FIRST <= kind <= EPHEMERAL_LAST
  }

  predicate IsParameterizedReplaceable(kind: nat) {
    PARAMETERIZED_REPLACEABLE_FIRST <= kind <= PARAMETERIZED_REPLACEABLE_LAST
  }

  predicate IsDelete(kind: nat) {
    kind == DELETE
  }

  // ---- direct matching ----

  predicate HasPrefix(prefixes: seq<string>, input: string) {
    exists i :: 0 <= i < |prefixes| && prefixes[i] <= input
  }

  predicate TagMatches(q: TagQuery, tag: Tag) {
    |tag| >= 2 && tag[0] == [q.name] && tag[1] in q.criteria
  }

  predicate SomeTagMatches(q: TagQuery, tags: seq<Tag>) {
    exists i :: 0 <= i < |tags| && TagMatches(q, tags[i])
  }

  /** `isEventMatchingFilter` without its tag criteria. */
  predicate MatchesScalars(f: Filter, e: Event) {
    && (f.ids.Some? ==> HasPrefix(f.ids.value, e.id))
    && (f.kinds.Some? ==> e.kind in f.kinds.value)
    && (f.since.Some? ==> f.since.value <= e.createdAt)
    && (f.until.Some? ==> e.createdAt <= f.until.value)
    && (f.authors.Some? ==> HasPrefix(f.authors.value, e.pubkey))
  }

  /** `isEventMatchingFilter`. */
  predicate Matches(f: Filter, e: Event) {
    && MatchesScalars(f, e)
    && forall i :: 0 <= i < |f.tagQueries| ==> SomeTagMatches(f.tagQueries[i], e.tags)
  }

  predicate MatchesAny(filters: seq<Filter>, e: Event) {
    exists i :: 0 <= i < |filters| && Matches(filters[i], e)
  }

  // ---- deduplication ----

  /** The JSON value in `event_deduplication`: `[pubkey, kind]` ends in a number,
      the tag's rest holds strings only, so the two never coincide. */
  datatype Dedup = PlainKey(pubkey: string, kind: nat) | TagKey(values: seq<string>)

  /** Everything after the name of the first `d` tag of two or more elements,
      or one empty string. */
  function TagRest(tags: seq<Tag>): seq<string> {
    if tags == [] then [""]
    else if |tags[0]| >= 2 && tags[0][0] == "d" then tags[0][1..]
    else TagRest(tags[1..])
  }
}
