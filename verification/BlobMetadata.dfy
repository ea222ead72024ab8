/** Blob metadata over several relays: the soft delete of a blob is one more
    replaceable event, and reading resolves a hash to the newest event that any
    relay returns (api/src/routes/blobs.ts, api/src/metadata/schema.ts). */
module BlobMetadata {
  import opened Wrappers
  import opened Hex
  import opened NostrEvents
  import opened TagIndex
  import opened EventStore
  import opened StoreHistory
  import opened StoreGuarantees
  import opened IndexAgreement
  import opened FilterQuery
  import opened QueryExactness
  import opened QueryResults
  import Delivery
  import RelayMerge

  const METADATA_KIND: nat := 34578
  const METADATA_LIMIT: nat := 50

  function MetadataTags(hash: string): seq<Tag> {
    [["d", hash], ["client", "nostrmesh"], ["encrypted", "aead-v1"]]
  }

  /** A published version of a blob's metadata; the soft delete is one whose
      encrypted content says `deleted`. */
  predicate IsMetadata(e: Event, hash: string) {
    ValidEvent(e) && e.kind == METADATA_KIND && e.tags == MetadataTags(hash)
  }

  function MetadataFilter(hash: string): Filter {
    Filter(None, None, Some([METADATA_KIND]), None, None, Some(METADATA_LIMIT), [TagQuery('d', [hash])])
  }

  // ---- what relays answer ----

  /** What the WHERE clause selects: deleted rows are dropped later. */
  ghost function Selected(log: Log, hash: string): set<Row> {
    set r | r in Run(log).rows && Delivery.SelectedBy(Run(log), [MetadataFilter(hash)], r)
  }

  /** The rows of an answer to the compiled filter. */
  ghost predicate Picked(log: Log, hash: string, picked: seq<Row>) {
    exists hits :: Answer(QueryFor(MetadataFilter(hash)), Run(log), hits) && picked == RowsAt(Run(log), hits)
  }

  predicate Streamed(row: Row, hash: string, e: Event) {
    !row.deleted && ToNostrEvent(row) == e && Matches(MetadataFilter(hash), e)
  }

  /** The relay streams what it picked, without deleted rows and without what
      the filter does not match. */
  ghost predicate Answers(log: Log, hash: string, response: seq<Event>) {
    exists picked :: Picked(log, hash, picked)
      && forall e :: e in response <==> exists r :: r in picked && Streamed(r, hash, e)
  }

  /** The answers of all relays that answered, in any order. */
  ghost predicate Gathered(responses: seq<seq<Event>>, events: seq<Event>) {
    forall e :: e in events <==> exists i :: 0 <= i < |responses| && e in responses[i]
  }

  /** `resolveMetadata`, up to decrypting the content. */
  function Resolved(events: seq<Event>): Option<Event> {
    var deduped := RelayMerge.Dedupe(events);
    if deduped == [] then None else Some(deduped[0])
  }

  lemma ResolvedIsNewest(events: seq<Event>, d: Event)
    requires d in events && forall e :: e in events && e != d ==> e.createdAt < d.createdAt
    ensures Resolved(events) == Some(d)
  {
    var sorted := RelayMerge.Sort(events);
    RelayMerge.SortSorted(events);
    RelayMerge.SortMembers(events, d);
    RelayMerge.HeadIsNewest(sorted, d);
    RelayMerge.SortMembers(events, sorted[0]);
    assert sorted[0] in sorted;
  }

  // ---- one relay ----

  /** The hash is hexadecimal, so the filter's one criterion is stored as it
      is, whatever tags other events on the relay have. */
  lemma MetadataFilterPlain(hash: string)
    requires IsKey(hash)
    ensures ValidFilter(MetadataFilter(hash)) && PlainCriteria(MetadataFilter(hash)) && Bindable(MetadataFilter(hash))
  {
    forall i | 0 <= i < |hash| ensures !NeedsEscape(hash[i]) && hash[i] != '\0' {
      assert IsLowerHexDigit(hash[i]);
    }
    assert Plain(hash) && !HasNul(hash);
  }

  lemma SelectedExactly(log: Log, hash: string, i: nat)
    requires Legal(log) && IsKey(hash) && i < |Run(log).rows|
    ensures Run(log).rows[i] in Selected(log, hash)
      <==> Matches(MetadataFilter(hash), ToNostrEvent(Run(log).rows[i]))
  {
    var f, r := MetadataFilter(hash), Run(log).rows[i];
    MetadataFilterPlain(hash);
    RowMeaning(log, i, f);
    PlainFinds(f, ToNostrEvent(r));
    SelectedAlone(Run(log), f, r);
  }

  lemma SelectedAlone(t: Table, f: Filter, r: Row)
    ensures Delivery.SelectedBy(t, [f], r) <==> Selects(QueryFor(f), r, t.tagRows)
  {
    assert [f][0] == f;
    BindsExactly(f);
  }

  /** The answer holds the newest fifty rows that are selected, or all. */
  lemma PickedNewest(log: Log, hash: string, picked: seq<Row>)
    requires Picked(log, hash, picked)
    ensures |picked| <= 50 && forall r :: r in picked ==> r in Selected(log, hash)
    ensures forall r :: r in Selected(log, hash) && r !in picked ==>
              |picked| == 50 && forall x :: x in picked ==> r.createdAt <= x.createdAt
  {
    var f, t := MetadataFilter(hash), Run(log);
    var hits: seq<Hit> :| Answer(QueryFor(f), t, hits) && picked == RowsAt(t, hits);
    LimitedAnswer(f, t, hits);
    forall r ensures Delivery.SelectedBy(t, [f], r) <==> Selects(QueryFor(f), r, t.tagRows) { SelectedAlone(t, f, r); }
    forall r | r in picked ensures r in Selected(log, hash) {
      var k :| 0 <= k < |picked| && picked[k] == r;
      assert r == t.rows[hits[k].row];
    }
    forall r | r in Selected(log, hash) && r !in picked
      ensures |picked| == 50 && forall x :: x in picked ==> r.createdAt <= x.createdAt
    {
      var i :| 0 <= i < |t.rows| && t.rows[i] == r;
    }
  }

  lemma SelectedIsStored(log: Log, hash: string, r: Row)
    requires Legal(log) && IsKey(hash) && r in Selected(log, hash)
    ensures Store(ToNostrEvent(r)) in log && Matches(MetadataFilter(hash), ToNostrEvent(r))
  {
    var i :| 0 <= i < |Run(log).rows| && Run(log).rows[i] == r;
    MetadataFilterPlain(hash);
    RowComparable(log, i, MetadataFilter(hash));
    SelectedExactly(log, hash, i);
  }

  lemma AnsweredIsStored(log: Log, hash: string, response: seq<Event>, e: Event)
    requires Legal(log) && IsKey(hash) && Answers(log, hash, response) && e in response
    ensures Store(e) in log && e in Delivery.VisibleEvents(Run(log)) && Matches(MetadataFilter(hash), e)
  {
    var picked :| Picked(log, hash, picked)
      && forall e :: e in response <==> exists r :: r in picked && Streamed(r, hash, e);
    var r :| r in picked && Streamed(r, hash, e);
    PickedNewest(log, hash, picked);
    SelectedIsStored(log, hash, r);
  }

  /** The filter asks for the metadata kind and a `d` tag with the hash. */
  lemma MetadataMeaning(e: Event, hash: string)
    ensures Matches(MetadataFilter(hash), e) <==>
            e.kind == 34578
            && exists i :: 0 <= i < |e.tags| && |e.tags[i]| >= 2 && e.tags[i][0] == "d" && e.tags[i][1] == hash
  {
    var f, q := MetadataFilter(hash), TagQuery('d', [hash]);
    assert forall i :: 0 <= i < |f.tagQueries| ==> f.tagQueries[i] == q;
    forall i | 0 <= i < |e.tags|
      ensures TagMatches(q, e.tags[i]) <==> |e.tags[i]| >= 2 && e.tags[i][0] == "d" && e.tags[i][1] == hash {}
    assert Matches(f, e) <==> MatchesScalars(f, e) && SomeTagMatches(f.tagQueries[0], e.tags);
  }

  lemma MetadataMatches(d: Event, hash: string)
    requires IsMetadata(d, hash)
    ensures Matches(MetadataFilter(hash), d)
  {
    assert TagMatches(TagQuery('d', [hash]), d.tags[0]);
  }

  lemma VisibleIsSelected(log: Log, hash: string, d: Event) returns (r: Row)
    requires Legal(log) && IsKey(hash) && IsMetadata(d, hash) && d in Delivery.VisibleEvents(Run(log))
    ensures r in Selected(log, hash) && Streamed(r, hash, d)
  {
    MetadataMatches(d, hash);
    var i :| 0 <= i < |Run(log).rows| && !Run(log).rows[i].deleted && ToNostrEvent(Run(log).rows[i]) == d;
    SelectedExactly(log, hash, i);
    r := Run(log).rows[i];
  }

  lemma SameEventSameId(r: Row, q: Row)
    requires ToNostrEvent(r) == ToNostrEvent(q)
    ensures r.eventId == q.eventId
  {
    BytesRoundTrip(r.eventId);
    BytesRoundTrip(q.eventId);
  }

  lemma OneRowPerEvent(log: Log, r: Row, q: Row)
    requires Legal(log) && r in Run(log).rows && q in Run(log).rows && ToNostrEvent(r) == ToNostrEvent(q)
    ensures r == q
  {
    ConstraintsHold(log);
    SameEventSameId(r, q);
    UniqueIdsOneRow(Run(log).rows, r, q);
  }

  lemma UniqueIdsOneRow(rows: seq<Row>, r: Row, q: Row)
    requires UniqueIds(rows) && r in rows && q in rows && r.eventId == q.eventId
    ensures r == q
  {
    var i :| 0 <= i < |rows| && rows[i] == r;
    var j :| 0 <= j < |rows| && rows[j] == q;
    assert i == j;
  }

  lemma SameSlotSameKey(d: Event, e: Event)
    requires IsParameterizedReplaceable(d.kind) && EventSlot(e) == EventSlot(d)
    ensures e.kind == d.kind && TagRest(e.tags) == TagRest(d.tags)
  {
    KeyedKinds(d);
    KeyedKinds(e);
  }

  /** Events that share a metadata event's slot ask for the same hash. */
  lemma SlotMatches(d: Event, e: Event, hash: string)
    requires IsMetadata(d, hash) && hash != "" && EventSlot(e) == EventSlot(d)
    ensures Matches(MetadataFilter(hash), e)
  {
    SameSlotSameKey(d, e);
    assert d.tags[0][1..] == [hash];
    TagRestFound(e.tags, hash);
  }

  lemma {:induction false} TagRestFound(tags: seq<Tag>, hash: string)
    requires TagRest(tags) == [hash] && hash != ""
    ensures SomeTagMatches(TagQuery('d', [hash]), tags)
  {
    if tags != [] {
      if |tags[0]| >= 2 && tags[0][0] == "d" {
        assert tags[0][1] == tags[0][1..][0];
        assert TagMatches(TagQuery('d', [hash]), tags[0]);
      } else {
        TagRestFound(tags[1..], hash);
        var i :| 0 <= i < |tags[1..]| && TagMatches(TagQuery('d', [hash]), tags[1..][i]);
        assert TagMatches(TagQuery('d', [hash]), tags[i + 1]);
      }
    }
  }

  lemma OneFirstNewest(log: Log, m: int, n: int, slot: Slot)
    requires FirstNewest(log, m, slot) && FirstNewest(log, n, slot)
    ensures m == n
  {
  }

  lemma StoredRowVisible(t: Table, d: Event)
    requires ValidEvent(d) && StoredRow(d) in t.rows
    ensures d in Delivery.VisibleEvents(t)
  {
    EventRoundTrip(d, DedupOf(d), false);
  }

  lemma UnmarkedRow(rows: seq<Row>, i: nat, d: Event)
    requires i < |rows| && rows[i].(deleted := false) == StoredRow(d) && !MarkedDeleted(rows, d.id)
    ensures rows[i] == StoredRow(d)
  {
    assert rows[i].eventId == ToBuffer(d.id);
  }

  lemma SlotHolds(log: Log, d: Event, n: int)
    requires Legal(log) && ValidEvent(d) && FirstNewest(log, n, EventSlot(d)) && log[n].event == d
    requires !MarkedDeleted(Run(log).rows, d.id)
    ensures d in Delivery.VisibleEvents(Run(log))
  {
    var slot, rows := EventSlot(d), Run(log).rows;
    RunReflects(log);
    assert Receives(log, n, slot);
    var i := SlotIndex(rows, slot);
    assert Justified(rows[i], log);
    var m :| FirstNewest(log, m, slot) && rows[i].(deleted := false) == StoredRow(log[m].event);
    OneFirstNewest(log, m, n, slot);
    UnmarkedRow(rows, i, d);
    StoredRowVisible(Run(log), d);
  }

  /** No stored event that asks for the hash is as new as this one. */
  ghost predicate NewestIn(log: Log, hash: string, d: Event) {
    forall e :: Store(e) in log && e != d && Matches(MetadataFilter(hash), e) ==> e.createdAt < d.createdAt
  }

  /** The first newest of the slot is the newest event itself. */
  lemma NewestIsFirst(log: Log, hash: string, d: Event, n: int)
    requires IsKey(hash) && IsMetadata(d, hash) && Store(d) in log && Fits(d) && NewestIn(log, hash, d)
    requires FirstNewest(log, n, EventSlot(d))
    ensures log[n].event == d
  {
    var k :| 0 <= k < |log| && log[k] == Store(d);
    assert Receives(log, k, EventSlot(d));
    SlotMatches(d, log[n].event, hash);
    assert log[n] == Store(log[n].event) && log[n] in log;
  }

  /** A relay that stored the newest metadata event of a hash shows it. */
  lemma NewestIsVisible(log: Log, hash: string, d: Event)
    requires Legal(log) && IsKey(hash) && IsMetadata(d, hash) && Store(d) in log && Fits(d)
    requires NewestIn(log, hash, d) && !MarkedDeleted(Run(log).rows, d.id)
    ensures d in Delivery.VisibleEvents(Run(log))
  {
    var k :| 0 <= k < |log| && log[k] == Store(d);
    assert Receives(log, k, EventSlot(d));
    LastWriteWins(log, EventSlot(d));
    var i :| 0 <= i < |Run(log).rows| && SlotOf(Run(log).rows[i]) == EventSlot(d);
    var n :| FirstNewest(log, n, EventSlot(d)) && Run(log).rows[i].(deleted := false) == StoredRow(log[n].event);
    NewestIsFirst(log, hash, d, n);
    SlotHolds(log, d, n);
  }

  lemma NewestIsAnswered(log: Log, hash: string, response: seq<Event>, d: Event)
    requires Legal(log) && IsKey(hash) && IsMetadata(d, hash) && Store(d) in log && Fits(d)
    requires NewestIn(log, hash, d) && !MarkedDeleted(Run(log).rows, d.id) && Answers(log, hash, response)
    ensures d in response
  {
    NewestIsVisible(log, hash, d);
    var r := VisibleIsSelected(log, hash, d);
    var picked :| Picked(log, hash, picked)
      && forall e :: e in response <==> exists q :: q in picked && Streamed(q, hash, e);
    PickedNewest(log, hash, picked);
    if r !in picked {
      var x := picked[0];
      assert x in picked;
      SelectedIsStored(log, hash, x);
      if ToNostrEvent(x) == d { OneRowPerEvent(log, x, r); }
    }
  }

  // ---- all relays ----

  /** If one of the relays that answer stored the newest metadata event of a
      hash, reading resolves to it, whatever older versions the others return,
      however many and in whatever order. Taken for a soft delete, the blob
      stays deleted until something newer for its hash is published; taken for
      that newer version, the blob is back. */
  lemma NewestStoredIsResolved(logs: seq<Log>, hash: string, responses: seq<seq<Event>>, events: seq<Event>,
                               d: Event, k: nat)
    requires IsKey(hash) && IsMetadata(d, hash) && Fits(d)
    requires |responses| == |logs| && k < |logs| && Gathered(responses, events)
    requires forall i :: 0 <= i < |logs| ==>
      Legal(logs[i]) && NewestIn(logs[i], hash, d) && Answers(logs[i], hash, responses[i])
    requires Store(d) in logs[k] && !MarkedDeleted(Run(logs[k]).rows, d.id)
    ensures Resolved(events) == Some(d)
  {
    NewestIsAnswered(logs[k], hash, responses[k], d);
    assert d in events;
    forall e | e in events && e != d ensures e.createdAt < d.createdAt {
      var i :| 0 <= i < |responses| && e in responses[i];
      AnsweredIsStored(logs[i], hash, responses[i], e);
    }
    ResolvedIsNewest(events, d);
  }

  /** A relay takes a new version exactly when it is strictly newer than all it
      has received for the same key: a soft delete in the same second as the
      upload is acknowledged and dropped. */
  lemma TakenWhenStrictlyNewer(log: Log, d: Event)
    requires Legal(log + [Store(d)]) && Store(d) !in log && Fits(d)
    ensures d in Delivery.VisibleEvents(Run(log + [Store(d)]))
      <==> forall m :: Receives(log, m, EventSlot(d)) ==> log[m].event.createdAt < d.createdAt
  {
    var longer := log + [Store(d)];
    assert longer[..|log|] == log && longer[|log|] == Store(d);
    LegalPrefix(longer, |log|);
    RunReflects(log);
    StoreIsSlotStore(Run(log), log, d);
    var i := SlotIndex(Run(log).rows, EventSlot(d));
    if forall m :: Receives(log, m, EventSlot(d)) ==> log[m].event.createdAt < d.createdAt {
      if i >= 0 { OlderRow(log, i, d); }
      FreshRowVisible(Run(log).rows, Run(longer), d);
    } else {
      var m :| Receives(log, m, EventSlot(d)) && log[m].event.createdAt >= d.createdAt;
      NewerRow(log, i, m, d);
      if d in Delivery.VisibleEvents(Run(log)) { VisibleIsStored(log, d); }
    }
  }

  lemma OlderRow(log: Log, i: nat, d: Event)
    requires Reflects(Run(log).rows, log) && i < |Run(log).rows| && SlotOf(Run(log).rows[i]) == EventSlot(d)
    requires forall m :: Receives(log, m, EventSlot(d)) ==> log[m].event.createdAt < d.createdAt
    ensures Run(log).rows[i].createdAt < d.createdAt
  {
    var n :| FirstNewest(log, n, EventSlot(d)) && Run(log).rows[i].(deleted := false) == StoredRow(log[n].event);
  }

  lemma NewerRow(log: Log, i: int, m: int, d: Event)
    requires Reflects(Run(log).rows, log) && i == SlotIndex(Run(log).rows, EventSlot(d))
    requires Receives(log, m, EventSlot(d)) && log[m].event.createdAt >= d.createdAt
    ensures i >= 0 && Run(log).rows[i].createdAt >= d.createdAt
  {
    assert Justified(Run(log).rows[i], log);
    var n :| FirstNewest(log, n, EventSlot(d)) && Run(log).rows[i].(deleted := false) == StoredRow(log[n].event);
  }

  lemma FreshRowVisible(rows: seq<Row>, t: Table, d: Event)
    requires ValidEvent(d) && t.rows == SlotStored(rows, StoredRow(d))
    requires var i := SlotIndex(rows, EventSlot(d)); i < 0 || rows[i].createdAt < d.createdAt
    ensures d in Delivery.VisibleEvents(t)
  {
    var i := SlotIndex(rows, EventSlot(d));
    assert t.rows[if i < 0 then |rows| else i] == StoredRow(d);
    StoredRowVisible(t, d);
  }

  lemma VisibleIsStored(log: Log, d: Event)
    requires Legal(log) && d in Delivery.VisibleEvents(Run(log))
    ensures Store(d) in log
  {
    var r :| r in Run(log).rows && !r.deleted && ToNostrEvent(r) == d;
    var i :| 0 <= i < |Run(log).rows| && Run(log).rows[i] == r;
    RowComparable(log, i, Filter(None, None, None, None, None, None, []));
  }

  lemma ResolvedIsAnswered(responses: seq<seq<Event>>, events: seq<Event>)
    requires Gathered(responses, events) && Resolved(events).Some?
    ensures exists i :: 0 <= i < |responses| && Resolved(events).value in responses[i]
  {
    var x := Resolved(events).value;
    assert x in RelayMerge.Dedupe(events);
    RelayMerge.KeepsFirstNewest(events, x);
    assert x in events;
  }

  /** Whatever reading resolves to is visible on some relay that answered. */
  lemma ResolvedIsVisible(logs: seq<Log>, hash: string, responses: seq<seq<Event>>, events: seq<Event>)
    requires IsKey(hash) && |responses| == |logs| && Gathered(responses, events)
    requires forall i :: 0 <= i < |logs| ==> Legal(logs[i]) && Answers(logs[i], hash, responses[i])
    ensures Resolved(events).Some? ==>
      exists i :: 0 <= i < |logs| && Resolved(events).value in Delivery.VisibleEvents(Run(logs[i]))
  {
    if Resolved(events).Some? {
      ResolvedIsAnswered(responses, events);
      var i :| 0 <= i < |responses| && Resolved(events).value in responses[i];
      AnsweredIsStored(logs[i], hash, responses[i], Resolved(events).value);
    }
  }

  lemma ResolvedByOne(response: seq<Event>, events: seq<Event>)
    requires Gathered([response], events) && Resolved(events).Some?
    ensures Resolved(events).value in response
  {
    ResolvedIsAnswered([response], events);
  }

  lemma SameSecondIsDropped(log: Log, earlier: Event, d: Event)
    requires Fits(earlier) && Fits(d) && Store(earlier) in log && Store(d) !in log
    requires EventSlot(earlier) == EventSlot(d) && earlier.createdAt == d.createdAt
    requires Legal(log + [Store(d)])
    ensures d !in Delivery.VisibleEvents(Run(log + [Store(d)]))
  {
    var m :| 0 <= m < |log| && log[m] == Store(earlier);
    assert Receives(log, m, EventSlot(d));
    TakenWhenStrictlyNewer(log, d);
  }

  /** So with one relay, a soft delete in the same second as the version it
      deletes is acknowledged and never seen. */
  lemma SameSecondDeleteIsLost(log: Log, hash: string, earlier: Event, d: Event, response: seq<Event>,
                               events: seq<Event>)
    requires IsKey(hash) && Fits(earlier) && Fits(d) && Store(earlier) in log && Store(d) !in log
    requires EventSlot(earlier) == EventSlot(d) && earlier.createdAt == d.createdAt
    requires Legal(log + [Store(d)])
    requires Answers(log + [Store(d)], hash, response) && Gathered([response], events)
    ensures Resolved(events) != Some(d)
  {
    SameSecondIsDropped(log, earlier, d);
    if Resolved(events) == Some(d) {
      ResolvedByOne(response, events);
      AnsweredIsStored(log + [Store(d)], hash, response, d);
    }
  }
}
