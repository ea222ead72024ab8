/** The `events` table with its two unique constraints, its tag index, and the
    statements the repository sends it
    (nostream-share/src/repositories/event-repository.ts and the
    `process_event_tags` trigger). Each statement is one atomic step. */
module EventStore {
  import opened Wrappers
  import opened Decimals
  import opened Hex
  import opened NostrEvents
  import opened TagIndex

  datatype Row = Row(
    eventId: seq<Byte>, pubkey: seq<Byte>, createdAt: nat, kind: nat,
    tags: seq<Tag>, content: string, signature: seq<Byte>,
    dedup: Option<Dedup>, deleted: bool)

  datatype Table = Table(rows: seq<Row>, tagRows: seq<TagRow>)

  datatype Violation = DuplicateEventId | UnstorableValue

  const EMPTY := Table([], [])

  // ---- rows and events ----

  function RowOf(e: Event, dedup: Option<Dedup>): Row {
    Row(ToBuffer(e.id), ToBuffer(e.pubkey), e.createdAt, e.kind, e.tags, e.content, ToBuffer(e.sig), dedup, false)
  }

  /** `toNostrEvent`. */
  function ToNostrEvent(row: Row): Event {
    Event(FromBuffer(row.eventId), FromBuffer(row.pubkey), row.createdAt, row.kind,
          row.tags, row.content, FromBuffer(row.signature))
  }

  /** Reading a stored event back yields the event. */
  lemma EventRoundTrip(e: Event, dedup: Option<Dedup>, deleted: bool)
    requires ValidEvent(e)
    ensures ToNostrEvent(RowOf(e, dedup).(deleted := deleted)) == e
  {
    TextRoundTrip(e.id);
    TextRoundTrip(e.pubkey);
    TextRoundTrip(e.sig);
  }

  const MAX_INT4: nat := 0x7fff_ffff

  predicate HasNul(s: string) {
    '\0' in s
  }

  // ---- the expiration column ----

  const EXPIRATION_TAG := "expiration"

  /** The value of the first expiration tag that has one. */
  function ExpirationText(tags: seq<Tag>): Option<string> {
    if tags == [] then None
    else if |tags[0]| >= 2 && tags[0][0] == EXPIRATION_TAG then Some(tags[0][1])
    else ExpirationText(tags[1..])
  }

  const EXPIRATION_BOUND: nat := 10_000_000_000

  /** `getEventExpiration`, written in decimal digits: zero and what takes more
      than ten digits count as no expiration, and the column stays null. */
  function Expiration(tags: seq<Tag>): Option<nat> {
    match ExpirationText(tags)
    case None => None
    case Some(text) =>
      if IsDecimal(text) && 0 < DecimalValue(text) < EXPIRATION_BOUND then Some(DecimalValue(text)) else None
  }

  /** What the column types take: four-byte integers, text without NUL. */
  predicate Fits(e: Event) {
    && e.createdAt <= MAX_INT4 && e.kind <= MAX_INT4
    && (Expiration(e.tags).Some? ==> Expiration(e.tags).value <= MAX_INT4)
    && !HasNul(e.content)
    && forall i, j :: 0 <= i < |e.tags| && 0 <= j < |e.tags[i]| ==> !HasNul(e.tags[i][j])
  }

  // ---- constraints ----

  /** The predicate of the partial unique index, as the index spells it. */
  predicate IndexedKind(kind: nat) {
    (kind == 0 || kind == 3 || kind == 41 || (kind >= 10000 && kind < 20000))
    || (kind >= 30000 && kind < 40000)
  }

  /** What a row occupies: its replaceable key, or only its own identifier. */
  datatype Slot = ByKey(pubkey: seq<Byte>, kind: nat, dedup: Dedup) | ById(id: seq<Byte>)

  function SlotOf(row: Row): Slot {
    if IndexedKind(row.kind) && row.dedup.Some? then ByKey(row.pubkey, row.kind, row.dedup.value)
    else ById(row.eventId)
  }

  predicate UniqueIds(rows: seq<Row>) {
    forall i, j :: 0 <= i < j < |rows| ==> rows[i].eventId != rows[j].eventId
  }

  predicate UniqueSlots(rows: seq<Row>) {
    forall i, j :: 0 <= i < j < |rows| ==> SlotOf(rows[i]) != SlotOf(rows[j])
  }

  function SlotIndex(rows: seq<Row>, slot: Slot): (i: int)
    ensures -1 <= i < |rows|
    ensures i >= 0 ==> SlotOf(rows[i]) == slot
    ensures i == -1 ==> forall j :: 0 <= j < |rows| ==> SlotOf(rows[j]) != slot
  {
    if rows == [] then -1
    else if SlotOf(rows[|rows| - 1]) == slot then |rows| - 1
    else SlotIndex(rows[..|rows| - 1], slot)
  }

  predicate HoldsId(rows: seq<Row>, id: seq<Byte>) {
    exists i :: 0 <= i < |rows| && rows[i].eventId == id
  }

  predicate HoldsIdElsewhere(rows: seq<Row>, id: seq<Byte>, i: int) {
    exists j :: 0 <= j < |rows| && j != i && rows[j].eventId == id
  }

  // ---- the trigger ----

  function Without(tagRows: seq<TagRow>, id: seq<Byte>): seq<TagRow> {
    if tagRows == [] then []
    else
      var rest := Without(tagRows[..|tagRows| - 1], id);
      if tagRows[|tagRows| - 1].eventId == id then rest else rest + [tagRows[|tagRows| - 1]]
  }

  function Retagged(tagRows: seq<TagRow>, oldId: Option<seq<Byte>>, row: Row): seq<TagRow> {
    (if oldId.Some? then Without(tagRows, oldId.value) else tagRows) + TagRowsOf(row.eventId, row.tags)
  }

  // ---- statements ----

  function Appended(t: Table, row: Row): Table {
    Table(t.rows + [row], Retagged(t.tagRows, None, row))
  }

  function Replaced(t: Table, i: nat, row: Row): Table
    requires i < |t.rows|
  {
    Table(t.rows[i := row], Retagged(t.tagRows, Some(t.rows[i].eventId), row))
  }

  /** INSERT ... ON CONFLICT DO NOTHING; a failed statement counts zero rows. */
  function Created(t: Table, e: Event): (Table, nat) {
    var row := RowOf(e, None);
    if !Fits(e) || HoldsId(t.rows, row.eventId) || SlotIndex(t.rows, SlotOf(row)) >= 0
    then (t, 0) else (Appended(t, row), 1)
  }

  /** INSERT ... ON CONFLICT (pubkey, kind, deduplication) DO UPDATE, only when
      the stored event is strictly older. The identifier's own constraint is
      not the conflict target, so breaking it is an error. */
  function Upserted(t: Table, e: Event, dedup: Dedup): Result<(Table, nat), Violation> {
    var row := RowOf(e, Some(dedup));
    if !Fits(e) then Err(UnstorableValue)
    else
      var i := if IndexedKind(e.kind) then SlotIndex(t.rows, SlotOf(row)) else -1;
      if i < 0 then
        if HoldsId(t.rows, row.eventId) then Err(DuplicateEventId) else Ok((Appended(t, row), 1))
      else if t.rows[i].createdAt < e.createdAt then
        if HoldsIdElsewhere(t.rows, row.eventId, i) then Err(DuplicateEventId) else Ok((Replaced(t, i, row), 1))
      else Ok((t, 0))
  }

  predicate Targeted(row: Row, pubkey: seq<Byte>, ids: set<seq<Byte>>) {
    row.pubkey == pubkey && row.eventId in ids && !row.deleted
  }

  function Buffers(ids: seq<string>): set<seq<Byte>> {
    set i | 0 <= i < |ids| :: ToBuffer(ids[i])
  }

  /** UPDATE ... SET deleted_at = now() over the first rows of the table; every
      updated row fires the trigger. */
  function SoftDeleted(t: Table, pubkey: seq<Byte>, ids: set<seq<Byte>>): Table
    decreases |t.rows|
  {
    if t.rows == [] then t
    else
      var last := t.rows[|t.rows| - 1];
      var rest := SoftDeleted(Table(t.rows[..|t.rows| - 1], t.tagRows), pubkey, ids);
      if Targeted(last, pubkey, ids)
      then Table(rest.rows + [last.(deleted := true)], Retagged(rest.tagRows, Some(last.eventId), last))
      else Table(rest.rows + [last], rest.tagRows)
  }

  function CountTargeted(rows: seq<Row>, pubkey: seq<Byte>, ids: set<seq<Byte>>): nat {
    if rows == [] then 0
    else CountTargeted(rows[..|rows| - 1], pubkey, ids) + (if Targeted(rows[|rows| - 1], pubkey, ids) then 1 else 0)
  }

  lemma SoftDeletedSnoc(rows: seq<Row>, tagRows: seq<TagRow>, k: nat, pubkey: seq<Byte>, ids: set<seq<Byte>>)
    requires k < |rows|
    ensures var rest := SoftDeleted(Table(rows[..k], tagRows), pubkey, ids);
      SoftDeleted(Table(rows[..k + 1], tagRows), pubkey, ids)
      == if Targeted(rows[k], pubkey, ids)
         then Table(rest.rows + [rows[k].(deleted := true)], Retagged(rest.tagRows, Some(rows[k].eventId), rows[k]))
         else Table(rest.rows + [rows[k]], rest.tagRows)
    ensures CountTargeted(rows[..k + 1], pubkey, ids)
      == CountTargeted(rows[..k], pubkey, ids) + (if Targeted(rows[k], pubkey, ids) then 1 else 0)
  {
    assert rows[..k + 1][..k] == rows[..k];
  }

  // ---- the repository ----

  class EventRepository {
    var rows: seq<Row>
    var tagRows: seq<TagRow>

    function Snapshot(): Table
      reads this
    {
      Table(rows, tagRows)
    }

    constructor ()
      ensures Snapshot() == EMPTY
    {
      rows, tagRows := [], [];
    }

    /** The trigger: forget the old identifier, then one row for every tag that
        has a one-character name and a value. */
    method ProcessEventTags(oldId: Option<seq<Byte>>, row: Row)
      modifies this`tagRows
      ensures tagRows == Retagged(old(tagRows), oldId, row)
    {
      if oldId.Some? {
        tagRows := Without(tagRows, oldId.value);
      }
      ghost var kept := tagRows;
      for k := 0 to |row.tags|
        invariant tagRows == kept + TagRowsOf(row.eventId, row.tags[..k])
      {
        TagRowsSnoc(row.eventId, row.tags, k);
        var tag := row.tags[k];
        if |tag| >= 2 {
          var name, value := Stored(tag[0]), Stored(tag[1]);
          if |name| == 1 && value != "" {
            tagRows := tagRows + [TagRow(row.eventId, name, value)];
          }
        }
      }
      assert row.tags[..|row.tags|] == row.tags;
    }

    method Create(e: Event) returns (count: nat)
      modifies this
      ensures (Snapshot(), count) == Created(old(Snapshot()), e)
    {
      var row := RowOf(e, None);
      if !Fits(e) || HoldsId(rows, row.eventId) || SlotIndex(rows, SlotOf(row)) >= 0 {
        return 0;
      }
      rows := rows + [row];
      ProcessEventTags(None, row);
      count := 1;
    }

    method Upsert(e: Event, dedup: Dedup) returns (r: Result<nat, Violation>)
      modifies this
      ensures match Upserted(old(Snapshot()), e, dedup)
        case Ok((t, count)) => Snapshot() == t && r == Ok(count)
        case Err(v) => Snapshot() == old(Snapshot()) && r == Err(v)
    {
      var row := RowOf(e, Some(dedup));
      if !Fits(e) {
        return Err(UnstorableValue);
      }
      var i := if IndexedKind(e.kind) then SlotIndex(rows, SlotOf(row)) else -1;
      if i < 0 {
        if HoldsId(rows, row.eventId) {
          return Err(DuplicateEventId);
        }
        rows := rows + [row];
        ProcessEventTags(None, row);
        return Ok(1);
      }
      if rows[i].createdAt >= e.createdAt {
        return Ok(0);
      }
      if HoldsIdElsewhere(rows, row.eventId, i) {
        return Err(DuplicateEventId);
      }
      var oldId := rows[i].eventId;
      rows := rows[i := row];
      ProcessEventTags(Some(oldId), row);
      r := Ok(1);
    }

    method DeleteByPubkeyAndIds(pubkey: string, ids: seq<string>) returns (count: nat)
      modifies this
      ensures Snapshot() == SoftDeleted(old(Snapshot()), ToBuffer(pubkey), Buffers(ids))
      ensures count == CountTargeted(old(rows), ToBuffer(pubkey), Buffers(ids))
    {
      var owner, targets := ToBuffer(pubkey), Buffers(ids);
      ghost var before := Snapshot();
      count := 0;
      for k := 0 to |rows|
        invariant |rows| == |before.rows| && rows[k..] == before.rows[k..]
        invariant Table(rows[..k], tagRows) == SoftDeleted(Table(before.rows[..k], before.tagRows), owner, targets)
        invariant count == CountTargeted(before.rows[..k], owner, targets)
      {
        ghost var done := rows[..k];
        assert rows[k] == rows[k..][0] == before.rows[k];
        SoftDeletedSnoc(before.rows, before.tagRows, k, owner, targets);
        if Targeted(rows[k], owner, targets) {
          var row := rows[k].(deleted := true);
          rows := rows[k := row];
          ProcessEventTags(Some(row.eventId), row);
          count := count + 1;
        }
        assert rows[..k + 1] == done + [rows[k]];
        assert rows[k + 1..] == before.rows[k + 1..];
      }
      assert rows[..|rows|] == rows && before.rows[..|rows|] == before.rows;
    }
  }
}
