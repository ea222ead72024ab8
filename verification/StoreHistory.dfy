/** Runs of the event table: any interleaving of the statements that the event
    strategies issue (nostream-share/src/factories/event-strategy-factory.ts
    and nostream-share/src/handlers/event-strategies). A delete event is two
    statements, and others may run between them. */
module StoreHistory {
  import opened Wrappers
  import opened Hex
  import opened NostrEvents
  import opened TagIndex
  import opened EventStore

  datatype Statement =
    | Store(event: Event)
    | SoftDelete(pubkey: string, ids: seq<string>)

  type Log = seq<Statement>

  // ---- what a strategy stores ----

  /** The replaceable strategy leaves the key to the repository, which takes
      [pubkey, kind]; the parameterized one takes it from the tags; the others
      insert without a key. */
  function DedupOf(e: Event): Option<Dedup> {
    if IsReplaceable(e.kind) then Some(PlainKey(e.pubkey, e.kind))
    else if IsParameterizedReplaceable(e.kind) then Some(TagKey(TagRest(e.tags)))
    else None
  }

  function StoredRow(e: Event): Row {
    RowOf(e, DedupOf(e))
  }

  function EventSlot(e: Event): Slot {
    SlotOf(StoredRow(e))
  }

  /** The kinds that the factory sends to an upsert are the kinds of the
      partial index, so every stored row with a key is under the index. */
  lemma KeyedKinds(e: Event)
    ensures DedupOf(e).Some? <==> IndexedKind(e.kind)
    ensures EventSlot(e) == if DedupOf(e).Some? then ByKey(ToBuffer(e.pubkey), e.kind, DedupOf(e).value)
                            else ById(ToBuffer(e.id))
  {
  }

  /** One store by a strategy: the new table and the number of rows reported. */
  function AfterStore(t: Table, e: Event): (Table, nat) {
    match DedupOf(e)
    case None => Created(t, e)
    case Some(dedup) =>
      match Upserted(t, e, dedup)
      case Ok(outcome) => outcome
      case Err(_) => (t, 0)
  }

  function Executed(t: Table, s: Statement): (Table, nat) {
    match s
    case Store(e) => AfterStore(t, e)
    case SoftDelete(pubkey, ids) =>
      (SoftDeleted(t, ToBuffer(pubkey), Buffers(ids)), CountTargeted(t.rows, ToBuffer(pubkey), Buffers(ids)))
  }

  function Run(log: Log): Table {
    if log == [] then EMPTY else Executed(Run(log[..|log| - 1]), log[|log| - 1]).0
  }

  /** Did the n-th statement change the table? */
  ghost predicate Accepted(log: Log, n: nat)
    requires n < |log|
  {
    Executed(Run(log[..n]), log[n]).1 > 0
  }

  /** Events are valid, and an identifier determines its event. */
  ghost predicate Legal(log: Log) {
    && (forall n :: 0 <= n < |log| && log[n].Store? ==> ValidEvent(log[n].event))
    && (forall m, n | 0 <= m < |log| && 0 <= n < |log| && log[m].Store? && log[n].Store? ::
          log[m].event.id == log[n].event.id ==> log[m].event == log[n].event)
  }

  /** Ephemeral events never reach the store. */
  ghost predicate Persistent(log: Log) {
    forall n :: 0 <= n < |log| && log[n].Store? ==> !IsEphemeral(log[n].event.kind)
  }

  // ---- the first of the newest ----

  ghost predicate Receives(log: Log, n: int, slot: Slot) {
    0 <= n < |log| && log[n].Store? && Fits(log[n].event) && EventSlot(log[n].event) == slot
  }

  ghost predicate FirstNewest(log: Log, n: int, slot: Slot) {
    && Receives(log, n, slot)
    && forall m :: Receives(log, m, slot) ==>
         log[m].event.createdAt <= log[n].event.createdAt
         && (m < n ==> log[m].event.createdAt < log[n].event.createdAt)
  }

  /** The row holds the first newest event of its slot; only its deletion mark
      is left open. */
  ghost predicate Justified(row: Row, log: Log) {
    exists n :: FirstNewest(log, n, SlotOf(row)) && row.(deleted := false) == StoredRow(log[n].event)
  }

  ghost predicate Reflects(rows: seq<Row>, log: Log) {
    && UniqueSlots(rows)
    && (forall i :: 0 <= i < |rows| ==> Justified(rows[i], log))
    && (forall n, slot :: Receives(log, n, slot) ==> SlotIndex(rows, slot) >= 0)
  }

  // ---- a store only looks at the event's own slot ----

  function SlotStored(rows: seq<Row>, row: Row): seq<Row> {
    var i := SlotIndex(rows, SlotOf(row));
    if i < 0 then rows + [row]
    else if rows[i].createdAt < row.createdAt then rows[i := row]
    else rows
  }

  lemma SlotIndexUnique(rows: seq<Row>, i: nat)
    requires UniqueSlots(rows) && i < |rows|
    ensures SlotIndex(rows, SlotOf(rows[i])) == i
  {
    assert SlotOf(rows[SlotIndex(rows, SlotOf(rows[i]))]) == SlotOf(rows[i]);
  }

  /** A stored row with an event's identifier holds that event. */
  lemma SameIdSameEvent(rows: seq<Row>, log: Log, e: Event, i: nat)
    requires Reflects(rows, log) && Legal(log + [Store(e)]) && i < |rows|
    requires rows[i].eventId == ToBuffer(e.id)
    ensures rows[i].(deleted := false) == StoredRow(e)
    ensures SlotIndex(rows, EventSlot(e)) == i
  {
    var n :| FirstNewest(log, n, SlotOf(rows[i])) && rows[i].(deleted := false) == StoredRow(log[n].event);
    var longer := log + [Store(e)];
    assert longer[n] == log[n] && longer[|log|] == Store(e);
    ToBufferInjective(log[n].event.id, e.id);
    assert log[n].event == e;
    SlotIndexUnique(rows, i);
  }

  /** In a reachable table a store is never refused for its identifier, keeps
      to its slot, and counts one row exactly when it changes the slot. */
  lemma StoreIsSlotStore(t: Table, log: Log, e: Event)
    requires Reflects(t.rows, log) && Legal(log + [Store(e)])
    ensures var i := SlotIndex(t.rows, EventSlot(e));
            AfterStore(t, e).1 == if Fits(e) && (i < 0 || t.rows[i].createdAt < e.createdAt) then 1 else 0
    ensures AfterStore(t, e).1 == 0 ==> AfterStore(t, e).0 == t
    ensures AfterStore(t, e).1 == 1 ==> AfterStore(t, e).0.rows == SlotStored(t.rows, StoredRow(e))
    ensures DedupOf(e).Some? ==> Upserted(t, e, DedupOf(e).value) != Err(DuplicateEventId)
  {
    KeyedKinds(e);
    var row := StoredRow(e);
    forall j | 0 <= j < |t.rows| && t.rows[j].eventId == row.eventId
      ensures SlotIndex(t.rows, SlotOf(row)) == j && t.rows[j].createdAt == e.createdAt
    {
      SameIdSameEvent(t.rows, log, e, j);
    }
  }

  // ---- extending a log ----

  lemma ReceivesPrefix(log: Log, s: Statement, n: int, slot: Slot)
    ensures n < |log| ==> (Receives(log + [s], n, slot) <==> Receives(log, n, slot))
    ensures Receives(log + [s], |log|, slot) <==> s.Store? && Fits(s.event) && EventSlot(s.event) == slot
  {
  }

  lemma FirstNewestKept(log: Log, s: Statement, n: int, slot: Slot)
    requires FirstNewest(log, n, slot)
    requires s.Store? && Fits(s.event) && EventSlot(s.event) == slot ==> s.event.createdAt <= log[n].event.createdAt
    ensures FirstNewest(log + [s], n, slot)
  {
    var longer := log + [s];
    forall m | Receives(longer, m, slot)
      ensures longer[m].event.createdAt <= longer[n].event.createdAt
      ensures m < n ==> longer[m].event.createdAt < longer[n].event.createdAt
    {
      ReceivesPrefix(log, s, m, slot);
    }
  }

  lemma FirstNewestAppended(log: Log, e: Event)
    requires Fits(e)
    requires forall m :: Receives(log, m, EventSlot(e)) ==> log[m].event.createdAt < e.createdAt
    ensures FirstNewest(log + [Store(e)], |log|, EventSlot(e))
  {
    var longer := log + [Store(e)];
    forall m | Receives(longer, m, EventSlot(e))
      ensures longer[m].event.createdAt <= longer[|log|].event.createdAt
      ensures m < |log| ==> longer[m].event.createdAt < longer[|log|].event.createdAt
    {
      ReceivesPrefix(log, Store(e), m, EventSlot(e));
    }
  }

  lemma JustifiedKept(row: Row, log: Log, s: Statement)
    requires Justified(row, log)
    requires s.Store? && Fits(s.event) && EventSlot(s.event) == SlotOf(row) ==> s.event.createdAt <= row.createdAt
    ensures Justified(row, log + [s])
  {
    var n :| FirstNewest(log, n, SlotOf(row)) && row.(deleted := false) == StoredRow(log[n].event);
    FirstNewestKept(log, s, n, SlotOf(row));
    assert (log + [s])[n] == log[n];
  }

  lemma JustifiedAppended(rows: seq<Row>, log: Log, e: Event)
    requires Reflects(rows, log) && Fits(e)
    requires var i := SlotIndex(rows, EventSlot(e)); i < 0 || rows[i].createdAt < e.createdAt
    ensures Justified(StoredRow(e), log + [Store(e)])
  {
    var slot, i := EventSlot(e), SlotIndex(rows, EventSlot(e));
    forall m | Receives(log, m, slot) ensures log[m].event.createdAt < e.createdAt {
      var n :| FirstNewest(log, n, slot) && rows[i].(deleted := false) == StoredRow(log[n].event);
    }
    FirstNewestAppended(log, e);
    assert (log + [Store(e)])[|log|] == Store(e);
    assert StoredRow(e).(deleted := false) == StoredRow(e);
  }

  lemma SlotsCovered(rows: seq<Row>, log: Log, rows': seq<Row>, s: Statement)
    requires Reflects(rows, log)
    requires forall slot :: SlotIndex(rows, slot) >= 0 ==> SlotIndex(rows', slot) >= 0
    requires s.Store? && Fits(s.event) ==> SlotIndex(rows', EventSlot(s.event)) >= 0
    ensures forall n, slot :: Receives(log + [s], n, slot) ==> SlotIndex(rows', slot) >= 0
  {
    forall n, slot | Receives(log + [s], n, slot) ensures SlotIndex(rows', slot) >= 0 {
      ReceivesPrefix(log, s, n, slot);
    }
  }

  lemma SlotStoredSlots(rows: seq<Row>, row: Row)
    requires UniqueSlots(rows)
    ensures UniqueSlots(SlotStored(rows, row))
    ensures forall slot :: SlotIndex(rows, slot) >= 0 ==> SlotIndex(SlotStored(rows, row), slot) >= 0
    ensures SlotIndex(SlotStored(rows, row), SlotOf(row)) >= 0
  {
    var after := SlotStored(rows, row);
    var i := SlotIndex(rows, SlotOf(row));
    forall slot | SlotIndex(rows, slot) >= 0 ensures SlotIndex(after, slot) >= 0 {
      assert SlotOf(after[SlotIndex(rows, slot)]) == slot;
    }
    if i < 0 { assert SlotOf(after[|rows|]) == SlotOf(row); }
  }

  lemma StoreReflects(rows: seq<Row>, log: Log, e: Event)
    requires Reflects(rows, log) && Fits(e)
    requires var i := SlotIndex(rows, EventSlot(e)); i < 0 || rows[i].createdAt < e.createdAt
    ensures Reflects(SlotStored(rows, StoredRow(e)), log + [Store(e)])
  {
    var row, slot := StoredRow(e), EventSlot(e);
    var after, i := SlotStored(rows, row), SlotIndex(rows, slot);
    SlotStoredSlots(rows, row);
    SlotsCovered(rows, log, after, Store(e));
    JustifiedAppended(rows, log, e);
    forall k | 0 <= k < |after| ensures Justified(after[k], log + [Store(e)]) {
      if after[k] != row {
        assert after[k] == rows[k] && k != i;
        SlotIndexUnique(rows, k);
        JustifiedKept(rows[k], log, Store(e));
      }
    }
  }

  lemma {:induction false} SoftDeletedRows(t: Table, pubkey: seq<Byte>, ids: set<seq<Byte>>)
    ensures var after := SoftDeleted(t, pubkey, ids).rows;
      |after| == |t.rows| &&
      forall i :: 0 <= i < |t.rows| ==>
        after[i] == if Targeted(t.rows[i], pubkey, ids) then t.rows[i].(deleted := true) else t.rows[i]
    decreases |t.rows|
  {
    if t.rows != [] {
      SoftDeletedRows(Table(t.rows[..|t.rows| - 1], t.tagRows), pubkey, ids);
    }
  }

  lemma SameSlots(rows: seq<Row>, after: seq<Row>)
    requires |after| == |rows| && forall i :: 0 <= i < |rows| ==> SlotOf(after[i]) == SlotOf(rows[i])
    ensures UniqueSlots(rows) ==> UniqueSlots(after)
    ensures forall slot :: SlotIndex(rows, slot) >= 0 ==> SlotIndex(after, slot) >= 0
  {
    forall slot | SlotIndex(rows, slot) >= 0 ensures SlotIndex(after, slot) >= 0 {
      assert SlotOf(after[SlotIndex(rows, slot)]) == slot;
    }
  }

  lemma MarkedJustified(row: Row, log: Log)
    requires Justified(row, log)
    ensures Justified(row.(deleted := true), log)
  {
    var n :| FirstNewest(log, n, SlotOf(row)) && row.(deleted := false) == StoredRow(log[n].event);
    assert row.(deleted := true).(deleted := false) == row.(deleted := false);
    assert SlotOf(row.(deleted := true)) == SlotOf(row);
  }

  lemma DeleteReflects(t: Table, log: Log, pubkey: string, ids: seq<string>)
    requires Reflects(t.rows, log)
    ensures Reflects(SoftDeleted(t, ToBuffer(pubkey), Buffers(ids)).rows, log + [SoftDelete(pubkey, ids)])
  {
    var after := SoftDeleted(t, ToBuffer(pubkey), Buffers(ids)).rows;
    SoftDeletedRows(t, ToBuffer(pubkey), Buffers(ids));
    SameSlots(t.rows, after);
    SlotsCovered(t.rows, log, after, SoftDelete(pubkey, ids));
    forall i | 0 <= i < |after| ensures Justified(after[i], log + [SoftDelete(pubkey, ids)]) {
      JustifiedKept(t.rows[i], log, SoftDelete(pubkey, ids));
      MarkedJustified(t.rows[i], log + [SoftDelete(pubkey, ids)]);
    }
  }

  lemma UnchangedReflects(rows: seq<Row>, log: Log, e: Event)
    requires Reflects(rows, log)
    requires var i := SlotIndex(rows, EventSlot(e)); Fits(e) ==> i >= 0 && e.createdAt <= rows[i].createdAt
    ensures Reflects(rows, log + [Store(e)])
  {
    SlotsCovered(rows, log, rows, Store(e));
    forall k | 0 <= k < |rows| ensures Justified(rows[k], log + [Store(e)]) {
      SlotIndexUnique(rows, k);
      JustifiedKept(rows[k], log, Store(e));
    }
  }

  lemma LegalPrefix(log: Log, n: nat)
    requires Legal(log) && n <= |log|
    ensures Legal(log[..n])
  {
  }

  /** Every reachable table reflects its history. */
  lemma {:induction false} RunReflects(log: Log)
    requires Legal(log)
    ensures Reflects(Run(log).rows, log)
  {
    if log != [] {
      var before, s := log[..|log| - 1], log[|log| - 1];
      assert log == before + [s];
      LegalPrefix(log, |log| - 1);
      RunReflects(before);
      match s {
        case SoftDelete(pubkey, ids) => DeleteReflects(Run(before), before, pubkey, ids);
        case Store(e) =>
          StoreIsSlotStore(Run(before), before, e);
          if AfterStore(Run(before), e).1 == 1 {
            StoreReflects(Run(before).rows, before, e);
          } else {
            UnchangedReflects(Run(before).rows, before, e);
          }
      }
    }
  }
}
