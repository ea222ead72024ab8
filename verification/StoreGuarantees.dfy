/** What every run of the event table keeps: last write wins (NIP-16, NIP-33),
    permanent deletion (NIP-09), broadcasts only for changes, and convergence. */
module StoreGuarantees {
  import opened Wrappers
  import opened Hex
  import opened NostrEvents
  import opened TagIndex
  import opened EventStore
  import opened StoreHistory

  // ---- last write wins ----

  /** A slot has a row exactly when an event for it was received; it has one
      row, and that row holds the first of the newest events received. */
  lemma LastWriteWins(log: Log, slot: Slot)
    requires Legal(log)
    ensures (exists i :: 0 <= i < |Run(log).rows| && SlotOf(Run(log).rows[i]) == slot)
            <==> (exists n :: Receives(log, n, slot))
    ensures forall i, j | 0 <= i < |Run(log).rows| && 0 <= j < |Run(log).rows| ::
              SlotOf(Run(log).rows[i]) == slot && SlotOf(Run(log).rows[j]) == slot ==> i == j
    ensures forall i | 0 <= i < |Run(log).rows| && SlotOf(Run(log).rows[i]) == slot ::
              exists n :: FirstNewest(log, n, slot) && Run(log).rows[i].(deleted := false) == StoredRow(log[n].event)
  {
    SlotRow(Run(log).rows, log, slot);
  }

  lemma SlotRow(rows: seq<Row>, log: Log, slot: Slot)
    requires Legal(log) && rows == Run(log).rows
    ensures (exists i :: 0 <= i < |rows| && SlotOf(rows[i]) == slot) <==> (exists n :: Receives(log, n, slot))
    ensures forall i, j | 0 <= i < |rows| && 0 <= j < |rows| ::
              SlotOf(rows[i]) == slot && SlotOf(rows[j]) == slot ==> i == j
    ensures forall i | 0 <= i < |rows| && SlotOf(rows[i]) == slot ::
              exists n :: FirstNewest(log, n, slot) && rows[i].(deleted := false) == StoredRow(log[n].event)
  {
    RunReflects(log);
    forall i | 0 <= i < |rows| && SlotOf(rows[i]) == slot
      ensures SlotIndex(rows, slot) == i && Justified(rows[i], log)
    {
      SlotIndexUnique(rows, i);
    }
  }

  /** Both unique constraints hold in every reachable table. */
  lemma ConstraintsHold(log: Log)
    requires Legal(log)
    ensures UniqueIds(Run(log).rows) && UniqueSlots(Run(log).rows)
  {
    RunReflects(log);
    ReflectedIdsUnique(Run(log).rows, log);
  }

  lemma ReflectedIdsUnique(rows: seq<Row>, log: Log)
    requires Reflects(rows, log) && Legal(log)
    ensures UniqueIds(rows)
  {
    forall i, j | 0 <= i < j < |rows| && rows[i].eventId == rows[j].eventId ensures false {
      var e := EventOf(rows[i], log);
      LegalAgain(log, e);
      SameIdSameEvent(rows, log, e, i);
      SameIdSameEvent(rows, log, e, j);
    }
  }

  /** The received event that a justified row holds. */
  ghost function EventOf(row: Row, log: Log): (e: Event)
    requires Justified(row, log)
    ensures Store(e) in log && row.(deleted := false) == StoredRow(e) && Fits(e)
    ensures row.eventId == ToBuffer(e.id) && SlotOf(row) == EventSlot(e)
  {
    var n :| FirstNewest(log, n, SlotOf(row)) && row.(deleted := false) == StoredRow(log[n].event);
    log[n].event
  }

  lemma LegalAgain(log: Log, e: Event)
    requires Legal(log) && Store(e) in log
    ensures Legal(log + [Store(e)])
  {
    var longer := log + [Store(e)];
    var k :| 0 <= k < |log| && log[k] == Store(e);
    forall m, n | 0 <= m < |longer| && 0 <= n < |longer| && longer[m].Store? && longer[n].Store?
      && longer[m].event.id == longer[n].event.id
      ensures longer[m].event == longer[n].event
    {
      assert longer[m] == log[if m < |log| then m else k];
      assert longer[n] == log[if n < |log| then n else k];
    }
  }

  // ---- deletion ----

  predicate Visible(rows: seq<Row>, id: string) {
    exists i :: 0 <= i < |rows| && rows[i].eventId == ToBuffer(id) && !rows[i].deleted
  }

  predicate MarkedDeleted(rows: seq<Row>, id: string) {
    exists i :: 0 <= i < |rows| && rows[i].eventId == ToBuffer(id) && rows[i].deleted
  }

  /** The event's slot has moved past it, or keeps it marked. */
  predicate Buried(rows: seq<Row>, e: Event) {
    var i := SlotIndex(rows, EventSlot(e));
    i >= 0 && rows[i].createdAt >= e.createdAt
    && (rows[i].createdAt == e.createdAt ==> rows[i].eventId == ToBuffer(e.id) && rows[i].deleted)
  }

  lemma RunStep(log: Log, n: nat)
    requires n < |log|
    ensures Run(log[..n + 1]) == Executed(Run(log[..n]), log[n]).0
  {
    assert log[..n + 1][..n] == log[..n];
  }

  lemma SlotStoredKeeps(rows: seq<Row>, row: Row, slot: Slot)
    requires UniqueSlots(rows) && SlotIndex(rows, slot) >= 0
    ensures var i, after := SlotIndex(rows, slot), SlotStored(rows, row);
            SlotIndex(after, slot) == i
            && (after[i] == rows[i] || (SlotOf(row) == slot && after[i] == row && rows[i].createdAt < row.createdAt))
  {
    var i, after := SlotIndex(rows, slot), SlotStored(rows, row);
    SlotStoredSlots(rows, row);
    assert SlotOf(after[i]) == slot;
    SlotIndexUnique(after, i);
  }

  lemma SoftDeletedKeeps(t: Table, pubkey: seq<Byte>, ids: set<seq<Byte>>, slot: Slot)
    requires UniqueSlots(t.rows) && SlotIndex(t.rows, slot) >= 0
    ensures var i, after := SlotIndex(t.rows, slot), SoftDeleted(t, pubkey, ids).rows;
            SlotIndex(after, slot) == i
            && (after[i] == t.rows[i] || after[i] == t.rows[i].(deleted := true))
  {
    var i, after := SlotIndex(t.rows, slot), SoftDeleted(t, pubkey, ids).rows;
    SoftDeletedRows(t, pubkey, ids);
    assert forall k :: 0 <= k < |after| ==> SlotOf(after[k]) == SlotOf(t.rows[k]);
    assert UniqueSlots(after);
    SlotIndexUnique(after, i);
  }

  /** One statement leaves a slot's row in place, marks it, or replaces it by a
      strictly newer event. */
  lemma SlotMovesForward(log: Log, s: Statement, slot: Slot)
    requires Legal(log + [s]) && SlotIndex(Run(log).rows, slot) >= 0
    ensures var before, after := Run(log).rows, Executed(Run(log), s).0.rows;
            var i := SlotIndex(before, slot);
            SlotIndex(after, slot) == i
            && (after[i] == before[i] || after[i] == before[i].(deleted := true)
                || before[i].createdAt < after[i].createdAt)
  {
    assert (log + [s])[..|log|] == log;
    LegalPrefix(log + [s], |log|);
    RunReflects(log);
    match s {
      case SoftDelete(pubkey, ids) => SoftDeletedKeeps(Run(log), ToBuffer(pubkey), Buffers(ids), slot);
      case Store(e) =>
        StoreIsSlotStore(Run(log), log, e);
        SlotStoredKeeps(Run(log).rows, StoredRow(e), slot);
    }
  }

  lemma {:induction false} BuriedStays(log: Log, k: nat, e: Event)
    requires Legal(log) && k <= |log| && Buried(Run(log[..k]).rows, e)
    ensures Buried(Run(log).rows, e)
    decreases |log| - k
  {
    if k == |log| {
      assert log[..k] == log;
    } else {
      assert log[..k] + [log[k]] == log[..k + 1];
      LegalPrefix(log, k + 1);
      SlotMovesForward(log[..k], log[k], EventSlot(e));
      RunStep(log, k);
      BuriedStays(log, k + 1, e);
    }
  }

  lemma BuriedIsInvisible(log: Log, e: Event)
    requires Legal(log) && Store(e) in log && Buried(Run(log).rows, e)
    ensures !Visible(Run(log).rows, e.id)
  {
    RunReflects(log);
    LegalAgain(log, e);
    var rows := Run(log).rows;
    forall i | 0 <= i < |rows| && rows[i].eventId == ToBuffer(e.id) ensures rows[i].deleted {
      SameIdSameEvent(rows, log, e, i);
    }
  }

  /** Once an identifier is marked deleted, no continuation of the run makes it
      visible again. */
  lemma DeletionIsPermanent(log: Log, k: nat, id: string)
    requires Legal(log) && k <= |log| && MarkedDeleted(Run(log[..k]).rows, id)
    ensures !Visible(Run(log).rows, id)
  {
    LegalPrefix(log, k);
    RunReflects(log[..k]);
    var rows := Run(log[..k]).rows;
    var i :| 0 <= i < |rows| && rows[i].eventId == ToBuffer(id) && rows[i].deleted;
    var e := EventOf(rows[i], log[..k]);
    SlotIndexUnique(rows, i);
    assert Store(e) in log;
    BuriedStays(log, k, e);
    BuriedIsInvisible(log, e);
    assert ToBuffer(e.id) == ToBuffer(id);
  }

  /** A deletion marks exactly the rows of its own author that it names; every
      other row, in particular every row of another author, is as before. */
  lemma DeletionIsScoped(t: Table, pubkey: string, ids: seq<string>)
    requires IsKey(pubkey)
    ensures var after := Executed(t, SoftDelete(pubkey, ids)).0.rows;
      |after| == |t.rows| &&
      forall i :: 0 <= i < |t.rows| ==>
        && (t.rows[i].pubkey == ToBuffer(pubkey) && t.rows[i].eventId in Buffers(ids) ==> after[i].deleted)
        && (after[i] != t.rows[i] ==> FromBuffer(t.rows[i].pubkey) == pubkey)
        && (after[i] != t.rows[i] ==> t.rows[i].eventId in Buffers(ids) && after[i] == t.rows[i].(deleted := true))
  {
    SoftDeletedRows(t, ToBuffer(pubkey), Buffers(ids));
    TextRoundTrip(pubkey);
  }

  // ---- broadcasts ----

  /** A store reports a row, and so is broadcast, exactly when it changes the
      table. */
  lemma AcceptedMeansChanged(log: Log, n: nat)
    requires Legal(log) && n < |log| && log[n].Store?
    ensures Accepted(log, n) <==> Run(log[..n + 1]).rows != Run(log[..n]).rows
  {
    LegalPrefix(log, n);
    LegalPrefix(log, n + 1);
    assert log[..n] + [log[n]] == log[..n + 1];
    RunReflects(log[..n]);
    RunStep(log, n);
    StoreIsSlotStore(Run(log[..n]), log[..n], log[n].event);
    var rows, row := Run(log[..n]).rows, StoredRow(log[n].event);
    if Accepted(log, n) {
      var i := SlotIndex(rows, SlotOf(row));
      assert i >= 0 ==> SlotStored(rows, row)[i] == row;
    }
  }

  predicate AtLeast(rows: seq<Row>, slot: Slot, createdAt: nat) {
    var i := SlotIndex(rows, slot);
    i >= 0 && createdAt <= rows[i].createdAt
  }

  lemma {:induction false} AtLeastStays(log: Log, k: nat, n: nat, slot: Slot, createdAt: nat)
    requires Legal(log) && k <= n <= |log| && AtLeast(Run(log[..k]).rows, slot, createdAt)
    ensures AtLeast(Run(log[..n]).rows, slot, createdAt)
    decreases n - k
  {
    if k < n {
      assert log[..k] + [log[k]] == log[..k + 1];
      LegalPrefix(log, k + 1);
      SlotMovesForward(log[..k], log[k], slot);
      RunStep(log, k);
      AtLeastStays(log, k + 1, n, slot, createdAt);
    }
  }

  lemma SlotStoredHolds(rows: seq<Row>, row: Row)
    requires UniqueSlots(rows) && !AtLeast(rows, SlotOf(row), row.createdAt)
    ensures AtLeast(SlotStored(rows, row), SlotOf(row), row.createdAt)
  {
    var i := SlotIndex(rows, SlotOf(row));
    SlotStoredSlots(rows, row);
    SlotIndexUnique(SlotStored(rows, row), if i < 0 then |rows| else i);
  }

  lemma CountedStores(log: Log, e: Event)
    requires Legal(log) && Legal(log + [Store(e)]) && AfterStore(Run(log), e).1 > 0
    ensures UniqueSlots(Run(log).rows) && !AtLeast(Run(log).rows, EventSlot(e), e.createdAt)
    ensures AfterStore(Run(log), e).0.rows == SlotStored(Run(log).rows, StoredRow(e))
  {
    RunReflects(log);
    StoreIsSlotStore(Run(log), log, e);
  }

  lemma CountedStoresNext(before: Log, e: Event, after: Log)
    requires Legal(before) && Legal(after) && after == before + [Store(e)] && AfterStore(Run(before), e).1 > 0
    ensures UniqueSlots(Run(before).rows) && !AtLeast(Run(before).rows, EventSlot(e), e.createdAt)
    ensures Run(after).rows == SlotStored(Run(before).rows, StoredRow(e))
  {
    assert after[..|before|] == before;
    CountedStores(before, e);
  }

  lemma AcceptedStores(log: Log, n: nat)
    requires Legal(log) && n < |log| && log[n].Store? && Accepted(log, n)
    ensures UniqueSlots(Run(log[..n]).rows)
    ensures Run(log[..n + 1]).rows == SlotStored(Run(log[..n]).rows, StoredRow(log[n].event))
    ensures !AtLeast(Run(log[..n]).rows, EventSlot(log[n].event), log[n].event.createdAt)
  {
    LegalPrefix(log, n);
    LegalPrefix(log, n + 1);
    assert log[..n] + [log[n]] == log[..n + 1];
    CountedStoresNext(log[..n], log[n].event, log[..n + 1]);
  }

  lemma AcceptedIsHeld(log: Log, n: nat)
    requires Legal(log) && n < |log| && log[n].Store? && Accepted(log, n)
    ensures AtLeast(Run(log[..n + 1]).rows, EventSlot(log[n].event), log[n].event.createdAt)
    ensures !AtLeast(Run(log[..n]).rows, EventSlot(log[n].event), log[n].event.createdAt)
  {
    AcceptedStores(log, n);
    SlotStoredHolds(Run(log[..n]).rows, StoredRow(log[n].event));
  }

  /** Accepted stores of one slot, which are the ones broadcast, have strictly
      increasing times. */
  lemma BroadcastsIncrease(log: Log, m: nat, n: nat)
    requires Legal(log) && m < n < |log| && log[m].Store? && log[n].Store?
    requires Accepted(log, m) && Accepted(log, n)
    requires EventSlot(log[m].event) == EventSlot(log[n].event)
    ensures log[m].event.createdAt < log[n].event.createdAt
  {
    AcceptedIsHeld(log, m);
    AcceptedIsHeld(log, n);
    AtLeastStays(log, m + 1, n, EventSlot(log[m].event), log[m].event.createdAt);
  }

  /** A stored identifier is accepted, and so broadcast, at most once per run. */
  lemma BroadcastOnce(log: Log, m: nat, n: nat)
    requires Legal(log) && m < |log| && n < |log| && log[m].Store? && log[n].Store?
    requires Accepted(log, m) && Accepted(log, n)
    requires log[m].event.id == log[n].event.id
    ensures m == n
  {
    if m < n {
      BroadcastsIncrease(log, m, n);
    } else if n < m {
      BroadcastsIncrease(log, n, m);
    }
  }

  // ---- convergence ----

  ghost predicate DeleteFree(log: Log) {
    forall n :: 0 <= n < |log| ==> log[n].Store?
  }

  ghost predicate SameEvents(a: Log, b: Log) {
    forall s :: s in a <==> s in b
  }

  /** No two different events share the greatest time of their slot. */
  ghost predicate Decided(log: Log) {
    forall m, n, slot ::
      Receives(log, m, slot) && Receives(log, n, slot) && log[m].event != log[n].event
      && log[m].event.createdAt == log[n].event.createdAt ==>
        exists k :: Receives(log, k, slot) && log[m].event.createdAt < log[k].event.createdAt
  }

  function Contents(t: Table): set<Row> {
    set r | r in t.rows
  }

  lemma {:induction false} NothingMarked(log: Log)
    requires Legal(log) && DeleteFree(log)
    ensures forall r :: r in Run(log).rows ==> !r.deleted
  {
    if log != [] {
      var before, s := log[..|log| - 1], log[|log| - 1];
      assert log == before + [s];
      LegalPrefix(log, |log| - 1);
      NothingMarked(before);
      RunReflects(before);
      StoreIsSlotStore(Run(before), before, s.event);
    }
  }

  lemma LegalReordered(log: Log, other: Log)
    requires Legal(log) && SameEvents(log, other)
    ensures Legal(other)
  {
    forall m, n | 0 <= m < |other| && 0 <= n < |other| && other[m].Store? && other[n].Store?
      && other[m].event.id == other[n].event.id
      ensures other[m].event == other[n].event
    {
      assert other[m] in log && other[n] in log;
    }
    forall n | 0 <= n < |other| && other[n].Store? ensures ValidEvent(other[n].event) {
      assert other[n] in log;
    }
  }

  lemma SameNewest(a: Log, b: Log, m: int, n: int, slot: Slot)
    requires Legal(a) && SameEvents(a, b) && Decided(a)
    requires FirstNewest(a, m, slot) && FirstNewest(b, n, slot)
    ensures a[m].event == b[n].event
  {
    assert b[n] in a && a[m] in b;
    var n' :| 0 <= n' < |a| && a[n'] == b[n];
    var m' :| 0 <= m' < |b| && b[m'] == a[m];
    assert Receives(a, n', slot) && Receives(b, m', slot);
    assert a[n'].event.createdAt == a[m].event.createdAt;
  }

  lemma ReceivedToo(a: Log, b: Log, m: int, slot: Slot) returns (n: int)
    requires SameEvents(a, b) && Receives(a, m, slot)
    ensures Receives(b, n, slot) && b[n] == a[m]
  {
    assert a[m] in b;
    n :| 0 <= n < |b| && b[n] == a[m];
  }

  /** A row of one table is, up to its mark, a row of the other. */
  lemma RowIncluded(a: Log, b: Log, rows: seq<Row>, r: Row) returns (other: Row)
    requires Legal(a) && SameEvents(a, b) && Decided(a) && Reflects(rows, b) && Justified(r, a)
    ensures other in rows && other.(deleted := false) == r.(deleted := false)
  {
    var m :| FirstNewest(a, m, SlotOf(r)) && r.(deleted := false) == StoredRow(a[m].event);
    var _ := ReceivedToo(a, b, m, SlotOf(r));
    other := rows[SlotIndex(rows, SlotOf(r))];
    var n :| FirstNewest(b, n, SlotOf(other)) && other.(deleted := false) == StoredRow(b[n].event);
    SameNewest(a, b, m, n, SlotOf(r));
  }

  lemma ContentsIncluded(a: Log, b: Log)
    requires Legal(a) && DeleteFree(a) && DeleteFree(b) && SameEvents(a, b) && Decided(a)
    ensures Contents(Run(a)) <= Contents(Run(b))
  {
    LegalReordered(a, b);
    RunReflects(a);
    RunReflects(b);
    NothingMarked(a);
    NothingMarked(b);
    forall r | r in Run(a).rows ensures r in Run(b).rows {
      var m := RowIncluded(a, b, Run(b).rows, r);
      assert !r.deleted && !m.deleted;
    }
  }

  lemma Arranged(log: Log, m: int)
    requires Legal(log) && DeleteFree(log) && 0 <= m < |log|
    ensures Legal([log[m]] + log) && DeleteFree([log[m]] + log) && SameEvents(log, [log[m]] + log)
  {
    var arranged := [log[m]] + log;
    forall s ensures s in log <==> s in arranged {
      if s in arranged { assert s == log[m] || s in log; }
    }
    LegalReordered(log, arranged);
  }

  lemma FirstOfTies(log: Log, m: int, slot: Slot, n: int)
    requires Receives(log, m, slot)
    requires forall k :: Receives(log, k, slot) ==> log[k].event.createdAt <= log[m].event.createdAt
    requires FirstNewest([log[m]] + log, n, slot)
    ensures n == 0
  {
    var arranged := [log[m]] + log;
    assert Receives(arranged, 0, slot);
    assert forall k :: 0 < k < |arranged| ==> arranged[k] == log[k - 1];
    forall k | Receives(arranged, k, slot) ensures arranged[k].event.createdAt <= log[m].event.createdAt {
      if k > 0 { assert Receives(log, k - 1, slot); }
    }
  }

  lemma TieGoesToTheFirst(log: Log, m: int, slot: Slot)
    requires Legal(log) && DeleteFree(log) && Receives(log, m, slot)
    requires forall k :: Receives(log, k, slot) ==> log[k].event.createdAt <= log[m].event.createdAt
    ensures var arranged := [log[m]] + log;
      Legal(arranged) && DeleteFree(arranged) && SameEvents(log, arranged)
      && StoredRow(log[m].event) in Run(arranged).rows
      && forall r :: r in Run(arranged).rows && SlotOf(r) == slot ==> r == StoredRow(log[m].event)
  {
    var arranged := [log[m]] + log;
    Arranged(log, m);
    RunReflects(arranged);
    NothingMarked(arranged);
    var rows := Run(arranged).rows;
    assert Receives(arranged, 0, slot);
    forall r | r in rows && SlotOf(r) == slot ensures r == StoredRow(log[m].event) {
      var n :| FirstNewest(arranged, n, slot) && r.(deleted := false) == StoredRow(arranged[n].event);
      FirstOfTies(log, m, slot, n);
    }
    assert rows[SlotIndex(rows, slot)] in rows;
  }

  /** Every delete-free run of the same events ends with the same rows,
      whatever the arrival order and however often events are re-delivered. */
  ghost predicate Converges(log: Log) {
    forall a, b :: DeleteFree(a) && DeleteFree(b) && SameEvents(log, a) && SameEvents(log, b) ==>
                     Contents(Run(a)) == Contents(Run(b))
  }

  lemma SlotApart(t: Table, u: Table, slot: Slot, x: Row, y: Row)
    requires x in t.rows && SlotOf(x) == slot && x != y
    requires forall r :: r in u.rows && SlotOf(r) == slot ==> r == y
    ensures Contents(t) != Contents(u)
  {
    assert x in Contents(t);
    assert x !in Contents(u);
  }

  lemma NotConverging(log: Log, a: Log, b: Log)
    requires DeleteFree(a) && DeleteFree(b) && SameEvents(log, a) && SameEvents(log, b)
    requires Contents(Run(a)) != Contents(Run(b))
    ensures !Converges(log)
  {
  }

  lemma TiesDiverge(log: Log, m: int, n: int, slot: Slot)
    requires Legal(log) && DeleteFree(log) && Receives(log, m, slot) && Receives(log, n, slot)
    requires log[m].event != log[n].event && log[m].event.createdAt == log[n].event.createdAt
    requires forall k :: Receives(log, k, slot) ==> log[k].event.createdAt <= log[m].event.createdAt
    ensures !Converges(log)
  {
    var a, b := [log[m]] + log, [log[n]] + log;
    TieGoesToTheFirst(log, m, slot);
    TieGoesToTheFirst(log, n, slot);
    ToBufferDistinct(log, m, n);
    SlotApart(Run(a), Run(b), slot, StoredRow(log[m].event), StoredRow(log[n].event));
    NotConverging(log, a, b);
  }

  /** Arrival order does not matter exactly when no slot has a tie for its
      greatest time. */
  lemma ConvergesUnlessTied(log: Log)
    requires Legal(log) && DeleteFree(log)
    ensures Converges(log) <==> Decided(log)
  {
    if Decided(log) {
      forall a, b | DeleteFree(a) && DeleteFree(b) && SameEvents(log, a) && SameEvents(log, b)
        ensures Contents(Run(a)) == Contents(Run(b))
      {
        AllRunsAgree(log, a);
        AllRunsAgree(log, b);
      }
    } else {
      var m, n, slot :| Receives(log, m, slot) && Receives(log, n, slot) && log[m].event != log[n].event
        && log[m].event.createdAt == log[n].event.createdAt
        && !exists k :: Receives(log, k, slot) && log[m].event.createdAt < log[k].event.createdAt;
      TiesDiverge(log, m, n, slot);
    }
  }

  lemma ToBufferDistinct(log: Log, m: int, n: int)
    requires Legal(log) && 0 <= m < |log| && 0 <= n < |log| && log[m].Store? && log[n].Store?
    requires log[m].event != log[n].event
    ensures StoredRow(log[m].event) != StoredRow(log[n].event)
  {
    if ToBuffer(log[m].event.id) == ToBuffer(log[n].event.id) {
      ToBufferInjective(log[m].event.id, log[n].event.id);
    }
  }

  lemma AllRunsAgree(log: Log, other: Log)
    requires Legal(log) && DeleteFree(log) && Decided(log) && DeleteFree(other) && SameEvents(log, other)
    ensures Contents(Run(log)) == Contents(Run(other))
  {
    ContentsIncluded(log, other);
    LegalReordered(log, other);
    forall m, n, slot | Receives(other, m, slot) && Receives(other, n, slot) && other[m].event != other[n].event
      && other[m].event.createdAt == other[n].event.createdAt
      ensures exists k :: Receives(other, k, slot) && other[m].event.createdAt < other[k].event.createdAt
    {
      assert other[m] in log && other[n] in log;
      var m' :| 0 <= m' < |log| && log[m'] == other[m];
      var n' :| 0 <= n' < |log| && log[n'] == other[n];
      assert Receives(log, m', slot) && Receives(log, n', slot);
      var k' :| Receives(log, k', slot) && log[m'].event.createdAt < log[k'].event.createdAt;
      assert log[k'] in other;
      var k :| 0 <= k < |other| && other[k] == log[k'];
      assert Receives(other, k, slot);
    }
    ContentsIncluded(other, log);
  }
}
