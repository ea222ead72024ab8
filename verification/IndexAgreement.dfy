/** The tag index and the table say the same in every reachable state. */
module IndexAgreement {
  import opened Wrappers
  import opened Hex
  import opened NostrEvents
  import opened TagIndex
  import opened EventStore
  import opened StoreHistory
  import opened StoreGuarantees

  function RowTags(row: Row): multiset<TagRow> {
    multiset(TagRowsOf(row.eventId, row.tags))
  }

  /** The index rows that the current rows call for, with multiplicity. */
  function AllTagRows(rows: seq<Row>): multiset<TagRow> {
    if rows == [] then multiset{}
    else AllTagRows(rows[..|rows| - 1]) + RowTags(rows[|rows| - 1])
  }

  // ---- sums ----

  function Sum(counts: seq<nat>): nat {
    if counts == [] then 0 else Sum(counts[..|counts| - 1]) + counts[|counts| - 1]
  }

  lemma {:induction false} SumExchange(counts: seq<nat>, i: nat, c: nat)
    requires i < |counts|
    ensures Sum(counts[i := c]) + counts[i] == Sum(counts) + c
  {
    var n := |counts| - 1;
    if i == n {
      assert counts[i := c][..n] == counts[..n];
    } else {
      SumExchange(counts[..n], i, c);
      assert counts[i := c][..n] == counts[..n][i := c];
    }
  }

  lemma {:induction false} SumOfOne(counts: seq<nat>, i: nat)
    requires i < |counts| && forall j :: 0 <= j < |counts| && j != i ==> counts[j] == 0
    ensures Sum(counts) == counts[i]
  {
    SumExchange(counts, i, 0);
    SumOfNone(counts[i := 0]);
  }

  lemma {:induction false} SumOfNone(counts: seq<nat>)
    requires forall j :: 0 <= j < |counts| ==> counts[j] == 0
    ensures Sum(counts) == 0
  {
    if counts != [] { SumOfNone(counts[..|counts| - 1]); }
  }

  // ---- agreement, counted index row by index row ----

  function RowCount(row: Row, x: TagRow): nat {
    RowTags(row)[x]
  }

  function Counts(rows: seq<Row>, x: TagRow): (counts: seq<nat>)
    ensures |counts| == |rows|
    ensures forall i :: 0 <= i < |rows| ==> counts[i] == RowCount(rows[i], x)
  {
    seq(|rows|, i requires 0 <= i < |rows| => RowCount(rows[i], x))
  }

  ghost predicate Agrees(t: Table) {
    forall x :: multiset(t.tagRows)[x] == Sum(Counts(t.rows, x))
  }

  lemma {:induction false} AllTagRowsCounted(rows: seq<Row>, x: TagRow)
    ensures AllTagRows(rows)[x] == Sum(Counts(rows, x))
  {
    if rows != [] {
      AllTagRowsCounted(rows[..|rows| - 1], x);
      assert Counts(rows, x)[..|rows| - 1] == Counts(rows[..|rows| - 1], x);
    }
  }

  lemma RowCountElsewhere(row: Row, x: TagRow)
    requires x.eventId != row.eventId
    ensures RowCount(row, x) == 0
  {
    TagRowsBelong(row.eventId, row.tags);
  }

  lemma {:induction false} WithoutCounts(tagRows: seq<TagRow>, id: seq<Byte>, x: TagRow)
    ensures multiset(Without(tagRows, id))[x] == if x.eventId == id then 0 else multiset(tagRows)[x]
  {
    if tagRows != [] {
      WithoutCounts(tagRows[..|tagRows| - 1], id, x);
      assert tagRows == tagRows[..|tagRows| - 1] + [tagRows[|tagRows| - 1]];
    }
  }

  lemma RetaggedCounts(tagRows: seq<TagRow>, oldId: Option<seq<Byte>>, row: Row, x: TagRow)
    ensures multiset(Retagged(tagRows, oldId, row))[x]
            == (if oldId == Some(x.eventId) then 0 else multiset(tagRows)[x]) + RowCount(row, x)
  {
    if oldId.Some? { WithoutCounts(tagRows, oldId.value, x); }
  }

  /** Only one row speaks for an identifier. */
  lemma CountOfId(rows: seq<Row>, i: nat, x: TagRow)
    requires UniqueIds(rows) && i < |rows| && x.eventId == rows[i].eventId
    ensures Sum(Counts(rows, x)) == RowCount(rows[i], x)
  {
    forall j | 0 <= j < |rows| && j != i ensures Counts(rows, x)[j] == 0 {
      RowCountElsewhere(rows[j], x);
    }
    SumOfOne(Counts(rows, x), i);
  }

  lemma AppendedAgrees(t: Table, row: Row)
    requires Agrees(t)
    ensures Agrees(Appended(t, row))
  {
    forall x ensures multiset(Appended(t, row).tagRows)[x] == Sum(Counts(t.rows + [row], x)) {
      RetaggedCounts(t.tagRows, None, row, x);
      assert Counts(t.rows + [row], x)[..|t.rows|] == Counts(t.rows, x);
    }
  }

  lemma CountsExchange(rows: seq<Row>, i: nat, row: Row, x: TagRow)
    requires i < |rows|
    ensures Sum(Counts(rows[i := row], x)) + RowCount(rows[i], x) == Sum(Counts(rows, x)) + RowCount(row, x)
  {
    assert Counts(rows[i := row], x) == Counts(rows, x)[i := RowCount(row, x)];
    SumExchange(Counts(rows, x), i, RowCount(row, x));
  }

  lemma ReplacedCounts(t: Table, i: nat, row: Row, x: TagRow)
    requires multiset(t.tagRows)[x] == Sum(Counts(t.rows, x)) && i < |t.rows| && UniqueIds(t.rows)
    ensures multiset(Retagged(t.tagRows, Some(t.rows[i].eventId), row))[x] == Sum(Counts(t.rows[i := row], x))
  {
    CountsExchange(t.rows, i, row, x);
    RetaggedCounts(t.tagRows, Some(t.rows[i].eventId), row, x);
    if x.eventId == t.rows[i].eventId {
      CountOfId(t.rows, i, x);
    } else {
      RowCountElsewhere(t.rows[i], x);
    }
  }

  /** Replacing a row, under a new identifier or its own, keeps the agreement. */
  lemma ReplacedAgrees(t: Table, i: nat, row: Row)
    requires Agrees(t) && i < |t.rows| && UniqueIds(t.rows)
    ensures Agrees(Replaced(t, i, row))
  {
    forall x ensures multiset(Replaced(t, i, row).tagRows)[x] == Sum(Counts(Replaced(t, i, row).rows, x)) {
      ReplacedCounts(t, i, row, x);
    }
  }

  ghost predicate SpeaksFor(tagRows: seq<TagRow>, rows: seq<Row>, x: TagRow) {
    forall i :: 0 <= i < |rows| && rows[i].eventId == x.eventId ==> multiset(tagRows)[x] == RowCount(rows[i], x)
  }

  /** A soft delete rewrites the index rows of the rows it marks as they were. */
  lemma {:induction false} SoftDeletedCounts(t: Table, pubkey: seq<Byte>, ids: set<seq<Byte>>, x: TagRow)
    requires SpeaksFor(t.tagRows, t.rows, x)
    ensures multiset(SoftDeleted(t, pubkey, ids).tagRows)[x] == multiset(t.tagRows)[x]
    decreases |t.rows|
  {
    if t.rows != [] {
      var n, last := |t.rows| - 1, t.rows[|t.rows| - 1];
      var init := Table(t.rows[..n], t.tagRows);
      assert forall i :: 0 <= i < n ==> init.rows[i] == t.rows[i];
      SoftDeletedCounts(init, pubkey, ids, x);
      RetaggedCounts(SoftDeleted(init, pubkey, ids).tagRows, Some(last.eventId), last, x);
      if x.eventId != last.eventId { RowCountElsewhere(last, x); }
    }
  }

  lemma SoftDeletedAgrees(t: Table, pubkey: seq<Byte>, ids: set<seq<Byte>>)
    requires Agrees(t) && UniqueIds(t.rows)
    ensures Agrees(SoftDeleted(t, pubkey, ids))
  {
    var after := SoftDeleted(t, pubkey, ids);
    SoftDeletedRows(t, pubkey, ids);
    forall x ensures multiset(after.tagRows)[x] == Sum(Counts(after.rows, x)) {
      forall i | 0 <= i < |t.rows| && t.rows[i].eventId == x.eventId
        ensures multiset(t.tagRows)[x] == RowCount(t.rows[i], x)
      {
        CountOfId(t.rows, i, x);
      }
      SoftDeletedCounts(t, pubkey, ids, x);
      assert Counts(after.rows, x) == Counts(t.rows, x);
    }
  }

  /** A store leaves the table, adds a row, or replaces the row of its slot. */
  lemma StoreShape(t: Table, e: Event)
    ensures var after, i := AfterStore(t, e).0, SlotIndex(t.rows, EventSlot(e));
      after == t || after == Appended(t, StoredRow(e)) || (i >= 0 && after == Replaced(t, i, StoredRow(e)))
  {
  }

  lemma StoreAgrees(t: Table, e: Event)
    requires Agrees(t) && UniqueIds(t.rows)
    ensures Agrees(AfterStore(t, e).0)
  {
    StoreShape(t, e);
    AppendedAgrees(t, StoredRow(e));
    var i := SlotIndex(t.rows, EventSlot(e));
    if i >= 0 { ReplacedAgrees(t, i, StoredRow(e)); }
  }

  lemma {:induction false} RunAgrees(log: Log)
    requires Legal(log)
    ensures Agrees(Run(log))
  {
    if log == [] {
      assert forall x :: Sum(Counts([], x)) == 0;
    } else {
      var before, s := log[..|log| - 1], log[|log| - 1];
      LegalPrefix(log, |log| - 1);
      RunAgrees(before);
      ConstraintsHold(before);
      match s {
        case Store(e) => StoreAgrees(Run(before), e);
        case SoftDelete(pubkey, ids) => SoftDeletedAgrees(Run(before), ToBuffer(pubkey), Buffers(ids));
      }
    }
  }

  /** After any run the index holds exactly, with multiplicity, the
      one-character tags with values of the current rows: across inserts,
      replacements under a new identifier, and soft deletes. */
  lemma IndexAgrees(log: Log)
    requires Legal(log)
    ensures multiset(Run(log).tagRows) == AllTagRows(Run(log).rows)
  {
    RunAgrees(log);
    forall x ensures multiset(Run(log).tagRows)[x] == AllTagRows(Run(log).rows)[x] {
      AllTagRowsCounted(Run(log).rows, x);
    }
  }

  /** The index rows under a stored row's identifier are that row's own. */
  lemma IndexOfRow(log: Log, i: nat, x: TagRow)
    requires Legal(log) && i < |Run(log).rows| && x.eventId == Run(log).rows[i].eventId
    ensures x in Run(log).tagRows <==> x in TagRowsOf(Run(log).rows[i].eventId, Run(log).rows[i].tags)
  {
    RunAgrees(log);
    ConstraintsHold(log);
    CountOfId(Run(log).rows, i, x);
    var row := Run(log).rows[i];
    assert multiset(Run(log).tagRows)[x] == RowCount(row, x);
  }
}
