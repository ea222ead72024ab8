/** What the database answers to one compiled query: the rows it selects, one for
    each row of the tag index that it is joined with, in order of time, cut at
    the limit (nostream-share/src/repositories/event-repository.ts). */
module QueryResults {
  import opened Wrappers
  import opened Hex
  import opened NostrEvents
  import opened TagIndex
  import opened EventStore
  import opened StoreHistory
  import opened FilterQuery
  import opened QueryExactness

  /** The position of a row, and of the index row it is joined with, if any. */
  datatype Hit = Hit(row: nat, tag: Option<nat>)

  ghost predicate IsHit(q: Query, t: Table, h: Hit) {
    && GroupsBind(q.groups)
    && h.row < |t.rows| && (h.tag.Some? ==> h.tag.value < |t.tagRows|)
    && var row, tag := t.rows[h.row], if h.tag.Some? then Some(t.tagRows[h.tag.value]) else None;
       (if q.joinsTags then Joined(row, t.tagRows, tag) else tag == None) && WhereHolds(q.groups, row, tag)
  }

  /** ORDER BY event_created_at: may the first row stand before the second? */
  predicate InOrder(q: Query, first: Row, second: Row) {
    if q.newestFirst then first.createdAt >= second.createdAt else first.createdAt <= second.createdAt
  }

  predicate Within(t: Table, hits: seq<Hit>) {
    forall k :: 0 <= k < |hits| ==> hits[k].row < |t.rows|
  }

  predicate Ordered(q: Query, t: Table, hits: seq<Hit>)
    requires Within(t, hits)
  {
    forall k, m :: 0 <= k < m < |hits| ==> InOrder(q, t.rows[hits[k].row], t.rows[hits[m].row])
  }

  predicate NoRepeats(hits: seq<Hit>) {
    forall k, m :: 0 <= k < m < |hits| ==> hits[k] != hits[m]
  }

  /** An answer to the query; rows of one time may come in any order. */
  ghost predicate Answer(q: Query, t: Table, hits: seq<Hit>) {
    && (forall k :: 0 <= k < |hits| ==> IsHit(q, t, hits[k]))
    && NoRepeats(hits) && Within(t, hits) && Ordered(q, t, hits)
    && |hits| <= q.limit
    && forall h :: IsHit(q, t, h) && h !in hits ==>
         |hits| == q.limit && forall k :: 0 <= k < |hits| ==> InOrder(q, t.rows[hits[k].row], t.rows[h.row])
  }

  function RowsAt(t: Table, hits: seq<Hit>): (rows: seq<Row>)
    requires Within(t, hits)
    ensures |rows| == |hits| && forall k :: 0 <= k < |hits| ==> rows[k] == t.rows[hits[k].row]
  {
    seq(|hits|, k requires 0 <= k < |hits| => t.rows[hits[k].row])
  }

  // ---- hits and selection ----

  /** A row is selected exactly when it is hit. */
  lemma SelectedIsHit(q: Query, t: Table, i: nat)
    requires i < |t.rows|
    ensures Selects(q, t.rows[i], t.tagRows) <==> exists h: Hit :: h.row == i && IsHit(q, t, h)
  {
    var row := t.rows[i];
    if Selects(q, row, t.tagRows) {
      if q.joinsTags {
        var tag :| Joined(row, t.tagRows, tag) && WhereHolds(q.groups, row, tag);
        if tag.Some? {
          var k :| 0 <= k < |t.tagRows| && t.tagRows[k] == tag.value;
          assert IsHit(q, t, Hit(i, Some(k)));
        } else {
          assert IsHit(q, t, Hit(i, None));
        }
      } else {
        assert IsHit(q, t, Hit(i, None));
      }
    }
    if h: Hit :| h.row == i && IsHit(q, t, h) {
      assert q.joinsTags ==> Joined(row, t.tagRows, if h.tag.Some? then Some(t.tagRows[h.tag.value]) else None);
    }
  }

  // ---- every query has an answer ----

  /** Where a hit goes in an ordered list. */
  lemma {:induction false} Inserted(q: Query, t: Table, hits: seq<Hit>, h: Hit) returns (r: seq<Hit>)
    requires Within(t, hits) && Ordered(q, t, hits) && NoRepeats(hits) && h !in hits && h.row < |t.rows|
    ensures Within(t, r) && Ordered(q, t, r) && NoRepeats(r)
    ensures forall x :: x in r <==> x in hits || x == h
  {
    if hits == [] {
      r := [h];
    } else if InOrder(q, t.rows[h.row], t.rows[hits[0].row]) {
      r := [h] + hits;
    } else {
      var rest := Inserted(q, t, hits[1..], h);
      r := [hits[0]] + rest;
      assert hits == [hits[0]] + hits[1..];
      forall m | 0 <= m < |rest| ensures InOrder(q, t.rows[hits[0].row], t.rows[rest[m].row]) && rest[m] != hits[0] {
        assert rest[m] in rest;
      }
    }
  }

  lemma {:induction false} Arranged(q: Query, t: Table, s: set<Hit>) returns (r: seq<Hit>)
    requires forall h :: h in s ==> h.row < |t.rows|
    ensures Within(t, r) && Ordered(q, t, r) && NoRepeats(r) && forall x :: x in r <==> x in s
    decreases s
  {
    r := [];
    if s != {} {
      var h :| h in s;
      var rest := Arranged(q, t, s - {h});
      r := Inserted(q, t, rest, h);
    }
  }

  ghost function Hits(q: Query, t: Table): (s: set<Hit>)
    ensures forall h :: h in s <==> IsHit(q, t, h)
  {
    var plain := set i | 0 <= i < |t.rows| && IsHit(q, t, Hit(i, None)) :: Hit(i, None);
    var joined := set i, k | 0 <= i < |t.rows| && 0 <= k < |t.tagRows| && IsHit(q, t, Hit(i, Some(k))) :: Hit(i, Some(k));
    assert forall h :: IsHit(q, t, h) ==> h in plain || h in joined by {
      forall h | IsHit(q, t, h) ensures h in plain || h in joined {
        if h.tag.Some? { assert h == Hit(h.row, Some(h.tag.value)); } else { assert h == Hit(h.row, None); }
      }
    }
    plain + joined
  }

  lemma AnswerExists(q: Query, t: Table) returns (hits: seq<Hit>)
    ensures Answer(q, t, hits)
  {
    var all := Arranged(q, t, Hits(q, t));
    hits := if |all| <= q.limit then all else all[..q.limit];
    forall k | 0 <= k < |hits| ensures IsHit(q, t, hits[k]) { assert all[k] in all; }
    forall h | IsHit(q, t, h) && h !in hits
      ensures |hits| == q.limit && forall k :: 0 <= k < |hits| ==> InOrder(q, t.rows[hits[k].row], t.rows[h.row])
    {
      var m :| 0 <= m < |all| && all[m] == h;
      assert forall k :: 0 <= k < |hits| ==> all[k] == hits[k] && hits[k] in hits;
      assert m >= q.limit;
    }
  }

  // ---- what a filter is answered ----

  /** A filter with a limit gets at most that many rows, newest first, and
      every row left out is no newer than any of them; rows are left out only
      when the limit is reached. */
  lemma LimitedAnswer(f: Filter, t: Table, hits: seq<Hit>)
    requires f.limit.Some? && Answer(QueryFor(f), t, hits)
    ensures |hits| <= f.limit.value && Within(t, hits)
    ensures var rows := RowsAt(t, hits);
      && (forall k, m :: 0 <= k < m < |rows| ==> rows[k].createdAt >= rows[m].createdAt)
      && (forall k :: 0 <= k < |rows| ==> Selects(QueryFor(f), rows[k], t.tagRows))
      && forall i :: 0 <= i < |t.rows| && Selects(QueryFor(f), t.rows[i], t.tagRows) && t.rows[i] !in rows ==>
           |rows| == f.limit.value && forall k :: 0 <= k < |rows| ==> rows[k].createdAt >= t.rows[i].createdAt
  {
    AnsweredRows(QueryFor(f), t, hits);
  }

  /** Without a limit at most 500, oldest first, and every row left out is no
      older. */
  lemma UnlimitedAnswer(f: Filter, t: Table, hits: seq<Hit>)
    requires f.limit.None? && Answer(QueryFor(f), t, hits)
    ensures |hits| <= 500 && Within(t, hits)
    ensures var rows := RowsAt(t, hits);
      && (forall k, m :: 0 <= k < m < |rows| ==> rows[k].createdAt <= rows[m].createdAt)
      && (forall k :: 0 <= k < |rows| ==> Selects(QueryFor(f), rows[k], t.tagRows))
      && forall i :: 0 <= i < |t.rows| && Selects(QueryFor(f), t.rows[i], t.tagRows) && t.rows[i] !in rows ==>
           |rows| == 500 && forall k :: 0 <= k < |rows| ==> rows[k].createdAt <= t.rows[i].createdAt
  {
    AnsweredRows(QueryFor(f), t, hits);
  }

  lemma AnsweredRows(q: Query, t: Table, hits: seq<Hit>)
    requires Answer(q, t, hits)
    ensures var rows := RowsAt(t, hits);
      && (forall k :: 0 <= k < |rows| ==> Selects(q, rows[k], t.tagRows))
      && forall i :: 0 <= i < |t.rows| && Selects(q, t.rows[i], t.tagRows) && t.rows[i] !in rows ==>
           |rows| == q.limit && forall k :: 0 <= k < |rows| ==> InOrder(q, rows[k], t.rows[i])
  {
    var rows := RowsAt(t, hits);
    forall k | 0 <= k < |rows| ensures Selects(q, rows[k], t.tagRows) {
      SelectedIsHit(q, t, hits[k].row);
    }
    forall i | 0 <= i < |t.rows| && Selects(q, t.rows[i], t.tagRows) && t.rows[i] !in rows
      ensures |rows| == q.limit && forall k :: 0 <= k < |rows| ==> InOrder(q, rows[k], t.rows[i])
    {
      SelectedIsHit(q, t, i);
      var h: Hit :| h.row == i && IsHit(q, t, h);
      assert forall k :: 0 <= k < |hits| ==> rows[k] == t.rows[hits[k].row] && rows[k] in rows;
      assert h !in hits;
    }
  }

  /** For a plain filter, which the database takes, with at most one tag key and
      a limit: the newest stored events that match it, newest first. */
  lemma NewestMatching(log: Log, f: Filter, hits: seq<Hit>)
    requires Reached(log) && ValidFilter(f) && Bindable(f) && PlainCriteria(f) && |f.tagQueries| <= 1
    requires f.limit.Some? && Answer(QueryFor(f), Run(log), hits)
    ensures |hits| <= f.limit.value && Within(Run(log), hits)
    ensures var rows, answered := Run(log).rows, RowsAt(Run(log), hits);
      && (forall k, m :: 0 <= k < m < |answered| ==> answered[k].createdAt >= answered[m].createdAt)
      && (forall r :: r in answered ==> r in rows && Matches(f, ToNostrEvent(r)))
      && forall r :: r in rows && Matches(f, ToNostrEvent(r)) && r !in answered ==>
           |answered| == f.limit.value && forall a :: a in answered ==> a.createdAt >= r.createdAt
  {
    var t, answered := Run(log), RowsAt(Run(log), hits);
    LimitedAnswer(f, t, hits);
    forall i | 0 <= i < |t.rows|
      ensures Selects(QueryFor(f), t.rows[i], t.tagRows) <==> Matches(f, ToNostrEvent(t.rows[i]))
    {
      RowMeaning(log, i, f);
      PlainFinds(f, ToNostrEvent(t.rows[i]));
    }
    forall r | r in answered ensures r in t.rows && Matches(f, ToNostrEvent(r)) {
      var k :| 0 <= k < |answered| && answered[k] == r;
    }
  }
}
