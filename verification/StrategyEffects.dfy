/** What publishing one event does, told from the event alone: the rows a delete
    event marks, the key an event replaces, the reply and the broadcast
    (nostream-share/src/handlers/event-strategies, NIP-09, NIP-16, NIP-33). */
module StrategyEffects {
  import opened Wrappers
  import opened Decimals
  import opened Hex
  import opened NostrEvents
  import opened EventStore
  import opened StoreHistory
  import opened StoreGuarantees
  import opened Connection
  import opened Strategies

  // ---- deletion ----

  /** The identifiers collected are the 64 lower-case hexadecimal digits that
      some `e` tag has behind its name. */
  lemma NamedIds(tags: seq<Tag>, id: string)
    ensures id in DeleteTargets(tags) <==>
            && |id| == 64 && (forall k :: 0 <= k < 64 ==> '0' <= id[k] <= '9' || 'a' <= id[k] <= 'f')
            && exists i :: 0 <= i < |tags| && |tags[i]| >= 2 && tags[i][0] == "e" && tags[i][1] == id
  {
    if id in DeleteTargets(tags) {
      var i :| 0 <= i < |tags| && NamesEvent(tags[i]) && tags[i][1] == id;
      assert forall k :: 0 <= k < 64 ==> IsLowerHexDigit(id[k]);
    }
    if i :| 0 <= i < |tags| && |tags[i]| >= 2 && tags[i][0] == "e" && tags[i][1] == id {
      assert IsKey(id) ==> NamesEvent(tags[i]);
    }
  }

  /** Is the row the author's own, and does an `e` tag have its identifier? */
  predicate Deletes(e: Event, row: Row) {
    && |row.eventId| == 32 && FromBuffer(row.pubkey) == e.pubkey
    && exists j :: 0 <= j < |e.tags| && |e.tags[j]| >= 2 && e.tags[j][0] == "e"
                   && e.tags[j][1] == FromBuffer(row.eventId)
  }

  lemma NamedRow(e: Event, row: Row)
    requires ValidEvent(e)
    ensures row.pubkey == ToBuffer(e.pubkey) && row.eventId in Buffers(DeleteTargets(e.tags)) <==> Deletes(e, row)
  {
    TextRoundTrip(e.pubkey);
    BytesRoundTrip(row.pubkey);
    NamedInBuffers(e.tags, row.eventId);
  }

  lemma NamedInBuffers(tags: seq<Tag>, id: seq<Byte>)
    ensures id in Buffers(DeleteTargets(tags)) <==> |id| == 32 && FromBuffer(id) in DeleteTargets(tags)
    ensures FromBuffer(id) in DeleteTargets(tags) && |id| == 32 <==>
            |id| == 32 && exists j :: 0 <= j < |tags| && |tags[j]| >= 2 && tags[j][0] == "e" && tags[j][1] == FromBuffer(id)
  {
    var ids, text := DeleteTargets(tags), FromBuffer(id);
    BytesRoundTrip(id);
    NamedIds(tags, text);
    assert forall k :: 0 <= k < |text| ==> IsLowerHexDigit(text[k]);
    if id in Buffers(ids) {
      var k :| 0 <= k < |ids| && ToBuffer(ids[k]) == id;
      assert ids[k] in ids;
      TextRoundTrip(ids[k]);
    }
    if text in ids {
      var k :| 0 <= k < |ids| && ids[k] == text;
    }
  }

  /** A store adds a row at the end, or puts an unmarked one in some place. */
  lemma StoreMarksNothing(t: Table, e: Event, i: nat)
    requires i < |t.rows|
    ensures var after := AfterStore(t, e).0.rows;
      i < |after| && (after[i].deleted ==> t.rows[i].deleted) && (DedupOf(e).None? ==> after[i] == t.rows[i])
  {
  }

  /** A published delete event marks exactly the rows of its author that its
      `e` tags name, in any table, and leaves every row otherwise as it is. */
  lemma DeleteMarks(t: Table, e: Event, i: nat)
    requires ValidEvent(e) && e.kind == 5 && i < |t.rows|
    ensures var after := AfterStatements(t, StatementsOf(e)).rows;
      && i < |after| && after[i].(deleted := t.rows[i].deleted) == t.rows[i]
      && (after[i].deleted <==> t.rows[i].deleted || Deletes(e, t.rows[i]))
  {
    var ids := DeleteTargets(e.tags);
    NamedRow(e, t.rows[i]);
    if ids == [] {
      AfterOne(t, Store(e));
      StoreMarksNothing(t, e, i);
    } else {
      AfterTwo(t, SoftDelete(e.pubkey, ids), Store(e));
      SoftDeletedRows(t, ToBuffer(e.pubkey), Buffers(ids));
      StoreMarksNothing(SoftDeleted(t, ToBuffer(e.pubkey), Buffers(ids)), e, i);
    }
  }

  /** No other kind of event marks a row. */
  lemma OthersMarkNothing(t: Table, e: Event, i: nat)
    requires e.kind != 5 && i < |t.rows|
    ensures var after := AfterStatements(t, StatementsOf(e)).rows;
      i < |after| && (after[i].deleted ==> t.rows[i].deleted)
  {
    AfterOne(t, Store(e));
    StoreMarksNothing(t, e, i);
  }

  /** The places of the author's unmarked rows with one of the identifiers. */
  function ToMark(rows: seq<Row>, owner: seq<Byte>, ids: set<seq<Byte>>): set<int> {
    set i | 0 <= i < |rows| && rows[i].pubkey == owner && rows[i].eventId in ids && !rows[i].deleted
  }

  lemma ToMarkSnoc(init: seq<Row>, last: Row, owner: seq<Byte>, ids: set<seq<Byte>>)
    ensures ToMark(init + [last], owner, ids)
      == ToMark(init, owner, ids) + if Targeted(last, owner, ids) then {|init|} else {}
    ensures |init| !in ToMark(init, owner, ids)
  {
    var rows := init + [last];
    assert forall i :: 0 <= i < |init| ==> rows[i] == init[i];
  }

  /** The count that the repository returns is the number of rows it marks. */
  lemma {:induction false} MarkedCount(rows: seq<Row>, owner: seq<Byte>, ids: set<seq<Byte>>)
    ensures CountTargeted(rows, owner, ids) == |ToMark(rows, owner, ids)|
  {
    if rows != [] {
      var init, last := rows[..|rows| - 1], rows[|rows| - 1];
      MarkedCount(init, owner, ids);
      assert rows == init + [last];
      ToMarkSnoc(init, last, owner, ids);
    }
  }

  // ---- replaceable keys ----

  predicate HasD(tag: Tag) {
    |tag| >= 2 && tag[0] == "d"
  }

  /** What follows the name in the first `d` tag that has a value; one empty
      string when there is none. */
  ghost predicate IsDKey(tags: seq<Tag>, key: seq<string>) {
    || (key == [""] && forall i :: 0 <= i < |tags| ==> !HasD(tags[i]))
    || (exists i :: 0 <= i < |tags| && HasD(tags[i]) && key == tags[i][1..]
                    && forall j :: 0 <= j < i ==> !HasD(tags[j]))
  }

  lemma {:induction false} TagRestIsKey(tags: seq<Tag>, key: seq<string>)
    ensures TagRest(tags) == key <==> IsDKey(tags, key)
  {
    if tags != [] {
      var rest := tags[1..];
      TagRestIsKey(rest, key);
      assert forall i :: 0 < i < |tags| ==> tags[i] == rest[i - 1];
      if IsDKey(tags, key) && !HasD(tags[0]) && exists i :: 0 <= i < |tags| && HasD(tags[i]) {
        var i :| 0 <= i < |tags| && HasD(tags[i]) && key == tags[i][1..] && forall j :: 0 <= j < i ==> !HasD(tags[j]);
        assert HasD(rest[i - 1]) && key == rest[i - 1][1..];
      }
      if IsDKey(rest, key) && !HasD(tags[0]) && exists i :: 0 <= i < |rest| && HasD(rest[i]) {
        var i :| 0 <= i < |rest| && HasD(rest[i]) && key == rest[i][1..] && forall j :: 0 <= j < i ==> !HasD(rest[j]);
        assert HasD(tags[i + 1]) && key == tags[i + 1][1..];
      }
    }
  }

  /** One event per author and kind. */
  predicate OnePerKind(kind: nat) {
    kind == 0 || kind == 3 || kind == 41 || 10000 <= kind < 20000
  }

  /** Two events compete for one row exactly when they are of one author and one
      replaceable kind, with the same `d` key for the parameterized kinds, or
      are the same event of any other kind. */
  lemma SameSlot(e: Event, f: Event)
    requires ValidEvent(e) && ValidEvent(f)
    ensures EventSlot(e) == EventSlot(f) <==>
            if OnePerKind(e.kind) then f.kind == e.kind && f.pubkey == e.pubkey
            else if 30000 <= e.kind < 40000
            then f.kind == e.kind && f.pubkey == e.pubkey && exists key :: IsDKey(e.tags, key) && IsDKey(f.tags, key)
            else !OnePerKind(f.kind) && !(30000 <= f.kind < 40000) && f.id == e.id
  {
    KeyedKinds(e);
    KeyedKinds(f);
    TagRestIsKey(e.tags, TagRest(e.tags));
    TagRestIsKey(f.tags, TagRest(f.tags));
    forall key
      ensures (TagRest(e.tags) == key <==> IsDKey(e.tags, key)) && (TagRest(f.tags) == key <==> IsDKey(f.tags, key))
    {
      TagRestIsKey(e.tags, key);
      TagRestIsKey(f.tags, key);
    }
    if ToBuffer(e.pubkey) == ToBuffer(f.pubkey) { ToBufferInjective(e.pubkey, f.pubkey); }
    if ToBuffer(e.id) == ToBuffer(f.id) { ToBufferInjective(e.id, f.id); }
  }

  // ---- what the columns hold ----

  /** Is this the value of the first expiration tag that has one? */
  ghost predicate Expires(tags: seq<Tag>, text: string) {
    exists i :: 0 <= i < |tags| && |tags[i]| >= 2 && tags[i][0] == "expiration" && tags[i][1] == text
                && forall j :: 0 <= j < i ==> !(|tags[j]| >= 2 && tags[j][0] == "expiration")
  }

  lemma {:induction false} ExpirationTextIs(tags: seq<Tag>, text: string)
    ensures ExpirationText(tags) == Some(text) <==> Expires(tags, text)
  {
    if tags != [] {
      var rest := tags[1..];
      ExpirationTextIs(rest, text);
      assert forall i :: 0 < i < |tags| ==> tags[i] == rest[i - 1];
      if Expires(rest, text) && !(|tags[0]| >= 2 && tags[0][0] == "expiration") {
        var i :| 0 <= i < |rest| && |rest[i]| >= 2 && rest[i][0] == "expiration" && rest[i][1] == text
          && forall j :: 0 <= j < i ==> !(|rest[j]| >= 2 && rest[j][0] == "expiration");
        assert tags[i + 1] == rest[i];
      }
    }
  }

  /** The columns take an event exactly when time and kind fit four bytes, no
      text holds a NUL, and an expiration of at most ten digits fits too. */
  lemma FitsExactly(e: Event)
    ensures Fits(e) <==>
            && e.createdAt < 2147483648 && e.kind < 2147483648
            && '\0' !in e.content
            && (forall i, j :: 0 <= i < |e.tags| && 0 <= j < |e.tags[i]| ==> '\0' !in e.tags[i][j])
            && forall text :: Expires(e.tags, text) && IsDecimal(text) ==>
                 DecimalValue(text) < 2147483648 || DecimalValue(text) >= 10000000000
  {
    forall text ensures ExpirationText(e.tags) == Some(text) <==> Expires(e.tags, text) {
      ExpirationTextIs(e.tags, text);
    }
  }

  // ---- reply and broadcast ----

  /** Does the store take the event: it fits, and all rows it competes with are
      older? */
  predicate Taken(t: Table, e: Event) {
    Fits(e) && forall i :: 0 <= i < |t.rows| && SlotOf(t.rows[i]) == EventSlot(e) ==> t.rows[i].createdAt < e.createdAt
  }

  lemma TakenBySlot(log: Log, e: Event)
    requires Legal(log + [Store(e)])
    ensures AfterStore(Run(log), e).1 == if Taken(Run(log), e) then 1 else 0
    ensures DedupOf(e).Some? ==> Upserted(Run(log), e, DedupOf(e).value) != Err(DuplicateEventId)
  {
    assert (log + [Store(e)])[..|log|] == log;
    LegalPrefix(log + [Store(e)], |log|);
    RunReflects(log);
    StoreIsSlotStore(Run(log), log, e);
    var rows, i := Run(log).rows, SlotIndex(Run(log).rows, EventSlot(e));
    forall j | 0 <= j < |rows| && SlotOf(rows[j]) == EventSlot(e) ensures j == i {
      SlotIndexUnique(rows, j);
    }
  }

  /** Marking rows does not change which of them an event competes with. */
  lemma TakenBeforeStore(log: Log, e: Event)
    requires Legal(log + [Store(e)])
    ensures AfterStore(BeforeStore(Run(log), e), e).1 == if Taken(Run(log), e) then 1 else 0
  {
    if IsDelete(e.kind) && DeleteTargets(e.tags) != [] {
      var mark := SoftDelete(e.pubkey, DeleteTargets(e.tags));
      assert (log + [mark])[..|log|] == log;
      LegalMarked(log, mark, e);
      TakenBySlot(log + [mark], e);
      SoftDeletedRows(Run(log), ToBuffer(e.pubkey), Buffers(DeleteTargets(e.tags)));
      TakenAlike(Run(log), Run(log + [mark]), e);
    } else {
      TakenBySlot(log, e);
    }
  }

  lemma LegalMarked(log: Log, mark: Statement, e: Event)
    requires Legal(log + [Store(e)]) && mark.SoftDelete?
    ensures Legal(log + [mark] + [Store(e)])
  {
    var longer, other := log + [mark] + [Store(e)], log + [Store(e)];
    assert forall k :: 0 <= k < |longer| && longer[k].Store? ==> longer[k] == other[if k < |log| then k else |log|];
  }

  lemma TakenAlike(t: Table, u: Table, e: Event)
    requires |t.rows| == |u.rows|
    requires forall i :: 0 <= i < |t.rows| ==> u.rows[i].(deleted := t.rows[i].deleted) == t.rows[i]
    ensures Taken(t, e) <==> Taken(u, e)
  {
    assert forall i :: 0 <= i < |t.rows| ==>
             SlotOf(u.rows[i]) == SlotOf(t.rows[i]) && u.rows[i].createdAt == t.rows[i].createdAt;
  }

  /** After any run: an ephemeral event is acknowledged and broadcast; any other
      that the store takes too, and one that it does not take is not broadcast
      and is answered as a duplicate, or with an error where a replaceable one
      does not fit its columns. */
  lemma ReplyMeaning(log: Log, e: Event)
    requires Legal(log + [Store(e)])
    ensures var taken, ephemeral := Taken(Run(log), e), 20000 <= e.kind < 30000;
      && (IsBroadcast(Run(log), e) <==> ephemeral || taken)
      && ReplyTo(Run(log), e) ==
         if ephemeral || taken then CommandResult(e.id, true, "")
         else if !Fits(e) && OnePerKind(e.kind) then CommandResult(e.id, false, "error: ")
         else if !Fits(e) && 30000 <= e.kind < 40000 then CommandResult(e.id, false, "error: unable to process event")
         else CommandResult(e.id, true, "duplicate:")
  {
    TakenBySlot(log, e);
    TakenBeforeStore(log, e);
  }
}
