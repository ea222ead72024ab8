/** The event strategies: what each kind of event does to the store, and what
    the publishing connection is told and asked to broadcast
    (nostream-share/src/handlers/event-strategies). */
module Strategies {
  import opened Wrappers
  import opened Hex
  import opened NostrEvents
  import opened TagIndex
  import opened EventStore
  import opened StoreHistory
  import opened StoreGuarantees
  import opened Connection

  // ---- what a delete event names ----

  predicate NamesEvent(tag: Tag) {
    |tag| >= 2 && tag[0] == "e" && IsKey(tag[1])
  }

  function DeleteTargets(tags: seq<Tag>): (ids: seq<string>)
    ensures forall id :: id in ids <==> exists i :: 0 <= i < |tags| && NamesEvent(tags[i]) && tags[i][1] == id
  {
    if tags == [] then []
    else
      var init, last := tags[..|tags| - 1], tags[|tags| - 1];
      assert forall i :: 0 <= i < |init| ==> init[i] == tags[i];
      assert NamesEvent(last) ==> NamesEvent(tags[|tags| - 1]);
      DeleteTargets(init) + if NamesEvent(last) then [last[1]] else []
  }

  // ---- statements of an event ----

  function StatementsOf(e: Event): seq<Statement> {
    if IsEphemeral(e.kind) then []
    else if IsDelete(e.kind) && DeleteTargets(e.tags) != []
    then [SoftDelete(e.pubkey, DeleteTargets(e.tags)), Store(e)]
    else [Store(e)]
  }

  function AfterStatements(t: Table, statements: seq<Statement>): Table {
    if statements == [] then t
    else Executed(AfterStatements(t, statements[..|statements| - 1]), statements[|statements| - 1]).0
  }

  lemma {:induction false} RunThenAfter(log: Log, statements: seq<Statement>)
    ensures Run(log + statements) == AfterStatements(Run(log), statements)
  {
    if statements == [] {
      assert log + statements == log;
    } else {
      var n := |statements| - 1;
      RunThenAfter(log, statements[..n]);
      assert (log + statements)[..|log + statements| - 1] == log + statements[..n];
    }
  }

  /** The table as the event's own store finds it. */
  function BeforeStore(t: Table, e: Event): Table {
    if IsDelete(e.kind) && DeleteTargets(e.tags) != []
    then Executed(t, SoftDelete(e.pubkey, DeleteTargets(e.tags))).0
    else t
  }

  /** Is the event broadcast? Ephemeral ones always, the others when their
      store counts a row. */
  predicate IsBroadcast(t: Table, e: Event) {
    IsEphemeral(e.kind) || AfterStore(BeforeStore(t, e), e).1 > 0
  }

  function Counted(e: Event, count: nat): OutgoingMessage {
    CommandResult(e.id, true, if count > 0 then "" else "duplicate:")
  }

  function ReplyTo(t: Table, e: Event): OutgoingMessage {
    if IsEphemeral(e.kind) then CommandResult(e.id, true, "")
    else if DedupOf(e).None? then Counted(e, AfterStore(BeforeStore(t, e), e).1)
    else
      match Upserted(t, e, DedupOf(e).value)
      case Ok((_, count)) => Counted(e, count)
      case Err(v) =>
        CommandResult(e.id, false,
                      if !IsReplaceable(e.kind) then "error: unable to process event"
                      else if v.DuplicateEventId? then "rejected: event already exists" else "error: ")
  }

  lemma AfterOne(t: Table, s: Statement)
    ensures AfterStatements(t, [s]) == Executed(t, s).0
  {
    assert [s][..0] == [] && AfterStatements(t, []) == t;
  }

  lemma AfterTwo(t: Table, r: Statement, s: Statement)
    ensures AfterStatements(t, [r, s]) == Executed(Executed(t, r).0, s).0
  {
    assert [r, s][..1] == [r];
    AfterOne(t, r);
  }

  // ---- the strategies ----

  method Conclude(socket: WebSocketAdapter, e: Event, count: nat)
    modifies socket`sent, socket`broadcasts
    ensures socket.sent == old(socket.sent) + if socket.listening && socket.open then [Counted(e, count)] else []
    ensures socket.broadcasts == old(socket.broadcasts) + if socket.listening && count > 0 then [e] else []
  {
    socket.EmitMessage(Counted(e, count));
    if count > 0 {
      socket.EmitBroadcast(e);
    }
  }

  method ExecuteDefault(repo: EventRepository, socket: WebSocketAdapter, e: Event)
    modifies repo, socket`sent, socket`broadcasts
    ensures var (t, count) := Created(old(repo.Snapshot()), e);
      repo.Snapshot() == t
      && socket.sent == old(socket.sent) + (if socket.listening && socket.open then [Counted(e, count)] else [])
      && socket.broadcasts == old(socket.broadcasts) + (if socket.listening && count > 0 then [e] else [])
  {
    var count := repo.Create(e);
    Conclude(socket, e, count);
  }

  method ExecuteReplaceable(repo: EventRepository, socket: WebSocketAdapter, e: Event)
    requires IsReplaceable(e.kind)
    modifies repo, socket`sent, socket`broadcasts
    ensures var (t, count) := AfterStore(old(repo.Snapshot()), e);
      repo.Snapshot() == t
      && socket.sent == old(socket.sent)
           + (if socket.listening && socket.open then [ReplyTo(old(repo.Snapshot()), e)] else [])
      && socket.broadcasts == old(socket.broadcasts) + (if socket.listening && count > 0 then [e] else [])
  {
    var r := repo.Upsert(e, PlainKey(e.pubkey, e.kind));
    match r {
      case Ok(count) => Conclude(socket, e, count);
      case Err(DuplicateEventId) =>
        socket.EmitMessage(CommandResult(e.id, false, "rejected: event already exists"));
      case Err(UnstorableValue) => socket.EmitMessage(CommandResult(e.id, false, "error: "));
    }
  }

  /** An error here reaches the message handler, which reports it. */
  method ExecuteParameterized(repo: EventRepository, socket: WebSocketAdapter, e: Event)
    requires IsParameterizedReplaceable(e.kind)
    modifies repo, socket`sent, socket`broadcasts
    ensures var (t, count) := AfterStore(old(repo.Snapshot()), e);
      repo.Snapshot() == t
      && socket.sent == old(socket.sent)
           + (if socket.listening && socket.open then [ReplyTo(old(repo.Snapshot()), e)] else [])
      && socket.broadcasts == old(socket.broadcasts) + (if socket.listening && count > 0 then [e] else [])
  {
    var r := repo.Upsert(e, TagKey(TagRest(e.tags)));
    match r {
      case Ok(count) => Conclude(socket, e, count);
      case Err(_) => socket.EmitMessage(CommandResult(e.id, false, "error: unable to process event"));
    }
  }

  method ExecuteEphemeral(socket: WebSocketAdapter, e: Event)
    modifies socket`sent, socket`broadcasts
    ensures socket.sent == old(socket.sent)
                           + if socket.listening && socket.open then [CommandResult(e.id, true, "")] else []
    ensures socket.broadcasts == old(socket.broadcasts) + if socket.listening then [e] else []
  {
    socket.EmitMessage(CommandResult(e.id, true, ""));
    socket.EmitBroadcast(e);
  }

  /** Collect the identifiers named by `e` tags, mark the author's own rows,
      then store the delete event itself. */
  method ExecuteDelete(repo: EventRepository, socket: WebSocketAdapter, e: Event)
    requires IsDelete(e.kind)
    modifies repo, socket`sent, socket`broadcasts
    ensures var (t, count) := Created(BeforeStore(old(repo.Snapshot()), e), e);
      repo.Snapshot() == t
      && socket.sent == old(socket.sent) + (if socket.listening && socket.open then [Counted(e, count)] else [])
      && socket.broadcasts == old(socket.broadcasts) + (if socket.listening && count > 0 then [e] else [])
  {
    var ids: seq<string> := [];
    for i := 0 to |e.tags|
      invariant ids == DeleteTargets(e.tags[..i])
    {
      assert e.tags[..i + 1][..i] == e.tags[..i];
      if NamesEvent(e.tags[i]) {
        ids := ids + [e.tags[i][1]];
      }
    }
    assert e.tags[..|e.tags|] == e.tags;
    if ids != [] {
      var _ := repo.DeleteByPubkeyAndIds(e.pubkey, ids);
    }
    ExecuteDefault(repo, socket, e);
  }

  /** The factory's dispatch by kind, and the chosen strategy. */
  method Execute(repo: EventRepository, socket: WebSocketAdapter, e: Event)
    modifies repo, socket`sent, socket`broadcasts
    ensures repo.Snapshot() == AfterStatements(old(repo.Snapshot()), StatementsOf(e))
    ensures socket.sent == old(socket.sent)
                           + if socket.listening && socket.open then [ReplyTo(old(repo.Snapshot()), e)] else []
    ensures socket.broadcasts == old(socket.broadcasts)
                                 + if socket.listening && IsBroadcast(old(repo.Snapshot()), e) then [e] else []
  {
    ghost var before := repo.Snapshot();
    AfterOne(before, Store(e));
    if IsReplaceable(e.kind) {
      ExecuteReplaceable(repo, socket, e);
    } else if IsEphemeral(e.kind) {
      ExecuteEphemeral(socket, e);
    } else if IsDelete(e.kind) {
      AfterTwo(before, SoftDelete(e.pubkey, DeleteTargets(e.tags)), Store(e));
      ExecuteDelete(repo, socket, e);
    } else if IsParameterizedReplaceable(e.kind) {
      ExecuteParameterized(repo, socket, e);
    } else {
      ExecuteDefault(repo, socket, e);
    }
  }

  /** On a table that a run can reach, no publisher is ever told that a
      different event already has its identifier. */
  lemma IdentifierNeverRefused(log: Log, e: Event)
    requires Legal(log + [Store(e)])
    ensures ReplyTo(Run(log), e) != CommandResult(e.id, false, "rejected: event already exists")
  {
    assert (log + [Store(e)])[..|log|] == log;
    LegalPrefix(log + [Store(e)], |log|);
    RunReflects(log);
    StoreIsSlotStore(Run(log), log, e);
  }
}
