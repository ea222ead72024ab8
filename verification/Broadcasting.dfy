/** The loops that carry events to clients: stored rows streamed to one
    subscription, a broadcast fanned out on one worker, and a broadcast relayed
    to the other workers (nostream-share/src/handlers/subscribe-message-handler.ts,
    nostream-share/src/adapters/web-socket-server-adapter.ts,
    nostream-share/src/app/app.ts). */
module Broadcasting {
  import opened NostrEvents
  import opened EventStore
  import opened Connection

  // ---- stored rows ----

  predicate Streams(row: Row, filters: seq<Filter>) {
    !row.deleted && MatchesAny(filters, ToNostrEvent(row))
  }

  function StoredMessages(rows: seq<Row>, filters: seq<Filter>, id: string): (messages: seq<OutgoingMessage>)
    ensures forall m :: m in messages <==>
              exists i :: 0 <= i < |rows| && Streams(rows[i], filters) && m == EventMessage(id, ToNostrEvent(rows[i]))
  {
    if rows == [] then []
    else
      var init, last := rows[..|rows| - 1], rows[|rows| - 1];
      assert forall i :: 0 <= i < |init| ==> init[i] == rows[i];
      assert Streams(last, filters) ==> Streams(rows[|rows| - 1], filters);
      StoredMessages(init, filters, id) + if Streams(last, filters) then [EventMessage(id, ToNostrEvent(last))] else []
  }

  /** The messages of consecutive stretches of rows follow each other, and one
      row gives one message, unless it is deleted or no filter matches it. */
  lemma {:induction false} StreamsInOrder(a: seq<Row>, b: seq<Row>, filters: seq<Filter>, id: string)
    ensures StoredMessages(a + b, filters, id) == StoredMessages(a, filters, id) + StoredMessages(b, filters, id)
    ensures |a| == 1 ==>
              StoredMessages(a, filters, id)
              == if !a[0].deleted && exists i :: 0 <= i < |filters| && Matches(filters[i], ToNostrEvent(a[0]))
                 then [EventMessage(id, ToNostrEvent(a[0]))] else []
  {
    if |a| == 1 { assert a[..0] == [] && StoredMessages([], filters, id) == []; }
    if b == [] {
      assert a + b == a;
    } else {
      StreamsInOrder(a, b[..|b| - 1], filters, id);
      assert (a + b)[..|a + b| - 1] == a + b[..|b| - 1];
    }
  }

  /** `fetchAndSend`: the query's rows in order, without deleted ones, checked
      once more against the filters, then the end marker; nothing once the
      client has left. */
  method FetchAndSend(socket: WebSocketAdapter, rows: seq<Row>, filters: seq<Filter>, id: string)
    modifies socket`sent
    ensures socket.sent == old(socket.sent)
      + if socket.listening && socket.open then StoredMessages(rows, filters, id) + [EndOfStoredEvents(id)] else []
  {
    for i := 0 to |rows|
      invariant socket.sent == old(socket.sent)
        + if socket.listening && socket.open then StoredMessages(rows[..i], filters, id) else []
    {
      assert rows[..i + 1][..i] == rows[..i];
      if !rows[i].deleted {
        var e := ToNostrEvent(rows[i]);
        if MatchesAny(filters, e) {
          socket.EmitMessage(EventMessage(id, e));
        }
      }
    }
    assert rows[..|rows|] == rows;
    socket.EmitMessage(EndOfStoredEvents(id));
  }

  // ---- one worker ----

  /** The messages were added to what was sent, each once, in some order. */
  ghost predicate Extended(before: seq<OutgoingMessage>, after: seq<OutgoingMessage>, messages: set<OutgoingMessage>) {
    exists out: seq<OutgoingMessage> :: after == before + out && multiset(out) == multiset(messages)
  }

  class WebSocketServerAdapter {
    var clients: seq<WebSocketAdapter>

    /** Every open client is offered the event once; the others get nothing. */
    method OnBroadcast(e: Event)
      requires forall i, j :: 0 <= i < j < |clients| ==> clients[i] != clients[j]
      modifies (set c | c in clients)`sent
      ensures forall c :: c in clients ==>
                if c.open then Extended(old(c.sent), c.sent, LiveMessages(c.subscriptions, e)) else c.sent == old(c.sent)
    {
      for i := 0 to |clients|
        invariant forall k :: 0 <= k < i ==>
          if clients[k].open then Extended(old(clients[k].sent), clients[k].sent, LiveMessages(clients[k].subscriptions, e))
          else clients[k].sent == old(clients[k].sent)
        invariant forall k :: i <= k < |clients| ==> clients[k].sent == old(clients[k].sent)
      {
        if clients[i].open {
          ghost var out := clients[i].OnSendEvent(e);
        }
      }
    }
  }

  // ---- the primary ----

  class WorkerProcess {
    const id: nat
    var inbox: seq<Event>

    constructor (id: nat)
      ensures this.id == id && inbox == []
    {
      this.id := id;
      inbox := [];
    }

    method Send(e: Event)
      modifies this`inbox
      ensures inbox == old(inbox) + [e]
    {
      inbox := inbox + [e];
    }
  }

  class App {
    var workers: seq<WorkerProcess>

    /** A message from one worker goes once to every other worker. */
    method OnClusterMessage(source: WorkerProcess, e: Event)
      requires forall i, j :: 0 <= i < j < |workers| ==> workers[i] != workers[j]
      modifies (set w | w in workers)`inbox
      ensures forall w :: w in workers ==> w.inbox == old(w.inbox) + if w.id == source.id then [] else [e]
    {
      for i := 0 to |workers|
        invariant forall k :: 0 <= k < i ==>
          workers[k].inbox == old(workers[k].inbox) + if workers[k].id == source.id then [] else [e]
        invariant forall k :: i <= k < |workers| ==> workers[k].inbox == old(workers[k].inbox)
      {
        if source.id == workers[i].id {
          continue;
        }
        workers[i].Send(e);
      }
    }
  }
}
