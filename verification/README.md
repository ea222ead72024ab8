# Verification of the Nostr relay and its blob API

This project models the parts of the repository in which several functions have
to work together for a promise to hold, and proves those promises for every
input, every run or every reachable state.

* **The event store** (`EventStore`, `StoreHistory`, `StoreGuarantees`,
  `TagIndex`, `IndexAgreement`, `Decimals`). The `events` table with its two unique
  constraints, the statements that `create`, `upsert` and `deleteByPubkeyAndIds`
  send, and the trigger that keeps `event_tags`. A run is any interleaving of
  those statements. For every run: each replaceable key holds the first received
  of its newest events (NIP-16, NIP-33), a deleted identifier never comes back
  and nobody deletes another author's rows (NIP-09), an event is accepted at
  most once, the index equals the tags of the current rows with multiplicity,
  and the final rows do not depend on arrival order exactly when no key has a
  tie for its newest time.
* **Queries** (`Hex`, `NostrEvents`, `FilterQuery`, `QueryExactness`,
  `QueryResults`). The
  compiler from a filter to SQL over bytes, what the query selects for every
  filter and event, and the exact classes of filters for which it misses nothing
  and selects nothing else, compared with `isEventMatchingFilter` over all
  reachable tables; and which of the selected rows an answer holds, in which
  order.
* **Delivery** (`Connection`, `ConnectionRuns`, `Strategies`, `StrategyEffects`,
  `Broadcasting`, `Delivery`). Sockets
  on cluster workers that subscribe, query and stream while other sockets
  publish, broadcast and leave, as a state machine over single steps. Every
  invariant holds in every reachable state. A settled state has delivered an
  event exactly when its publisher stayed until it was broadcast or the stored
  query saw it; live delivery is proved for every filter, also for those whose
  stored query fails or cannot find the event.
  The subscriptions of a connection, and which of its messages are handed on,
  refused or authenticate (NIP-42), are stated for every message sequence; what
  publishing one event marks, replaces, answers and broadcasts for every table
  or run.
* **Runes** (`Runes`, `RuneTests`, `RuneMeaning`). Printer, parser and evaluator of the
  three-level restriction language.
* **Rate limiter and proof of work** (`RateLimiter`, `ProofOfWork`). The bound on
  admitted steps over whole histories, and the leading-zero count as a statement
  about the big-endian number (NIP-13, "Validating").
* **Payments** (`Fees`, `Ledger`, `LedgerRuns`, `Maintenance`,
  `MaintenanceRounds`). The stored
  procedures, the transactions around them, and the maintenance worker:
  balances are conserved, an invoice is credited once, a round credits what was
  paid, and paying the requested amount admits.
* **The API over several relays** (`RelayMerge`, `BlobMetadata`). `dedupeEvents`
  as a homomorphism, and the soft delete of a blob as the newest replaceable
  event that any relay returns.

Code that updates state is a class or a method with loops, and its contract ties
the new state to a function of the old one; the lemmas are about that function.
Parameters stand for what the code takes from outside: the clock, random
challenges, answers of payments processors and relays, and whether the database
takes a write.

Places where the code does less than its documentation suggests are stated as
theorems with the exact condition: ties (`ConvergesUnlessTied`,
`TakenWhenStrictlyNewer`, `SameSecondDeleteIsLost`), filters with two tag keys or
with criteria that JSON escapes, and filters whose numbers or criteria the
database refuses (`CompleteExactly`, `SoundExactly`), a publisher that leaves
before its event is broadcast (`DroppedExactly`,
`LeavingPublisherDropsBroadcast`), a fee that is not a whole number of sats
(`PayingInFullAdmits`), and a confirmation that cannot go through after the
invoice was marked completed (`FailedConfirmation`, `NeverRetried`). Hits of one
step in one millisecond share a member of the limiter's set:
`CountsUnlessRepeated` is the exact condition under which the answers count every
hit, and `RateBound` says by how much the rate can be passed otherwise.

## Model

| member | source | states |
|---|---|---|
| Hex.BytesRoundTrip | nostream-share/src/utils/transform.ts:9-11 | showing bytes as hexadecimal and reading them back yields the bytes |
| Hex.TextRoundTrip | nostream-share/src/utils/transform.ts:9-11 | text survives `toBuffer` then `fromBuffer` if and only if it is lower-case hexadecimal of even length; its bytes are half as many |
| Hex.EvenPrefix | nostream-share/src/repositories/event-repository.ts:82-89 | the compiled `substring ... = ?` of an even-length prefix holds if and only if the prefix starts the hexadecimal text of the column |
| Hex.OddPrefix | nostream-share/src/repositories/event-repository.ts:90-101 | the compiled `BETWEEN \x..0 AND \x..f` of an odd-length prefix holds if and only if the prefix starts the text |
| Hex.ExactPrefix | nostream-share/src/repositories/event-repository.ts:78-81 | for 32-byte columns the equality of a 64-digit value is the same prefix test |
| TagIndex.StoredIsFaithful | nostream-share/migrations/20240120_000000_partition_events_table.js:131-132 | JSON text trimmed of quotes gives a string back if and only if the string needs no JSON escape |
| TagIndex.TagRowsBelong | nostream-share/migrations/20240120_000000_partition_events_table.js:129-137 | the rows the trigger writes for an event carry that event's identifier, a one-character name and a value |
| TagIndex.StoredInverse | nostream-share/migrations/20240120_000000_partition_events_table.js:131-132 | the stored text determines the string: reading it back inverts storing, so no two strings are stored alike |
| TagIndex.StoredEscape | nostream-share/migrations/20240120_000000_partition_events_table.js:131-132 | a character that needs an escape is stored as its JSON escape, the quote as one backslash |
| TagIndex.StoredGrows | nostream-share/migrations/20240120_000000_partition_events_table.js:131-132 | a string that needs an escape still needs one once stored, is no shorter, and is longer when stored again |
| TagIndex.TagRowsStored | nostream-share/migrations/20240120_000000_partition_events_table.js:129-137 | for any tags, a name and value are indexed if and only if some tag of two or more elements has them as stored forms, the name being one character and the value not empty |
| TagIndex.TagRowsMeaning | nostream-share/migrations/20240120_000000_partition_events_table.js:129-137 | a name and value that need no escape are indexed if and only if some tag has them as they are, whatever the other strings of the tags hold |
| EventStore.EventRoundTrip | nostream-share/src/utils/event.ts:33-41 | a valid event stored as a row, deleted or not, reads back as the same event |
| EventStore.EventRepository.ProcessEventTags | nostream-share/migrations/20240120_000000_partition_events_table.js:126-140 | the trigger's loop leaves the index without the old identifier's rows and with the new row's tags appended |
| EventStore.EventRepository.Create | nostream-share/src/repositories/event-repository.ts:169-195 | inserts unless either constraint is broken or a value does not fit its column; reports one row or none, and changes the table only when it reports one |
| EventStore.EventRepository.Upsert | nostream-share/src/repositories/event-repository.ts:197-241 | inserts, replaces the row of the key when it is strictly older, reports none otherwise; a broken identifier constraint or value is an error that changes nothing |
| EventStore.EventRepository.DeleteByPubkeyAndIds | nostream-share/src/repositories/event-repository.ts:243-253 | marks the author's named, unmarked rows, fires the trigger for each, and reports how many |
| StrategyEffects.FitsExactly | nostream-share/migrations/20240120_000000_partition_events_table.js:56-66 | the columns take an event if and only if time and kind are below 2^31, no text holds a NUL, and a first expiration tag in decimal digits is below 2^31 or has more than ten digits |
| StrategyEffects.MarkedCount | nostream-share/src/repositories/event-repository.ts:243-253 | the count returned is the number of rows marked |
| Decimals.DecimalRoundTrip | nostream-share/src/utils/event.ts:307-318 | the decimal digits of a number are read back as that number |
| StoreHistory.KeyedKinds | nostream-share/migrations/20221224_164100_add_group_chat_to_replaceable_events_unique_index.js:23-34 | the kinds that the strategies upsert are exactly the kinds of the partial unique index, and the slot of an event is its key for those and its identifier for the others |
| StrategyEffects.SameSlot | nostream-share/src/handlers/event-strategies/parameterized-replaceable-event-strategy.ts:22-27 | two events compete for one row if and only if they have one author and one kind of 0, 3, 41 or 10000 to 19999, or one author, one kind of 30000 to 39999 and the same rest of the first `d` tag with a value (one empty string without one), or are of other kinds and share the identifier |
| StoreHistory.StoreIsSlotStore | nostream-share/src/repositories/event-repository.ts:169-241 | in every table a run reaches, storing an event looks only at its own slot: it counts one row exactly when the slot is empty or strictly older, and never fails for its identifier |
| StoreHistory.RunReflects | nostream-share/src/repositories/event-repository.ts:169-253 | every reachable table has one row per slot received, and each row is the first newest event received for its slot |
| StoreGuarantees.LastWriteWins | nostream-share/src/repositories/event-repository.ts:210-234 | a slot has a row if and only if an event was received for it; the row is unique and holds the first received among the newest |
| StoreGuarantees.ConstraintsHold | nostream-share/migrations/20220524_153400_create_events_table.js:4-4 | identifiers and slots stay unique in every reachable table |
| StoreGuarantees.SlotMovesForward | nostream-share/src/repositories/event-repository.ts:228-234 | one statement leaves a slot's row, marks it, or replaces it by a strictly newer event |
| StoreGuarantees.DeletionIsPermanent | nostream-share/src/repositories/event-repository.ts:221-253 | an identifier marked deleted is never visible again in any continuation, although an upsert clears the mark of the row it replaces |
| StoreGuarantees.DeletionIsScoped | nostream-share/src/handlers/event-strategies/delete-event-strategy.ts:34-39 | a deletion marks every row of its author that it names and changes no other row |
| StoreGuarantees.AcceptedMeansChanged | nostream-share/src/handlers/event-strategies/default-event-strategy.ts:19-24 | the row count that triggers a broadcast is positive if and only if the rows changed |
| StoreGuarantees.BroadcastsIncrease | nostream-share/src/handlers/event-strategies/replaceable-event-strategy.ts:20-27 | the events accepted, and so broadcast, for one key have strictly increasing times |
| StoreGuarantees.BroadcastOnce | nostream-share/src/handlers/event-strategies/replaceable-event-strategy.ts:20-27 | a stored identifier is accepted, and so broadcast, at most once in a run |
| StoreGuarantees.ConvergesUnlessTied | nostream-share/src/repositories/event-repository.ts:169-241 | without deletions, all arrival orders and re-deliveries of the same events end with the same rows if and only if no key has two different events at its greatest time |
| StoreGuarantees.TiesDiverge | nostream-share/src/repositories/event-repository.ts:234-234 | with such a tie, two arrival orders end with different rows |
| IndexAgreement.IndexAgrees | nostream-share/migrations/20240120_000000_partition_events_table.js:119-149 | after every run `event_tags` is, as a multiset, the indexed tags of the current rows, across inserts, replacements under a new identifier and soft deletes |
| IndexAgreement.IndexOfRow | nostream-share/migrations/20240120_000000_partition_events_table.js:126-137 | the index rows under a stored row's identifier are that row's own tags |
| FilterQuery.CompilePrefixes | nostream-share/src/repositories/event-repository.ts:69-107 | the loop over authors and ids builds the groups of the specification: nothing for an absent list, a contradiction for an empty one, else one group of exact, even and odd tests |
| FilterQuery.Compile | nostream-share/src/repositories/event-repository.ts:66-159 | the loops over criteria, with the `isTagQuery` flag, build the conjunction of groups, the join, the limit and the order of the specification |
| FilterQuery.FindByFilters | nostream-share/src/repositories/event-repository.ts:61-167 | one query per filter in order; no filters is an error |
| QueryResults.LimitedAnswer | nostream-share/src/repositories/event-repository.ts:124-128 | for every filter with a limit n, every answer of the database to the compiled query has at most n rows, newest first, and leaves out a selected row only when it has n rows that are all at least as new |
| QueryResults.UnlimitedAnswer | nostream-share/src/repositories/event-repository.ts:124-128 | without a limit at most 500 rows, oldest first, and a selected row is left out only for 500 that are at least as old |
| QueryResults.SelectedIsHit | nostream-share/src/repositories/event-repository.ts:153-156 | the answer joins rows with index rows; a row occurs in some joined pair if and only if the WHERE clause selects it |
| QueryResults.AnswerExists | nostream-share/src/repositories/event-repository.ts:61-167 | every query has such an answer on every table |
| QueryResults.NewestMatching | nostream-share/src/repositories/event-repository.ts:124-128 | for a plain filter with a limit and at most one tag key, on every reachable table: the newest stored events that match it, newest first |
| FilterQuery.PrefixGroupMeaning | nostream-share/src/repositories/event-repository.ts:70-105 | the compiled group of a prefix list holds of a row if and only if some prefix starts the column's text |
| FilterQuery.ScalarMeaning | nostream-share/src/repositories/event-repository.ts:69-122 | all criteria but the tags hold of a row if and only if they hold of the event it stores |
| FilterQuery.BindsExactly | nostream-share/migrations/20240120_000000_partition_events_table.js:56-62 | the database can bind every parameter of the compiled statement if and only if kinds and times of the filter fit four bytes and no criterion holds a NUL; prefixes always bind |
| FilterQuery.QuerySound | nostream-share/src/repositories/event-repository.ts:66-159 | when no criterion of the filter needs an escape, every row that the WHERE clause selects satisfies `isEventMatchingFilter`, whatever the tags of the event hold |
| FilterQuery.QueryComplete | nostream-share/src/repositories/event-repository.ts:66-159 | when moreover there is at most one tag key, a row whose event matches is selected if and only if the database takes the statement |
| FilterQuery.QueryMeaning | nostream-share/src/repositories/event-repository.ts:66-159 | for every filter and every event: the statement selects the row if and only if the database takes it, the other criteria match and there is no tag key, or one tag key and a tag of that name whose stored value is a criterion |
| FilterQuery.PlainFiltersFind | nostream-share/src/utils/event.ts:50-110 | filters that the database takes, without escaped criteria, each with at most one tag key, find exactly what they match |
| FilterQuery.TwoTagKeysSelectNothing | nostream-share/src/repositories/event-repository.ts:133-156 | two tag keys constrain the same joined row, so the query selects nothing from any table |
| QueryExactness.CompleteExactly | nostream-share/src/repositories/event-repository.ts:133-156 | over all reachable tables the query misses no matching stored event if and only if nothing stored can match the filter, or its kinds and times fit four bytes, it has at most one tag key and no criterion holds a NUL or needs a JSON escape |
| QueryExactness.SoundExactly | nostream-share/src/repositories/event-repository.ts:133-156 | over all reachable tables the query selects no stored event that does not match if and only if the other criteria cannot be met, or the database refuses the statement, or there are two tag keys, or every criterion that is the stored form of another string comes with that string |
| QueryExactness.SomeStoredFormUnlisted | nostream-share/migrations/20240120_000000_partition_events_table.js:131-136 | no finite list of criteria can make up for escaping: if one of them needs an escape, some criterion is missing in its stored form |
| QueryExactness.RowComparable | nostream-share/src/repositories/event-repository.ts:169-241 | every row of a reachable table reads back as an accepted valid event of the history, and the index speaks for it |
| QueryExactness.EscapedQuote | nostream-share/migrations/20240120_000000_partition_events_table.js:131-132 | the tag value `a"` is stored as `a\` : a criterion `a"` misses it, a criterion `a\` selects it |
| FilterQuery.EscapedTagIsMissed | nostream-share/migrations/20240120_000000_partition_events_table.js:131-136 | under one tag key a matching event is missed if and only if the database refuses the statement or no tag of that name has a stored value among the criteria |
| Connection.IsSignedAuthEvent | nostream-share/src/utils/event.ts:112-136 | the single pass over the tags answers yes if and only if the kind is AUTH and both a challenge and a relay tag with a value are present, in either order |
| Connection.AnsweredChallenge | nostream-share/src/utils/event.ts:144-149 | the challenge compared is the value of the first challenge tag that has one |
| Connection.WebSocketAdapter.OnSendEvent | nostream-share/src/adapters/web-socket-adapter.ts:186-202 | every subscription that matches gets the event exactly once, and only on an open socket |
| Connection.LiveMeaning | nostream-share/src/adapters/web-socket-adapter.ts:186-195 | the messages of one event are one for each subscription of which some filter matches it |
| Connection.WebSocketAdapter.EmitBroadcast | nostream-share/src/adapters/web-socket-adapter.ts:117-122 | a broadcast emitted after the listeners were removed is dropped |
| Connection.WebSocketAdapter.OnRequest | nostream-share/src/handlers/subscribe-message-handler.ts:35-49 | a REQ registers its filters without duplicates, or answers with the reason it is rejected and changes nothing |
| Connection.WebSocketAdapter.OnUnsubscribed | nostream-share/src/adapters/web-socket-adapter.ts:139-142 | a CLOSE removes that subscription alone |
| Connection.WebSocketAdapter.OnEventMessage | nostream-share/src/adapters/web-socket-adapter.ts:379-415 | an EVENT from a client that must authenticate is refused with a fresh challenge; any other is handed on and changes nothing |
| Connection.WebSocketAdapter.OnAuthEvent | nostream-share/src/handlers/event-strategies/auth-event-strategy.ts:17-40 | authenticates and uses the challenge up when it is answered in time, else changes nothing; replies with one command result for each of the three outcomes |
| Connection.WebSocketAdapter.OnClientClose | nostream-share/src/adapters/web-socket-adapter.ts:361-378 | subscriptions are cleared and listeners removed |
| Connection.SubscriptionsBounded | nostream-share/src/handlers/subscribe-message-handler.ts:87-117 | over every message sequence the number of subscriptions, of filters each and the length of identifiers stay within positive limits |
| Connection.ChallengesAreIssued | nostream-share/src/adapters/web-socket-adapter.ts:157-165 | an outstanding challenge is one that an earlier refused EVENT issued on this connection, with its time |
| Connection.DispatchNeedsAnswer | nostream-share/src/adapters/web-socket-adapter.ts:379-415 | with authentication enabled, an event is handed on only after an earlier signed AUTH event named the challenge outstanding then, less than ten minutes after it was issued |
| Connection.AuthenticatesOnce | nostream-share/src/adapters/web-socket-adapter.ts:167-170 | a challenge is used up: no connection authenticates twice |
| ConnectionRuns.RegisteredExactly | nostream-share/src/adapters/web-socket-adapter.ts:139-150 | over every message sequence: an identifier is registered if and only if the connection has not closed and its last admitted REQ comes after its last CLOSE, and then with the distinct filters of that REQ in the order of their first occurrences |
| ConnectionRuns.AdmissionMeaning | nostream-share/src/handlers/subscribe-message-handler.ts:87-117 | a REQ is admitted if and only if it does not repeat the filters its identifier has and keeps the positive limits, a known identifier not counting as one more |
| ConnectionRuns.RejectionMeaning | nostream-share/src/handlers/subscribe-message-handler.ts:87-117 | which of the four reasons is given |
| ConnectionRuns.HandedOnExactly | nostream-share/src/adapters/web-socket-adapter.ts:379-415 | in every message sequence an EVENT is refused and challenged if and only if authentication is enabled and no earlier message authenticated; every other EVENT is handed on |
| ConnectionRuns.AuthenticatesExactly | nostream-share/src/handlers/event-strategies/auth-event-strategy.ts:17-40 | a message authenticates if and only if it passes the tests before, is of kind 22242 with a relay tag, and its first challenge tag names the challenge that is outstanding, less than ten minutes after it was issued |
| StrategyEffects.NamedIds | nostream-share/src/handlers/event-strategies/delete-event-strategy.ts:22-32 | the identifiers collected are exactly the values of `e` tags that are 64 lower-case hexadecimal digits |
| Strategies.ExecuteDelete | nostream-share/src/handlers/event-strategies/delete-event-strategy.ts:19-47 | marks the named rows of the author, then stores the delete event, replies with the count and broadcasts when stored |
| Strategies.ExecuteReplaceable | nostream-share/src/handlers/event-strategies/replaceable-event-strategy.ts:17-44 | the upsert by [pubkey, kind], its reply for every outcome, and a broadcast exactly when a row is counted |
| Strategies.ExecuteParameterized | nostream-share/src/handlers/event-strategies/parameterized-replaceable-event-strategy.ts:19-35 | the upsert by the rest of the first `d` tag, its reply, and a broadcast exactly when a row is counted |
| Strategies.ExecuteEphemeral | nostream-share/src/handlers/event-strategies/ephemeral-event-strategy.ts:15-22 | stores nothing, acknowledges and broadcasts |
| Strategies.ExecuteDefault | nostream-share/src/handlers/event-strategies/default-event-strategy.ts:17-25 | creates, acknowledges with "duplicate:" when no row was added, and broadcasts only when one was |
| Strategies.Execute | nostream-share/src/factories/event-strategy-factory.ts:16-28 | dispatch by kind carries out exactly the statements that runs of the store are made of, one reply, and at most one broadcast |
| StrategyEffects.DeleteMarks | nostream-share/src/handlers/event-strategies/delete-event-strategy.ts:22-39 | publishing an event of kind 5, on any table: a row is marked afterwards if and only if it was before, or it is the author's own and an `e` tag has its identifier; it is otherwise as before |
| StrategyEffects.OthersMarkNothing | nostream-share/src/factories/event-strategy-factory.ts:16-28 | publishing an event of any other kind marks no row |
| StrategyEffects.ReplyMeaning | nostream-share/src/handlers/event-strategies/default-event-strategy.ts:17-25 | after any run: an event of kinds 20000 to 29999 is acknowledged and broadcast; any other is broadcast, and acknowledged with an empty text, if and only if it fits and all rows it competes with are older; else the answer is "duplicate:", or for a replaceable event that does not fit an error |
| Strategies.IdentifierNeverRefused | nostream-share/src/handlers/event-strategies/replaceable-event-strategy.ts:28-36 | on every reachable table the reply "rejected: event already exists" never occurs |
| Broadcasting.StoredMessages | nostream-share/src/handlers/subscribe-message-handler.ts:64-71 | the messages streamed are those of the rows that are not deleted and match the filters |
| Broadcasting.StreamsInOrder | nostream-share/src/handlers/subscribe-message-handler.ts:62-73 | the messages of consecutive stretches of rows follow each other, and one row gives one message if and only if it is not deleted and some filter matches it: order and copies are those of the rows |
| Broadcasting.FetchAndSend | nostream-share/src/handlers/subscribe-message-handler.ts:51-81 | an open connection gets the streamed rows in order and then EOSE; a closed one gets nothing |
| Broadcasting.WebSocketServerAdapter.OnBroadcast | nostream-share/src/adapters/web-socket-server-adapter.ts:72-83 | each open client is offered the event once, every other client gets nothing |
| Broadcasting.App.OnClusterMessage | nostream-share/src/app/app.ts:118-128 | each worker but the source gets the message once |
| Delivery.FoundWhenVisible | nostream-share/src/handlers/subscribe-message-handler.ts:51-81 | after any run the stored query finds a visible event if and only if the database takes the statements of all filters and some filter finds it in the sense of `QueryMeaning` |
| Delivery.InvariantHolds | nostream-share/src/adapters/web-socket-adapter.ts:176-195 | every reachable state of the interleaved system keeps its invariant: one announcement per accepted event, balanced fan-out of stored and ephemeral events, no gap, only sourced deliveries |
| Delivery.DroppedExactly | nostream-share/src/adapters/web-socket-adapter.ts:361-378 | in every run the broadcast of an event is dropped if and only if its publisher left before broadcasting it, be it after the event was stored or while it was on the way to the store |
| Delivery.DeliveredUnlessDropped | nostream-share/src/handlers/subscribe-message-handler.ts:46-48 | once broadcasts have drained and the query has ended uncut, a visible event that an open subscription asks for has been delivered if and only if its publisher did not leave before broadcasting it, or the stored query saw it |
| Delivery.NoGapWhilePublisherStays | nostream-share/src/handlers/event-strategies/default-event-strategy.ts:19-24 | every such event whose own publisher stays until it has broadcast it has been delivered, in every interleaving and whoever else leaves |
| Delivery.LiveDelivered | nostream-share/src/adapters/web-socket-adapter.ts:176-195 | once broadcasts have drained, an event stored or relayed after an open subscription was registered, and matching any of its filters, has been delivered unless its publisher left before broadcasting it, whatever its stored query can find and however that ended; ephemeral events are never dropped so, and a dropped one is delivered after a whole query if and only if the query saw it and finds it |
| Delivery.LeavingPublisherDropsBroadcast | nostream-share/src/adapters/web-socket-adapter.ts:361-378 | any event and any subscription that asks for it can end undelivered when the publisher leaves after the event is stored, and likewise when it leaves before |
| Delivery.EveryWorkerOnce | nostream-share/src/app/worker.ts:32-34 | every worker handles a broadcast at most once for each time it began and, once drained, exactly once, ephemeral events included; it never returns to its origin, and an event that is stored begins once on one worker |
| Delivery.NothingAfterLeaving | nostream-share/src/adapters/web-socket-adapter.ts:198-202 | in every run, once a client has left no step puts anything more on its socket, neither a query that still streams nor a broadcast |
| Delivery.OnlyMatchingDelivered | nostream-share/src/adapters/web-socket-adapter.ts:186-195 | whatever a registration is sent matches the filters it registered |
| Runes.DecodeValue | nostream-share/src/utils/runes/alternative.ts:102-119 | the second loop ends behind a bar, before an ampersand or at the end, taking escaped characters as they are; a backslash at the end adds the text "undefined" |
| Runes.DecodeAlternative | nostream-share/src/utils/runes/alternative.ts:84-122 | field up to the first punctuation, condition, value and unread rest, or the error the code raises |
| Runes.DecodeRestriction | nostream-share/src/utils/runes/restriction.ts:31-47 | alternatives up to an ampersand or the end, or the first error; none at all is an error |
| Runes.From | nostream-share/src/utils/runes/rune-like.ts:25-36 | all restrictions of the text without its whitespace, or the first error; always ends |
| Runes.RoundTrip | nostream-share/src/utils/runes/rune-like.ts:21-36 | parsing a printed rune gives the rune back, whatever backslashes, bars and ampersands its values hold, if and only if it holds no whitespace |
| Runes.ParseNormalises | nostream-share/src/utils/runes/rune-like.ts:21-36 | whatever text parses, printing the result parses to the same rune |
| Runes.JoinedText | nostream-share/src/utils/runes/rune-like.ts:21-23 | two printed runes joined by an ampersand parse to the restrictions of both in order |
| RuneMeaning.ReadEnds | nostream-share/src/utils/runes/alternative.ts:102-119 | a value written in pieces, each a plain character or a backslash with a character, is read as those characters, up to the end, behind a bar or before an ampersand; a lone backslash at the end adds the text "undefined" |
| RuneMeaning.EveryText | nostream-share/src/utils/runes/alternative.ts:102-119 | every text is such pieces followed by one of those ends |
| RuneMeaning.AlternativeMeaning | nostream-share/src/utils/runes/alternative.ts:84-122 | a text without punctuation is the first error, one whose first punctuation is no condition the second; any other gives the text before, that condition and the value read behind it |
| RuneMeaning.NoAlternativesExactly | nostream-share/src/utils/runes/restriction.ts:31-47 | a restriction is refused as empty if and only if its text is, or begins with an ampersand |
| RuneMeaning.StripMeaning | nostream-share/src/utils/runes/rune-like.ts:25-26 | whitespace of ECMAScript is dropped and every other character kept in order |
| RuneTests.TestRestriction | nostream-share/src/utils/runes/restriction.ts:14-25 | nothing if and only if some alternative passes, else the reasons of all alternatives in order |
| RuneTests.TestRune | nostream-share/src/utils/runes/rune-like.ts:10-19 | passes if and only if every restriction has a passing alternative; otherwise the reasons of the first restriction that has none |
| RuneTests.AppendingNarrows | nostream-share/src/utils/runes/rune-like.ts:10-19 | a rune with more restrictions passes if and only if both parts pass |
| RuneTests.AlternativesWiden | nostream-share/src/utils/runes/restriction.ts:14-25 | a restriction with more alternatives passes if and only if either part passes |
| RuneTests.TextNarrows | nostream-share/src/utils/runes/rune-like.ts:10-36 | appending restrictions to the text of a rune only narrows what it allows |
| RuneMeaning.PassesMeaning | nostream-share/src/utils/runes/alternative.ts:25-81 | an alternative passes if and only if it is a comment, its field is missing and should be, or its value meets the condition: equal, different, begins with, ends in, contains, comes before or after, is a smaller or greater integer |
| RuneMeaning.BeforeMeaning | nostream-share/src/utils/runes/alternative.ts:76-79 | one string comes before another if and only if it does at the first place where they differ, or the other continues it |
| RuneMeaning.ParseDecimal | nostream-share/src/utils/runes/alternative.ts:56-62 | decimal digits behind spaces are read as their number, whatever follows that is no letter or digit |
| RuneMeaning.ParseSigned | nostream-share/src/utils/runes/alternative.ts:56-62 | and behind a sign as that number with the sign |
| RuneMeaning.ComparesNumbers | nostream-share/src/utils/runes/alternative.ts:53-74 | on numbers written in digits the conditions `<` and `>` compare the numbers |
| RateLimiter.SlidingWindowRateLimiter.Hit | nostream-share/src/utils/sliding-window-rate-limiter.ts:12-32 | removal, addition, sum and expiry on one key, leaving other keys alone; limited exactly when the sum is above the rate |
| RateLimiter.LiveIsRecent | nostream-share/src/adapters/redis-adapter.ts:67-83 | under a clock that does not go back, what is left in the cache for the next hit is the last period of all members of the whole history, expiry included |
| RateLimiter.AnswersAreCounts | nostream-share/src/utils/sliding-window-rate-limiter.ts:17-31 | without repeated members all answers equal those of a limiter that forgets nothing and never expires a key |
| RateLimiter.CountsUnlessRepeated | nostream-share/src/utils/sliding-window-rate-limiter.ts:22-22 | for positive steps the answers count everything at every rate if and only if no two hits have both millisecond and step in common, or the period is zero |
| RateLimiter.RateBound | nostream-share/src/utils/sliding-window-rate-limiter.ts:17-31 | for every history under a clock that does not go back: the steps admitted in any half-open window of one period sum to at most the rate plus those of admitted hits that repeat both millisecond and step, and to at most the rate when there are none |
| RateLimiter.SameMillisecondAdmitted | nostream-share/src/utils/sliding-window-rate-limiter.ts:22-22 | two hits of one step in one millisecond are one member, and together admit twice the rate |
| RateLimiter.PeriodApartAdmitted | nostream-share/src/utils/sliding-window-rate-limiter.ts:21-21 | two hits exactly one period apart are both admitted at the full rate, so the window cannot be closed |
| ProofOfWork.Msb | nostream-share/src/utils/proof-of-work.ts:14-27 | the shift loop counts the zero bits before the highest set bit of a byte, eight for zero |
| ProofOfWork.GetLeadingZeroBits | nostream-share/src/utils/proof-of-work.ts:1-12 | the loop with its early exit adds up the leading zero bits of the byte string |
| ProofOfWork.CountMeaning | nostream-share/src/utils/proof-of-work.ts:1-27 | for n bytes with big-endian value N and d up to 8n, the count is at least d if and only if N < 2^(8n-d) |
| Fees.FeesAgree | nostream-share/src/controllers/invoices/post-invoice-controller.ts:113-143 | the fee summed over prefix-filtered schedules with an exact second test equals the fee summed at confirmation; when none is asked for, none is expected |
| Fees.FeeAddsUp | nostream-share/src/services/payments-service.ts:170-178 | the fee expected is the sum over the enabled schedules no whitelisted text of which the key starts with |
| Fees.NoFeeExactly | nostream-share/src/controllers/invoices/post-invoice-controller.ts:113-124 | no fee is asked for if and only if every schedule is disabled or exempts the key |
| Ledger.Database.UpsertUser | nostream-share/src/repositories/user-repository.ts:30-62 | a new user starts with balance zero; an existing one keeps the balance, and the admission unless it is given |
| Ledger.Database.UpsertInvoice | nostream-share/src/repositories/invoice-repository.ts:105-151 | a known identifier only takes the new status; what confirming wrote stays |
| Ledger.Database.ConfirmInvoice | nostream-share/migrations/20230220_002700_fix_unit_confirm_invoice_func.js:14-33 | an unconfirmed invoice is marked paid and its user credited by unit, a confirmed one changes nothing, an overflow fails |
| Ledger.Database.ChargeUser | nostream-share/migrations/20230120_161800_charge_user_func.js:11-20 | the balance is reduced by the amount if and only if it covers it; otherwise nothing changes |
| Ledger.Transaction.Rollback | nostream-share/src/database/transaction.ts:31-36 | restores the state at the beginning, or fails when nothing was begun |
| Ledger.PaymentsService.CreateInvoice | nostream-share/src/services/payments-service.ts:50-111 | user and invoice together, or the state before when the processor or the database fails |
| Ledger.PaymentsService.ConfirmInvoice | nostream-share/src/services/payments-service.ts:136-206 | checks the invoice, credits it, admits when the amount in msats meets a positive fee, and restores the state before on any failure |
| LedgerRuns.ConfirmedBalance | nostream-share/migrations/20230220_002700_fix_unit_confirm_invoice_func.js:17-31 | confirming moves each balance by exactly what it adds to the value of that user's confirmed invoices |
| LedgerRuns.BalanceIsAccounted | nostream-share/migrations/20230220_002700_fix_unit_confirm_invoice_func.js:14-33 | over every run, with repeated and rolled-back steps, a balance is the msat value of the user's confirmed invoices minus the user's successful charges, for all amounts |
| LedgerRuns.NeverNegative | nostream-share/migrations/20230120_161800_charge_user_func.js:15-19 | when amounts paid are not negative no balance ever is, whatever is charged |
| LedgerRuns.InvoiceKept | nostream-share/src/repositories/invoice-repository.ts:129-144 | no run changes an invoice's identifier, user, unit or requested amount, nor what confirming wrote |
| LedgerRuns.ConfirmingAgain | nostream-share/migrations/20230220_002700_fix_unit_confirm_invoice_func.js:17-31 | in a run a confirmation moves a balance if and only if it is the one that confirms its invoice, and then by the msat value of that invoice to that user |
| LedgerRuns.CreditedOnce | nostream-share/migrations/20230220_002700_fix_unit_confirm_invoice_func.js:17-31 | in a run at most one step confirms an invoice |
| LedgerRuns.ConfirmsExactly | nostream-share/src/services/payments-service.ts:136-206 | a confirmation goes through if and only if it has a date and an amount, says completed, no BIGINT overflows and the database commits; otherwise nothing changes |
| LedgerRuns.ChargedExactly | nostream-share/migrations/20230120_161800_charge_user_func.js:11-20 | a charge is taken if and only if the balance covers it and stays a BIGINT, and changes that balance alone |
| LedgerRuns.CreatedExactly | nostream-share/src/services/payments-service.ts:50-111 | creating goes through if and only if the processor answers with an amount that fits and the database commits; the balance stays, and a new identifier is one more row at the end |
| LedgerRuns.AdmittedExactly | nostream-share/src/services/payments-service.ts:166-200 | in every run a user is admitted if and only if some confirmation for the user went through and met a positive fee; nothing takes admission back |
| Maintenance.OnSchedule | nostream-share/src/app/maintenance-worker.ts:34-87 | a round takes the first ten pending invoices and carries out, for each answer, exactly the steps it calls for; one failure does not stop the next |
| MaintenanceRounds.RoundOutcome | nostream-share/src/app/maintenance-worker.ts:34-87 | in one round with answers about their own invoices, every pending invoice with fewer than ten pending before it becomes what its own answer makes of it, every other stays as it is, and balances move by exactly what becomes confirmed |
| MaintenanceRounds.RoundAdmits | nostream-share/src/app/maintenance-worker.ts:61-76 | in one round a user becomes admitted if and only if some invoice looked at is recorded as paid for the key that its answer names, else the invoice's own, and the amount requested, in the unit of the answer, else the invoice's own, meets a positive fee |
| MaintenanceRounds.PaidIsCredited | nostream-share/src/app/maintenance-worker.ts:61-76 | such an invoice, reported as paid with a date, taken by the database and not overflowing, ends completed and confirmed with the amount requested; when the round looks at no other invoice of its payee the balance grows by its value in msats |
| Maintenance.Settle | nostream-share/src/app/maintenance-worker.ts:47-80 | for one invoice: write the status, then confirm with the requested amount when the answer says completed with a date |
| Maintenance.PayingInFullAdmits | nostream-share/src/app/maintenance-worker.ts:61-76 | request an invoice, let anything happen, confirm it as paid: the user is then admitted if and only if already so or the fee is positive and, for a processor counting in sats, a multiple of 1000 |
| Maintenance.FailedConfirmation | nostream-share/src/app/maintenance-worker.ts:59-76 | a pending invoice reported as completed ends credited if and only if the answer has a date, the database takes the confirmation and no BIGINT overflows; otherwise it ends completed and not credited |
| Maintenance.OverflowNotCredited | nostream-share/migrations/20230220_002700_fix_unit_confirm_invoice_func.js:24-25 | an invoice of 2^63-1 sats ends so although every write is taken |
| Maintenance.NeverRetried | nostream-share/src/app/maintenance-worker.ts:41-47 | no number of later rounds credits such an invoice, as only pending ones are fetched |
| RelayMerge.SortIsStable | api/src/nostr/client.ts:11-11 | the sort is newest first and keeps the given order among events of one time |
| RelayMerge.StableSortIsUnique | api/src/nostr/client.ts:11-11 | those two properties determine the list, so the result is that of any stable sort |
| RelayMerge.DedupeEvents | api/src/nostr/client.ts:10-22 | the loop filling the map yields the first event of every key in sorted order, which the final sort leaves as it is |
| RelayMerge.KeepsFirstNewest | api/src/nostr/client.ts:10-22 | an event is kept if and only if it is the newest of its key and the first listed of several newest |
| RelayMerge.SameKey | api/src/nostr/client.ts:5-15 | two events have one key if and only if their first tags named `d` have the same value that is not empty, or neither has such a value and they share the identifier |
| RelayMerge.OneVersionStays | api/src/nostr/client.ts:10-22 | of all events with one value of the first `d` tag exactly one stays, the newest and first listed; no event without that value is looked at |
| RelayMerge.UnversionedStay | api/src/nostr/client.ts:10-22 | an event without such a value gives way only to newer or first listed events of its own identifier that have none either |
| RelayMerge.SortedAndDistinct | api/src/nostr/client.ts:10-22 | the result is sorted newest first and no key occurs twice |
| RelayMerge.Homomorphism | api/src/nostr/client.ts:10-22 | deduplicating two deduplicated lists together gives, as a list, what deduplicating everything at once gives |
| RelayMerge.Idempotent | api/src/nostr/client.ts:10-22 | deduplicating twice is deduplicating once |
| BlobMetadata.NewestIsVisible | nostream-share/src/repositories/event-repository.ts:228-234 | a relay that stored the newest metadata event of a hash, unmarked, shows it |
| BlobMetadata.MetadataMeaning | api/src/metadata/schema.ts:115-121 | the filter matches exactly the events of kind 34578 with a `d` tag whose value is the hash |
| BlobMetadata.PickedNewest | api/src/metadata/schema.ts:115-121 | every answer to the compiled metadata filter holds at most fifty rows that it selects, and leaves out only rows no newer than fifty returned |
| BlobMetadata.NewestIsAnswered | api/src/metadata/schema.ts:115-121 | that event is in the relay's answer to the metadata filter, whatever the limit of fifty cuts off |
| BlobMetadata.NewestStoredIsResolved | api/src/routes/blobs.ts:28-34 | if one answering relay stored the newest event of a hash, a soft delete included, `resolveMetadata` takes it, whatever older versions the other relays return and in whatever order |
| BlobMetadata.TakenWhenStrictlyNewer | nostream-share/src/repositories/event-repository.ts:234-234 | a relay shows a newly published version if and only if it is strictly newer than all it received for the same key |
| BlobMetadata.ResolvedIsVisible | api/src/routes/blobs.ts:28-34 | whatever is resolved is visible on some relay that answered |
| BlobMetadata.SameSecondDeleteIsLost | api/src/routes/blobs.ts:121-142 | with one relay, a soft delete in the same second as the version it deletes is never what reading resolves to |

## Left out

- Signatures, event hashes, encryption and bech32: taken as given; an identifier is assumed to determine its event, and decrypting the resolved metadata event is not modelled.
- Partitioned and foreign tables, and the archive script: the unique indexes are those of the flat table, on which ON CONFLICT is defined.
- The mirroring worker, which inserts every kind without a key and so sits outside last write wins.
- Read-replica lag: a query reads the table as it is at that step.
- LIMIT and order over a union of several filters: `QueryResults` is about one filter; in `Delivery` a query that reached its limit is flagged as cut, and nothing is claimed about what it misses.
- Columns first_seen, remote_address and expires_at, and the time in deleted_at, which becomes a mark. That an expiration must fit the column is modelled for expirations written in decimal digits; events that spell a larger number otherwise, which the INSERT refuses too, are outside the model.
- Delivery.DeliveredUnlessDropped: about events that the subscription's stored query can find (`QueryMeaning`, `PlainFiltersFind`); for the others `LiveDelivered` covers what is taken after the registration.
- Delivery.InvariantHolds: a worker that dies and loses its messages, and sockets closing while their adapter is not yet told, are not steps of the machine; nor is an ephemeral event or a REQ of a client that has already left, which has no effect.
- EventStore.EventRepository.Upsert: values too large for a btree index, on tag values or on the deduplication column, also make the database refuse a statement; only the column types are modelled.
- Connection.SubscriptionsBounded: for fixed settings; heartbeats, message rate limits and malformed messages do not change subscriptions and are not inputs.
- Connection.WebSocketAdapter.OnAuthEvent: the replies to events that fail the identifier, signature, rate or admission tests before it are not modelled.
- Connection.AuthenticatesOnce: the clock and the random challenge are parameters; that two challenges differ is not claimed.
- EventStore.EventRepository.Create: text is a sequence of characters without UTF-16 surrogates; a lone surrogate, which the column would refuse, is not modelled.
- RuneTests.TestRestriction: as for the whole rune, values are strings.
- RuneTests.TestRune: values are strings; functions as values, inherited properties and non-string values are not part of this model, and integers are unbounded.
- Alternative.from, which is not used by the parser.
- RateLimiter.RateBound: for a clock that does not go back.
- RateLimiter.SlidingWindowRateLimiter.Hit: its four cache commands are one atomic step; hits of several workers on one key that interleave between the commands are not modelled.
- Ledger.PaymentsService.CreateInvoice: one flag says whether the processor answers and one whether the database commits; why they fail is not modelled.
- Maintenance.OnSchedule: pending invoices are taken in table order, which the query leaves open; the update notification and the counter in the debug output are not modelled.
- Maintenance.PayingInFullAdmits: for units msats and sats, the ones the processors use; callback controllers, which differ per processor, are not modelled.
- LedgerRuns.NeverNegative: nothing in the code charges a user yet; the procedure is modelled as any caller could use it.
- BlobMetadata.NewestStoredIsResolved: relays that do not answer are simply absent, and publishing is a store at each relay that takes it.
- HTTP routes, upload and download of blobs, HTML pages, Tor, settings watching and the payment clients.
