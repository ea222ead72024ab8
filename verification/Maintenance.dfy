/** The maintenance worker (nostream-share/src/app/maintenance-worker.ts): poll
    the pending invoices and confirm those that were paid; and what a user who
    pays the requested amount gets. */
module Maintenance {
  import opened Wrappers
  import opened Hex
  import opened Fees
  import opened Ledger
  import opened LedgerRuns

  /** What the payments processor answers about one invoice, and whether the
      database takes the writes that follow. */
  datatype Reply =
    | Failed
    | Answer(id: Option<string>, status: Option<Status>, pubkey: Option<string>, unit: Option<Unit>,
             confirmedAt: Option<nat>, statusWritten: bool, commits: bool)

  /** The amount requested counts as paid; everything else comes from the
      answer where it says so. */
  function Merged(row: InvoiceRow, reply: Reply): Update
    requires reply.Answer? && reply.id.Some? && reply.status.Some?
  {
    Update(reply.id.value,
           if reply.pubkey.Some? then reply.pubkey.value else FromBuffer(row.pubkey),
           Some(row.amountRequested),
           reply.confirmedAt,
           reply.status.value,
           if reply.unit.Some? then reply.unit else row.unit)
  }

  function StepsFor(row: InvoiceRow, reply: Reply, fees: seq<FeeSchedule>): seq<Step> {
    if reply.Failed? || reply.id.None? || reply.status.None? || !reply.statusWritten then []
    else
      [SetStatus(reply.id.value, reply.status.value)]
      + if row.status != reply.status.value && reply.status.value == Completed && reply.confirmedAt.Some?
        then [Confirm(Merged(row, reply), fees, reply.commits)] else []
  }

  /** The first pending invoices, at most `limit` of them. */
  function FindPending(invoices: seq<InvoiceRow>, limit: nat): (pending: seq<InvoiceRow>)
    ensures |pending| <= limit
    ensures forall row :: row in pending ==> row in invoices && row.status == Pending
  {
    if invoices == [] then []
    else
      var rest := FindPending(invoices[..|invoices| - 1], limit);
      if invoices[|invoices| - 1].status == Pending && |rest| < limit then rest + [invoices[|invoices| - 1]] else rest
  }

  const PENDING_LIMIT: nat := 10

  function ReplyAt(replies: seq<Reply>, k: nat): Reply {
    if k < |replies| then replies[k] else Failed
  }

  function TickSteps(pending: seq<InvoiceRow>, replies: seq<Reply>, fees: seq<FeeSchedule>): seq<Step> {
    if pending == [] then []
    else
      TickSteps(pending[..|pending| - 1], replies, fees)
      + StepsFor(pending[|pending| - 1], ReplyAt(replies, |pending| - 1), fees)
  }

  function Tick(s: State, replies: seq<Reply>, fees: seq<FeeSchedule>): State {
    From(s, TickSteps(FindPending(s.invoices, PENDING_LIMIT), replies, fees))
  }

  /** One scheduled round. A failure with one invoice does not stop the next. */
  method OnSchedule(service: PaymentsService, paymentsEnabled: bool, fees: seq<FeeSchedule>, replies: seq<Reply>)
    modifies service.db
    ensures service.db.Snapshot()
      == if paymentsEnabled then Tick(old(service.db.Snapshot()), replies, fees) else old(service.db.Snapshot())
  {
    if !paymentsEnabled {
      return;
    }
    var db := service.db;
    var invoices := FindPending(db.invoices, PENDING_LIMIT);
    for k := 0 to |invoices|
      invariant db.Snapshot() == From(old(service.db.Snapshot()), TickSteps(invoices[..k], replies, fees))
    {
      ghost var before := db.Snapshot();
      assert invoices[..k + 1][..k] == invoices[..k];
      FromAppend(old(service.db.Snapshot()), TickSteps(invoices[..k], replies, fees),
                 StepsFor(invoices[k], ReplyAt(replies, k), fees));
      Settle(service, invoices[k], ReplyAt(replies, k), fees);
    }
    assert invoices[..|invoices|] == invoices;
  }

  method Settle(service: PaymentsService, invoice: InvoiceRow, reply: Reply, fees: seq<FeeSchedule>)
    modifies service.db
    ensures service.db.Snapshot() == From(old(service.db.Snapshot()), StepsFor(invoice, reply, fees))
  {
    if reply.Failed? || reply.id.None? || reply.status.None? || !reply.statusWritten {
      return;
    }
    var id, status := reply.id.value, reply.status.value;
    FromOne(service.db.Snapshot(), SetStatus(id, status));
    service.db.UpdateStatus(id, status);
    if invoice.status != status && status == Completed && reply.confirmedAt.Some? {
      FromTwo(old(service.db.Snapshot()), SetStatus(id, status), Confirm(Merged(invoice, reply), fees, reply.commits));
      var _ := service.ConfirmInvoice(Merged(invoice, reply), fees, reply.commits);
    }
  }

  lemma FromOne(s: State, step: Step)
    ensures From(s, [step]) == Do(s, step)
  {
    assert [step][..0] == [];
  }

  lemma FromTwo(s: State, first: Step, second: Step)
    ensures From(s, [first] + [second]) == Do(Do(s, first), second)
  {
    FromOne(s, first);
    assert ([first] + [second])[..1] == [first];
  }

  // ---- paying in full admits ----

  /** BigInt division, which truncates toward zero. */
  function Truncated(a: int): int {
    if a >= 0 then a / 1000 else -(-a / 1000)
  }

  /** The amount a processor of each unit is asked for. */
  function AmountIn(unit: Unit, msats: int): int
    requires unit != Btc
  {
    if unit == Msats then msats else Truncated(msats)
  }

  lemma EnoughWhen(fee: int, unit: Unit)
    requires unit != Btc
    ensures fee > 0 && AmountIn(unit, fee) * MsatsPer(unit) >= fee <==> fee > 0 && (unit == Msats || fee % 1000 == 0)
  {
  }

  lemma CreatedRow(s: State, pubkey: string, quote: Quote)
    requires IndexOf(s.invoices, quote.id) == -1 && AfterCreate(s, pubkey, Some(quote), true).1
    ensures AfterCreate(s, pubkey, Some(quote), true).0.invoices
      == s.invoices + [InvoiceRow(quote.id, ToBuffer(pubkey), quote.amountRequested, None, quote.unit, quote.status, None)]
  {
  }

  /** The row of the invoice, after anything that may follow its creation. */
  lemma RequestedRow(s: State, pubkey: string, quote: Quote, between: seq<Step>)
    requires IndexOf(s.invoices, quote.id) == -1 && AfterCreate(s, pubkey, Some(quote), true).1
    ensures var later := From(AfterCreate(s, pubkey, Some(quote), true).0, between).invoices;
      && |s.invoices| < |later|
      && var row := later[|s.invoices|];
         row.id == quote.id && row.pubkey == ToBuffer(pubkey) && row.unit == quote.unit
         && row.amountRequested == quote.amountRequested
  {
    CreatedRow(s, pubkey, quote);
    InvoiceKept(AfterCreate(s, pubkey, Some(quote), true).0, between, |s.invoices|);
  }

  lemma MergedAdmits(row: InvoiceRow, reply: Reply, pubkey: string, fees: seq<FeeSchedule>, unit: Unit)
    requires IsLowerHex(pubkey) && |pubkey| == 64 && unit != Btc && FeeAtCreation(fees, pubkey).Some?
    requires row.pubkey == ToBuffer(pubkey) && row.unit == Some(unit)
    requires row.amountRequested == AmountIn(unit, FeeAtCreation(fees, pubkey).value)
    requires reply.Answer? && reply.id.Some? && reply.status.Some?
    requires (reply.pubkey.Some? ==> reply.pubkey.value == pubkey) && (reply.unit.Some? ==> reply.unit.value == unit)
    ensures Merged(row, reply).pubkey == pubkey
    ensures var fee := FeeAtCreation(fees, pubkey).value;
      Admits(Merged(row, reply), fees) <==> fee > 0 && (unit == Msats || fee % 1000 == 0)
  {
    TextRoundTrip(pubkey);
    FeesAgree(fees, pubkey);
    EnoughWhen(FeeAtCreation(fees, pubkey).value, unit);
  }

  /** Fixed settings: request the invoice, let anything happen, and let the
      worker confirm it as paid. The user ends admitted, unless already so,
      exactly when the fee is positive and, for a processor that counts in
      sats, whole in sats. */
  lemma PayingInFullAdmits(s: State, pubkey: string, fees: seq<FeeSchedule>, id: string, unit: Unit,
                           between: seq<Step>, reply: Reply)
    requires IsLowerHex(pubkey) && |pubkey| == 64 && unit != Btc
    requires FeeAtCreation(fees, pubkey).Some? && IndexOf(s.invoices, id) == -1
    requires var quote := Quote(id, AmountIn(unit, FeeAtCreation(fees, pubkey).value), Some(unit), Pending);
      AfterCreate(s, pubkey, Some(quote), true).1
    requires reply.Answer? && reply.id == Some(id) && reply.status == Some(Completed) && reply.confirmedAt.Some?
    requires (reply.pubkey.Some? ==> reply.pubkey.value == pubkey) && (reply.unit.Some? ==> reply.unit.value == unit)
    ensures var fee := FeeAtCreation(fees, pubkey).value;
      var quote := Quote(id, AmountIn(unit, fee), Some(unit), Pending);
      var paid := From(AfterCreate(s, pubkey, Some(quote), true).0, between);
      && |s.invoices| < |paid.invoices|
      && var (t, ok) := AfterConfirm(paid, Merged(paid.invoices[|s.invoices|], reply), fees, true);
         ok ==> (Admitted(t, ToBuffer(pubkey)) <==>
                 Admitted(paid, ToBuffer(pubkey)) || (fee > 0 && (unit == Msats || fee % 1000 == 0)))
  {
    var quote := Quote(id, AmountIn(unit, FeeAtCreation(fees, pubkey).value), Some(unit), Pending);
    RequestedRow(s, pubkey, quote, between);
    var paid := From(AfterCreate(s, pubkey, Some(quote), true).0, between);
    var row := paid.invoices[|s.invoices|];
    MergedAdmits(row, reply, pubkey, fees, unit);
    AdmissionOf(paid, Merged(row, reply), fees, ToBuffer(pubkey));
  }

  /** Confirming changes one user's admission, and only when the fee is met. */
  lemma AdmissionOf(s: State, u: Update, fees: seq<FeeSchedule>, user: seq<Byte>)
    ensures var (t, ok) := AfterConfirm(s, u, fees, true);
      ok ==> (Admitted(t, user) <==> Admitted(s, user) || (user == ToBuffer(u.pubkey) && Admits(u, fees)))
  {
  }

  // ---- a confirmation that fails is not tried again ----

  predicate PaidButNotCredited(row: InvoiceRow) {
    row.status == Completed && row.confirmedAt.None?
  }

  /** Can the answer's confirmation go through? It has a date, the database
      takes it, and no amount overflows. */
  predicate GoesThrough(s: State, row: InvoiceRow, reply: Reply)
    requires reply.Answer?
  {
    reply.confirmedAt.Some? && reply.commits
    && Confirmed(s, row.id, row.amountRequested, reply.confirmedAt.value).Some?
  }

  /** Writing the status first does not change what confirming does. */
  lemma StatusThenConfirm(s: State, i: nat, amount: int, at: nat)
    requires Kept(s) && i < |s.invoices| && s.invoices[i].confirmedAt.None?
    ensures var id := s.invoices[i].id;
      var marked := s.(invoices := StatusSet(s.invoices, id, Completed));
      && (Confirmed(marked, id, amount, at).Some? <==> Confirmed(s, id, amount, at).Some?)
      && (Confirmed(marked, id, amount, at).Some? ==>
            var t := Confirmed(marked, id, amount, at).value.invoices;
            |t| == |s.invoices| && t[i].confirmedAt == Some(at) && t[i].status == Completed)
  {
    var id := s.invoices[i].id;
    var marked := s.(invoices := StatusSet(s.invoices, id, Completed));
    IndexIsUnique(s, i);
    assert Kept(marked);
    IndexIsUnique(marked, i);
  }

  /** For a pending invoice that the processor reports as completed: the status
      is written first, and the invoice is then credited exactly when the
      confirmation can go through. Otherwise it is left completed and not
      credited. */
  lemma FailedConfirmation(s: State, i: nat, reply: Reply, fees: seq<FeeSchedule>)
    requires Kept(s) && i < |s.invoices| && s.invoices[i].status == Pending && s.invoices[i].confirmedAt.None?
    requires reply.Answer? && reply.id == Some(s.invoices[i].id) && reply.status == Some(Completed)
    requires reply.statusWritten
    ensures var row, t := s.invoices[i], From(s, StepsFor(s.invoices[i], reply, fees));
      && |t.invoices| == |s.invoices| && t.invoices[i].status == Completed
      && (t.invoices[i].confirmedAt.Some? <==> GoesThrough(s, row, reply))
      && (PaidButNotCredited(t.invoices[i]) <==> !GoesThrough(s, row, reply))
  {
    var row := s.invoices[i];
    IndexIsUnique(s, i);
    if reply.confirmedAt.Some? {
      FromTwo(s, SetStatus(row.id, Completed), Confirm(Merged(row, reply), fees, reply.commits));
      ConfirmsAfterStatus(s, i, Merged(row, reply), fees, reply.commits);
    } else {
      FromOne(s, SetStatus(row.id, Completed));
      assert StepsFor(row, reply, fees) == [SetStatus(row.id, Completed)];
    }
  }

  lemma ConfirmsAfterStatus(s: State, i: nat, u: Update, fees: seq<FeeSchedule>, commits: bool)
    requires Kept(s) && i < |s.invoices| && s.invoices[i].confirmedAt.None? && u.id == s.invoices[i].id
    requires Confirmable(u)
    ensures var t := Do(Do(s, SetStatus(u.id, Completed)), Confirm(u, fees, commits));
      && |t.invoices| == |s.invoices| && t.invoices[i].status == Completed
      && (t.invoices[i].confirmedAt.Some?
          <==> commits && Confirmed(s, u.id, u.amountPaid.value, u.confirmedAt.value).Some?)
  {
    IndexIsUnique(s, i);
    StatusThenConfirm(s, i, u.amountPaid.value, u.confirmedAt.value);
  }

  /** A credit that does not fit a BIGINT never goes through, although every
      write is taken. */
  lemma OverflowNotCredited(user: seq<Byte>, id: string, at: nat, fees: seq<FeeSchedule>)
    ensures var row := InvoiceRow(id, user, 0x7fff_ffff_ffff_ffff, None, Some(Sats), Pending, None);
      var reply := Answer(Some(id), Some(Completed), None, None, Some(at), true, true);
      var t := From(State(map[user := User(false, 0)], [row]), StepsFor(row, reply, fees));
      |t.invoices| == 1 && PaidButNotCredited(t.invoices[0])
  {
    var row := InvoiceRow(id, user, 0x7fff_ffff_ffff_ffff, None, Some(Sats), Pending, None);
    var reply := Answer(Some(id), Some(Completed), None, None, Some(at), true, true);
    var s := State(map[user := User(false, 0)], [row]);
    IndexIsUnique(s, 0);
    assert !GoesThrough(s, row, reply);
    FailedConfirmation(s, 0, reply, fees);
  }

  /** Answers are about the invoices asked for. */
  ghost predicate Honest(pending: seq<InvoiceRow>, replies: seq<Reply>) {
    forall k :: 0 <= k < |pending| && k < |replies| && replies[k].Answer? && replies[k].id.Some? ==>
      replies[k].id.value == pending[k].id
  }

  lemma StatusElsewhere(s: State, id: string, status: Status, i: nat)
    requires i < |s.invoices| && s.invoices[i].id != id
    ensures var t := Do(s, SetStatus(id, status));
      |t.invoices| == |s.invoices| && t.invoices[i] == s.invoices[i]
  {
  }

  lemma ConfirmElsewhere(s: State, u: Update, fees: seq<FeeSchedule>, commits: bool, i: nat)
    requires i < |s.invoices| && s.invoices[i].id != u.id
    ensures var t := Do(s, Confirm(u, fees, commits));
      |t.invoices| == |s.invoices| && t.invoices[i] == s.invoices[i]
  {
  }

  lemma ElsewhereUntouched(s: State, row: InvoiceRow, reply: Reply, fees: seq<FeeSchedule>, i: nat)
    requires Kept(s) && i < |s.invoices| && s.invoices[i].id != row.id
    requires reply.Answer? && reply.id.Some? ==> reply.id.value == row.id
    ensures var t := From(s, StepsFor(row, reply, fees));
      i < |t.invoices| && t.invoices[i] == s.invoices[i]
  {
    var steps := StepsFor(row, reply, fees);
    if steps != [] {
      var first := steps[0];
      FromOne(s, first);
      StatusElsewhere(s, row.id, reply.status.value, i);
      if |steps| == 1 {
        assert steps == [first];
      } else {
        assert steps == [first] + [steps[1]];
        FromTwo(s, first, steps[1]);
        ConfirmElsewhere(Do(s, first), Merged(row, reply), fees, reply.commits, i);
      }
    }
  }

  lemma {:induction false} TickElsewhere(s: State, pending: seq<InvoiceRow>, replies: seq<Reply>,
                                         fees: seq<FeeSchedule>, i: nat)
    requires Kept(s) && i < |s.invoices| && Honest(pending, replies)
    requires forall row :: row in pending ==> row.id != s.invoices[i].id
    ensures var t := From(s, TickSteps(pending, replies, fees));
      Kept(t) && i < |t.invoices| && t.invoices[i] == s.invoices[i]
  {
    if pending != [] {
      var n := |pending| - 1;
      TickElsewhere(s, pending[..n], replies, fees, i);
      var before := From(s, TickSteps(pending[..n], replies, fees));
      FromAppend(s, TickSteps(pending[..n], replies, fees), StepsFor(pending[n], ReplyAt(replies, n), fees));
      ElsewhereUntouched(before, pending[n], ReplyAt(replies, n), fees, i);
      KeptFrom(before, StepsFor(pending[n], ReplyAt(replies, n), fees));
    }
  }

  /** No number of later rounds credits an invoice whose confirmation failed. */
  lemma {:induction false} NeverRetried(s: State, rounds: seq<seq<Reply>>, fees: seq<FeeSchedule>, i: nat)
    requires Kept(s) && i < |s.invoices| && PaidButNotCredited(s.invoices[i]) && AllHonest(s, rounds, fees)
    ensures var t := AfterRounds(s, rounds, fees);
      Kept(t) && i < |t.invoices| && t.invoices[i] == s.invoices[i]
  {
    if rounds != [] {
      var earlier := rounds[..|rounds| - 1];
      NeverRetried(s, earlier, fees, i);
      var before := AfterRounds(s, earlier, fees);
      forall row | row in FindPending(before.invoices, PENDING_LIMIT) ensures row.id != before.invoices[i].id {
        var j :| 0 <= j < |before.invoices| && before.invoices[j] == row;
        assert j != i;
      }
      TickElsewhere(before, FindPending(before.invoices, PENDING_LIMIT), rounds[|rounds| - 1], fees, i);
    }
  }

  function AfterRounds(s: State, rounds: seq<seq<Reply>>, fees: seq<FeeSchedule>): State {
    if rounds == [] then s else Tick(AfterRounds(s, rounds[..|rounds| - 1], fees), rounds[|rounds| - 1], fees)
  }

  ghost predicate AllHonest(s: State, rounds: seq<seq<Reply>>, fees: seq<FeeSchedule>) {
    rounds == []
    || (AllHonest(s, rounds[..|rounds| - 1], fees)
        && Honest(FindPending(AfterRounds(s, rounds[..|rounds| - 1], fees).invoices, PENDING_LIMIT), rounds[|rounds| - 1]))
  }

  lemma {:induction false} KeptFrom(s: State, steps: seq<Step>)
    requires Kept(s)
    ensures Kept(From(s, steps))
  {
    if steps != [] {
      var before := From(s, steps[..|steps| - 1]);
      KeptFrom(s, steps[..|steps| - 1]);
      match steps[|steps| - 1] {
        case Create(pubkey, quote, commits) => CreateStep(before, pubkey, quote, commits, []);
        case Confirm(u, fees, commits) => ConfirmStep(before, u, fees, commits, []);
        case _ =>
      }
    }
  }
}
