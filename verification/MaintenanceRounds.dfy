/** One round of the maintenance worker, told from the invoices and the answers:
    which invoices it looks at, what becomes of each, and what is credited
    (nostream-share/src/app/maintenance-worker.ts). */
module MaintenanceRounds {
  import opened Wrappers
  import opened Hex
  import opened Fees
  import opened Ledger
  import opened LedgerRuns
  import opened Maintenance

  /** The pending invoices among the first ones: the place in the round of the
      next one. */
  function Rank(invoices: seq<InvoiceRow>, i: nat): (rank: nat)
    requires i <= |invoices|
    ensures rank <= i
  {
    if i == 0 then 0 else Rank(invoices, i - 1) + if invoices[i - 1].status == Pending then 1 else 0
  }

  predicate LookedAt(invoices: seq<InvoiceRow>, i: nat)
    requires i < |invoices|
  {
    invoices[i].status == Pending && Rank(invoices, i) < 10
  }

  predicate Fits8(n: int) {
    -9223372036854775808 <= n < 9223372036854775808
  }

  function InMsats(amount: int, unit: Unit): int {
    match unit
    case Msats => amount
    case Sats => amount * 1000
    case Btc => amount * 100000000000
  }

  /** Does neither the amount, nor its value, nor the payee's balance with it
      overflow? */
  predicate CreditFits(row: InvoiceRow, balance: int) {
    Fits8(row.amountRequested)
    && (row.unit.Some? ==>
          && Fits8(InMsats(row.amountRequested, row.unit.value))
          && Fits8(balance + InMsats(row.amountRequested, row.unit.value)))
  }

  /** Does the answer report a payment that the database records? */
  predicate Pays(row: InvoiceRow, reply: Reply, balance: int) {
    && reply.Answer? && reply.id.Some? && reply.status == Some(Completed) && reply.statusWritten
    && reply.confirmedAt.Some? && reply.commits && CreditFits(row, balance)
  }

  /** What one answer makes of an invoice whose payee has this balance. */
  function After(row: InvoiceRow, reply: Reply, balance: int): InvoiceRow {
    if reply.Failed? || reply.id.None? || reply.status.None? || !reply.statusWritten then row
    else if Pays(row, reply, balance) && row.confirmedAt.None?
    then row.(status := Completed, confirmedAt := reply.confirmedAt, amountPaid := Some(row.amountRequested))
    else row.(status := reply.status.value)
  }

  /** Answers are about the invoices asked for, the k-th about the k-th pending
      one. */
  ghost predicate AnswersOwn(invoices: seq<InvoiceRow>, replies: seq<Reply>) {
    forall i :: 0 <= i < |invoices| && LookedAt(invoices, i) ==>
      var reply := ReplyAt(replies, Rank(invoices, i));
      reply.Answer? && reply.id.Some? ==> reply.id.value == invoices[i].id
  }

  // ---- one invoice ----

  lemma StatusAt(s: State, i: nat, status: Status)
    requires Kept(s) && i < |s.invoices|
    ensures Do(s, SetStatus(s.invoices[i].id, status)) == s.(invoices := s.invoices[i := s.invoices[i].(status := status)])
    ensures Kept(Do(s, SetStatus(s.invoices[i].id, status)))
  {
    IndexIsUnique(s, i);
  }

  lemma ConfirmAt(s: State, i: nat, u: Update, fees: seq<FeeSchedule>, commits: bool)
    requires Kept(s) && i < |s.invoices| && u.id == s.invoices[i].id
    requires Confirmable(u) && u.amountPaid.value == s.invoices[i].amountRequested
    ensures var row := s.invoices[i];
      Do(s, Confirm(u, fees, commits)).invoices
      == if commits && row.confirmedAt.None? && CreditFits(row, BalanceOf(s, row.pubkey))
         then s.invoices[i := row.(confirmedAt := u.confirmedAt, amountPaid := u.amountPaid)] else s.invoices
  {
    IndexIsUnique(s, i);
    assert s.invoices[i].pubkey in s.users;
  }

  /** Settling one pending invoice changes that invoice alone, as `After` says. */
  lemma SettledAt(s: State, i: nat, reply: Reply, fees: seq<FeeSchedule>)
    requires Kept(s) && i < |s.invoices| && s.invoices[i].status == Pending
    requires reply.Answer? && reply.id.Some? ==> reply.id.value == s.invoices[i].id
    ensures From(s, StepsFor(s.invoices[i], reply, fees)).invoices
      == s.invoices[i := After(s.invoices[i], reply, BalanceOf(s, s.invoices[i].pubkey))]
  {
    var row := s.invoices[i];
    if StepsFor(row, reply, fees) != [] {
      var status := reply.status.value;
      FromOne(s, SetStatus(row.id, status));
      StatusAt(s, i, status);
      var marked := Do(s, SetStatus(row.id, status));
      if status == Completed && reply.confirmedAt.Some? {
        FromTwo(s, SetStatus(row.id, status), Confirm(Merged(row, reply), fees, reply.commits));
        ConfirmAt(marked, i, Merged(row, reply), fees, reply.commits);
        assert BalanceOf(marked, row.pubkey) == BalanceOf(s, row.pubkey);
      } else {
        assert StepsFor(row, reply, fees) == [SetStatus(row.id, status)];
      }
    }
  }

  // ---- balances ----

  lemma {:induction false} BalancesMove(s: State, steps: seq<Step>, user: seq<Byte>)
    requires Kept(s) && forall n :: 0 <= n < |steps| ==> !steps[n].Charge?
    ensures var t := From(s, steps);
      Kept(t) && BalanceOf(t, user) - BalanceOf(s, user) == Credited(t.invoices, user) - Credited(s.invoices, user)
  {
    if steps != [] {
      var before := From(s, steps[..|steps| - 1]);
      BalancesMove(s, steps[..|steps| - 1], user);
      match steps[|steps| - 1] {
        case Create(pubkey, quote, commits) => CreateStep(before, pubkey, quote, commits, user);
        case Confirm(u, fees, commits) => ConfirmStep(before, u, fees, commits, user);
        case SetStatus(id, status) => StatusKeepsCredit(before.invoices, id, status, user);
      }
    }
  }

  lemma {:induction false} CreditedSplit(a: seq<InvoiceRow>, b: seq<InvoiceRow>, user: seq<Byte>)
    ensures Credited(a + b, user) == Credited(a, user) + Credited(b, user)
  {
    if b == [] {
      assert a + b == a;
    } else {
      CreditedSplit(a, b[..|b| - 1], user);
      assert (a + b)[..|a + b| - 1] == a + b[..|b| - 1];
    }
  }

  lemma {:induction false} NoCharges(pending: seq<InvoiceRow>, replies: seq<Reply>, fees: seq<FeeSchedule>)
    ensures forall n :: 0 <= n < |TickSteps(pending, replies, fees)| ==> !TickSteps(pending, replies, fees)[n].Charge?
  {
    if pending != [] { NoCharges(pending[..|pending| - 1], replies, fees); }
  }

  // ---- the round, invoice by invoice ----

  lemma {:induction false} FoundCount(invoices: seq<InvoiceRow>, n: nat)
    requires n <= |invoices|
    ensures |FindPending(invoices[..n], 10)| == if Rank(invoices, n) < 10 then Rank(invoices, n) else 10
  {
    if n > 0 {
      FoundCount(invoices, n - 1);
      assert invoices[..n][..n - 1] == invoices[..n - 1];
    }
  }

  function PartRound(s: State, n: nat, replies: seq<Reply>, fees: seq<FeeSchedule>): State
    requires n <= |s.invoices|
  {
    From(s, TickSteps(FindPending(s.invoices[..n], 10), replies, fees))
  }

  /** The next invoice, if it is looked at, is settled with its own answer. */
  lemma NextInvoice(s: State, n: nat, replies: seq<Reply>, fees: seq<FeeSchedule>)
    requires n < |s.invoices|
    ensures PartRound(s, n + 1, replies, fees)
      == if LookedAt(s.invoices, n)
         then From(PartRound(s, n, replies, fees), StepsFor(s.invoices[n], ReplyAt(replies, Rank(s.invoices, n)), fees))
         else PartRound(s, n, replies, fees)
  {
    var found, more := FindPending(s.invoices[..n], 10), FindPending(s.invoices[..n + 1], 10);
    FoundCount(s.invoices, n);
    assert s.invoices[..n + 1][..n] == s.invoices[..n];
    if LookedAt(s.invoices, n) {
      assert more == found + [s.invoices[n]];
      assert more[..|more| - 1] == found;
      FromAppend(s, TickSteps(found, replies, fees),
                 StepsFor(s.invoices[n], ReplyAt(replies, Rank(s.invoices, n)), fees));
    }
  }

  /** The first n invoices have been dealt with; the balance that decides about
      each is what its payee had, with what the round credited before it. */
  ghost predicate DealtWith(s: State, t: State, n: nat, replies: seq<Reply>) {
    && |t.invoices| == |s.invoices| && n <= |s.invoices|
    && forall i :: 0 <= i < |s.invoices| ==> t.invoices[i] == Outcome(s, t.invoices, n, replies, i)
  }

  /** The payee's balance when the round comes to the i-th invoice. */
  function BalanceThen(s: State, invoices: seq<InvoiceRow>, i: nat): int
    requires i < |s.invoices| && i <= |invoices|
  {
    var user := s.invoices[i].pubkey;
    BalanceOf(s, user) + Credited(invoices[..i], user) - Credited(s.invoices[..i], user)
  }

  function Outcome(s: State, invoices: seq<InvoiceRow>, n: nat, replies: seq<Reply>, i: nat): InvoiceRow
    requires i < |s.invoices| && |invoices| == |s.invoices|
  {
    if i < n && LookedAt(s.invoices, i)
    then After(s.invoices[i], ReplyAt(replies, Rank(s.invoices, i)), BalanceThen(s, invoices, i))
    else s.invoices[i]
  }

  lemma CreditedRest(a: seq<InvoiceRow>, b: seq<InvoiceRow>, n: nat, user: seq<Byte>)
    requires n <= |a| == |b| && a[n..] == b[n..]
    ensures Credited(a, user) - Credited(b, user) == Credited(a[..n], user) - Credited(b[..n], user)
  {
    CreditedSplit(a[..n], a[n..], user);
    CreditedSplit(b[..n], b[n..], user);
    assert a == a[..n] + a[n..] && b == b[..n] + b[n..];
  }

  lemma PartMoves(s: State, n: nat, replies: seq<Reply>, fees: seq<FeeSchedule>, user: seq<Byte>)
    requires Kept(s) && n <= |s.invoices|
    ensures var t := PartRound(s, n, replies, fees);
      Kept(t) && BalanceOf(t, user) - BalanceOf(s, user) == Credited(t.invoices, user) - Credited(s.invoices, user)
  {
    var found := FindPending(s.invoices[..n], 10);
    NoCharges(found, replies, fees);
    BalancesMove(s, TickSteps(found, replies, fees), user);
  }

  lemma DealtNext(s: State, t: State, u: State, n: nat, replies: seq<Reply>)
    requires DealtWith(s, t, n, replies) && n < |s.invoices|
    requires u.invoices == t.invoices[n := Outcome(s, t.invoices, n + 1, replies, n)]
    ensures DealtWith(s, u, n + 1, replies)
  {
    forall i | 0 <= i < |s.invoices| ensures u.invoices[i] == Outcome(s, u.invoices, n + 1, replies, i) {
      if i <= n { assert u.invoices[..i] == t.invoices[..i]; }
    }
  }

  /** Settling the next invoice, in the state that the round has reached. */
  lemma RoundStep(s: State, t: State, n: nat, replies: seq<Reply>, fees: seq<FeeSchedule>)
    requires Kept(t) && n < |s.invoices| && LookedAt(s.invoices, n) && AnswersOwn(s.invoices, replies)
    requires DealtWith(s, t, n, replies) && BalanceOf(t, s.invoices[n].pubkey) == BalanceThen(s, t.invoices, n)
    ensures DealtWith(s, From(t, StepsFor(s.invoices[n], ReplyAt(replies, Rank(s.invoices, n)), fees)), n + 1, replies)
  {
    assert t.invoices[n] == s.invoices[n];
    var reply := ReplyAt(replies, Rank(s.invoices, n));
    SettledAt(t, n, reply, fees);
    DealtNext(s, t, From(t, StepsFor(s.invoices[n], reply, fees)), n, replies);
  }

  lemma RoundSkip(s: State, t: State, n: nat, replies: seq<Reply>)
    requires n < |s.invoices| && !LookedAt(s.invoices, n) && DealtWith(s, t, n, replies)
    ensures DealtWith(s, t, n + 1, replies)
  {
    assert t.invoices[n := s.invoices[n]] == t.invoices;
    DealtNext(s, t, t, n, replies);
  }

  lemma Untouched(s: State, t: State, n: nat, replies: seq<Reply>)
    requires DealtWith(s, t, n, replies)
    ensures t.invoices[n..] == s.invoices[n..]
  {
    assert forall i :: n <= i < |s.invoices| ==> t.invoices[i] == s.invoices[i];
  }

  lemma BalanceNow(s: State, n: nat, replies: seq<Reply>, fees: seq<FeeSchedule>)
    requires Kept(s) && n < |s.invoices| && DealtWith(s, PartRound(s, n, replies, fees), n, replies)
    ensures var t := PartRound(s, n, replies, fees);
      Kept(t) && BalanceOf(t, s.invoices[n].pubkey) == BalanceThen(s, t.invoices, n)
  {
    var t := PartRound(s, n, replies, fees);
    Untouched(s, t, n, replies);
    PartMoves(s, n, replies, fees, s.invoices[n].pubkey);
    CreditedRest(t.invoices, s.invoices, n, s.invoices[n].pubkey);
  }

  lemma RoundNext(s: State, n: nat, replies: seq<Reply>, fees: seq<FeeSchedule>)
    requires Kept(s) && n < |s.invoices| && AnswersOwn(s.invoices, replies)
    requires DealtWith(s, PartRound(s, n, replies, fees), n, replies)
    ensures DealtWith(s, PartRound(s, n + 1, replies, fees), n + 1, replies)
  {
    var t := PartRound(s, n, replies, fees);
    NextInvoice(s, n, replies, fees);
    if LookedAt(s.invoices, n) {
      BalanceNow(s, n, replies, fees);
      RoundStep(s, t, n, replies, fees);
    } else {
      RoundSkip(s, t, n, replies);
    }
  }

  lemma {:induction false} RoundPart(s: State, n: nat, replies: seq<Reply>, fees: seq<FeeSchedule>)
    requires Kept(s) && n <= |s.invoices| && AnswersOwn(s.invoices, replies)
    ensures DealtWith(s, PartRound(s, n, replies, fees), n, replies)
  {
    if n == 0 {
      assert s.invoices[..0] == [];
    } else {
      RoundPart(s, n - 1, replies, fees);
      RoundNext(s, n - 1, replies, fees);
    }
  }

  // ---- the guarantees ----

  /** In one round every pending invoice with fewer than ten pending ones before
      it becomes what its own answer makes of it, every other one stays as it
      is, and balances move by exactly what becomes confirmed. */
  lemma RoundOutcome(s: State, replies: seq<Reply>, fees: seq<FeeSchedule>)
    requires Kept(s) && AnswersOwn(s.invoices, replies)
    ensures var t := Tick(s, replies, fees);
      && |t.invoices| == |s.invoices|
      && (forall i :: 0 <= i < |s.invoices| && !LookedAt(s.invoices, i) ==> t.invoices[i] == s.invoices[i])
      && (forall i :: 0 <= i < |s.invoices| && LookedAt(s.invoices, i) ==>
            t.invoices[i]
            == After(s.invoices[i], ReplyAt(replies, Rank(s.invoices, i)), BalanceThen(s, t.invoices, i)))
      && forall user :: BalanceOf(t, user) - BalanceOf(s, user)
                        == Credited(t.invoices, user) - Credited(s.invoices, user)
  {
    var n := |s.invoices|;
    assert s.invoices[..n] == s.invoices;
    RoundPart(s, n, replies, fees);
    NoCharges(FindPending(s.invoices, 10), replies, fees);
    forall user ensures BalanceOf(Tick(s, replies, fees), user) - BalanceOf(s, user)
                        == Credited(Tick(s, replies, fees).invoices, user) - Credited(s.invoices, user)
    {
      BalancesMove(s, TickSteps(FindPending(s.invoices, 10), replies, fees), user);
    }
  }

  lemma {:induction false} CreditedAlike(a: seq<InvoiceRow>, b: seq<InvoiceRow>, user: seq<Byte>)
    requires |a| == |b| && forall i :: 0 <= i < |a| ==> CreditOf(a[i], user) == CreditOf(b[i], user)
    ensures Credited(a, user) == Credited(b, user)
  {
    if a != [] { CreditedAlike(a[..|a| - 1], b[..|b| - 1], user); }
  }

  lemma OtherPayee(s: State, replies: seq<Reply>, fees: seq<FeeSchedule>, j: nat, user: seq<Byte>)
    requires Kept(s) && AnswersOwn(s.invoices, replies) && j < |s.invoices|
    requires LookedAt(s.invoices, j) ==> s.invoices[j].pubkey != user
    ensures var t := Tick(s, replies, fees);
      |t.invoices| == |s.invoices| && CreditOf(t.invoices[j], user) == CreditOf(s.invoices[j], user)
  {
    RoundOutcome(s, replies, fees);
  }

  lemma OneCredit(before: seq<InvoiceRow>, after: seq<InvoiceRow>, i: nat, user: seq<Byte>)
    requires i < |before| == |after|
    requires forall j :: 0 <= j < |before| && j != i ==> CreditOf(after[j], user) == CreditOf(before[j], user)
    ensures Credited(after[..i], user) == Credited(before[..i], user)
    ensures Credited(after, user) - Credited(before, user) == CreditOf(after[i], user) - CreditOf(before[i], user)
  {
    CreditedAlike(after[..i], before[..i], user);
    CreditedAlike(after, before[i := after[i]], user);
    CreditedUpdate(before, i, after[i], user);
  }

  lemma OnlyCredit(s: State, replies: seq<Reply>, fees: seq<FeeSchedule>, i: nat, user: seq<Byte>)
    requires Kept(s) && AnswersOwn(s.invoices, replies) && i < |s.invoices|
    requires forall j :: 0 <= j < |s.invoices| && j != i && LookedAt(s.invoices, j) ==> s.invoices[j].pubkey != user
    ensures var t := Tick(s, replies, fees);
      && |t.invoices| == |s.invoices| && Credited(t.invoices[..i], user) == Credited(s.invoices[..i], user)
      && BalanceOf(t, user) - BalanceOf(s, user) == CreditOf(t.invoices[i], user) - CreditOf(s.invoices[i], user)
  {
    var t := Tick(s, replies, fees);
    RoundOutcome(s, replies, fees);
    forall j | 0 <= j < |s.invoices| && j != i ensures CreditOf(t.invoices[j], user) == CreditOf(s.invoices[j], user) {
      OtherPayee(s, replies, fees, j, user);
    }
    OneCredit(s.invoices, t.invoices, i, user);
  }

  lemma PaidRow(s: State, replies: seq<Reply>, fees: seq<FeeSchedule>, i: nat)
    requires Kept(s) && AnswersOwn(s.invoices, replies) && i < |s.invoices| && LookedAt(s.invoices, i)
    requires s.invoices[i].confirmedAt.None?
    requires Pays(s.invoices[i], ReplyAt(replies, Rank(s.invoices, i)), BalanceOf(s, s.invoices[i].pubkey))
    requires var t := Tick(s, replies, fees);
      |t.invoices| == |s.invoices| && BalanceThen(s, t.invoices, i) == BalanceOf(s, s.invoices[i].pubkey)
    ensures var t, row, reply := Tick(s, replies, fees), s.invoices[i], ReplyAt(replies, Rank(s.invoices, i));
      t.invoices[i]
      == row.(status := Completed, confirmedAt := reply.confirmedAt, amountPaid := Some(row.amountRequested))
  {
    RoundOutcome(s, replies, fees);
  }

  lemma ValueOf(row: InvoiceRow)
    requires row.confirmedAt.Some? && row.amountPaid.Some?
    ensures CreditOf(row, row.pubkey) == if row.unit.Some? then InMsats(row.amountPaid.value, row.unit.value) else 0
  {
  }

  /** A pending invoice within the first ten, reported as paid, ends completed
      and confirmed with the amount requested; and when the round looks at no
      other invoice of its payee, the balance grows by its value in msats. */
  lemma PaidIsCredited(s: State, replies: seq<Reply>, fees: seq<FeeSchedule>, i: nat)
    requires Kept(s) && AnswersOwn(s.invoices, replies) && i < |s.invoices| && LookedAt(s.invoices, i)
    requires s.invoices[i].confirmedAt.None?
    requires forall j :: 0 <= j < |s.invoices| && j != i && LookedAt(s.invoices, j) ==>
               s.invoices[j].pubkey != s.invoices[i].pubkey
    requires Pays(s.invoices[i], ReplyAt(replies, Rank(s.invoices, i)), BalanceOf(s, s.invoices[i].pubkey))
    ensures var t, row, reply := Tick(s, replies, fees), s.invoices[i], ReplyAt(replies, Rank(s.invoices, i));
      && |t.invoices| == |s.invoices|
      && t.invoices[i]
         == row.(status := Completed, confirmedAt := reply.confirmedAt, amountPaid := Some(row.amountRequested))
      && BalanceOf(t, row.pubkey)
         == BalanceOf(s, row.pubkey) + if row.unit.Some? then InMsats(row.amountRequested, row.unit.value) else 0
  {
    var t, user := Tick(s, replies, fees), s.invoices[i].pubkey;
    OnlyCredit(s, replies, fees, i, user);
    PaidRow(s, replies, fees, i);
    ValueOf(t.invoices[i]);
  }

  // ---- whom a round admits ----

  /** Does settling the invoice admit the user: the payment is recorded, for the
      key that the answer names, else the invoice's own, and the amount in the
      unit that the answer names, else the invoice's own, meets a positive fee? */
  predicate AdmitsBy(row: InvoiceRow, reply: Reply, balance: int, fees: seq<FeeSchedule>, user: seq<Byte>) {
    && reply.Answer? && reply.id.Some? && reply.status == Some(Completed) && reply.statusWritten
    && reply.confirmedAt.Some? && reply.commits
    && Fits8(row.amountRequested) && (row.confirmedAt.None? ==> CreditFits(row, balance))
    && var pubkey := if reply.pubkey.Some? then reply.pubkey.value else FromBuffer(row.pubkey);
       ToBuffer(pubkey) == user
       && Worth(row.amountRequested, if reply.unit.Some? then reply.unit else row.unit)
          >= FeeAtConfirmation(fees, pubkey) > 0
  }

  lemma ConfirmTaken(s: State, i: nat, u: Update, fees: seq<FeeSchedule>, commits: bool)
    requires Kept(s) && i < |s.invoices| && u.id == s.invoices[i].id
    requires Confirmable(u) && u.amountPaid.value == s.invoices[i].amountRequested
    ensures AfterConfirm(s, u, fees, commits).1 <==>
            && commits && Fits8(s.invoices[i].amountRequested)
            && (s.invoices[i].confirmedAt.None? ==> CreditFits(s.invoices[i], BalanceOf(s, s.invoices[i].pubkey)))
  {
    IndexIsUnique(s, i);
    assert s.invoices[i].pubkey in s.users;
  }

  lemma SettledAdmits(s: State, i: nat, reply: Reply, fees: seq<FeeSchedule>, user: seq<Byte>)
    requires Kept(s) && i < |s.invoices| && s.invoices[i].status == Pending
    requires reply.Answer? && reply.id.Some? ==> reply.id.value == s.invoices[i].id
    ensures Admitted(From(s, StepsFor(s.invoices[i], reply, fees)), user) <==>
            Admitted(s, user) || AdmitsBy(s.invoices[i], reply, BalanceOf(s, s.invoices[i].pubkey), fees, user)
  {
    var row := s.invoices[i];
    if StepsFor(row, reply, fees) != [] {
      var status := reply.status.value;
      FromOne(s, SetStatus(row.id, status));
      StatusAt(s, i, status);
      var marked := Do(s, SetStatus(row.id, status));
      if status == Completed && reply.confirmedAt.Some? {
        var confirm := Confirm(Merged(row, reply), fees, reply.commits);
        FromTwo(s, SetStatus(row.id, status), confirm);
        ConfirmTaken(marked, i, Merged(row, reply), fees, reply.commits);
        AdmittedStep(marked, confirm, user);
        assert BalanceOf(marked, row.pubkey) == BalanceOf(s, row.pubkey);
      } else {
        assert StepsFor(row, reply, fees) == [SetStatus(row.id, status)];
      }
    }
  }

  /** One of the first n invoices, when its turn came, admitted the user. */
  ghost predicate AdmittedBy(s: State, invoices: seq<InvoiceRow>, n: nat, replies: seq<Reply>, fees: seq<FeeSchedule>,
                             user: seq<Byte>)
    requires n <= |s.invoices| == |invoices|
  {
    exists i: nat :: i < n && LookedAt(s.invoices, i)
      && AdmitsBy(s.invoices[i], ReplyAt(replies, Rank(s.invoices, i)), BalanceThen(s, invoices, i), fees, user)
  }

  lemma AdmittedByNext(s: State, before: seq<InvoiceRow>, after: seq<InvoiceRow>, n: nat, replies: seq<Reply>,
                       fees: seq<FeeSchedule>, user: seq<Byte>)
    requires n < |s.invoices| == |before| == |after| && after[..n] == before[..n]
    ensures AdmittedBy(s, after, n + 1, replies, fees, user) <==>
            AdmittedBy(s, before, n, replies, fees, user)
            || (LookedAt(s.invoices, n)
                && AdmitsBy(s.invoices[n], ReplyAt(replies, Rank(s.invoices, n)), BalanceThen(s, before, n), fees, user))
  {
    forall i: nat | i <= n ensures BalanceThen(s, after, i) == BalanceThen(s, before, i) {
      assert after[..i] == after[..n][..i] && before[..i] == before[..n][..i];
    }
  }

  lemma AdmitsNext(s: State, n: nat, replies: seq<Reply>, fees: seq<FeeSchedule>, user: seq<Byte>)
    requires Kept(s) && n < |s.invoices| && AnswersOwn(s.invoices, replies)
    ensures var t, u := PartRound(s, n, replies, fees), PartRound(s, n + 1, replies, fees);
      && |t.invoices| == |s.invoices| == |u.invoices| && u.invoices[..n] == t.invoices[..n]
      && (Admitted(u, user) <==>
          Admitted(t, user)
          || (LookedAt(s.invoices, n)
              && AdmitsBy(s.invoices[n], ReplyAt(replies, Rank(s.invoices, n)), BalanceThen(s, t.invoices, n), fees, user)))
  {
    var t := PartRound(s, n, replies, fees);
    RoundPart(s, n, replies, fees);
    NextInvoice(s, n, replies, fees);
    assert t.invoices[n] == s.invoices[n];
    if LookedAt(s.invoices, n) {
      BalanceNow(s, n, replies, fees);
      SettledAt(t, n, ReplyAt(replies, Rank(s.invoices, n)), fees);
      SettledAdmits(t, n, ReplyAt(replies, Rank(s.invoices, n)), fees, user);
    }
  }

  lemma AdmittedMore(s: State, n: nat, replies: seq<Reply>, fees: seq<FeeSchedule>, user: seq<Byte>)
    requires Kept(s) && n < |s.invoices| && AnswersOwn(s.invoices, replies)
    requires var t := PartRound(s, n, replies, fees);
      |t.invoices| == |s.invoices|
      && (Admitted(t, user) <==> Admitted(s, user) || AdmittedBy(s, t.invoices, n, replies, fees, user))
    ensures var u := PartRound(s, n + 1, replies, fees);
      |u.invoices| == |s.invoices|
      && (Admitted(u, user) <==> Admitted(s, user) || AdmittedBy(s, u.invoices, n + 1, replies, fees, user))
  {
    AdmitsNext(s, n, replies, fees, user);
    AdmittedByNext(s, PartRound(s, n, replies, fees).invoices, PartRound(s, n + 1, replies, fees).invoices, n,
                   replies, fees, user);
  }

  lemma {:induction false} AdmittedPart(s: State, n: nat, replies: seq<Reply>, fees: seq<FeeSchedule>, user: seq<Byte>)
    requires Kept(s) && n <= |s.invoices| && AnswersOwn(s.invoices, replies)
    ensures var t := PartRound(s, n, replies, fees);
      |t.invoices| == |s.invoices|
      && (Admitted(t, user) <==> Admitted(s, user) || AdmittedBy(s, t.invoices, n, replies, fees, user))
  {
    if n == 0 {
      assert s.invoices[..0] == [];
    } else {
      AdmittedPart(s, n - 1, replies, fees, user);
      AdmittedMore(s, n - 1, replies, fees, user);
    }
  }

  /** A round admits exactly the users whose payments it records with enough for
      their fee. */
  lemma RoundAdmits(s: State, replies: seq<Reply>, fees: seq<FeeSchedule>, user: seq<Byte>)
    requires Kept(s) && AnswersOwn(s.invoices, replies)
    ensures var t := Tick(s, replies, fees);
      |t.invoices| == |s.invoices|
      && (Admitted(t, user) <==> Admitted(s, user) || AdmittedBy(s, t.invoices, |s.invoices|, replies, fees, user))
  {
    assert s.invoices[..|s.invoices|] == s.invoices;
    AdmittedPart(s, |s.invoices|, replies, fees, user);
  }
}
