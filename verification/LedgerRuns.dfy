/** Runs of the ledger: conservation of balances, invoices credited once, no
    balance below zero. */
module LedgerRuns {
  import opened Wrappers
  import opened Hex
  import opened Fees
  import opened Ledger

  datatype Step =
    | Create(pubkey: string, quote: Option<Quote>, commits: bool)
    | SetStatus(id: string, status: Status)
    | Confirm(update: Update, fees: seq<FeeSchedule>, commits: bool)
    | Charge(charged: seq<Byte>, amount: int)

  function Do(s: State, step: Step): State {
    match step
    case Create(pubkey, quote, commits) => AfterCreate(s, pubkey, quote, commits).0
    case SetStatus(id, status) => s.(invoices := StatusSet(s.invoices, id, status))
    case Confirm(update, fees, commits) => AfterConfirm(s, update, fees, commits).0
    case Charge(user, amount) => AfterCharge(s, user, amount)
  }

  function From(s: State, steps: seq<Step>): State {
    if steps == [] then s else Do(From(s, steps[..|steps| - 1]), steps[|steps| - 1])
  }

  function Run(steps: seq<Step>): State {
    From(EMPTY, steps)
  }

  // ---- what an account should hold ----

  /** The msat value of an invoice to one user: nothing until confirmed. */
  function CreditOf(row: InvoiceRow, user: seq<Byte>): int {
    if row.pubkey == user && row.confirmedAt.Some? && row.amountPaid.Some? && row.unit.Some?
    then row.amountPaid.value * MsatsPer(row.unit.value) else 0
  }

  function Credited(invoices: seq<InvoiceRow>, user: seq<Byte>): int {
    if invoices == [] then 0
    else Credited(invoices[..|invoices| - 1], user) + CreditOf(invoices[|invoices| - 1], user)
  }

  /** The sum of the user's successful charges. */
  function Charged(steps: seq<Step>, user: seq<Byte>): int {
    if steps == [] then 0
    else
      var before, step := steps[..|steps| - 1], steps[|steps| - 1];
      Charged(before, user)
      + if step.Charge? && step.charged == user && Chargeable(Run(before), user, step.amount) then step.amount else 0
  }

  function BalanceOf(s: State, user: seq<Byte>): int {
    if user in s.users then s.users[user].balance else 0
  }

  ghost predicate Kept(s: State) {
    && (forall i, j :: 0 <= i < j < |s.invoices| ==> s.invoices[i].id != s.invoices[j].id)
    && (forall i :: 0 <= i < |s.invoices| ==> s.invoices[i].pubkey in s.users)
  }

  lemma CreditedSnoc(invoices: seq<InvoiceRow>, row: InvoiceRow, user: seq<Byte>)
    ensures Credited(invoices + [row], user) == Credited(invoices, user) + CreditOf(row, user)
  {
    assert (invoices + [row])[..|invoices|] == invoices;
  }

  lemma {:induction false} CreditedUpdate(invoices: seq<InvoiceRow>, i: nat, row: InvoiceRow, user: seq<Byte>)
    requires i < |invoices|
    ensures Credited(invoices[i := row], user)
      == Credited(invoices, user) - CreditOf(invoices[i], user) + CreditOf(row, user)
  {
    var n := |invoices| - 1;
    var init, last := invoices[..n], invoices[n];
    assert invoices == init + [last];
    if i == n {
      assert invoices[i := row] == init + [row];
      CreditedSnoc(init, row, user);
    } else {
      CreditedUpdate(init, i, row, user);
      assert invoices[i := row] == init[i := row] + [last];
      CreditedSnoc(init[i := row], last, user);
    }
  }

  lemma StatusKeepsCredit(invoices: seq<InvoiceRow>, id: string, status: Status, user: seq<Byte>)
    ensures Credited(StatusSet(invoices, id, status), user) == Credited(invoices, user)
  {
    var i := IndexOf(invoices, id);
    if i >= 0 {
      CreditedUpdate(invoices, i, invoices[i].(status := status), user);
    }
  }

  lemma UpsertKeepsCredit(invoices: seq<InvoiceRow>, row: InvoiceRow, user: seq<Byte>)
    requires row.confirmedAt.None?
    ensures Credited(InvoiceUpserted(invoices, row), user) == Credited(invoices, user)
  {
    if IndexOf(invoices, row.id) < 0 {
      CreditedSnoc(invoices, row, user);
    } else {
      StatusKeepsCredit(invoices, row.id, row.status, user);
    }
  }

  /** Confirming moves a balance by exactly what it adds to the user's
      confirmed invoices. */
  lemma ConfirmedBalance(s: State, id: string, amount: int, at: nat, user: seq<Byte>)
    requires Kept(s) && Confirmed(s, id, amount, at).Some?
    ensures var t := Confirmed(s, id, amount, at).value;
      Kept(t) && t.users.Keys == s.users.Keys
      && BalanceOf(t, user) - BalanceOf(s, user) == Credited(t.invoices, user) - Credited(s.invoices, user)
  {
    var i := IndexOf(s.invoices, id);
    if i >= 0 && s.invoices[i].confirmedAt.None? {
      var row := s.invoices[i];
      CreditedUpdate(s.invoices, i, row.(confirmedAt := Some(at), amountPaid := Some(amount)), user);
    }
  }

  lemma UpsertKept(s: State, row: InvoiceRow)
    requires Kept(s)
    ensures Kept(State(UserUpserted(s.users, row.pubkey, None), InvoiceUpserted(s.invoices, row)))
  {
  }

  lemma UpsertStep(s: State, row: InvoiceRow, user: seq<Byte>)
    requires Kept(s) && row.confirmedAt.None?
    ensures var t := State(UserUpserted(s.users, row.pubkey, None), InvoiceUpserted(s.invoices, row));
      Kept(t) && BalanceOf(t, user) == BalanceOf(s, user) && Credited(t.invoices, user) == Credited(s.invoices, user)
  {
    UpsertKeepsCredit(s.invoices, row, user);
    UpsertKept(s, row);
  }

  lemma CreateStep(s: State, pubkey: string, quote: Option<Quote>, commits: bool, user: seq<Byte>)
    requires Kept(s)
    ensures var t := AfterCreate(s, pubkey, quote, commits).0;
      Kept(t) && BalanceOf(t, user) == BalanceOf(s, user) && Credited(t.invoices, user) == Credited(s.invoices, user)
  {
    if AfterCreate(s, pubkey, quote, commits).1 {
      var q := quote.value;
      UpsertStep(s, InvoiceRow(q.id, ToBuffer(pubkey), q.amountRequested, None, q.unit, q.status, None), user);
    }
  }

  lemma ConfirmStep(s: State, u: Update, fees: seq<FeeSchedule>, commits: bool, user: seq<Byte>)
    requires Kept(s)
    ensures var t := AfterConfirm(s, u, fees, commits).0;
      Kept(t)
      && BalanceOf(t, user) - BalanceOf(s, user) == Credited(t.invoices, user) - Credited(s.invoices, user)
  {
    if AfterConfirm(s, u, fees, commits).1 {
      ConfirmedBalance(s, u.id, u.amountPaid.value, u.confirmedAt.value, user);
    }
  }

  lemma {:induction false} Accounted(steps: seq<Step>, user: seq<Byte>)
    ensures Kept(Run(steps))
    ensures BalanceOf(Run(steps), user) == Credited(Run(steps).invoices, user) - Charged(steps, user)
  {
    if steps != [] {
      var before := Run(steps[..|steps| - 1]);
      Accounted(steps[..|steps| - 1], user);
      match steps[|steps| - 1] {
        case Create(pubkey, quote, commits) => CreateStep(before, pubkey, quote, commits, user);
        case Confirm(u, fees, commits) => ConfirmStep(before, u, fees, commits, user);
        case SetStatus(id, status) => StatusKeepsCredit(before.invoices, id, status, user);
        case Charge(_, _) =>
      }
    }
  }

  /** Over any run, with repeated and rolled-back steps among them, a user's
      balance is the value of the user's confirmed invoices minus the user's
      successful charges. */
  lemma BalanceIsAccounted(steps: seq<Step>, user: seq<Byte>)
    ensures user in Run(steps).users ==>
      Run(steps).users[user].balance == Credited(Run(steps).invoices, user) - Charged(steps, user)
    ensures user !in Run(steps).users ==> Credited(Run(steps).invoices, user) == 0 == Charged(steps, user)
  {
    Accounted(steps, user);
    if user !in Run(steps).users {
      NothingCredited(Run(steps).invoices, user);
    }
  }

  lemma {:induction false} NothingCredited(invoices: seq<InvoiceRow>, user: seq<Byte>)
    requires forall i :: 0 <= i < |invoices| ==> invoices[i].pubkey != user
    ensures Credited(invoices, user) == 0
  {
    if invoices != [] { NothingCredited(invoices[..|invoices| - 1], user); }
  }

  /** With amounts paid that are not negative, no balance ever is. */
  lemma {:induction false} NeverNegative(steps: seq<Step>, user: seq<Byte>)
    requires forall n :: 0 <= n < |steps| && steps[n].Confirm? && steps[n].update.amountPaid.Some? ==>
      steps[n].update.amountPaid.value >= 0
    ensures BalanceOf(Run(steps), user) >= 0
  {
    if steps != [] {
      NeverNegative(steps[..|steps| - 1], user);
      Accounted(steps[..|steps| - 1], user);
      NotNegativeStep(Run(steps[..|steps| - 1]), steps[|steps| - 1], user);
    }
  }

  lemma NotNegativeStep(s: State, step: Step, user: seq<Byte>)
    requires Kept(s) && BalanceOf(s, user) >= 0
    requires step.Confirm? && step.update.amountPaid.Some? ==> step.update.amountPaid.value >= 0
    ensures BalanceOf(Do(s, step), user) >= 0
  {
    if step.Create? {
      CreateStep(s, step.pubkey, step.quote, step.commits, user);
    }
  }

  // ---- an invoice is credited once ----

  /** The part of a row that no statement writes; what confirming wrote stays. */
  predicate SameInvoice(before: InvoiceRow, after: InvoiceRow) {
    && after.id == before.id && after.pubkey == before.pubkey
    && after.unit == before.unit && after.amountRequested == before.amountRequested
    && (before.confirmedAt.Some? ==> after.confirmedAt == before.confirmedAt && after.amountPaid == before.amountPaid)
  }

  lemma RowKept(s: State, step: Step, i: nat)
    requires i < |s.invoices|
    ensures i < |Do(s, step).invoices| && SameInvoice(s.invoices[i], Do(s, step).invoices[i])
  {
  }

  lemma {:induction false} InvoiceKept(s: State, steps: seq<Step>, i: nat)
    requires i < |s.invoices|
    ensures i < |From(s, steps).invoices| && SameInvoice(s.invoices[i], From(s, steps).invoices[i])
  {
    if steps != [] {
      InvoiceKept(s, steps[..|steps| - 1], i);
      RowKept(From(s, steps[..|steps| - 1]), steps[|steps| - 1], i);
    }
  }

  predicate IsConfirmed(s: State, id: string) {
    var i := IndexOf(s.invoices, id);
    i >= 0 && s.invoices[i].confirmedAt.Some?
  }

  lemma IndexIsUnique(s: State, i: nat)
    requires Kept(s) && i < |s.invoices|
    ensures IndexOf(s.invoices, s.invoices[i].id) == i
  {
    var j := IndexOf(s.invoices, s.invoices[i].id);
    assert s.invoices[j].id == s.invoices[i].id;
  }

  lemma {:induction false} StaysConfirmed(steps: seq<Step>, m: nat, n: nat, id: string)
    requires m <= n <= |steps| && IsConfirmed(Run(steps[..m]), id)
    ensures IsConfirmed(Run(steps[..n]), id)
    decreases n - m
  {
    if m < n {
      StaysConfirmed(steps, m, n - 1, id);
      var s := Run(steps[..n - 1]);
      assert steps[..n][..n - 1] == steps[..n - 1];
      Accounted(steps[..n], []);
      var i := IndexOf(s.invoices, id);
      RowKept(s, steps[n - 1], i);
      IndexIsUnique(Run(steps[..n]), i);
    }
  }

  /** The n-th step is the one that confirms the invoice. */
  predicate Confirms(steps: seq<Step>, n: nat, id: string)
    requires n < |steps|
  {
    !IsConfirmed(Run(steps[..n]), id) && IsConfirmed(Run(steps[..n + 1]), id)
  }

  lemma ConfirmChange(s: State, u: Update, fees: seq<FeeSchedule>, commits: bool, user: seq<Byte>)
    requires Kept(s)
    ensures var t := AfterConfirm(s, u, fees, commits).0;
      BalanceOf(t, user) - BalanceOf(s, user)
      == if !IsConfirmed(s, u.id) && IsConfirmed(t, u.id) then CreditOf(t.invoices[IndexOf(t.invoices, u.id)], user) else 0
  {
    var i := IndexOf(s.invoices, u.id);
    ConfirmStep(s, u, fees, commits, user);
    if AfterConfirm(s, u, fees, commits).1 && i >= 0 && s.invoices[i].confirmedAt.None? {
      var row := s.invoices[i].(confirmedAt := u.confirmedAt, amountPaid := u.amountPaid);
      CreditedUpdate(s.invoices, i, row, user);
      IndexIsUnique(AfterConfirm(s, u, fees, commits).0, i);
    }
  }

  /** In a run, a confirmation moves a balance exactly when it is the one that
      confirms its invoice, and then by the value of that invoice to that user;
      confirming again moves nothing. */
  lemma ConfirmingAgain(steps: seq<Step>, n: nat, user: seq<Byte>)
    requires n < |steps| && steps[n].Confirm?
    ensures var id, before, after := steps[n].update.id, Run(steps[..n]), Run(steps[..n + 1]);
      BalanceOf(after, user) - BalanceOf(before, user)
      == if Confirms(steps, n, id) then CreditOf(after.invoices[IndexOf(after.invoices, id)], user) else 0
  {
    assert steps[..n + 1][..n] == steps[..n];
    Accounted(steps[..n], user);
    ConfirmChange(Run(steps[..n]), steps[n].update, steps[n].fees, steps[n].commits, user);
  }

  /** However often an invoice is confirmed, one step credits it. */
  lemma CreditedOnce(steps: seq<Step>, m: nat, n: nat, id: string)
    requires m < |steps| && n < |steps| && Confirms(steps, m, id) && Confirms(steps, n, id)
    ensures m == n
  {
    if m < n {
      StaysConfirmed(steps, m + 1, n, id);
    } else if n < m {
      StaysConfirmed(steps, n + 1, m, id);
    }
  }

  lemma {:induction false} FromAppend(s: State, a: seq<Step>, b: seq<Step>)
    ensures From(s, a + b) == From(From(s, a), b)
  {
    if b == [] {
      assert a + b == a;
    } else {
      FromAppend(s, a, b[..|b| - 1]);
      assert (a + b)[..|a + b| - 1] == a + b[..|b| - 1];
    }
  }

  // ---- when statements take effect ----

  predicate IsBigint(n: int) {
    -9223372036854775808 <= n < 9223372036854775808
  }

  /** The msats that one unit stands for. */
  function Worth(amount: int, unit: Option<Unit>): int {
    match unit
    case None => amount
    case Some(Msats) => amount
    case Some(Sats) => amount * 1000
    case Some(Btc) => amount * 100000000000
  }

  /** Would crediting this invoice with the amount overflow a BIGINT? */
  predicate Overflows(s: State, row: InvoiceRow, amount: int) {
    row.confirmedAt.None? && row.unit.Some? && row.pubkey in s.users
    && !(IsBigint(Worth(amount, row.unit)) && IsBigint(s.users[row.pubkey].balance + Worth(amount, row.unit)))
  }

  /** A confirmation goes through exactly when it has a date and an amount, says
      completed, nothing overflows, and the database commits. */
  lemma ConfirmsExactly(s: State, u: Update, fees: seq<FeeSchedule>, commits: bool)
    requires Kept(s)
    ensures AfterConfirm(s, u, fees, commits).1 <==>
            && commits && u.confirmedAt.Some? && u.status == Completed && u.amountPaid.Some?
            && IsBigint(u.amountPaid.value)
            && forall i :: 0 <= i < |s.invoices| && s.invoices[i].id == u.id ==>
                 !Overflows(s, s.invoices[i], u.amountPaid.value)
    ensures !AfterConfirm(s, u, fees, commits).1 ==> AfterConfirm(s, u, fees, commits).0 == s
  {
    forall i | 0 <= i < |s.invoices| && s.invoices[i].id == u.id ensures i == IndexOf(s.invoices, u.id) {
      IndexIsUnique(s, i);
    }
  }

  /** A charge is taken exactly when the user's balance covers it and stays a
      BIGINT, and then reduces that balance alone. */
  lemma ChargedExactly(s: State, user: seq<Byte>, amount: int)
    ensures var taken := user in s.users && IsBigint(amount) && s.users[user].balance >= amount
                         && IsBigint(s.users[user].balance - amount);
      && (Chargeable(s, user, amount) <==> taken)
      && AfterCharge(s, user, amount).invoices == s.invoices
      && AfterCharge(s, user, amount).users.Keys == s.users.Keys
      && forall other :: other in s.users ==>
           AfterCharge(s, user, amount).users[other]
           == if taken && other == user
              then User(s.users[user].isAdmitted, s.users[user].balance - amount) else s.users[other]
  {
  }

  /** Creating goes through exactly when the processor answers with an amount
      that fits and the database commits; a new identifier is then one more
      pending row at the end, and a known one only takes the new status. */
  lemma CreatedExactly(s: State, pubkey: string, quote: Option<Quote>, commits: bool)
    requires Kept(s)
    ensures var (t, ok) := AfterCreate(s, pubkey, quote, commits);
      && (ok <==> quote.Some? && IsBigint(quote.value.amountRequested) && commits)
      && (!ok ==> t == s)
      && (ok ==> ToBuffer(pubkey) in t.users && BalanceOf(t, ToBuffer(pubkey)) == BalanceOf(s, ToBuffer(pubkey)))
      && (ok && (forall i :: 0 <= i < |s.invoices| ==> s.invoices[i].id != quote.value.id) ==>
            var q := quote.value;
            t.invoices
            == s.invoices + [InvoiceRow(q.id, ToBuffer(pubkey), q.amountRequested, None, q.unit, q.status, None)])
      && (ok ==> forall i :: 0 <= i < |s.invoices| && s.invoices[i].id == quote.value.id ==>
            t.invoices == s.invoices[i := s.invoices[i].(status := quote.value.status)])
  {
    if quote.Some? {
      forall i | 0 <= i < |s.invoices| && s.invoices[i].id == quote.value.id
        ensures i == IndexOf(s.invoices, quote.value.id)
      {
        IndexIsUnique(s, i);
      }
    }
  }

  // ---- admission ----

  predicate Admitted(s: State, user: seq<Byte>) {
    user in s.users && s.users[user].isAdmitted
  }

  /** A step that confirms for the user, goes through, and meets a positive
      fee. */
  predicate AdmitsUser(s: State, step: Step, user: seq<Byte>) {
    && step.Confirm? && AfterConfirm(s, step.update, step.fees, step.commits).1
    && ToBuffer(step.update.pubkey) == user && step.update.amountPaid.Some?
    && Worth(step.update.amountPaid.value, step.update.unit) >= FeeAtConfirmation(step.fees, step.update.pubkey) > 0
  }

  lemma AdmittedStep(s: State, step: Step, user: seq<Byte>)
    ensures Admitted(Do(s, step), user) <==> Admitted(s, user) || AdmitsUser(s, step, user)
  {
  }

  predicate SomeAdmits(steps: seq<Step>, user: seq<Byte>) {
    exists n: nat :: n < |steps| && AdmitsUser(Run(steps[..n]), steps[n], user)
  }

  lemma SomeAdmitsSnoc(before: seq<Step>, step: Step, user: seq<Byte>)
    ensures SomeAdmits(before + [step], user) <==> SomeAdmits(before, user) || AdmitsUser(Run(before), step, user)
  {
    var steps := before + [step];
    assert steps[..|before|] == before && steps[|before|] == step;
    if SomeAdmits(before, user) {
      var n: nat :| n < |before| && AdmitsUser(Run(before[..n]), before[n], user);
      assert steps[..n] == before[..n] && steps[n] == before[n];
    }
    if SomeAdmits(steps, user) {
      var n: nat :| n < |steps| && AdmitsUser(Run(steps[..n]), steps[n], user);
      assert n < |before| ==> steps[..n] == before[..n] && steps[n] == before[n];
    }
  }

  /** In every run a user is admitted exactly when some confirmation admitted
      the user; nothing takes it back. */
  lemma {:induction false} AdmittedExactly(steps: seq<Step>, user: seq<Byte>)
    ensures Admitted(Run(steps), user) <==> SomeAdmits(steps, user)
  {
    if steps != [] {
      var before, step := steps[..|steps| - 1], steps[|steps| - 1];
      AdmittedExactly(before, user);
      AdmittedStep(Run(before), step, user);
      SomeAdmitsSnoc(before, step, user);
      assert steps == before + [step];
    }
  }
}
