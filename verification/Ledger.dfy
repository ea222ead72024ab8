/** Users, invoices and balances: the stored procedures `confirm_invoice` and
    `charge_user`, the two repositories, and the transactions of the payments
    service (nostream-share/src/services/payments-service.ts). */
module Ledger {
  import opened Wrappers
  import opened Hex
  import opened Fees

  datatype Unit = Msats | Sats | Btc
  datatype Status = Pending | Completed | Expired
  datatype User = User(isAdmitted: bool, balance: int)
  datatype InvoiceRow = InvoiceRow(
    id: string, pubkey: seq<Byte>, amountRequested: int, amountPaid: Option<int>,
    unit: Option<Unit>, status: Status, confirmedAt: Option<nat>)
  datatype State = State(users: map<seq<Byte>, User>, invoices: seq<InvoiceRow>)

  const EMPTY := State(map[], [])

  /** A BIGINT column or parameter. */
  predicate InInt8(n: int) {
    -0x8000_0000_0000_0000 <= n < 0x8000_0000_0000_0000
  }

  function MsatsPer(unit: Unit): int {
    match unit
    case Msats => 1
    case Sats => 1000
    case Btc => 100000000 * 1000
  }

  function IndexOf(invoices: seq<InvoiceRow>, id: string): (i: int)
    ensures -1 <= i < |invoices|
    ensures i >= 0 ==> invoices[i].id == id
    ensures i == -1 ==> forall j :: 0 <= j < |invoices| ==> invoices[j].id != id
  {
    if invoices == [] then -1
    else if invoices[|invoices| - 1].id == id then |invoices| - 1
    else IndexOf(invoices[..|invoices| - 1], id)
  }

  // ---- statements ----

  /** INSERT ... ON CONFLICT (pubkey) DO UPDATE: the balance is never written;
      admission only when given. */
  function UserUpserted(users: map<seq<Byte>, User>, pubkey: seq<Byte>, isAdmitted: Option<bool>): map<seq<Byte>, User> {
    var admitted := if isAdmitted.Some? then isAdmitted.value else pubkey in users && users[pubkey].isAdmitted;
    users[pubkey := User(admitted, if pubkey in users then users[pubkey].balance else 0)]
  }

  /** INSERT ... ON CONFLICT (id) DO UPDATE of the status alone. */
  function InvoiceUpserted(invoices: seq<InvoiceRow>, row: InvoiceRow): seq<InvoiceRow> {
    var i := IndexOf(invoices, row.id);
    if i < 0 then invoices + [row] else invoices[i := invoices[i].(status := row.status)]
  }

  function StatusSet(invoices: seq<InvoiceRow>, id: string, status: Status): seq<InvoiceRow> {
    var i := IndexOf(invoices, id);
    if i < 0 then invoices else invoices[i := invoices[i].(status := status)]
  }

  /** `confirm_invoice`; no result when a BIGINT overflows. */
  function Confirmed(s: State, id: string, amount: int, at: nat): Option<State> {
    var i := IndexOf(s.invoices, id);
    if !InInt8(amount) then None
    else if i < 0 || s.invoices[i].confirmedAt.Some? then Some(s)
    else
      var row := s.invoices[i];
      var invoices := s.invoices[i := row.(confirmedAt := Some(at), amountPaid := Some(amount))];
      if row.unit.None? || row.pubkey !in s.users then Some(s.(invoices := invoices))
      else
        var credit, user := amount * MsatsPer(row.unit.value), s.users[row.pubkey];
        if !InInt8(credit) || !InInt8(user.balance + credit) then None
        else Some(State(s.users[row.pubkey := user.(balance := user.balance + credit)], invoices))
  }

  predicate Covers(s: State, user: seq<Byte>, amount: int) {
    user in s.users && s.users[user].balance - amount >= 0
  }

  /** Is the charge taken? Not when the balance does not cover it, and not when
      a BIGINT overflows. */
  predicate Chargeable(s: State, user: seq<Byte>, amount: int) {
    InInt8(amount) && Covers(s, user, amount) && InInt8(s.users[user].balance - amount)
  }

  function AfterCharge(s: State, user: seq<Byte>, amount: int): State {
    if Chargeable(s, user, amount)
    then s.(users := s.users[user := s.users[user].(balance := s.users[user].balance - amount)])
    else s
  }

  // ---- what the service does with them ----

  /** The invoice object handed to `confirmInvoice`. */
  datatype Update = Update(
    id: string, pubkey: string, amountPaid: Option<int>, confirmedAt: Option<nat>, status: Status, unit: Option<Unit>)

  /** Confirming checks the object first; its own unit, not the stored one,
      scales the amount that is compared with the fee. */
  predicate Confirmable(u: Update) {
    u.confirmedAt.Some? && u.status == Completed && u.amountPaid.Some?
  }

  predicate Admits(u: Update, fees: seq<FeeSchedule>) {
    u.amountPaid.Some?
    && FeeAtConfirmation(fees, u.pubkey) > 0
    && u.amountPaid.value * (if u.unit.Some? then MsatsPer(u.unit.value) else 1) >= FeeAtConfirmation(fees, u.pubkey)
  }

  function AfterConfirm(s: State, u: Update, fees: seq<FeeSchedule>, commits: bool): (State, bool) {
    if !Confirmable(u) || !commits then (s, false)
    else
      match Confirmed(s, u.id, u.amountPaid.value, u.confirmedAt.value)
      case None => (s, false)
      case Some(t) =>
        if Admits(u, fees) then (t.(users := UserUpserted(t.users, ToBuffer(u.pubkey), Some(true))), true) else (t, true)
  }

  /** What a payments processor answers to a request for an invoice. */
  datatype Quote = Quote(id: string, amountRequested: int, unit: Option<Unit>, status: Status)

  function AfterCreate(s: State, pubkey: string, quote: Option<Quote>, commits: bool): (State, bool) {
    if quote.None? || !commits || !InInt8(quote.value.amountRequested) then (s, false)
    else
      var q := quote.value;
      var row := InvoiceRow(q.id, ToBuffer(pubkey), q.amountRequested, None, q.unit, q.status, None);
      (State(UserUpserted(s.users, ToBuffer(pubkey), None), InvoiceUpserted(s.invoices, row)), true)
  }

  // ---- the database and its transactions ----

  class Database {
    var users: map<seq<Byte>, User>
    var invoices: seq<InvoiceRow>

    function Snapshot(): State
      reads this
    {
      State(users, invoices)
    }

    constructor ()
      ensures Snapshot() == EMPTY
    {
      users, invoices := map[], [];
    }

    method UpsertUser(pubkey: seq<Byte>, isAdmitted: Option<bool>)
      modifies this`users
      ensures users == UserUpserted(old(users), pubkey, isAdmitted)
    {
      if pubkey in users {
        if isAdmitted.Some? {
          users := users[pubkey := users[pubkey].(isAdmitted := isAdmitted.value)];
        }
        assert users[pubkey := users[pubkey]] == users;
      } else {
        users := users[pubkey := User(isAdmitted.Some? && isAdmitted.value, 0)];
      }
    }

    method UpsertInvoice(row: InvoiceRow)
      modifies this`invoices
      ensures invoices == InvoiceUpserted(old(invoices), row)
    {
      var i := IndexOf(invoices, row.id);
      if i < 0 {
        invoices := invoices + [row];
      } else {
        invoices := invoices[i := invoices[i].(status := row.status)];
      }
    }

    method UpdateStatus(id: string, status: Status)
      modifies this`invoices
      ensures invoices == StatusSet(old(invoices), id, status)
    {
      var i := IndexOf(invoices, id);
      if i >= 0 {
        invoices := invoices[i := invoices[i].(status := status)];
      }
    }

    /** The procedure writes the invoice before the balance; when the balance
        overflows, the invoice is left written for the transaction to undo. */
    method ConfirmInvoice(id: string, amount: int, at: nat) returns (ok: bool)
      modifies this
      ensures ok <==> Confirmed(old(Snapshot()), id, amount, at).Some?
      ensures ok ==> Snapshot() == Confirmed(old(Snapshot()), id, amount, at).value
    {
      if !InInt8(amount) {
        return false;
      }
      var i := IndexOf(invoices, id);
      if i < 0 || invoices[i].confirmedAt.Some? {
        return true;
      }
      var payee, unit := invoices[i].pubkey, invoices[i].unit;
      invoices := invoices[i := invoices[i].(confirmedAt := Some(at), amountPaid := Some(amount))];
      if unit.None? || payee !in users {
        return true;
      }
      var credit := amount * MsatsPer(unit.value);
      if !InInt8(credit) || !InInt8(users[payee].balance + credit) {
        return false;
      }
      users := users[payee := users[payee].(balance := users[payee].balance + credit)];
      ok := true;
    }

    /** `charge_user`: 1 when charged, 0 when not, nothing when a BIGINT
        overflows. */
    method ChargeUser(user: seq<Byte>, amount: int) returns (r: Option<int>)
      modifies this`users
      ensures Snapshot() == AfterCharge(old(Snapshot()), user, amount)
      ensures r == Some(1) <==> Chargeable(old(Snapshot()), user, amount)
      ensures r == None <==> !InInt8(amount) || (user in old(users) && !InInt8(old(users)[user].balance - amount))
      ensures r.Some? ==> 0 <= r.value <= 1
    {
      if !InInt8(amount) {
        return None;
      }
      if user !in users {
        return Some(0);
      }
      if !InInt8(users[user].balance - amount) {
        return None;
      }
      if users[user].balance - amount >= 0 {
        users := users[user := users[user].(balance := users[user].balance - amount)];
        return Some(1);
      }
      r := Some(0);
    }
  }

  class Transaction {
    const db: Database
    var begun: Option<State>

    constructor (db: Database)
      ensures this.db == db && begun == None
    {
      this.db := db;
      begun := None;
    }

    method Begin()
      modifies this
      ensures begun == Some(db.Snapshot())
    {
      begun := Some(db.Snapshot());
    }

    /** Fails, and changes nothing, when the transaction was never begun. */
    method Rollback() returns (ok: bool)
      modifies db
      ensures ok <==> begun.Some?
      ensures db.Snapshot() == if begun.Some? then begun.value else old(db.Snapshot())
    {
      if begun.None? {
        return false;
      }
      db.users, db.invoices := begun.value.users, begun.value.invoices;
      ok := true;
    }
  }

  class PaymentsService {
    const db: Database

    constructor (db: Database)
      ensures this.db == db
    {
      this.db := db;
    }

    /** `quote` is the processor's answer, if it answers; `commits` says whether
        the database accepts the transaction at the end. */
    method CreateInvoice(pubkey: string, quote: Option<Quote>, commits: bool) returns (ok: bool)
      modifies db
      ensures (db.Snapshot(), ok) == AfterCreate(old(db.Snapshot()), pubkey, quote, commits)
    {
      var transaction := new Transaction(db);
      transaction.Begin();
      db.UpsertUser(ToBuffer(pubkey), None);
      if quote.Some? && InInt8(quote.value.amountRequested) {
        var q := quote.value;
        db.UpsertInvoice(InvoiceRow(q.id, ToBuffer(pubkey), q.amountRequested, None, q.unit, q.status, None));
        if commits {
          return true;
        }
      }
      var _ := transaction.Rollback();
      ok := false;
    }

    method ConfirmInvoice(u: Update, fees: seq<FeeSchedule>, commits: bool) returns (ok: bool)
      modifies db
      ensures (db.Snapshot(), ok) == AfterConfirm(old(db.Snapshot()), u, fees, commits)
    {
      var transaction := new Transaction(db);
      if u.confirmedAt.None? || u.status != Completed || u.amountPaid.None? {
        var _ := transaction.Rollback();
        return false;
      }
      transaction.Begin();
      var confirmed := db.ConfirmInvoice(u.id, u.amountPaid.value, u.confirmedAt.value);
      if confirmed {
        var amountPaidMsat := u.amountPaid.value;
        if u.unit == Some(Sats) {
          amountPaidMsat := amountPaidMsat * 1000;
        } else if u.unit == Some(Btc) {
          amountPaidMsat := amountPaidMsat * (1000 * 100000000);
        }
        var admissionFeeAmount := FeeAtConfirmation(fees, u.pubkey);
        if admissionFeeAmount > 0 && amountPaidMsat >= admissionFeeAmount {
          db.UpsertUser(ToBuffer(u.pubkey), Some(true));
        }
        if commits {
          return true;
        }
      }
      var _ := transaction.Rollback();
      ok := false;
    }
  }
}
