/** Admission fees: the sum charged when an invoice is requested
    (nostream-share/src/controllers/invoices/post-invoice-controller.ts) and the
    sum expected when it is confirmed
    (nostream-share/src/services/payments-service.ts). */
module Fees {
  import opened Wrappers

  datatype FeeSchedule = FeeSchedule(enabled: bool, amount: int, whitelist: seq<string>)

  predicate Whitelisted(whitelist: seq<string>, pubkey: string) {
    exists i :: 0 <= i < |whitelist| && whitelist[i] <= pubkey
  }

  /** Both places use the same test: enabled, and no whitelisted prefix. */
  predicate Applicable(fee: FeeSchedule, pubkey: string) {
    fee.enabled && !Whitelisted(fee.whitelist, pubkey)
  }

  function Filtered(fees: seq<FeeSchedule>, pubkey: string): seq<FeeSchedule> {
    if fees == [] then []
    else
      var rest := Filtered(fees[..|fees| - 1], pubkey);
      if Applicable(fees[|fees| - 1], pubkey) then rest + [fees[|fees| - 1]] else rest
  }

  /** The reduction of the filtered list tests again, now for the exact key. */
  function Requested(fees: seq<FeeSchedule>, pubkey: string): int {
    if fees == [] then 0
    else
      var fee, sum := fees[|fees| - 1], Requested(fees[..|fees| - 1], pubkey);
      if fee.enabled && pubkey !in fee.whitelist then fee.amount + sum else sum
  }

  /** What the invoice is requested for; none when no fee applies. */
  function FeeAtCreation(fees: seq<FeeSchedule>, pubkey: string): Option<int> {
    var admissionFee := Filtered(fees, pubkey);
    if admissionFee == [] then None else Some(Requested(admissionFee, pubkey))
  }

  function FeeAtConfirmation(fees: seq<FeeSchedule>, pubkey: string): int {
    if fees == [] then 0
    else
      var fee, sum := fees[|fees| - 1], FeeAtConfirmation(fees[..|fees| - 1], pubkey);
      sum + if Applicable(fee, pubkey) then fee.amount else 0
  }

  /** Is the key exempt: does it start with a whitelisted text? */
  predicate Exempt(fee: FeeSchedule, pubkey: string) {
    exists w :: w in fee.whitelist && |w| <= |pubkey| && pubkey[..|w|] == w
  }

  lemma ApplicableMeaning(fee: FeeSchedule, pubkey: string)
    ensures Applicable(fee, pubkey) <==> fee.enabled && !Exempt(fee, pubkey)
  {
    if Exempt(fee, pubkey) {
      var w :| w in fee.whitelist && |w| <= |pubkey| && pubkey[..|w|] == w;
      var i :| 0 <= i < |fee.whitelist| && fee.whitelist[i] == w;
    }
    if Whitelisted(fee.whitelist, pubkey) {
      var i :| 0 <= i < |fee.whitelist| && fee.whitelist[i] <= pubkey;
      assert fee.whitelist[i] in fee.whitelist;
    }
  }

  /** The fee expected adds up the enabled schedules from which the key is not
      exempt. */
  lemma {:induction false} FeeAddsUp(a: seq<FeeSchedule>, b: seq<FeeSchedule>, pubkey: string)
    ensures FeeAtConfirmation(a + b, pubkey) == FeeAtConfirmation(a, pubkey) + FeeAtConfirmation(b, pubkey)
    ensures |a| == 1 ==>
              FeeAtConfirmation(a, pubkey) == if a[0].enabled && !Exempt(a[0], pubkey) then a[0].amount else 0
  {
    if |a| == 1 { ApplicableMeaning(a[0], pubkey); }
    if b == [] {
      assert a + b == a;
    } else {
      FeeAddsUp(a, b[..|b| - 1], pubkey);
      assert (a + b)[..|a + b| - 1] == a + b[..|b| - 1];
    }
  }

  /** No fee is asked for exactly when every schedule is disabled or exempts the
      key. */
  lemma {:induction false} NoFeeExactly(fees: seq<FeeSchedule>, pubkey: string)
    ensures FeeAtCreation(fees, pubkey).None? <==>
            forall i :: 0 <= i < |fees| ==> !fees[i].enabled || Exempt(fees[i], pubkey)
  {
    if fees != [] {
      var init, last := fees[..|fees| - 1], fees[|fees| - 1];
      NoFeeExactly(init, pubkey);
      ApplicableMeaning(last, pubkey);
      assert forall i :: 0 <= i < |init| ==> init[i] == fees[i];
    }
  }

  /** A key stands at the head of itself, so the exact test never drops a fee
      that passed the prefix test. */
  lemma RequestedSnoc(fees: seq<FeeSchedule>, fee: FeeSchedule, pubkey: string)
    requires Applicable(fee, pubkey)
    ensures Requested(fees + [fee], pubkey) == fee.amount + Requested(fees, pubkey)
  {
    assert (fees + [fee])[..|fees|] == fees;
  }

  lemma {:induction false} RequestedIsExpected(fees: seq<FeeSchedule>, pubkey: string)
    ensures Requested(Filtered(fees, pubkey), pubkey) == FeeAtConfirmation(fees, pubkey)
  {
    if fees != [] {
      var init, last := fees[..|fees| - 1], fees[|fees| - 1];
      RequestedIsExpected(init, pubkey);
      if Applicable(last, pubkey) { RequestedSnoc(Filtered(init, pubkey), last, pubkey); }
    }
  }

  /** For fixed settings the fee asked for is the fee expected; when none is
      asked for, none is expected. */
  lemma {:induction false} FeesAgree(fees: seq<FeeSchedule>, pubkey: string)
    ensures match FeeAtCreation(fees, pubkey)
      case Some(amount) => FeeAtConfirmation(fees, pubkey) == amount
      case None => FeeAtConfirmation(fees, pubkey) == 0
  {
    RequestedIsExpected(fees, pubkey);
  }
}
