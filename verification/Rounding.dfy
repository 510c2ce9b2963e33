/** Payments of arbitrary real amounts against numeric(12,2) columns: the receipt and the
    new balance are rounded to whole cents separately, ties away from zero. Amounts are
    measured in cents. */
module Rounding {
  import opened Ledger
  import opened Outcomes
  import Calendar
  import Numbering

  /** Storing a value in a column of scale 2. */
  function Store(x: real): int {
    if x >= 0.0 then (x + 0.5).Floor else -((-x + 0.5).Floor)
  }

  /** An invoice as stored, with its receipts. */
  datatype Account = Account(amount: int, balance: int, receipts: seq<int>, status: InvoiceStatus)

  predicate Accepts(a: Account, requested: real) {
    requested >= 1.0 && a.status != Void && a.balance > 0
  }

  /** `record` in real arithmetic; the request is validated to be at least 0.01. */
  function Record(a: Account, requested: real): Account {
    if !Accepts(a, requested) then a
    else
      var amount := if requested < a.balance as real then requested else a.balance as real;
      var newBalance := a.balance as real - amount;
      Account(a.amount, Store(newBalance), a.receipts + [Store(amount)], if newBalance <= 0.0 then Paid else Partial)
  }

  function RecordAll(a: Account, requests: seq<real>): Account {
    if requests == [] then a else Record(RecordAll(a, requests[..|requests| - 1]), requests[|requests| - 1])
  }

  function Sum(receipts: seq<int>): int {
    if receipts == [] then 0 else Sum(receipts[..|receipts| - 1]) + receipts[|receipts| - 1]
  }

  /** A payment that splits a cent exactly in half. */
  predicate HalfCent(a: Account, requested: real) {
    Accepts(a, requested) && requested < a.balance as real && requested - requested.Floor as real == 0.5
  }

  function HalfCents(a: Account, requests: seq<real>): nat {
    if requests == [] then 0
    else
      var front := requests[..|requests| - 1];
      HalfCents(a, front) + if HalfCent(RecordAll(a, front), requests[|requests| - 1]) then 1 else 0
  }

  function Drift(a: Account): int {
    a.balance + Sum(a.receipts) - a.amount
  }

  lemma FloorOf(x: real, n: int)
    requires n as real <= x < (n + 1) as real
    ensures x.Floor == n
  {
  }

  /** The two roundings of one payment: exact unless the amount splits a cent in half, when
      both halves round up. */
  lemma StoreSplits(balance: int, amount: real)
    requires 1.0 <= amount <= balance as real
    ensures Store(amount) + Store(balance as real - amount)
         == balance + if amount - amount.Floor as real == 0.5 then 1 else 0
    ensures 0 <= Store(balance as real - amount) <= balance - 1
    ensures Store(amount) >= 1
  {
    var n := amount.Floor;
    var f := amount - n as real;
    if f < 0.5 {
      FloorOf(amount + 0.5, n);
      FloorOf(balance as real - amount + 0.5, balance - n);
    } else if f == 0.5 {
      FloorOf(amount + 0.5, n + 1);
      FloorOf(balance as real - amount + 0.5, balance - n);
    } else {
      FloorOf(amount + 0.5, n + 1);
      FloorOf(balance as real - amount + 0.5, balance - n - 1);
    }
  }

  /** One accepted payment: the drift grows by a cent exactly on a half-cent amount, and the
      balance falls by at least a cent. */
  lemma RecordStep(a: Account, requested: real)
    requires Accepts(a, requested)
    ensures Drift(Record(a, requested)) == Drift(a) + if HalfCent(a, requested) then 1 else 0
    ensures 0 <= Record(a, requested).balance < a.balance
  {
    var amount := if requested < a.balance as real then requested else a.balance as real;
    StoreSplits(a.balance, amount);
    var after := Record(a, requested);
    assert after.receipts[..|after.receipts| - 1] == a.receipts;
  }

  /** A column holds the nearest whole cent, and of two equally near the one away from zero. */
  lemma StoreIsNearest(x: real)
    requires x >= 0.0
    ensures x - 0.5 < Store(x) as real <= x + 0.5
  {
  }

  /** What one payment writes: it is taken exactly on an unvoided invoice still owing something; the
      receipt is what was paid and the balance what was owed less that, each to the nearest cent; and
      the invoice is paid exactly if the request covers the balance. */
  lemma RecordOutcome(a: Account, requested: real)
    requires requested >= 1.0
    ensures Record(a, requested) != a <==> a.status != Void && a.balance > 0
    ensures a.status != Void && a.balance > 0 ==>
      var owed := a.balance as real;
      var paid := if requested < owed then requested else owed;
      var after := Record(a, requested);
      && after.amount == a.amount && |after.receipts| == |a.receipts| + 1
      && after.receipts[..|a.receipts|] == a.receipts
      && (var receipt := after.receipts[|a.receipts|]; paid - 0.5 < receipt as real <= paid + 0.5)
      && owed - paid - 0.5 < after.balance as real <= owed - paid + 0.5
      && after.status == if requested >= owed then Paid else Partial
  {
    if Accepts(a, requested) {
      var paid := if requested < a.balance as real then requested else a.balance as real;
      StoreIsNearest(paid);
      StoreIsNearest(a.balance as real - paid);
      RecordStep(a, requested);
    }
  }

  // ---- whole cents are the ledger's payments -------------------------------------------

  function AmountsOf(payments: seq<Payment>, invoice: nat): seq<int> {
    if payments == [] then []
    else
      var last := payments[|payments| - 1];
      AmountsOf(payments[..|payments| - 1], invoice) + if last.invoice == invoice then [last.amount] else []
  }

  /** One invoice of the ledger with its receipts. */
  function AccountOf(db: Tables, invoice: nat): Account
    requires invoice < |db.invoices|
  {
    var inv := db.invoices[invoice];
    Account(inv.amount, inv.balance, AmountsOf(db.payments, invoice), inv.status)
  }

  lemma StoreWhole(n: int)
    ensures Store(n as real) == n
  {
    if n >= 0 {
      FloorOf(n as real + 0.5, n);
    } else {
      FloorOf(-(n as real) + 0.5, -n);
    }
  }

  /** On whole cents a payment here is the ledger's payment, receipt, balance and status alike,
      while receipt numbers last. */
  lemma WholeCentsArePay(db: Tables, invoice: nat, requested: int, date: Calendar.Date)
    requires invoice < |db.invoices| && requested >= 1 && Numbering.Allocate(PaymentCodes(db.payments)).Ok?
    ensures var after := Apply(db, PayOp(invoice, requested, date));
            invoice < |after.invoices| && AccountOf(after, invoice) == Record(AccountOf(db, invoice), requested as real)
  {
    hide Numbering.Allocate, Store;
    var inv := db.invoices[invoice];
    var a := AccountOf(db, invoice);
    if Accepts(a, requested as real) {
      var amount := Min(requested, inv.balance);
      StoreWhole(amount);
      StoreWhole(inv.balance - amount);
      assert (inv.balance as real) - (amount as real) == (inv.balance - amount) as real;
      var after := Apply(db, PayOp(invoice, requested, date));
      assert after.payments[..|db.payments|] == db.payments;
    }
  }

  /** After any number of payments the stored books are off by exactly the number of half-cent
      payments, never by more than a cent a receipt, and never in the tenant's favour; and an
      invoice takes at most as many receipts as it has cents. */
  lemma {:induction false} DriftCountsHalfCents(amount: nat, requests: seq<real>)
    ensures var a := Account(amount, amount, [], Due);
            var end := RecordAll(a, requests);
            && Drift(end) == HalfCents(a, requests)
            && 0 <= Drift(end) <= |end.receipts|
            && 0 <= end.balance && |end.receipts| + end.balance <= amount
            && end.amount == amount
  {
    var a := Account(amount, amount, [], Due);
    if requests != [] {
      var front, last := requests[..|requests| - 1], requests[|requests| - 1];
      DriftCountsHalfCents(amount, front);
      if Accepts(RecordAll(a, front), last) {
        RecordStep(RecordAll(a, front), last);
      }
    }
  }

  /** Rounding can strand an invoice: it is left `partial` with a stored balance of zero exactly
      when a payment leaves more than nothing but less than half a cent. */
  lemma StrandedExactly(a: Account, requested: real)
    requires Accepts(a, requested)
    ensures Record(a, requested).status == Partial && Record(a, requested).balance == 0
       <==> 0.0 < a.balance as real - requested < 0.5
  {
    var amount := if requested < a.balance as real then requested else a.balance as real;
    var rest := a.balance as real - amount;
    if rest < 0.5 {
      FloorOf(rest + 0.5, 0);
    } else {
      assert (rest + 0.5).Floor >= 1;
    }
  }

  /** From then on no payment is accepted, so it never becomes `paid`. */
  lemma {:induction false} StrandedStaysPartial(a: Account, requests: seq<real>)
    requires a.status == Partial && a.balance == 0
    ensures RecordAll(a, requests) == a
  {
    if requests != [] {
      StrandedStaysPartial(a, requests[..|requests| - 1]);
    }
  }

  /** With no amount that leaves a fraction under half a cent, status still follows the balance. */
  lemma {:induction false} StatusFollowsBalance(amount: nat, requests: seq<real>)
    requires forall i | 0 <= i < |requests| ::
      var a := RecordAll(Account(amount, amount, [], Due), requests[..i]);
      !(0.0 < a.balance as real - requests[i] < 0.5)
    ensures var end := RecordAll(Account(amount, amount, [], Due), requests);
            match end.status
            case Due => end.receipts == [] && end.balance == amount
            case Partial => end.receipts != [] && end.balance > 0
            case Paid => end.receipts != [] && end.balance == 0
            case Void => false
  {
    if requests != [] {
      var front, last := requests[..|requests| - 1], requests[|requests| - 1];
      forall i | 0 <= i < |front|
        ensures var a := RecordAll(Account(amount, amount, [], Due), front[..i]);
                !(0.0 < a.balance as real - front[i] < 0.5)
      {
        assert front[..i] == requests[..i];
      }
      StatusFollowsBalance(amount, front);
      DriftCountsHalfCents(amount, front);
      var a := RecordAll(Account(amount, amount, [], Due), front);
      if Accepts(a, last) {
        RecordStep(a, last);
        StrandedExactly(a, last);
      }
    }
  }
}
