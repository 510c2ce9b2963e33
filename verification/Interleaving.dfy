/** Billing calls in flight together: every call first reads, and writes at some later
    point, with any number of other reads and writes in between. */
module Interleaving {
  import opened Outcomes
  import opened Ledger
  import Calendar
  import Numbering

  datatype InFlight =
    | Paying(draft: Draft, date: Calendar.Date)
    | Editing(invoice: nat, items: seq<Item>)
    | Voiding(invoice: nat)

  datatype System = System(db: Tables, calls: map<nat, InFlight>)

  datatype Step =
    | IssueInvoice(items: seq<Item>, due: int)
    | StartPay(call: nat, invoice: nat, requested: int, date: Calendar.Date)
    | StartEdit(call: nat, invoice: nat, raw: seq<RawItem>)
    | StartVoid(call: nat, invoice: nat)
    | Finish(call: nat)

  function Next(s: System, step: Step): System {
    match step
    case IssueInvoice(items, due) => s.(db := Apply(s.db, IssueOp(items, due)))
    case StartPay(call, invoice, requested, date) =>
      if call in s.calls then s
      else (match ReadPay(s.db, invoice, requested)
            case Ok(d) => s.(calls := s.calls[call := Paying(d, date)])
            case Err(_) => s)
    case StartEdit(call, invoice, raw) =>
      if call in s.calls then s
      else (match ReadEdit(s.db, invoice, raw)
            case Ok(items) => s.(calls := s.calls[call := Editing(invoice, items)])
            case Err(_) => s)
    case StartVoid(call, invoice) =>
      if call in s.calls then s
      else (match ReadVoid(s.db, invoice)
            case Ok(_) => s.(calls := s.calls[call := Voiding(invoice)])
            case Err(_) => s)
    case Finish(call) =>
      if call !in s.calls then s else System(Write(s.db, s.calls[call]), s.calls - {call})
  }

  predicate Targets(db: Tables, c: InFlight) {
    match c
    case Paying(d, _) => d.invoice < |db.invoices|
    case Editing(invoice, _) => invoice < |db.invoices|
    case Voiding(invoice) => invoice < |db.invoices|
  }

  /** The write a call makes when it gets there, from what it read earlier. */
  function Write(db: Tables, c: InFlight): Tables {
    if !Targets(db, c) then db
    else
      match c
      case Paying(d, date) => (match CommitPay(db, d, date) case Ok(after) => after case Err(_) => db)
      case Editing(invoice, items) => CommitEdit(db, invoice, items)
      case Voiding(invoice) => CommitVoid(db, invoice)
  }

  function Run(s: System, steps: seq<Step>): System {
    if steps == [] then s else Next(Run(s, steps[..|steps| - 1]), steps[|steps| - 1])
  }

  // ---- what interleaving keeps -----------------------------------------------------------

  /** No debt is forgiven: what the invoice counts as paid has really been received. */
  ghost predicate Safe(db: Tables, i: nat)
    requires i < |db.invoices|
  {
    var inv := db.invoices[i];
    0 <= inv.balance <= inv.amount && inv.amount - inv.balance <= Received(db.payments, i)
  }

  /** A stale balance is one the receipts made so far account for. */
  ghost predicate Backed(db: Tables, d: Draft) {
    && d.invoice < |db.invoices|
    && 0 < d.amount <= d.balance <= db.invoices[d.invoice].amount
    && db.invoices[d.invoice].amount - d.balance <= Received(db.payments, d.invoice)
  }

  ghost predicate Sound(s: System) {
    && PaymentsWellFormed(s.db)
    && (forall i | 0 <= i < |s.db.invoices| :: Safe(s.db, i))
    && (forall c | c in s.calls :: Targets(s.db, s.calls[c]))
    && (forall c | c in s.calls && s.calls[c].Paying? :: Backed(s.db, s.calls[c].draft))
  }

  /** An edit is quiet when no payment on its invoice is in flight as it writes. */
  ghost predicate Quiet(s: System, step: Step) {
    step.Finish? && step.call in s.calls && s.calls[step.call].Editing? ==>
      forall c | c in s.calls && s.calls[c].Paying? :: s.calls[c].draft.invoice != s.calls[step.call].invoice
  }

  ghost predicate QuietRun(s: System, steps: seq<Step>) {
    steps == [] || (QuietRun(s, steps[..|steps| - 1]) && Quiet(Run(s, steps[..|steps| - 1]), steps[|steps| - 1]))
  }

  lemma WriteKeepsSafe(db: Tables, c: InFlight, i: nat)
    requires PaymentsWellFormed(db) && i < |db.invoices| && Safe(db, i) && Targets(db, c)
    requires c.Paying? ==> Backed(db, c.draft)
    ensures |Write(db, c).invoices| == |db.invoices| && Safe(Write(db, c), i)
    ensures PaymentsWellFormed(Write(db, c))
    ensures Received(Write(db, c).payments, i) >= Received(db.payments, i) >= 0
  {
    var after := Write(db, c);
    ReceivedBounds(db.payments, i);
    if c.Paying? && |after.payments| > |db.payments| {
      ReceivedAppend(db.payments, after.payments[|db.payments|], i);
    }
  }

  lemma WriteKeepsBacked(db: Tables, c: InFlight, d: Draft)
    requires PaymentsWellFormed(db) && Targets(db, c) && Backed(db, d) && Safe(db, d.invoice)
    requires c.Paying? ==> Backed(db, c.draft)
    requires c.Editing? ==> c.invoice != d.invoice
    ensures Backed(Write(db, c), d)
  {
    WriteKeepsSafe(db, c, d.invoice);
  }

  lemma IssueKeepsSound(s: System, items: seq<Item>, due: int)
    requires Sound(s)
    ensures Sound(s.(db := Apply(s.db, IssueOp(items, due))))
  {
    var after := Apply(s.db, IssueOp(items, due));
    forall i | 0 <= i < |after.invoices|
      ensures Safe(after, i)
    {
      if i < |s.db.invoices| {
        assert Safe(s.db, i);
      } else {
        ReceivedNothing(s.db.payments, i);
      }
    }
  }

  lemma FinishKeepsSound(s: System, call: nat)
    requires Sound(s) && call in s.calls && Quiet(s, Finish(call))
    ensures Sound(Next(s, Finish(call)))
  {
    var c := s.calls[call];
    var after := Next(s, Finish(call));
    forall i | 0 <= i < |after.db.invoices|
      ensures Safe(after.db, i)
    {
      if |s.db.invoices| > 0 {
        var j := if i < |s.db.invoices| then i else 0;
        WriteKeepsSafe(s.db, c, j);
      }
    }
    forall k | k in after.calls && after.calls[k].Paying?
      ensures Backed(after.db, after.calls[k].draft)
    {
      WriteKeepsBacked(s.db, c, s.calls[k].draft);
    }
    if |s.db.invoices| > 0 {
      WriteKeepsSafe(s.db, c, 0);
    }
  }

  lemma NextKeepsSound(s: System, step: Step)
    requires Sound(s) && Quiet(s, step)
    ensures Sound(Next(s, step))
  {
    match step
    case IssueInvoice(items, due) => IssueKeepsSound(s, items, due);
    case Finish(call) =>
      if call in s.calls {
        FinishKeepsSound(s, call);
      }
    case StartPay(call, invoice, requested, date) =>
      if invoice < |s.db.invoices| {
        assert Safe(s.db, invoice);
      }
    case _ =>
  }

  /** Under every interleaving of any number of payments and voids, and of edits that write
      while no payment on their invoice is in flight: balances stay within 0 and the amount, and
      a stale write never forgives unpaid debt. */
  lemma {:induction false} NoDebtForgiven(s: System, steps: seq<Step>)
    requires Sound(s) && QuietRun(s, steps)
    ensures Sound(Run(s, steps))
  {
    if steps != [] {
      NoDebtForgiven(s, steps[..|steps| - 1]);
      NextKeepsSound(Run(s, steps[..|steps| - 1]), steps[|steps| - 1]);
    }
  }

  /** What stale writes can do is charge twice: the total collected never exceeds the receipts. */
  lemma CollectedAtMostIncome(s: System, steps: seq<Step>)
    requires Sound(s) && QuietRun(s, steps)
    ensures CollectedTotal(Run(s, steps).db.invoices) <= IncomeTotal(Run(s, steps).db.payments)
  {
    NoDebtForgiven(s, steps);
    var end := Run(s, steps).db;
    forall i | 0 <= i < |end.invoices|
      ensures end.invoices[i].amount - end.invoices[i].balance <= Received(end.payments, i)
    {
      assert Safe(end, i);
    }
    CollectedByInvoice(end, |end.invoices|);
    assert end.invoices[..|end.invoices|] == end.invoices;
    ReceiptsPartition(end.payments, |end.invoices|);
  }

  // ---- when the guard `balance = amount` stays exact --------------------------------------

  ghost predicate GuardExact(db: Tables) {
    forall i | 0 <= i < |db.invoices| ::
      (db.invoices[i].balance < db.invoices[i].amount <==> Received(db.payments, i) > 0)
  }

  lemma WriteKeepsGuard(db: Tables, c: InFlight)
    requires PaymentsWellFormed(db) && GuardExact(db) && Targets(db, c) && !c.Editing?
    requires c.Paying? ==> Backed(db, c.draft)
    ensures GuardExact(Write(db, c))
  {
    var after := Write(db, c);
    forall i | 0 <= i < |after.invoices|
      ensures after.invoices[i].balance < after.invoices[i].amount <==> Received(after.payments, i) > 0
    {
      ReceivedBounds(db.payments, i);
      if c.Paying? && |after.payments| > |db.payments| {
        ReceivedAppend(db.payments, after.payments[|db.payments|], i);
      }
    }
  }

  /** An edit's write keeps the guard exact if and only if no receipt stands against its invoice:
      it resets the balance to the amount, which is what says "unpaid". */
  lemma EditKeepsGuardExactly(db: Tables, invoice: nat, items: seq<Item>)
    requires PaymentsWellFormed(db) && GuardExact(db) && invoice < |db.invoices|
    ensures GuardExact(CommitEdit(db, invoice, items)) <==> Received(db.payments, invoice) == 0
  {
    hide Received, ItemTotal;
    var after := CommitEdit(db, invoice, items);
    ReceivedBounds(db.payments, invoice);
    assert after.invoices[invoice].balance == after.invoices[invoice].amount;
  }

  /** An edit that writes over a receipt recorded since its own check. */
  predicate Overwrites(s: System, step: Step) {
    && step.Finish? && step.call in s.calls && s.calls[step.call].Editing?
    && s.calls[step.call].invoice < |s.db.invoices|
    && Received(s.db.payments, s.calls[step.call].invoice) > 0
  }

  predicate OverwritesNothing(s: System, steps: seq<Step>) {
    steps == [] ||
    (OverwritesNothing(s, steps[..|steps| - 1]) && !Overwrites(Run(s, steps[..|steps| - 1]), steps[|steps| - 1]))
  }

  /** The exact step at which `balance = amount` stops meaning that no receipt exists. */
  lemma NextKeepsGuardExactly(s: System, step: Step)
    requires Sound(s) && GuardExact(s.db)
    ensures GuardExact(Next(s, step).db) <==> !Overwrites(s, step)
  {
    hide Received, Numbering.Allocate, ItemTotal, Write, CommitPay, ReadEdit, ReadPay, ReadVoid;
    match step
    case Finish(call) =>
      if call in s.calls {
        FinishKeepsGuardExactly(s, call);
      }
    case IssueInvoice(items, due) =>
      ReceivedNothing(s.db.payments, |s.db.invoices|);
    case _ =>
  }

  lemma FinishKeepsGuardExactly(s: System, call: nat)
    requires Sound(s) && GuardExact(s.db) && call in s.calls
    ensures GuardExact(Next(s, Finish(call)).db) <==> !Overwrites(s, Finish(call))
  {
    hide GuardExact, CommitEdit, CommitPay, Received;
    var c := s.calls[call];
    if c.Editing? {
      EditKeepsGuardExactly(s.db, c.invoice, c.items);
      ReceivedBounds(s.db.payments, c.invoice);
    } else {
      WriteKeepsGuard(s.db, c);
    }
  }

  /** Even with stale payments, racing voids and edits, `balance = amount` still means that no
      receipt exists, in every run whose edits all write on invoices without receipts. */
  lemma {:induction false} GuardSurvivesRaces(s: System, steps: seq<Step>)
    requires Sound(s) && GuardExact(s.db) && QuietRun(s, steps) && OverwritesNothing(s, steps)
    ensures GuardExact(Run(s, steps).db)
  {
    hide Sound, GuardExact, Next, Overwrites, Quiet;
    if steps != [] {
      var front := steps[..|steps| - 1];
      GuardSurvivesRaces(s, front);
      NoDebtForgiven(s, front);
      NextKeepsGuardExactly(Run(s, front), steps[|steps| - 1]);
    }
  }

  ghost predicate EditFree(s: System, steps: seq<Step>) {
    (forall c | c in s.calls :: !s.calls[c].Editing?) && (forall step | step in steps :: !step.StartEdit?)
  }

  /** Runs without edits meet both conditions, whatever else overlaps in them. */
  lemma {:induction false} EditFreeMeetsBoth(s: System, steps: seq<Step>)
    requires EditFree(s, steps)
    ensures QuietRun(s, steps) && OverwritesNothing(s, steps)
    ensures forall c | c in Run(s, steps).calls :: !Run(s, steps).calls[c].Editing?
  {
    if steps != [] {
      EditFreeMeetsBoth(s, steps[..|steps| - 1]);
      assert steps[|steps| - 1] in steps;
    }
  }

  // ---- when a void stays what it is --------------------------------------------------------

  /** What the guard of `void` is for: nothing was paid on a voided invoice. */
  ghost predicate VoidExact(db: Tables) {
    forall i | 0 <= i < |db.invoices| && db.invoices[i].status == Void :: Received(db.payments, i) == 0
  }

  /** A void that writes over a receipt recorded since its own check. */
  predicate VoidsPaid(s: System, step: Step) {
    && step.Finish? && step.call in s.calls && s.calls[step.call].Voiding?
    && s.calls[step.call].invoice < |s.db.invoices|
    && Received(s.db.payments, s.calls[step.call].invoice) > 0
  }

  lemma WriteKeepsVoidExactly(db: Tables, c: InFlight)
    requires PaymentsWellFormed(db) && VoidExact(db) && Targets(db, c)
    ensures VoidExact(Write(db, c)) <==> !(c.Voiding? && Received(db.payments, c.invoice) > 0)
  {
    hide Numbering.Allocate, ItemTotal, Received;
    var after := Write(db, c);
    forall i | 0 <= i < |after.invoices|
      ensures c.Paying? && i != c.draft.invoice ==> Received(after.payments, i) == Received(db.payments, i)
    {
      if c.Paying? && |after.payments| > |db.payments| {
        ReceivedAppend(db.payments, after.payments[|db.payments|], i);
      }
    }
    if c.Voiding? {
      ReceivedBounds(db.payments, c.invoice);
      assert after.invoices[c.invoice].status == Void;
    }
  }

  /** The exact step at which an invoice ends void although it was paid. */
  lemma NextKeepsVoidExactly(s: System, step: Step)
    requires WellFormed(s) && VoidExact(s.db)
    ensures VoidExact(Next(s, step).db) <==> !VoidsPaid(s, step)
  {
    hide Received, Numbering.Allocate, ItemTotal, Write, ReadEdit, ReadPay, ReadVoid;
    match step
    case Finish(call) =>
      if call in s.calls {
        hide VoidExact;
        WriteKeepsVoidExactly(s.db, s.calls[call]);
      }
    case IssueInvoice(items, due) => ReceivedNothing(s.db.payments, |s.db.invoices|);
    case _ =>
  }

  predicate VoidsNothingPaid(s: System, steps: seq<Step>) {
    steps == [] ||
    (VoidsNothingPaid(s, steps[..|steps| - 1]) && !VoidsPaid(Run(s, steps[..|steps| - 1]), steps[|steps| - 1]))
  }

  /** In every run whose voids all write on invoices without receipts, void means nothing was paid. */
  lemma {:induction false} VoidMeansUnpaid(s: System, steps: seq<Step>)
    requires WellFormed(s) && VoidExact(s.db) && VoidsNothingPaid(s, steps)
    ensures WellFormed(Run(s, steps)) && VoidExact(Run(s, steps).db)
  {
    hide WellFormed, VoidExact, Next, VoidsPaid;
    if steps != [] {
      var front := steps[..|steps| - 1];
      VoidMeansUnpaid(s, front);
      NextKeepsWellFormed(Run(s, front), steps[|steps| - 1]);
      NextKeepsVoidExactly(Run(s, front), steps[|steps| - 1]);
    }
  }

  lemma NextKeepsWellFormed(s: System, step: Step)
    requires WellFormed(s)
    ensures WellFormed(Next(s, step))
  {
    hide Numbering.Allocate, ItemTotal, ParseItems;
  }

  /** A payment on invoice `i` that read it before and has still to write. */
  ghost predicate PaymentInFlight(s: System, i: nat) {
    exists c :: c in s.calls && s.calls[c].Paying? && s.calls[c].draft.invoice == i
  }

  /** A voided invoice stays void and unpaid for good if no payment on it was in flight when the
      void was written, whatever starts later. */
  lemma {:induction false} VoidIsFinalInRaces(s: System, steps: seq<Step>, i: nat)
    requires i < |s.db.invoices| && s.db.invoices[i].status == Void && !PaymentInFlight(s, i)
    ensures var end := Run(s, steps);
            && i < |end.db.invoices| && end.db.invoices[i].status == Void
            && Received(end.db.payments, i) == Received(s.db.payments, i) && !PaymentInFlight(end, i)
  {
    hide Next, PaymentInFlight;
    if steps != [] {
      VoidIsFinalInRaces(s, steps[..|steps| - 1], i);
      VoidedStep(Run(s, steps[..|steps| - 1]), steps[|steps| - 1], i);
    }
  }

  lemma VoidedStep(s: System, step: Step, i: nat)
    requires i < |s.db.invoices| && s.db.invoices[i].status == Void && !PaymentInFlight(s, i)
    ensures var after := Next(s, step);
            && i < |after.db.invoices| && after.db.invoices[i].status == Void
            && Received(after.db.payments, i) == Received(s.db.payments, i) && !PaymentInFlight(after, i)
  {
    hide Numbering.Allocate, ItemTotal, Received, ParseItems;
    var after := Next(s, step);
    if |after.db.payments| > |s.db.payments| {
      ReceivedAppend(s.db.payments, after.db.payments[|s.db.payments|], i);
    }
  }

  /** And only then: a payment that was in flight overwrites the void as it writes. */
  lemma PaymentOverwritesVoid(s: System, call: nat)
    requires call in s.calls && s.calls[call].Paying? && Targets(s.db, s.calls[call])
    requires Numbering.Allocate(PaymentCodes(s.db.payments)).Ok?
    ensures var i := s.calls[call].draft.invoice;
            var after := Next(s, Finish(call)).db;
            && i < |after.invoices| && after.invoices[i].status != Void
            && Received(after.payments, i) == Received(s.db.payments, i) + s.calls[call].draft.amount
  {
    hide Numbering.Allocate, ItemTotal, Received;
    var after := Next(s, Finish(call)).db;
    ReceivedAppend(s.db.payments, after.payments[|s.db.payments|], s.calls[call].draft.invoice);
  }

  // ---- where equality is lost, and where edits break safety ------------------------------

  /** What the books say was owed in all: the balance plus the receipts. */
  function Booked(db: Tables, invoice: nat): int
    requires invoice < |db.invoices|
  {
    db.invoices[invoice].balance + Received(db.payments, invoice)
  }

  /** One payment's write moves (balance + receipts - amount) by exactly how stale its read
      was, so the books stay exact precisely when it read the current balance. */
  lemma StalenessIsDrift(db: Tables, d: Draft, date: Calendar.Date)
    requires d.invoice < |db.invoices| && CommitPay(db, d, date).Ok?
    ensures Booked(CommitPay(db, d, date).value, d.invoice)
         == Booked(db, d.invoice) + (d.balance - db.invoices[d.invoice].balance)
    ensures var after := CommitPay(db, d, date).value;
            forall i | 0 <= i < |db.invoices| && i != d.invoice ::
              after.invoices[i] == db.invoices[i] && Received(after.payments, i) == Received(db.payments, i)
  {
    var after := CommitPay(db, d, date).value;
    var p := after.payments[|db.payments|];
    ReceivedAppend(db.payments, p, d.invoice);
    forall i | 0 <= i < |db.invoices| && i != d.invoice
      ensures Received(after.payments, i) == Received(db.payments, i)
    {
      ReceivedAppend(db.payments, p, i);
    }
  }

  lemma FourSteps(s: System, a: Step, b: Step, c: Step, d: Step)
    ensures Run(s, [a, b, c, d]) == Next(Next(Next(Next(s, a), b), c), d)
  {
    assert [a, b, c, d][..3] == [a, b, c] && [a, b, c][..2] == [a, b] && [a, b][..1] == [a] && [a][..0] == [];
    assert Run(s, []) == s;
    assert Run(s, [a]) == Next(s, a);
    assert Run(s, [a, b]) == Next(Run(s, [a]), b);
    assert Run(s, [a, b, c]) == Next(Run(s, [a, b]), c);
  }

  /** One issued invoice, nothing paid and nothing in flight. */
  function OneInvoice(items: seq<Item>): System {
    System(Tables([Invoice(1015, items, ItemTotal(items), ItemTotal(items), Due, 0, None)], []), map[])
  }

  /** Everything the results above ask of a start. */
  ghost predicate GoodBooks(s: System) {
    Sound(s) && GuardExact(s.db) && VoidExact(s.db) && Exact(s.db) && s.calls == map[]
  }

  lemma OneInvoiceIsGood(items: seq<Item>)
    ensures GoodBooks(OneInvoice(items))
  {
  }

  lemma FirstReceipt(invoices: seq<Invoice>, d: Draft, date: Calendar.Date)
    requires d.invoice < |invoices|
    ensures var db := Tables(invoices, []);
            && CommitPay(db, d, date).Ok?
            && CommitPay(db, d, date).value.payments == [Payment(1015, d.invoice, d.amount, date)]
            && Received(CommitPay(db, d, date).value.payments, d.invoice) == d.amount
  {
    Numbering.CappedSequence([], 0);
    assert PaymentCodes([]) == [];
    ReceivedAppend([], Payment(1015, d.invoice, d.amount, date), d.invoice);
    assert [] + [Payment(1015, d.invoice, d.amount, date)] == [Payment(1015, d.invoice, d.amount, date)];
  }

  lemma SecondReceipt(invoices: seq<Invoice>, first: Payment, d: Draft, date: Calendar.Date)
    requires d.invoice < |invoices| && first.code == 1015 && first.invoice == d.invoice
    ensures var db := Tables(invoices, [first]);
            && CommitPay(db, d, date).Ok?
            && Received(CommitPay(db, d, date).value.payments, d.invoice) == first.amount + d.amount
  {
    Numbering.CappedSequence([], 1);
    assert Numbering.Attempts([], 1) == [1015];
    assert PaymentCodes([first]) == [1015];
    ReceivedAppend([], first, d.invoice);
    assert [] + [first] == [first];
    ReceivedAppend([first], Payment(1016, d.invoice, d.amount, date), d.invoice);
  }

  /** Two payments in full whose reads overlap both go through: twice the money is received
      against a balance of zero. */
  lemma OverlapChargesTwice(items: seq<Item>, date: Calendar.Date)
    requires ItemTotal(items) > 0
    ensures var a := ItemTotal(items);
            var end := Run(OneInvoice(items), [StartPay(1, 0, a, date), StartPay(2, 0, a, date), Finish(1), Finish(2)]).db;
            && |end.invoices| == 1 && end.invoices[0].balance == 0 && end.invoices[0].status == Paid
            && Received(end.payments, 0) == 2 * a
    ensures GoodBooks(OneInvoice(items))
  {
    OneInvoiceIsGood(items);
    hide Numbering.Allocate, ItemTotal, Received, Run;
    var a := ItemTotal(items);
    var s := OneInvoice(items);
    FourSteps(s, StartPay(1, 0, a, date), StartPay(2, 0, a, date), Finish(1), Finish(2));
    var both := Next(Next(s, StartPay(1, 0, a, date)), StartPay(2, 0, a, date));
    assert both == System(s.db, map[1 := Paying(Draft(0, a, a), date), 2 := Paying(Draft(0, a, a), date)]);
    FirstReceipt(s.db.invoices, Draft(0, a, a), date);
    var once := Next(both, Finish(1));
    SecondReceipt(once.db.invoices, once.db.payments[0], Draft(0, a, a), date);
  }

  /** When an edit to a total of `a` writes between a payment's read and its write, the books
      stay safe exactly when `a` lies between the balance the payment will write and the balance
      it read plus what was received. Outside that range the write forgives or invents debt. */
  lemma EditDuringPayment(db: Tables, d: Draft, date: Calendar.Date, items: seq<Item>)
    requires PaymentsWellFormed(db) && Backed(db, d)
    requires CommitPay(CommitEdit(db, d.invoice, items), d, date).Ok?
    ensures Safe(CommitPay(CommitEdit(db, d.invoice, items), d, date).value, d.invoice)
       <==> d.balance - d.amount <= ItemTotal(items) <= d.balance + Received(db.payments, d.invoice)
  {
    hide Numbering.Allocate, ItemTotal, Received;
    var after := CommitPay(CommitEdit(db, d.invoice, items), d, date).value;
    ReceivedAppend(db.payments, after.payments[|db.payments|], d.invoice);
  }

  /** An edit that starts inside a payment, writes first and raises the total leaves the payment's
      stale write to forgive the increase: all but the first total counts as paid unreceived. */
  lemma EditForgivesDebt(items: seq<Item>, raw: seq<RawItem>, date: Calendar.Date)
    requires ItemTotal(items) > 0 && ParseItems(raw).Ok? && ItemTotal(ParseItems(raw).value) > ItemTotal(items)
    ensures var a := ItemTotal(items);
            var end := Run(OneInvoice(items), [StartPay(1, 0, a, date), StartEdit(2, 0, raw), Finish(2), Finish(1)]).db;
            && |end.invoices| == 1 && end.invoices[0].status == Paid && end.invoices[0].balance == 0
            && end.invoices[0].amount == ItemTotal(ParseItems(raw).value) && Received(end.payments, 0) == a
            && !Safe(end, 0)
    ensures GoodBooks(OneInvoice(items))
  {
    OneInvoiceIsGood(items);
    hide Numbering.Allocate, ItemTotal, Received, ParseItems, Run;
    var a := ItemTotal(items);
    var s := OneInvoice(items);
    FourSteps(s, StartPay(1, 0, a, date), StartEdit(2, 0, raw), Finish(2), Finish(1));
    var both := Next(Next(s, StartPay(1, 0, a, date)), StartEdit(2, 0, raw));
    assert both.calls == map[1 := Paying(Draft(0, a, a), date), 2 := Editing(0, ParseItems(raw).value)];
    var edited := Next(both, Finish(2));
    FirstReceipt(edited.db.invoices, Draft(0, a, a), date);
  }

  /** An edit that starts before a payment and writes after it breaks the promise of the guard: the
      amount is rewritten and the balance reset although the tenant has paid. The balances stay safe. */
  lemma EditOverwritesPayment(items: seq<Item>, raw: seq<RawItem>, date: Calendar.Date)
    requires ItemTotal(items) > 0 && ParseItems(raw).Ok?
    ensures var a := ItemTotal(items);
            var steps := [StartEdit(1, 0, raw), StartPay(2, 0, a, date), Finish(2), Finish(1)];
            var end := Run(OneInvoice(items), steps).db;
            && QuietRun(OneInvoice(items), steps)
            && |end.invoices| == 1 && Received(end.payments, 0) == a
            && end.invoices[0].balance == end.invoices[0].amount == ItemTotal(ParseItems(raw).value)
            && Safe(end, 0) && !GuardExact(end)
    ensures GoodBooks(OneInvoice(items))
  {
    OneInvoiceIsGood(items);
    hide Numbering.Allocate, ItemTotal, Received, ParseItems, Run;
    var a := ItemTotal(items);
    var s := OneInvoice(items);
    FourSteps(s, StartEdit(1, 0, raw), StartPay(2, 0, a, date), Finish(2), Finish(1));
    var both := Next(Next(s, StartEdit(1, 0, raw)), StartPay(2, 0, a, date));
    assert both == System(s.db, map[1 := Editing(0, ParseItems(raw).value), 2 := Paying(Draft(0, a, a), date)]);
    FirstReceipt(s.db.invoices, Draft(0, a, a), date);
    var paid := Next(both, Finish(2));
    assert paid.calls == map[1 := Editing(0, ParseItems(raw).value)];
    QuietByPrefix(s, StartEdit(1, 0, raw), StartPay(2, 0, a, date), Finish(2), Finish(1));
  }

  lemma QuietByPrefix(s: System, a: Step, b: Step, c: Step, d: Step)
    requires Quiet(s, a) && Quiet(Next(s, a), b) && Quiet(Next(Next(s, a), b), c) && Quiet(Next(Next(Next(s, a), b), c), d)
    ensures QuietRun(s, [a, b, c, d])
  {
    hide Quiet, Next;
    assert [a, b, c, d][..3] == [a, b, c] && [a, b, c][..2] == [a, b] && [a, b][..1] == [a] && [a][..0] == [];
    assert Run(s, []) == s;
    assert Run(s, [a]) == Next(s, a);
    assert Run(s, [a, b]) == Next(Run(s, [a]), b);
    assert Run(s, [a, b, c]) == Next(Run(s, [a, b]), c);
    assert QuietRun(s, []) && QuietRun(s, [a]) && QuietRun(s, [a, b]) && QuietRun(s, [a, b, c]);
  }

  /** A void that starts before a payment and writes after it voids a paid invoice. */
  lemma VoidAfterPayment(items: seq<Item>, date: Calendar.Date)
    requires ItemTotal(items) > 0
    ensures var a := ItemTotal(items);
            var end := Run(OneInvoice(items), [StartVoid(1, 0), StartPay(2, 0, a, date), Finish(2), Finish(1)]).db;
            |end.invoices| == 1 && end.invoices[0].status == Void && Received(end.payments, 0) == a && !VoidExact(end)
    ensures GoodBooks(OneInvoice(items))
  {
    OneInvoiceIsGood(items);
    hide Numbering.Allocate, ItemTotal, Received, Run, GoodBooks;
    var a := ItemTotal(items);
    var s := OneInvoice(items);
    FourSteps(s, StartVoid(1, 0), StartPay(2, 0, a, date), Finish(2), Finish(1));
    var both := Next(Next(s, StartVoid(1, 0)), StartPay(2, 0, a, date));
    assert both == System(s.db, map[1 := Voiding(0), 2 := Paying(Draft(0, a, a), date)]);
    FirstReceipt(s.db.invoices, Draft(0, a, a), date);
    var paid := Next(both, Finish(2));
    assert paid.calls == map[1 := Voiding(0)];
  }

  /** A payment that starts before a void and writes after it overwrites the void. */
  lemma PaymentAfterVoid(items: seq<Item>, date: Calendar.Date)
    requires ItemTotal(items) > 0
    ensures var a := ItemTotal(items);
            var steps := [StartPay(2, 0, a, date), StartVoid(1, 0), Finish(1), Finish(2)];
            var voided := Next(Next(Next(OneInvoice(items), steps[0]), steps[1]), steps[2]).db;
            var end := Run(OneInvoice(items), steps).db;
            && |voided.invoices| == 1 && voided.invoices[0].status == Void
            && |end.invoices| == 1 && end.invoices[0].status == Paid && Received(end.payments, 0) == a
    ensures GoodBooks(OneInvoice(items))
  {
    OneInvoiceIsGood(items);
    hide Numbering.Allocate, ItemTotal, Received, Run, GoodBooks;
    var a := ItemTotal(items);
    var s := OneInvoice(items);
    FourSteps(s, StartPay(2, 0, a, date), StartVoid(1, 0), Finish(1), Finish(2));
    var both := Next(Next(s, StartPay(2, 0, a, date)), StartVoid(1, 0));
    assert both == System(s.db, map[2 := Paying(Draft(0, a, a), date), 1 := Voiding(0)]);
    var voided := Next(both, Finish(1));
    FirstReceipt(voided.db.invoices, Draft(0, a, a), date);
  }

  // ---- what no interleaving can rewrite ----------------------------------------------------

  /** Receipts are only ever appended, and an invoice keeps its number and due date. */
  ghost predicate Extends(a: Tables, b: Tables) {
    && a.payments <= b.payments && |a.invoices| <= |b.invoices|
    && forall i | 0 <= i < |a.invoices| :: b.invoices[i].code == a.invoices[i].code && b.invoices[i].due == a.invoices[i].due
  }

  lemma NextExtends(s: System, step: Step)
    ensures Extends(s.db, Next(s, step).db)
  {
    hide Numbering.Allocate, ItemTotal, ParseItems;
  }

  lemma {:induction false} HistoryIsAppendOnly(s: System, steps: seq<Step>)
    ensures Extends(s.db, Run(s, steps).db)
  {
    if steps != [] {
      HistoryIsAppendOnly(s, steps[..|steps| - 1]);
      NextExtends(Run(s, steps[..|steps| - 1]), steps[|steps| - 1]);
    }
  }

  /** Codes drawn so far continue `start` by consecutive numbers and stop for good at the cap. */
  ghost predicate Continues(start: seq<nat>, codes: seq<nat>) {
    && |start| <= |codes| && |codes| - |start| <= Numbering.CAP - Numbering.CappedMax(start)
    && codes == start + Numbering.Following(Numbering.CappedMax(start), |codes| - |start|)
  }

  lemma DrawContinues(start: seq<nat>, codes: seq<nat>, code: nat)
    requires Numbering.CAP !in start && Continues(start, codes) && Numbering.Allocate(codes) == Ok(code)
    ensures Continues(start, codes + [code])
  {
    var n := |codes| - |start|;
    var base := Numbering.CappedMax(start);
    Numbering.NextAfterFollowing(start, n);
    Numbering.FollowingGrows(start, base, n + 1);
  }

  lemma NextContinues(s: System, step: Step, receipts: seq<nat>, invoices: seq<nat>)
    requires Numbering.CAP !in receipts && Continues(receipts, PaymentCodes(s.db.payments))
    requires Numbering.CAP !in invoices && Continues(invoices, InvoiceCodes(s.db.invoices))
    ensures Continues(receipts, PaymentCodes(Next(s, step).db.payments))
    ensures Continues(invoices, InvoiceCodes(Next(s, step).db.invoices))
  {
    hide Numbering.Allocate, Continues, ItemTotal, ParseItems;
    var before, after := s.db, Next(s, step).db;
    NextExtends(s, step);
    if |after.payments| > |before.payments| {
      var code := after.payments[|before.payments|].code;
      assert PaymentCodes(after.payments) == PaymentCodes(before.payments) + [code];
      DrawContinues(receipts, PaymentCodes(before.payments), code);
    } else {
      assert after.payments == before.payments;
    }
    if |after.invoices| > |before.invoices| {
      var code := after.invoices[|before.invoices|].code;
      assert InvoiceCodes(after.invoices) == InvoiceCodes(before.invoices) + [code];
      DrawContinues(invoices, InvoiceCodes(before.invoices), code);
    } else {
      assert InvoiceCodes(after.invoices) == InvoiceCodes(before.invoices);
    }
  }

  /** In every interleaving the receipt and invoice numbers run on without gap or repeat from the
      starting tables, up to 5000 and no further: no run holds more receipts than that leaves. */
  lemma {:induction false} NumbersRunOn(s: System, steps: seq<Step>)
    requires Numbering.CAP !in PaymentCodes(s.db.payments) && Numbering.CAP !in InvoiceCodes(s.db.invoices)
    ensures Continues(PaymentCodes(s.db.payments), PaymentCodes(Run(s, steps).db.payments))
    ensures Continues(InvoiceCodes(s.db.invoices), InvoiceCodes(Run(s, steps).db.invoices))
  {
    var receipts, invoices := PaymentCodes(s.db.payments), InvoiceCodes(s.db.invoices);
    if steps == [] {
      Numbering.FollowingGrows(receipts, Numbering.CappedMax(receipts), 0);
      Numbering.FollowingGrows(invoices, Numbering.CappedMax(invoices), 0);
    } else {
      NumbersRunOn(s, steps[..|steps| - 1]);
      NextContinues(Run(s, steps[..|steps| - 1]), steps[|steps| - 1], receipts, invoices);
    }
  }

  // ---- serial runs are the interleavings without overlap ---------------------------------

  function AsSteps(op: Op): seq<Step> {
    match op
    case IssueOp(items, due) => [IssueInvoice(items, due)]
    case PayOp(invoice, requested, date) => [StartPay(0, invoice, requested, date), Finish(0)]
    case EditOp(invoice, raw) => [StartEdit(0, invoice, raw), Finish(0)]
    case VoidOp(invoice) => [StartVoid(0, invoice), Finish(0)]
  }

  function AllSteps(ops: seq<Op>): seq<Step> {
    if ops == [] then [] else AllSteps(ops[..|ops| - 1]) + AsSteps(ops[|ops| - 1])
  }

  lemma {:induction false} RunConcat(s: System, a: seq<Step>, b: seq<Step>)
    ensures Run(s, a + b) == Run(Run(s, a), b)
  {
    if b == [] {
      assert a + b == a;
    } else {
      RunConcat(s, a, b[..|b| - 1]);
      assert (a + b)[..|a + b| - 1] == a + b[..|b| - 1];
    }
  }

  lemma OneCall(db: Tables, op: Op)
    ensures Run(System(db, map[]), AsSteps(op)) == System(Apply(db, op), map[])
  {
    var s := System(db, map[]);
    var steps := AsSteps(op);
    assert Run(s, []) == s;
    if op.IssueOp? {
      assert steps[..0] == [];
    } else {
      assert steps[..1] == [steps[0]] && steps[..1][..0] == [];
      var t := Run(s, steps[..1]);
      assert t == Next(s, steps[0]);
      assert Run(s, steps) == Next(t, Finish(0));
      assert map[] == t.calls - {0};
    }
  }

  /** Calls that do not overlap give exactly the serial semantics. */
  lemma {:induction false} SerialIsNoOverlap(db: Tables, ops: seq<Op>)
    ensures Run(System(db, map[]), AllSteps(ops)) == System(ApplyAll(db, ops), map[])
  {
    if ops != [] {
      var front := ops[..|ops| - 1];
      SerialIsNoOverlap(db, front);
      RunConcat(System(db, map[]), AllSteps(front), AsSteps(ops[|ops| - 1]));
      OneCall(ApplyAll(db, front), ops[|ops| - 1]);
    }
  }

  /** Hence equality, and not only the inequality, holds when no two calls overlap. */
  lemma NoOverlapIsExact(db: Tables, ops: seq<Op>)
    requires Exact(db)
    ensures Exact(Run(System(db, map[]), AllSteps(ops)).db)
  {
    SerialIsNoOverlap(db, ops);
    SerialRunsBalance(db, ops);
  }

  // ---- equality invoice by invoice ---------------------------------------------------------

  function TargetOf(c: InFlight): nat {
    match c
    case Paying(d, _) => d.invoice
    case Editing(invoice, _) => invoice
    case Voiding(invoice) => invoice
  }

  predicate StartsOn(step: Step, i: nat) {
    match step
    case StartPay(_, invoice, _, _) => invoice == i
    case StartEdit(_, invoice, _) => invoice == i
    case StartVoid(_, invoice) => invoice == i
    case _ => false
  }

  /** No call on invoice `i` starts while another one on it is in flight. */
  ghost predicate Apart(s: System, step: Step, i: nat) {
    StartsOn(step, i) ==> forall c | c in s.calls :: TargetOf(s.calls[c]) != i
  }

  ghost predicate ApartRun(s: System, steps: seq<Step>, i: nat) {
    steps == [] || (ApartRun(s, steps[..|steps| - 1], i) && Apart(Run(s, steps[..|steps| - 1]), steps[|steps| - 1], i))
  }

  /** What a call read is still what the tables hold. */
  predicate Current(db: Tables, c: InFlight)
    requires TargetOf(c) < |db.invoices|
  {
    var inv := db.invoices[TargetOf(c)];
    && inv.status != Void
    && match c
       case Paying(d, _) => 0 < d.amount <= d.balance == inv.balance
       case Editing(_, _) => inv.balance == inv.amount
       case Voiding(_) => inv.balance == inv.amount
  }

  ghost predicate WellFormed(s: System) {
    && PaymentsWellFormed(s.db)
    && forall c | c in s.calls :: TargetOf(s.calls[c]) < |s.db.invoices| && (s.calls[c].Paying? ==> s.calls[c].draft.amount > 0)
  }

  /** The books of invoice `i` balance and at most one call, with a current read, is about to write it. */
  ghost predicate Settled(s: System, i: nat) {
    && WellFormed(s)
    && (i < |s.db.invoices| ==> Balanced(s.db, i))
    && (forall c | c in s.calls && TargetOf(s.calls[c]) == i :: Current(s.db, s.calls[c]))
    && (forall c, d | c in s.calls && d in s.calls && TargetOf(s.calls[c]) == i == TargetOf(s.calls[d]) :: c == d)
  }

  lemma WriteKeepsOthers(db: Tables, c: InFlight, i: nat)
    requires TargetOf(c) < |db.invoices| && TargetOf(c) != i && i < |db.invoices| && Balanced(db, i)
    ensures |Write(db, c).invoices| == |db.invoices| && Write(db, c).invoices[i] == db.invoices[i]
    ensures Balanced(Write(db, c), i)
  {
    hide ItemTotal, Received, Numbering.Allocate;
    var after := Write(db, c);
    if c.Paying? && |after.payments| > |db.payments| {
      ReceivedAppend(db.payments, after.payments[|db.payments|], i);
    }
  }

  lemma CurrentWriteKeepsBalance(db: Tables, c: InFlight)
    requires PaymentsWellFormed(db) && TargetOf(c) < |db.invoices| && Balanced(db, TargetOf(c)) && Current(db, c)
    ensures |Write(db, c).invoices| == |db.invoices| && Balanced(Write(db, c), TargetOf(c))
  {
    hide ItemTotal, Received, Numbering.Allocate;
    var i := TargetOf(c);
    var after := Write(db, c);
    ReceivedBounds(db.payments, i);
    if c.Paying? && |after.payments| > |db.payments| {
      ReceivedAppend(db.payments, after.payments[|db.payments|], i);
    }
  }

  lemma FinishKeepsSettled(s: System, call: nat, i: nat)
    requires Settled(s, i) && call in s.calls
    ensures Settled(Next(s, Finish(call)), i)
  {
    hide Balanced, Received, ItemTotal, Numbering.Allocate;
    var c := s.calls[call];
    if i < |s.db.invoices| {
      if TargetOf(c) == i {
        CurrentWriteKeepsBalance(s.db, c);
      } else {
        WriteKeepsOthers(s.db, c, i);
      }
    }
    assert PaymentsWellFormed(Write(s.db, c));
  }

  lemma NextKeepsSettled(s: System, step: Step, i: nat)
    requires Settled(s, i) && Apart(s, step, i)
    ensures Settled(Next(s, step), i)
  {
    hide Settled;
    match step
    case Finish(call) =>
      if call in s.calls {
        FinishKeepsSettled(s, call, i);
      }
    case IssueInvoice(items, due) => IssueKeepsSettled(s, items, due, i);
    case _ => StartKeepsSettled(s, step, i);
  }

  lemma StartKeepsSettled(s: System, step: Step, i: nat)
    requires Settled(s, i) && Apart(s, step, i) && (step.StartPay? || step.StartEdit? || step.StartVoid?)
    ensures Settled(Next(s, step), i)
  {
    hide ItemTotal, Received, Numbering.Allocate, ParseItems, Balanced;
  }

  lemma IssueKeepsSettled(s: System, items: seq<Item>, due: int, i: nat)
    requires Settled(s, i)
    ensures Settled(Next(s, IssueInvoice(items, due)), i)
  {
    hide ItemTotal, Received, Numbering.Allocate;
    ReceivedNothing(s.db.payments, |s.db.invoices|);
  }

  /** Equality needs only that no two calls on the same invoice overlap: then that invoice's balance
      plus receipts is its amount and its status is read off the ledger, whatever overlaps elsewhere. */
  lemma {:induction false} ApartIsExact(s: System, steps: seq<Step>, i: nat)
    requires Settled(s, i) && ApartRun(s, steps, i)
    ensures Settled(Run(s, steps), i)
    ensures i < |Run(s, steps).db.invoices| ==> Balanced(Run(s, steps).db, i)
  {
    if steps != [] {
      var front := steps[..|steps| - 1];
      ApartIsExact(s, front, i);
      NextKeepsSettled(Run(s, front), steps[|steps| - 1], i);
    }
  }
}
