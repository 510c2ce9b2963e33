/** Invoices and receipts in integer cents: issuing, editing, voiding and paying, each call
    split into the read it decides on and the write it later makes. */
module Ledger {
  import opened Outcomes
  import Calendar
  import Numbering

  datatype InvoiceStatus = Due | Partial | Paid | Void

  datatype Item = Item(title: string, amount: nat)

  /** `due` is a day number; `overdueNotifiedAt` is the overdue job's stamp. */
  datatype Invoice = Invoice(code: nat, items: seq<Item>, amount: int, balance: int,
                             status: InvoiceStatus, due: int, overdueNotifiedAt: Option<int>)

  datatype Payment = Payment(code: nat, invoice: nat, amount: int, date: Calendar.Date)

  /** Rows are never deleted, so a row's index is its id. */
  datatype Tables = Tables(invoices: seq<Invoice>, payments: seq<Payment>)

  /** What a payment read before its transaction: the invoice, its balance, and the capped amount. */
  datatype Draft = Draft(invoice: nat, balance: int, amount: int)

  function Min(a: int, b: int): int {
    if a < b then a else b
  }

  function ItemTotal(items: seq<Item>): nat {
    if items == [] then 0 else ItemTotal(items[..|items| - 1]) + items[|items| - 1].amount
  }

  /** Sum of the receipts recorded against one invoice. */
  function Received(payments: seq<Payment>, invoice: nat): int {
    if payments == [] then 0
    else
      var last := payments[|payments| - 1];
      Received(payments[..|payments| - 1], invoice) + (if last.invoice == invoice then last.amount else 0)
  }

  function InvoiceCodes(invoices: seq<Invoice>): (codes: seq<nat>)
    ensures |codes| == |invoices| && forall i | 0 <= i < |codes| :: codes[i] == invoices[i].code
  {
    seq(|invoices|, i requires 0 <= i < |invoices| => invoices[i].code)
  }

  function PaymentCodes(payments: seq<Payment>): (codes: seq<nat>)
    ensures |codes| == |payments| && forall i | 0 <= i < |codes| :: codes[i] == payments[i].code
  {
    seq(|payments|, i requires 0 <= i < |payments| => payments[i].code)
  }

  // ---- the wire form of line items -----------------------------------------------------

  /** One element of the request's `items`: a [label, amount] pair, or anything else. */
  datatype RawItem = Pair(title: string, amount: int) | Malformed

  predicate Acceptable(raw: RawItem) {
    raw.Pair? && raw.amount >= 0
  }

  /** `parseItems`: converts every row, throwing at the first unacceptable one. */
  function ParseItems(raw: seq<RawItem>): (r: Result<seq<Item>>)
    ensures r.Ok? <==> forall row | row in raw :: Acceptable(row)
    ensures r.Ok? ==> |r.value| == |raw| && forall i | 0 <= i < |raw| ::
                        Acceptable(raw[i]) && r.value[i].title == raw[i].title && r.value[i].amount == raw[i].amount
    ensures r.Err? ==> r.error.BadItem? && r.error.index < |raw| && !Acceptable(raw[r.error.index])
                       && forall i | 0 <= i < r.error.index :: Acceptable(raw[i])
  {
    if raw == [] then Ok([])
    else
      match ParseItems(raw[..|raw| - 1])
      case Err(e) => Err(e)
      case Ok(items) =>
        var last := raw[|raw| - 1];
        if Acceptable(last) then Ok(items + [Item(last.title, last.amount)]) else Err(BadItem(|raw| - 1))
  }

  // ---- each call as a read and a write -------------------------------------------------

  function Issue(db: Tables, items: seq<Item>, due: int): Result<Tables> {
    match Numbering.Allocate(InvoiceCodes(db.invoices))
    case Err(e) => Err(e)
    case Ok(code) =>
      var amount := ItemTotal(items);
      Ok(db.(invoices := db.invoices + [Invoice(code, items, amount, amount, Due, due, None)]))
  }

  function ReadPay(db: Tables, invoice: nat, requested: int): Result<Draft> {
    if invoice >= |db.invoices| then Err(NotFound)
    else
      var inv := db.invoices[invoice];
      if inv.status == Void then Err(BadRequest("voided"))
      else if inv.balance <= 0 then Err(BadRequest("already fully paid"))
      else
        var amount := Min(requested, inv.balance);
        if amount <= 0 then Err(BadRequest("invalid amount"))
        else Ok(Draft(invoice, inv.balance, amount))
  }

  function CommitPay(db: Tables, d: Draft, date: Calendar.Date): Result<Tables>
    requires d.invoice < |db.invoices|
  {
    match Numbering.Allocate(PaymentCodes(db.payments))
    case Err(e) => Err(e)
    case Ok(code) =>
      var balance := d.balance - d.amount;
      Ok(Tables(db.invoices[d.invoice := db.invoices[d.invoice].(
                              balance := balance, status := if balance <= 0 then Paid else Partial)],
                db.payments + [Payment(code, d.invoice, d.amount, date)]))
  }

  function ReadEdit(db: Tables, invoice: nat, raw: seq<RawItem>): Result<seq<Item>> {
    if invoice >= |db.invoices| then Err(NotFound)
    else if db.invoices[invoice].status == Void then Err(BadRequest("voided"))
    else if db.invoices[invoice].balance != db.invoices[invoice].amount then Err(BadRequest("already has a payment"))
    else ParseItems(raw)
  }

  function CommitEdit(db: Tables, invoice: nat, items: seq<Item>): Tables
    requires invoice < |db.invoices|
  {
    var amount := ItemTotal(items);
    db.(invoices := db.invoices[invoice := db.invoices[invoice].(items := items, amount := amount, balance := amount)])
  }

  function ReadVoid(db: Tables, invoice: nat): Result<()> {
    if invoice >= |db.invoices| then Err(NotFound)
    else if db.invoices[invoice].status == Void then Err(BadRequest("already voided"))
    else if db.invoices[invoice].balance != db.invoices[invoice].amount then Err(BadRequest("already has a payment"))
    else Ok(())
  }

  function CommitVoid(db: Tables, invoice: nat): Tables
    requires invoice < |db.invoices|
  {
    db.(invoices := db.invoices[invoice := db.invoices[invoice].(status := Void)])
  }

  // ---- serial calls ----------------------------------------------------------------------

  datatype Op =
    | IssueOp(items: seq<Item>, due: int)
    | PayOp(invoice: nat, requested: int, date: Calendar.Date)
    | EditOp(invoice: nat, raw: seq<RawItem>)
    | VoidOp(invoice: nat)

  function Pay(db: Tables, invoice: nat, requested: int, date: Calendar.Date): Result<Tables> {
    match ReadPay(db, invoice, requested)
    case Err(e) => Err(e)
    case Ok(d) => CommitPay(db, d, date)
  }

  function Edit(db: Tables, invoice: nat, raw: seq<RawItem>): Result<Tables> {
    match ReadEdit(db, invoice, raw)
    case Err(e) => Err(e)
    case Ok(items) => Ok(CommitEdit(db, invoice, items))
  }

  function VoidInvoice(db: Tables, invoice: nat): Result<Tables> {
    match ReadVoid(db, invoice)
    case Err(e) => Err(e)
    case Ok(_) => Ok(CommitVoid(db, invoice))
  }

  function Call(db: Tables, op: Op): Result<Tables> {
    match op
    case IssueOp(items, due) => Issue(db, items, due)
    case PayOp(invoice, requested, date) => Pay(db, invoice, requested, date)
    case EditOp(invoice, raw) => Edit(db, invoice, raw)
    case VoidOp(invoice) => VoidInvoice(db, invoice)
  }

  function Apply(db: Tables, op: Op): Tables {
    match Call(db, op) case Ok(after) => after case Err(_) => db
  }

  function ApplyAll(db: Tables, ops: seq<Op>): Tables {
    if ops == [] then db else Apply(ApplyAll(db, ops[..|ops| - 1]), ops[|ops| - 1])
  }

  ghost predicate PaymentsWellFormed(db: Tables) {
    forall p | p in db.payments :: p.invoice < |db.invoices| && p.amount > 0
  }

  ghost predicate HasReceipt(db: Tables, invoice: nat) {
    exists p :: p in db.payments && p.invoice == invoice
  }

  /** The books of one invoice balance, and its status can be read off the ledger. */
  ghost predicate Balanced(db: Tables, invoice: nat)
    requires invoice < |db.invoices|
  {
    var inv := db.invoices[invoice];
    && inv.balance + Received(db.payments, invoice) == inv.amount == ItemTotal(inv.items)
    && match inv.status
       case Due => Received(db.payments, invoice) == 0
       case Void => Received(db.payments, invoice) == 0
       case Partial => Received(db.payments, invoice) > 0 && inv.balance > 0
       case Paid => Received(db.payments, invoice) > 0 && inv.balance == 0
  }

  ghost predicate Exact(db: Tables) {
    PaymentsWellFormed(db) && forall i | 0 <= i < |db.invoices| :: Balanced(db, i)
  }

  lemma {:induction false} ReceivedBounds(payments: seq<Payment>, invoice: nat)
    requires forall p | p in payments :: p.amount > 0
    ensures Received(payments, invoice) >= 0
    ensures Received(payments, invoice) > 0 <==> exists p :: p in payments && p.invoice == invoice
  {
    if payments != [] {
      var front, last := payments[..|payments| - 1], payments[|payments| - 1];
      ReceivedBounds(front, invoice);
      if exists p :: p in payments && p.invoice == invoice {
        var p :| p in payments && p.invoice == invoice;
        assert p in front || p == last;
      }
      assert last in payments;
    }
  }

  lemma {:induction false} ReceivedNothing(payments: seq<Payment>, invoice: nat)
    requires forall p | p in payments :: p.invoice != invoice
    ensures Received(payments, invoice) == 0
  {
    if payments != [] {
      assert payments[|payments| - 1] in payments;
      ReceivedNothing(payments[..|payments| - 1], invoice);
    }
  }

  lemma ReceivedAppend(payments: seq<Payment>, p: Payment, invoice: nat)
    ensures Received(payments + [p], invoice)
         == Received(payments, invoice) + (if p.invoice == invoice then p.amount else 0)
  {
    assert (payments + [p])[..|payments|] == payments;
  }

  lemma ApplyKeepsExact(db: Tables, op: Op)
    requires Exact(db)
    ensures Exact(Apply(db, op))
  {
    hide Numbering.Allocate, Received, ItemTotal, ParseItems;
    var after := Apply(db, op);
    forall i | 0 <= i < |after.invoices|
      ensures Balanced(after, i)
    {
      if i < |db.invoices| {
        assert Balanced(db, i);
        ReceivedBounds(db.payments, i);
      } else {
        ReceivedNothing(db.payments, i);
      }
      if op.PayOp? && |after.payments| > |db.payments| {
        ReceivedAppend(db.payments, after.payments[|db.payments|], i);
      }
    }
  }

  /** Money is conserved exactly in every serial run: balance plus receipts is the amount,
      which is the sum of the line items, and the status is determined by the ledger. */
  lemma {:induction false} SerialRunsBalance(db: Tables, ops: seq<Op>)
    requires Exact(db)
    ensures Exact(ApplyAll(db, ops))
  {
    if ops != [] {
      SerialRunsBalance(db, ops[..|ops| - 1]);
      ApplyKeepsExact(ApplyAll(db, ops[..|ops| - 1]), ops[|ops| - 1]);
    }
  }

  /** The guard `balance = amount` that edits and voids rely on says exactly that no receipt exists. */
  lemma GuardMeansNoReceipt(db: Tables, ops: seq<Op>, invoice: nat)
    requires Exact(db) && invoice < |ApplyAll(db, ops).invoices|
    ensures var end := ApplyAll(db, ops);
            end.invoices[invoice].balance == end.invoices[invoice].amount <==> !HasReceipt(end, invoice)
  {
    SerialRunsBalance(db, ops);
    var end := ApplyAll(db, ops);
    assert Balanced(end, invoice);
    ReceivedBounds(end.payments, invoice);
  }

  /** What a tenant's payment does to balanced books: it is taken exactly on an issued, unvoided
      invoice still owing money while receipt numbers last; paying what is owed or more settles the
      invoice with a receipt for exactly what was owed, paying less leaves the rest owing. */
  lemma PaymentOutcome(db: Tables, invoice: nat, requested: int, date: Calendar.Date)
    requires Exact(db) && requested > 0
    ensures Pay(db, invoice, requested, date).Ok?
       <==> && invoice < |db.invoices| && (db.invoices[invoice].status == Due || db.invoices[invoice].status == Partial)
            && db.invoices[invoice].amount > 0 && Numbering.Allocate(PaymentCodes(db.payments)).Ok?
    ensures Pay(db, invoice, requested, date).Ok? ==>
      var owed := db.invoices[invoice].balance;
      var after := Pay(db, invoice, requested, date).value;
      && |after.payments| == |db.payments| + 1
      && var receipt := after.payments[|db.payments|];
      && receipt.invoice == invoice && receipt.date == date && after.payments[..|db.payments|] == db.payments
      && after.invoices == db.invoices[invoice := db.invoices[invoice].(
           balance := after.invoices[invoice].balance, status := after.invoices[invoice].status)]
      && (requested >= owed ==> after.invoices[invoice].status == Paid && receipt.amount == owed
                                && after.invoices[invoice].balance == 0)
      && (requested < owed ==> after.invoices[invoice].status == Partial && receipt.amount == requested
                               && after.invoices[invoice].balance == owed - requested)
  {
    if invoice < |db.invoices| {
      assert Balanced(db, invoice);
    }
  }

  /** Which refusal a payment, an edit or a void meets: an unknown invoice before a voided one before
      its balance, and a bad row only on an invoice that may be edited. */
  lemma BillingRefusals(db: Tables, invoice: nat, requested: int, raw: seq<RawItem>)
    requires invoice < |db.invoices|
    ensures var inv := db.invoices[invoice];
      var pay, edit, void := ReadPay(db, invoice, requested), ReadEdit(db, invoice, raw), ReadVoid(db, invoice);
      && (pay == Err(BadRequest("voided")) <==> inv.status == Void)
      && (pay == Err(BadRequest("already fully paid")) <==> inv.status != Void && inv.balance <= 0)
      && (pay == Err(BadRequest("invalid amount")) <==> inv.status != Void && inv.balance > 0 && requested <= 0)
      && (edit == Err(BadRequest("voided")) <==> inv.status == Void)
      && (edit == Err(BadRequest("already has a payment")) <==> inv.status != Void && inv.balance != inv.amount)
      && (edit.Err? && edit.error.BadItem? ==> inv.status != Void && inv.balance == inv.amount)
      && (void == Err(BadRequest("already voided")) <==> inv.status == Void)
      && (void == Err(BadRequest("already has a payment")) <==> inv.status != Void && inv.balance != inv.amount)
    ensures forall unknown: nat | unknown >= |db.invoices| ::
      ReadPay(db, unknown, requested) == Err(NotFound) && ReadEdit(db, unknown, raw) == Err(NotFound)
      && ReadVoid(db, unknown) == Err(NotFound)
  {
    hide ParseItems;
  }

  function RawOf(items: seq<Item>): (raw: seq<RawItem>)
    ensures |raw| == |items| && forall i | 0 <= i < |raw| :: raw[i] == Pair(items[i].title, items[i].amount)
    ensures forall row | row in raw :: Acceptable(row)
  {
    seq(|items|, i requires 0 <= i < |items| => Pair(items[i].title, items[i].amount))
  }

  /** Stored items sent back as a request parse to themselves. */
  lemma ItemsRoundTrip(items: seq<Item>)
    ensures ParseItems(RawOf(items)) == Ok(items)
  {
    hide ParseItems;
    assert forall row | row in RawOf(items) :: Acceptable(row);
    assert ParseItems(RawOf(items)).value == items;
  }

  /** An edit of balanced books goes through exactly on an unvoided invoice without receipts and
      with acceptable rows; it bills the sum of the new items, touches nothing else, and sending
      the old items back undoes it. */
  lemma EditOutcome(db: Tables, invoice: nat, raw: seq<RawItem>)
    requires Exact(db)
    ensures Edit(db, invoice, raw).Ok?
       <==> && invoice < |db.invoices| && db.invoices[invoice].status == Due
            && forall row | row in raw :: Acceptable(row)
    ensures Edit(db, invoice, raw).Ok? ==>
      var before, after := db.invoices[invoice], Edit(db, invoice, raw).value;
      && |after.invoices| == |db.invoices|
      && after.invoices[invoice].amount == after.invoices[invoice].balance == RawTotal(raw)
      && RawOf(after.invoices[invoice].items) == raw
      && after.invoices[invoice] == before.(items := after.invoices[invoice].items, amount := RawTotal(raw), balance := RawTotal(raw))
      && Edit(after, invoice, RawOf(before.items)) == Ok(db)
  {
    hide ParseItems, Received, Numbering.Allocate;
    if invoice < |db.invoices| {
      assert Balanced(db, invoice);
      if Edit(db, invoice, raw).Ok? {
        var before, after := db.invoices[invoice], Edit(db, invoice, raw).value;
        TotalOfParsed(raw);
        assert RawOf(after.invoices[invoice].items) == raw by {
          ParsedMatches(raw);
        }
        ItemsRoundTrip(before.items);
        assert Edit(after, invoice, RawOf(before.items)).value.invoices == db.invoices;
      }
    }
  }

  lemma ParsedMatches(raw: seq<RawItem>)
    requires ParseItems(raw).Ok?
    ensures RawOf(ParseItems(raw).value) == raw
  {
    hide ParseItems;
    forall i | 0 <= i < |raw|
      ensures RawOf(ParseItems(raw).value)[i] == raw[i]
    {
      assert Acceptable(raw[i]);
    }
  }

  function RawTotal(raw: seq<RawItem>): int
    requires forall row | row in raw :: Acceptable(row)
  {
    if raw == [] then 0
    else
      assert Acceptable(raw[|raw| - 1]);
      RawTotal(raw[..|raw| - 1]) + raw[|raw| - 1].amount
  }

  lemma {:induction false} TotalOfParsed(raw: seq<RawItem>)
    requires forall row | row in raw :: Acceptable(row)
    ensures ParseItems(raw).Ok? && ItemTotal(ParseItems(raw).value) == RawTotal(raw)
  {
    if raw != [] {
      TotalOfParsed(raw[..|raw| - 1]);
      assert raw[|raw| - 1] in raw;
    }
  }

  /** Voiding goes through exactly on a due invoice, and is final: whatever calls follow, the row
      stays as voided and no receipt is ever recorded against it. */
  lemma {:induction false} VoidIsFinal(db: Tables, invoice: nat, ops: seq<Op>)
    requires Exact(db)
    ensures VoidInvoice(db, invoice).Ok? <==> invoice < |db.invoices| && db.invoices[invoice].status == Due
    ensures VoidInvoice(db, invoice).Ok? ==>
      var end := ApplyAll(VoidInvoice(db, invoice).value, ops);
      && VoidInvoice(db, invoice).value == db.(invoices := db.invoices[invoice := db.invoices[invoice].(status := Void)])
      && invoice < |end.invoices| && end.invoices[invoice] == db.invoices[invoice].(status := Void)
      && !HasReceipt(end, invoice)
  {
    if invoice < |db.invoices| {
      assert Balanced(db, invoice);
      if VoidInvoice(db, invoice).Ok? {
        var voided := VoidInvoice(db, invoice).value;
        ApplyKeepsExact(db, VoidOp(invoice));
        VoidedRowStays(voided, invoice, ops);
        SerialRunsBalance(voided, ops);
        assert Balanced(ApplyAll(voided, ops), invoice);
        ReceivedBounds(ApplyAll(voided, ops).payments, invoice);
      }
    }
  }

  lemma {:induction false} VoidedRowStays(db: Tables, invoice: nat, ops: seq<Op>)
    requires invoice < |db.invoices| && db.invoices[invoice].status == Void
    ensures invoice < |ApplyAll(db, ops).invoices| && ApplyAll(db, ops).invoices[invoice] == db.invoices[invoice]
  {
    if ops != [] {
      VoidedRowStays(db, invoice, ops[..|ops| - 1]);
    }
  }

  /** Issuing an invoice appends one that is due for the sum of its items, unless its number is
      taken; the sum is every item's amount once. */
  lemma IssueOutcome(db: Tables, items: seq<Item>, due: int)
    ensures Issue(db, items, due).Ok? <==> Numbering.Allocate(InvoiceCodes(db.invoices)).Ok?
    ensures Issue(db, items, due).Ok? ==>
      var after := Issue(db, items, due).value;
      && after.payments == db.payments && |after.invoices| == |db.invoices| + 1
      && after.invoices[..|db.invoices|] == db.invoices
      && var inv := after.invoices[|db.invoices|];
      && inv.items == items && inv.due == due && inv.status == Due && inv.overdueNotifiedAt == None
      && inv.amount == inv.balance == RawTotal(RawOf(items))
  {
    hide Numbering.Allocate, ParseItems, ItemTotal;
    ItemsRoundTrip(items);
    TotalOfParsed(RawOf(items));
  }

  // ---- the portfolio's totals ------------------------------------------------------------

  function CollectedTotal(invoices: seq<Invoice>): int {
    if invoices == [] then 0
    else
      var last := invoices[|invoices| - 1];
      CollectedTotal(invoices[..|invoices| - 1]) + last.amount - last.balance
  }

  function IncomeTotal(payments: seq<Payment>): int {
    if payments == [] then 0 else IncomeTotal(payments[..|payments| - 1]) + payments[|payments| - 1].amount
  }

  function ReceivedByFirst(payments: seq<Payment>, n: nat): int {
    if n == 0 then 0 else ReceivedByFirst(payments, n - 1) + Received(payments, n - 1)
  }

  lemma {:induction false} ReceiptsPartition(payments: seq<Payment>, n: nat)
    requires forall p | p in payments :: p.invoice < n
    ensures ReceivedByFirst(payments, n) == IncomeTotal(payments)
  {
    if payments == [] {
      NoReceiptsNoShares(n);
    } else {
      var front, last := payments[..|payments| - 1], payments[|payments| - 1];
      assert last in payments;
      ReceiptsPartition(front, n);
      ShareOfLast(front, last, n);
      assert front + [last] == payments;
    }
  }

  lemma {:induction false} NoReceiptsNoShares(n: nat)
    ensures ReceivedByFirst([], n) == 0
  {
    if n > 0 {
      NoReceiptsNoShares(n - 1);
    }
  }

  lemma {:induction false} ShareOfLast(payments: seq<Payment>, p: Payment, n: nat)
    ensures ReceivedByFirst(payments + [p], n)
         == ReceivedByFirst(payments, n) + (if p.invoice < n then p.amount else 0)
  {
    if n > 0 {
      ShareOfLast(payments, p, n - 1);
      ReceivedAppend(payments, p, n - 1);
    }
  }

  lemma {:induction false} CollectedByInvoice(db: Tables, n: nat)
    requires n <= |db.invoices|
    ensures (forall i | 0 <= i < n :: db.invoices[i].amount - db.invoices[i].balance <= Received(db.payments, i))
            ==> CollectedTotal(db.invoices[..n]) <= ReceivedByFirst(db.payments, n)
    ensures (forall i | 0 <= i < n :: db.invoices[i].amount - db.invoices[i].balance == Received(db.payments, i))
            ==> CollectedTotal(db.invoices[..n]) == ReceivedByFirst(db.payments, n)
  {
    if n > 0 {
      CollectedByInvoice(db, n - 1);
      assert db.invoices[..n][..n - 1] == db.invoices[..n - 1];
    }
  }

  /** The reports' two views of the money agree: "Collected" (amounts minus balances) is the
      income total (all receipts) after every serial run. */
  lemma CollectedIsIncome(db: Tables, ops: seq<Op>)
    requires Exact(db)
    ensures CollectedTotal(ApplyAll(db, ops).invoices) == IncomeTotal(ApplyAll(db, ops).payments)
  {
    SerialRunsBalance(db, ops);
    var end := ApplyAll(db, ops);
    forall i | 0 <= i < |end.invoices|
      ensures end.invoices[i].amount - end.invoices[i].balance == Received(end.payments, i)
    {
      assert Balanced(end, i);
    }
    CollectedByInvoice(end, |end.invoices|);
    assert end.invoices[..|end.invoices|] == end.invoices;
    ReceiptsPartition(end.payments, |end.invoices|);
  }

  // ---- the services ----------------------------------------------------------------------

  /** The invoices and payments tables with the calls that write them. */
  class BillingService {
    var invoices: seq<Invoice>
    var payments: seq<Payment>

    function Db(): Tables
      reads this
    {
      Tables(invoices, payments)
    }

    constructor (db: Tables)
      ensures Db() == db
    {
      invoices, payments := db.invoices, db.payments;
    }

    method CreateForLease(items: seq<Item>, due: int) returns (r: Result<nat>)
      modifies this
      ensures match Issue(old(Db()), items, due)
              case Ok(after) => Db() == after && r == Ok(|old(invoices)|)
              case Err(e) => Db() == old(Db()) && r == Err(e)
    {
      var code := Numbering.Allocate(InvoiceCodes(invoices));
      if code.Err? {
        return Err(code.error);
      }
      var amount := ItemTotal(items);
      var invoice := Invoice(code.value, items, amount, amount, Due, due, None);
      invoices := invoices + [invoice];
      r := Ok(|invoices| - 1);
    }

    method Update(invoice: nat, raw: seq<RawItem>) returns (r: Result<()>)
      modifies this`invoices
      ensures match Edit(old(Db()), invoice, raw)
              case Ok(after) => Db() == after && r.Ok?
              case Err(e) => Db() == old(Db()) && r == Err(e)
    {
      if invoice >= |invoices| {
        return Err(NotFound);
      }
      var row := invoices[invoice];
      if row.status == InvoiceStatus.Void {
        return Err(BadRequest("voided"));
      }
      if row.balance != row.amount {
        return Err(BadRequest("already has a payment"));
      }
      var items := ParseItems(raw);
      if items.Err? {
        return Err(items.error);
      }
      var amount := ItemTotal(items.value);
      invoices := invoices[invoice := row.(items := items.value, amount := amount, balance := amount)];
      r := Ok(());
    }

    method Void(invoice: nat) returns (r: Result<()>)
      modifies this`invoices
      ensures match VoidInvoice(old(Db()), invoice)
              case Ok(after) => Db() == after && r.Ok?
              case Err(e) => Db() == old(Db()) && r == Err(e)
    {
      if invoice >= |invoices| {
        return Err(NotFound);
      }
      var row := invoices[invoice];
      if row.status == InvoiceStatus.Void {
        return Err(BadRequest("already voided"));
      }
      if row.balance != row.amount {
        return Err(BadRequest("already has a payment"));
      }
      invoices := invoices[invoice := row.(status := InvoiceStatus.Void)];
      r := Ok(());
    }

    /** The part of `record` before its transaction. */
    method FindPayable(invoice: nat, requested: int) returns (r: Result<Draft>)
      ensures r == ReadPay(Db(), invoice, requested)
    {
      if invoice >= |invoices| {
        return Err(NotFound);
      }
      var row := invoices[invoice];
      if row.status == InvoiceStatus.Void {
        return Err(BadRequest("voided"));
      }
      if row.balance <= 0 {
        return Err(BadRequest("already fully paid"));
      }
      var amount := Min(requested, row.balance);
      if amount <= 0 {
        return Err(BadRequest("invalid amount"));
      }
      r := Ok(Draft(invoice, row.balance, amount));
    }

    /** The transaction of `record`: the receipt row, then the balance computed from the earlier read. */
    method CommitReceipt(d: Draft, date: Calendar.Date) returns (r: Result<nat>)
      requires d.invoice < |invoices|
      modifies this
      ensures match CommitPay(old(Db()), d, date)
              case Ok(after) => Db() == after && r == Ok(|old(payments)|)
              case Err(e) => Db() == old(Db()) && r == Err(e)
    {
      var code := Numbering.Allocate(PaymentCodes(payments));
      if code.Err? {
        return Err(code.error);
      }
      payments := payments + [Payment(code.value, d.invoice, d.amount, date)];
      var newBalance := d.balance - d.amount;
      invoices := invoices[d.invoice := invoices[d.invoice].(
        balance := newBalance, status := if newBalance <= 0 then Paid else Partial)];
      r := Ok(|payments| - 1);
    }

    method Record(invoice: nat, requested: int, date: Calendar.Date) returns (r: Result<nat>)
      modifies this
      ensures match Pay(old(Db()), invoice, requested, date)
              case Ok(after) => Db() == after && r == Ok(|old(payments)|)
              case Err(e) => Db() == old(Db()) && r == Err(e)
    {
      var draft := FindPayable(invoice, requested);
      if draft.Err? {
        return Err(draft.error);
      }
      r := CommitReceipt(draft.value, date);
    }
  }
}
