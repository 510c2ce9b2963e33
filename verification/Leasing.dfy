/** `create` as one transaction over four tables: the lease row with its code and term, its first
    invoice, the unit and the tenant, all written or none. */
module Leasing {
  import opened Outcomes
  import Billing = Ledger
  import Calendar
  import Interleaving
  import Numbering
  import Occupancy

  const GRACE_DAYS := 4

  /** The request, with rent and deposit already defaulted from the unit; amounts in cents. */
  datatype Terms = Terms(start: Calendar.Date, months: nat, rent: nat, deposit: nat)

  /** The columns of a lease row that occupancy does not use; row `i` belongs to lease `i`. */
  datatype Contract = Contract(code: string, terms: Terms, end: Calendar.Date, firstInvoice: nat)

  datatype Tables = Tables(occupancy: Occupancy.Tables, billing: Billing.Tables, contracts: seq<Contract>)

  function Codes(contracts: seq<Contract>): (codes: seq<string>)
    ensures |codes| == |contracts| && forall i | 0 <= i < |codes| :: codes[i] == contracts[i].code
  {
    seq(|contracts|, i requires 0 <= i < |contracts| => contracts[i].code)
  }

  function FirstItems(terms: Terms): seq<Billing.Item> {
    [Billing.Item("Rent", terms.rent), Billing.Item("Security deposit", terms.deposit)]
  }

  /** The whole call: a refused invoice number undoes the lease row, and nothing else is written. */
  function Create(db: Tables, tenant: nat, unit: nat, terms: Terms, today: int): Result<Tables> {
    match Occupancy.CheckLease(db.occupancy, tenant, unit)
    case Err(e) => Err(e)
    case Ok(_) =>
      var code := Numbering.LeaseCode(Numbering.MaxLeaseNumber(Codes(db.contracts)) + 1);
      var contract := Contract(code, terms, Calendar.LeaseEnd(terms.start, terms.months), |db.billing.invoices|);
      match Billing.Issue(db.billing, FirstItems(terms), today + GRACE_DAYS)
      case Err(e) => Err(e)
      case Ok(billed) =>
        Ok(Tables(Occupancy.WriteLease(db.occupancy, tenant, unit), billed, db.contracts + [contract]))
  }

  datatype Op =
    | Lease(tenant: nat, unit: nat, terms: Terms, today: int)
    | Occupying(occupying: Occupancy.Op)
    | Charging(charging: Billing.Op)

  /** Leases and invoices come from `Lease` only; every other call of the two services is its own. */
  ghost function Apply(db: Tables, op: Op): Tables
    requires Occupancy.KeysResolve(db.occupancy)
  {
    match op
    case Lease(tenant, unit, terms, today) =>
      (match Create(db, tenant, unit, terms, today) case Ok(after) => after case Err(_) => db)
    case Occupying(o) => if o.CreateLease? then db else db.(occupancy := Occupancy.Apply(db.occupancy, o))
    case Charging(o) => if o.IssueOp? then db else db.(billing := Billing.Apply(db.billing, o))
  }

  /** Both services' own invariants, and one contract with its own first invoice for each lease. */
  ghost predicate Whole(db: Tables) {
    && Occupancy.Consistent(db.occupancy) && Billing.Exact(db.billing)
    && |db.contracts| == |db.occupancy.leases|
    && (forall i | 0 <= i < |db.contracts| :: db.contracts[i].firstInvoice < |db.billing.invoices|)
    && (forall i, j | 0 <= i < j < |db.contracts| :: db.contracts[i].firstInvoice < db.contracts[j].firstInvoice)
  }

  ghost function ApplyAll(db: Tables, ops: seq<Op>): (after: Tables)
    requires Whole(db)
    ensures Whole(after)
  {
    if ops == [] then db
    else
      var before := ApplyAll(db, ops[..|ops| - 1]);
      ApplyKeepsWhole(before, ops[|ops| - 1]);
      Apply(before, ops[|ops| - 1])
  }

  lemma IssueAppends(db: Billing.Tables, items: seq<Billing.Item>, due: int)
    ensures Billing.Issue(db, items, due).Ok? <==> Numbering.Allocate(Billing.InvoiceCodes(db.invoices)).Ok?
    ensures Billing.Issue(db, items, due).Ok? ==>
      var code := Numbering.Allocate(Billing.InvoiceCodes(db.invoices)).value;
      var total := Billing.ItemTotal(items);
      Billing.Issue(db, items, due).value == db.(
        invoices := db.invoices + [Billing.Invoice(code, items, total, total, Billing.Due, due, None)])
  {
    hide Numbering.Allocate, Billing.ItemTotal;
  }

  lemma OccupyingKeepsLeases(db: Occupancy.Tables, op: Occupancy.Op)
    requires Occupancy.KeysResolve(db) && !op.CreateLease?
    ensures |Occupancy.Apply(db, op).leases| == |db.leases|
  {
  }

  lemma ChargingKeepsInvoices(db: Billing.Tables, op: Billing.Op)
    requires !op.IssueOp?
    ensures |Billing.Apply(db, op).invoices| == |db.invoices|
    ensures Billing.InvoiceCodes(Billing.Apply(db, op).invoices) == Billing.InvoiceCodes(db.invoices)
  {
    hide Numbering.Allocate, Billing.ItemTotal, Billing.ParseItems;
  }

  /** Exactly when a lease is made, and everything it writes: the guards passed and an invoice
      number was left. The first invoice asks for rent and deposit; the unit and the tenant name
      each other; the term runs to the computed end. Otherwise nothing is written. */
  lemma CreateOutcome(db: Tables, tenant: nat, unit: nat, terms: Terms, today: int)
    ensures Create(db, tenant, unit, terms, today).Ok?
       <==> && Occupancy.MayLease(db.occupancy, tenant, unit)
            && Numbering.Allocate(Billing.InvoiceCodes(db.billing.invoices)).Ok?
    ensures Create(db, tenant, unit, terms, today).Ok? ==>
      var after := Create(db, tenant, unit, terms, today).value;
      && |after.contracts| == |db.contracts| + 1 && |after.billing.invoices| == |db.billing.invoices| + 1
      && after.billing.payments == db.billing.payments
      && (var made := after.contracts[|db.contracts|];
          && made.code !in Codes(db.contracts) && made.terms == terms
          && made.end == Calendar.LeaseEnd(terms.start, terms.months)
          && made.firstInvoice == |db.billing.invoices|)
      && (var first := after.billing.invoices[|db.billing.invoices|];
          && first.items == [Billing.Item("Rent", terms.rent), Billing.Item("Security deposit", terms.deposit)]
          && first.amount == first.balance == terms.rent + terms.deposit
          && first.status == Billing.Due && first.due == today + 4)
      && (Occupancy.KeysResolve(db.occupancy) ==>
            after.occupancy == Occupancy.Apply(db.occupancy, Occupancy.CreateLease(tenant, unit)))
      && after.occupancy.units[unit].tenant == Some(tenant) && after.occupancy.tenants[tenant].unit == Some(unit)
  {
    Occupancy.CreationAccepted(db.occupancy, tenant, unit);
    assert FirstItems(terms) == [Billing.Item("Rent", terms.rent), Billing.Item("Security deposit", terms.deposit)];
    IssueAppends(db.billing, FirstItems(terms), today + GRACE_DAYS);
    FirstTotal(terms);
    FreshLeaseCode(Codes(db.contracts));
    hide Billing.Issue, Billing.ItemTotal, FirstItems, Numbering.Allocate, Numbering.LeaseCode, Numbering.MaxLeaseNumber;
    hide Calendar.LeaseEnd, Codes;
  }

  lemma FirstTotal(terms: Terms)
    ensures Billing.ItemTotal(FirstItems(terms)) == terms.rent + terms.deposit
  {
    var items := FirstItems(terms);
    assert items[..1] == [items[0]] && items[..1][..0] == [];
    assert Billing.ItemTotal(items[..1]) == Billing.ItemTotal(items[..1][..0]) + terms.rent;
  }

  lemma FreshLeaseCode(codes: seq<string>)
    ensures Numbering.LeaseCode(Numbering.MaxLeaseNumber(codes) + 1) !in codes
  {
    var n := Numbering.MaxLeaseNumber(codes) + 1;
    Numbering.LeaseNumberOfCode(n);
    if Numbering.LeaseCode(n) in codes {
      Numbering.NumberBoundedByMax(codes, Numbering.LeaseCode(n));
    }
  }

  lemma CreateKeepsWhole(db: Tables, tenant: nat, unit: nat, terms: Terms, today: int)
    requires Whole(db) && Create(db, tenant, unit, terms, today).Ok?
    ensures Whole(Create(db, tenant, unit, terms, today).value)
  {
    hide Occupancy.Consistent, Occupancy.WriteLease, Billing.Exact;
    IssueAppends(db.billing, FirstItems(terms), today + GRACE_DAYS);
    Occupancy.CreateKeepsConsistent(db.occupancy, tenant, unit);
    Billing.ApplyKeepsExact(db.billing, Billing.IssueOp(FirstItems(terms), today + GRACE_DAYS));
    OneMoreLease(db.occupancy, tenant, unit);
  }

  lemma OneMoreLease(db: Occupancy.Tables, tenant: nat, unit: nat)
    requires tenant < |db.tenants| && unit < |db.units|
    ensures |Occupancy.WriteLease(db, tenant, unit).leases| == |db.leases| + 1
  {
  }

  lemma ApplyKeepsWhole(db: Tables, op: Op)
    requires Whole(db)
    ensures Whole(Apply(db, op))
  {
    hide Create, Occupancy.Apply, Billing.Apply, Billing.Exact;
    match op
    case Lease(tenant, unit, terms, today) =>
      if Create(db, tenant, unit, terms, today).Ok? {
        CreateKeepsWhole(db, tenant, unit, terms, today);
      }
    case Occupying(o) =>
      if !o.CreateLease? {
        Occupancy.ApplyKeepsConsistent(db.occupancy, o);
        OccupyingKeepsLeases(db.occupancy, o);
        hide Occupancy.Consistent;
      }
    case Charging(o) =>
      if !o.IssueOp? {
        Billing.ApplyKeepsExact(db.billing, o);
        ChargingKeepsInvoices(db.billing, o);
        hide Occupancy.Consistent;
      }
  }

  // ---- what the two sequences of numbers do to leasing -------------------------------------

  /** Lease codes run on without gap, and leases and invoices grow together along the capped sequence. */
  ghost predicate Grown(start: Tables, db: Tables) {
    && |start.contracts| <= |db.contracts|
    && |db.contracts| - |start.contracts| == |db.billing.invoices| - |start.billing.invoices|
    && Codes(db.contracts) == Codes(start.contracts)
       + Numbering.Consecutive(Numbering.MaxLeaseNumber(Codes(start.contracts)), |db.contracts| - |start.contracts|)
    && Interleaving.Continues(Billing.InvoiceCodes(start.billing.invoices), Billing.InvoiceCodes(db.billing.invoices))
  }

  lemma CreateKeepsGrown(start: Tables, db: Tables, tenant: nat, unit: nat, terms: Terms, today: int)
    requires Numbering.CAP !in Billing.InvoiceCodes(start.billing.invoices) && Grown(start, db)
    requires Create(db, tenant, unit, terms, today).Ok?
    ensures Grown(start, Create(db, tenant, unit, terms, today).value)
  {
    CreateAppends(db, tenant, unit, terms, today);
    var after := Create(db, tenant, unit, terms, today).value;
    var invoices := Billing.InvoiceCodes(db.billing.invoices);
    hide Create, Numbering.LeaseCode, Numbering.MaxLeaseNumber, Numbering.Allocate, Interleaving.Continues, Numbering.Consecutive;
    hide Occupancy.KeysResolve, Codes, Billing.InvoiceCodes, Numbering.CappedMax;
    Interleaving.DrawContinues(Billing.InvoiceCodes(start.billing.invoices), invoices, Numbering.Allocate(invoices).value);
    OneMoreCode(Codes(start.contracts), |db.contracts| - |start.contracts|, Codes(db.contracts));
  }

  lemma CreateAppends(db: Tables, tenant: nat, unit: nat, terms: Terms, today: int)
    requires Create(db, tenant, unit, terms, today).Ok?
    ensures var after, invoices := Create(db, tenant, unit, terms, today).value, Billing.InvoiceCodes(db.billing.invoices);
            && Codes(after.contracts) == Codes(db.contracts) + [Numbering.LeaseCode(Numbering.MaxLeaseNumber(Codes(db.contracts)) + 1)]
            && |after.contracts| == |db.contracts| + 1 && |after.billing.invoices| == |db.billing.invoices| + 1
            && Numbering.Allocate(invoices).Ok?
            && Billing.InvoiceCodes(after.billing.invoices) == invoices + [Numbering.Allocate(invoices).value]
  {
    IssueAppends(db.billing, FirstItems(terms), today + GRACE_DAYS);
    hide Numbering.LeaseCode, Numbering.MaxLeaseNumber, Numbering.Allocate, Billing.ItemTotal, Billing.Issue, Calendar.LeaseEnd;
    hide Occupancy.WriteLease, Occupancy.CheckLease;
  }

  lemma OneMoreCode(codes: seq<string>, n: nat, all: seq<string>)
    requires all == codes + Numbering.Consecutive(Numbering.MaxLeaseNumber(codes), n)
    ensures var base := Numbering.MaxLeaseNumber(codes);
            all + [Numbering.LeaseCode(Numbering.MaxLeaseNumber(all) + 1)] == codes + Numbering.Consecutive(base, n + 1)
  {
    hide Numbering.LeaseCode, Numbering.MaxLeaseNumber;
    Numbering.MaxOfConsecutive(codes, n);
  }

  /** Every serial run of all three services keeps both invariants, numbers its leases without gap,
      and makes exactly one invoice per lease: no run makes more leases than invoice numbers are left
      below 5000. */
  lemma {:induction false} LeasesFollowInvoices(db: Tables, ops: seq<Op>)
    requires Whole(db) && Numbering.CAP !in Billing.InvoiceCodes(db.billing.invoices)
    ensures Whole(ApplyAll(db, ops)) && Grown(db, ApplyAll(db, ops))
    ensures |ApplyAll(db, ops).occupancy.leases| - |db.occupancy.leases|
         <= 5000 - Numbering.CappedMax(Billing.InvoiceCodes(db.billing.invoices))
  {
    var invoices := Billing.InvoiceCodes(db.billing.invoices);
    if ops == [] {
      Numbering.FollowingGrows(invoices, Numbering.CappedMax(invoices), 0);
      assert Codes(db.contracts) == Codes(db.contracts)
        + Numbering.Consecutive(Numbering.MaxLeaseNumber(Codes(db.contracts)), 0);
    } else {
      var front, op := ops[..|ops| - 1], ops[|ops| - 1];
      LeasesFollowInvoices(db, front);
      ApplyKeepsGrown(db, ApplyAll(db, front), op);
    }
  }

  lemma ApplyKeepsGrown(start: Tables, db: Tables, op: Op)
    requires Numbering.CAP !in Billing.InvoiceCodes(start.billing.invoices) && Grown(start, db)
    requires Occupancy.KeysResolve(db.occupancy)
    ensures Grown(start, Apply(db, op))
  {
    hide Create, Occupancy.Apply, Billing.Apply;
    match op
    case Lease(tenant, unit, terms, today) =>
      if Create(db, tenant, unit, terms, today).Ok? {
        hide Grown;
        CreateKeepsGrown(start, db, tenant, unit, terms, today);
      }
    case Charging(o) => if !o.IssueOp? { ChargingKeepsInvoices(db.billing, o); }
    case _ =>
  }

  /** Once the invoice numbers have run out, no lease can ever be created again, however many units
      are vacant: the transaction is refused with its invoice. */
  lemma {:induction false} NoNumberNoLease(db: Tables, ops: seq<Op>)
    requires Whole(db) && Numbering.Allocate(Billing.InvoiceCodes(db.billing.invoices)).Err?
    ensures ApplyAll(db, ops).contracts == db.contracts
    ensures |ApplyAll(db, ops).occupancy.leases| == |db.occupancy.leases|
    ensures Billing.InvoiceCodes(ApplyAll(db, ops).billing.invoices) == Billing.InvoiceCodes(db.billing.invoices)
  {
    hide Whole, Numbering.Allocate;
    if ops != [] {
      var front, op := ops[..|ops| - 1], ops[|ops| - 1];
      NoNumberNoLease(db, front);
      var before := ApplyAll(db, front);
      KeysOf(before);
      match op
      case Lease(tenant, unit, terms, today) => IssueAppends(before.billing, FirstItems(terms), today + GRACE_DAYS);
      case Occupying(o) => if !o.CreateLease? { OccupyingKeepsLeases(before.occupancy, o); }
      case Charging(o) => if !o.IssueOp? { ChargingKeepsInvoices(before.billing, o); }
    }
  }

  lemma KeysOf(db: Tables)
    requires Whole(db)
    ensures Occupancy.KeysResolve(db.occupancy)
  {
  }

  // ---- the service -------------------------------------------------------------------------

  /** Creates leases over the tables of the occupancy and billing services. */
  class LeasingService {
    const occupancy: Occupancy.OccupancyService
    const billing: Billing.BillingService
    var contracts: seq<Contract>

    function Db(): Tables
      reads this, occupancy, billing
    {
      Tables(occupancy.Db(), billing.Db(), contracts)
    }

    constructor (occupancy: Occupancy.OccupancyService, billing: Billing.BillingService, contracts: seq<Contract>)
      ensures this.occupancy == occupancy && this.billing == billing && this.contracts == contracts
    {
      this.occupancy, this.billing, this.contracts := occupancy, billing, contracts;
    }

    method CreateLease(tenant: nat, unit: nat, terms: Terms, today: int) returns (r: Result<nat>)
      modifies this, occupancy, billing
      ensures match Create(old(Db()), tenant, unit, terms, today)
              case Ok(after) => Db() == after && r == Ok(|old(contracts)|)
              case Err(e) => Db() == old(Db()) && r == Err(e)
    {
      hide Billing.Issue, Calendar.LeaseEnd, Numbering.LeaseCode, Numbering.MaxLeaseNumber, FirstItems, Codes;
      var check := occupancy.CheckCreation(tenant, unit);
      if check.Err? {
        return Err(check.error);
      }
      var end := Calendar.AddMonthsMinusDay(terms.start, terms.months);
      var code := Numbering.LeaseCode(Numbering.MaxLeaseNumber(Codes(contracts)) + 1);
      var property := occupancy.units[unit].property;
      var committed := occupancy.leases;
      occupancy.leases := committed + [Occupancy.Lease(tenant, unit, property, Occupancy.Running)];
      var invoice := billing.CreateForLease(FirstItems(terms), today + GRACE_DAYS);
      if invoice.Err? {
        occupancy.leases := committed; // the transaction rolls back
        return Err(invoice.error);
      }
      contracts := contracts + [Contract(code, terms, end, invoice.value)];
      occupancy.OccupyUnit(unit, tenant);
      occupancy.OccupyForLease(tenant, unit, property);
      r := Ok(|contracts| - 1);
    }
  }
}
