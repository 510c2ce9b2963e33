/** Units, tenants and leases point at each other; leasing, terminating and blacklisting
    each write several of those pointers. */
module Occupancy {
  import opened Outcomes

  datatype UnitStatus = Vacant | Occupied
  datatype TenantStatus = Active | Prospective | Notice | Vacated | Blacklisted
  datatype LeaseStatus = Running | Ending | Ended // the stored `active`, `ending` and `ended`

  datatype Unit = Unit(property: nat, rent: nat, status: UnitStatus, tenant: Option<nat>)
  datatype Tenant = Tenant(status: TenantStatus, unit: Option<nat>, property: Option<nat>)
  datatype Lease = Lease(tenant: nat, unit: nat, property: nat, status: LeaseStatus)

  /** Rows are never deleted, so a row's index is its id. */
  datatype Tables = Tables(units: seq<Unit>, tenants: seq<Tenant>, leases: seq<Lease>)

  predicate Live(l: Lease) {
    l.status == Running || l.status == Ending
  }

  // ---- the calls ------------------------------------------------------------------------

  datatype Op =
    | AddUnit(property: nat, rent: nat)
    | Onboard
    | CreateLease(tenant: nat, unit: nat)
    | Terminate(lease: nat)
    | Blacklist(tenant: nat)

  predicate HoldsLease(db: Tables, tenant: nat) {
    exists i :: 0 <= i < |db.leases| && db.leases[i].tenant == tenant && Live(db.leases[i])
  }

  function Occupy(db: Tables, unit: nat, tenant: nat): Tables
    requires unit < |db.units|
  {
    db.(units := db.units[unit := db.units[unit].(tenant := Some(tenant), status := Occupied)])
  }

  function Vacate(db: Tables, unit: nat): Tables
    requires unit < |db.units|
  {
    db.(units := db.units[unit := db.units[unit].(tenant := None, status := Vacant)])
  }

  function SetTenant(db: Tables, tenant: nat, status: TenantStatus, unit: Option<nat>, property: Option<nat>): Tables
    requires tenant < |db.tenants|
  {
    db.(tenants := db.tenants[tenant := Tenant(status, unit, property)])
  }

  /** The guards of `create`, all evaluated before its transaction. */
  function CheckLease(db: Tables, tenant: nat, unit: nat): Result<()> {
    if tenant >= |db.tenants| || unit >= |db.units| then Err(NotFound)
    else if db.units[unit].status == Occupied then Err(Conflict("unit occupied"))
    else if db.tenants[tenant].status == Blacklisted then Err(BadRequest("blacklisted"))
    else if HoldsLease(db, tenant) then Err(Conflict("already leased"))
    else Ok(())
  }

  /** The writes of `create`: the lease row, then the unit, then the tenant. */
  function WriteLease(db: Tables, tenant: nat, unit: nat): Tables
    requires tenant < |db.tenants| && unit < |db.units|
  {
    var property := db.units[unit].property;
    var withLease := db.(leases := db.leases + [Lease(tenant, unit, property, Running)]);
    SetTenant(Occupy(withLease, unit, tenant), tenant, Active, Some(unit), Some(property))
  }

  predicate Linked(db: Tables, l: Lease) {
    l.tenant < |db.tenants| && l.unit < |db.units|
  }

  function CheckTerminate(db: Tables, lease: nat): Result<()> {
    if lease >= |db.leases| then Err(NotFound)
    else if db.leases[lease].status == Ended then Err(BadRequest("already ended"))
    else Ok(())
  }

  function WriteTermination(db: Tables, lease: nat): Tables
    requires lease < |db.leases| && Linked(db, db.leases[lease])
  {
    var l := db.leases[lease];
    var ended := db.(leases := db.leases[lease := l.(status := Ended)]);
    SetTenant(Vacate(ended, l.unit), l.tenant, Vacated, None, None)
  }

  function CheckBlacklist(db: Tables, tenant: nat): Result<()> {
    if tenant >= |db.tenants| then Err(NotFound)
    else if db.tenants[tenant].status == Blacklisted then Err(BadRequest("already blacklisted"))
    else Ok(())
  }

  predicate PointsInside(db: Tables, tenant: nat) {
    tenant < |db.tenants| && (db.tenants[tenant].unit.Some? ==> db.tenants[tenant].unit.value < |db.units|)
  }

  function WriteBlacklisting(db: Tables, tenant: nat): Tables
    requires PointsInside(db, tenant)
  {
    var vacated := match db.tenants[tenant].unit
                   case Some(u) => Vacate(db, u)
                   case None => db;
    SetTenant(vacated, tenant, Blacklisted, None, None)
  }

  /** Foreign keys: every reference between the tables names a row. */
  ghost predicate KeysResolve(db: Tables) {
    && (forall i | 0 <= i < |db.leases| :: Linked(db, db.leases[i]))
    && (forall t | 0 <= t < |db.tenants| && db.tenants[t].unit.Some? :: db.tenants[t].unit.value < |db.units|)
    && (forall u | 0 <= u < |db.units| && db.units[u].tenant.Some? :: db.units[u].tenant.value < |db.tenants|)
  }

  ghost function Apply(db: Tables, op: Op): Tables
    requires KeysResolve(db)
    ensures KeysResolve(Apply(db, op))
  {
    match op
    case AddUnit(property, rent) => db.(units := db.units + [Unit(property, rent, Vacant, None)])
    case Onboard => db.(tenants := db.tenants + [Tenant(Prospective, None, None)])
    case CreateLease(t, u) => if CheckLease(db, t, u).Ok? then WriteLease(db, t, u) else db
    case Terminate(l) => if CheckTerminate(db, l).Ok? then WriteTermination(db, l) else db
    case Blacklist(t) => if CheckBlacklist(db, t).Ok? then WriteBlacklisting(db, t) else db
  }

  ghost function ApplyAll(db: Tables, ops: seq<Op>): Tables
    requires KeysResolve(db)
    ensures KeysResolve(ApplyAll(db, ops))
  {
    if ops == [] then db else Apply(ApplyAll(db, ops[..|ops| - 1]), ops[|ops| - 1])
  }

  // ---- when each call goes through, over the rows, and all it writes -----------------------

  /** A creation is accepted exactly when both rows exist, the unit is vacant, the tenant is not
      blacklisted, and every lease naming the tenant has ended. */
  predicate MayLease(db: Tables, t: nat, u: nat) {
    && t < |db.tenants| && u < |db.units|
    && db.units[u].status == Vacant && db.tenants[t].status != Blacklisted
    && forall i | 0 <= i < |db.leases| && db.leases[i].tenant == t :: db.leases[i].status == Ended
  }

  lemma CreationAccepted(db: Tables, t: nat, u: nat)
    ensures CheckLease(db, t, u).Ok? <==>
      && t < |db.tenants| && u < |db.units|
      && db.units[u].status == Vacant && db.tenants[t].status in {Active, Prospective, Notice, Vacated}
      && forall i | 0 <= i < |db.leases| && db.leases[i].tenant == t :: db.leases[i].status == Ended
    ensures MayLease(db, t, u) <==> CheckLease(db, t, u).Ok?
  {
  }

  /** Which refusal a creation meets: a missing row before the unit, the unit before the blacklist,
      the blacklist before an existing lease. */
  lemma CreationRefusals(db: Tables, t: nat, u: nat)
    ensures var missing := t >= |db.tenants| || u >= |db.units|;
      var r := CheckLease(db, t, u);
      && (r == Err(NotFound) <==> missing)
      && (r == Err(Conflict("unit occupied")) <==> !missing && db.units[u].status == Occupied)
      && (r == Err(BadRequest("blacklisted")) <==>
            !missing && db.units[u].status == Vacant && db.tenants[t].status == Blacklisted)
      && (r == Err(Conflict("already leased")) <==>
            && !missing && db.units[u].status == Vacant && db.tenants[t].status != Blacklisted
            && exists i :: 0 <= i < |db.leases| && db.leases[i].tenant == t && db.leases[i].status != Ended)
  {
    assert "unit occupied" != "already leased" by {
      assert |"unit occupied"| != |"already leased"|;
    }
  }

  /** An accepted creation adds one running lease and rewrites one unit and one tenant; a refused
      one writes nothing. */
  lemma CreationOutcome(db: Tables, t: nat, u: nat)
    requires KeysResolve(db)
    ensures var after := Apply(db, CreateLease(t, u));
      if MayLease(db, t, u) then
        && after.leases == db.leases + [Lease(t, u, db.units[u].property, Running)]
        && after.units == db.units[u := Unit(db.units[u].property, db.units[u].rent, Occupied, Some(t))]
        && after.tenants == db.tenants[t := Tenant(Active, Some(u), Some(db.units[u].property))]
      else after == db
  {
    CreationAccepted(db, t, u);
  }

  /** A termination is accepted exactly on a running or ending lease; it ends that lease and empties
      its unit and its tenant, whatever they hold. */
  lemma TerminationOutcome(db: Tables, l: nat)
    requires KeysResolve(db)
    ensures CheckTerminate(db, l).Ok? <==> l < |db.leases| && db.leases[l].status in {Running, Ending}
    ensures var after := Apply(db, Terminate(l));
      if l < |db.leases| && db.leases[l].status in {Running, Ending} then
        var row := db.leases[l];
        && after.leases == db.leases[l := Lease(row.tenant, row.unit, row.property, Ended)]
        && after.units == db.units[row.unit := Unit(db.units[row.unit].property, db.units[row.unit].rent, Vacant, None)]
        && after.tenants == db.tenants[row.tenant := Tenant(Vacated, None, None)]
      else after == db
  {
  }

  /** A blacklisting is accepted exactly on a tenant not yet blacklisted; it empties the unit the
      tenant names, if any, and leaves every lease alone. */
  lemma BlacklistingOutcome(db: Tables, t: nat)
    requires KeysResolve(db)
    ensures CheckBlacklist(db, t).Ok? <==> t < |db.tenants| && db.tenants[t].status in {Active, Prospective, Notice, Vacated}
    ensures var after := Apply(db, Blacklist(t));
      if t < |db.tenants| && db.tenants[t].status in {Active, Prospective, Notice, Vacated} then
        && after.leases == db.leases && after.tenants == db.tenants[t := Tenant(Blacklisted, None, None)]
        && |after.units| == |db.units|
        && forall u | 0 <= u < |db.units| ::
             after.units[u] == if db.tenants[t].unit == Some(u)
                               then Unit(db.units[u].property, db.units[u].rent, Vacant, None) else db.units[u]
      else after == db
  {
  }

  /** A new unit is vacant and a new tenant prospective, neither pointing anywhere. */
  lemma RowsOutcome(db: Tables, property: nat, rent: nat)
    requires KeysResolve(db)
    ensures Apply(db, AddUnit(property, rent)) == Tables(db.units + [Unit(property, rent, Vacant, None)], db.tenants, db.leases)
    ensures Apply(db, Onboard) == Tables(db.units, db.tenants + [Tenant(Prospective, None, None)], db.leases)
  {
  }

  // ---- what every serial run keeps -------------------------------------------------------

  ghost predicate LiveFor(db: Tables, i: nat, tenant: nat) {
    i < |db.leases| && Live(db.leases[i]) && db.leases[i].tenant == tenant
  }

  ghost predicate LeasedTo(db: Tables, u: nat, t: nat) {
    exists i: nat :: LiveFor(db, i, t) && db.leases[i].unit == u
  }

  /** A unit is occupied exactly when it names a tenant, and that tenant names it back. */
  ghost predicate UnitSide(db: Tables)
    requires KeysResolve(db)
  {
    && (forall u | 0 <= u < |db.units| :: db.units[u].status == Occupied <==> db.units[u].tenant.Some?)
    && (forall u | 0 <= u < |db.units| && db.units[u].tenant.Some? ::
          db.tenants[db.units[u].tenant.value].unit == Some(u))
  }

  predicate GoodStanding(status: TenantStatus) {
    status == Active || status == Notice
  }

  /** A tenant naming a unit has a live lease on it, records its property, and is in good standing;
      nobody else is. */
  ghost predicate TenantSide(db: Tables)
    requires KeysResolve(db)
  {
    && (forall t | 0 <= t < |db.tenants| && db.tenants[t].unit.Some? ::
          && LeasedTo(db, db.tenants[t].unit.value, t)
          && db.tenants[t].property == Some(db.units[db.tenants[t].unit.value].property)
          && GoodStanding(db.tenants[t].status))
    && (forall t | 0 <= t < |db.tenants| && db.tenants[t].unit.None? ::
          db.tenants[t].property.None? && !GoodStanding(db.tenants[t].status))
  }

  /** No tenant has two live leases, and a live lease is its tenant's pointer unless the tenant
      has been blacklisted. */
  ghost predicate LeaseSide(db: Tables)
    requires KeysResolve(db)
  {
    && (forall i, j | 0 <= i < j < |db.leases| && Live(db.leases[i]) && Live(db.leases[j]) ::
          db.leases[i].tenant != db.leases[j].tenant)
    && (forall i | 0 <= i < |db.leases| && Live(db.leases[i]) ::
          && db.leases[i].property == db.units[db.leases[i].unit].property
          && (db.tenants[db.leases[i].tenant].status == Blacklisted
              || db.tenants[db.leases[i].tenant].unit == Some(db.leases[i].unit)))
  }

  /** The links that survive blacklisting: pointers lead from units to tenants to
      leases, never reliably the other way. */
  ghost predicate Consistent(db: Tables) {
    KeysResolve(db) && UnitSide(db) && TenantSide(db) && LeaseSide(db)
  }

  /** The half blacklisting breaks: every live lease of a tenant in good standing is backed by
      the unit itself. */
  ghost predicate Housed(db: Tables)
    requires KeysResolve(db)
  {
    forall i | 0 <= i < |db.leases| && Live(db.leases[i]) && db.tenants[db.leases[i].tenant].status != Blacklisted ::
      db.units[db.leases[i].unit].tenant == Some(db.leases[i].tenant)
  }

  /** A live lease that a call leaves alone still leases the same unit. */
  lemma LeaseSurvives(db: Tables, after: Tables, ended: Option<nat>, u: nat, t: nat)
    requires LeasedTo(db, u, t) && |db.leases| <= |after.leases|
    requires forall i | 0 <= i < |db.leases| && Some(i) != ended :: after.leases[i] == db.leases[i]
    requires ended.Some? ==> ended.value < |db.leases| && db.leases[ended.value].tenant != t
    ensures LeasedTo(after, u, t)
  {
    var i: nat :| LiveFor(db, i, t) && db.leases[i].unit == u;
    assert LiveFor(after, i, t);
  }

  /** A call that changes one tenant's row and keeps the other tenants' leases keeps their side. */
  lemma TenantSideSurvives(db: Tables, after: Tables, ended: Option<nat>, t: nat)
    requires KeysResolve(db) && KeysResolve(after) && TenantSide(db) && t < |db.tenants|
    requires |after.units| == |db.units| && |after.tenants| == |db.tenants| && |after.leases| >= |db.leases|
    requires forall u | 0 <= u < |db.units| :: after.units[u].property == db.units[u].property
    requires forall x | 0 <= x < |db.tenants| && x != t :: after.tenants[x] == db.tenants[x]
    requires forall i | 0 <= i < |db.leases| && Some(i) != ended :: after.leases[i] == db.leases[i]
    requires ended.Some? ==> ended.value < |db.leases| && db.leases[ended.value].tenant == t
    requires after.tenants[t].unit.None? ==> after.tenants[t].property.None? && !GoodStanding(after.tenants[t].status)
    requires after.tenants[t].unit.Some? ==>
      && LeasedTo(after, after.tenants[t].unit.value, t) && after.tenants[t].status == Active
      && after.tenants[t].property == Some(after.units[after.tenants[t].unit.value].property)
    ensures TenantSide(after)
  {
    hide LeasedTo;
    forall x | 0 <= x < |after.tenants| && after.tenants[x].unit.Some?
      ensures LeasedTo(after, after.tenants[x].unit.value, x)
    {
      if x != t {
        LeaseSurvives(db, after, ended, db.tenants[x].unit.value, x);
      }
    }
  }

  /** What the bijection needs of a creation: nobody is in the unit and the tenant is in none. */
  predicate Free(db: Tables, tenant: nat, unit: nat) {
    tenant < |db.tenants| && unit < |db.units| && db.units[unit].status != Occupied && !HoldsLease(db, tenant)
  }

  lemma CreateKeepsConsistent(db: Tables, t: nat, u: nat)
    requires Consistent(db) && Free(db, t, u)
    ensures Consistent(WriteLease(db, t, u))
  {
    var after := WriteLease(db, t, u);
    assert LiveFor(after, |db.leases|, t);
    assert db.tenants[t].unit.None?;
    hide LeasedTo, LiveFor;
    assert KeysResolve(after);
    assert UnitSide(after) && LeaseSide(after) by {
      hide TenantSide;
    }
    TenantSideSurvives(db, after, None, t);
  }

  /** The row a live lease's tenant points at, if any, is the leased one. */
  lemma TenantPointsAtLease(db: Tables, l: nat)
    requires Consistent(db) && CheckTerminate(db, l).Ok?
    ensures var t := db.leases[l].tenant;
            db.tenants[t].unit == None || db.tenants[t].unit == Some(db.leases[l].unit)
  {
  }

  lemma TerminateKeepsConsistent(db: Tables, l: nat)
    requires Consistent(db) && CheckTerminate(db, l).Ok?
    ensures Consistent(WriteTermination(db, l))
  {
    var after := WriteTermination(db, l);
    TenantPointsAtLease(db, l);
    hide LeasedTo;
    assert KeysResolve(after);
    assert UnitSide(after) && LeaseSide(after) by {
      hide TenantSide;
    }
    TenantSideSurvives(db, after, Some(l), db.leases[l].tenant);
  }

  lemma BlacklistKeepsConsistent(db: Tables, t: nat)
    requires Consistent(db) && CheckBlacklist(db, t).Ok?
    ensures Consistent(WriteBlacklisting(db, t))
  {
    var after := WriteBlacklisting(db, t);
    hide LeasedTo;
    assert KeysResolve(after);
    assert UnitSide(after) by {
      hide TenantSide, LeaseSide;
    }
    assert LeaseSide(after) by {
      hide TenantSide, UnitSide;
    }
    hide UnitSide, LeaseSide;
    TenantSideSurvives(db, after, None, t);
  }

  lemma CreateKeepsHoused(db: Tables, t: nat, u: nat)
    requires Consistent(db) && Housed(db) && Free(db, t, u)
    ensures Housed(WriteLease(db, t, u))
  {
    hide LeasedTo;
  }

  lemma BlacklistKeepsHoused(db: Tables, t: nat)
    requires Consistent(db) && Housed(db) && CheckBlacklist(db, t).Ok?
    ensures Housed(WriteBlacklisting(db, t))
  {
    var u := db.tenants[t].unit;
    if u.Some? {
      assert LeasedTo(db, u.value, t);
      var own: nat :| LiveFor(db, own, t) && db.leases[own].unit == u.value;
      assert db.units[u.value].tenant == Some(t);
    }
    hide LeasedTo;
  }

  lemma RowsKeepConsistent(db: Tables, op: Op)
    requires Consistent(db) && (op.AddUnit? || op.Onboard?)
    ensures Consistent(Apply(db, op))
    ensures Housed(db) ==> Housed(Apply(db, op))
  {
    hide LeasedTo;
    var after := Apply(db, op);
    forall x | 0 <= x < |after.tenants| && after.tenants[x].unit.Some?
      ensures LeasedTo(after, after.tenants[x].unit.value, x)
    {
      LeaseSurvives(db, after, None, db.tenants[x].unit.value, x);
    }
  }

  lemma ApplyKeepsConsistent(db: Tables, op: Op)
    requires Consistent(db)
    ensures Consistent(Apply(db, op))
  {
    hide UnitSide, TenantSide, LeaseSide, LeasedTo;
    match op
    case CreateLease(t, u) => if CheckLease(db, t, u).Ok? { CreateKeepsConsistent(db, t, u); }
    case Terminate(l) => if CheckTerminate(db, l).Ok? { TerminateKeepsConsistent(db, l); }
    case Blacklist(t) => if CheckBlacklist(db, t).Ok? { BlacklistKeepsConsistent(db, t); }
    case _ => RowsKeepConsistent(db, op);
  }

  /** Every serial run of every call, blacklisting included, keeps the one-directional links. */
  lemma {:induction false} RunsStayConsistent(db: Tables, ops: seq<Op>)
    requires Consistent(db)
    ensures Consistent(ApplyAll(db, ops))
  {
    if ops != [] {
      RunsStayConsistent(db, ops[..|ops| - 1]);
      ApplyKeepsConsistent(ApplyAll(db, ops[..|ops| - 1]), ops[|ops| - 1]);
    }
  }

  /** The consequences a reader asks for: unit to tenant to exactly one live lease of the pair,
      and nothing held by a blacklisted tenant. */
  lemma OccupiedUnitHasOneLease(db: Tables, ops: seq<Op>, u: nat)
    requires Consistent(db) && u < |ApplyAll(db, ops).units| && ApplyAll(db, ops).units[u].status == Occupied
    ensures var end := ApplyAll(db, ops);
            && end.units[u].tenant.Some?
            && var t := end.units[u].tenant.value;
            && end.tenants[t].unit == Some(u)
            && end.tenants[t].status != Blacklisted
            && LeasedTo(end, u, t)
            && (forall i: nat, j: nat :: LiveFor(end, i, t) && LiveFor(end, j, t) ==> i == j)
  {
    RunsStayConsistent(db, ops);
    var end := ApplyAll(db, ops);
    assert end.units[u].tenant.Some?;
  }

  /** A tenant in good standing, and no other, points at a unit, and has exactly one live lease,
      on that unit. */
  lemma GoodStandingMeansLeased(db: Tables, ops: seq<Op>, t: nat)
    requires Consistent(db) && t < |ApplyAll(db, ops).tenants|
    ensures var end := ApplyAll(db, ops);
            && (GoodStanding(end.tenants[t].status) <==> end.tenants[t].unit.Some?)
            && (GoodStanding(end.tenants[t].status) ==>
                  && LeasedTo(end, end.tenants[t].unit.value, t)
                  && forall i: nat, j: nat :: LiveFor(end, i, t) && LiveFor(end, j, t) ==> i == j)
  {
    RunsStayConsistent(db, ops);
  }

  // ---- exactly when a live lease still means an occupied unit -----------------------------

  /** The caller's check before terminating: nobody but the lease's own tenant holds its unit. */
  predicate UnitNotHeldByAnother(db: Tables, lease: nat)
    requires lease < |db.leases| && Linked(db, db.leases[lease])
  {
    db.units[db.leases[lease].unit].tenant == None
    || db.units[db.leases[lease].unit].tenant == Some(db.leases[lease].tenant)
  }

  lemma TerminateHousedExactly(db: Tables, l: nat)
    requires Consistent(db) && Housed(db) && CheckTerminate(db, l).Ok?
    ensures Housed(WriteTermination(db, l)) <==> UnitNotHeldByAnother(db, l)
  {
    var after := WriteTermination(db, l);
    var u := db.leases[l].unit;
    if !UnitNotHeldByAnother(db, l) {
      var other := db.units[u].tenant.value;
      assert db.tenants[other].unit == Some(u);
      assert LeasedTo(db, u, other);
      var i: nat :| LiveFor(db, i, other) && db.leases[i].unit == u;
      assert LiveFor(after, i, other);
    }
  }

  ghost predicate CarefulRun(db: Tables, ops: seq<Op>)
    requires KeysResolve(db)
  {
    ops == [] ||
    var before := ApplyAll(db, ops[..|ops| - 1]);
    var op := ops[|ops| - 1];
    && CarefulRun(db, ops[..|ops| - 1])
    && (op.Terminate? && CheckTerminate(before, op.lease).Ok? ==> UnitNotHeldByAnother(before, op.lease))
  }

  lemma ApplyKeepsHoused(db: Tables, op: Op)
    requires Consistent(db) && Housed(db)
    ensures Housed(Apply(db, op))
       <==> (op.Terminate? && CheckTerminate(db, op.lease).Ok? ==> UnitNotHeldByAnother(db, op.lease))
  {
    match op
    case CreateLease(t, u) => if CheckLease(db, t, u).Ok? { CreateKeepsHoused(db, t, u); }
    case Terminate(l) => if CheckTerminate(db, l).Ok? { TerminateHousedExactly(db, l); }
    case Blacklist(t) => if CheckBlacklist(db, t).Ok? { BlacklistKeepsHoused(db, t); }
    case _ => RowsKeepConsistent(db, op);
  }

  /** A run keeps every unblacklisted tenant housed as long as no lease is terminated whose unit
      another tenant holds by then; the first such termination breaks it (`ApplyKeepsHoused`). */
  lemma {:induction false} CarefulRunsStayHoused(db: Tables, ops: seq<Op>)
    requires Consistent(db) && Housed(db) && CarefulRun(db, ops)
    ensures Housed(ApplyAll(db, ops))
  {
    if ops != [] {
      var front := ops[..|ops| - 1];
      CarefulRunsStayHoused(db, front);
      RunsStayConsistent(db, front);
      ApplyKeepsHoused(ApplyAll(db, front), ops[|ops| - 1]);
    }
  }

  // ---- exactly when the whole bijection holds ----------------------------------------------

  /** Unit pointers, tenant pointers and live leases are one bijection with matching properties. */
  ghost predicate Bijective(db: Tables)
    requires KeysResolve(db)
  {
    && (forall u, t | 0 <= u < |db.units| && 0 <= t < |db.tenants| ::
          && (db.units[u].tenant == Some(t) <==> db.tenants[t].unit == Some(u))
          && (db.units[u].tenant == Some(t) <==> LeasedTo(db, u, t)))
    && (forall i, j | 0 <= i < j < |db.leases| && Live(db.leases[i]) && Live(db.leases[j]) ::
          db.leases[i].tenant != db.leases[j].tenant && db.leases[i].unit != db.leases[j].unit)
    && (forall i | 0 <= i < |db.leases| && Live(db.leases[i]) ::
          && db.leases[i].property == db.units[db.leases[i].unit].property
          && db.tenants[db.leases[i].tenant].property == Some(db.leases[i].property))
    && (forall u | 0 <= u < |db.units| :: db.units[u].status == Occupied <==> exists t: nat :: LeasedTo(db, u, t))
  }

  ghost predicate NoBlacklistedLease(db: Tables)
    requires KeysResolve(db)
  {
    forall i | 0 <= i < |db.leases| && Live(db.leases[i]) :: db.tenants[db.leases[i].tenant].status != Blacklisted
  }

  lemma HousedIsBijective(db: Tables)
    requires Consistent(db) && Housed(db) && NoBlacklistedLease(db)
    ensures Bijective(db)
  {
    forall u, t | 0 <= u < |db.units| && 0 <= t < |db.tenants|
      ensures db.units[u].tenant == Some(t) <==> db.tenants[t].unit == Some(u)
      ensures db.units[u].tenant == Some(t) <==> LeasedTo(db, u, t)
    {
      if db.tenants[t].unit == Some(u) {
        assert LeasedTo(db, u, t);
        var i: nat :| LiveFor(db, i, t) && db.leases[i].unit == u;
      }
    }
    forall u | 0 <= u < |db.units|
      ensures db.units[u].status == Occupied <==> exists t: nat :: LeasedTo(db, u, t)
    {
      if db.units[u].status == Occupied {
        assert LeasedTo(db, u, db.units[u].tenant.value);
      }
    }
  }

  lemma UnblacklistedStep(db: Tables, op: Op)
    requires Consistent(db) && Housed(db) && NoBlacklistedLease(db) && !op.Blacklist?
    ensures Housed(Apply(db, op)) && NoBlacklistedLease(Apply(db, op))
  {
    ApplyKeepsHoused(db, op);
  }

  /** Given the links that always hold, the bijection is exactly every live lease being housed and
      none being a blacklisted tenant's. */
  lemma BijectiveIsHoused(db: Tables)
    requires Consistent(db)
    ensures Bijective(db) <==> Housed(db) && NoBlacklistedLease(db)
  {
    if Bijective(db) {
      forall i | 0 <= i < |db.leases| && Live(db.leases[i])
        ensures db.units[db.leases[i].unit].tenant == Some(db.leases[i].tenant)
        ensures db.tenants[db.leases[i].tenant].status != Blacklisted
      {
        LiveLeaseIsLeased(db, i);
      }
    } else if Housed(db) && NoBlacklistedLease(db) {
      HousedIsBijective(db);
    }
  }

  lemma LiveLeaseIsLeased(db: Tables, i: nat)
    requires KeysResolve(db) && Bijective(db) && i < |db.leases| && Live(db.leases[i])
    ensures var l := db.leases[i];
            db.units[l.unit].tenant == Some(l.tenant) && db.tenants[l.tenant].unit == Some(l.unit)
  {
    var l := db.leases[i];
    assert LiveFor(db, i, l.tenant);
    assert LeasedTo(db, l.unit, l.tenant);
  }

  /** Blacklisting keeps the bijection if and only if the tenant holds no live lease. */
  lemma BlacklistBijectiveExactly(db: Tables, t: nat)
    requires Consistent(db) && Bijective(db) && CheckBlacklist(db, t).Ok?
    ensures Bijective(WriteBlacklisting(db, t)) <==> !HoldsLease(db, t)
  {
    BijectiveIsHoused(db);
    BlacklistKeepsConsistent(db, t);
    BlacklistKeepsHoused(db, t);
    hide LeasedTo, Consistent, Housed, Bijective;
    var after := WriteBlacklisting(db, t);
    BijectiveIsHoused(after);
    assert after.leases == db.leases;
  }

  /** A call that blacklists a tenant holding a live lease. */
  predicate HitsLeaseholder(db: Tables, op: Op) {
    op.Blacklist? && CheckBlacklist(db, op.tenant).Ok? && HoldsLease(db, op.tenant)
  }

  /** The only call that can break the bijection, and it always does. */
  lemma ApplyBijectiveExactly(db: Tables, op: Op)
    requires Consistent(db) && Bijective(db)
    ensures Bijective(Apply(db, op)) <==> !HitsLeaseholder(db, op)
  {
    assert KeysResolve(db);
    hide Consistent, Housed, Bijective, NoBlacklistedLease, HoldsLease, WriteBlacklisting, KeysResolve;
    ApplyKeepsConsistent(db, op);
    BijectiveIsHoused(db);
    BijectiveIsHoused(Apply(db, op));
    if op.Blacklist? && CheckBlacklist(db, op.tenant).Ok? {
      BlacklistBijectiveExactly(db, op.tenant);
    } else if !op.Blacklist? {
      hide Apply;
      UnblacklistedStep(db, op);
    }
  }

  /** No blacklisting in the run hits a tenant with a live lease. */
  ghost predicate SparesLeaseholders(db: Tables, ops: seq<Op>)
    requires KeysResolve(db)
  {
    ops == [] ||
    var front := ops[..|ops| - 1];
    SparesLeaseholders(db, front) && !HitsLeaseholder(ApplyAll(db, front), ops[|ops| - 1])
  }

  ghost predicate AlwaysBijective(db: Tables, ops: seq<Op>)
    requires KeysResolve(db)
  {
    Bijective(ApplyAll(db, ops)) && (ops == [] || AlwaysBijective(db, ops[..|ops| - 1]))
  }

  /** A serial run keeps the whole bijection all along if and only if it never blacklists a tenant
      who holds a live lease; so without blacklisting no unit and no tenant ever has two. */
  lemma {:induction false} BijectionExactly(db: Tables, ops: seq<Op>)
    requires Consistent(db) && Bijective(db)
    ensures AlwaysBijective(db, ops) <==> SparesLeaseholders(db, ops)
    ensures SparesLeaseholders(db, ops) ==> Bijective(ApplyAll(db, ops))
  {
    assert KeysResolve(db);
    hide Bijective, HitsLeaseholder, Consistent, Apply, KeysResolve;
    if ops != [] {
      var front := ops[..|ops| - 1];
      BijectionExactly(db, front);
      RunsStayConsistent(db, front);
      if AlwaysBijective(db, front) {
        ApplyBijectiveExactly(ApplyAll(db, front), ops[|ops| - 1]);
      }
    }
  }

  // ---- the runs that break the documented claim ------------------------------------------

  function TwoTenantsOneUnit(): Tables {
    Tables([Unit(0, 100, Vacant, None)],
           [Tenant(Prospective, None, None), Tenant(Prospective, None, None)], [])
  }

  /** Lease the unit to the first tenant, blacklist that tenant, lease the unit to the second. */
  function Leased(): Tables {
    Tables([Unit(0, 100, Occupied, Some(0))],
           [Tenant(Active, Some(0), Some(0)), Tenant(Prospective, None, None)], [Lease(0, 0, 0, Running)])
  }

  function Listed(): Tables {
    Tables([Unit(0, 100, Vacant, None)],
           [Tenant(Blacklisted, None, None), Tenant(Prospective, None, None)], [Lease(0, 0, 0, Running)])
  }

  function LeasedAgain(): Tables {
    Tables([Unit(0, 100, Occupied, Some(1))],
           [Tenant(Blacklisted, None, None), Tenant(Active, Some(0), Some(0))],
           [Lease(0, 0, 0, Running), Lease(1, 0, 0, Running)])
  }

  /** Then terminate the first lease: the second tenant's lease is live and its unit vacant. */
  function Broken(): Tables {
    Tables([Unit(0, 100, Vacant, None)],
           [Tenant(Vacated, None, None), Tenant(Active, Some(0), Some(0))],
           [Lease(0, 0, 0, Ended), Lease(1, 0, 0, Running)])
  }

  lemma ApplyOne(db: Tables, ops: seq<Op>, op: Op)
    requires KeysResolve(db)
    ensures ApplyAll(db, []) == db
    ensures ApplyAll(db, ops + [op]) == Apply(ApplyAll(db, ops), op)
  {
    assert (ops + [op])[..|ops|] == ops;
  }

  lemma FirstTwoSteps()
    ensures KeysResolve(TwoTenantsOneUnit()) && KeysResolve(Leased())
    ensures Apply(TwoTenantsOneUnit(), CreateLease(0, 0)) == Leased()
    ensures Apply(Leased(), Blacklist(0)) == Listed()
  {
  }

  lemma LastTwoSteps()
    ensures KeysResolve(Listed()) && KeysResolve(LeasedAgain())
    ensures Apply(Listed(), CreateLease(1, 0)) == LeasedAgain()
    ensures Apply(LeasedAgain(), Terminate(0)) == Broken()
  {
  }

  /** The documented claim, that a lease decides occupancy, fails on this run. */
  lemma BlacklistBreaksTheConverse()
    ensures KeysResolve(TwoTenantsOneUnit())
    ensures ApplyAll(TwoTenantsOneUnit(), [CreateLease(0, 0), Blacklist(0), CreateLease(1, 0), Terminate(0)]) == Broken()
    ensures Consistent(TwoTenantsOneUnit()) && Consistent(Broken()) && !Housed(Broken())
  {
    FailingRun();
    StartIsConsistent();
    hide UnitSide, TenantSide, LeaseSide, KeysResolve;
    var ops := [CreateLease(0, 0), Blacklist(0), CreateLease(1, 0), Terminate(0)];
    hide Apply, ApplyAll;
    assert Live(Broken().leases[1]);
    RunsStayConsistent(TwoTenantsOneUnit(), ops);
  }

  lemma StartIsConsistent()
    ensures Consistent(TwoTenantsOneUnit())
  {
  }

  lemma FailingRun()
    ensures KeysResolve(TwoTenantsOneUnit())
    ensures ApplyAll(TwoTenantsOneUnit(), [CreateLease(0, 0), Blacklist(0), CreateLease(1, 0), Terminate(0)]) == Broken()
  {
    hide *;
    FirstTwoSteps();
    LastTwoSteps();
    var db := TwoTenantsOneUnit();
    var ops := [CreateLease(0, 0), Blacklist(0), CreateLease(1, 0), Terminate(0)];
    ApplyOne(db, [], CreateLease(0, 0));
    assert [] + [CreateLease(0, 0)] == [CreateLease(0, 0)];
    ApplyOne(db, [CreateLease(0, 0)], Blacklist(0));
    assert [CreateLease(0, 0)] + [Blacklist(0)] == [CreateLease(0, 0), Blacklist(0)];
    ApplyOne(db, [CreateLease(0, 0), Blacklist(0)], CreateLease(1, 0));
    assert [CreateLease(0, 0), Blacklist(0)] + [CreateLease(1, 0)] == [CreateLease(0, 0), Blacklist(0), CreateLease(1, 0)];
    ApplyOne(db, [CreateLease(0, 0), Blacklist(0), CreateLease(1, 0)], Terminate(0));
    assert [CreateLease(0, 0), Blacklist(0), CreateLease(1, 0)] + [Terminate(0)] == ops;
  }

  /** A blacklisting lasts until one of the tenant's own leases is terminated: that call, and
      no other, takes a tenant off the blacklist. */
  lemma BlacklistingLastsUntilTermination(db: Tables, op: Op, t: nat)
    requires KeysResolve(db) && t < |db.tenants| && db.tenants[t].status == Blacklisted
    ensures Apply(db, op).tenants[t].status != Blacklisted
       <==> op.Terminate? && op.lease < |db.leases| && LiveFor(db, op.lease, t)
  {
  }

  /** Terminating a lease straight after creating it puts every unit back as it was; the tenant
      is left vacated and may lease the same unit again, and the lease stays on record as ended. */
  lemma TerminateUndoesCreate(db: Tables, t: nat, u: nat)
    requires Consistent(db) && CheckLease(db, t, u).Ok?
    ensures var created := WriteLease(db, t, u);
            && CheckTerminate(created, |db.leases|).Ok?
            && WriteTermination(created, |db.leases|)
            == Tables(db.units, db.tenants[t := Tenant(Vacated, None, None)],
                      db.leases + [Lease(t, u, db.units[u].property, Ended)])
            && CheckLease(WriteTermination(created, |db.leases|), t, u).Ok?
  {
    var after := WriteTermination(WriteLease(db, t, u), |db.leases|);
    assert db.units[u].tenant == None;
    assert after.units == db.units;
    CreationAccepted(db, t, u);
    CreationAccepted(after, t, u);
  }

  // ---- creations that overlap ----------------------------------------------------------------

  datatype Creation = Creation(tenant: nat, unit: nat)

  predicate InBounds(db: Tables, batch: seq<Creation>) {
    forall c | c in batch :: c.tenant < |db.tenants| && c.unit < |db.units|
  }

  /** Creations that have all passed the guards, writing one after another. */
  function WriteAll(db: Tables, batch: seq<Creation>): (after: Tables)
    requires InBounds(db, batch)
    ensures |after.units| == |db.units| && |after.tenants| == |db.tenants| && |after.leases| == |db.leases| + |batch|
  {
    if batch == [] then db
    else
      var front, last := batch[..|batch| - 1], batch[|batch| - 1];
      assert last in batch;
      WriteLease(WriteAll(db, front), last.tenant, last.unit)
  }

  predicate Unrelated(batch: seq<Creation>) {
    forall i, j | 0 <= i < j < |batch| :: batch[i].tenant != batch[j].tenant && batch[i].unit != batch[j].unit
  }

  ghost predicate LeasesOf(db: Tables, batch: seq<Creation>, after: Tables)
    requires InBounds(db, batch) && |after.leases| == |db.leases| + |batch|
  {
    && (forall i | 0 <= i < |db.leases| :: after.leases[i] == db.leases[i])
    && (forall k | 0 <= k < |batch| ::
          after.leases[|db.leases| + k] == Lease(batch[k].tenant, batch[k].unit, db.units[batch[k].unit].property, Running))
  }

  /** The batch appends one running lease each. */
  lemma {:induction false} BatchLeases(db: Tables, batch: seq<Creation>)
    requires InBounds(db, batch)
    ensures LeasesOf(db, batch, WriteAll(db, batch))
    ensures forall u | 0 <= u < |db.units| :: WriteAll(db, batch).units[u].property == db.units[u].property
  {
    if batch != [] {
      var front, last := batch[..|batch| - 1], batch[|batch| - 1];
      assert last in batch;
      BatchLeases(db, front);
    }
  }

  lemma {:induction false} BatchKeysResolve(db: Tables, batch: seq<Creation>)
    requires InBounds(db, batch) && KeysResolve(db)
    ensures KeysResolve(WriteAll(db, batch))
  {
    if batch != [] {
      var front, last := batch[..|batch| - 1], batch[|batch| - 1];
      assert last in batch;
      BatchKeysResolve(db, front);
      WriteLeaseKeysResolve(WriteAll(db, front), last.tenant, last.unit);
    }
  }

  lemma WriteLeaseKeysResolve(db: Tables, t: nat, u: nat)
    requires KeysResolve(db) && t < |db.tenants| && u < |db.units|
    ensures KeysResolve(WriteLease(db, t, u))
  {
  }

  /** And leaves every unit and tenant it does not name alone. */
  lemma {:induction false} BatchLeavesOthers(db: Tables, batch: seq<Creation>, c: Creation)
    requires InBounds(db, batch) && c.unit < |db.units| && c.tenant < |db.tenants|
    requires forall b | b in batch :: b.tenant != c.tenant && b.unit != c.unit
    ensures WriteAll(db, batch).units[c.unit] == db.units[c.unit]
    ensures WriteAll(db, batch).tenants[c.tenant] == db.tenants[c.tenant]
  {
    if batch != [] {
      var front, last := batch[..|batch| - 1], batch[|batch| - 1];
      assert last in batch;
      BatchLeavesOthers(db, front, c);
    }
  }

  /** A creation unrelated to those already written would still pass its guards now. */
  lemma StillPasses(db: Tables, batch: seq<Creation>, c: Creation)
    requires InBounds(db, batch) && CheckLease(db, c.tenant, c.unit).Ok?
    requires forall b | b in batch :: b.tenant != c.tenant && b.unit != c.unit
    ensures CheckLease(WriteAll(db, batch), c.tenant, c.unit).Ok?
  {
    BatchLeases(db, batch);
    BatchLeavesOthers(db, batch, c);
    hide WriteAll;
    var after := WriteAll(db, batch);
    forall i | 0 <= i < |after.leases|
      ensures !(after.leases[i].tenant == c.tenant && Live(after.leases[i]))
    {
      if i < |db.leases| {
        assert after.leases[i] == db.leases[i];
      } else {
        assert batch[i - |db.leases|] in batch;
        assert after.leases[|db.leases| + (i - |db.leases|)].tenant != c.tenant;
      }
    }
  }

  lemma {:induction false} UnrelatedBatchKeeps(db: Tables, batch: seq<Creation>)
    requires Consistent(db) && Housed(db) && NoBlacklistedLease(db) && Unrelated(batch)
    requires forall c | c in batch :: CheckLease(db, c.tenant, c.unit).Ok?
    ensures InBounds(db, batch)
    ensures var after := WriteAll(db, batch); Consistent(after) && Housed(after) && NoBlacklistedLease(after)
  {
    hide Consistent, Housed, NoBlacklistedLease, CheckLease, WriteLease;
    assert InBounds(db, batch) by {
      forall c | c in batch ensures c.tenant < |db.tenants| && c.unit < |db.units| {
        PassesInBounds(db, c);
      }
    }
    if batch != [] {
      var front, last := batch[..|batch| - 1], batch[|batch| - 1];
      assert last in batch;
      UnrelatedBatchKeeps(db, front);
      StillPasses(db, front, last);
      OneCreationKeeps(WriteAll(db, front), last.tenant, last.unit);
    }
  }

  lemma PassesInBounds(db: Tables, c: Creation)
    requires CheckLease(db, c.tenant, c.unit).Ok?
    ensures c.tenant < |db.tenants| && c.unit < |db.units|
  {
  }

  lemma OneCreationKeeps(db: Tables, t: nat, u: nat)
    requires Consistent(db) && Housed(db) && NoBlacklistedLease(db) && CheckLease(db, t, u).Ok?
    ensures var after := WriteLease(db, t, u); Consistent(after) && Housed(after) && NoBlacklistedLease(after)
  {
    CreateKeepsConsistent(db, t, u);
    UnblacklistedStep(db, CreateLease(t, u));
  }

  /** Any number of creations whose guards all ran before any of them wrote: the bijection holds
      afterwards if and only if no two of them share a tenant or a unit. */
  lemma OverlappingBatchExactly(db: Tables, batch: seq<Creation>)
    requires Consistent(db) && Bijective(db)
    requires forall c | c in batch :: CheckLease(db, c.tenant, c.unit).Ok?
    ensures InBounds(db, batch) && KeysResolve(WriteAll(db, batch))
    ensures Bijective(WriteAll(db, batch)) <==> Unrelated(batch)
  {
    BijectiveIsHoused(db);
    assert InBounds(db, batch) && KeysResolve(db);
    hide WriteAll, Bijective, Consistent, Housed, KeysResolve, NoBlacklistedLease, InBounds, CheckLease;
    BatchKeysResolve(db, batch);
    if Unrelated(batch) {
      UnrelatedBatchKeeps(db, batch);
      HousedIsBijective(WriteAll(db, batch));
    } else {
      var i, j :| 0 <= i < j < |batch| && (batch[i].tenant == batch[j].tenant || batch[i].unit == batch[j].unit);
      RelatedCreationsBreak(db, batch, i, j);
    }
  }

  lemma RelatedCreationsBreak(db: Tables, batch: seq<Creation>, i: nat, j: nat)
    requires InBounds(db, batch) && KeysResolve(WriteAll(db, batch)) && i < j < |batch|
    requires batch[i].tenant == batch[j].tenant || batch[i].unit == batch[j].unit
    ensures !Bijective(WriteAll(db, batch))
  {
    hide WriteAll, Bijective;
    BatchLeases(db, batch);
    TwoLiveLeases(WriteAll(db, batch), |db.leases| + i, |db.leases| + j);
  }

  lemma TwoLiveLeases(db: Tables, i: nat, j: nat)
    requires KeysResolve(db) && i < j < |db.leases| && Live(db.leases[i]) && Live(db.leases[j])
    requires db.leases[i].tenant == db.leases[j].tenant || db.leases[i].unit == db.leases[j].unit
    ensures !Bijective(db)
  {
  }

  /** Two overlapping creations are harmless exactly when they name different tenants and different
      units, which is exactly when the second would also pass guards run after the first wrote. */
  lemma OverlappingPairExactly(db: Tables, t1: nat, u1: nat, t2: nat, u2: nat)
    requires Consistent(db) && Bijective(db)
    requires CheckLease(db, t1, u1).Ok? && CheckLease(db, t2, u2).Ok?
    ensures KeysResolve(WriteLease(WriteLease(db, t1, u1), t2, u2))
    ensures Bijective(WriteLease(WriteLease(db, t1, u1), t2, u2)) <==> t1 != t2 && u1 != u2
    ensures CheckLease(WriteLease(db, t1, u1), t2, u2).Ok? <==> t1 != t2 && u1 != u2
  {
    var batch := [Creation(t1, u1), Creation(t2, u2)];
    assert batch[0] == Creation(t1, u1) && batch[1] == Creation(t2, u2);
    assert Unrelated(batch) <==> t1 != t2 && u1 != u2;
    SecondCheck(db, t1, u1, t2, u2);
    hide Consistent, Housed, NoBlacklistedLease, CheckLease, Bijective, KeysResolve, WriteLease, WriteAll, Unrelated;
    assert forall c | c in batch :: c == batch[0] || c == batch[1];
    OverlappingBatchExactly(db, batch);
    PairIsBatch(db, t1, u1, t2, u2);
  }

  lemma PairIsBatch(db: Tables, t1: nat, u1: nat, t2: nat, u2: nat)
    requires InBounds(db, [Creation(t1, u1), Creation(t2, u2)])
    ensures t1 < |db.tenants| && u1 < |db.units| && t2 < |db.tenants| && u2 < |db.units|
    ensures WriteAll(db, [Creation(t1, u1), Creation(t2, u2)]) == WriteLease(WriteLease(db, t1, u1), t2, u2)
  {
    var batch := [Creation(t1, u1), Creation(t2, u2)];
    assert batch[0] in batch && batch[1] in batch;
    hide WriteLease;
    assert batch[..1] == [Creation(t1, u1)] && batch[..1][..0] == [];
    assert WriteAll(db, []) == db;
    assert WriteAll(db, [Creation(t1, u1)]) == WriteLease(db, t1, u1);
  }

  lemma SecondCheck(db: Tables, t1: nat, u1: nat, t2: nat, u2: nat)
    requires CheckLease(db, t1, u1).Ok? && CheckLease(db, t2, u2).Ok?
    ensures CheckLease(WriteLease(db, t1, u1), t2, u2).Ok? <==> t1 != t2 && u1 != u2
  {
    var after := WriteLease(db, t1, u1);
    if t1 == t2 {
      assert after.leases[|db.leases|].tenant == t2 && Live(after.leases[|db.leases|]);
    } else {
      forall i | 0 <= i < |after.leases|
        ensures !(after.leases[i].tenant == t2 && Live(after.leases[i]))
      {
        if i < |db.leases| {
          assert after.leases[i] == db.leases[i];
        }
      }
    }
  }

  /** The guards run before the transaction and lock nothing: two calls that both pass them
      leave two live leases on one unit. */
  lemma OverlappingLeases(db: Tables, t1: nat, t2: nat, u: nat)
    requires KeysResolve(db) && t1 != t2
    requires CheckLease(db, t1, u).Ok? && CheckLease(db, t2, u).Ok?
    ensures var end := WriteLease(WriteLease(db, t1, u), t2, u);
            LeasedTo(end, u, t1) && LeasedTo(end, u, t2) && end.units[u].tenant == Some(t2)
  {
    var end := WriteLease(WriteLease(db, t1, u), t2, u);
    assert LiveFor(end, |db.leases|, t1) && LiveFor(end, |db.leases| + 1, t2);
  }

  // ---- the services -------------------------------------------------------------------------

  /** The three tables with the calls that write their occupancy columns. */
  class OccupancyService {
    var units: seq<Unit>
    var tenants: seq<Tenant>
    var leases: seq<Lease>

    function Db(): Tables
      reads this
    {
      Tables(units, tenants, leases)
    }

    constructor (db: Tables)
      ensures Db() == db
    {
      units, tenants, leases := db.units, db.tenants, db.leases;
    }

    method OccupyUnit(unit: nat, tenant: nat)
      requires unit < |units|
      modifies this`units
      ensures Db() == Occupy(old(Db()), unit, tenant)
    {
      units := units[unit := units[unit].(tenant := Some(tenant), status := Occupied)];
    }

    method VacateUnit(unit: nat)
      requires unit < |units|
      modifies this`units
      ensures Db() == Vacate(old(Db()), unit)
    {
      units := units[unit := units[unit].(tenant := None, status := Vacant)];
    }

    method OccupyForLease(tenant: nat, unit: nat, property: nat)
      requires tenant < |tenants|
      modifies this`tenants
      ensures Db() == SetTenant(old(Db()), tenant, Active, Some(unit), Some(property))
    {
      tenants := tenants[tenant := tenants[tenant].(status := Active, unit := Some(unit), property := Some(property))];
    }

    method VacateForLease(tenant: nat)
      requires tenant < |tenants|
      modifies this`tenants
      ensures Db() == SetTenant(old(Db()), tenant, Vacated, None, None)
    {
      tenants := tenants[tenant := tenants[tenant].(status := Vacated, unit := None, property := None)];
    }

    /** The query for an active or ending lease of the tenant. */
    method FindLiveLease(tenant: nat) returns (found: Option<nat>)
      ensures found.Some? ==> LiveFor(Db(), found.value, tenant)
      ensures found.None? ==> !HoldsLease(Db(), tenant)
    {
      for i := 0 to |leases|
        invariant forall j | 0 <= j < i :: !(leases[j].tenant == tenant && Live(leases[j]))
      {
        if leases[i].tenant == tenant && Live(leases[i]) {
          return Some(i);
        }
      }
      found := None;
    }

    /** The guards of `create`, before its transaction. */
    method CheckCreation(tenant: nat, unit: nat) returns (r: Result<()>)
      ensures r == CheckLease(Db(), tenant, unit)
    {
      if tenant >= |tenants| || unit >= |units| {
        return Err(NotFound);
      }
      if units[unit].status == Occupied {
        return Err(Conflict("unit occupied"));
      }
      if tenants[tenant].status == Blacklisted {
        return Err(BadRequest("blacklisted"));
      }
      var existing := FindLiveLease(tenant);
      r := if existing.Some? then Err(Conflict("already leased")) else Ok(());
    }

    method Create(tenant: nat, unit: nat) returns (r: Result<nat>)
      requires KeysResolve(Db())
      modifies this
      ensures Db() == Apply(old(Db()), CreateLease(tenant, unit))
      ensures match CheckLease(old(Db()), tenant, unit)
              case Ok(_) => r == Ok(|old(leases)|)
              case Err(e) => r == Err(e)
      ensures r.Ok? ==> && leases == old(leases) + [Lease(tenant, unit, old(units)[unit].property, Running)]
                        && units[unit].tenant == Some(tenant) && tenants[tenant].unit == Some(unit)
                        && units[unit].status == Occupied && tenants[tenant].status == Active
      ensures r.Err? ==> Db() == old(Db())
    {
      var check := CheckCreation(tenant, unit);
      if check.Err? {
        return Err(check.error);
      }
      var property := units[unit].property;
      leases := leases + [Lease(tenant, unit, property, Running)];
      OccupyUnit(unit, tenant);
      OccupyForLease(tenant, unit, property);
      r := Ok(|leases| - 1);
    }

    method TerminateLease(lease: nat) returns (r: Result<()>)
      requires KeysResolve(Db())
      modifies this
      ensures Db() == Apply(old(Db()), Terminate(lease))
      ensures r == CheckTerminate(old(Db()), lease)
      ensures r.Ok? ==> && leases == old(leases)[lease := old(leases)[lease].(status := Ended)]
                        && units[leases[lease].unit].tenant == None && tenants[leases[lease].tenant].unit == None
      ensures r.Err? ==> Db() == old(Db())
    {
      if lease >= |leases| {
        return Err(NotFound);
      }
      var row := leases[lease];
      if row.status == Ended {
        return Err(BadRequest("already ended"));
      }
      assert Linked(Db(), row);
      leases := leases[lease := row.(status := Ended)];
      VacateUnit(row.unit);
      VacateForLease(row.tenant);
      r := Ok(());
    }

    method BlacklistTenant(tenant: nat) returns (r: Result<()>)
      requires KeysResolve(Db())
      modifies this
      ensures Db() == Apply(old(Db()), Blacklist(tenant))
      ensures r == CheckBlacklist(old(Db()), tenant)
      ensures leases == old(leases)
      ensures r.Ok? ==> && tenants[tenant].status == Blacklisted && tenants[tenant].unit == None
                        && (old(tenants)[tenant].unit.Some? ==> var u := old(tenants)[tenant].unit.value;
                                                               u < |units| && units[u].tenant == None)
      ensures r.Err? ==> Db() == old(Db())
    {
      if tenant >= |tenants| {
        return Err(NotFound);
      }
      var row := tenants[tenant];
      if row.status == Blacklisted {
        return Err(BadRequest("already blacklisted"));
      }
      assert PointsInside(Db(), tenant);
      if row.unit.Some? {
        VacateUnit(row.unit.value);
      }
      tenants := tenants[tenant := row.(status := Blacklisted, unit := None, property := None)];
      r := Ok(());
    }
  }
}
