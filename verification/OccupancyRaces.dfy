/** Occupancy calls in flight together: each checks its guards on what it reads and writes later,
    with other reads and writes in between. */
module OccupancyRaces {
  import opened Outcomes
  import opened Occupancy

  /** A call past its guards. Blacklisting also carries the unit its tenant row named when read. */
  datatype InFlight =
    | Creating(tenant: nat, unit: nat)
    | Terminating(lease: nat)
    | Blacklisting(tenant: nat, read: Option<nat>)

  datatype System = System(db: Tables, calls: map<nat, InFlight>)

  datatype Step = Start(call: nat, op: Op) | Finish(call: nat)

  /** The guards of a call, as it reads the tables. */
  function Begin(db: Tables, op: Op): Option<InFlight> {
    match op
    case CreateLease(t, u) => if CheckLease(db, t, u).Ok? then Some(Creating(t, u)) else None
    case Terminate(l) => if CheckTerminate(db, l).Ok? then Some(Terminating(l)) else None
    case Blacklist(t) => if CheckBlacklist(db, t).Ok? then Some(Blacklisting(t, db.tenants[t].unit)) else None
    case _ => None
  }

  predicate Targets(db: Tables, c: InFlight) {
    match c
    case Creating(t, u) => t < |db.tenants| && u < |db.units|
    case Terminating(l) => l < |db.leases|
    case Blacklisting(t, u) => t < |db.tenants| && (u.Some? ==> u.value < |db.units|)
  }

  /** The writes of a call, whatever the tables hold by now. */
  ghost function Write(db: Tables, c: InFlight): (after: Tables)
    requires KeysResolve(db) && Targets(db, c)
  {
    match c
    case Creating(t, u) => WriteLease(db, t, u)
    case Terminating(l) => WriteTermination(db, l)
    case Blacklisting(t, u) =>
      SetTenant(match u case Some(unit) => Vacate(db, unit) case None => db, t, TenantStatus.Blacklisted, None, None)
  }

  ghost predicate Tidy(s: System) {
    KeysResolve(s.db) && forall c | c in s.calls :: Targets(s.db, s.calls[c])
  }

  /** Adding a unit or a tenant is a single insert. */
  ghost function Next(s: System, step: Step): (after: System)
    requires Tidy(s)
  {
    match step
    case Start(call, op) =>
      if op.AddUnit? || op.Onboard? then s.(db := Apply(s.db, op))
      else if call in s.calls || Begin(s.db, op).None? then s
      else s.(calls := s.calls[call := Begin(s.db, op).value])
    case Finish(call) =>
      if call !in s.calls then s else System(Write(s.db, s.calls[call]), s.calls - {call})
  }

  lemma WriteKeepsTidy(db: Tables, c: InFlight)
    requires KeysResolve(db) && Targets(db, c)
    ensures KeysResolve(Write(db, c))
    ensures |Write(db, c).units| == |db.units| && |Write(db, c).tenants| == |db.tenants|
    ensures |Write(db, c).leases| >= |db.leases|
  {
  }

  lemma NextKeepsTidy(s: System, step: Step)
    requires Tidy(s)
    ensures Tidy(Next(s, step))
  {
    match step
    case Finish(call) =>
      if call in s.calls {
        WriteKeepsTidy(s.db, s.calls[call]);
        hide Write, KeysResolve;
      }
    case Start(call, op) =>
  }

  ghost function Run(s: System, steps: seq<Step>): (after: System)
    requires Tidy(s)
    ensures Tidy(after)
  {
    if steps == [] then s
    else
      var before := Run(s, steps[..|steps| - 1]);
      NextKeepsTidy(before, steps[|steps| - 1]);
      Next(before, steps[|steps| - 1])
  }

  /** A call that starts and finishes with nothing in between is the serial call. */
  lemma UninterruptedIsApply(db: Tables, op: Op)
    requires KeysResolve(db)
    ensures Tidy(Next(System(db, map[]), Start(0, op)))
    ensures Next(Next(System(db, map[]), Start(0, op)), Finish(0)) == System(Apply(db, op), map[])
  {
    var s := System(db, map[]);
    NextKeepsTidy(s, Start(0, op));
    hide KeysResolve, WriteLease, WriteTermination, CheckLease;
    assert map[] == Next(s, Start(0, op)).calls - {0};
  }

  // ---- exactly which writes are harmless ------------------------------------------------------

  /** What a call would have to find at its write: a free unit and tenant; the lease still live, or
      neither its unit nor its tenant taken again; the tenant without a lease and the unit it read
      not taken. */
  predicate Harmless(db: Tables, c: InFlight)
    requires Targets(db, c) && (c.Terminating? ==> Linked(db, db.leases[c.lease]))
  {
    match c
    case Creating(t, u) => Free(db, t, u)
    case Terminating(l) =>
      Live(db.leases[l]) || (db.units[db.leases[l].unit].tenant.None? && db.tenants[db.leases[l].tenant].unit.None?)
    case Blacklisting(t, u) => !HoldsLease(db, t) && (u.Some? ==> db.units[u.value].tenant.None?)
  }

  lemma CreatingExactly(db: Tables, t: nat, u: nat)
    requires Consistent(db) && Bijective(db) && t < |db.tenants| && u < |db.units|
    ensures KeysResolve(WriteLease(db, t, u))
    ensures Bijective(WriteLease(db, t, u)) <==> Free(db, t, u)
    ensures Free(db, t, u) ==> Consistent(WriteLease(db, t, u))
  {
    WriteLeaseKeysResolve(db, t, u);
    var after := WriteLease(db, t, u);
    if Free(db, t, u) {
      BijectiveIsHoused(db);
      CreateKeepsConsistent(db, t, u);
      CreateKeepsHoused(db, t, u);
      CreateAddsNoBlacklisted(db, t, u);
      hide Consistent, Bijective, Housed, WriteLease, NoBlacklistedLease;
      BijectiveIsHoused(after);
    } else {
      var i := RivalLease(db, t, u);
      hide Bijective, Consistent, KeysResolve;
      assert after.leases[i] == db.leases[i];
      TwoLiveLeases(after, i, |db.leases|);
    }
  }

  lemma CreateAddsNoBlacklisted(db: Tables, t: nat, u: nat)
    requires KeysResolve(db) && NoBlacklistedLease(db) && Free(db, t, u) && KeysResolve(WriteLease(db, t, u))
    ensures NoBlacklistedLease(WriteLease(db, t, u))
  {
    hide HoldsLease;
  }

  /** The live lease that a creation on a taken unit or tenant collides with. */
  lemma RivalLease(db: Tables, t: nat, u: nat) returns (i: nat)
    requires Consistent(db) && t < |db.tenants| && u < |db.units| && !Free(db, t, u)
    ensures i < |db.leases| && Live(db.leases[i]) && (db.leases[i].tenant == t || db.leases[i].unit == u)
  {
    if db.units[u].status == Occupied {
      var other := db.units[u].tenant.value;
      assert db.tenants[other].unit == Some(u) && LeasedTo(db, u, other);
      var j: nat :| LiveFor(db, j, other) && db.leases[j].unit == u;
      i := j;
    } else {
      var j :| 0 <= j < |db.leases| && db.leases[j].tenant == t && Live(db.leases[j]);
      i := j;
    }
  }

  /** Changing the status of a tenant who points at no unit, to one of no standing. */
  lemma IdleTenantChanges(db: Tables, t: nat, status: TenantStatus)
    requires Consistent(db) && Bijective(db) && t < |db.tenants| && db.tenants[t].unit.None? && !GoodStanding(status)
    ensures var after := SetTenant(db, t, status, None, None); Consistent(after) && Bijective(after)
  {
    var after := SetTenant(db, t, status, None, None);
    BijectiveIsHoused(db);
    forall i | 0 <= i < |db.leases| && Live(db.leases[i])
      ensures db.leases[i].tenant != t
    {
      LiveLeaseIsLeased(db, i);
    }
    assert KeysResolve(after) && UnitSide(after) && LeaseSide(after) by {
      hide LeasedTo, Bijective;
    }
    TenantSideSurvives(db, after, None, t);
    assert Housed(after) && NoBlacklistedLease(after) by {
      hide LeasedTo, Bijective, TenantSide;
    }
    hide Housed, NoBlacklistedLease, Bijective, UnitSide, TenantSide, LeaseSide, KeysResolve;
    BijectiveIsHoused(after);
  }

  /** Emptying a unit or a tenant whose live lease stays breaks the bijection. */
  lemma EvictionBreaks(db: Tables, after: Tables, u: nat, t: nat)
    requires KeysResolve(after) && LeasedTo(db, u, t) && after.leases == db.leases
    requires u < |after.units| && t < |after.tenants| && (after.units[u].tenant.None? || after.tenants[t].unit.None?)
    ensures !Bijective(after)
  {
    var i: nat :| LiveFor(db, i, t) && db.leases[i].unit == u;
    if Bijective(after) {
      LiveLeaseIsLeased(after, i);
    }
  }

  lemma TerminatingExactly(db: Tables, l: nat)
    requires Consistent(db) && Bijective(db) && l < |db.leases|
    ensures KeysResolve(WriteTermination(db, l))
    ensures Bijective(WriteTermination(db, l)) <==> Harmless(db, Terminating(l))
    ensures Harmless(db, Terminating(l)) ==> Consistent(WriteTermination(db, l))
  {
    var row, after := db.leases[l], WriteTermination(db, l);
    WriteKeepsTidy(db, Terminating(l));
    if Live(row) {
      LiveLeaseIsLeased(db, l);
      ApplyBijectiveExactly(db, Terminate(l));
      ApplyKeepsConsistent(db, Terminate(l));
    } else {
      EndedAgain(db, l);
    }
  }

  /** Terminating a lease that has ended in the meantime. */
  lemma EndedAgain(db: Tables, l: nat)
    requires Consistent(db) && Bijective(db) && l < |db.leases| && !Live(db.leases[l])
    requires KeysResolve(WriteTermination(db, l))
    ensures Bijective(WriteTermination(db, l)) <==> Harmless(db, Terminating(l))
    ensures Harmless(db, Terminating(l)) ==> Consistent(WriteTermination(db, l))
  {
    var row, after := db.leases[l], WriteTermination(db, l);
    var u, t := row.unit, row.tenant;
    assert after.leases == db.leases;
    if db.units[u].tenant.Some? {
      assert db.tenants[db.units[u].tenant.value].unit == Some(u);
      EvictionBreaks(db, after, u, db.units[u].tenant.value);
    } else if db.tenants[t].unit.Some? {
      EvictionBreaks(db, after, db.tenants[t].unit.value, t);
    } else {
      IdleTenantChanges(db, t, Vacated);
      assert db.units[u].status == Vacant;
      assert after.units == db.units;
      assert after == SetTenant(db, t, Vacated, None, None);
    }
  }

  lemma BlacklistingExactly(db: Tables, t: nat, u: Option<nat>)
    requires Consistent(db) && Bijective(db) && Targets(db, Blacklisting(t, u))
    ensures KeysResolve(Write(db, Blacklisting(t, u)))
    ensures Bijective(Write(db, Blacklisting(t, u))) <==> Harmless(db, Blacklisting(t, u))
    ensures Harmless(db, Blacklisting(t, u)) ==> Consistent(Write(db, Blacklisting(t, u)))
  {
    WriteKeepsTidy(db, Blacklisting(t, u));
    var after := Write(db, Blacklisting(t, u));
    if HoldsLease(db, t) {
      var i :| 0 <= i < |db.leases| && db.leases[i].tenant == t && Live(db.leases[i]);
      assert LiveFor(db, i, t);
      assert LeasedTo(db, db.leases[i].unit, t);
      EvictionBreaks(db, after, db.leases[i].unit, t);
    } else if u.Some? && db.units[u.value].tenant.Some? {
      assert db.tenants[db.units[u.value].tenant.value].unit == Some(u.value);
      EvictionBreaks(db, after, u.value, db.units[u.value].tenant.value);
    } else {
      NoLeaseNoUnit(db, t);
      IdleTenantChanges(db, t, TenantStatus.Blacklisted);
      assert u.Some? ==> db.units[u.value].status == Vacant;
      assert after.units == db.units;
      assert after == SetTenant(db, t, TenantStatus.Blacklisted, None, None);
    }
  }

  lemma NoLeaseNoUnit(db: Tables, t: nat)
    requires Consistent(db) && t < |db.tenants| && !HoldsLease(db, t)
    ensures db.tenants[t].unit.None?
  {
  }

  /** A write keeps the bijection if and only if it is harmless at the moment it is made, and then
      keeps every link. */
  lemma WriteExactly(db: Tables, c: InFlight)
    requires Consistent(db) && Bijective(db) && Targets(db, c)
    ensures KeysResolve(Write(db, c))
    ensures Bijective(Write(db, c)) <==> Harmless(db, c)
    ensures Harmless(db, c) ==> Consistent(Write(db, c))
  {
    assert KeysResolve(db);
    hide Consistent, Bijective, Harmless, KeysResolve, WriteLease, WriteTermination;
    match c
    case Creating(t, u) => CreatingExactly(db, t, u); HarmlessCreation(db, t, u);
    case Terminating(l) => TerminatingExactly(db, l);
    case Blacklisting(t, u) => BlacklistingExactly(db, t, u);
  }

  lemma HarmlessCreation(db: Tables, t: nat, u: nat)
    requires t < |db.tenants| && u < |db.units|
    ensures Harmless(db, Creating(t, u)) <==> Free(db, t, u)
  {
  }

  // ---- runs --------------------------------------------------------------------------------

  ghost predicate HarmlessStep(s: System, step: Step)
    requires Tidy(s)
  {
    step.Finish? && step.call in s.calls ==> Harmless(s.db, s.calls[step.call])
  }

  ghost predicate HarmlessRun(s: System, steps: seq<Step>)
    requires Tidy(s)
  {
    steps == [] ||
    var front := steps[..|steps| - 1];
    HarmlessRun(s, front) && HarmlessStep(Run(s, front), steps[|steps| - 1])
  }

  ghost predicate StaysBijective(s: System, steps: seq<Step>)
    requires Tidy(s)
  {
    Bijective(Run(s, steps).db) && (steps == [] || StaysBijective(s, steps[..|steps| - 1]))
  }

  lemma NextExactly(s: System, step: Step)
    requires Tidy(s) && Consistent(s.db) && Bijective(s.db)
    ensures KeysResolve(Next(s, step).db)
    ensures Bijective(Next(s, step).db) <==> HarmlessStep(s, step)
    ensures HarmlessStep(s, step) ==> Consistent(Next(s, step).db)
  {
    NextKeepsTidy(s, step);
    hide Consistent, Bijective, Harmless, KeysResolve, Write, Apply;
    match step
    case Finish(call) => if call in s.calls { WriteExactly(s.db, s.calls[call]); }
    case Start(call, op) =>
      if op.AddUnit? || op.Onboard? {
        ApplyKeepsConsistent(s.db, op);
        ApplyBijectiveExactly(s.db, op);
      }
  }

  /** However creations, terminations and blacklistings overlap, the bijection holds all along if
      and only if each of them still finds, at its write, what makes it harmless. */
  lemma {:induction false} RacesExactly(s: System, steps: seq<Step>)
    requires Tidy(s) && Consistent(s.db) && Bijective(s.db)
    ensures StaysBijective(s, steps) <==> HarmlessRun(s, steps)
    ensures HarmlessRun(s, steps) ==> Consistent(Run(s, steps).db) && Bijective(Run(s, steps).db)
  {
    hide Consistent, Bijective, HarmlessStep, Tidy, Next;
    if steps != [] {
      var front := steps[..|steps| - 1];
      RacesExactly(s, front);
      if HarmlessRun(s, front) {
        TidyDb(Run(s, front));
        NextExactly(Run(s, front), steps[|steps| - 1]);
      }
    }
  }

  lemma TidyDb(s: System)
    requires Tidy(s)
    ensures KeysResolve(s.db)
  {
  }

  /** A blacklisting is undone by exactly two writes: a creation that checked the tenant before it,
      and a termination of one of the tenant's leases. */
  lemma BlacklistingUndoneExactly(db: Tables, c: InFlight, t: nat)
    requires KeysResolve(db) && Targets(db, c) && t < |db.tenants| && db.tenants[t].status == TenantStatus.Blacklisted
    ensures |Write(db, c).tenants| == |db.tenants|
    ensures Write(db, c).tenants[t].status != TenantStatus.Blacklisted
       <==> (c.Creating? && c.tenant == t) || (c.Terminating? && db.leases[c.lease].tenant == t)
  {
  }

  // ---- two failing runs --------------------------------------------------------------------

  lemma FourSteps(s: System, a: Step, b: Step, c: Step, d: Step)
    requires Tidy(s)
    ensures Tidy(Next(s, a)) && Tidy(Next(Next(s, a), b)) && Tidy(Next(Next(Next(s, a), b), c))
    ensures Tidy(Next(Next(Next(Next(s, a), b), c), d))
    ensures Run(s, [a, b, c, d]) == Next(Next(Next(Next(s, a), b), c), d)
  {
    NextKeepsTidy(s, a);
    NextKeepsTidy(Next(s, a), b);
    NextKeepsTidy(Next(Next(s, a), b), c);
    NextKeepsTidy(Next(Next(Next(s, a), b), c), d);
    hide Next, Tidy;
    assert [a, b, c, d][..3] == [a, b, c] && [a, b, c][..2] == [a, b] && [a, b][..1] == [a] && [a][..0] == [];
    assert Run(s, []) == s;
    assert Run(s, [a]) == Next(s, a);
    assert Run(s, [a, b]) == Next(Run(s, [a]), b);
    assert Run(s, [a, b, c]) == Next(Run(s, [a, b]), c);
  }

  lemma TwoMoreSteps(s: System, a: Step, b: Step, c: Step, d: Step, e: Step, f: Step)
    requires Tidy(s)
    ensures Run(s, [a, b, c, d, e, f]) == Run(Run(s, [a, b, c, d]), [e, f])
    ensures var half := Run(s, [a, b, c, d]);
            Tidy(Next(half, e)) && Run(half, [e, f]) == Next(Next(half, e), f)
  {
    var half := Run(s, [a, b, c, d]);
    NextKeepsTidy(half, e);
    hide Next, Tidy;
    assert [a, b, c, d, e, f][..5] == [a, b, c, d, e] && [a, b, c, d, e][..4] == [a, b, c, d];
    assert [e, f][..1] == [e] && [e][..0] == [];
    assert Run(half, []) == half;
    assert Run(half, [e]) == Next(half, e);
    assert Run(s, [a, b, c, d, e]) == Next(half, e);
  }

  lemma Starts(s: System, call: nat, op: Op, c: InFlight)
    requires Tidy(s) && call !in s.calls && !op.AddUnit? && !op.Onboard? && Begin(s.db, op) == Some(c)
    ensures Next(s, Start(call, op)) == System(s.db, s.calls[call := c])
  {
  }

  lemma Finishes(s: System, call: nat)
    requires Tidy(s) && call in s.calls
    ensures Next(s, Finish(call)) == System(Write(s.db, s.calls[call]), s.calls - {call})
  {
  }

  /** A creation that checked the tenant before it was blacklisted takes it off the list again. */
  lemma CreationUndoesBlacklisting(db: Tables, t: nat, u: nat)
    requires KeysResolve(db) && CheckLease(db, t, u).Ok?
    ensures Tidy(System(db, map[]))
    ensures var end := Run(System(db, map[]), [Start(1, CreateLease(t, u)), Start(2, Blacklist(t)), Finish(2), Finish(1)]);
            t < |end.db.tenants| && end.db.tenants[t].status == Active && LeasedTo(end.db, u, t)
  {
    var s := System(db, map[]);
    var c, b := Creating(t, u), Blacklisting(t, db.tenants[t].unit);
    var listed := Write(db, b);
    WriteKeepsTidy(db, b);
    ListedThenLeased(listed, t, u);
    assert Begin(db, CreateLease(t, u)) == Some(c) && Begin(db, Blacklist(t)) == Some(b);
    assert Tidy(s);
    FourSteps(s, Start(1, CreateLease(t, u)), Start(2, Blacklist(t)), Finish(2), Finish(1));
    hide Begin, Write, Next, Run, KeysResolve, LeasedTo, CheckLease, Targets, Tidy;
    Starts(s, 1, CreateLease(t, u), c);
    var s1 := Next(s, Start(1, CreateLease(t, u)));
    Starts(s1, 2, Blacklist(t), b);
    var s2 := Next(s1, Start(2, Blacklist(t)));
    Finishes(s2, 2);
    Finishes(Next(s2, Finish(2)), 1);
  }

  lemma ListedThenLeased(db: Tables, t: nat, u: nat)
    requires KeysResolve(db) && t < |db.tenants| && u < |db.units|
    ensures var after := Write(db, Creating(t, u));
            t < |after.tenants| && after.tenants[t].status == Active && LeasedTo(after, u, t)
  {
    assert LiveFor(Write(db, Creating(t, u)), |db.leases|, t);
  }

  /** Two terminations of one lease, with the unit let again in between: the second one evicts the
      new tenant, whose lease stays live. */
  lemma SecondTerminationEvicts(db: Tables, l: nat, t: nat)
    requires KeysResolve(db) && CheckTerminate(db, l).Ok?
    requires CheckLease(WriteTermination(db, l), t, db.leases[l].unit).Ok?
    ensures Tidy(System(db, map[]))
    ensures var u := db.leases[l].unit;
            var end := Run(System(db, map[]), [Start(1, Terminate(l)), Start(2, Terminate(l)), Finish(1),
                                               Start(3, CreateLease(t, u)), Finish(3), Finish(2)]).db;
            u < |end.units| && end.units[u].tenant.None? && LeasedTo(end, u, t) && !Bijective(end)
  {
    var u := db.leases[l].unit;
    var s := System(db, map[]);
    TwoMoreSteps(s, Start(1, Terminate(l)), Start(2, Terminate(l)), Finish(1), Start(3, CreateLease(t, u)), Finish(3), Finish(2));
    var half := BothPastGuards(db, l, t);
    ReletThenEvicted(db, l, t);
    hide *;
    FinishBoth(half, l, t, u);
  }

  lemma FinishBoth(half: System, l: nat, t: nat, u: nat)
    requires Tidy(half) && 2 in half.calls && half.calls[2] == Terminating(l)
    requires 3 in half.calls && half.calls[3] == Creating(t, u)
    ensures Tidy(Next(half, Finish(3)))
    ensures t < |half.db.tenants| && u < |half.db.units|
    ensures var relet := WriteLease(half.db, t, u);
            && KeysResolve(relet) && l < |relet.leases|
            && Next(Next(half, Finish(3)), Finish(2)).db == WriteTermination(relet, l)
  {
    NextKeepsTidy(half, Finish(3));
    Finishes(half, 3);
    Finishes(Next(half, Finish(3)), 2);
  }

  lemma BothPastGuards(db: Tables, l: nat, t: nat) returns (half: System)
    requires KeysResolve(db) && CheckTerminate(db, l).Ok?
    requires CheckLease(WriteTermination(db, l), t, db.leases[l].unit).Ok?
    ensures Tidy(System(db, map[]))
    ensures var steps := [Start(1, Terminate(l)), Start(2, Terminate(l)), Finish(1), Start(3, CreateLease(t, db.leases[l].unit))];
            half == Run(System(db, map[]), steps)
    ensures Tidy(half) && half.db == WriteTermination(db, l)
    ensures 2 in half.calls && half.calls[2] == Terminating(l)
    ensures 3 in half.calls && half.calls[3] == Creating(t, db.leases[l].unit)
  {
    var s, u := System(db, map[]), db.leases[l].unit;
    var x, c := Terminating(l), Creating(t, u);
    var ended := Write(db, x);
    assert Begin(db, Terminate(l)) == Some(x) && Begin(ended, CreateLease(t, u)) == Some(c);
    assert Tidy(s);
    FourSteps(s, Start(1, Terminate(l)), Start(2, Terminate(l)), Finish(1), Start(3, CreateLease(t, u)));
    hide Begin, Next, Run, KeysResolve, CheckLease, Targets, Tidy, WriteTermination;
    Starts(s, 1, Terminate(l), x);
    var s1 := Next(s, Start(1, Terminate(l)));
    Starts(s1, 2, Terminate(l), x);
    var s2 := Next(s1, Start(2, Terminate(l)));
    Finishes(s2, 1);
    var s3 := Next(s2, Finish(1));
    Starts(s3, 3, CreateLease(t, u), c);
    half := Next(s3, Start(3, CreateLease(t, u)));
  }

  lemma ReletThenEvicted(db: Tables, l: nat, t: nat)
    requires KeysResolve(db) && CheckTerminate(db, l).Ok?
    requires CheckLease(WriteTermination(db, l), t, db.leases[l].unit).Ok?
    ensures KeysResolve(WriteTermination(db, l)) && KeysResolve(WriteLease(WriteTermination(db, l), t, db.leases[l].unit))
    ensures var u := db.leases[l].unit;
            var end := WriteTermination(WriteLease(WriteTermination(db, l), t, u), l);
            KeysResolve(end) && u < |end.units| && end.units[u].tenant.None? && LeasedTo(end, u, t) && !Bijective(end)
  {
    var u, ended := db.leases[l].unit, WriteTermination(db, l);
    WriteKeepsTidy(db, Terminating(l));
    var relet := WriteLease(ended, t, u);
    WriteLeaseKeysResolve(ended, t, u);
    var end := WriteTermination(relet, l);
    WriteKeepsTidy(relet, Terminating(l));
    var i := |db.leases|;
    assert end.leases[i] == Lease(t, u, ended.units[u].property, Running);
    assert LiveFor(end, i, t);
    hide KeysResolve, Bijective;
    if Bijective(end) {
      LiveLeaseIsLeased(end, i);
    }
  }
}
