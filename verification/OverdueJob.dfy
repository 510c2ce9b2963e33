/** The daily overdue job among everything else that happens to invoices: each execution loads
    its candidates, then fires one trigger and stamps one row at a time. */
module OverdueJob {
  import opened Outcomes
  import opened Ledger
  import Interleaving
  import Calendar
  import Numbering
  import opened Tally

  const DAY: int := 86400000

  /** The UTC date, as a day number, of an instant in milliseconds. */
  function Today(now: int): int {
    now / DAY
  }

  /** The entity's `isOverdue`: unpaid, not voided, and past the midnight its due date begins. */
  predicate IsOverdue(inv: Invoice, now: int) {
    inv.status != Paid && inv.status != Void && inv.due * DAY < now
  }

  /** The job's query. */
  predicate Candidate(inv: Invoice, today: int) {
    (inv.status == Due || inv.status == Partial) && inv.due < today && inv.overdueNotifiedAt == None
  }

  /** The query and the entity disagree only on invoices due today and on those already stamped. */
  lemma CandidatesAreOverdue(inv: Invoice, now: int)
    ensures Candidate(inv, Today(now))
       <==> IsOverdue(inv, now) && inv.due != Today(now) && inv.overdueNotifiedAt == None
  {
    var today := Today(now);
    assert DAY * today <= now < DAY * today + DAY;
    if inv.due < today {
      assert inv.due * DAY <= (today - 1) * DAY;
    } else {
      assert inv.due * DAY >= today * DAY;
    }
  }

  /** Every instant of a civil UTC day has that day for its date. */
  lemma TodayIsUtcDate(d: Calendar.Date, millis: int)
    requires 0 <= millis < 24 * 60 * 60 * 1000
    ensures Today(Calendar.DayNumber(d) * 24 * 60 * 60 * 1000 + millis) == Calendar.DayNumber(d)
  {
    assert DAY == 24 * 60 * 60 * 1000;
    SameDay(Calendar.DayNumber(d), millis);
  }

  lemma SameDay(day: int, millis: int)
    requires 0 <= millis < DAY
    ensures (day * DAY + millis) / DAY == day
  {
  }

  /** In balanced books an invoice is overdue exactly when its due day has begun, it is not void,
      and it has not been paid in full. */
  lemma OverdueMeansUnpaid(db: Tables, i: nat, now: int)
    requires Exact(db) && i < |db.invoices|
    ensures IsOverdue(db.invoices[i], now)
       <==> && db.invoices[i].due * 24 * 60 * 60 * 1000 < now && db.invoices[i].status != Void
            && !(HasReceipt(db, i) && db.invoices[i].balance == 0)
  {
    assert Balanced(db, i);
    ReceivedBounds(db.payments, i);
  }

  function Candidates(invoices: seq<Invoice>, today: int): (ids: seq<nat>)
    ensures forall k | 0 <= k < |ids| :: ids[k] < |invoices| && Candidate(invoices[ids[k]], today)
    ensures forall i | 0 <= i < |invoices| && Candidate(invoices[i], today) :: i in ids
    ensures forall j, k | 0 <= j < k < |ids| :: ids[j] < ids[k]
  {
    if invoices == [] then []
    else
      var n := |invoices| - 1;
      var ids := Candidates(invoices[..n], today);
      if Candidate(invoices[n], today) then ids + [n] else ids
  }

  function Stamp(invoices: seq<Invoice>, id: nat, at: int): seq<Invoice>
    requires id < |invoices|
  {
    invoices[id := invoices[id].(overdueNotifiedAt := Some(at))]
  }

  /** Stamps rows one after another, the `k`-th with the `k`-th reading of the clock. */
  function StampAll(invoices: seq<Invoice>, ids: seq<nat>, clock: nat -> int): (after: seq<Invoice>)
    requires forall k | 0 <= k < |ids| :: ids[k] < |invoices|
    ensures |after| == |invoices|
  {
    if ids == [] then invoices
    else
      var n := |ids| - 1;
      Stamp(StampAll(invoices, ids[..n], clock), ids[n], clock(n))
  }

  /** One execution with nothing in between, begun at `now`: the triggers fired, and the rows after. */
  method CheckOverdueInvoices(billing: BillingService, now: int, clock: nat -> int) returns (fired: seq<nat>)
    modifies billing`invoices
    ensures fired == Candidates(old(billing.invoices), Today(now))
    ensures billing.invoices == StampAll(old(billing.invoices), fired, clock)
    ensures OnlyStamps(old(billing.invoices), billing.invoices, fired, clock)
  {
    hide OnlyStamps, Candidate, Candidates, StampAll, Today, NoRepeats;
    var today := Today(now);
    var candidates := Candidates(billing.invoices, today);
    CandidatesOnce(billing.invoices, today);
    NoStampsYet(billing.invoices, clock);
    fired := [];
    for k := 0 to |candidates|
      modifies billing`invoices
      invariant fired == candidates[..k]
      invariant billing.invoices == StampAll(old(billing.invoices), candidates[..k], clock)
    {
      var id := candidates[k];
      OneMoreStamp(old(billing.invoices), candidates, k, clock);
      fired := fired + [id];
      billing.invoices := billing.invoices[id := billing.invoices[id].(overdueNotifiedAt := Some(clock(k)))];
    }
    assert candidates[..|candidates|] == candidates;
    StampedRows(old(billing.invoices), candidates, clock);
  }

  lemma CandidatesOnce(invoices: seq<Invoice>, today: int)
    ensures NoRepeats(Candidates(invoices, today))
    ensures forall k | 0 <= k < |Candidates(invoices, today)| :: Candidates(invoices, today)[k] < |invoices|
  {
  }

  lemma NoStampsYet(invoices: seq<Invoice>, clock: nat -> int)
    ensures StampAll(invoices, [], clock) == invoices
  {
  }

  lemma OneMoreStamp(invoices: seq<Invoice>, ids: seq<nat>, k: nat, clock: nat -> int)
    requires k < |ids| && forall j | 0 <= j < |ids| :: ids[j] < |invoices|
    ensures StampAll(invoices, ids[..k + 1], clock) == Stamp(StampAll(invoices, ids[..k], clock), ids[k], clock(k))
    ensures ids[..k + 1] == ids[..k] + [ids[k]]
  {
    assert ids[..k + 1][..k] == ids[..k];
  }

  /** Every row keeps all but its stamp, the rows not listed keep that too, and the `k`-th listed row
      bears the `k`-th reading of the clock. */
  ghost predicate OnlyStamps(before: seq<Invoice>, after: seq<Invoice>, ids: seq<nat>, clock: nat -> int) {
    && |after| == |before|
    && (forall i | 0 <= i < |before| :: SameButStamp(before[i], after[i]))
    && (forall i | 0 <= i < |before| && i !in ids :: after[i] == before[i])
    && (forall k | 0 <= k < |ids| :: ids[k] < |after| && after[ids[k]].overdueNotifiedAt == Some(clock(k)))
  }

  /** Two states of one invoice that differ in the stamp alone. */
  predicate SameButStamp(a: Invoice, b: Invoice) {
    && a.code == b.code && a.items == b.items && a.amount == b.amount && a.balance == b.balance
    && a.status == b.status && a.due == b.due
  }

  /** Stamping distinct rows writes the `k`-th reading on the `k`-th row and nothing anywhere else. */
  lemma {:induction false} StampedRows(invoices: seq<Invoice>, ids: seq<nat>, clock: nat -> int)
    requires NoRepeats(ids) && forall k | 0 <= k < |ids| :: ids[k] < |invoices|
    ensures OnlyStamps(invoices, StampAll(invoices, ids, clock), ids, clock)
  {
    if ids != [] {
      var n := |ids| - 1;
      var front := ids[..n];
      StampedRows(invoices, front, clock);
      assert forall k | 0 <= k < n :: front[k] == ids[k];
    }
  }

  // ---- the job in the middle of everything else ----------------------------------------------

  /** Billing with calls in flight, the clock, the triggers fired so far, and what each execution
      of the job has left of its candidates. */
  datatype World = World(billing: Interleaving.System, now: int, fired: seq<nat>, executions: seq<seq<nat>>)

  datatype Event =
    | Billing(step: Interleaving.Step)
    | Advance(elapsed: nat)
    | BeginJob
    | NotifyNext(execution: nat)

  function CandidatesNow(w: World): seq<nat> {
    Candidates(w.billing.db.invoices, Today(w.now))
  }

  function Next(w: World, e: Event): World {
    match e
    case Billing(step) => w.(billing := Interleaving.Next(w.billing, step))
    case Advance(elapsed) => w.(now := w.now + elapsed)
    case BeginJob => w.(executions := w.executions + [CandidatesNow(w)])
    case NotifyNext(k) =>
      if k >= |w.executions| || w.executions[k] == [] || w.executions[k][0] >= |w.billing.db.invoices| then w
      else
        var id := w.executions[k][0];
        w.(billing := w.billing.(db := w.billing.db.(invoices := Stamp(w.billing.db.invoices, id, w.now))),
           fired := w.fired + [id], executions := w.executions[k := w.executions[k][1..]])
  }

  function Run(w: World, events: seq<Event>): World {
    if events == [] then w else Next(Run(w, events[..|events| - 1]), events[|events| - 1])
  }

  /** A stamp is exactly a fired trigger, and what is left to notify are invoices. */
  ghost predicate Tracked(w: World) {
    var invoices := w.billing.db.invoices;
    && (forall i | 0 <= i < |invoices| :: i in w.fired <==> invoices[i].overdueNotifiedAt.Some?)
    && (forall id | id in w.fired :: id < |invoices|)
    && (forall k, id | 0 <= k < |w.executions| && id in w.executions[k] :: id < |invoices|)
  }

  /** Billing calls, overlapping or not, leave every stamp alone and add only unstamped invoices. */
  lemma BillingKeepsStamps(s: Interleaving.System, step: Interleaving.Step)
    ensures var before, after := s.db.invoices, Interleaving.Next(s, step).db.invoices;
            && |before| <= |after|
            && (forall i | 0 <= i < |before| :: after[i].overdueNotifiedAt == before[i].overdueNotifiedAt)
            && (forall i | |before| <= i < |after| :: after[i].overdueNotifiedAt == None)
  {
    hide Numbering.Allocate, ItemTotal, ParseItems;
  }

  lemma NextKeepsTracked(w: World, e: Event)
    requires Tracked(w)
    ensures Tracked(Next(w, e))
  {
    match e
    case Billing(step) =>
      hide Interleaving.Next;
      BillingKeepsStamps(w.billing, step);
    case NotifyNext(k) =>
      if k < |w.executions| && w.executions[k] != [] {
        var id := w.executions[k][0];
        assert id in w.executions[k];
        assert forall x :: x in w.executions[k][1..] ==> x in w.executions[k];
        assert forall x :: x in Next(w, e).fired <==> x in w.fired || x == id;
      }
    case _ =>
  }

  /** Over every run of payments, edits, voids, clock advances and job executions, interleaved in
      any way, the invoices ever notified are exactly the stamped ones. */
  lemma {:induction false} StampsAreTriggers(w: World, events: seq<Event>)
    requires Tracked(w)
    ensures Tracked(Run(w, events))
  {
    hide Next, Tracked;
    if events != [] {
      StampsAreTriggers(w, events[..|events| - 1]);
      NextKeepsTracked(Run(w, events[..|events| - 1]), events[|events| - 1]);
    }
  }

  // ---- what the job leaves alone ---------------------------------------------------------------

  ghost predicate SameBooks(a: Tables, b: Tables) {
    && a.payments == b.payments && |a.invoices| == |b.invoices|
    && forall i | 0 <= i < |a.invoices| :: SameButStamp(a.invoices[i], b.invoices[i])
  }

  /** Apart from billing calls no event writes anything but stamps. */
  lemma JobLeavesBooks(w: World, e: Event)
    requires !e.Billing?
    ensures SameBooks(w.billing.db, Next(w, e).billing.db) && Next(w, e).billing.calls == w.billing.calls
  {
  }

  /** So neither the exact books of serial runs nor the safe ones of overlapping runs notice it. */
  lemma StampsKeepBooks(s: Interleaving.System, t: Interleaving.System)
    requires SameBooks(s.db, t.db) && s.calls == t.calls
    ensures Exact(s.db) ==> Exact(t.db)
    ensures Interleaving.Sound(s) ==> Interleaving.Sound(t)
  {
    hide Received, ItemTotal;
    forall i | 0 <= i < |s.db.invoices|
      ensures SameButStamp(s.db.invoices[i], t.db.invoices[i])
      ensures Balanced(s.db, i) ==> Balanced(t.db, i)
      ensures Interleaving.Safe(s.db, i) ==> Interleaving.Safe(t.db, i)
    {
    }
  }

  /** Every billing step of the run is quiet. */
  ghost predicate QuietEvents(w: World, events: seq<Event>) {
    events == [] ||
    var front, e := events[..|events| - 1], events[|events| - 1];
    QuietEvents(w, front) && (e.Billing? ==> Interleaving.Quiet(Run(w, front).billing, e.step))
  }

  /** The job among overlapping billing calls forgives no debt either. */
  lemma {:induction false} NoDebtForgivenBesideJob(w: World, events: seq<Event>)
    requires Interleaving.Sound(w.billing) && QuietEvents(w, events)
    ensures Interleaving.Sound(Run(w, events).billing)
  {
    hide Interleaving.Sound, Interleaving.Quiet;
    if events != [] {
      var front, e := events[..|events| - 1], events[|events| - 1];
      NoDebtForgivenBesideJob(w, front);
      var before := Run(w, front);
      if e.Billing? {
        Interleaving.NextKeepsSound(before.billing, e.step);
      } else {
        JobLeavesBooks(before, e);
        StampsKeepBooks(before.billing, Next(before, e).billing);
      }
    }
  }

  /** An execution on balanced books leaves them balanced. */
  lemma ExactBesideJob(w: World, e: Event)
    requires !e.Billing? && Exact(w.billing.db)
    ensures Exact(Next(w, e).billing.db)
  {
    JobLeavesBooks(w, e);
    StampsKeepBooks(w.billing, Next(w, e).billing);
  }

  // ---- when an invoice is notified only once ---------------------------------------------------

  ghost function Left(ids: seq<nat>): multiset<nat> {
    multiset(ids)
  }

  /** Triggers fired together with those the executions are still going to fire. */
  ghost function Promised(w: World): multiset<nat> {
    multiset(w.fired) + Bag(w.executions, Left)
  }

  /** The check an execution would have to make as it begins: none of its candidates is still
      waiting in the list of another. */
  ghost predicate Clear(w: World, e: Event) {
    e.BeginJob? ==> forall k, id | 0 <= k < |w.executions| && id in w.executions[k] :: id !in CandidatesNow(w)
  }

  ghost predicate ClearRun(w: World, events: seq<Event>) {
    events == [] ||
    (ClearRun(w, events[..|events| - 1]) && Clear(Run(w, events[..|events| - 1]), events[|events| - 1]))
  }

  /** Only the beginning of an execution promises triggers, and promises are kept, not dropped. */
  lemma PromisedStep(w: World, e: Event)
    requires Tracked(w)
    ensures Promised(Next(w, e)) == Promised(w) + if e.BeginJob? then multiset(CandidatesNow(w)) else multiset{}
  {
    hide Tracked, Interleaving.Next, Bag, CandidatesNow, Left;
    match e
    case BeginJob => BagAppend(w.executions, Left, CandidatesNow(w)); CandidatesLeft(w);
    case NotifyNext(k) =>
      if k < |w.executions| && w.executions[k] != [] {
        NotifyKeepsPromised(w, k);
      }
    case _ =>
  }

  lemma CandidatesLeft(w: World)
    ensures Left(CandidatesNow(w)) == multiset(CandidatesNow(w))
  {
  }

  lemma NotifyKeepsPromised(w: World, k: nat)
    requires Tracked(w) && k < |w.executions| && w.executions[k] != []
    ensures Promised(Next(w, NotifyNext(k))) == Promised(w)
  {
    NotifyWrites(w, k);
    HeadAndRest(w.executions[k]);
    hide Bag, Tracked, Next;
    MoveOne(w.fired, w.executions, Left, k, w.executions[k][0], w.executions[k][1..]);
  }

  lemma NotifyWrites(w: World, k: nat)
    requires Tracked(w) && k < |w.executions| && w.executions[k] != []
    ensures Next(w, NotifyNext(k)).fired == w.fired + [w.executions[k][0]]
    ensures Next(w, NotifyNext(k)).executions == w.executions[k := w.executions[k][1..]]
  {
    assert w.executions[k][0] in w.executions[k];
  }

  lemma HeadAndRest(ids: seq<nat>)
    requires ids != []
    ensures Left(ids) == multiset{ids[0]} + Left(ids[1..])
  {
    assert ids == [ids[0]] + ids[1..];
  }

  lemma CandidatesAppearOnce(w: World)
    ensures AtMostOnce(multiset(CandidatesNow(w)))
  {
    NoRepeatsIsAtMostOnce(CandidatesNow(w));
  }

  lemma SingleStep(w: World, e: Event)
    requires Tracked(w)
    ensures AtMostOnce(Promised(Next(w, e))) <==> AtMostOnce(Promised(w)) && Clear(w, e)
  {
    PromisedStep(w, e);
    if e.BeginJob? {
      BeginIsSingle(w);
    } else {
      assert Promised(w) + multiset{} == Promised(w);
    }
  }

  lemma BeginIsSingle(w: World)
    requires Tracked(w)
    ensures AtMostOnce(Promised(w) + multiset(CandidatesNow(w))) <==> AtMostOnce(Promised(w)) && Clear(w, BeginJob)
  {
    hide Tracked, CandidatesNow, Promised, AtMostOnce;
    CandidatesAppearOnce(w);
    AddDistinct(Promised(w), CandidatesNow(w));
    forall id | id in CandidatesNow(w)
      ensures Promised(w)[id] == 0 <==> forall k | 0 <= k < |w.executions| :: id !in w.executions[k]
    {
      WaitingElsewhere(w, id);
    }
  }

  lemma WaitingElsewhere(w: World, id: nat)
    requires Tracked(w) && id in CandidatesNow(w)
    ensures Promised(w)[id] == 0 <==> forall k | 0 <= k < |w.executions| :: id !in w.executions[k]
  {
    CandidateIsUnstamped(w, id);
    PromisedOf(w, id);
    InBag(w.executions, Left, id);
  }

  lemma PromisedOf(w: World, id: nat)
    requires id !in w.fired
    ensures Promised(w)[id] == Bag(w.executions, Left)[id]
  {
    assert multiset(w.fired)[id] == 0;
  }

  lemma CandidateIsUnstamped(w: World, id: nat)
    requires Tracked(w) && id in CandidatesNow(w)
    ensures id !in w.fired
  {
    var k :| 0 <= k < |CandidatesNow(w)| && CandidatesNow(w)[k] == id;
  }

  lemma {:induction false} SingleRun(w: World, events: seq<Event>)
    requires Tracked(w) && AtMostOnce(Promised(w))
    ensures AtMostOnce(Promised(Run(w, events))) <==> ClearRun(w, events)
  {
    hide Next, Tracked, Clear, AtMostOnce, Promised;
    if events != [] {
      var front := events[..|events| - 1];
      SingleRun(w, front);
      StampsAreTriggers(w, front);
      SingleStep(Run(w, front), events[|events| - 1]);
    }
  }

  ghost predicate AllWorkedThrough(w: World) {
    forall k | 0 <= k < |w.executions| :: w.executions[k] == []
  }

  /** No invoice is notified twice in any run whose executions begin with no candidate of theirs
      still waiting in another. Once all of them have worked through their lists, that condition is
      exact. */
  lemma NotifiedAtMostOnce(w: World, events: seq<Event>)
    requires Tracked(w) && AtMostOnce(Promised(w))
    ensures ClearRun(w, events) ==> NoRepeats(Run(w, events).fired)
    ensures AllWorkedThrough(Run(w, events)) ==> (NoRepeats(Run(w, events).fired) <==> ClearRun(w, events))
  {
    SingleRun(w, events);
    var end := Run(w, events);
    hide Run, ClearRun, Tracked;
    NothingLeft(end.fired, end.executions, Left);
  }

  /** Every execution begins with the lists of the others worked through. */
  ghost predicate Sequential(w: World, events: seq<Event>) {
    events == [] ||
    var front, e := events[..|events| - 1], events[|events| - 1];
    Sequential(w, front) && (e.BeginJob? ==> AllWorkedThrough(Run(w, front)))
  }

  lemma {:induction false} SequentialIsClear(w: World, events: seq<Event>)
    requires Sequential(w, events)
    ensures ClearRun(w, events)
  {
    if events != [] {
      SequentialIsClear(w, events[..|events| - 1]);
    }
  }

  /** Executions that do not overlap notify no invoice twice, whatever else runs in between. */
  lemma SequentialNotifiesOnce(w: World, events: seq<Event>)
    requires Tracked(w) && AtMostOnce(Promised(w)) && Sequential(w, events)
    ensures NoRepeats(Run(w, events).fired)
  {
    SequentialIsClear(w, events);
    NotifiedAtMostOnce(w, events);
  }

  /** Two executions that begin together notify the same invoice twice. */
  lemma OverlapNotifiesTwice(inv: Invoice, now: int)
    requires Candidate(inv, Today(now))
    ensures var w := World(Interleaving.System(Tables([inv], []), map[]), now, [], []);
            Run(w, [BeginJob, BeginJob, NotifyNext(0), NotifyNext(1)]).fired == [0, 0]
  {
    var w := World(Interleaving.System(Tables([inv], []), map[]), now, [], []);
    OneCandidate(inv, Today(now));
    hide Candidate, Candidates, Today, Interleaving.Next;
    RunTwoMore(w, [BeginJob, BeginJob], NotifyNext(0), NotifyNext(1));
    RunTwoMore(w, [], BeginJob, BeginJob);
    assert [BeginJob, BeginJob] + [NotifyNext(0), NotifyNext(1)] == [BeginJob, BeginJob, NotifyNext(0), NotifyNext(1)];
    assert [] + [BeginJob, BeginJob] == [BeginJob, BeginJob];
    assert Run(w, []) == w;
    assert Run(w, [BeginJob, BeginJob]) == w.(executions := [[0], [0]]);
  }

  lemma OneCandidate(inv: Invoice, today: int)
    requires Candidate(inv, today)
    ensures Candidates([inv], today) == [0]
  {
    assert [inv][..0] == [] && Candidates([], today) == [];
  }

  lemma RunTwoMore(w: World, events: seq<Event>, a: Event, b: Event)
    ensures Run(w, events + [a, b]) == Next(Next(Run(w, events), a), b)
  {
    hide Next;
    assert (events + [a, b])[..|events| + 1] == events + [a];
    assert (events + [a])[..|events|] == events;
  }

  // ---- every candidate is notified ----------------------------------------------------------

  ghost predicate NotifiedOrWaiting(w: World, k: nat, id: nat) {
    k < |w.executions| && (id in w.fired || id in w.executions[k])
  }

  lemma {:induction false} StaysPromised(w: World, events: seq<Event>, k: nat, id: nat)
    requires NotifiedOrWaiting(w, k, id)
    ensures NotifiedOrWaiting(Run(w, events), k, id)
  {
    hide Next;
    if events != [] {
      StaysPromised(w, events[..|events| - 1], k, id);
      NextStaysPromised(Run(w, events[..|events| - 1]), events[|events| - 1], k, id);
    }
  }

  lemma NextStaysPromised(w: World, e: Event, k: nat, id: nat)
    requires NotifiedOrWaiting(w, k, id)
    ensures NotifiedOrWaiting(Next(w, e), k, id)
  {
    if e.NotifyNext? && e.execution == k && w.executions[k] != [] {
      assert w.executions[k] == [w.executions[k][0]] + w.executions[k][1..];
    }
  }

  /** Every invoice that was a candidate when an execution began has been notified by the time
      that execution has worked through its list, whatever ran in between. */
  lemma CandidatesAreNotified(w: World, events: seq<Event>, id: nat)
    requires Tracked(w)
    requires id < |w.billing.db.invoices| && Candidate(w.billing.db.invoices[id], Today(w.now))
    requires |w.executions| < |Run(Next(w, BeginJob), events).executions|
    requires Run(Next(w, BeginJob), events).executions[|w.executions|] == []
    ensures id in Run(Next(w, BeginJob), events).fired && id !in w.fired
  {
    StaysPromised(Next(w, BeginJob), events, |w.executions|, id);
    CandidateIsUnstamped(w, id);
  }

  // ---- the loop is the uninterrupted run --------------------------------------------------

  /** The first `n` rounds of execution `k`, the clock moving on by `gap` before each. */
  function Uninterrupted(k: nat, gap: nat -> nat, n: nat): seq<Event> {
    if n == 0 then [] else Uninterrupted(k, gap, n - 1) + [Advance(gap(n - 1)), NotifyNext(k)]
  }

  function Elapsed(gap: nat -> nat, n: nat): nat {
    if n == 0 then 0 else Elapsed(gap, n - 1) + gap(n - 1)
  }

  function Clock(now: int, gap: nat -> nat): nat -> int {
    (k: nat) => now + Elapsed(gap, k + 1)
  }

  lemma OneRound(w: World, k: nat, elapsed: nat)
    requires k < |w.executions| && w.executions[k] != [] && w.executions[k][0] < |w.billing.db.invoices|
    ensures var id := w.executions[k][0];
            Next(Next(w, Advance(elapsed)), NotifyNext(k)) == World(
              w.billing.(db := w.billing.db.(invoices := Stamp(w.billing.db.invoices, id, w.now + elapsed))),
              w.now + elapsed, w.fired + [id], w.executions[k := w.executions[k][1..]])
  {
  }

  lemma ListedAreInvoices(w: World, k: nat, n: nat)
    requires Tracked(w) && k < |w.executions| && n <= |w.executions[k]|
    ensures InvoicesExist(w, w.executions[k][..n])
  {
    forall j | 0 <= j < |w.executions[k][..n]|
      ensures w.executions[k][..n][j] < |w.billing.db.invoices|
    {
      assert w.executions[k][..n][j] in w.executions[k];
    }
  }

  predicate InvoicesExist(w: World, ids: seq<nat>) {
    forall j | 0 <= j < |ids| :: ids[j] < |w.billing.db.invoices|
  }

  /** What `n` rounds of the method's loop leave for execution `k`. */
  function WorkedThrough(w: World, k: nat, gap: nat -> nat, n: nat): World
    requires k < |w.executions| && n <= |w.executions[k]| && InvoicesExist(w, w.executions[k][..n])
  {
    var list := w.executions[k];
    var invoices := StampAll(w.billing.db.invoices, list[..n], Clock(w.now, gap));
    World(w.billing.(db := w.billing.db.(invoices := invoices)), w.now + Elapsed(gap, n), w.fired + list[..n],
          w.executions[k := list[n..]])
  }

  lemma OneMoreRound(w: World, k: nat, gap: nat -> nat, n: nat)
    requires k < |w.executions| && n < |w.executions[k]|
    requires InvoicesExist(w, w.executions[k][..n]) && InvoicesExist(w, w.executions[k][..n + 1])
    ensures Next(Next(WorkedThrough(w, k, gap, n), Advance(gap(n))), NotifyNext(k)) == WorkedThrough(w, k, gap, n + 1)
  {
    hide Next, Stamp;
    var list := w.executions[k];
    assert list[..n + 1][..n] == list[..n] && list[..n + 1][n] == list[n];
    assert list[n..][0] == list[n] && list[n..][1..] == list[n + 1..];
    OneRound(WorkedThrough(w, k, gap, n), k, gap(n));
    assert w.fired + list[..n] + [list[n]] == w.fired + list[..n + 1];
    assert w.executions[k := list[n..]][k := list[n + 1..]] == w.executions[k := list[n + 1..]];
  }

  /** The loop, run with nothing else but the clock between its rounds, is the method's result. */
  lemma {:induction false} LoopIsRun(w: World, k: nat, gap: nat -> nat, n: nat)
    requires Tracked(w) && k < |w.executions| && n <= |w.executions[k]|
    ensures InvoicesExist(w, w.executions[k][..n])
    ensures Run(w, Uninterrupted(k, gap, n)) == WorkedThrough(w, k, gap, n)
  {
    ListedAreInvoices(w, k, n);
    if n == 0 {
      var list := w.executions[k];
      assert list[..0] == [] && list[0..] == list && w.fired + [] == w.fired;
    } else {
      hide Tracked, Next, Run, WorkedThrough, InvoicesExist;
      LoopIsRun(w, k, gap, n - 1);
      RunTwoMore(w, Uninterrupted(k, gap, n - 1), Advance(gap(n - 1)), NotifyNext(k));
      OneMoreRound(w, k, gap, n - 1);
    }
  }
}
