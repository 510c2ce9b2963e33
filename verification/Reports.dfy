/** Report aggregation: twelve monthly buckets with bars and a peak, rent rolls with rounded
    shares, and the maintenance summary by category. */
module Reports {
  import opened Ledger
  import opened Outcomes
  import Calendar
  import Occupancy

  // ---- payment trends --------------------------------------------------------------------

  /** A bucket names its year and zero-based month; totals are in cents. */
  datatype Bucket = Bucket(year: int, month: int, total: int)

  /** Month index of bucket `i` of the twelve that end with the current month. */
  function BucketMonth(now: Calendar.Date, i: int): int {
    Calendar.MonthIndex(now) - (11 - i)
  }

  /** Receipts dated in one calendar month. */
  function MonthTotal(payments: seq<Payment>, month: int): int {
    if payments == [] then 0
    else
      var p := payments[|payments| - 1];
      MonthTotal(payments[..|payments| - 1], month) + if Calendar.MonthIndex(p.date) == month then p.amount else 0
  }

  ghost predicate DatesHaveMonths(payments: seq<Payment>) {
    forall p | p in payments :: 1 <= p.date.month <= 12
  }

  /** The bucketing loop: after it, each bucket is a month of the window and holds exactly the
      receipts of that month. */
  method PaymentTrends(payments: seq<Payment>, now: Calendar.Date) returns (buckets: array<Bucket>)
    requires DatesHaveMonths(payments)
    ensures fresh(buckets) && buckets.Length == 12
    ensures forall i | 0 <= i < 12 ::
      && 12 * buckets[i].year + buckets[i].month == BucketMonth(now, i) && 0 <= buckets[i].month <= 11
      && buckets[i].total == MonthTotal(payments, BucketMonth(now, i))
    ensures 12 * buckets[11].year + buckets[11].month == 12 * now.year + now.month - 1
    ensures forall i | 0 <= i < 11 :: 12 * buckets[i + 1].year + buckets[i + 1].month == 12 * buckets[i].year + buckets[i].month + 1
  {
    buckets := new Bucket[12](i => Bucket(BucketMonth(now, i) / 12, BucketMonth(now, i) % 12, 0));
    for n := 0 to |payments|
      invariant forall i | 0 <= i < 12 ::
        && 12 * buckets[i].year + buckets[i].month == BucketMonth(now, i) && 0 <= buckets[i].month <= 11
        && buckets[i].total == MonthTotal(payments[..n], BucketMonth(now, i))
    {
      var p := payments[n];
      assert payments[..n + 1][..n] == payments[..n];
      assert p in payments;
      var year, month := p.date.year, p.date.month - 1;
      var b := 0;
      while b < 12 && !(buckets[b].year == year && buckets[b].month == month)
        invariant 0 <= b <= 12
        invariant forall i | 0 <= i < b :: !(buckets[i].year == year && buckets[i].month == month)
      {
        b := b + 1;
      }
      if b < 12 {
        buckets[b] := buckets[b].(total := buckets[b].total + p.amount);
      }
    }
    assert payments[..|payments|] == payments;
  }

  /** A receipt counts in full for the month of its date and for no other. */
  lemma OneMoreReceipt(payments: seq<Payment>, p: Payment, year: int, month: int)
    requires 1 <= month <= 12 && 1 <= p.date.month <= 12
    ensures MonthTotal(payments + [p], 12 * year + month - 1) == MonthTotal(payments, 12 * year + month - 1)
            + if p.date.year == year && p.date.month == month then p.amount else 0
    ensures MonthTotal([], 12 * year + month - 1) == 0
  {
    assert (payments + [p])[..|payments|] == payments;
  }

  function WindowSum(payments: seq<Payment>, first: int, count: nat): int {
    if count == 0 then 0 else WindowSum(payments, first, count - 1) + MonthTotal(payments, first + count - 1)
  }

  /** Receipts dated anywhere in a span of months. */
  function DatedWithin(payments: seq<Payment>, first: int, count: nat): int {
    if payments == [] then 0
    else
      var p := payments[|payments| - 1];
      DatedWithin(payments[..|payments| - 1], first, count)
      + if first <= Calendar.MonthIndex(p.date) < first + count then p.amount else 0
  }

  lemma {:induction false} WindowOfLast(payments: seq<Payment>, p: Payment, first: int, count: nat)
    ensures WindowSum(payments + [p], first, count) == WindowSum(payments, first, count)
            + if first <= Calendar.MonthIndex(p.date) < first + count then p.amount else 0
  {
    if count > 0 {
      WindowOfLast(payments, p, first, count - 1);
      assert (payments + [p])[..|payments|] == payments;
    }
  }

  /** The buckets of a window sum to exactly the receipts dated inside it: each receipt lands in
      one bucket if its month is in the window and in none otherwise. */
  lemma {:induction false} BucketsPartitionWindow(payments: seq<Payment>, first: int, count: nat)
    ensures WindowSum(payments, first, count) == DatedWithin(payments, first, count)
  {
    if payments == [] {
      EmptyWindow(first, count);
    } else {
      var front, p := payments[..|payments| - 1], payments[|payments| - 1];
      BucketsPartitionWindow(front, first, count);
      WindowOfLast(front, p, first, count);
      assert front + [p] == payments;
    }
  }

  lemma {:induction false} EmptyWindow(first: int, count: nat)
    ensures WindowSum([], first, count) == 0
  {
    if count > 0 {
      EmptyWindow(first, count - 1);
    }
  }

  /** `Math.round(part / whole * 100)`. */
  function Percent(part: int, whole: int): int
    requires whole > 0
  {
    (part as real / whole as real * 100.0 + 0.5).Floor
  }

  /** The printed percentage is the nearest whole one, halves going up. */
  lemma PercentIsNearest(part: int, whole: int)
    requires whole > 0
    ensures var exact := 100.0 * (part as real / whole as real);
            exact - 0.5 < Percent(part, whole) as real <= exact + 0.5
  {
  }

  /** `Math.max(1, ...totals)`, one shilling being 100 cents. */
  function Tallest(totals: seq<int>): (m: int)
    ensures m >= 100 && forall t | t in totals :: t <= m
    ensures m == 100 || m in totals
  {
    if totals == [] then 100
    else
      var rest := Tallest(totals[..|totals| - 1]);
      assert forall t | t in totals :: t in totals[..|totals| - 1] || t == totals[|totals| - 1];
      if totals[|totals| - 1] > rest then totals[|totals| - 1] else rest
  }

  lemma Proportion(part: int, whole: int)
    requires 0 <= part <= whole && 0 < whole
    ensures 0.0 <= part as real / whole as real <= 1.0
    ensures part == whole ==> part as real / whole as real == 1.0
  {
    var x := part as real / whole as real;
    assert x * whole as real == part as real;
  }

  /** Every bar is between 0 and 100 percent, and once some bucket reaches a shilling the tallest
      bar is a full 100. */
  lemma BarsInRange(totals: seq<int>, i: nat)
    requires i < |totals| && forall t | t in totals :: t >= 0
    ensures 0 <= Percent(totals[i], Tallest(totals)) <= 100
    ensures totals[i] == Tallest(totals) ==> Percent(totals[i], Tallest(totals)) == 100
  {
    assert totals[i] in totals;
    Proportion(totals[i], Tallest(totals));
  }

  /** The peak month: a left-to-right reduce that moves only to a strictly larger total. */
  function PeakOf(totals: seq<int>, n: nat): (peak: nat)
    requires 0 < n <= |totals|
    ensures peak < n
    ensures forall j | 0 <= j < n :: totals[j] <= totals[peak]
    ensures forall j | 0 <= j < peak :: totals[j] < totals[peak]
  {
    if n == 1 then 0
    else
      var best := PeakOf(totals, n - 1);
      if totals[n - 1] > totals[best] then n - 1 else best
  }

  // ---- revenue by property ---------------------------------------------------------------

  function RollFor(units: seq<Occupancy.Unit>, property: nat): nat {
    if units == [] then 0
    else
      var u := units[|units| - 1];
      RollFor(units[..|units| - 1], property)
      + if u.property == property && u.status == Occupancy.Occupied then u.rent else 0
  }

  function TotalRoll(units: seq<Occupancy.Unit>): nat {
    if units == [] then 0
    else
      var u := units[|units| - 1];
      TotalRoll(units[..|units| - 1]) + if u.status == Occupancy.Occupied then u.rent else 0
  }

  /** Letting a vacant unit adds its rent to its property's roll and to the total, and to no other
      property's; nothing else about a unit counts. */
  lemma {:induction false} LettingAddsRent(units: seq<Occupancy.Unit>, i: nat, tenant: nat, property: nat)
    requires i < |units| && units[i].status == Occupancy.Vacant
    ensures var after := units[i := units[i].(status := Occupancy.Occupied, tenant := Some(tenant))];
            && TotalRoll(after) == TotalRoll(units) + units[i].rent
            && RollFor(after, property) == RollFor(units, property) + if units[i].property == property then units[i].rent else 0
    decreases |units|
  {
    var after := units[i := units[i].(status := Occupancy.Occupied, tenant := Some(tenant))];
    var n := |units| - 1;
    if i < n {
      LettingAddsRent(units[..n], i, tenant, property);
      assert after[..n] == units[..n][i := units[..n][i].(status := Occupancy.Occupied, tenant := Some(tenant))];
    } else {
      assert after[..n] == units[..n];
    }
  }

  /** A vacant portfolio earns nothing. */
  lemma {:induction false} VacantEarnsNothing(units: seq<Occupancy.Unit>, property: nat)
    requires forall u | u in units :: u.status == Occupancy.Vacant
    ensures TotalRoll(units) == 0 && RollFor(units, property) == 0
  {
    if units != [] {
      assert units[|units| - 1] in units;
      VacantEarnsNothing(units[..|units| - 1], property);
    }
  }

  function RollSum(units: seq<Occupancy.Unit>, properties: seq<nat>): nat {
    if properties == [] then 0
    else RollSum(units, properties[..|properties| - 1]) + RollFor(units, properties[|properties| - 1])
  }

  /** `total ? Math.round((roll / total) * 100) : 0`. */
  function Share(roll: nat, total: nat): int {
    if total == 0 then 0 else Percent(roll, total)
  }

  function ShareSum(units: seq<Occupancy.Unit>, properties: seq<nat>): int {
    if properties == [] then 0
    else ShareSum(units, properties[..|properties| - 1])
         + Share(RollFor(units, properties[|properties| - 1]), TotalRoll(units))
  }

  ghost predicate Distinct<T>(s: seq<T>) {
    forall i, j | 0 <= i < j < |s| :: s[i] != s[j]
  }

  lemma {:induction false} RollOfLast(units: seq<Occupancy.Unit>, u: Occupancy.Unit, properties: seq<nat>)
    requires Distinct(properties)
    ensures RollSum(units + [u], properties) == RollSum(units, properties)
            + if u.property in properties && u.status == Occupancy.Occupied then u.rent else 0
  {
    if properties != [] {
      var front := properties[..|properties| - 1];
      RollOfLast(units, u, front);
      assert (units + [u])[..|units|] == units;
      assert u.property in properties <==> u.property in front || u.property == properties[|properties| - 1];
    }
  }

  lemma {:induction false} NoUnitsNoRoll(properties: seq<nat>)
    ensures RollSum([], properties) == 0
  {
    if properties != [] {
      NoUnitsNoRoll(properties[..|properties| - 1]);
    }
  }

  /** Grouping by property loses nothing: the rent rolls sum to the portfolio's. */
  lemma {:induction false} RollsSumToTotal(units: seq<Occupancy.Unit>, properties: seq<nat>)
    requires Distinct(properties) && forall u | u in units :: u.property in properties
    ensures RollSum(units, properties) == TotalRoll(units)
  {
    if units == [] {
      NoUnitsNoRoll(properties);
    } else {
      var front, u := units[..|units| - 1], units[|units| - 1];
      assert u in units;
      RollsSumToTotal(front, properties);
      RollOfLast(front, u, properties);
      assert front + [u] == units;
    }
  }

  lemma RatioAdds(a: int, b: int, whole: int)
    requires whole > 0
    ensures (a + b) as real / whole as real == a as real / whole as real + b as real / whole as real
  {
  }

  /** Each rounded share is within half a percent of the exact one. */
  lemma {:induction false} SharesNearExact(units: seq<Occupancy.Unit>, properties: seq<nat>)
    requires TotalRoll(units) > 0
    ensures var exact := RollSum(units, properties) as real / TotalRoll(units) as real * 100.0;
            var slack := 0.5 * |properties| as real;
            exact - slack <= ShareSum(units, properties) as real <= exact + slack
  {
    var whole := TotalRoll(units);
    if properties == [] {
      assert RollSum(units, []) as real == 0.0;
    } else {
      var front, last := properties[..|properties| - 1], properties[|properties| - 1];
      SharesNearExact(units, front);
      var roll := RollFor(units, last);
      RatioAdds(RollSum(units, front), roll, whole);
      var x := roll as real / whole as real * 100.0;
      assert x - 0.5 <= (x + 0.5).Floor as real <= x + 0.5;
      assert Share(roll, whole) == (x + 0.5).Floor;
    }
  }

  /** The printed shares of n properties sum to within n/2 of 100. */
  lemma SharesSumNear100(units: seq<Occupancy.Unit>, properties: seq<nat>)
    requires Distinct(properties) && forall u | u in units :: u.property in properties
    requires TotalRoll(units) > 0
    ensures 100.0 - 0.5 * |properties| as real <= ShareSum(units, properties) as real
         <= 100.0 + 0.5 * |properties| as real
  {
    RollsSumToTotal(units, properties);
    SharesNearExact(units, properties);
    Proportion(TotalRoll(units), TotalRoll(units));
  }

  // ---- maintenance summary ---------------------------------------------------------------

  datatype RequestStatus = Open | Assigned | InProgress | Completed | Closed

  datatype Request = Request(category: string, status: RequestStatus, cost: int)

  datatype Tally = Tally(count: int, open: int, done: int, cost: int)

  const ZERO := Tally(0, 0, 0, 0)

  predicate IsOpen(r: Request) {
    r.status == Open || r.status == Assigned || r.status == InProgress
  }

  predicate IsDone(r: Request) {
    r.status == Completed || r.status == Closed
  }

  function Plus(a: Tally, b: Tally): Tally {
    Tally(a.count + b.count, a.open + b.open, a.done + b.done, a.cost + b.cost)
  }

  function One(r: Request): Tally {
    Tally(1, if IsOpen(r) then 1 else 0, if IsDone(r) then 1 else 0, r.cost)
  }

  /** What one category's row should say. */
  function TallyOf(requests: seq<Request>, category: string): Tally {
    if requests == [] then ZERO
    else
      var r := requests[|requests| - 1];
      var before := TallyOf(requests[..|requests| - 1], category);
      if r.category == category then Plus(before, One(r)) else before
  }

  /** What the report's headline figures say. */
  function TallyAll(requests: seq<Request>): Tally {
    if requests == [] then ZERO else Plus(TallyAll(requests[..|requests| - 1]), One(requests[|requests| - 1]))
  }

  function TallySum(requests: seq<Request>, categories: seq<string>): Tally {
    if categories == [] then ZERO
    else Plus(TallySum(requests, categories[..|categories| - 1]), TallyOf(requests, categories[|categories| - 1]))
  }

  /** Categories in the order they first occur, as a Map keeps its keys. */
  function FirstSeen(requests: seq<Request>): (order: seq<string>)
    ensures Distinct(order)
    ensures forall c :: c in order <==> exists r :: r in requests && r.category == c
  {
    if requests == [] then []
    else
      var front, r := requests[..|requests| - 1], requests[|requests| - 1];
      var order := FirstSeen(front);
      assert forall x :: x in requests <==> x in front || x == r;
      if r.category in order then order else order + [r.category]
  }

  /** The grouping loop over a Map: one entry per category, in order of first occurrence, each
      holding its own requests' figures. */
  method MaintenanceSummary(requests: seq<Request>) returns (order: seq<string>, byCategory: map<string, Tally>)
    ensures order == FirstSeen(requests)
    ensures byCategory.Keys == set c | c in order
    ensures forall c | c in order :: byCategory[c] == TallyOf(requests, c)
  {
    hide FirstSeen, TallyOf;
    order, byCategory := [], map[];
    FirstSeenNone();
    for n := 0 to |requests|
      invariant order == FirstSeen(requests[..n])
      invariant byCategory.Keys == set c | c in order
      invariant forall c | c in order :: byCategory[c] == TallyOf(requests[..n], c)
    {
      var r := requests[n];
      SummaryStep(requests, n);
      Unseen(requests[..n], r.category);
      var bucket := if r.category in byCategory then byCategory[r.category] else ZERO;
      bucket := bucket.(count := bucket.count + 1);
      if r.status == Open || r.status == Assigned || r.status == InProgress {
        bucket := bucket.(open := bucket.open + 1);
      }
      if r.status == Completed || r.status == Closed {
        bucket := bucket.(done := bucket.done + 1);
      }
      bucket := bucket.(cost := bucket.cost + r.cost);
      if r.category !in byCategory {
        order := order + [r.category];
      }
      byCategory := byCategory[r.category := bucket];
    }
    assert requests[..|requests|] == requests;
  }

  /** One more request adds 1 to its category's count, 1 to the open or the completed figure, and
      its cost, and touches no other category; a new category comes last; the headline figures move
      alike. */
  lemma OneMoreRequest(requests: seq<Request>, r: Request, category: string)
    ensures TallyOf([], category) == TallyAll([]) == Tally(0, 0, 0, 0)
    ensures var before, after := TallyOf(requests, category), TallyOf(requests + [r], category);
            if r.category != category then after == before
            else
              && after.count == before.count + 1 && after.cost == before.cost + r.cost
              && (r.status in {Open, Assigned, InProgress} ==> after.open == before.open + 1 && after.done == before.done)
              && (r.status in {Completed, Closed} ==> after.done == before.done + 1 && after.open == before.open)
    ensures var before, after := TallyAll(requests), TallyAll(requests + [r]);
            && after.count == before.count + 1 && after.cost == before.cost + r.cost
            && (r.status in {Open, Assigned, InProgress} ==> after.open == before.open + 1 && after.done == before.done)
            && (r.status in {Completed, Closed} ==> after.done == before.done + 1 && after.open == before.open)
    ensures FirstSeen([]) == []
    ensures FirstSeen(requests + [r]) == FirstSeen(requests)
            + if exists q :: q in requests && q.category == r.category then [] else [r.category]
  {
    assert FirstSeen(requests) + [] == FirstSeen(requests);
    assert (requests + [r])[..|requests|] == requests;
  }

  lemma FirstSeenNone()
    ensures FirstSeen([]) == []
  {
  }

  lemma SummaryStep(requests: seq<Request>, n: nat)
    requires n < |requests|
    ensures FirstSeen(requests[..n + 1]) == FirstSeen(requests[..n])
            + if requests[n].category in FirstSeen(requests[..n]) then [] else [requests[n].category]
    ensures forall c :: TallyOf(requests[..n + 1], c) ==
              if c == requests[n].category then Plus(TallyOf(requests[..n], c), One(requests[n])) else TallyOf(requests[..n], c)
  {
    assert requests[..n + 1][..n] == requests[..n];
    var seen := FirstSeen(requests[..n]);
    assert seen + [] == seen;
  }

  lemma {:induction false} Unseen(requests: seq<Request>, category: string)
    ensures category !in FirstSeen(requests) ==> TallyOf(requests, category) == ZERO
  {
    if requests != [] {
      var front, r := requests[..|requests| - 1], requests[|requests| - 1];
      Unseen(front, category);
    }
  }

  /** In every row the requests are the open ones plus the completed ones. */
  lemma {:induction false} CountIsOpenPlusDone(requests: seq<Request>, category: string)
    ensures var t := TallyOf(requests, category); t.count == t.open + t.done
  {
    if requests != [] {
      CountIsOpenPlusDone(requests[..|requests| - 1], category);
    }
  }

  lemma {:induction false} TallyOfLast(requests: seq<Request>, r: Request, categories: seq<string>)
    requires Distinct(categories)
    ensures TallySum(requests + [r], categories)
         == if r.category in categories then Plus(TallySum(requests, categories), One(r)) else TallySum(requests, categories)
  {
    if categories != [] {
      var front, last := categories[..|categories| - 1], categories[|categories| - 1];
      TallyOfLast(requests, r, front);
      assert (requests + [r])[..|requests|] == requests;
      assert r.category in categories <==> r.category in front || r.category == last;
    }
  }

  lemma {:induction false} NoRequestsNoTally(categories: seq<string>)
    ensures TallySum([], categories) == ZERO
  {
    if categories != [] {
      NoRequestsNoTally(categories[..|categories| - 1]);
    }
  }

  lemma {:induction false} GroupsSumToAll(requests: seq<Request>, categories: seq<string>)
    requires Distinct(categories) && forall r | r in requests :: r.category in categories
    ensures TallySum(requests, categories) == TallyAll(requests)
  {
    if requests == [] {
      NoRequestsNoTally(categories);
    } else {
      var front, r := requests[..|requests| - 1], requests[|requests| - 1];
      assert r in requests;
      GroupsSumToAll(front, categories);
      TallyOfLast(front, r, categories);
      assert front + [r] == requests;
    }
  }

  /** The rows' counts, open counts and costs sum to the headline figures. */
  lemma SummaryLosesNothing(requests: seq<Request>)
    ensures TallySum(requests, FirstSeen(requests)) == TallyAll(requests)
    ensures TallyAll(requests).count == |requests|
  {
    GroupsSumToAll(requests, FirstSeen(requests));
    AllCounts(requests);
  }

  lemma {:induction false} AllCounts(requests: seq<Request>)
    ensures TallyAll(requests).count == |requests|
  {
    if requests != [] {
      AllCounts(requests[..|requests| - 1]);
    }
  }
}
