/** Refresh tokens presented at the same time: each redemption first reads its row and writes
    later, with any other call in between. */
module RotationRaces {
  import opened Outcomes
  import opened Sessions
  import opened SessionSafety
  import opened Tally

  /** A presented token between its read and its writes: about to be redeemed, about to be
      reported as reused, or answered. */
  datatype Attempt = Redeeming(row: nat, drawn: Token) | Reporting(user: nat) | Answered

  /** `accepted` lists the rows redeemed so far, in order. */
  datatype World = World(db: Tables, attempts: seq<Attempt>, accepted: seq<nat>)

  datatype Event =
    | Present(token: Token, drawn: Token)
    | Finish(attempt: nat)
    | Other(op: Op)

  /** What a redemption decides on: the row as it is when it reads it. */
  function Read(db: Tables, token: Token, drawn: Token): Attempt {
    match FindRefresh(db.refresh, Sha256(token))
    case None => Answered
    case Some(i) =>
      if db.refresh[i].revokedAt != None then Reporting(db.refresh[i].user)
      else if db.refresh[i].expiresAt <= db.now then Answered
      else Redeeming(i, drawn)
  }

  /** Inserts the successor, stamps the row read earlier whatever it holds by now, and then checks
      the user's status. */
  function Redeemed(db: Tables, i: nat, drawn: Token): Result<Tables>
    requires i < |db.refresh|
  {
    var u := db.refresh[i].user;
    match IssueRefresh(db, u, drawn)
    case Err(e) => Err(e)
    case Ok(issued) =>
      var after := issued.(refresh := issued.refresh[i := db.refresh[i].(
                             revokedAt := Some(db.now), replacedBy := Some(Sha256(drawn)))]);
      Ok(if u >= |db.users| || db.users[u].status != Active then RevokeAll(after, u) else after)
  }

  function Next(w: World, e: Event): World {
    match e
    case Present(token, drawn) => w.(attempts := w.attempts + [Read(w.db, token, drawn)])
    case Other(op) => if op.Refresh? then w else w.(db := Call(w.db, op).db)
    case Finish(k) =>
      if k >= |w.attempts| then w
      else
        var done := w.(attempts := w.attempts[k := Answered]);
        match w.attempts[k]
        case Answered => w
        case Reporting(u) => done.(db := RevokeAll(w.db, u))
        case Redeeming(i, drawn) =>
          if i >= |w.db.refresh| then done
          else
            match Redeemed(w.db, i, drawn)
            case Err(_) => done
            case Ok(after) => done.(db := after, accepted := w.accepted + [i])
  }

  function Race(w: World, events: seq<Event>): World {
    if events == [] then w else Next(Race(w, events[..|events| - 1]), events[|events| - 1])
  }

  /** A redemption finished straight after its read is the serial call. */
  lemma UninterruptedIsRefresh(w: World, token: Token, drawn: Token)
    ensures var end := Next(Next(w, Present(token, drawn)), Finish(|w.attempts|));
            && end.db == Call(w.db, Refresh(token, drawn)).db
            && (end.accepted != w.accepted <==> Rotate(w.db, token, drawn).result.Ok?)
  {
    hide RevokeRows;
  }

  // ---- when a token is accepted only once ---------------------------------------------------

  /** Redeemed rows are revoked, and every attempt refers to a row of the table. */
  ghost predicate Recorded(w: World) {
    && (forall i | i in w.accepted :: i < |w.db.refresh| && w.db.refresh[i].revokedAt.Some?)
    && (forall k | 0 <= k < |w.attempts| && w.attempts[k].Redeeming? :: w.attempts[k].row < |w.db.refresh|)
  }

  lemma NextKeepsRecorded(w: World, e: Event)
    requires Recorded(w)
    ensures Recorded(Next(w, e))
  {
    hide FindRefresh;
    match e
    case Other(op) => CallEvolves(w.db, op); hide Call;
    case Finish(k) =>
      if k < |w.attempts| && w.attempts[k].Redeeming? && Redeemed(w.db, w.attempts[k].row, w.attempts[k].drawn).Ok? {
        RedeemedRows(w.db, w.attempts[k].row, w.attempts[k].drawn);
        hide Redeemed;
      }
    case _ =>
  }

  lemma RedeemedRows(db: Tables, i: nat, drawn: Token)
    requires i < |db.refresh| && Redeemed(db, i, drawn).Ok?
    ensures var rows := Redeemed(db, i, drawn).value.refresh;
            && |rows| == |db.refresh| + 1 && rows[i].revokedAt.Some?
            && forall j | 0 <= j < |db.refresh| && db.refresh[j].revokedAt.Some? :: rows[j].revokedAt.Some?
  {
    hide FindRefresh;
  }

  lemma {:induction false} RacesStayRecorded(w: World, events: seq<Event>)
    requires Recorded(w)
    ensures Recorded(Race(w, events))
  {
    hide Next, Recorded;
    if events != [] {
      RacesStayRecorded(w, events[..|events| - 1]);
      NextKeepsRecorded(Race(w, events[..|events| - 1]), events[|events| - 1]);
    }
  }

  ghost function Holds(a: Attempt): multiset<nat> {
    if a.Redeeming? then multiset{a.row} else multiset{}
  }

  /** Rows redeemed together with those about to be. */
  ghost function Promised(w: World): multiset<nat> {
    multiset(w.accepted) + Bag(w.attempts, Holds)
  }

  /** The token presented is not already being redeemed by another attempt. */
  ghost predicate Clear(w: World, e: Event) {
    e.Present? && Read(w.db, e.token, e.drawn).Redeeming? ==>
      forall k | 0 <= k < |w.attempts| && w.attempts[k].Redeeming? :: w.attempts[k].row != Read(w.db, e.token, e.drawn).row
  }

  ghost predicate ClearRace(w: World, events: seq<Event>) {
    events == [] ||
    (ClearRace(w, events[..|events| - 1]) && Clear(Race(w, events[..|events| - 1]), events[|events| - 1]))
  }

  /** The value drawn for a successor is not in the table. */
  predicate Fresh(w: World, e: Event) {
    e.Finish? && e.attempt < |w.attempts| && w.attempts[e.attempt].Redeeming? ==>
      FindRefresh(w.db.refresh, Sha256(w.attempts[e.attempt].drawn)).None?
  }

  predicate FreshRace(w: World, events: seq<Event>) {
    events == [] ||
    (FreshRace(w, events[..|events| - 1]) && Fresh(Race(w, events[..|events| - 1]), events[|events| - 1]))
  }

  lemma PresentAdds(w: World, token: Token, drawn: Token)
    ensures Promised(Next(w, Present(token, drawn))) == Promised(w) + Holds(Read(w.db, token, drawn))
  {
    BagAppend(w.attempts, Holds, Read(w.db, token, drawn));
  }

  lemma FinishMoves(w: World, k: nat)
    requires Recorded(w)
    ensures Promised(Next(w, Finish(k))) <= Promised(w)
    ensures Fresh(w, Finish(k)) ==> Promised(Next(w, Finish(k))) == Promised(w)
  {
    if k < |w.attempts| && !w.attempts[k].Answered? {
      FinishShape(w, k);
      hide Next, Bag, Recorded, Fresh, FindRefresh, Holds;
      var after := Next(w, Finish(k));
      if after.accepted != w.accepted {
        MovesOut(w.attempts[k]);
        MoveOne(w.accepted, w.attempts, Holds, k, w.attempts[k].row, Answered);
      } else {
        AnswerDrops(w.attempts, k);
        AddToBoth(multiset(w.accepted), Bag(after.attempts, Holds), Bag(w.attempts, Holds));
      }
    }
  }

  lemma MovesOut(a: Attempt)
    requires a.Redeeming?
    ensures Holds(a) == multiset{a.row} + Holds(Answered)
  {
  }

  /** The attempt is answered, and adds its row to the accepted ones unless the insert is refused. */
  lemma FinishShape(w: World, k: nat)
    requires Recorded(w) && k < |w.attempts| && !w.attempts[k].Answered?
    ensures var after := Next(w, Finish(k));
            && after.attempts == w.attempts[k := Answered]
            && (after.accepted == w.accepted
                || (w.attempts[k].Redeeming? && after.accepted == w.accepted + [w.attempts[k].row]))
            && (w.attempts[k].Redeeming? && Fresh(w, Finish(k)) ==> after.accepted != w.accepted)
  {
    hide FindRefresh, RevokeAll;
  }

  lemma AnswerDrops(attempts: seq<Attempt>, k: nat)
    requires k < |attempts|
    ensures Bag(attempts[k := Answered], Holds) <= Bag(attempts, Holds)
    ensures !attempts[k].Redeeming? ==> Bag(attempts[k := Answered], Holds) == Bag(attempts, Holds)
  {
    BagUpdate(attempts, Holds, k, Answered);
    hide Bag;
    var after, before := Bag(attempts[k := Answered], Holds), Bag(attempts, Holds);
    forall x
      ensures after[x] <= before[x] && (!attempts[k].Redeeming? ==> after[x] == before[x])
    {
      assert (after + Holds(attempts[k]))[x] == (before + Holds(Answered))[x];
    }
  }

  lemma PresentIsSingle(w: World, token: Token, drawn: Token)
    requires Recorded(w)
    ensures AtMostOnce(Promised(w) + Holds(Read(w.db, token, drawn)))
       <==> AtMostOnce(Promised(w)) && Clear(w, Present(token, drawn))
  {
    var a := Read(w.db, token, drawn);
    if a.Redeeming? {
      assert a.row !in w.accepted;
      hide Recorded, Read;
      OneMoreIsSingle(w.accepted, w.attempts, Holds, a.row);
    } else {
      assert Promised(w) + Holds(a) == Promised(w);
    }
  }

  lemma SingleStep(w: World, e: Event)
    requires Recorded(w)
    ensures AtMostOnce(Promised(w)) && Clear(w, e) ==> AtMostOnce(Promised(Next(w, e)))
    ensures Fresh(w, e) ==> (AtMostOnce(Promised(Next(w, e))) <==> AtMostOnce(Promised(w)) && Clear(w, e))
  {
    hide Recorded, Read, Fresh;
    match e
    case Present(token, drawn) =>
      PresentAdds(w, token, drawn);
      PresentIsSingle(w, token, drawn);
    case Finish(k) => FinishMoves(w, k); hide Next;
    case Other(op) => hide Call;
  }

  lemma {:induction false} SingleRace(w: World, events: seq<Event>)
    requires Recorded(w) && AtMostOnce(Promised(w))
    ensures ClearRace(w, events) ==> AtMostOnce(Promised(Race(w, events)))
    ensures FreshRace(w, events) ==> (AtMostOnce(Promised(Race(w, events))) <==> ClearRace(w, events))
  {
    hide Next, Recorded, Clear, Fresh, AtMostOnce, Promised;
    if events != [] {
      var front := events[..|events| - 1];
      SingleRace(w, front);
      RacesStayRecorded(w, front);
      SingleStep(Race(w, front), events[|events| - 1]);
    }
  }

  ghost predicate AllAnswered(w: World) {
    forall k | 0 <= k < |w.attempts| :: w.attempts[k].Answered?
  }

  /** However attempts and other calls interleave, every refresh token is accepted at most once as
      long as none is presented while another attempt is redeeming it. With fresh successors, and
      all attempts answered, that condition is exact. */
  lemma AcceptedOnceInRaces(w: World, events: seq<Event>)
    requires Recorded(w) && AtMostOnce(Promised(w))
    ensures ClearRace(w, events) ==> NoRepeats(Race(w, events).accepted)
    ensures FreshRace(w, events) && AllAnswered(Race(w, events)) ==>
              (NoRepeats(Race(w, events).accepted) <==> ClearRace(w, events))
  {
    SingleRace(w, events);
    var end := Race(w, events);
    hide Race, ClearRace, FreshRace, Recorded;
    NothingLeft(end.accepted, end.attempts, Holds);
  }

  // ---- one token, two sessions ----------------------------------------------------------------

  /** Two attempts that both read a token before either writes are both accepted: the session forks,
      both successors work, and no reuse is noticed. */
  lemma OverlapForksSession(db: Tables, token: Token, d1: Token, d2: Token)
    requires UniqueHashes(db.refresh) && Acceptable(db, token) && db.config.refreshTtl > 0 && d1 != d2
    requires FindRefresh(db.refresh, Sha256(d1)).None? && FindRefresh(db.refresh, Sha256(d2)).None?
    requires var u := db.refresh[FindRefresh(db.refresh, Sha256(token)).value].user;
             u < |db.users| && db.users[u].status == Active
    ensures var i := FindRefresh(db.refresh, Sha256(token)).value;
            var end := Race(World(db, [], []), [Present(token, d1), Present(token, d2), Finish(0), Finish(1)]);
            end.accepted == [i, i] && Acceptable(end.db, d1) && Acceptable(end.db, d2)
  {
    var i := FindRefresh(db.refresh, Sha256(token)).value;
    ForkTwice(db, i, d1, d2);
    TwoRedemptions(db, token, i, d1, d2);
  }

  lemma TwoRedemptions(db: Tables, token: Token, i: nat, d1: Token, d2: Token)
    requires Read(db, token, d1) == Redeeming(i, d1) && Read(db, token, d2) == Redeeming(i, d2)
    requires i < |db.refresh| && Redeemed(db, i, d1).Ok?
    requires i < |Redeemed(db, i, d1).value.refresh| && Redeemed(Redeemed(db, i, d1).value, i, d2).Ok?
    ensures Race(World(db, [], []), [Present(token, d1), Present(token, d2), Finish(0), Finish(1)])
         == World(Redeemed(Redeemed(db, i, d1).value, i, d2).value, [Answered, Answered], [i, i])
  {
    var w := World(db, [], []);
    FourEvents(w, Present(token, d1), Present(token, d2), Finish(0), Finish(1));
    hide Redeemed, Race, Read;
    var both := Next(Next(w, Present(token, d1)), Present(token, d2));
    assert both == World(db, [Redeeming(i, d1), Redeeming(i, d2)], []);
    var once := Redeemed(db, i, d1).value;
    assert Next(both, Finish(0)) == World(once, [Answered, Redeeming(i, d2)], [i]);
  }

  lemma ForkTwice(db: Tables, i: nat, d1: Token, d2: Token)
    requires UniqueHashes(db.refresh) && i < |db.refresh| && d1 != d2 && db.config.refreshTtl > 0
    requires FindRefresh(db.refresh, Sha256(d1)).None? && FindRefresh(db.refresh, Sha256(d2)).None?
    requires db.refresh[i].user < |db.users| && db.users[db.refresh[i].user].status == Active
    ensures Redeemed(db, i, d1).Ok?
    ensures var once := Redeemed(db, i, d1).value;
            && i < |once.refresh| && Redeemed(once, i, d2).Ok?
            && Acceptable(Redeemed(once, i, d2).value, d1) && Acceptable(Redeemed(once, i, d2).value, d2)
  {
    var n := |db.refresh|;
    ForkOnce(db, i, d1);
    var once := Redeemed(db, i, d1).value;
    StillUnused(db.refresh, once.refresh, d1, d2);
    hide Redeemed, FindRefresh, UniqueHashes;
    ForkOnce(once, i, d2);
    var twice := Redeemed(once, i, d2).value;
    assert twice.refresh[n] == once.refresh[n];
    UniqueFound(twice.refresh, n);
    UniqueFound(twice.refresh, n + 1);
  }

  lemma StillUnused(rows: seq<RefreshToken>, after: seq<RefreshToken>, d1: Token, d2: Token)
    requires d1 != d2 && FindRefresh(rows, Sha256(d2)).None? && |after| == |rows| + 1
    requires after[|rows|].hash == Sha256(d1) && forall j | 0 <= j < |rows| :: after[j].hash == rows[j].hash
    ensures FindRefresh(after, Sha256(d2)).None?
  {
  }

  lemma UniqueFound(rows: seq<RefreshToken>, i: nat)
    requires UniqueHashes(rows) && i < |rows|
    ensures FindRefresh(rows, rows[i].hash) == Some(i)
  {
  }

  /** What one redemption leaves when its user is active. */
  lemma ForkOnce(db: Tables, i: nat, drawn: Token)
    requires UniqueHashes(db.refresh) && i < |db.refresh| && FindRefresh(db.refresh, Sha256(drawn)).None?
    requires db.refresh[i].user < |db.users| && db.users[db.refresh[i].user].status == Active
    ensures Redeemed(db, i, drawn).Ok?
    ensures var after := Redeemed(db, i, drawn).value;
            && after == db.(refresh := after.refresh) && UniqueHashes(after.refresh)
            && |after.refresh| == |db.refresh| + 1
            && after.refresh[|db.refresh|]
               == RefreshToken(Sha256(drawn), db.refresh[i].user, db.now + db.config.refreshTtl, None, None)
            && after.refresh[i].user == db.refresh[i].user
            && (forall j | 0 <= j < |db.refresh| :: after.refresh[j].hash == db.refresh[j].hash)
            && (forall j | 0 <= j < |db.refresh| && j != i :: after.refresh[j] == db.refresh[j])
  {
    hide FindRefresh;
  }

  lemma FourEvents(w: World, a: Event, b: Event, c: Event, d: Event)
    ensures Race(w, [a, b, c, d]) == Next(Next(Next(Next(w, a), b), c), d)
  {
    hide Next;
    assert [a, b, c, d][..3] == [a, b, c] && [a, b, c][..2] == [a, b] && [a, b][..1] == [a] && [a][..0] == [];
    assert Race(w, []) == w;
    assert Race(w, [a]) == Next(w, a);
    assert Race(w, [a, b]) == Next(Race(w, [a]), b);
    assert Race(w, [a, b, c]) == Next(Race(w, [a, b]), c);
  }

  // ---- ending every session while a redemption is in flight ---------------------------------

  /** An attempt that has read a token of user `u` and has still to write. */
  ghost predicate RedeemingFor(w: World, u: nat) {
    exists k :: 0 <= k < |w.attempts| && ForUser(w.db, w.attempts[k], u)
  }

  predicate ForUser(db: Tables, a: Attempt, u: nat) {
    a.Redeeming? && a.row < |db.refresh| && db.refresh[a.row].user == u
  }

  ghost predicate AllRevoked(db: Tables, u: nat) {
    forall i | 0 <= i < |db.refresh| && db.refresh[i].user == u :: db.refresh[i].revokedAt.Some?
  }

  /** User `u` has no working refresh token and none on the way. */
  ghost predicate Silenced(w: World, u: nat) {
    AllRevoked(w.db, u) && !RedeemingFor(w, u)
  }

  lemma KillAddsNoRow(db: Tables, op: Op, u: nat)
    requires Kills(db, op, u)
    ensures |Call(db, op).db.refresh| == |db.refresh| && Call(db, op).db.config == db.config
    ensures u < |Call(db, op).db.users|
  {
    hide FindUserToken, FindRefresh;
  }

  lemma OwnersStay(db: Tables, after: Tables, attempts: seq<Attempt>, u: nat)
    requires |after.refresh| >= |db.refresh|
    requires forall i | 0 <= i < |db.refresh| :: after.refresh[i].user == db.refresh[i].user
    requires forall k | 0 <= k < |attempts| && attempts[k].Redeeming? :: attempts[k].row < |db.refresh|
    ensures RedeemingFor(World(after, attempts, []), u) <==> RedeemingFor(World(db, attempts, []), u)
  {
    if RedeemingFor(World(after, attempts, []), u) {
      var k :| 0 <= k < |attempts| && ForUser(after, attempts[k], u);
      assert ForUser(db, attempts[k], u);
    }
    if RedeemingFor(World(db, attempts, []), u) {
      var k :| 0 <= k < |attempts| && ForUser(db, attempts[k], u);
      assert ForUser(after, attempts[k], u);
    }
  }

  /** A password change, reset, log-out everywhere or suspension leaves its user without any refresh
      token, now or on the way, if and only if no token of theirs is being redeemed as it is made. */
  lemma KillExactly(w: World, op: Op, u: nat)
    requires Recorded(w) && Kills(w.db, op, u)
    ensures Silenced(Next(w, Other(op)), u) <==> !RedeemingFor(w, u)
  {
    var after := Call(w.db, op).db;
    CallEvolves(w.db, op);
    KillAddsNoRow(w.db, op, u);
    forall i | 0 <= i < |after.refresh| && after.refresh[i].user == u
      ensures after.refresh[i].revokedAt.Some?
    {
      KillRevokes(w.db, op, u, i);
    }
    hide Call, Kills;
    OwnersStay(w.db, after, w.attempts, u);
    SameQuestion(Next(w, Other(op)), u);
    SameQuestion(w, u);
  }

  lemma SameQuestion(w: World, u: nat)
    ensures RedeemingFor(w, u) <==> RedeemingFor(World(w.db, w.attempts, []), u)
  {
  }

  /** A call that opens a session for user `u`. */
  predicate OpensFor(db: Tables, op: Op, u: nat) {
    Call(db, op).result.Ok? && Call(db, op).result.value.Some? && Call(db, op).result.value.value.sub == u
  }

  /** Rows are added only with a session, for its user. */
  lemma NewRowIsOpened(db: Tables, op: Op, i: nat)
    requires !op.Refresh? && |db.refresh| <= i < |Call(db, op).db.refresh|
    ensures OpensFor(db, op, Call(db, op).db.refresh[i].user)
  {
    hide FindRefresh, FindUserToken, RevokeRows, Retire;
  }

  lemma OtherStaysSilenced(w: World, op: Op, u: nat)
    requires Recorded(w) && Silenced(w, u) && !op.Refresh? && !OpensFor(w.db, op, u)
    ensures Silenced(Next(w, Other(op)), u)
  {
    var after := Call(w.db, op).db;
    CallEvolves(w.db, op);
    forall i | 0 <= i < |after.refresh| && after.refresh[i].user == u
      ensures after.refresh[i].revokedAt.Some?
    {
      if i >= |w.db.refresh| {
        NewRowIsOpened(w.db, op, i);
      }
    }
    hide Call, OpensFor;
    OwnersStay(w.db, after, w.attempts, u);
    SameQuestion(Next(w, Other(op)), u);
    SameQuestion(w, u);
  }

  /** What one redemption does to the rows: others' tokens and revoked ones stay, and the new row is
      its own user's. */
  lemma RedeemedOwners(db: Tables, i: nat, drawn: Token)
    requires i < |db.refresh| && Redeemed(db, i, drawn).Ok?
    ensures var rows := Redeemed(db, i, drawn).value.refresh;
            && |rows| == |db.refresh| + 1 && rows[|db.refresh|].user == db.refresh[i].user
            && forall j | 0 <= j < |db.refresh| :: rows[j].user == db.refresh[j].user
                                                   && (db.refresh[j].revokedAt.Some? ==> rows[j].revokedAt.Some?)
  {
    hide FindRefresh;
  }

  lemma FinishStaysSilenced(w: World, k: nat, u: nat)
    requires Recorded(w) && Silenced(w, u)
    ensures Silenced(Next(w, Finish(k)), u)
  {
    if k < |w.attempts| && !w.attempts[k].Answered? {
      var end := Next(w, Finish(k));
      var rest := w.attempts[k := Answered];
      assert !ForUser(w.db, w.attempts[k], u);
      assert !RedeemingFor(World(w.db, rest, []), u) by {
        if j :| 0 <= j < |rest| && ForUser(w.db, rest[j], u) {
          assert ForUser(w.db, w.attempts[j], u);
        }
      }
      if w.attempts[k].Redeeming? && Redeemed(w.db, w.attempts[k].row, w.attempts[k].drawn).Ok? {
        RedeemedOwners(w.db, w.attempts[k].row, w.attempts[k].drawn);
      }
      hide Redeemed, FindRefresh;
      assert end.attempts == rest && |end.db.refresh| >= |w.db.refresh|;
      assert AllRevoked(end.db, u);
      OwnersStay(w.db, end.db, rest, u);
      SameQuestion(end, u);
    }
  }

  lemma PresentStaysSilenced(w: World, token: Token, drawn: Token, u: nat)
    requires Recorded(w) && Silenced(w, u)
    ensures Silenced(Next(w, Present(token, drawn)), u)
  {
    var a := Read(w.db, token, drawn);
    assert !ForUser(w.db, a, u);
    hide Read;
    var end := Next(w, Present(token, drawn));
    forall j | 0 <= j < |end.attempts|
      ensures !ForUser(end.db, end.attempts[j], u)
    {
      if j < |w.attempts| {
        assert !ForUser(w.db, w.attempts[j], u);
      }
    }
  }

  /** No call of the run opens a session for user `u`. */
  predicate OpensNoneFor(w: World, events: seq<Event>, u: nat) {
    events == [] ||
    var front, e := events[..|events| - 1], events[|events| - 1];
    OpensNoneFor(w, front, u) && (e.Other? && !e.op.Refresh? ==> !OpensFor(Race(w, front).db, e.op, u))
  }

  lemma {:induction false} StaysSilenced(w: World, events: seq<Event>, u: nat)
    requires Recorded(w) && Silenced(w, u) && OpensNoneFor(w, events, u)
    ensures Silenced(Race(w, events), u)
  {
    hide Recorded, Silenced, OpensFor, Next;
    if events != [] {
      var front, e := events[..|events| - 1], events[|events| - 1];
      StaysSilenced(w, front, u);
      RacesStayRecorded(w, front);
      NextStaysSilenced(Race(w, front), e, u);
    }
  }

  lemma NextStaysSilenced(w: World, e: Event, u: nat)
    requires Recorded(w) && Silenced(w, u) && (e.Other? && !e.op.Refresh? ==> !OpensFor(w.db, e.op, u))
    ensures Silenced(Next(w, e), u)
  {
    hide Recorded, Silenced, OpensFor;
    match e
    case Present(token, drawn) => PresentStaysSilenced(w, token, drawn, u);
    case Finish(k) => FinishStaysSilenced(w, k, u);
    case Other(op) => if !op.Refresh? { OtherStaysSilenced(w, op, u); }
  }

  /** Once such a call has been made with no token of the user being redeemed, no refresh token of
      theirs works again in any race until a new session is opened. */
  lemma KilledForGoodInRaces(w: World, op: Op, u: nat, events: seq<Event>)
    requires Recorded(w) && Kills(w.db, op, u) && !RedeemingFor(w, u)
    requires OpensNoneFor(Next(w, Other(op)), events, u)
    ensures Silenced(Race(Next(w, Other(op)), events), u)
  {
    hide Kills, Recorded, Silenced;
    KillExactly(w, op, u);
    NextKeepsRecorded(w, Other(op));
    StaysSilenced(Next(w, Other(op)), events, u);
  }

  /** A redemption that was in flight hands out a token that works after the call, if and only if the
      call left the user active. */
  lemma InFlightOutlivesKill(w: World, op: Op, u: nat, k: nat)
    requires Kills(w.db, op, u) && k < |w.attempts| && ForUser(w.db, w.attempts[k], u)
    requires UniqueHashes(w.db.refresh) && w.db.config.refreshTtl > 0
    requires FindRefresh(w.db.refresh, Sha256(w.attempts[k].drawn)).None?
    ensures var after := Call(w.db, op).db;
            && u < |after.users|
            && (Acceptable(Next(Next(w, Other(op)), Finish(k)).db, w.attempts[k].drawn) <==> after.users[u].status == Active)
  {
    var after, i, drawn := Call(w.db, op).db, w.attempts[k].row, w.attempts[k].drawn;
    CallEvolves(w.db, op);
    KillAddsNoRow(w.db, op, u);
    SameHashes(w.db.refresh, after.refresh, Sha256(drawn));
    hide Call, Kills, FindRefresh, UniqueHashes;
    SuccessorWorksExactly(after, i, drawn);
    hide Acceptable, Redeemed;
    assert Next(w, Other(op)).db == after;
  }

  lemma SameHashes(rows: seq<RefreshToken>, after: seq<RefreshToken>, hash: Digest)
    requires UniqueHashes(rows) && FindRefresh(rows, hash).None? && |after| == |rows|
    requires forall i | 0 <= i < |rows| :: after[i].hash == rows[i].hash
    ensures UniqueHashes(after) && FindRefresh(after, hash).None?
  {
  }

  /** The successor a redemption leaves works exactly for an active user. */
  lemma SuccessorWorksExactly(db: Tables, i: nat, drawn: Token)
    requires UniqueHashes(db.refresh) && i < |db.refresh| && FindRefresh(db.refresh, Sha256(drawn)).None?
    requires db.config.refreshTtl > 0 && db.refresh[i].user < |db.users|
    ensures Redeemed(db, i, drawn).Ok?
    ensures Acceptable(Redeemed(db, i, drawn).value, drawn) <==> db.users[db.refresh[i].user].status == Active
  {
    if db.users[db.refresh[i].user].status == Active {
      ForkOnce(db, i, drawn);
      UniqueFound(Redeemed(db, i, drawn).value.refresh, |db.refresh|);
    } else {
      InactiveSuccessor(db, i, drawn);
    }
  }

  lemma InactiveSuccessor(db: Tables, i: nat, drawn: Token)
    requires i < |db.refresh| && FindRefresh(db.refresh, Sha256(drawn)).None?
    requires db.refresh[i].user < |db.users| && db.users[db.refresh[i].user].status != Active
    ensures Redeemed(db, i, drawn).Ok? && !Acceptable(Redeemed(db, i, drawn).value, drawn)
  {
    var rows := Redeemed(db, i, drawn).value.refresh;
    assert forall j | 0 <= j < |db.refresh| :: rows[j].hash == db.refresh[j].hash;
    assert rows[|db.refresh|].revokedAt.Some?;
    hide IssueRefresh;
  }

  /** The run in which a refresh outlives a log-out everywhere. */
  lemma RefreshOutlivesLogout(db: Tables, token: Token, drawn: Token)
    requires UniqueHashes(db.refresh) && Acceptable(db, token) && db.config.refreshTtl > 0
    requires FindRefresh(db.refresh, Sha256(drawn)).None?
    requires var u := db.refresh[FindRefresh(db.refresh, Sha256(token)).value].user;
             u < |db.users| && db.users[u].status == Active
    ensures var u := db.refresh[FindRefresh(db.refresh, Sha256(token)).value].user;
            var end := Race(World(db, [], []), [Present(token, drawn), Other(LogoutAll(Mint(db, u))), Finish(0)]).db;
            Acceptable(end, drawn)
  {
    var w := World(db, [], []);
    var i := FindRefresh(db.refresh, Sha256(token)).value;
    var u := db.refresh[i].user;
    var op := LogoutAll(Mint(db, u));
    ThreeEvents(w, Present(token, drawn), Other(op), Finish(0));
    var reading := Next(w, Present(token, drawn));
    assert reading == World(db, [Redeeming(i, drawn)], []);
    assert Kills(db, op, u) && Call(db, op).db.users[u].status == Active;
    hide Call, Kills, Next, Race, Acceptable, FindRefresh, UniqueHashes;
    InFlightOutlivesKill(reading, op, u, 0);
  }

  lemma ThreeEvents(w: World, a: Event, b: Event, c: Event)
    ensures Race(w, [a, b, c]) == Next(Next(Next(w, a), b), c)
  {
    hide Next;
    assert [a, b, c][..2] == [a, b] && [a, b][..1] == [a] && [a][..0] == [];
    assert Race(w, []) == w;
    assert Race(w, [a]) == Next(w, a);
    assert Race(w, [a, b]) == Next(Race(w, [a]), b);
  }
}
