/** Invite and reset links opened at the same time: each redemption first reads its row and writes
    later, with any other call in between. */
module LinkRaces {
  import opened Outcomes
  import opened Sessions
  import opened SessionSafety
  import opened Tally

  /** A link between its read and its writes: an invite about to be accepted, a password about to be
      reset, or an answered call. */
  datatype Attempt = Accepting(row: nat, password: Password, drawn: Token) | Resetting(row: nat, password: Password) | Answered

  /** `redeemed` lists the rows redeemed so far, in order. */
  datatype World = World(db: Tables, attempts: seq<Attempt>, redeemed: seq<nat>)

  datatype Event =
    | OpenInvite(token: Token, password: Password, drawn: Token)
    | OpenReset(token: Token, password: Password)
    | Finish(attempt: nat)
    | Other(op: Op)

  /** The row a link of the purpose would redeem, as the tables stand. */
  function Usable(db: Tables, token: Token, purpose: Purpose): Option<nat> {
    match FindUserToken(db.userTokens, Sha256(token))
    case None => None
    case Some(i) =>
      var row := db.userTokens[i];
      if row.purpose != purpose || row.usedAt != None || row.expiresAt <= db.now then None else Some(i)
  }

  function Read(db: Tables, e: Event): Attempt {
    match e
    case OpenInvite(token, password, drawn) =>
      (match Usable(db, token, Invite) case Some(i) => Accepting(i, password, drawn) case None => Answered)
    case OpenReset(token, password) =>
      (match Usable(db, token, PasswordReset) case Some(i) => Resetting(i, password) case None => Answered)
    case _ => Answered
  }

  function Spend(db: Tables, i: nat): Tables
    requires i < |db.userTokens|
  {
    db.(userTokens := db.userTokens[i := db.userTokens[i].(usedAt := Some(db.now))])
  }

  /** Stamps the row read earlier whatever it holds by now, and does what the link is for. */
  function Redeemed(db: Tables, a: Attempt): Tables
    requires !a.Answered? && a.row < |db.userTokens|
  {
    var u := db.userTokens[a.row].user;
    match a
    case Resetting(i, password) => BumpVersion(RevokeAll(SetPassword(Spend(db, i), u, password, false), u), u)
    case Accepting(i, password, drawn) =>
      var after := SetPassword(Spend(db, i), u, password, true);
      if u >= |after.users| then after else Session(after, u, drawn).db
  }

  function Next(w: World, e: Event): World {
    match e
    case Other(op) => if op.AcceptInvite? || op.ResetPassword? then w else w.(db := Call(w.db, op).db)
    case Finish(k) =>
      if k >= |w.attempts| || w.attempts[k].Answered? || w.attempts[k].row >= |w.db.userTokens| then w
      else World(Redeemed(w.db, w.attempts[k]), w.attempts[k := Answered], w.redeemed + [w.attempts[k].row])
    case _ => w.(attempts := w.attempts + [Read(w.db, e)])
  }

  function Race(w: World, events: seq<Event>): World {
    if events == [] then w else Next(Race(w, events[..|events| - 1]), events[|events| - 1])
  }

  /** A link finished straight after its read is the serial call. */
  lemma UninterruptedIsCall(w: World, token: Token, password: Password, drawn: Token)
    ensures Next(Next(w, OpenInvite(token, password, drawn)), Finish(|w.attempts|)).db
         == Call(w.db, AcceptInvite(token, password, drawn)).db
    ensures Next(Next(w, OpenReset(token, password)), Finish(|w.attempts|)).db == Call(w.db, ResetPassword(token, password)).db
  {
    hide FindUserToken, FindRefresh, RevokeRows;
  }

  // ---- when a link works only once -----------------------------------------------------------

  /** Redeemed rows are used up, and every attempt refers to a row of the table. */
  ghost predicate Recorded(w: World) {
    && (forall i | i in w.redeemed :: i < |w.db.userTokens| && w.db.userTokens[i].usedAt.Some?)
    && (forall k | 0 <= k < |w.attempts| && !w.attempts[k].Answered? :: w.attempts[k].row < |w.db.userTokens|)
  }

  lemma RedeemedLinks(db: Tables, a: Attempt)
    requires !a.Answered? && a.row < |db.userTokens|
    ensures Redeemed(db, a).userTokens == db.userTokens[a.row := db.userTokens[a.row].(usedAt := Some(db.now))]
  {
    hide FindRefresh, RevokeRows;
  }

  lemma NextKeepsRecorded(w: World, e: Event)
    requires Recorded(w)
    ensures Recorded(Next(w, e))
  {
    match e
    case Other(op) => CallEvolves(w.db, op); hide Call;
    case Finish(k) =>
      if k < |w.attempts| && !w.attempts[k].Answered? && w.attempts[k].row < |w.db.userTokens| {
        RedeemedLinks(w.db, w.attempts[k]);
        hide Redeemed;
      }
    case _ => hide FindUserToken;
  }

  lemma {:induction false} RacesStayRecorded(w: World, events: seq<Event>)
    requires Recorded(w)
    ensures Recorded(Race(w, events))
  {
    hide Next, Recorded;
    if events != [] {
      RacesStayRecorded(w, events[..|events| - 1]);
      NextKeepsRecorded(Race(w, events[..|events| - 1]), events[|events| - 1]);
    }
  }

  ghost function Holds(a: Attempt): multiset<nat> {
    if a.Answered? then multiset{} else multiset{a.row}
  }

  /** Rows redeemed together with those about to be. */
  ghost function Promised(w: World): multiset<nat> {
    multiset(w.redeemed) + Bag(w.attempts, Holds)
  }

  /** The link opened is not already being redeemed by another attempt. */
  ghost predicate Clear(w: World, e: Event) {
    (e.OpenInvite? || e.OpenReset?) && !Read(w.db, e).Answered? ==>
      forall k | 0 <= k < |w.attempts| && !w.attempts[k].Answered? :: w.attempts[k].row != Read(w.db, e).row
  }

  ghost predicate ClearRace(w: World, events: seq<Event>) {
    events == [] ||
    (ClearRace(w, events[..|events| - 1]) && Clear(Race(w, events[..|events| - 1]), events[|events| - 1]))
  }

  lemma OpenIsSingle(w: World, e: Event)
    requires Recorded(w) && (e.OpenInvite? || e.OpenReset?)
    ensures AtMostOnce(Promised(Next(w, e))) <==> AtMostOnce(Promised(w)) && Clear(w, e)
  {
    var a := Read(w.db, e);
    OpenAdds(w, e);
    if a.Answered? {
      assert Promised(w) + multiset{} == Promised(w);
    } else {
      assert a.row !in w.redeemed;
      hide Recorded, Read, Bag, Next, AtMostOnce;
      OneMoreIsSingle(w.redeemed, w.attempts, Holds, a.row);
    }
  }

  lemma OpenAdds(w: World, e: Event)
    requires e.OpenInvite? || e.OpenReset?
    ensures Promised(Next(w, e)) == Promised(w) + Holds(Read(w.db, e))
  {
    hide Read;
    BagAppend(w.attempts, Holds, Read(w.db, e));
  }

  lemma FinishMoves(w: World, k: nat)
    ensures Promised(Next(w, Finish(k))) == Promised(w)
  {
    if k < |w.attempts| && !w.attempts[k].Answered? && w.attempts[k].row < |w.db.userTokens| {
      hide Bag, Redeemed;
      MoveOne(w.redeemed, w.attempts, Holds, k, w.attempts[k].row, Answered);
    }
  }

  lemma SingleStep(w: World, e: Event)
    requires Recorded(w)
    ensures AtMostOnce(Promised(Next(w, e))) <==> AtMostOnce(Promised(w)) && Clear(w, e)
  {
    hide Recorded, Read, AtMostOnce;
    match e
    case Finish(k) => FinishMoves(w, k); hide Next;
    case Other(op) => hide Call;
    case _ => OpenIsSingle(w, e);
  }

  lemma {:induction false} SingleRace(w: World, events: seq<Event>)
    requires Recorded(w) && AtMostOnce(Promised(w))
    ensures AtMostOnce(Promised(Race(w, events))) <==> ClearRace(w, events)
  {
    hide Next, Recorded, Clear, AtMostOnce, Promised;
    if events != [] {
      var front := events[..|events| - 1];
      SingleRace(w, front);
      RacesStayRecorded(w, front);
      SingleStep(Race(w, front), events[|events| - 1]);
    }
  }

  ghost predicate AllAnswered(w: World) {
    forall k | 0 <= k < |w.attempts| :: w.attempts[k].Answered?
  }

  /** However redemptions and other calls interleave, every link is redeemed at most once as long as
      none is opened while another attempt is redeeming it; exactly then once all are answered. */
  lemma RedeemedOnceInRaces(w: World, events: seq<Event>)
    requires Recorded(w) && AtMostOnce(Promised(w))
    ensures ClearRace(w, events) ==> NoRepeats(Race(w, events).redeemed)
    ensures AllAnswered(Race(w, events)) ==> (NoRepeats(Race(w, events).redeemed) <==> ClearRace(w, events))
  {
    SingleRace(w, events);
    var end := Race(w, events);
    hide Race, ClearRace, Recorded;
    NothingLeft(end.redeemed, end.attempts, Holds);
  }

  // ---- one link, two passwords ----------------------------------------------------------------

  lemma FourEvents(w: World, a: Event, b: Event, c: Event, d: Event)
    ensures Race(w, [a, b, c, d]) == Next(Next(Next(Next(w, a), b), c), d)
  {
    hide Next;
    assert [a, b, c, d][..3] == [a, b, c] && [a, b, c][..2] == [a, b] && [a, b][..1] == [a] && [a][..0] == [];
    assert Race(w, []) == w;
    assert Race(w, [a]) == Next(w, a);
    assert Race(w, [a, b]) == Next(Race(w, [a]), b);
    assert Race(w, [a, b, c]) == Next(Race(w, [a, b]), c);
  }

  /** Two attempts that both read a reset link before either writes both set the password: the link
      worked twice, and the later password stands. */
  lemma OverlapResetsTwice(db: Tables, token: Token, p1: Password, p2: Password)
    requires Usable(db, token, PasswordReset).Some?
    requires db.userTokens[Usable(db, token, PasswordReset).value].user < |db.users|
    ensures var i := Usable(db, token, PasswordReset).value;
            var u := db.userTokens[i].user;
            var end := Race(World(db, [], []), [OpenReset(token, p1), OpenReset(token, p2), Finish(0), Finish(1)]);
            && end.redeemed == [i, i] && u < |end.db.users| && end.db.users[u].password == Some(p2)
            && end.db.users[u].tokenVersion == db.users[u].tokenVersion + 2
  {
    var i := Usable(db, token, PasswordReset).value;
    TwoResets(db, token, i, p1, p2);
    hide Redeemed, Race, Usable, Next;
    ResetWrites(db, i, p1);
    ResetWrites(Redeemed(db, Resetting(i, p1)), i, p2);
  }

  lemma TwoResets(db: Tables, token: Token, i: nat, p1: Password, p2: Password)
    requires Usable(db, token, PasswordReset) == Some(i) && i < |db.userTokens|
    requires i < |Redeemed(db, Resetting(i, p1)).userTokens|
    ensures Race(World(db, [], []), [OpenReset(token, p1), OpenReset(token, p2), Finish(0), Finish(1)])
         == World(Redeemed(Redeemed(db, Resetting(i, p1)), Resetting(i, p2)), [Answered, Answered], [i, i])
  {
    var w := World(db, [], []);
    FourEvents(w, OpenReset(token, p1), OpenReset(token, p2), Finish(0), Finish(1));
    hide Redeemed, Race, Usable;
    var both := Next(Next(w, OpenReset(token, p1)), OpenReset(token, p2));
    assert both == World(db, [Resetting(i, p1), Resetting(i, p2)], []);
    assert Next(both, Finish(0)) == World(Redeemed(db, Resetting(i, p1)), [Answered, Resetting(i, p2)], [i]);
  }

  lemma ResetWrites(db: Tables, i: nat, password: Password)
    requires i < |db.userTokens| && db.userTokens[i].user < |db.users|
    ensures var after, u := Redeemed(db, Resetting(i, password)), db.userTokens[i].user;
            && |after.users| == |db.users| && |after.userTokens| == |db.userTokens| && after.userTokens[i].user == u
            && after.users[u].password == Some(password) && after.users[u].tokenVersion == db.users[u].tokenVersion + 1
  {
    hide RevokeRows;
  }
}
