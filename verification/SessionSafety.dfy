/** What every serial run of the session calls keeps: rotation chains, single acceptance,
    suspension, and the exact life of an access token. */
module SessionSafety {
  import opened Outcomes
  import opened Sessions

  // ---- rotation chains ---------------------------------------------------------------------

  /** Row `j` replaced row `i`. */
  ghost predicate Successor(rows: seq<RefreshToken>, i: nat, j: nat) {
    i < |rows| && j < |rows| && rows[i].replacedBy == Some(rows[j].hash)
  }

  ghost predicate HasSuccessor(rows: seq<RefreshToken>, i: nat)
    requires i < |rows|
  {
    exists j: nat :: i < j && Successor(rows, i, j) && rows[j].user == rows[i].user
  }

  ghost predicate UniqueHashes(rows: seq<RefreshToken>) {
    forall i, j | 0 <= i < j < |rows| :: rows[i].hash != rows[j].hash
  }

  /** Replaced rows are revoked and point at a later row of their user, no two at the same one. */
  ghost predicate Chained(rows: seq<RefreshToken>) {
    && UniqueHashes(rows)
    && (forall i | 0 <= i < |rows| && rows[i].replacedBy.Some? :: rows[i].revokedAt.Some? && HasSuccessor(rows, i))
    && (forall i, j | 0 <= i < j < |rows| && rows[i].replacedBy.Some? :: rows[i].replacedBy != rows[j].replacedBy)
  }

  /** The first token of a session. */
  ghost predicate IsRoot(rows: seq<RefreshToken>, j: nat) {
    j < |rows| && forall i: nat :: !Successor(rows, i, j)
  }

  /** Row `j` is the `n`-th rotation of row `i`. */
  ghost predicate Rotation(rows: seq<RefreshToken>, i: nat, n: nat, j: nat)
    decreases n
  {
    if n == 0 then i == j else exists k: nat :: Rotation(rows, i, n - 1, k) && Successor(rows, k, j)
  }

  lemma SuccessorIsLater(rows: seq<RefreshToken>, i: nat, j: nat)
    requires Chained(rows) && Successor(rows, i, j)
    ensures i < j && rows[i].user == rows[j].user && rows[i].revokedAt.Some?
  {
    var k: nat :| i < k && Successor(rows, i, k) && rows[k].user == rows[i].user;
    assert k == j;
  }

  /** Every token descends from a session's first token, of the same user. */
  lemma {:induction false} ChainStart(rows: seq<RefreshToken>, j: nat) returns (root: nat, n: nat)
    requires Chained(rows) && j < |rows|
    ensures IsRoot(rows, root) && Rotation(rows, root, n, j)
    ensures root + n <= j && rows[root].user == rows[j].user
    decreases j
  {
    if IsRoot(rows, j) {
      root, n := j, 0;
    } else {
      var i: nat :| Successor(rows, i, j);
      SuccessorIsLater(rows, i, j);
      root, n := ChainStart(rows, i);
      n := n + 1;
    }
  }

  /** And from only one, at only one place: the chains are disjoint and acyclic. */
  lemma {:induction false} ChainsAreDisjoint(rows: seq<RefreshToken>, r1: nat, n1: nat, r2: nat, n2: nat, j: nat)
    requires Chained(rows)
    requires IsRoot(rows, r1) && Rotation(rows, r1, n1, j)
    requires IsRoot(rows, r2) && Rotation(rows, r2, n2, j)
    ensures r1 == r2 && n1 == n2
    decreases n1
  {
    if n1 > 0 && n2 > 0 {
      var k1: nat :| Rotation(rows, r1, n1 - 1, k1) && Successor(rows, k1, j);
      var k2: nat :| Rotation(rows, r2, n2 - 1, k2) && Successor(rows, k2, j);
      assert k1 == k2;
      ChainsAreDisjoint(rows, r1, n1 - 1, r2, n2 - 1, k1);
    }
  }

  /** Only the last link of a chain can be unrevoked. */
  lemma OnlyLastUnrevoked(rows: seq<RefreshToken>, i: nat)
    requires Chained(rows) && i < |rows| && rows[i].revokedAt == None
    ensures forall j: nat :: !Successor(rows, i, j)
  {
  }

  function Roots(rows: seq<RefreshToken>): set<nat>
  {
    set j: nat | j < |rows| && forall i | 0 <= i < |rows| :: rows[i].replacedBy != Some(rows[j].hash)
  }

  lemma RootsAreRoots(rows: seq<RefreshToken>, j: nat)
    ensures j in Roots(rows) <==> IsRoot(rows, j)
  {
    if IsRoot(rows, j) {
      forall i | 0 <= i < |rows|
        ensures rows[i].replacedBy != Some(rows[j].hash)
      {
        assert !Successor(rows, i, j);
      }
    }
  }

  // ---- the invariant -----------------------------------------------------------------------

  ghost predicate UserTokensSound(db: Tables) {
    && (forall i | 0 <= i < |db.userTokens| :: db.userTokens[i].user < |db.users|)
    && (forall i, j | 0 <= i < j < |db.userTokens| ::
          && db.userTokens[i].hash != db.userTokens[j].hash
          && !(db.userTokens[i].user == db.userTokens[j].user && db.userTokens[i].purpose == db.userTokens[j].purpose
               && db.userTokens[i].usedAt == None && db.userTokens[j].usedAt == None))
  }

  ghost predicate SuspendedHoldNothing(db: Tables) {
    forall i | 0 <= i < |db.refresh| ::
      && db.refresh[i].user < |db.users|
      && (db.users[db.refresh[i].user].status == Suspended ==> db.refresh[i].revokedAt.Some?)
  }

  ghost predicate Sound(db: Tables) {
    Chained(db.refresh) && SuspendedHoldNothing(db) && UserTokensSound(db)
  }

  lemma IssueKeepsSound(db: Tables, u: nat, drawn: Token)
    requires Sound(db) && u < |db.users| && db.users[u].status != Suspended
    requires IssueRefresh(db, u, drawn).Ok?
    ensures Sound(IssueRefresh(db, u, drawn).value)
    ensures Roots(IssueRefresh(db, u, drawn).value.refresh) == Roots(db.refresh) + {|db.refresh|}
  {
    var rows, after := db.refresh, IssueRefresh(db, u, drawn).value.refresh;
    forall i | 0 <= i < |after| && after[i].replacedBy.Some?
      ensures HasSuccessor(after, i) && after[i].replacedBy != Some(Sha256(drawn))
    {
      var j: nat :| i < j && Successor(rows, i, j) && rows[j].user == rows[i].user;
      assert Successor(after, i, j);
    }
    forall j: nat
      ensures j in Roots(after) <==> j in Roots(rows) + {|rows|}
    {
      if j < |rows| {
        assert after[j].hash == rows[j].hash;
        assert forall i | 0 <= i < |rows| :: after[i].replacedBy == rows[i].replacedBy;
        if j in Roots(rows) {
          assert forall i | 0 <= i < |after| :: after[i].replacedBy != Some(after[j].hash);
        } else {
          var i :| 0 <= i < |rows| && rows[i].replacedBy == Some(rows[j].hash);
          assert after[i].replacedBy == Some(after[j].hash);
        }
      }
    }
  }

  /** Revoking rows, some or all, disturbs no chain. */
  lemma RevocationKeepsChains(rows: seq<RefreshToken>, after: seq<RefreshToken>, now: int)
    requires Chained(rows) && |after| == |rows|
    requires forall i | 0 <= i < |rows| :: after[i] == rows[i] || after[i] == Revoked(rows[i], now)
    ensures Chained(after) && Roots(after) == Roots(rows)
  {
    forall i | 0 <= i < |after|
      ensures after[i].hash == rows[i].hash && after[i].replacedBy == rows[i].replacedBy && after[i].user == rows[i].user
    {
    }
    forall i | 0 <= i < |after| && after[i].replacedBy.Some?
      ensures HasSuccessor(after, i)
    {
      var j: nat :| i < j && Successor(rows, i, j) && rows[j].user == rows[i].user;
      assert Successor(after, i, j);
    }
    forall j: nat
      ensures j in Roots(after) <==> j in Roots(rows)
    {
      if j < |rows| {
        assert (forall i | 0 <= i < |after| :: after[i].replacedBy != Some(after[j].hash))
          <==> (forall i | 0 <= i < |rows| :: rows[i].replacedBy != Some(rows[j].hash));
      }
    }
  }

  lemma RevokeAllKeepsSound(db: Tables, u: nat)
    requires Sound(db)
    ensures Sound(RevokeAll(db, u)) && Roots(RevokeAll(db, u).refresh) == Roots(db.refresh)
  {
    RevocationKeepsChains(db.refresh, RevokeAll(db, u).refresh, db.now);
  }

  lemma RevokeOneKeepsSound(db: Tables, token: Token)
    requires Sound(db)
    ensures Sound(RevokeOne(db, token)) && Roots(RevokeOne(db, token).refresh) == Roots(db.refresh)
  {
    RevocationKeepsChains(db.refresh, RevokeOne(db, token).refresh, db.now);
  }

  /** Appending the successor of the last, unrevoked link of a chain. */
  lemma LinkKeepsChains(rows: seq<RefreshToken>, i: nat, next: RefreshToken, now: int)
    requires Chained(rows) && i < |rows| && rows[i].revokedAt == None
    requires forall j | 0 <= j < |rows| :: rows[j].hash != next.hash
    requires next.user == rows[i].user && next.replacedBy == None
    ensures var after := (rows + [next])[i := rows[i].(revokedAt := Some(now), replacedBy := Some(next.hash))];
            Chained(after) && Roots(after) == Roots(rows)
  {
    var after := (rows + [next])[i := rows[i].(revokedAt := Some(now), replacedBy := Some(next.hash))];
    assert Successor(after, i, |rows|);
    forall k | 0 <= k < |rows| && rows[k].replacedBy.Some?
      ensures rows[k].replacedBy != Some(next.hash) && HasSuccessor(after, k)
    {
      var j: nat :| k < j && Successor(rows, k, j) && rows[j].user == rows[k].user;
      assert after[j].hash == rows[j].hash;
      assert Successor(after, k, j);
    }
    forall j: nat
      ensures j in Roots(after) <==> j in Roots(rows)
    {
      if j < |rows| {
        assert after[j].hash == rows[j].hash;
        if j in Roots(rows) {
          assert forall k | 0 <= k < |after| :: after[k].replacedBy != Some(after[j].hash);
        } else {
          var k :| 0 <= k < |rows| && rows[k].replacedBy == Some(rows[j].hash);
          assert k != i;
          assert after[k].replacedBy == Some(after[j].hash);
        }
      } else if j == |rows| {
        assert after[i].replacedBy == Some(after[j].hash);
      }
    }
  }

  lemma RotateKeepsSound(db: Tables, token: Token, drawn: Token)
    requires Sound(db)
    ensures Sound(Rotate(db, token, drawn).db)
    ensures Roots(Rotate(db, token, drawn).db.refresh) == Roots(db.refresh)
    ensures Rotate(db, token, drawn).db.users == db.users
    ensures Rotate(db, token, drawn).result.Ok? ==> Rotate(db, token, drawn).result.value < |db.users|
  {
    var found := FindRefresh(db.refresh, Sha256(token));
    if found.Some? {
      var row := db.refresh[found.value];
      if row.revokedAt != None {
        RevokeAllKeepsSound(db, row.user);
      } else if row.expiresAt > db.now && IssueRefresh(db, row.user, drawn).Ok? {
        LinkKeepsChains(db.refresh, found.value,
                        RefreshToken(Sha256(drawn), row.user, db.now + db.config.refreshTtl, None, None), db.now);
      }
    }
  }

  lemma IssueUserTokenKeepsSound(db: Tables, u: nat, purpose: Purpose, drawn: Token)
    requires Sound(db) && u < |db.users|
    ensures Sound(IssueUserToken(db, u, purpose, drawn).db)
    ensures IssueUserToken(db, u, purpose, drawn).db.refresh == db.refresh
  {
  }

  lemma RedeemKeepsSound(db: Tables, token: Token, purpose: Purpose)
    requires Sound(db)
    ensures Sound(Redeem(db, token, purpose).db)
    ensures Redeem(db, token, purpose).result.Ok? ==> Redeem(db, token, purpose).result.value < |db.users|
  {
  }

  lemma ApplyStatusKeepsSound(db: Tables, u: nat, next: UserStatus, actor: nat)
    requires Sound(db) && u < |db.users| && ApplyStatus(db, u, next, actor).Ok?
    ensures Sound(ApplyStatus(db, u, next, actor).value)
    ensures Roots(ApplyStatus(db, u, next, actor).value.refresh) == Roots(db.refresh)
  {
    if next == Suspended {
      RevokeAllKeepsSound(db, u);
    }
  }

  /** A call that opens a session: it succeeded and handed out a token family of its own. */
  predicate Opens(db: Tables, op: Op) {
    (op.Register? || op.Login? || op.AcceptInvite?) && Call(db, op).result.Ok?
  }

  lemma SessionKeepsSound(db: Tables, u: nat, drawn: Token)
    requires Sound(db) && u < |db.users| && db.users[u].status != Suspended
    ensures Sound(Session(db, u, drawn).db)
    ensures Roots(Session(db, u, drawn).db.refresh)
         == Roots(db.refresh) + if Session(db, u, drawn).result.Ok? then {|db.refresh|} else {}
  {
    if IssueRefresh(db, u, drawn).Ok? {
      IssueKeepsSound(db, u, drawn);
    }
  }

  /** Changing users without suspending anyone new disturbs nothing. */
  lemma UsersKeepSound(db: Tables, after: Tables)
    requires Sound(db) && after.refresh == db.refresh && after.userTokens == db.userTokens
    requires |db.users| <= |after.users|
    requires forall u | 0 <= u < |db.users| && after.users[u].status == Suspended :: db.users[u].status == Suspended
    ensures Sound(after)
  {
  }

  lemma RefreshKeepsSound(db: Tables, token: Token, drawn: Token)
    requires Sound(db)
    ensures Sound(CallRefresh(db, token, drawn).db)
    ensures Roots(CallRefresh(db, token, drawn).db.refresh) == Roots(db.refresh)
  {
    hide Sound, Roots, Rotate, RevokeAll;
    RotateKeepsSound(db, token, drawn);
    var rotated := Rotate(db, token, drawn);
    if rotated.result.Ok? {
      RevokeAllKeepsSound(rotated.db, rotated.result.value);
    }
  }

  lemma ResetKeepsSound(db: Tables, token: Token, password: Password)
    requires Sound(db)
    ensures Sound(CallResetPassword(db, token, password).db)
    ensures Roots(CallResetPassword(db, token, password).db.refresh) == Roots(db.refresh)
  {
    hide Sound, Roots, RevokeAll;
    RedeemKeepsSound(db, token, PasswordReset);
    var redeemed := Redeem(db, token, PasswordReset);
    if redeemed.result.Ok? {
      var u := redeemed.result.value;
      EndSessionsKeepsSound(redeemed.db, u, password);
    }
  }

  /** Setting a password, revoking every refresh token and bumping the version. */
  lemma EndSessionsKeepsSound(db: Tables, u: nat, password: Password)
    requires Sound(db)
    ensures Sound(BumpVersion(RevokeAll(SetPassword(db, u, password, false), u), u))
    ensures Roots(BumpVersion(RevokeAll(SetPassword(db, u, password, false), u), u).refresh) == Roots(db.refresh)
    ensures Sound(BumpVersion(RevokeAll(db, u), u))
    ensures Roots(BumpVersion(RevokeAll(db, u), u).refresh) == Roots(db.refresh)
  {
    hide Sound, Roots, RevokeRows;
    var changed := SetPassword(db, u, password, false);
    UsersKeepSound(db, changed);
    RevokeAllKeepsSound(changed, u);
    UsersKeepSound(RevokeAll(changed, u), BumpVersion(RevokeAll(changed, u), u));
    RevokeAllKeepsSound(db, u);
    UsersKeepSound(RevokeAll(db, u), BumpVersion(RevokeAll(db, u), u));
  }

  lemma AcceptKeepsSound(db: Tables, token: Token, password: Password, drawn: Token)
    requires Sound(db)
    ensures Sound(CallAcceptInvite(db, token, password, drawn).db)
    ensures Roots(CallAcceptInvite(db, token, password, drawn).db.refresh)
         == Roots(db.refresh) + if CallAcceptInvite(db, token, password, drawn).result.Ok? then {|db.refresh|} else {}
  {
    hide Sound, Roots, Session;
    RedeemKeepsSound(db, token, Invite);
    var redeemed := Redeem(db, token, Invite);
    if redeemed.result.Ok? {
      var u := redeemed.result.value;
      var changed := SetPassword(redeemed.db, u, password, true);
      UsersKeepSound(redeemed.db, changed);
      SessionKeepsSound(changed, u, drawn);
    }
  }

  /** Every call keeps the invariant; a session adds one chain and nothing else does. */
  lemma CallKeepsSound(db: Tables, op: Op)
    requires Sound(db)
    ensures Sound(Call(db, op).db)
    ensures Roots(Call(db, op).db.refresh) == Roots(db.refresh) + if Opens(db, op) then {|db.refresh|} else {}
  {
    hide Roots, Session, CallRefresh, CallResetPassword, CallAcceptInvite, RevokeAll, RevokeOne, IssueUserToken, ApplyStatus;
    hide Chained, UserTokensSound;
    match op
    case Register(email, password, drawn) =>
      if |db.users| == 0 {
        var first := db.(users := [User(email, Active, 0, Some(password))]);
        UsersKeepSound(db, first);
        SessionKeepsSound(first, 0, drawn);
      }
    case Login(u, password, drawn) =>
      if u < |db.users| && db.users[u].status == Active {
        SessionKeepsSound(db, u, drawn);
      }
    case Refresh(token, drawn) => RefreshKeepsSound(db, token, drawn);
    case Logout(token) => RevokeOneKeepsSound(db, token);
    case LogoutAll(a) => EndSessionsKeepsSound(db, a.sub, 0);
    case ForgotPassword(u, drawn) =>
      if u < |db.users| {
        IssueUserTokenKeepsSound(db, u, PasswordReset, drawn);
      }
    case ResetPassword(token, password) => ResetKeepsSound(db, token, password);
    case AcceptInvite(token, password, drawn) => AcceptKeepsSound(db, token, password, drawn);
    case ChangePassword(a, current, password) => EndSessionsKeepsSound(db, a.sub, password);
    case InviteUser(email, drawn) =>
      var created := db.(users := db.users + [User(email, Invited, 0, None)]);
      UsersKeepSound(db, created);
      IssueUserTokenKeepsSound(created, |db.users|, Invite, drawn);
    case ResendInvite(u, drawn) =>
      if u < |db.users| {
        IssueUserTokenKeepsSound(db, u, Invite, drawn);
      }
    case UpdateStatus(u, next, actor) =>
      if u < |db.users| && ApplyStatus(db, u, next, actor).Ok? {
        ApplyStatusKeepsSound(db, u, next, actor);
      }
    case ToggleStatus(u, actor) =>
      if u < |db.users| {
        var next := if db.users[u].status == Active then Suspended else Active;
        if ApplyStatus(db, u, next, actor).Ok? {
          ApplyStatusKeepsSound(db, u, next, actor);
        }
      }
    case Tick(_) => UsersKeepSound(db, Call(db, op).db);
  }

  function SessionsOpened(db: Tables, ops: seq<Op>): nat {
    if ops == [] then 0
    else
      var front := ops[..|ops| - 1];
      SessionsOpened(db, front) + if Opens(Run(db, front), ops[|ops| - 1]) then 1 else 0
  }

  /** Every serial run keeps the chains, a suspended user never holds an unrevoked refresh
      token, and there is exactly one chain per session opened. */
  lemma {:induction false} RunsStaySound(db: Tables, ops: seq<Op>)
    requires Sound(db)
    ensures Sound(Run(db, ops))
    ensures |Roots(Run(db, ops).refresh)| == |Roots(db.refresh)| + SessionsOpened(db, ops)
  {
    if ops != [] {
      var front := ops[..|ops| - 1];
      RunsStaySound(db, front);
      var before := Run(db, front);
      CallKeepsSound(before, ops[|ops| - 1]);
      assert |before.refresh| !in Roots(before.refresh);
    }
  }

  /** Each refresh token of a run belongs to exactly one chain, at one place, and the chains are as
      many as the sessions opened. */
  lemma OneChainPerSession(db: Tables, ops: seq<Op>, j: nat) returns (root: nat, n: nat)
    requires Sound(db) && j < |Run(db, ops).refresh|
    ensures var rows := Run(db, ops).refresh;
            && root in Roots(rows) && Rotation(rows, root, n, j) && rows[root].user == rows[j].user
            && (forall r: nat, m: nat | r in Roots(rows) && Rotation(rows, r, m, j) :: r == root && m == n)
            && |Roots(rows)| == |Roots(db.refresh)| + SessionsOpened(db, ops)
  {
    RunsStaySound(db, ops);
    hide Run, SessionsOpened, SuspendedHoldNothing, UserTokensSound;
    var rows := Run(db, ops).refresh;
    root, n := ChainStart(rows, j);
    RootsAreRoots(rows, root);
    hide Chained, Roots, Rotation, IsRoot;
    forall r: nat, m: nat | r in Roots(rows) && Rotation(rows, r, m, j)
      ensures r == root && m == n
    {
      RootsAreRoots(rows, r);
      ChainsAreDisjoint(rows, r, m, root, n, j);
    }
  }

  // ---- what never goes back ------------------------------------------------------------------

  /** Rows keep their identity; revocation, use and version increments are permanent, and revocation
      and use bear the time they happened at. */
  ghost predicate Evolves(a: Tables, b: Tables) {
    && a.now <= b.now
    && |a.users| <= |b.users| && |a.refresh| <= |b.refresh| && |a.userTokens| <= |b.userTokens|
    && (forall u | 0 <= u < |a.users| ::
          a.users[u].tokenVersion <= b.users[u].tokenVersion && a.users[u].email == b.users[u].email)
    && (forall i | 0 <= i < |a.refresh| ::
          && b.refresh[i].hash == a.refresh[i].hash && b.refresh[i].user == a.refresh[i].user
          && (a.refresh[i].revokedAt.Some? ==> b.refresh[i].revokedAt == a.refresh[i].revokedAt)
          && (a.refresh[i].revokedAt.None? && b.refresh[i].revokedAt.Some? ==> a.now <= b.refresh[i].revokedAt.value <= b.now))
    && (forall i | 0 <= i < |a.userTokens| ::
          && b.userTokens[i].hash == a.userTokens[i].hash && b.userTokens[i].user == a.userTokens[i].user
          && b.userTokens[i].purpose == a.userTokens[i].purpose
          && (a.userTokens[i].usedAt.Some? ==> b.userTokens[i].usedAt == a.userTokens[i].usedAt)
          && (a.userTokens[i].usedAt.None? && b.userTokens[i].usedAt.Some? ==> a.now <= b.userTokens[i].usedAt.value <= b.now))
  }

  lemma EvolvesTransitive(a: Tables, b: Tables, c: Tables)
    requires Evolves(a, b) && Evolves(b, c)
    ensures Evolves(a, c)
  {
  }

  lemma RefreshRowsEvolve(db: Tables, u: nat, token: Token, drawn: Token)
    ensures Evolves(db, db) && Evolves(db, RevokeAll(db, u)) && Evolves(db, RevokeOne(db, token))
    ensures IssueRefresh(db, u, drawn).Ok? ==> Evolves(db, IssueRefresh(db, u, drawn).value)
  {
    hide FindRefresh;
  }

  lemma RotationEvolves(db: Tables, token: Token, drawn: Token)
    ensures Evolves(db, Rotate(db, token, drawn).db)
  {
    hide FindRefresh, RevokeRows;
  }

  lemma UserTokenRowsEvolve(db: Tables, u: nat, purpose: Purpose, token: Token, drawn: Token)
    ensures Evolves(db, IssueUserToken(db, u, purpose, drawn).db)
    ensures Evolves(db, Redeem(db, token, purpose).db)
  {
  }

  lemma UserRowsEvolve(db: Tables, u: nat, password: Password, activate: bool)
    ensures Evolves(db, SetPassword(db, u, password, activate)) && Evolves(db, BumpVersion(db, u))
  {
  }

  lemma StatusEvolves(db: Tables, u: nat, next: UserStatus, actor: nat)
    requires u < |db.users|
    ensures ApplyStatus(db, u, next, actor).Ok? ==> Evolves(db, ApplyStatus(db, u, next, actor).value)
  {
  }

  lemma SessionEvolves(db: Tables, u: nat, drawn: Token)
    requires u < |db.users|
    ensures Evolves(db, Session(db, u, drawn).db)
  {
    RefreshRowsEvolve(db, u, 0, drawn);
  }

  lemma EndSessionsEvolves(db: Tables, u: nat, password: Password)
    ensures Evolves(db, BumpVersion(RevokeAll(SetPassword(db, u, password, false), u), u))
    ensures Evolves(db, BumpVersion(RevokeAll(db, u), u))
  {
    hide Evolves, SetPassword, RevokeAll, BumpVersion;
    var changed := SetPassword(db, u, password, false);
    UserRowsEvolve(db, u, password, false);
    RefreshRowsEvolve(changed, u, 0, 0);
    UserRowsEvolve(RevokeAll(changed, u), u, password, false);
    EvolvesTransitive(db, changed, RevokeAll(changed, u));
    EvolvesTransitive(db, RevokeAll(changed, u), BumpVersion(RevokeAll(changed, u), u));
    RefreshRowsEvolve(db, u, 0, 0);
    UserRowsEvolve(RevokeAll(db, u), u, password, false);
    EvolvesTransitive(db, RevokeAll(db, u), BumpVersion(RevokeAll(db, u), u));
  }

  /** Every call, failed or not, leaves later rows in place of earlier ones. */
  lemma CallEvolves(db: Tables, op: Op)
    ensures Evolves(db, Call(db, op).db)
  {
    hide Evolves, SetPassword, RevokeAll, BumpVersion, Session, Rotate, IssueUserToken, Redeem, ApplyStatus, RevokeOne;
    RefreshRowsEvolve(db, 0, 0, 0);
    match op
    case Tick(elapsed) => ClockEvolves(db, elapsed);
    case Register(email, password, drawn) =>
      var first := db.(users := [User(email, Active, 0, Some(password))]);
      if |db.users| == 0 {
        NewUserEvolves(db, first);
        SessionEvolves(first, 0, drawn);
        EvolvesTransitive(db, first, Session(first, 0, drawn).db);
      }
    case Login(u, password, drawn) => if u < |db.users| { SessionEvolves(db, u, drawn); }
    case Refresh(token, drawn) =>
      RotationEvolves(db, token, drawn);
      var rotated := Rotate(db, token, drawn);
      if rotated.result.Ok? {
        RefreshRowsEvolve(rotated.db, rotated.result.value, token, drawn);
        EvolvesTransitive(db, rotated.db, RevokeAll(rotated.db, rotated.result.value));
      }
    case Logout(token) => RefreshRowsEvolve(db, 0, token, 0);
    case LogoutAll(a) => EndSessionsEvolves(db, a.sub, 0);
    case ForgotPassword(u, drawn) => UserTokenRowsEvolve(db, u, PasswordReset, 0, drawn);
    case ResetPassword(token, password) =>
      UserTokenRowsEvolve(db, 0, PasswordReset, token, 0);
      var redeemed := Redeem(db, token, PasswordReset);
      if redeemed.result.Ok? {
        EndSessionsEvolves(redeemed.db, redeemed.result.value, password);
        EvolvesTransitive(db, redeemed.db, Call(db, op).db);
      }
    case AcceptInvite(token, password, drawn) =>
      UserTokenRowsEvolve(db, 0, Invite, token, 0);
      var redeemed := Redeem(db, token, Invite);
      if redeemed.result.Ok? {
        var u := redeemed.result.value;
        var changed := SetPassword(redeemed.db, u, password, true);
        UserRowsEvolve(redeemed.db, u, password, true);
        EvolvesTransitive(db, redeemed.db, changed);
        if u < |changed.users| {
          SessionEvolves(changed, u, drawn);
          EvolvesTransitive(db, changed, Session(changed, u, drawn).db);
        }
      }
    case ChangePassword(a, _, password) => EndSessionsEvolves(db, a.sub, password);
    case InviteUser(email, drawn) =>
      var created := db.(users := db.users + [User(email, Invited, 0, None)]);
      NewUserEvolves(db, created);
      UserTokenRowsEvolve(created, |db.users|, Invite, 0, drawn);
      EvolvesTransitive(db, created, IssueUserToken(created, |db.users|, Invite, drawn).db);
    case ResendInvite(u, drawn) => UserTokenRowsEvolve(db, u, Invite, 0, drawn);
    case UpdateStatus(u, next, actor) => if u < |db.users| { StatusEvolves(db, u, next, actor); }
    case ToggleStatus(u, actor) =>
      if u < |db.users| {
        StatusEvolves(db, u, if db.users[u].status == Active then Suspended else Active, actor);
      }
  }

  lemma ClockEvolves(db: Tables, elapsed: nat)
    ensures Evolves(db, db.(now := db.now + elapsed))
  {
  }

  lemma NewUserEvolves(db: Tables, after: Tables)
    requires after == db.(users := after.users) && db.users <= after.users
    ensures Evolves(db, after)
  {
  }

  lemma {:induction false} RunEvolves(db: Tables, ops: seq<Op>)
    ensures Evolves(db, Run(db, ops))
  {
    if ops != [] {
      var front := ops[..|ops| - 1];
      RunEvolves(db, front);
      CallEvolves(Run(db, front), ops[|ops| - 1]);
      EvolvesTransitive(db, Run(db, front), Run(db, ops));
    }
  }

  // ---- one account per e-mail ------------------------------------------------------------------

  ghost predicate UniqueEmails(users: seq<User>) {
    forall u, v | 0 <= u < v < |users| :: users[u].email != users[v].email
  }

  /** A call adds at most one account, under an e-mail nobody has. */
  lemma NewAccount(db: Tables, op: Op)
    ensures var users := Call(db, op).db.users;
            && |db.users| <= |users| <= |db.users| + 1
            && (|users| > |db.users| ==> !Registered(db.users, users[|db.users|].email))
  {
    hide Evolves, FindRefresh, FindUserToken, RevokeRows, Retire, IssueUserToken, Rotate, Session, Redeem;
    match op
    case Register(email, password, drawn) =>
      if |db.users| == 0 {
        SessionLeavesUsers(db.(users := [User(email, Active, 0, Some(password))]), 0, drawn);
      }
    case Login(v, _, drawn) => if v < |db.users| { SessionLeavesUsers(db, v, drawn); }
    case Refresh(token, drawn) => TokensLeaveUsers(db, 0, Invite, token, drawn);
    case Logout(token) => TokensLeaveUsers(db, 0, Invite, token, 0);
    case ForgotPassword(v, drawn) => TokensLeaveUsers(db, v, PasswordReset, 0, drawn);
    case ResetPassword(token, _) => TokensLeaveUsers(db, 0, PasswordReset, token, 0);
    case AcceptInvite(token, password, drawn) =>
      TokensLeaveUsers(db, 0, Invite, token, 0);
      var redeemed := Redeem(db, token, Invite);
      if redeemed.result.Ok? {
        var changed := SetPassword(redeemed.db, redeemed.result.value, password, true);
        if redeemed.result.value < |changed.users| {
          SessionLeavesUsers(changed, redeemed.result.value, drawn);
        }
      }
    case InviteUser(email, drawn) =>
      TokensLeaveUsers(db.(users := db.users + [User(email, Invited, 0, None)]), |db.users|, Invite, 0, drawn);
    case ResendInvite(v, drawn) => TokensLeaveUsers(db, v, Invite, 0, drawn);
    case _ =>
  }

  /** In every serial run no two accounts share an e-mail, so the one a caller names is one account. */
  lemma {:induction false} EmailsStayUnique(db: Tables, ops: seq<Op>)
    requires UniqueEmails(db.users)
    ensures UniqueEmails(Run(db, ops).users)
  {
    if ops != [] {
      var front := ops[..|ops| - 1];
      hide UniqueEmails, Call;
      EmailsStayUnique(db, front);
      EmailsStep(Run(db, front), ops[|ops| - 1]);
    }
  }

  lemma EmailsStep(db: Tables, op: Op)
    requires UniqueEmails(db.users)
    ensures UniqueEmails(Call(db, op).db.users)
  {
    NewAccount(db, op);
    CallEvolves(db, op);
    hide Call;
    var users := Call(db, op).db.users;
    forall u, v | 0 <= u < v < |users|
      ensures users[u].email != users[v].email
    {
      if v == |db.users| {
        assert db.users[u] in db.users;
      }
    }
  }

  /** Presenting this refresh token now would be accepted. */
  predicate Acceptable(db: Tables, token: Token) {
    var found := FindRefresh(db.refresh, Sha256(token));
    found.Some? && db.refresh[found.value].revokedAt == None && db.refresh[found.value].expiresAt > db.now
  }

  lemma RevokedForever(db: Tables, ops: seq<Op>, i: nat, token: Token)
    requires Sound(db) && i < |db.refresh| && db.refresh[i].hash == Sha256(token) && db.refresh[i].revokedAt.Some?
    ensures !Acceptable(Run(db, ops), token)
  {
    hide Run, SuspendedHoldNothing, UserTokensSound;
    RunsStaySound(db, ops);
    RunEvolves(db, ops);
    var end := Run(db, ops);
    assert end.refresh[i].hash == Sha256(token);
    assert FindRefresh(end.refresh, Sha256(token)) == Some(i);
  }

  /** A refresh token is accepted at most once: whatever follows, it is refused from then on. */
  lemma AcceptedOnce(db: Tables, token: Token, drawn: Token, ops: seq<Op>, again: Token)
    requires Sound(db) && Rotate(db, token, drawn).result.Ok?
    ensures Acceptable(db, token)
    ensures var later := Run(Call(db, Refresh(token, drawn)).db, ops);
            !Acceptable(later, token) && Rotate(later, token, again).result.Err?
  {
    var after := Call(db, Refresh(token, drawn)).db;
    CallKeepsSound(db, Refresh(token, drawn));
    var i := FindRefresh(db.refresh, Sha256(token)).value;
    assert after.refresh[i].hash == Sha256(token) && after.refresh[i].revokedAt.Some?;
    RevokedForever(after, ops, i, token);
  }

  /** Presenting a revoked token leaves its user without any unrevoked token, and every other
      user's tokens, and every account, as they were. */
  lemma ReuseEndsEverySession(db: Tables, token: Token, drawn: Token)
    requires Sound(db) && FindRefresh(db.refresh, Sha256(token)).Some?
    requires db.refresh[FindRefresh(db.refresh, Sha256(token)).value].revokedAt.Some?
    ensures var u := db.refresh[FindRefresh(db.refresh, Sha256(token)).value].user;
            var after := Call(db, Refresh(token, drawn)).db;
            && Call(db, Refresh(token, drawn)).result.Err?
            && |after.refresh| == |db.refresh| && after.users == db.users
            && (forall i | 0 <= i < |after.refresh| && after.refresh[i].user == u :: after.refresh[i].revokedAt.Some?)
            && (forall i | 0 <= i < |after.refresh| && after.refresh[i].user != u :: after.refresh[i] == db.refresh[i])
  {
  }

  // ---- invite and reset tokens ------------------------------------------------------------

  lemma UsedForever(db: Tables, ops: seq<Op>, i: nat, token: Token, purpose: Purpose)
    requires Sound(db) && i < |db.userTokens| && db.userTokens[i].hash == Sha256(token) && db.userTokens[i].usedAt.Some?
    ensures Redeem(Run(db, ops), token, purpose).result.Err?
  {
    hide Run, Chained, SuspendedHoldNothing;
    RunsStaySound(db, ops);
    RunEvolves(db, ops);
    var end := Run(db, ops);
    var found := FindUserToken(end.userTokens, Sha256(token));
    assert end.userTokens[i].hash == Sha256(token);
    assert found == Some(i);
  }

  /** An invite or reset link works once. */
  lemma RedeemedOnce(db: Tables, token: Token, purpose: Purpose, ops: seq<Op>)
    requires Sound(db) && Redeem(db, token, purpose).result.Ok?
    ensures Redeem(Run(Redeem(db, token, purpose).db, ops), token, purpose).result.Err?
  {
    RedeemKeepsSound(db, token, purpose);
    var i := FindUserToken(db.userTokens, Sha256(token)).value;
    UsedForever(Redeem(db, token, purpose).db, ops, i, token, purpose);
  }

  /** And asking for a new one retires every earlier link of that user and purpose for good. */
  lemma ReissueRetires(db: Tables, u: nat, purpose: Purpose, drawn: Token, token: Token, i: nat, ops: seq<Op>)
    requires Sound(db) && u < |db.users|
    requires i < |db.userTokens| && db.userTokens[i].hash == Sha256(token)
    requires db.userTokens[i].user == u && db.userTokens[i].purpose == purpose
    ensures Redeem(Run(IssueUserToken(db, u, purpose, drawn).db, ops), token, purpose).result.Err?
  {
    IssueUserTokenKeepsSound(db, u, purpose, drawn);
    UsedForever(IssueUserToken(db, u, purpose, drawn).db, ops, i, token, purpose);
  }

  // ---- the life of an access token ------------------------------------------------------------

  /** A call that ends every session of user `u`: a password change or reset, a log-out
      everywhere, or a suspension, carried through. */
  predicate Kills(db: Tables, op: Op, u: nat) {
    u < |db.users| && Call(db, op).result.Ok? &&
    match op
    case LogoutAll(a) => a.sub == u
    case ChangePassword(a, _, _) => a.sub == u
    case ResetPassword(token, _) => Redeem(db, token, PasswordReset).result == Ok(u)
    case UpdateStatus(v, next, _) => v == u && next == Suspended && db.users[u].status != Suspended
    case ToggleStatus(v, _) => v == u && db.users[u].status == Active
    case _ => false
  }

  function KillCount(db: Tables, ops: seq<Op>, u: nat): nat {
    if ops == [] then 0
    else
      var front := ops[..|ops| - 1];
      KillCount(db, front, u) + if Kills(Run(db, front), ops[|ops| - 1], u) then 1 else 0
  }

  /** The version moves by one on exactly those calls. */
  lemma VersionStep(db: Tables, op: Op, u: nat)
    requires Sound(db) && u < |db.users|
    ensures |db.users| <= |Call(db, op).db.users|
    ensures Call(db, op).db.users[u].tokenVersion == db.users[u].tokenVersion + if Kills(db, op, u) then 1 else 0
  {
    hide Sound, Evolves, FindRefresh, FindUserToken, RevokeRows, Retire, IssueUserToken, Rotate, Session, Redeem;
    CallEvolves(db, op);
    match op
    case Register(email, password, drawn) =>
    case Login(v, _, drawn) => if v < |db.users| { SessionLeavesUsers(db, v, drawn); }
    case Refresh(token, drawn) => TokensLeaveUsers(db, 0, Invite, token, drawn);
    case Logout(token) => TokensLeaveUsers(db, 0, Invite, token, 0);
    case ForgotPassword(v, drawn) => TokensLeaveUsers(db, v, PasswordReset, 0, drawn);
    case ResetPassword(token, _) =>
      TokensLeaveUsers(db, 0, PasswordReset, token, 0);
      RedeemKeepsSound(db, token, PasswordReset);
    case AcceptInvite(token, password, drawn) =>
      TokensLeaveUsers(db, 0, Invite, token, 0);
      var redeemed := Redeem(db, token, Invite);
      if redeemed.result.Ok? {
        var changed := SetPassword(redeemed.db, redeemed.result.value, password, true);
        if redeemed.result.value < |changed.users| {
          SessionLeavesUsers(changed, redeemed.result.value, drawn);
        }
      }
    case InviteUser(email, drawn) =>
      TokensLeaveUsers(db.(users := db.users + [User(email, Invited, 0, None)]), |db.users|, Invite, 0, drawn);
    case ResendInvite(v, drawn) => TokensLeaveUsers(db, v, Invite, 0, drawn);
    case _ =>
  }

  lemma TokensLeaveUsers(db: Tables, u: nat, purpose: Purpose, token: Token, drawn: Token)
    ensures Rotate(db, token, drawn).db.users == db.users
    ensures RevokeOne(db, token).users == db.users
    ensures IssueUserToken(db, u, purpose, drawn).db.users == db.users
    ensures Redeem(db, token, purpose).db.users == db.users
  {
  }

  lemma SessionLeavesUsers(db: Tables, u: nat, drawn: Token)
    requires u < |db.users|
    ensures Session(db, u, drawn).db.users == db.users
  {
  }

  lemma {:induction false} VersionCountsKills(db: Tables, ops: seq<Op>, u: nat)
    requires Sound(db) && u < |db.users|
    ensures |db.users| <= |Run(db, ops).users|
    ensures Run(db, ops).users[u].tokenVersion == db.users[u].tokenVersion + KillCount(db, ops, u)
  {
    if ops != [] {
      var front := ops[..|ops| - 1];
      VersionCountsKills(db, front, u);
      RunsStaySound(db, front);
      VersionStep(Run(db, front), ops[|ops| - 1], u);
    }
  }

  /** The exact life of an access token: one minted now validates after a run if and only if the
      run held no such call for its user and the user ends it active. */
  lemma AccessTokenLife(db: Tables, ops: seq<Op>, u: nat)
    requires Sound(db) && u < |db.users|
    ensures Validates(Run(db, ops), Mint(db, u))
       <==> KillCount(db, ops, u) == 0 && u < |Run(db, ops).users| && Run(db, ops).users[u].status == Active
  {
    VersionCountsKills(db, ops, u);
  }

  /** Once such a call has been made, no access or refresh token of the user from before it ever
      works again, whatever happens later, reactivation included. */
  lemma KilledForGood(db: Tables, op: Op, u: nat, ops: seq<Op>, a: Access, token: Token)
    requires Sound(db) && Kills(db, op, u)
    requires a.sub == u && a.tv <= db.users[u].tokenVersion
    ensures !Validates(Run(Call(db, op).db, ops), a)
    ensures forall i | 0 <= i < |db.refresh| && db.refresh[i].hash == Sha256(token) && db.refresh[i].user == u ::
              !Acceptable(Run(Call(db, op).db, ops), token)
  {
    var after := Call(db, op).db;
    VersionStep(db, op, u);
    CallKeepsSound(db, op);
    VersionCountsKills(after, ops, u);
    forall i | 0 <= i < |db.refresh| && db.refresh[i].hash == Sha256(token) && db.refresh[i].user == u
      ensures !Acceptable(Run(after, ops), token)
    {
      CallEvolves(db, op);
      KillRevokes(db, op, u, i);
      RevokedForever(after, ops, i, token);
    }
  }

  lemma KillRevokes(db: Tables, op: Op, u: nat, i: nat)
    requires Kills(db, op, u) && i < |db.refresh| && db.refresh[i].user == u
    ensures i < |Call(db, op).db.refresh| && Call(db, op).db.refresh[i].revokedAt.Some?
  {
  }

  /** Every access token a call hands out is current: it validates in the state the call leaves. */
  lemma MintedTokensValidate(db: Tables, op: Op)
    requires Sound(db) && Call(db, op).result.Ok? && Call(db, op).result.value.Some?
    ensures Validates(Call(db, op).db, Call(db, op).result.value.value)
  {
    if op.Refresh? {
      RotateKeepsSound(db, op.token, op.drawn);
    }
    if op.AcceptInvite? {
      RedeemKeepsSound(db, op.token, Invite);
    }
  }

  /** A call that gives user `u` the password `p`. */
  predicate Sets(db: Tables, op: Op, u: nat, p: Password) {
    Call(db, op).result.Ok? &&
    match op
    case ResetPassword(token, password) => password == p && Redeem(db, token, PasswordReset).result == Ok(u)
    case AcceptInvite(token, password, _) => password == p && Redeem(db, token, Invite).result == Ok(u)
    case ChangePassword(a, _, password) => password == p && a.sub == u
    case _ => false
  }

  /** From then on the user signs in with that password and no other, provided the account is
      active and the drawn refresh token is not already in the table. */
  lemma NewPasswordSignsIn(db: Tables, op: Op, u: nat, p: Password, attempt: Password, drawn: Token)
    requires Sound(db) && Sets(db, op, u, p)
    ensures Call(Call(db, op).db, Login(u, attempt, drawn)).result.Ok?
       <==> && attempt == p && u < |Call(db, op).db.users| && Call(db, op).db.users[u].status == Active
            && FindRefresh(Call(db, op).db.refresh, Sha256(drawn)).None?
  {
    hide Sound, FindRefresh, FindUserToken, RevokeRows, Retire;
    if op.AcceptInvite? {
      RedeemKeepsSound(db, op.token, Invite);
    }
    if op.ResetPassword? {
      RedeemKeepsSound(db, op.token, PasswordReset);
    }
  }

  /** The successor handed out by a refresh is itself accepted until it expires. */
  lemma SuccessorIsAcceptable(db: Tables, token: Token, drawn: Token)
    requires Sound(db) && db.config.refreshTtl > 0 && Call(db, Refresh(token, drawn)).result.Ok?
    ensures Acceptable(Call(db, Refresh(token, drawn)).db, drawn)
  {
    var after := Call(db, Refresh(token, drawn)).db;
    CallKeepsSound(db, Refresh(token, drawn));
    assert after.refresh[|db.refresh|].hash == Sha256(drawn);
  }

  // ---- how a suspension ends --------------------------------------------------------------------

  /** Where any call leaves an existing account's status. */
  lemma StatusStep(db: Tables, op: Op, u: nat)
    requires Sound(db) && u < |db.users|
    ensures u < |Call(db, op).db.users|
    ensures Call(db, op).db.users[u].status ==
      match op
      case AcceptInvite(token, _, _) => if Redeem(db, token, Invite).result == Ok(u) then Active else db.users[u].status
      case UpdateStatus(v, next, _) => if v == u && Call(db, op).result.Ok? then next else db.users[u].status
      case ToggleStatus(v, _) =>
        if v == u && Call(db, op).result.Ok? then (if db.users[u].status == Active then Suspended else Active)
        else db.users[u].status
      case _ => db.users[u].status
  {
    hide Sound, FindRefresh, FindUserToken, RevokeRows, Retire, IssueUserToken, Rotate, Session, Redeem;
    CallEvolves(db, op);
    hide Evolves;
    match op
    case Login(v, _, drawn) => if v < |db.users| { SessionLeavesUsers(db, v, drawn); }
    case Refresh(token, drawn) => TokensLeaveUsers(db, 0, Invite, token, drawn);
    case Logout(token) => TokensLeaveUsers(db, 0, Invite, token, 0);
    case ForgotPassword(v, drawn) => TokensLeaveUsers(db, v, PasswordReset, 0, drawn);
    case ResetPassword(token, _) => TokensLeaveUsers(db, 0, PasswordReset, token, 0);
    case AcceptInvite(token, password, drawn) =>
      TokensLeaveUsers(db, 0, Invite, token, 0);
      var redeemed := Redeem(db, token, Invite);
      if redeemed.result.Ok? {
        var changed := SetPassword(redeemed.db, redeemed.result.value, password, true);
        if redeemed.result.value < |changed.users| {
          SessionLeavesUsers(changed, redeemed.result.value, drawn);
        }
      }
    case InviteUser(email, drawn) =>
      TokensLeaveUsers(db.(users := db.users + [User(email, Invited, 0, None)]), |db.users|, Invite, 0, drawn);
    case ResendInvite(v, drawn) => TokensLeaveUsers(db, v, Invite, 0, drawn);
    case _ =>
  }

  /** A suspension ends exactly by an administrator's status change or by the user accepting an
      invite still outstanding: acceptance activates the account whatever its status. */
  lemma SuspensionEnds(db: Tables, op: Op, u: nat)
    requires Sound(db) && u < |db.users| && db.users[u].status == Suspended
    ensures Call(db, op).db.users[u].status != Suspended
       <==> || (op.UpdateStatus? && op.user == u && op.next != Suspended && Call(db, op).result.Ok?)
            || (op.ToggleStatus? && op.user == u && Call(db, op).result.Ok?)
            || (op.AcceptInvite? && Redeem(db, op.token, Invite).result == Ok(u))
  {
    StatusStep(db, op, u);
  }

  function OneAdmin(): Tables {
    Tables(0, Config(7, 7, 1), [User(100, Active, 0, Some(1))], [], [])
  }

  function SuspendedInvitee(): Tables {
    OneAdmin().(users := [User(100, Active, 0, Some(1)), User(101, Suspended, 1, None)],
                userTokens := [UserToken(Sha256(11), 1, Invite, 7, None)])
  }

  lemma InviteThenSuspend()
    ensures Run(OneAdmin(), [InviteUser(101, 11), UpdateStatus(1, Suspended, 0)]) == SuspendedInvitee()
  {
    var db := OneAdmin();
    var ops := [InviteUser(101, 11), UpdateStatus(1, Suspended, 0)];
    assert ops[..1] == [InviteUser(101, 11)] && ops[..1][..0] == [];
    assert Run(db, []) == db;
    var invited := db.(users := [User(100, Active, 0, Some(1)), User(101, Invited, 0, None)],
                       userTokens := [UserToken(Sha256(11), 1, Invite, 7, None)]);
    assert Run(db, ops[..1]) == invited by {
      assert CallInvite(db, 101, 11).db.userTokens == invited.userTokens;
    }
    assert CallUpdateStatus(invited, 1, Suspended, 0).db.users == SuspendedInvitee().users;
  }

  /** A user suspended before accepting the invite is active again on accepting it. */
  lemma SuspendedInviteeReactivates()
    ensures Run(OneAdmin(), [InviteUser(101, 11), UpdateStatus(1, Suspended, 0)]) == SuspendedInvitee()
    ensures SuspendedInvitee().users[1].status == Suspended
    ensures var after := Call(SuspendedInvitee(), AcceptInvite(11, 5, 12));
            after.result == Ok(Some(Access(1, 1))) && |after.db.users| == 2 && after.db.users[1].status == Active
  {
    InviteThenSuspend();
    assert FindUserToken(SuspendedInvitee().userTokens, Sha256(11)) == Some(0);
  }
}
