/** When each session call goes through, over the rows of the tables, what it leaves in the users
    table, and which calls change whether an account is active. */
module SessionOutcomes {
  import opened Outcomes
  import opened Sessions
  import opened SessionSafety

  ghost predicate RefreshStored(db: Tables, token: Token) {
    exists i :: 0 <= i < |db.refresh| && db.refresh[i].hash == Sha256(token)
  }

  ghost predicate LinkStored(db: Tables, token: Token) {
    exists i :: 0 <= i < |db.userTokens| && db.userTokens[i].hash == Sha256(token)
  }

  lemma StoredIsFound(db: Tables, token: Token)
    ensures RefreshStored(db, token) <==> FindRefresh(db.refresh, Sha256(token)).Some?
    ensures LinkStored(db, token) <==> FindUserToken(db.userTokens, Sha256(token)).Some?
  {
  }

  // ---- status changes ------------------------------------------------------------------------

  /** Only the named user's row changes; a suspension also ends every session of that user. */
  ghost predicate StatusChanged(db: Tables, after: Tables, u: nat, next: UserStatus) {
    && u < |db.users| && after.now == db.now && after.config == db.config && after.userTokens == db.userTokens
    && (var was := db.users[u];
        after.users == db.users[u := User(was.email, next, was.tokenVersion + if next == Suspended then 1 else 0, was.password)])
    && |after.refresh| == |db.refresh|
    && forall i | 0 <= i < |db.refresh| ::
         if next == Suspended && db.refresh[i].user == u then after.refresh[i].revokedAt.Some?
         else after.refresh[i] == db.refresh[i]
  }

  /** A status is changed exactly when it is another one and is not taken from one's own account,
      and an invited account is not made active this way; a refused call writes nothing. */
  lemma UpdateStatusOutcome(db: Tables, u: nat, next: UserStatus, actor: nat)
    ensures var r := Call(db, UpdateStatus(u, next, actor));
      && (r.result.Ok? <==>
            && u < |db.users|
            && (next == db.users[u].status
                || (next == Active && db.users[u].status == Suspended)
                || (next in {Suspended, Invited} && actor != u)))
      && (if r.result.Ok? && next != db.users[u].status then StatusChanged(db, r.db, u, next) else r.db == db)
  {
  }

  /** Toggling suspends an active account of somebody else and activates a suspended one. */
  lemma ToggleStatusOutcome(db: Tables, u: nat, actor: nat)
    ensures var r := Call(db, ToggleStatus(u, actor));
      && (r.result.Ok? <==> u < |db.users| && (db.users[u].status == Suspended || (db.users[u].status == Active && actor != u)))
      && (if r.result.Ok? then StatusChanged(db, r.db, u, if db.users[u].status == Active then Suspended else Active)
          else r.db == db)
  {
  }

  /** Nobody takes the status from their own active account: the call is refused and writes nothing. */
  lemma OwnAccountIsSafe(db: Tables, u: nat, next: UserStatus)
    requires u < |db.users| && db.users[u].status == Active
    ensures Call(db, ToggleStatus(u, u)).result.Err? && Call(db, ToggleStatus(u, u)).db == db
    ensures next != Active ==> Call(db, UpdateStatus(u, next, u)).result.Err?
    ensures Call(db, UpdateStatus(u, next, u)).db == db
  {
    UpdateStatusOutcome(db, u, next, u);
    ToggleStatusOutcome(db, u, u);
  }

  /** An active account stops being so exactly by a status change that somebody else makes. */
  lemma ActiveEndsExactly(db: Tables, op: Op, u: nat)
    requires Sound(db) && u < |db.users| && db.users[u].status == Active
    ensures u < |Call(db, op).db.users|
    ensures Call(db, op).db.users[u].status != Active
       <==> || (op.UpdateStatus? && op.user == u && op.actor != u && op.next != Active)
            || (op.ToggleStatus? && op.user == u && op.actor != u)
  {
    StatusStep(db, op, u);
  }

  /** An invited account becomes active exactly by accepting an invite of its own. */
  lemma InvitedActivatesExactly(db: Tables, op: Op, u: nat)
    requires Sound(db) && u < |db.users| && db.users[u].status == Invited
    ensures u < |Call(db, op).db.users|
    ensures Call(db, op).db.users[u].status == Active <==> op.AcceptInvite? && Redeem(db, op.token, Invite).result == Ok(u)
  {
    StatusStep(db, op, u);
  }

  /** No call of the run is somebody else's status change of account `a`. */
  predicate OnlyOwnChanges(ops: seq<Op>, a: nat) {
    forall op | op in ops && (op.UpdateStatus? || op.ToggleStatus?) && op.user == a :: op.actor == a
  }

  /** An administrator cannot lock themselves out: whatever they and the others call, their account
      stays active until somebody else changes its status. */
  lemma {:induction false} AdministratorStaysActive(db: Tables, ops: seq<Op>, a: nat)
    requires Sound(db) && a < |db.users| && db.users[a].status == Active && OnlyOwnChanges(ops, a)
    ensures a < |Run(db, ops).users| && Run(db, ops).users[a].status == Active
  {
    if ops != [] {
      var front, op := ops[..|ops| - 1], ops[|ops| - 1];
      AdministratorStaysActive(db, front, a);
      RunsStaySound(db, front);
      assert op in ops;
      ActiveEndsExactly(Run(db, front), op, a);
    }
  }

  // ---- signing in and out ----------------------------------------------------------------------

  /** Registration is open exactly while there are no users, and makes the first one. */
  lemma RegisterOutcome(db: Tables, email: Email, password: Password, drawn: Token)
    ensures var r := Call(db, Register(email, password, drawn));
      && (r.result.Ok? <==> db.users == [] && !RefreshStored(db, drawn))
      && (if db.users == [] then r.db.users == [User(email, Active, 0, Some(password))] else r.db == db)
      && (r.result.Ok? ==> r.result.value == Some(Access(0, 0)))
  {
    StoredIsFound(db, drawn);
    hide FindRefresh;
  }

  /** Signing in takes the account's password on an active account, and changes no account. */
  lemma LoginOutcome(db: Tables, u: nat, password: Password, drawn: Token)
    ensures var r := Call(db, Login(u, password, drawn));
      && (r.result.Ok? <==>
            && u < |db.users| && db.users[u].password == Some(password) && db.users[u].status == Active
            && !RefreshStored(db, drawn))
      && r.db.users == db.users && (r.result.Err? ==> r.db == db)
      && (r.result.Ok? ==> r.result.value == Some(Access(u, db.users[u].tokenVersion)))
  {
    StoredIsFound(db, drawn);
    hide FindRefresh;
  }

  /** A wrong password is answered like an unknown account, whatever the account's status; the
      status shows only to whoever knows the password. */
  lemma SignInRefusals(db: Tables, u: nat, password: Password, unknown: nat, drawn: Token)
    requires unknown >= |db.users|
    ensures var r := Call(db, Login(u, password, drawn));
      && (u >= |db.users| || db.users[u].password != Some(password) ==> r == Call(db, Login(unknown, password, drawn)))
      && (u < |db.users| && db.users[u].password == Some(password) && db.users[u].status != Active ==>
            r.result == Err(Unauthorized(if db.users[u].status == Suspended then "suspended" else "accept your invite")))
  {
    hide FindRefresh;
  }

  /** A refresh token is exchanged exactly when its row is neither revoked nor expired and its user
      is active, for an access token of that user at the current version. */
  lemma RefreshOutcome(db: Tables, token: Token, drawn: Token)
    requires UniqueHashes(db.refresh)
    ensures var r := Call(db, Refresh(token, drawn));
      && (r.result.Ok? <==>
            && !RefreshStored(db, drawn)
            && exists i :: 0 <= i < |db.refresh| && db.refresh[i].hash == Sha256(token) && Exchangeable(db, db.refresh[i]))
      && r.db.users == db.users
    ensures forall i | 0 <= i < |db.refresh| && db.refresh[i].hash == Sha256(token) ::
              Call(db, Refresh(token, drawn)).result.Ok? ==>
                && db.refresh[i].user < |db.users|
                && Call(db, Refresh(token, drawn)).result.value
                   == Some(Access(db.refresh[i].user, db.users[db.refresh[i].user].tokenVersion))
  {
    StoredIsFound(db, drawn);
    StoredIsFound(db, token);
    forall i | 0 <= i < |db.refresh| && db.refresh[i].hash == Sha256(token)
      ensures FindRefresh(db.refresh, Sha256(token)) == Some(i)
    {
    }
    hide FindRefresh;
  }

  predicate Exchangeable(db: Tables, row: RefreshToken) {
    && row.revokedAt == None && db.now < row.expiresAt
    && row.user < |db.users| && db.users[row.user].status == Active
  }

  /** An access token is good for logging out everywhere and changing the password exactly while its
      user is active and at its version; a change also takes the current password. */
  lemma OwnSessionsOutcome(db: Tables, a: Access, current: Password, password: Password)
    ensures var out, change := Call(db, LogoutAll(a)), Call(db, ChangePassword(a, current, password));
      && (out.result.Ok? <==> a.sub < |db.users| && db.users[a.sub].tokenVersion == a.tv && db.users[a.sub].status == Active)
      && (change.result.Ok? <==> out.result.Ok? && db.users[a.sub].password == Some(current))
      && (if out.result.Ok? then
            var was := db.users[a.sub];
            out.db.users == db.users[a.sub := User(was.email, Active, a.tv + 1, was.password)]
          else out.db == db)
      && (if change.result.Ok? then
            change.db.users == db.users[a.sub := User(db.users[a.sub].email, Active, a.tv + 1, Some(password))]
          else change.db == db)
  {
  }

  // ---- links -----------------------------------------------------------------------------------

  predicate Redeemable(db: Tables, row: UserToken, purpose: Purpose) {
    row.purpose == purpose && row.usedAt == None && db.now < row.expiresAt
  }

  /** A link is redeemed exactly when a row of its hash and purpose is neither used nor expired. */
  lemma RedeemOutcome(db: Tables, token: Token, purpose: Purpose)
    requires Sound(db)
    ensures Redeem(db, token, purpose).result.Ok?
       <==> exists i :: 0 <= i < |db.userTokens| && db.userTokens[i].hash == Sha256(token) && Redeemable(db, db.userTokens[i], purpose)
    ensures forall i | 0 <= i < |db.userTokens| && db.userTokens[i].hash == Sha256(token) ::
              Redeem(db, token, purpose).result.Ok? ==> Redeem(db, token, purpose).result == Ok(db.userTokens[i].user)
  {
    StoredIsFound(db, token);
    hide Chained, SuspendedHoldNothing;
    forall i | 0 <= i < |db.userTokens| && db.userTokens[i].hash == Sha256(token)
      ensures FindUserToken(db.userTokens, Sha256(token)) == Some(i)
    {
    }
    hide FindUserToken;
  }

  /** A reset goes through exactly with a redeemable link, and gives its user the password and the
      next version. */
  lemma ResetOutcome(db: Tables, token: Token, password: Password)
    requires Sound(db)
    ensures var r := Call(db, ResetPassword(token, password));
      && (r.result.Ok? <==> Redeem(db, token, PasswordReset).result.Ok?)
      && (if r.result.Ok? then
            var u := Redeem(db, token, PasswordReset).result.value;
            && u < |db.users|
            && r.db.users == db.users[u := User(db.users[u].email, db.users[u].status, db.users[u].tokenVersion + 1, Some(password))]
          else r.db == db)
  {
    RedeemKeepsSound(db, token, PasswordReset);
    RedeemWrites(db, token);
    hide Sound, FindUserToken, RevokeRows, Redeem;
  }

  /** An acceptance also needs a fresh session token, and activates the account. */
  lemma AcceptOutcome(db: Tables, token: Token, password: Password, drawn: Token)
    requires Sound(db)
    ensures var r := Call(db, AcceptInvite(token, password, drawn));
      && (r.result.Ok? <==> Redeem(db, token, Invite).result.Ok? && !RefreshStored(db, drawn))
      && (if Redeem(db, token, Invite).result.Ok? then
            var u := Redeem(db, token, Invite).result.value;
            && u < |db.users|
            && r.db.users == db.users[u := User(db.users[u].email, Active, db.users[u].tokenVersion, Some(password))]
          else r.db == db)
  {
    StoredIsFound(db, drawn);
    RedeemKeepsSound(db, token, Invite);
    RedeemWrites(db, token);
    hide Sound, FindRefresh, FindUserToken, Redeem;
  }

  lemma RedeemWrites(db: Tables, token: Token)
    ensures forall purpose: Purpose ::
              var r := Redeem(db, token, purpose);
              && r.db == db.(userTokens := r.db.userTokens) && (r.result.Err? ==> r.db == db)
  {
    hide FindUserToken;
  }

  /** Who is mailed a link: an account not suspended that forgot its password, silently nobody
      otherwise; an invited account on a resend; and a newcomer whose e-mail is not registered. */
  lemma MailOutcome(db: Tables, u: nat, email: Email, drawn: Token)
    ensures var r := Call(db, ForgotPassword(u, drawn));
      && r.db.users == db.users && r.db.refresh == db.refresh
      && (if u < |db.users| && db.users[u].status in {Active, Invited} then (r.result.Ok? <==> !LinkStored(db, drawn))
          else r.result == Ok(None) && r.db == db)
    ensures var r := Call(db, ResendInvite(u, drawn));
      && r.db.users == db.users && r.db.refresh == db.refresh
      && (r.result.Ok? <==> u < |db.users| && db.users[u].status == Invited && !LinkStored(db, drawn))
      && (!(u < |db.users| && db.users[u].status == Invited) ==> r.db == db)
    ensures var r := Call(db, InviteUser(email, drawn));
      var known := exists v :: 0 <= v < |db.users| && db.users[v].email == email;
      && r.db.refresh == db.refresh
      && (r.result.Ok? <==> !known && !LinkStored(db, drawn))
      && (if known then r.db == db else r.db.users == db.users + [User(email, Invited, 0, None)])
  {
    StoredIsFound(db, drawn);
    hide FindUserToken, Retire;
    assert Registered(db.users, email) <==> exists v :: 0 <= v < |db.users| && db.users[v].email == email;
  }
}
