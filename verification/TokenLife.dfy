/** Exactly how long a refresh token, an invite link or a reset link works: what ends it, over
    every serial run of the session calls, and when its clock runs out. */
module TokenLife {
  import opened Outcomes
  import opened Sessions
  import opened SessionSafety

  // ---- a row keeps its place ------------------------------------------------------------------

  lemma RefreshFoundLater(db: Tables, ops: seq<Op>, token: Token, i: nat)
    requires Sound(db) && i < |db.refresh| && db.refresh[i].hash == Sha256(token)
    ensures FindRefresh(Run(db, ops).refresh, Sha256(token)) == Some(i)
  {
    RunsStaySound(db, ops);
    RunEvolves(db, ops);
    hide Run, SuspendedHoldNothing, UserTokensSound, HasSuccessor;
    assert Run(db, ops).refresh[i].hash == Sha256(token);
  }

  lemma LinkFoundLater(db: Tables, ops: seq<Op>, token: Token, i: nat)
    requires Sound(db) && i < |db.userTokens| && db.userTokens[i].hash == Sha256(token)
    ensures FindUserToken(Run(db, ops).userTokens, Sha256(token)) == Some(i)
  {
    RunsStaySound(db, ops);
    RunEvolves(db, ops);
    hide Run, SuspendedHoldNothing, Chained;
    assert Run(db, ops).userTokens[i].hash == Sha256(token);
  }

  // ---- refresh tokens ------------------------------------------------------------------------

  /** A call that ends user `u`'s refresh token: logging out with it, redeeming it, presenting any
      revoked token of the user, redeeming any while the user is not active, or ending every session. */
  predicate Ends(db: Tables, op: Op, token: Token, u: nat) {
    match op
    case Logout(t) => t == token
    case Refresh(t, drawn) =>
      var found := FindRefresh(db.refresh, Sha256(t));
      found.Some? &&
      var row := db.refresh[found.value];
      row.user == u &&
      (row.revokedAt.Some?
       || (row.expiresAt > db.now && FindRefresh(db.refresh, Sha256(drawn)).None?
           && (t == token || u >= |db.users| || db.users[u].status != Active)))
    case _ => Kills(db, op, u)
  }

  predicate Ended(db: Tables, ops: seq<Op>, token: Token, u: nat) {
    ops != [] &&
    var front := ops[..|ops| - 1];
    Ended(db, front, token, u) || Ends(Run(db, front), ops[|ops| - 1], token, u)
  }

  ghost predicate RowIs(rows: seq<RefreshToken>, i: nat, row: RefreshToken) {
    i < |rows| && rows[i] == row
  }

  ghost predicate RowRevoked(rows: seq<RefreshToken>, i: nat) {
    i < |rows| && rows[i].revokedAt.Some?
  }

  /** A call that does not end an unrevoked token leaves its row as it was; one that does revokes it. */
  lemma RefreshStep(db: Tables, op: Op, token: Token, i: nat)
    requires Sound(db) && i < |db.refresh|
    requires db.refresh[i].hash == Sha256(token) && db.refresh[i].revokedAt == None
    ensures if Ends(db, op, token, db.refresh[i].user) then RowRevoked(Call(db, op).db.refresh, i)
            else RowIs(Call(db, op).db.refresh, i, db.refresh[i])
  {
    assert FindRefresh(db.refresh, Sha256(token)) == Some(i);
    hide FindRefresh, FindUserToken, Retire, Chained, UserTokensSound, IssueUserToken;
    hide CallRefresh, CallResetPassword, CallAcceptInvite, RevokeOne, Session;
    match op
    case Login(v, _, drawn) => if v < |db.users| { SessionAppends(db, v, drawn); }
    case Refresh(t, drawn) => RotationStep(db, t, drawn, token, i);
    case Logout(t) => LogoutStep(db, t, token, i);
    case ForgotPassword(v, drawn) => LinksLeaveRefresh(db, v, PasswordReset, drawn);
    case InviteUser(email, drawn) =>
      LinksLeaveRefresh(db.(users := db.users + [User(email, Invited, 0, None)]), |db.users|, Invite, drawn);
    case ResendInvite(v, drawn) => LinksLeaveRefresh(db, v, Invite, drawn);
    case ResetPassword(t, password) =>
      ResetStep(db, t, password);
    case AcceptInvite(t, password, drawn) => AcceptStep(db, t, password, drawn);
    case LogoutAll(_) => EndAllStep(db, op, i); hide Kills, Call;
    case ChangePassword(_, _, _) => EndAllStep(db, op, i); hide Kills, Call;
    case UpdateStatus(_, _, _) => EndAllStep(db, op, i); hide Kills, Call;
    case ToggleStatus(_, _) => EndAllStep(db, op, i); hide Kills, Call;
    case _ =>
  }

  lemma EndAllStep(db: Tables, op: Op, i: nat)
    requires op.LogoutAll? || op.ChangePassword? || op.UpdateStatus? || op.ToggleStatus?
    requires i < |db.refresh| && db.refresh[i].revokedAt == None && db.refresh[i].user < |db.users|
    ensures if Kills(db, op, db.refresh[i].user) then RowRevoked(Call(db, op).db.refresh, i)
            else RowIs(Call(db, op).db.refresh, i, db.refresh[i])
  {
  }

  lemma SessionAppends(db: Tables, u: nat, drawn: Token)
    requires u < |db.users|
    ensures db.refresh <= Session(db, u, drawn).db.refresh
  {
    hide FindRefresh;
  }

  lemma LogoutStep(db: Tables, t: Token, token: Token, i: nat)
    requires FindRefresh(db.refresh, Sha256(token)) == Some(i) && db.refresh[i].revokedAt == None
    ensures if t == token then RowRevoked(RevokeOne(db, t).refresh, i) else RowIs(RevokeOne(db, t).refresh, i, db.refresh[i])
  {
    hide FindRefresh;
  }

  lemma LinksLeaveRefresh(db: Tables, u: nat, purpose: Purpose, drawn: Token)
    ensures IssueUserToken(db, u, purpose, drawn).db.refresh == db.refresh
  {
  }

  lemma ResetStep(db: Tables, t: Token, password: Password)
    ensures var redeemed := Redeem(db, t, PasswordReset).result;
            && CallResetPassword(db, t, password).result.Ok? == redeemed.Ok?
            && CallResetPassword(db, t, password).db.refresh
               == if redeemed.Ok? then RevokeRows(db.refresh, redeemed.value, db.now) else db.refresh
  {
    hide FindUserToken, RevokeRows;
  }

  lemma AcceptStep(db: Tables, t: Token, password: Password, drawn: Token)
    ensures db.refresh <= CallAcceptInvite(db, t, password, drawn).db.refresh
  {
    hide FindUserToken, FindRefresh;
  }

  lemma RotationStep(db: Tables, t: Token, drawn: Token, token: Token, i: nat)
    requires FindRefresh(db.refresh, Sha256(token)) == Some(i)
    requires db.refresh[i].hash == Sha256(token) && db.refresh[i].revokedAt == None
    ensures if Ends(db, Refresh(t, drawn), token, db.refresh[i].user) then RowRevoked(CallRefresh(db, t, drawn).db.refresh, i)
            else RowIs(CallRefresh(db, t, drawn).db.refresh, i, db.refresh[i])
  {
  }

  lemma {:induction false} RefreshRun(db: Tables, ops: seq<Op>, token: Token, i: nat)
    requires Sound(db) && i < |db.refresh|
    requires db.refresh[i].hash == Sha256(token) && db.refresh[i].revokedAt == None
    ensures if Ended(db, ops, token, db.refresh[i].user) then RowRevoked(Run(db, ops).refresh, i)
            else RowIs(Run(db, ops).refresh, i, db.refresh[i])
  {
    if ops != [] {
      var front := ops[..|ops| - 1];
      RefreshRun(db, front, token, i);
      RunsStaySound(db, front);
      var before := Run(db, front);
      CallEvolves(before, ops[|ops| - 1]);
      hide Sound, Ends, Call;
      if before.refresh[i].revokedAt == None {
        RefreshStep(before, ops[|ops| - 1], token, i);
      }
    }
  }

  function RowOf(db: Tables, token: Token): (i: nat)
    requires FindRefresh(db.refresh, Sha256(token)).Some?
    ensures i < |db.refresh| && db.refresh[i].hash == Sha256(token)
  {
    FindRefresh(db.refresh, Sha256(token)).value
  }

  /** The exact life of a refresh token: one accepted now is accepted after a run if and only if no
      call ended it and its time has not run out. */
  lemma RefreshTokenLife(db: Tables, ops: seq<Op>, token: Token)
    requires Sound(db) && Acceptable(db, token)
    ensures var row := db.refresh[RowOf(db, token)];
            Acceptable(Run(db, ops), token) <==> !Ended(db, ops, token, row.user) && Run(db, ops).now < row.expiresAt
  {
    var i := RowOf(db, token);
    RefreshRun(db, ops, token, i);
    RefreshFoundLater(db, ops, token, i);
    hide Run, Ended, Sound, FindRefresh;
  }

  /** The refresh token that comes with a new access token belongs to the same user and lives for
      exactly the configured time, unless ended. */
  lemma IssuedRefreshLife(db: Tables, op: Op, ops: seq<Op>)
    requires Sound(db) && db.config.refreshTtl > 0
    requires Call(db, op).result.Ok? && Call(db, op).result.value.Some?
    ensures var after, u := Call(db, op).db, Call(db, op).result.value.value.sub;
            Acceptable(Run(after, ops), op.drawn)
            <==> !Ended(after, ops, op.drawn, u) && Run(after, ops).now < db.now + db.config.refreshTtl
  {
    CallKeepsSound(db, op);
    IssuedRow(db, op);
    RefreshTokenLife(Call(db, op).db, ops, op.drawn);
  }

  lemma IssuedRow(db: Tables, op: Op)
    requires Sound(db) && Sound(Call(db, op).db) && db.config.refreshTtl > 0
    requires Call(db, op).result.Ok? && Call(db, op).result.value.Some?
    ensures Acceptable(Call(db, op).db, op.drawn)
    ensures var row := Call(db, op).db.refresh[RowOf(Call(db, op).db, op.drawn)];
            row.user == Call(db, op).result.value.value.sub && row.expiresAt == db.now + db.config.refreshTtl
  {
    IssuedAppends(db, op);
    hide FindRefresh, Call;
    UniqueRow(Call(db, op).db, |db.refresh|, op.drawn);
  }

  lemma UniqueRow(db: Tables, i: nat, token: Token)
    requires Sound(db) && i < |db.refresh| && db.refresh[i].hash == Sha256(token)
    ensures FindRefresh(db.refresh, Sha256(token)) == Some(i)
  {
    hide SuspendedHoldNothing, UserTokensSound, HasSuccessor;
  }

  lemma IssuedAppends(db: Tables, op: Op)
    requires Call(db, op).result.Ok? && Call(db, op).result.value.Some?
    ensures |Call(db, op).db.refresh| == |db.refresh| + 1
    ensures Call(db, op).db.refresh[|db.refresh|] == RefreshToken(
              Sha256(op.drawn), Call(db, op).result.value.value.sub, db.now + db.config.refreshTtl, None, None)
  {
    hide FindRefresh, FindUserToken, Retire, RevokeRows;
  }

  // ---- invite and reset links ------------------------------------------------------------------

  /** A call that spends user `u`'s link: redeeming it, or asking for a new one of its purpose. */
  predicate Spends(db: Tables, op: Op, token: Token, u: nat, purpose: Purpose) {
    match op
    case ResetPassword(t, _) => t == token && purpose == PasswordReset && Redeem(db, t, purpose).result.Ok?
    case AcceptInvite(t, _, _) => t == token && purpose == Invite && Redeem(db, t, purpose).result.Ok?
    case ForgotPassword(v, _) =>
      v == u && purpose == PasswordReset && u < |db.users| && db.users[u].status != Suspended
    case ResendInvite(v, _) => v == u && purpose == Invite && u < |db.users| && db.users[u].status == Invited
    case _ => false
  }

  predicate Spent(db: Tables, ops: seq<Op>, token: Token, u: nat, purpose: Purpose) {
    ops != [] &&
    var front := ops[..|ops| - 1];
    Spent(db, front, token, u, purpose) || Spends(Run(db, front), ops[|ops| - 1], token, u, purpose)
  }

  ghost predicate LinkIs(rows: seq<UserToken>, i: nat, row: UserToken) {
    i < |rows| && rows[i] == row
  }

  ghost predicate LinkUsed(rows: seq<UserToken>, i: nat) {
    i < |rows| && rows[i].usedAt.Some?
  }

  /** A call that does not spend an unused link leaves its row as it was; one that does uses it up. */
  lemma LinkStep(db: Tables, op: Op, token: Token, i: nat)
    requires Sound(db) && i < |db.userTokens|
    requires db.userTokens[i].hash == Sha256(token) && db.userTokens[i].usedAt == None
    ensures if Spends(db, op, token, db.userTokens[i].user, db.userTokens[i].purpose)
            then LinkUsed(Call(db, op).db.userTokens, i)
            else LinkIs(Call(db, op).db.userTokens, i, db.userTokens[i])
  {
    assert FindUserToken(db.userTokens, Sha256(token)) == Some(i);
    hide FindRefresh, FindUserToken, RevokeRows, Chained, SuspendedHoldNothing, CallResetPassword, CallAcceptInvite;
    hide CallRefresh, IssueUserToken, Retire, Session, Redeem;
    match op
    case Login(v, _, drawn) => if v < |db.users| { SessionLeavesLinks(db, v, drawn); }
    case ForgotPassword(v, drawn) => IssueSpends(db, v, PasswordReset, drawn, i);
    case InviteUser(email, drawn) =>
      IssueSpends(db.(users := db.users + [User(email, Invited, 0, None)]), |db.users|, Invite, drawn, i);
    case ResendInvite(v, drawn) => IssueSpends(db, v, Invite, drawn, i);
    case Refresh(t, drawn) => RefreshLeavesLinks(db, t, drawn);
    case ResetPassword(t, password) =>
      RedeemingLeavesLinks(db, t, password, 0);
      RedeemSpends(db, t, PasswordReset, token, i);
    case AcceptInvite(t, password, drawn) =>
      RedeemingLeavesLinks(db, t, password, drawn);
      RedeemSpends(db, t, Invite, token, i);
    case _ =>
  }

  lemma SessionLeavesLinks(db: Tables, u: nat, drawn: Token)
    requires u < |db.users|
    ensures Session(db, u, drawn).db.userTokens == db.userTokens
  {
    hide FindRefresh;
  }

  lemma IssueSpends(db: Tables, u: nat, purpose: Purpose, drawn: Token, i: nat)
    requires i < |db.userTokens| && db.userTokens[i].usedAt == None
    ensures if db.userTokens[i].user == u && db.userTokens[i].purpose == purpose
            then LinkUsed(IssueUserToken(db, u, purpose, drawn).db.userTokens, i)
            else LinkIs(IssueUserToken(db, u, purpose, drawn).db.userTokens, i, db.userTokens[i])
  {
    hide FindUserToken;
  }

  lemma RedeemSpends(db: Tables, t: Token, purpose: Purpose, token: Token, i: nat)
    requires FindUserToken(db.userTokens, Sha256(token)) == Some(i) && db.userTokens[i].usedAt == None
    ensures if t == token && Redeem(db, t, purpose).result.Ok? then LinkUsed(Redeem(db, t, purpose).db.userTokens, i)
            else LinkIs(Redeem(db, t, purpose).db.userTokens, i, db.userTokens[i])
    ensures t == token && Redeem(db, t, purpose).result.Ok? ==> db.userTokens[i].purpose == purpose
  {
    hide FindUserToken;
  }

  lemma RefreshLeavesLinks(db: Tables, t: Token, drawn: Token)
    ensures CallRefresh(db, t, drawn).db.userTokens == db.userTokens
  {
    hide FindRefresh, RevokeRows;
  }

  lemma RedeemingLeavesLinks(db: Tables, t: Token, password: Password, drawn: Token)
    ensures CallResetPassword(db, t, password).db.userTokens == Redeem(db, t, PasswordReset).db.userTokens
    ensures CallAcceptInvite(db, t, password, drawn).db.userTokens == Redeem(db, t, Invite).db.userTokens
  {
    hide FindRefresh, FindUserToken, RevokeRows;
  }

  lemma {:induction false} LinkRun(db: Tables, ops: seq<Op>, token: Token, i: nat)
    requires Sound(db) && i < |db.userTokens|
    requires db.userTokens[i].hash == Sha256(token) && db.userTokens[i].usedAt == None
    ensures if Spent(db, ops, token, db.userTokens[i].user, db.userTokens[i].purpose)
            then LinkUsed(Run(db, ops).userTokens, i)
            else LinkIs(Run(db, ops).userTokens, i, db.userTokens[i])
  {
    if ops != [] {
      var front := ops[..|ops| - 1];
      LinkRun(db, front, token, i);
      RunsStaySound(db, front);
      var before := Run(db, front);
      CallEvolves(before, ops[|ops| - 1]);
      hide Sound, Spends, Call;
      if before.userTokens[i].usedAt == None {
        LinkStep(before, ops[|ops| - 1], token, i);
      }
    }
  }

  /** The exact life of a link: one that can be redeemed now can be after a run, by the same user
      and for its own purpose only, if and only if no call spent it and its time has not run out. */
  lemma LinkLife(db: Tables, ops: seq<Op>, token: Token, purpose: Purpose, u: nat, i: nat)
    requires Sound(db) && FindUserToken(db.userTokens, Sha256(token)) == Some(i)
    requires Redeem(db, token, purpose).result == Ok(u)
    ensures Redeem(Run(db, ops), token, purpose).result == Ok(u)
       <==> !Spent(db, ops, token, u, purpose) && Run(db, ops).now < db.userTokens[i].expiresAt
    ensures forall p | p != purpose || Spent(db, ops, token, u, purpose) || Run(db, ops).now >= db.userTokens[i].expiresAt ::
              Redeem(Run(db, ops), token, p).result.Err?
  {
    LinkRun(db, ops, token, i);
    LinkFoundLater(db, ops, token, i);
    hide Run, Spent, Sound, FindUserToken;
  }

  /** A call that mails user `u` a link for the purpose. */
  predicate Mails(db: Tables, op: Op, u: nat, purpose: Purpose) {
    Call(db, op).result.Ok? &&
    match op
    case ForgotPassword(v, _) => v == u < |db.users| && db.users[u].status != Suspended && purpose == PasswordReset
    case InviteUser(_, _) => u == |db.users| && purpose == Invite
    case ResendInvite(v, _) => v == u && purpose == Invite
    case _ => false
  }

  /** A mailed link works for its user and purpose for exactly the configured time, unless spent. */
  lemma MailedLinkLife(db: Tables, op: Op, u: nat, purpose: Purpose, ops: seq<Op>)
    requires Sound(db) && db.config.inviteTtl > 0 && db.config.resetTtl > 0 && Mails(db, op, u, purpose)
    ensures var after := Call(db, op).db;
            var ttl := if purpose == Invite then db.config.inviteTtl else db.config.resetTtl;
            Redeem(Run(after, ops), op.drawn, purpose).result == Ok(u)
            <==> !Spent(after, ops, op.drawn, u, purpose) && Run(after, ops).now < db.now + ttl
  {
    var after := Call(db, op).db;
    CallKeepsSound(db, op);
    MailedRow(db, op, u, purpose);
    LinkLife(after, ops, op.drawn, purpose, u, |db.userTokens|);
  }

  lemma MailedRow(db: Tables, op: Op, u: nat, purpose: Purpose)
    requires Sound(Call(db, op).db) && Mails(db, op, u, purpose)
    requires db.config.inviteTtl > 0 && db.config.resetTtl > 0
    ensures var after := Call(db, op).db;
            && FindUserToken(after.userTokens, Sha256(op.drawn)) == Some(|db.userTokens|)
            && Redeem(after, op.drawn, purpose).result == Ok(u)
            && after.userTokens[|db.userTokens|].expiresAt
               == db.now + if purpose == Invite then db.config.inviteTtl else db.config.resetTtl
  {
    MailedAppends(db, op, u, purpose);
    hide Call, Mails;
    UniqueLink(Call(db, op).db, |db.userTokens|, op.drawn);
  }

  lemma UniqueLink(db: Tables, i: nat, token: Token)
    requires Sound(db) && i < |db.userTokens| && db.userTokens[i].hash == Sha256(token)
    ensures FindUserToken(db.userTokens, Sha256(token)) == Some(i)
  {
    hide SuspendedHoldNothing, Chained;
  }

  lemma MailedAppends(db: Tables, op: Op, u: nat, purpose: Purpose)
    requires Mails(db, op, u, purpose)
    ensures var after := Call(db, op).db;
            && |after.userTokens| == |db.userTokens| + 1 && after.now == db.now
            && after.userTokens[|db.userTokens|] == UserToken(
                 Sha256(op.drawn), u, purpose,
                 db.now + if purpose == Invite then db.config.inviteTtl else db.config.resetTtl, None)
  {
    hide FindRefresh, FindUserToken, RevokeRows;
  }
}
