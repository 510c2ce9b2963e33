/** The token, user and auth services over their tables, call by call. */
module AuthService {
  import opened Outcomes
  import opened Sessions

  /** Every session of user `u` is over: each refresh token revoked, the version one higher, and
      nobody else's rows touched. */
  ghost predicate SessionsEnded(before: Tables, after: Tables, u: nat) {
    && u < |before.users| == |after.users| && |after.refresh| == |before.refresh|
    && after.users[u].tokenVersion == before.users[u].tokenVersion + 1
    && (forall v | 0 <= v < |before.users| && v != u :: after.users[v] == before.users[v])
    && (forall i | 0 <= i < |before.refresh| :: if before.refresh[i].user == u then after.refresh[i].revokedAt.Some?
                                                 else after.refresh[i] == before.refresh[i])
  }

  /** Handed out: an access token that validates now, for user `u`, beside one new refresh token. */
  ghost predicate SessionOpened(before: Tables, after: Tables, r: Result<Option<Access>>, u: nat) {
    && r.Ok? && r.value.Some? && r.value.value.sub == u && Validates(after, r.value.value)
    && |after.refresh| == |before.refresh| + 1 && after.refresh[|before.refresh|].user == u
    && after.refresh[|before.refresh|].revokedAt == None
  }

  class Service {
    var now: int
    const config: Config
    var users: seq<User>
    var refresh: seq<RefreshToken>
    var userTokens: seq<UserToken>

    function Db(): Tables
      reads this
    {
      Tables(now, config, users, refresh, userTokens)
    }

    constructor (db: Tables)
      ensures Db() == db
    {
      now, config, users, refresh, userTokens := db.now, db.config, db.users, db.refresh, db.userTokens;
    }

    // ---- tokens ----------------------------------------------------------------------------

    method IssueRefreshToken(user: nat, drawn: Token) returns (r: Result<()>)
      modifies this`refresh
      ensures match IssueRefresh(old(Db()), user, drawn)
              case Ok(after) => Db() == after && r.Ok?
              case Err(e) => Db() == old(Db()) && r == Err(e)
    {
      if FindRefresh(refresh, Sha256(drawn)).Some? {
        return Err(UniqueViolation);
      }
      refresh := refresh + [RefreshToken(Sha256(drawn), user, now + config.refreshTtl, None, None)];
      r := Ok(());
    }

    method RevokeAllForUser(user: nat)
      modifies this`refresh
      ensures Db() == RevokeAll(old(Db()), user)
    {
      for i := 0 to |refresh|
        modifies this`refresh
        invariant |refresh| == |old(refresh)|
        invariant forall j | 0 <= j < |refresh| ::
          refresh[j] == if j < i && old(refresh)[j].user == user then Revoked(old(refresh)[j], now) else old(refresh)[j]
      {
        if refresh[i].user == user && refresh[i].revokedAt == None {
          refresh := refresh[i := refresh[i].(revokedAt := Some(now))];
        }
      }
      assert refresh == RevokeRows(old(refresh), user, now);
    }

    method RevokeRefreshToken(token: Token)
      modifies this`refresh
      ensures Db() == RevokeOne(old(Db()), token)
    {
      var found := FindRefresh(refresh, Sha256(token));
      if found.Some? && refresh[found.value].revokedAt == None {
        refresh := refresh[found.value := refresh[found.value].(revokedAt := Some(now))];
      }
    }

    method RotateRefreshToken(token: Token, drawn: Token) returns (r: Result<nat>)
      modifies this`refresh
      ensures Effect(Db(), r) == Rotate(old(Db()), token, drawn)
    {
      var found := FindRefresh(refresh, Sha256(token));
      if found.None? {
        return Err(BadRequest("invalid"));
      }
      var record := refresh[found.value];
      if record.revokedAt != None {
        RevokeAllForUser(record.user);
        return Err(BadRequest("reused"));
      }
      if record.expiresAt <= now {
        return Err(BadRequest("expired"));
      }
      var issued := IssueRefreshToken(record.user, drawn);
      if issued.Err? {
        return Err(issued.error);
      }
      record := record.(revokedAt := Some(now), replacedBy := Some(Sha256(drawn)));
      refresh := refresh[found.value := record];
      r := Ok(record.user);
    }

    method IssueToken(user: nat, purpose: Purpose, drawn: Token) returns (r: Result<()>)
      modifies this`userTokens
      ensures Effect(Db(), r) == IssueUserToken(old(Db()), user, purpose, drawn)
    {
      for i := 0 to |userTokens|
        modifies this`userTokens
        invariant |userTokens| == |old(userTokens)|
        invariant forall j | 0 <= j < |userTokens| ::
          userTokens[j] == if j < i && Outstanding(old(userTokens)[j], user, purpose)
                           then old(userTokens)[j].(usedAt := Some(now)) else old(userTokens)[j]
      {
        if Outstanding(userTokens[i], user, purpose) {
          userTokens := userTokens[i := userTokens[i].(usedAt := Some(now))];
        }
      }
      assert userTokens == Retire(old(userTokens), user, purpose, now);
      RetireKeepsHashes(old(userTokens), user, purpose, now, Sha256(drawn));
      var ttl := if purpose == Invite then config.inviteTtl else config.resetTtl;
      if FindUserToken(userTokens, Sha256(drawn)).Some? {
        return Err(UniqueViolation);
      }
      userTokens := userTokens + [UserToken(Sha256(drawn), user, purpose, now + ttl, None)];
      r := Ok(());
    }

    method RedeemToken(token: Token, purpose: Purpose) returns (r: Result<nat>)
      modifies this`userTokens
      ensures Effect(Db(), r) == Redeem(old(Db()), token, purpose)
    {
      var found := FindUserToken(userTokens, Sha256(token));
      if found.None? {
        return Err(BadRequest("invalid link"));
      }
      var record := userTokens[found.value];
      if record.purpose != purpose || !(record.usedAt == None && record.expiresAt > now) {
        return Err(BadRequest("invalid link"));
      }
      userTokens := userTokens[found.value := record.(usedAt := Some(now))];
      r := Ok(record.user);
    }

    // ---- users -------------------------------------------------------------------------------

    method StorePassword(user: nat, password: Password, activate: bool)
      modifies this`users
      ensures Db() == SetPassword(old(Db()), user, password, activate)
    {
      if user < |users| {
        var row := users[user].(password := Some(password));
        if activate {
          row := row.(status := Active);
        }
        users := users[user := row];
      }
    }

    method BumpTokenVersion(user: nat)
      modifies this`users
      ensures Db() == BumpVersion(old(Db()), user)
    {
      if user < |users| {
        users := users[user := users[user].(tokenVersion := users[user].tokenVersion + 1)];
      }
    }

    method ApplyAndSaveStatus(user: nat, next: UserStatus, actor: nat) returns (r: Result<()>)
      requires user < |users|
      modifies this`users, this`refresh
      ensures match ApplyStatus(old(Db()), user, next, actor)
              case Ok(after) => Db() == after && r.Ok?
              case Err(e) => Db() == old(Db()) && r == Err(e)
    {
      var row := users[user];
      if user == actor && next != Active {
        return Err(BadRequest("own account"));
      }
      if next == Suspended {
        row := row.(tokenVersion := row.tokenVersion + 1);
        RevokeAllForUser(user);
      }
      if next == Active && row.status == Invited {
        return Err(BadRequest("invite not accepted"));
      }
      row := row.(status := next);
      users := users[user := row];
      r := Ok(());
    }

    method UpdateUserStatus(user: nat, next: UserStatus, actor: nat) returns (r: Result<Option<Access>>)
      modifies this`users, this`refresh
      ensures Effect(Db(), r) == CallUpdateStatus(old(Db()), user, next, actor)
      ensures r.Ok? ==> user < |users| && users[user].status == next
      ensures r.Ok? && next == Suspended && old(users)[user].status != Suspended ==> SessionsEnded(old(Db()), Db(), user)
    {
      if user >= |users| {
        return Err(NotFound);
      }
      if next != users[user].status {
        var applied := ApplyAndSaveStatus(user, next, actor);
        if applied.Err? {
          return Err(applied.error);
        }
      }
      r := Ok(None);
    }

    method ToggleUserStatus(user: nat, actor: nat) returns (r: Result<Option<Access>>)
      modifies this`users, this`refresh
      ensures Effect(Db(), r) == CallToggleStatus(old(Db()), user, actor)
      ensures r.Ok? ==> user < |users| && (users[user].status == Suspended <==> old(users)[user].status == Active)
      ensures r.Ok? && users[user].status == Suspended ==> SessionsEnded(old(Db()), Db(), user)
    {
      if user >= |users| {
        return Err(NotFound);
      }
      if users[user].status == Invited {
        return Err(BadRequest("invite not accepted"));
      }
      var applied := ApplyAndSaveStatus(user, if users[user].status == Active then Suspended else Active, actor);
      r := if applied.Err? then Err(applied.error) else Ok(None);
    }

    method InviteNewUser(email: Email, drawn: Token) returns (r: Result<Option<Access>>)
      modifies this`users, this`userTokens
      ensures Effect(Db(), r) == CallInvite(old(Db()), email, drawn)
      ensures r.Ok? ==> users == old(users) + [User(email, Invited, 0, None)] && !Registered(old(users), email)
    {
      if Registered(users, email) {
        return Err(Conflict("already registered"));
      }
      users := users + [User(email, Invited, 0, None)];
      var issued := IssueToken(|users| - 1, Invite, drawn);
      r := if issued.Err? then Err(issued.error) else Ok(None);
    }

    method ResendUserInvite(user: nat, drawn: Token) returns (r: Result<Option<Access>>)
      modifies this`userTokens
      ensures Effect(Db(), r) == CallResendInvite(old(Db()), user, drawn)
    {
      if user >= |users| {
        return Err(NotFound);
      }
      if users[user].status != Invited {
        return Err(BadRequest("already accepted"));
      }
      var issued := IssueToken(user, Invite, drawn);
      r := if issued.Err? then Err(issued.error) else Ok(None);
    }

    // ---- sign in and out ---------------------------------------------------------------------

    method IssueSession(user: nat, drawn: Token) returns (r: Result<Option<Access>>)
      requires user < |users|
      modifies this`refresh
      ensures Effect(Db(), r) == Session(old(Db()), user, drawn)
    {
      var issued := IssueRefreshToken(user, drawn);
      if issued.Err? {
        return Err(issued.error);
      }
      r := Ok(Some(Access(user, users[user].tokenVersion)));
    }

    method RegisterFirst(email: Email, password: Password, drawn: Token) returns (r: Result<Option<Access>>)
      modifies this`users, this`refresh
      ensures Effect(Db(), r) == CallRegister(old(Db()), email, password, drawn)
      ensures r.Ok? ==> old(users) == [] && SessionOpened(old(Db()), Db(), r, 0)
    {
      if |users| > 0 {
        return Err(Conflict("registration closed"));
      }
      users := [User(email, Active, 0, Some(password))];
      r := IssueSession(0, drawn);
    }

    method SignIn(user: nat, password: Password, drawn: Token) returns (r: Result<Option<Access>>)
      modifies this`refresh
      ensures Effect(Db(), r) == CallLogin(old(Db()), user, password, drawn)
      ensures r.Ok? ==> SessionOpened(old(Db()), Db(), r, user) && users[user].password == Some(password)
    {
      if user >= |users| || users[user].password != Some(password) {
        return Err(Unauthorized("invalid credentials"));
      }
      if users[user].status == Suspended {
        return Err(Unauthorized("suspended"));
      }
      if users[user].status == Invited {
        return Err(Unauthorized("accept your invite"));
      }
      r := IssueSession(user, drawn);
    }

    method RefreshSession(token: Token, drawn: Token) returns (r: Result<Option<Access>>)
      modifies this`refresh
      ensures Effect(Db(), r) == CallRefresh(old(Db()), token, drawn)
      ensures r.Ok? ==> r.value.Some? && SessionOpened(old(Db()), Db(), r, r.value.value.sub)
    {
      var rotated := RotateRefreshToken(token, drawn);
      if rotated.Err? {
        return Err(rotated.error);
      }
      var user := rotated.value;
      if user >= |users| || users[user].status != Active {
        RevokeAllForUser(user);
        return Err(Unauthorized("not active"));
      }
      r := Ok(Some(Access(user, users[user].tokenVersion)));
    }

    method SignOutEverywhere(access: Access) returns (r: Result<Option<Access>>)
      modifies this`users, this`refresh
      ensures Effect(Db(), r) == CallLogoutAll(old(Db()), access)
      ensures if Validates(old(Db()), access) then r.Ok? && SessionsEnded(old(Db()), Db(), access.sub)
              else r.Err? && Db() == old(Db())
    {
      if !Validates(Db(), access) {
        return Err(Unauthorized("session"));
      }
      RevokeAllForUser(access.sub);
      BumpTokenVersion(access.sub);
      r := Ok(None);
    }

    // ---- password lifecycle ------------------------------------------------------------------

    method RequestReset(user: nat, drawn: Token) returns (r: Result<Option<Access>>)
      modifies this`userTokens
      ensures Effect(Db(), r) == CallForgotPassword(old(Db()), user, drawn)
    {
      if user >= |users| || users[user].status == Suspended {
        return Ok(None);
      }
      var issued := IssueToken(user, PasswordReset, drawn);
      r := if issued.Err? then Err(issued.error) else Ok(None);
    }

    method ResetWithToken(token: Token, password: Password) returns (r: Result<Option<Access>>)
      modifies this`users, this`refresh, this`userTokens
      ensures Effect(Db(), r) == CallResetPassword(old(Db()), token, password)
      ensures r.Ok? ==> var u := Redeem(old(Db()), token, PasswordReset).result.value;
                        u < |users| ==> users[u].password == Some(password) && SessionsEnded(old(Db()), Db(), u)
      ensures r.Err? ==> Db() == old(Db())
    {
      var record := RedeemToken(token, PasswordReset);
      if record.Err? {
        return Err(record.error);
      }
      StorePassword(record.value, password, false);
      RevokeAllForUser(record.value);
      BumpTokenVersion(record.value);
      r := Ok(None);
    }

    method AcceptWithToken(token: Token, password: Password, drawn: Token) returns (r: Result<Option<Access>>)
      modifies this`users, this`refresh, this`userTokens
      ensures Effect(Db(), r) == CallAcceptInvite(old(Db()), token, password, drawn)
      ensures r.Ok? ==> var u := Redeem(old(Db()), token, Invite).result.value;
                        SessionOpened(old(Db()), Db(), r, u) && users[u].password == Some(password)
    {
      var record := RedeemToken(token, Invite);
      if record.Err? {
        return Err(record.error);
      }
      StorePassword(record.value, password, true);
      if record.value >= |users| {
        return Err(Unauthorized("no account"));
      }
      r := IssueSession(record.value, drawn);
    }

    method ChangeOwnPassword(access: Access, current: Password, password: Password) returns (r: Result<Option<Access>>)
      modifies this`users, this`refresh
      ensures Effect(Db(), r) == CallChangePassword(old(Db()), access, current, password)
      ensures r.Ok? ==> SessionsEnded(old(Db()), Db(), access.sub) && old(users)[access.sub].password == Some(current)
                        && users[access.sub].password == Some(password)
      ensures r.Err? ==> Db() == old(Db())
    {
      if !Validates(Db(), access) {
        return Err(Unauthorized("session"));
      }
      if users[access.sub].password != Some(current) {
        return Err(Unauthorized("current password"));
      }
      StorePassword(access.sub, password, false);
      RevokeAllForUser(access.sub);
      BumpTokenVersion(access.sub);
      r := Ok(None);
    }
  }

  /** Retiring tokens does not change which digests are in the table. */
  lemma {:induction false} RetireKeepsHashes(rows: seq<UserToken>, user: nat, purpose: Purpose, now: int, hash: Digest)
    ensures FindUserToken(Retire(rows, user, purpose, now), hash).Some? <==> FindUserToken(rows, hash).Some?
  {
    var after := Retire(rows, user, purpose, now);
    var found := FindUserToken(after, hash);
    var before := FindUserToken(rows, hash);
    if found.Some? {
      assert rows[found.value].hash == hash;
    }
    if before.Some? {
      assert after[before.value].hash == hash;
    }
  }
}
