/** Users, rotating refresh tokens, single-use invite and reset tokens, and the version
    counter carried by access tokens. */
module Sessions {
  import opened Outcomes

  type Token = nat
  type Password = nat
  type Email = nat // as stored, lower-cased

  /** The stored form of a token; distinct tokens have distinct digests. */
  datatype Digest = Sha256(plain: Token)

  datatype UserStatus = Active | Invited | Suspended
  datatype Purpose = Invite | PasswordReset

  datatype User = User(email: Email, status: UserStatus, tokenVersion: nat, password: Option<Password>)

  datatype RefreshToken = RefreshToken(hash: Digest, user: nat, expiresAt: int,
                                       revokedAt: Option<int>, replacedBy: Option<Digest>)

  datatype UserToken = UserToken(hash: Digest, user: nat, purpose: Purpose, expiresAt: int, usedAt: Option<int>)

  /** The claims of a signed access token: the user and the version it was minted at. */
  datatype Access = Access(sub: nat, tv: nat)

  datatype Config = Config(refreshTtl: nat, inviteTtl: nat, resetTtl: nat)

  /** Rows are never deleted, so a row's index is its id. `now` is the clock. */
  datatype Tables = Tables(now: int, config: Config, users: seq<User>, refresh: seq<RefreshToken>, userTokens: seq<UserToken>)

  // ---- refresh tokens --------------------------------------------------------------------

  /** The row with a given token hash. */
  function FindRefresh(rows: seq<RefreshToken>, hash: Digest): (found: Option<nat>)
    ensures found.Some? ==> found.value < |rows| && rows[found.value].hash == hash
    ensures found.None? ==> forall i | 0 <= i < |rows| :: rows[i].hash != hash
  {
    if rows == [] then None
    else
      match FindRefresh(rows[..|rows| - 1], hash)
      case Some(i) => Some(i)
      case None => if rows[|rows| - 1].hash == hash then Some(|rows| - 1) else None
  }

  function IssueRefresh(db: Tables, user: nat, drawn: Token): Result<Tables> {
    if FindRefresh(db.refresh, Sha256(drawn)).Some? then Err(UniqueViolation)
    else Ok(db.(refresh := db.refresh
                + [RefreshToken(Sha256(drawn), user, db.now + db.config.refreshTtl, None, None)]))
  }

  function Revoked(row: RefreshToken, now: int): RefreshToken {
    if row.revokedAt == None then row.(revokedAt := Some(now)) else row
  }

  /** `UPDATE ... SET revokedAt = now WHERE userId = user AND revokedAt IS NULL`. */
  function RevokeRows(rows: seq<RefreshToken>, user: nat, now: int): (after: seq<RefreshToken>)
    ensures |after| == |rows|
    ensures forall i | 0 <= i < |rows| :: after[i] == if rows[i].user == user then Revoked(rows[i], now) else rows[i]
  {
    seq(|rows|, i requires 0 <= i < |rows| => if rows[i].user == user then Revoked(rows[i], now) else rows[i])
  }

  function RevokeAll(db: Tables, user: nat): Tables {
    db.(refresh := RevokeRows(db.refresh, user, db.now))
  }

  function RevokeOne(db: Tables, token: Token): Tables {
    match FindRefresh(db.refresh, Sha256(token))
    case None => db
    case Some(i) => db.(refresh := db.refresh[i := Revoked(db.refresh[i], db.now)])
  }

  /** `rotateRefreshToken`: the user of the redeemed token, or why it was refused. */
  function Rotate(db: Tables, token: Token, drawn: Token): Effect<Tables, nat> {
    match FindRefresh(db.refresh, Sha256(token))
    case None => Effect(db, Err(BadRequest("invalid")))
    case Some(i) =>
      var row := db.refresh[i];
      if row.revokedAt != None then Effect(RevokeAll(db, row.user), Err(BadRequest("reused")))
      else if row.expiresAt <= db.now then Effect(db, Err(BadRequest("expired")))
      else
        match IssueRefresh(db, row.user, drawn)
        case Err(e) => Effect(db, Err(e))
        case Ok(issued) =>
          Effect(issued.(refresh := issued.refresh[i :=
                           row.(revokedAt := Some(db.now), replacedBy := Some(Sha256(drawn)))]), Ok(row.user))
  }

  // ---- invite and reset tokens -------------------------------------------------------------

  function FindUserToken(rows: seq<UserToken>, hash: Digest): (found: Option<nat>)
    ensures found.Some? ==> found.value < |rows| && rows[found.value].hash == hash
    ensures found.None? ==> forall i | 0 <= i < |rows| :: rows[i].hash != hash
  {
    if rows == [] then None
    else
      match FindUserToken(rows[..|rows| - 1], hash)
      case Some(i) => Some(i)
      case None => if rows[|rows| - 1].hash == hash then Some(|rows| - 1) else None
  }

  predicate Outstanding(row: UserToken, user: nat, purpose: Purpose) {
    row.user == user && row.purpose == purpose && row.usedAt == None
  }

  function Retire(rows: seq<UserToken>, user: nat, purpose: Purpose, now: int): (after: seq<UserToken>)
    ensures |after| == |rows|
    ensures forall i | 0 <= i < |rows| ::
              after[i] == if Outstanding(rows[i], user, purpose) then rows[i].(usedAt := Some(now)) else rows[i]
  {
    seq(|rows|, i requires 0 <= i < |rows| =>
      if Outstanding(rows[i], user, purpose) then rows[i].(usedAt := Some(now)) else rows[i])
  }

  /** Retires the outstanding tokens of the purpose, then inserts the new one. The two
      statements share no transaction, so a refused insert leaves the retirement in place. */
  function IssueUserToken(db: Tables, user: nat, purpose: Purpose, drawn: Token): Effect<Tables, ()> {
    var retired := db.(userTokens := Retire(db.userTokens, user, purpose, db.now));
    var ttl := if purpose == Invite then db.config.inviteTtl else db.config.resetTtl;
    if FindUserToken(db.userTokens, Sha256(drawn)).Some? then Effect(retired, Err(UniqueViolation))
    else Effect(retired.(userTokens := retired.userTokens
                         + [UserToken(Sha256(drawn), user, purpose, db.now + ttl, None)]), Ok(()))
  }

  /** Consumes a token of the purpose that is known, unexpired and unused; gives its user. */
  function Redeem(db: Tables, token: Token, purpose: Purpose): Effect<Tables, nat> {
    match FindUserToken(db.userTokens, Sha256(token))
    case None => Effect(db, Err(BadRequest("invalid link")))
    case Some(i) =>
      var row := db.userTokens[i];
      if row.purpose != purpose || row.usedAt != None || row.expiresAt <= db.now
      then Effect(db, Err(BadRequest("invalid link")))
      else Effect(db.(userTokens := db.userTokens[i := row.(usedAt := Some(db.now))]), Ok(row.user))
  }

  // ---- users -------------------------------------------------------------------------------

  function SetUser(db: Tables, u: nat, user: User): Tables
    requires u < |db.users|
  {
    db.(users := db.users[u := user])
  }

  function SetPassword(db: Tables, u: nat, password: Password, activate: bool): Tables {
    if u >= |db.users| then db
    else
      var user := db.users[u].(password := Some(password));
      SetUser(db, u, if activate then user.(status := Active) else user)
  }

  function BumpVersion(db: Tables, u: nat): Tables {
    if u >= |db.users| then db
    else SetUser(db, u, db.users[u].(tokenVersion := db.users[u].tokenVersion + 1))
  }

  /** `applyStatus` followed by saving the user. */
  function ApplyStatus(db: Tables, u: nat, next: UserStatus, actor: nat): Result<Tables>
    requires u < |db.users|
  {
    if u == actor && next != Active then Err(BadRequest("own account"))
    else if next == Suspended then
      Ok(SetUser(RevokeAll(db, u), u,
                 db.users[u].(status := Suspended, tokenVersion := db.users[u].tokenVersion + 1)))
    else if next == Active && db.users[u].status == Invited then Err(BadRequest("invite not accepted"))
    else Ok(SetUser(db, u, db.users[u].(status := next)))
  }

  /** The acceptance condition for an access token whose signature and expiry have been checked. */
  predicate Validates(db: Tables, a: Access) {
    a.sub < |db.users| && db.users[a.sub].tokenVersion == a.tv && db.users[a.sub].status == Active
  }

  function Mint(db: Tables, u: nat): Access
    requires u < |db.users|
  {
    Access(u, db.users[u].tokenVersion)
  }

  // ---- the calls -----------------------------------------------------------------------------

  /** Every call that generates a token carries the value it draws; `user` is the account the
      caller named, `actor` the signed-in administrator, and `access` the token a signed-in user
      presents. */
  datatype Op =
    | Tick(elapsed: nat)
    | Register(email: Email, password: Password, drawn: Token)
    | Login(user: nat, password: Password, drawn: Token)
    | Refresh(token: Token, drawn: Token)
    | Logout(token: Token)
    | LogoutAll(access: Access)
    | ForgotPassword(user: nat, drawn: Token)
    | ResetPassword(token: Token, password: Password)
    | AcceptInvite(token: Token, password: Password, drawn: Token)
    | ChangePassword(access: Access, current: Password, password: Password)
    | InviteUser(email: Email, drawn: Token)
    | ResendInvite(user: nat, drawn: Token)
    | UpdateStatus(user: nat, next: UserStatus, actor: nat)
    | ToggleStatus(user: nat, actor: nat)

  /** A session is handed out as an access token; other calls give none. */
  type Reply = Effect<Tables, Option<Access>>

  function Session(db: Tables, u: nat, drawn: Token): Reply
    requires u < |db.users|
  {
    match IssueRefresh(db, u, drawn)
    case Err(e) => Effect(db, Err(e))
    case Ok(issued) => Effect(issued, Ok(Some(Mint(db, u))))
  }

  function CallRegister(db: Tables, email: Email, password: Password, drawn: Token): Reply {
    if |db.users| > 0 then Effect(db, Err(Conflict("registration closed")))
    else Session(db.(users := [User(email, Active, 0, Some(password))]), 0, drawn)
  }

  function CallLogin(db: Tables, u: nat, password: Password, drawn: Token): Reply {
    if u >= |db.users| || db.users[u].password != Some(password) then Effect(db, Err(Unauthorized("invalid credentials")))
    else if db.users[u].status == Suspended then Effect(db, Err(Unauthorized("suspended")))
    else if db.users[u].status == Invited then Effect(db, Err(Unauthorized("accept your invite")))
    else Session(db, u, drawn)
  }

  function CallRefresh(db: Tables, token: Token, drawn: Token): Reply {
    var rotated := Rotate(db, token, drawn);
    match rotated.result
    case Err(e) => Effect(rotated.db, Err(e))
    case Ok(u) =>
      if u >= |db.users| || db.users[u].status != Active
      then Effect(RevokeAll(rotated.db, u), Err(Unauthorized("not active")))
      else Effect(rotated.db, Ok(Some(Mint(db, u))))
  }

  function CallLogoutAll(db: Tables, a: Access): Reply {
    if !Validates(db, a) then Effect(db, Err(Unauthorized("session")))
    else Effect(BumpVersion(RevokeAll(db, a.sub), a.sub), Ok(None))
  }

  function CallForgotPassword(db: Tables, u: nat, drawn: Token): Reply {
    if u >= |db.users| || db.users[u].status == Suspended then Effect(db, Ok(None))
    else
      var issued := IssueUserToken(db, u, PasswordReset, drawn);
      Effect(issued.db, match issued.result case Ok(_) => Ok(None) case Err(e) => Err(e))
  }

  function CallResetPassword(db: Tables, token: Token, password: Password): Reply {
    var redeemed := Redeem(db, token, PasswordReset);
    match redeemed.result
    case Err(e) => Effect(redeemed.db, Err(e))
    case Ok(u) => Effect(BumpVersion(RevokeAll(SetPassword(redeemed.db, u, password, false), u), u), Ok(None))
  }

  function CallAcceptInvite(db: Tables, token: Token, password: Password, drawn: Token): Reply {
    var redeemed := Redeem(db, token, Invite);
    match redeemed.result
    case Err(e) => Effect(redeemed.db, Err(e))
    case Ok(u) =>
      var after := SetPassword(redeemed.db, u, password, true);
      if u >= |after.users| then Effect(after, Err(Unauthorized("no account"))) else Session(after, u, drawn)
  }

  function CallChangePassword(db: Tables, a: Access, current: Password, password: Password): Reply {
    if !Validates(db, a) then Effect(db, Err(Unauthorized("session")))
    else if db.users[a.sub].password != Some(current) then Effect(db, Err(Unauthorized("current password")))
    else Effect(BumpVersion(RevokeAll(SetPassword(db, a.sub, password, false), a.sub), a.sub), Ok(None))
  }

  predicate Registered(users: seq<User>, email: Email) {
    exists user :: user in users && user.email == email
  }

  function CallInvite(db: Tables, email: Email, drawn: Token): Reply {
    if Registered(db.users, email) then Effect(db, Err(Conflict("already registered")))
    else
      var created := db.(users := db.users + [User(email, Invited, 0, None)]);
      var issued := IssueUserToken(created, |db.users|, Invite, drawn);
      Effect(issued.db, match issued.result case Ok(_) => Ok(None) case Err(e) => Err(e))
  }

  function CallResendInvite(db: Tables, u: nat, drawn: Token): Reply {
    if u >= |db.users| then Effect(db, Err(NotFound))
    else if db.users[u].status != Invited then Effect(db, Err(BadRequest("already accepted")))
    else
      var issued := IssueUserToken(db, u, Invite, drawn);
      Effect(issued.db, match issued.result case Ok(_) => Ok(None) case Err(e) => Err(e))
  }

  function CallUpdateStatus(db: Tables, u: nat, next: UserStatus, actor: nat): Reply {
    if u >= |db.users| then Effect(db, Err(NotFound))
    else if next == db.users[u].status then Effect(db, Ok(None))
    else
      match ApplyStatus(db, u, next, actor)
      case Err(e) => Effect(db, Err(e))
      case Ok(after) => Effect(after, Ok(None))
  }

  function CallToggleStatus(db: Tables, u: nat, actor: nat): Reply {
    if u >= |db.users| then Effect(db, Err(NotFound))
    else if db.users[u].status == Invited then Effect(db, Err(BadRequest("invite not accepted")))
    else
      match ApplyStatus(db, u, if db.users[u].status == Active then Suspended else Active, actor)
      case Err(e) => Effect(db, Err(e))
      case Ok(after) => Effect(after, Ok(None))
  }

  function Call(db: Tables, op: Op): Reply {
    match op
    case Tick(elapsed) => Effect(db.(now := db.now + elapsed), Ok(None))
    case Register(email, password, drawn) => CallRegister(db, email, password, drawn)
    case Login(u, password, drawn) => CallLogin(db, u, password, drawn)
    case Refresh(token, drawn) => CallRefresh(db, token, drawn)
    case Logout(token) => Effect(RevokeOne(db, token), Ok(None))
    case LogoutAll(a) => CallLogoutAll(db, a)
    case ForgotPassword(u, drawn) => CallForgotPassword(db, u, drawn)
    case ResetPassword(token, password) => CallResetPassword(db, token, password)
    case AcceptInvite(token, password, drawn) => CallAcceptInvite(db, token, password, drawn)
    case ChangePassword(a, current, password) => CallChangePassword(db, a, current, password)
    case InviteUser(email, drawn) => CallInvite(db, email, drawn)
    case ResendInvite(u, drawn) => CallResendInvite(db, u, drawn)
    case UpdateStatus(u, next, actor) => CallUpdateStatus(db, u, next, actor)
    case ToggleStatus(u, actor) => CallToggleStatus(db, u, actor)
  }

  function Run(db: Tables, ops: seq<Op>): Tables {
    if ops == [] then db else Call(Run(db, ops[..|ops| - 1]), ops[|ops| - 1]).db
  }
}
