/**
 Sessions of the auth service and the admin service over one set of tables. Each
 handler is one atomic step; the clock and the random values it draws are inputs.
 A stored digest is represented by the value it is the digest of.
 */
module AuthModel {
  import opened Seqs

  type UserId = nat
  type Secret = string
  type Family = nat

  datatype User = User(
    username: Option<string>, password: Option<string>, email: Option<string>, phone: Option<string>, suspended: bool)
  datatype RefreshRow = RefreshRow(user: UserId, secret: Secret, family: Family, expiresAt: int, revoked: bool)
  datatype SingleUseRow = SingleUseRow(user: UserId, secret: Secret, expiresAt: int, used: bool)
  datatype OtpRow = OtpRow(user: UserId, phone: string, code: string, expiresAt: int, attempts: nat, used: bool)

  /** The tables; a row's id is its position, and rows are in order of creation. */
  datatype Db = Db(
    users: seq<User>, tokens: seq<RefreshRow>, resets: seq<SingleUseRow>, links: seq<SingleUseRow>,
    otps: seq<OtpRow>, identities: map<string, UserId>)

  /** The `shows` settings are the log deliveries, which return what they would have sent to the caller. */
  datatype Config = Config(
    refreshExpiry: int, resetExpiry: int, linkExpiry: int, otpExpiry: int, otpMaxAttempts: nat,
    showsReset: bool, showsLink: bool, showsOtp: bool)
  /** What a step reads of its surroundings: the clock, a random token, a random family and a random code. */
  datatype Env = Env(now: int, secret: Secret, family: Family, code: string)

  datatype Request =
    | Signup(username: string, password: string, address: Option<string>)
    | Login(username: string, password: string)
    | Anonymous
    | Refresh(token: Secret)
    | Logout(token: Secret)
    | Forgot(username: string, email: string)
    | Reset(token: Secret, password: string)
    | RequestLink(email: string)
    | VerifyLink(token: Secret)
    | RequestOtp(phone: string)
    | VerifyOtp(phone: string, code: string)
    | Google(subject: string, address: Option<string>)
    | Suspend(user: UserId, suspend: bool)
    | RevokeSessions(user: UserId)

  datatype Response = Session(user: UserId, token: Secret) | Done | Shown(value: string) | Invalid | SuspendedAccount | Conflict | NotFound | Failure

  // ---- row lookups and updates -------------------------------------------------------

  /** The first row satisfying `p`. */
  function Find<T>(rows: seq<T>, p: T -> bool): (i: Option<nat>)
    ensures i.Some? ==> i.value < |rows| && p(rows[i.value])
    ensures i.None? ==> forall k :: 0 <= k < |rows| ==> !p(rows[k])
  {
    if rows == [] then None
    else if p(rows[0]) then Some(0)
    else
      var i := Find(rows[1..], p);
      if i.Some? then Some(i.value + 1) else None
  }

  /** The latest row satisfying `p`. */
  function FindLast<T>(rows: seq<T>, p: T -> bool): (i: Option<nat>)
    ensures i.Some? ==> i.value < |rows| && p(rows[i.value])
    ensures i.None? ==> forall k :: 0 <= k < |rows| ==> !p(rows[k])
  {
    if rows == [] then None
    else if p(rows[|rows| - 1]) then Some(|rows| - 1)
    else FindLast(rows[..|rows| - 1], p)
  }

  function ByUsername(name: string): User -> bool { (u: User) => u.username == Some(name) }
  function ByEmail(email: string): User -> bool { (u: User) => u.email == Some(email) }
  function ByPhone(phone: string): User -> bool { (u: User) => u.phone == Some(phone) }
  function ByToken(token: Secret): RefreshRow -> bool { (t: RefreshRow) => t.secret == token }
  function BySecret(token: Secret): SingleUseRow -> bool { (t: SingleUseRow) => t.secret == token }
  function UnusedFor(phone: string): OtpRow -> bool { (o: OtpRow) => o.phone == phone && !o.used }
  function InFamily(family: Family): RefreshRow -> bool { (t: RefreshRow) => t.family == family }
  function OwnedBy(user: UserId): RefreshRow -> bool { (t: RefreshRow) => t.user == user }

  /** `UPDATE ... SET revoked_at = now() WHERE p AND revoked_at IS NULL`. */
  function RevokeWhere(tokens: seq<RefreshRow>, p: RefreshRow -> bool): (r: seq<RefreshRow>)
    ensures |r| == |tokens|
    ensures forall i :: 0 <= i < |tokens| ==> r[i] == if p(tokens[i]) then tokens[i].(revoked := true) else tokens[i]
  {
    seq(|tokens|, i requires 0 <= i < |tokens| => if p(tokens[i]) then tokens[i].(revoked := true) else tokens[i])
  }

  function RevokeAt(tokens: seq<RefreshRow>, i: nat): seq<RefreshRow>
    requires i < |tokens|
  {
    tokens[i := tokens[i].(revoked := true)]
  }

  predicate Usable(row: SingleUseRow, now: int) {
    !row.used && now < row.expiresAt
  }

  // ---- handlers ------------------------------------------------------------------------

  function Issue(db: Db, cfg: Config, env: Env, user: UserId): Db {
    db.(tokens := db.tokens + [RefreshRow(user, env.secret, env.family, env.now + cfg.refreshExpiry * 1000, false)])
  }

  /** A session for an existing account, unless it is suspended. */
  function SignIn(db: Db, cfg: Config, env: Env, user: UserId): (Db, Response) {
    if user >= |db.users| then (db, Invalid)
    else if db.users[user].suspended then (db, SuspendedAccount)
    else (Issue(db, cfg, env, user), Session(user, env.secret))
  }

  /** A session for an account created on the spot. */
  function SignUp(db: Db, cfg: Config, env: Env, user: User): (Db, Response) {
    (Issue(db.(users := db.users + [user]), cfg, env, |db.users|), Session(|db.users|, env.secret))
  }

  function HandleSignup(db: Db, cfg: Config, env: Env, username: string, password: string, email: Option<string>): (Db, Response) {
    if email.Some? && Find(db.users, ByEmail(email.value)).Some? then (db, Conflict)
    else if Find(db.users, ByUsername(username)).Some? then (db, Conflict)
    else SignUp(db, cfg, env, User(Some(username), Some(password), email, None, false))
  }

  function HandleToken(db: Db, cfg: Config, env: Env, username: string, password: string): (Db, Response) {
    var i := Find(db.users, ByUsername(username));
    if username == "" || password == "" || i.None? || db.users[i.value].password != Some(password) then (db, Invalid)
    else SignIn(db, cfg, env, i.value)
  }

  function HandleRefresh(db: Db, cfg: Config, env: Env, token: Secret): (Db, Response) {
    var i := Find(db.tokens, ByToken(token));
    if token == "" || i.None? then (db, Invalid)
    else
      var row := db.tokens[i.value];
      var killed := db.(tokens := RevokeWhere(db.tokens, InFamily(row.family)));
      if row.revoked then (killed, Invalid)
      else if row.expiresAt <= env.now then (db.(tokens := RevokeAt(db.tokens, i.value)), Invalid)
      else if row.user >= |db.users| then (killed, Invalid)
      else if db.users[row.user].suspended then (killed, SuspendedAccount)
      else
        var revoked := db.(tokens := RevokeAt(db.tokens, i.value));
        (Issue(revoked, cfg, env.(family := row.family), row.user), Session(row.user, env.secret))
  }

  function HandleLogout(db: Db, token: Secret): (Db, Response) {
    var i := Find(db.tokens, ByToken(token));
    if token == "" || i.None? then (db, Done)
    else (db.(tokens := RevokeWhere(db.tokens, InFamily(db.tokens[i.value].family))), Done)
  }

  function ResolveUser(db: Db, username: string, email: string): Option<UserId> {
    var i := if username != "" then Find(db.users, ByUsername(username)) else None;
    if i.Some? then i else if email != "" then Find(db.users, ByEmail(email)) else None
  }

  function HandleForgot(db: Db, cfg: Config, env: Env, username: string, email: string): (Db, Response) {
    var i := ResolveUser(db, username, email);
    if i.None? then (db, Done)
    else (db.(resets := db.resets + [SingleUseRow(i.value, env.secret, env.now + cfg.resetExpiry * 1000, false)]),
          if cfg.showsReset then Shown(env.secret) else Done)
  }

  function HandleReset(db: Db, env: Env, token: Secret, password: string): (Db, Response) {
    var i := Find(db.resets, BySecret(token));
    if token == "" || i.None? || !Usable(db.resets[i.value], env.now) then (db, Invalid)
    else
      var row := db.resets[i.value];
      (db.(resets := db.resets[i.value := row.(used := true)],
           users := if row.user < |db.users| then db.users[row.user := db.users[row.user].(password := Some(password))] else db.users,
           tokens := RevokeWhere(db.tokens, OwnedBy(row.user))), Done)
  }

  function HandleRequestLink(db: Db, cfg: Config, env: Env, email: string): (Db, Response) {
    var i := Find(db.users, ByEmail(email));
    var users := if i.Some? then db.users else db.users + [User(None, None, Some(email), None, false)];
    var user := if i.Some? then i.value else |db.users|;
    (db.(users := users, links := db.links + [SingleUseRow(user, env.secret, env.now + cfg.linkExpiry * 1000, false)]),
     if cfg.showsLink then Shown(env.secret) else Done)
  }

  function HandleVerifyLink(db: Db, cfg: Config, env: Env, token: Secret): (Db, Response) {
    var i := Find(db.links, BySecret(token));
    if token == "" || i.None? || !Usable(db.links[i.value], env.now) then (db, Invalid)
    else
      var row := db.links[i.value];
      SignIn(db.(links := db.links[i.value := row.(used := true)]), cfg, env, row.user)
  }

  function HandleRequestOtp(db: Db, cfg: Config, env: Env, phone: string): (Db, Response) {
    var i := Find(db.users, ByPhone(phone));
    var users := if i.Some? then db.users else db.users + [User(None, None, None, Some(phone), false)];
    var user := if i.Some? then i.value else |db.users|;
    (db.(users := users, otps := db.otps + [OtpRow(user, phone, env.code, env.now + cfg.otpExpiry * 1000, 0, false)]),
     if cfg.showsOtp then Shown(env.code) else Done)
  }

  function HandleVerifyOtp(db: Db, cfg: Config, env: Env, phone: string, code: string): (Db, Response) {
    var i := FindLast(db.otps, UnusedFor(phone));
    if code == "" || i.None? then (db, Invalid)
    else
      var row := db.otps[i.value];
      if row.expiresAt <= env.now || row.attempts >= cfg.otpMaxAttempts then (db, Invalid)
      else if row.code != code then (db.(otps := db.otps[i.value := row.(attempts := row.attempts + 1)]), Invalid)
      else SignIn(db.(otps := db.otps[i.value := row.(used := true)]), cfg, env, row.user)
  }

  /** The callback once Google has vouched for `subject`. */
  function HandleGoogle(db: Db, cfg: Config, env: Env, subject: string, email: Option<string>): (Db, Response) {
    if subject in db.identities then
      if db.identities[subject] >= |db.users| then (db, Failure) else SignIn(db, cfg, env, db.identities[subject])
    else if email.Some? && Find(db.users, ByEmail(email.value)).Some? then (db, Failure)
    else SignUp(db.(identities := db.identities[subject := |db.users|]), cfg, env, User(None, None, email, None, false))
  }

  function HandleSuspend(db: Db, user: UserId, suspend: bool): (Db, Response) {
    if user >= |db.users| then (db, NotFound)
    else
      (db.(users := db.users[user := db.users[user].(suspended := suspend)],
           tokens := if suspend then RevokeWhere(db.tokens, OwnedBy(user)) else db.tokens), Done)
  }

  function HandleRevokeSessions(db: Db, user: UserId): (Db, Response) {
    (db.(tokens := RevokeWhere(db.tokens, OwnedBy(user))), Done)
  }

  function Handle(db: Db, cfg: Config, env: Env, request: Request): (Db, Response) {
    match request
    case Signup(username, password, email) => HandleSignup(db, cfg, env, username, password, email)
    case Login(username, password) => HandleToken(db, cfg, env, username, password)
    case Anonymous => SignUp(db, cfg, env, User(None, None, None, None, false))
    case Refresh(token) => HandleRefresh(db, cfg, env, token)
    case Logout(token) => HandleLogout(db, token)
    case Forgot(username, email) => HandleForgot(db, cfg, env, username, email)
    case Reset(token, password) => HandleReset(db, env, token, password)
    case RequestLink(email) => HandleRequestLink(db, cfg, env, email)
    case VerifyLink(token) => HandleVerifyLink(db, cfg, env, token)
    case RequestOtp(phone) => HandleRequestOtp(db, cfg, env, phone)
    case VerifyOtp(phone, code) => HandleVerifyOtp(db, cfg, env, phone, code)
    case Google(subject, email) => HandleGoogle(db, cfg, env, subject, email)
    case Suspend(user, suspend) => HandleSuspend(db, user, suspend)
    case RevokeSessions(user) => HandleRevokeSessions(db, user)
  }
}
