/**
 The handlers as they run: lookups, then row updates one after the other. `Serve`
 is tied to `AuthModel.Handle`, so the theorems about runs hold of its calls.
 */
module AuthServices {
  import opened Seqs
  import opened AuthModel
  import opened AuthTheorems

  class AuthService {
    const cfg: Config
    var users: seq<User>
    var tokens: seq<RefreshRow>
    var resets: seq<SingleUseRow>
    var links: seq<SingleUseRow>
    var otps: seq<OtpRow>
    var identities: map<string, UserId>

    function State(): Db
      reads this
    {
      Db(users, tokens, resets, links, otps, identities)
    }

    constructor (cfg: Config)
      ensures this.cfg == cfg && State() == EMPTY && Sound(State())
    {
      this.cfg := cfg;
      users, tokens, resets, links, otps, identities := [], [], [], [], [], map[];
    }

    /** One request, atomically. */
    method Serve(env: Env, request: Request) returns (r: Response)
      requires Sound(State()) && Fresh(State(), env)
      modifies this
      ensures (State(), r) == Handle(old(State()), cfg, env, request)
      ensures Sound(State())
    {
      HandleSound(State(), cfg, env, request);
      r := Route(env, request);
    }

    method Route(env: Env, request: Request) returns (r: Response)
      modifies this
      ensures (State(), r) == Handle(old(State()), cfg, env, request)
    {
      match request
      case Signup(username, password, email) => r := OnSignup(env, username, password, email);
      case Login(username, password) => r := OnToken(env, username, password);
      case Anonymous => r := SignUpUser(env, User(None, None, None, None, false));
      case Refresh(token) => r := OnRefresh(env, token);
      case Logout(token) => r := OnLogout(token);
      case Forgot(username, email) => r := OnForgot(env, username, email);
      case Reset(token, password) => r := OnReset(env, token, password);
      case RequestLink(email) => r := OnRequestLink(env, email);
      case VerifyLink(token) => r := OnVerifyLink(env, token);
      case RequestOtp(phone) => r := OnRequestOtp(env, phone);
      case VerifyOtp(phone, code) => r := OnVerifyOtp(env, phone, code);
      case Google(subject, email) => r := OnGoogle(env, subject, email);
      case Suspend(user, suspend) => r := OnSuspend(user, suspend);
      case RevokeSessions(user) => r := OnRevokeSessions(user);
    }

    // ---- row updates -------------------------------------------------------------------

    method CreateUser(user: User) returns (id: UserId)
      modifies this`users
      ensures id == |old(users)| && users == old(users) + [user]
    {
      id := |users|;
      users := users + [user];
    }

    method CreateRefreshToken(env: Env, user: UserId, family: Family)
      modifies this`tokens
      ensures State() == Issue(old(State()), cfg, env.(family := family), user)
    {
      tokens := tokens + [RefreshRow(user, env.secret, family, env.now + cfg.refreshExpiry * 1000, false)];
    }

    method RevokeRefreshToken(i: nat)
      requires i < |tokens|
      modifies this`tokens
      ensures tokens == RevokeAt(old(tokens), i)
    {
      tokens := tokens[i := tokens[i].(revoked := true)];
    }

    /** The UPDATE over the rows matching `p`, row by row. */
    method RevokeMatching(p: RefreshRow -> bool)
      modifies this`tokens
      ensures tokens == RevokeWhere(old(tokens), p)
    {
      ghost var was := tokens;
      for i := 0 to |tokens|
        invariant |tokens| == |was|
        invariant forall k :: 0 <= k < i ==> tokens[k] == if p(was[k]) then was[k].(revoked := true) else was[k]
        invariant forall k :: i <= k < |was| ==> tokens[k] == was[k]
      {
        if p(tokens[i]) && !tokens[i].revoked {
          tokens := tokens[i := tokens[i].(revoked := true)];
        }
      }
    }

    // ---- sessions -------------------------------------------------------------------------

    /** A session for an account that exists, unless it is suspended. */
    method SignInUser(env: Env, user: UserId) returns (r: Response)
      modifies this`tokens
      ensures (State(), r) == SignIn(old(State()), cfg, env, user)
    {
      if user >= |users| {
        return Invalid;
      }
      if users[user].suspended {
        return SuspendedAccount;
      }
      CreateRefreshToken(env, user, env.family);
      return Session(user, env.secret);
    }

    method SignUpUser(env: Env, user: User) returns (r: Response)
      modifies this`users, this`tokens
      ensures (State(), r) == SignUp(old(State()), cfg, env, user)
    {
      var id := CreateUser(user);
      CreateRefreshToken(env, id, env.family);
      return Session(id, env.secret);
    }

    method OnSignup(env: Env, username: string, password: string, email: Option<string>) returns (r: Response)
      modifies this`users, this`tokens
      ensures (State(), r) == HandleSignup(old(State()), cfg, env, username, password, email)
    {
      if email.Some? {
        if Find(users, ByEmail(email.value)).Some? {
          return Conflict;
        }
      }
      if Find(users, ByUsername(username)).Some? {
        return Conflict;
      }
      r := SignUpUser(env, User(Some(username), Some(password), email, None, false));
    }

    method OnToken(env: Env, username: string, password: string) returns (r: Response)
      modifies this`tokens
      ensures (State(), r) == HandleToken(old(State()), cfg, env, username, password)
    {
      if username == "" || password == "" {
        return Invalid;
      }
      var i := Find(users, ByUsername(username));
      if i.None? || users[i.value].password != Some(password) {
        return Invalid;
      }
      r := SignInUser(env, i.value);
    }

    /** Rotation with reuse detection. */
    method OnRefresh(env: Env, token: Secret) returns (r: Response)
      modifies this`tokens
      ensures (State(), r) == HandleRefresh(old(State()), cfg, env, token)
    {
      if token == "" {
        return Invalid;
      }
      var i := Find(tokens, ByToken(token));
      if i.None? {
        return Invalid;
      }
      var row := tokens[i.value];
      if row.revoked {
        RevokeMatching(InFamily(row.family));
        return Invalid;
      }
      if row.expiresAt <= env.now {
        RevokeRefreshToken(i.value);
        return Invalid;
      }
      if row.user >= |users| {
        RevokeMatching(InFamily(row.family));
        return Invalid;
      }
      if users[row.user].suspended {
        RevokeMatching(InFamily(row.family));
        return SuspendedAccount;
      }
      RevokeRefreshToken(i.value);
      CreateRefreshToken(env, row.user, row.family);
      return Session(row.user, env.secret);
    }

    method OnLogout(token: Secret) returns (r: Response)
      modifies this`tokens
      ensures (State(), r) == HandleLogout(old(State()), token)
    {
      if token != "" {
        var i := Find(tokens, ByToken(token));
        if i.Some? {
          RevokeMatching(InFamily(tokens[i.value].family));
        }
      }
      return Done;
    }

    // ---- password reset --------------------------------------------------------------------

    method OnForgot(env: Env, username: string, email: string) returns (r: Response)
      modifies this`resets
      ensures (State(), r) == HandleForgot(old(State()), cfg, env, username, email)
    {
      var user := ResolveUser(State(), username, email);
      if user.None? {
        return Done;
      }
      resets := resets + [SingleUseRow(user.value, env.secret, env.now + cfg.resetExpiry * 1000, false)];
      return if cfg.showsReset then Shown(env.secret) else Done;
    }

    method OnReset(env: Env, token: Secret, password: string) returns (r: Response)
      modifies this`resets, this`users, this`tokens
      ensures (State(), r) == HandleReset(old(State()), env, token, password)
    {
      if token == "" {
        return Invalid;
      }
      var i := Find(resets, BySecret(token));
      if i.None? || !Usable(resets[i.value], env.now) {
        return Invalid;
      }
      var row := resets[i.value];
      resets := resets[i.value := row.(used := true)];
      if row.user < |users| {
        users := users[row.user := users[row.user].(password := Some(password))];
      }
      RevokeMatching(OwnedBy(row.user));
      return Done;
    }

    // ---- passwordless sign-in ----------------------------------------------------------------

    method OnRequestLink(env: Env, email: string) returns (r: Response)
      modifies this`users, this`links
      ensures (State(), r) == HandleRequestLink(old(State()), cfg, env, email)
    {
      var i := Find(users, ByEmail(email));
      var user: UserId;
      if i.Some? {
        user := i.value;
      } else {
        user := CreateUser(User(None, None, Some(email), None, false));
      }
      links := links + [SingleUseRow(user, env.secret, env.now + cfg.linkExpiry * 1000, false)];
      return if cfg.showsLink then Shown(env.secret) else Done;
    }

    method OnVerifyLink(env: Env, token: Secret) returns (r: Response)
      modifies this`links, this`tokens
      ensures (State(), r) == HandleVerifyLink(old(State()), cfg, env, token)
    {
      if token == "" {
        return Invalid;
      }
      var i := Find(links, BySecret(token));
      if i.None? || !Usable(links[i.value], env.now) {
        return Invalid;
      }
      var row := links[i.value];
      links := links[i.value := row.(used := true)];
      r := SignInUser(env, row.user);
    }

    method OnRequestOtp(env: Env, phone: string) returns (r: Response)
      modifies this`users, this`otps
      ensures (State(), r) == HandleRequestOtp(old(State()), cfg, env, phone)
    {
      var i := Find(users, ByPhone(phone));
      var user: UserId;
      if i.Some? {
        user := i.value;
      } else {
        user := CreateUser(User(None, None, None, Some(phone), false));
      }
      otps := otps + [OtpRow(user, phone, env.code, env.now + cfg.otpExpiry * 1000, 0, false)];
      return if cfg.showsOtp then Shown(env.code) else Done;
    }

    method OnVerifyOtp(env: Env, phone: string, code: string) returns (r: Response)
      modifies this`otps, this`tokens
      ensures (State(), r) == HandleVerifyOtp(old(State()), cfg, env, phone, code)
    {
      if code == "" {
        return Invalid;
      }
      var i := FindLast(otps, UnusedFor(phone));
      if i.None? || otps[i.value].expiresAt <= env.now || otps[i.value].attempts >= cfg.otpMaxAttempts {
        return Invalid;
      }
      var row := otps[i.value];
      if row.code != code {
        otps := otps[i.value := row.(attempts := row.attempts + 1)];
        return Invalid;
      }
      otps := otps[i.value := row.(used := true)];
      r := SignInUser(env, row.user);
    }

    method OnGoogle(env: Env, subject: string, email: Option<string>) returns (r: Response)
      modifies this`users, this`tokens, this`identities
      ensures (State(), r) == HandleGoogle(old(State()), cfg, env, subject, email)
    {
      if subject in identities {
        if identities[subject] >= |users| {
          return Failure;
        }
        r := SignInUser(env, identities[subject]);
        return;
      }
      if email.Some? {
        if Find(users, ByEmail(email.value)).Some? {
          return Failure;
        }
      }
      identities := identities[subject := |users|];
      r := SignUpUser(env, User(None, None, email, None, false));
    }

    // ---- admin service ------------------------------------------------------------------------

    method OnSuspend(user: UserId, suspend: bool) returns (r: Response)
      modifies this`users, this`tokens
      ensures (State(), r) == HandleSuspend(old(State()), user, suspend)
    {
      if user >= |users| {
        return NotFound;
      }
      users := users[user := users[user].(suspended := suspend)];
      if suspend {
        RevokeMatching(OwnedBy(user));
      }
      return Done;
    }

    method OnRevokeSessions(user: UserId) returns (r: Response)
      modifies this`tokens
      ensures (State(), r) == HandleRevokeSessions(old(State()), user)
    {
      RevokeMatching(OwnedBy(user));
      return Done;
    }
  }
}
