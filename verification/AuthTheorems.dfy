/** What every sequential run of auth and admin handlers keeps. */
module AuthTheorems {
  import opened Seqs
  import opened AuthModel

  // ---- runs ----------------------------------------------------------------------------

  datatype Call = Call(env: Env, request: Request)

  /** Random values do not repeat: the token is in no table, the family names no row. */
  ghost predicate Fresh(db: Db, env: Env) {
    && env.secret != ""
    && (forall i :: 0 <= i < |db.tokens| ==> db.tokens[i].secret != env.secret && db.tokens[i].family != env.family)
    && (forall i :: 0 <= i < |db.links| ==> db.links[i].secret != env.secret)
    && (forall i :: 0 <= i < |db.resets| ==> db.resets[i].secret != env.secret)
  }

  ghost predicate IsRun(db: Db, cfg: Config, calls: seq<Call>)
    decreases |calls|
  {
    calls == [] || (Fresh(db, calls[0].env) && IsRun(Handle(db, cfg, calls[0].env, calls[0].request).0, cfg, calls[1..]))
  }

  function Run(db: Db, cfg: Config, calls: seq<Call>): Db
    decreases |calls|
  {
    if calls == [] then db else Run(Handle(db, cfg, calls[0].env, calls[0].request).0, cfg, calls[1..])
  }

  const EMPTY: Db := Db([], [], [], [], [], map[])

  // ---- the invariant ----------------------------------------------------------------------

  /** Of two rows of a family, the earlier is revoked and both have one owner. */
  ghost predicate Chains(tokens: seq<RefreshRow>) {
    forall i, j :: 0 <= i < j < |tokens| && tokens[i].family == tokens[j].family ==>
      tokens[i].revoked && tokens[i].user == tokens[j].user
  }

  ghost predicate Unique(tokens: seq<RefreshRow>) {
    forall i, j :: 0 <= i < j < |tokens| ==> tokens[i].secret != tokens[j].secret
  }

  /** Every row has an owner, and a suspended owner's rows are revoked. */
  ghost predicate LockedOut(users: seq<User>, tokens: seq<RefreshRow>) {
    forall i :: 0 <= i < |tokens| ==>
      tokens[i].user < |users| && (users[tokens[i].user].suspended ==> tokens[i].revoked)
  }

  ghost predicate Sound(db: Db) {
    Chains(db.tokens) && Unique(db.tokens) && LockedOut(db.users, db.tokens)
  }

  /** Later rows only append, and revocation is never undone. */
  ghost predicate Grows(tokens: seq<RefreshRow>, later: seq<RefreshRow>) {
    && |tokens| <= |later|
    && forall i :: 0 <= i < |tokens| ==>
         later[i] == tokens[i] || later[i] == tokens[i].(revoked := true)
  }

  /** The family has rows and none is active. */
  ghost predicate Dead(tokens: seq<RefreshRow>, family: Family) {
    && (exists i :: 0 <= i < |tokens| && tokens[i].family == family)
    && forall i :: 0 <= i < |tokens| && tokens[i].family == family ==> tokens[i].revoked
  }

  // ---- shapes of change ---------------------------------------------------------------------

  /** How one step may change the token table, given whose account is open. */
  ghost predicate TokenStep(users: seq<User>, tokens: seq<RefreshRow>, later: seq<RefreshRow>, env: Env) {
    || OnlyRevokes(tokens, later)
    || (|later| == |tokens| + 1 && Appends(users, tokens, later[..|tokens|], later[|tokens|], env))
  }

  ghost predicate OnlyRevokes(tokens: seq<RefreshRow>, later: seq<RefreshRow>) {
    |later| == |tokens| && Grows(tokens, later)
  }

  /** A new active row: of a new family, or after the family's active row was revoked. */
  ghost predicate Appends(users: seq<User>, tokens: seq<RefreshRow>, before: seq<RefreshRow>, row: RefreshRow, env: Env) {
    && OnlyRevokes(tokens, before)
    && row.user < |users| && !users[row.user].suspended && row.secret == env.secret && !row.revoked
    && (row.family == env.family
        || exists i :: 0 <= i < |tokens| && Rotates(tokens, before, i, row))
  }

  predicate Rotates(tokens: seq<RefreshRow>, before: seq<RefreshRow>, i: nat, row: RefreshRow)
    requires i < |tokens| == |before|
  {
    tokens[i].family == row.family && tokens[i].user == row.user && !tokens[i].revoked && before[i].revoked
  }

  lemma RevokeOnlyRevokes(tokens: seq<RefreshRow>, p: RefreshRow -> bool)
    ensures OnlyRevokes(tokens, RevokeWhere(tokens, p))
  {
  }

  lemma IssueStep(db: Db, cfg: Config, env: Env, user: UserId)
    requires user < |db.users| && !db.users[user].suspended
    ensures TokenStep(db.users, db.tokens, Issue(db, cfg, env, user).tokens, env)
  {
    var later := Issue(db, cfg, env, user).tokens;
    assert later[..|db.tokens|] == db.tokens;
  }

  lemma SignInStep(db: Db, cfg: Config, env: Env, user: UserId)
    ensures TokenStep(db.users, db.tokens, SignIn(db, cfg, env, user).0.tokens, env)
  {
    if user < |db.users| && !db.users[user].suspended {
      IssueStep(db, cfg, env, user);
    }
  }

  lemma SignUpStep(db: Db, cfg: Config, env: Env, user: User)
    requires !user.suspended
    ensures TokenStep(db.users + [user], db.tokens, SignUp(db, cfg, env, user).0.tokens, env)
  {
    IssueStep(db.(users := db.users + [user]), cfg, env, |db.users|);
  }

  lemma RefreshStep(db: Db, cfg: Config, env: Env, token: Secret)
    ensures TokenStep(db.users, db.tokens, HandleRefresh(db, cfg, env, token).0.tokens, env)
  {
    var i := Find(db.tokens, ByToken(token));
    if token != "" && i.Some? {
      var row := db.tokens[i.value];
      RevokeOnlyRevokes(db.tokens, InFamily(row.family));
      var (after, response) := HandleRefresh(db, cfg, env, token);
      if response.Session? {
        var before := RevokeAt(db.tokens, i.value);
        assert after.tokens[..|db.tokens|] == before;
        assert Rotates(db.tokens, before, i.value, after.tokens[|db.tokens|]);
      }
    }
  }

  lemma VerifyLinkStep(db: Db, cfg: Config, env: Env, token: Secret)
    ensures var after := HandleVerifyLink(db, cfg, env, token).0; TokenStep(after.users, db.tokens, after.tokens, env)
  {
    var i := Find(db.links, BySecret(token));
    if i.Some? {
      SignInStep(db.(links := db.links[i.value := db.links[i.value].(used := true)]), cfg, env, db.links[i.value].user);
    }
  }

  lemma VerifyOtpStep(db: Db, cfg: Config, env: Env, phone: string, code: string)
    ensures var after := HandleVerifyOtp(db, cfg, env, phone, code).0; TokenStep(after.users, db.tokens, after.tokens, env)
  {
    var i := FindLast(db.otps, UnusedFor(phone));
    if i.Some? {
      SignInStep(db.(otps := db.otps[i.value := db.otps[i.value].(used := true)]), cfg, env, db.otps[i.value].user);
    }
  }

  lemma GoogleStep(db: Db, cfg: Config, env: Env, subject: string, email: Option<string>)
    ensures var after := HandleGoogle(db, cfg, env, subject, email).0; TokenStep(after.users, db.tokens, after.tokens, env)
  {
    if subject in db.identities {
      SignInStep(db, cfg, env, db.identities[subject]);
    } else {
      SignUpStep(db.(identities := db.identities[subject := |db.users|]), cfg, env, User(None, None, email, None, false));
    }
  }

  lemma LoginStep(db: Db, cfg: Config, env: Env, username: string, password: string)
    ensures TokenStep(db.users, db.tokens, HandleToken(db, cfg, env, username, password).0.tokens, env)
  {
    var i := Find(db.users, ByUsername(username));
    if i.Some? {
      SignInStep(db, cfg, env, i.value);
    }
  }

  lemma LogoutStep(db: Db, token: Secret)
    ensures OnlyRevokes(db.tokens, HandleLogout(db, token).0.tokens)
  {
    var i := Find(db.tokens, ByToken(token));
    if i.Some? {
      RevokeOnlyRevokes(db.tokens, InFamily(db.tokens[i.value].family));
    }
  }

  lemma ResetStep(db: Db, env: Env, token: Secret, password: string)
    ensures OnlyRevokes(db.tokens, HandleReset(db, env, token, password).0.tokens)
  {
    var i := Find(db.resets, BySecret(token));
    if i.Some? {
      RevokeOnlyRevokes(db.tokens, OwnedBy(db.resets[i.value].user));
    }
  }

  /** Every handler changes the token table in one of the two ways. */
  lemma HandleTokenStep(db: Db, cfg: Config, env: Env, request: Request)
    ensures var after := Handle(db, cfg, env, request).0;
            TokenStep(after.users, db.tokens, after.tokens, env)
  {
    match request
    case Signup(username, password, email) =>
      SignUpStep(db, cfg, env, User(Some(username), Some(password), email, None, false));
    case Login(username, password) => LoginStep(db, cfg, env, username, password);
    case Anonymous => SignUpStep(db, cfg, env, User(None, None, None, None, false));
    case Refresh(token) => RefreshStep(db, cfg, env, token);
    case Logout(token) => LogoutStep(db, token);
    case Forgot(_, _) =>
    case Reset(token, password) => ResetStep(db, env, token, password);
    case RequestLink(_) =>
    case VerifyLink(token) => VerifyLinkStep(db, cfg, env, token);
    case RequestOtp(_) =>
    case VerifyOtp(phone, code) => VerifyOtpStep(db, cfg, env, phone, code);
    case Google(subject, email) => GoogleStep(db, cfg, env, subject, email);
    case Suspend(user, _) => RevokeOnlyRevokes(db.tokens, OwnedBy(user));
    case RevokeSessions(user) => RevokeOnlyRevokes(db.tokens, OwnedBy(user));
  }

  // ---- what a token step keeps ----------------------------------------------------------------

  lemma TokenStepGrows(users: seq<User>, tokens: seq<RefreshRow>, later: seq<RefreshRow>, env: Env)
    requires TokenStep(users, tokens, later, env)
    ensures Grows(tokens, later)
  {
    if !OnlyRevokes(tokens, later) {
      assert forall i :: 0 <= i < |tokens| ==> later[i] == later[..|tokens|][i];
    }
  }

  lemma TokenStepChains(users: seq<User>, tokens: seq<RefreshRow>, later: seq<RefreshRow>, env: Env)
    requires TokenStep(users, tokens, later, env) && Chains(tokens)
    requires forall i :: 0 <= i < |tokens| ==> tokens[i].family != env.family
    ensures Chains(later)
  {
    TokenStepGrows(users, tokens, later, env);
    if !OnlyRevokes(tokens, later) {
      var before, row := later[..|tokens|], later[|tokens|];
      forall i | 0 <= i < |tokens| && later[i].family == row.family
        ensures later[i].revoked && later[i].user == row.user
      {
        assert later[i] == before[i];
        var k :| 0 <= k < |tokens| && Rotates(tokens, before, k, row);
        assert before[k].revoked;
      }
    }
  }

  lemma TokenStepUnique(users: seq<User>, tokens: seq<RefreshRow>, later: seq<RefreshRow>, env: Env)
    requires TokenStep(users, tokens, later, env) && Unique(tokens)
    requires forall i :: 0 <= i < |tokens| ==> tokens[i].secret != env.secret
    ensures Unique(later)
  {
    TokenStepGrows(users, tokens, later, env);
  }

  lemma TokenStepDead(users: seq<User>, tokens: seq<RefreshRow>, later: seq<RefreshRow>, env: Env, family: Family)
    requires TokenStep(users, tokens, later, env) && Dead(tokens, family)
    requires forall i :: 0 <= i < |tokens| ==> tokens[i].family != env.family
    ensures Dead(later, family)
  {
    TokenStepGrows(users, tokens, later, env);
    var w :| 0 <= w < |tokens| && tokens[w].family == family;
    assert later[w].family == family;
  }

  // ---- who is locked out ------------------------------------------------------------------------

  /** Accounts are never removed, and only the admin's suspend handler changes who is suspended. */
  lemma HandleUsers(db: Db, cfg: Config, env: Env, request: Request)
    ensures var after := Handle(db, cfg, env, request).0;
            && |db.users| <= |after.users|
            && (forall u :: |db.users| <= u < |after.users| ==> !after.users[u].suspended)
            && (forall u :: 0 <= u < |db.users| && !(request.Suspend? && request.user == u) ==>
                 after.users[u].suspended == db.users[u].suspended)
  {
  }

  lemma TokenStepLockedOut(users: seq<User>, users': seq<User>, tokens: seq<RefreshRow>, later: seq<RefreshRow>, env: Env)
    requires LockedOut(users, tokens) && TokenStep(users', tokens, later, env)
    requires |users| <= |users'| && forall u :: 0 <= u < |users| ==> users'[u].suspended == users[u].suspended
    ensures LockedOut(users', later)
  {
    TokenStepGrows(users', tokens, later, env);
  }

  lemma SuspendLockedOut(db: Db, user: UserId, suspend: bool)
    requires LockedOut(db.users, db.tokens)
    ensures var after := HandleSuspend(db, user, suspend).0; LockedOut(after.users, after.tokens)
  {
    var after := HandleSuspend(db, user, suspend).0;
    forall i | 0 <= i < |after.tokens|
      ensures after.tokens[i].user < |after.users| && (after.users[after.tokens[i].user].suspended ==> after.tokens[i].revoked)
    {
      assert OwnedBy(user)(db.tokens[i]) <==> db.tokens[i].user == user;
    }
  }

  lemma HandleLockedOut(db: Db, cfg: Config, env: Env, request: Request)
    requires LockedOut(db.users, db.tokens)
    ensures var after := Handle(db, cfg, env, request).0; LockedOut(after.users, after.tokens)
  {
    if request.Suspend? {
      SuspendLockedOut(db, request.user, request.suspend);
    } else {
      var after := Handle(db, cfg, env, request).0;
      HandleTokenStep(db, cfg, env, request);
      HandleUsers(db, cfg, env, request);
      TokenStepLockedOut(db.users, after.users, db.tokens, after.tokens, env);
    }
  }

  lemma HandleSound(db: Db, cfg: Config, env: Env, request: Request)
    requires Sound(db) && Fresh(db, env)
    ensures Sound(Handle(db, cfg, env, request).0)
  {
    var after := Handle(db, cfg, env, request).0;
    HandleTokenStep(db, cfg, env, request);
    TokenStepChains(after.users, db.tokens, after.tokens, env);
    TokenStepUnique(after.users, db.tokens, after.tokens, env);
    HandleLockedOut(db, cfg, env, request);
  }

  // ---- theorems about runs ------------------------------------------------------------------------

  /** In every reachable state each family is a chain with one owner whose newest row alone may be
   active, and a suspended user has no active row. */
  lemma {:induction false} RunSound(db: Db, cfg: Config, calls: seq<Call>)
    requires Sound(db) && IsRun(db, cfg, calls)
    ensures Sound(Run(db, cfg, calls))
    decreases |calls|
  {
    if calls != [] {
      HandleSound(db, cfg, calls[0].env, calls[0].request);
      RunSound(Handle(db, cfg, calls[0].env, calls[0].request).0, cfg, calls[1..]);
    }
  }

  lemma GrowsTransitive(a: seq<RefreshRow>, b: seq<RefreshRow>, c: seq<RefreshRow>)
    requires Grows(a, b) && Grows(b, c)
    ensures Grows(a, c)
  {
  }

  /** Revocation is never undone. */
  lemma {:induction false} RunGrows(db: Db, cfg: Config, calls: seq<Call>)
    ensures Grows(db.tokens, Run(db, cfg, calls).tokens)
    decreases |calls|
  {
    if calls != [] {
      var next := Handle(db, cfg, calls[0].env, calls[0].request).0;
      HandleTokenStep(db, cfg, calls[0].env, calls[0].request);
      TokenStepGrows(next.users, db.tokens, next.tokens, calls[0].env);
      RunGrows(next, cfg, calls[1..]);
      GrowsTransitive(db.tokens, next.tokens, Run(db, cfg, calls).tokens);
    }
  }

  /** A family without an active row never gains one again. */
  lemma {:induction false} DeadStaysDead(db: Db, cfg: Config, calls: seq<Call>, family: Family)
    requires IsRun(db, cfg, calls) && Dead(db.tokens, family)
    ensures Dead(Run(db, cfg, calls).tokens, family)
    decreases |calls|
  {
    if calls != [] {
      var next := Handle(db, cfg, calls[0].env, calls[0].request).0;
      HandleTokenStep(db, cfg, calls[0].env, calls[0].request);
      TokenStepDead(next.users, db.tokens, next.tokens, calls[0].env, family);
      DeadStaysDead(next, cfg, calls[1..], family);
    }
  }

  lemma {:induction false} FindUnique(tokens: seq<RefreshRow>, i: nat)
    requires Unique(tokens) && i < |tokens|
    ensures Find(tokens, ByToken(tokens[i].secret)) == Some(i)
  {
    var k := Find(tokens, ByToken(tokens[i].secret));
    assert ByToken(tokens[i].secret)(tokens[i]);
  }

  /**
   Replay: presenting a revoked token issues nothing and ends its family, which no
   later sequence of calls brings back.
   */
  lemma ReplayKillsFamily(db: Db, cfg: Config, env: Env, i: nat, calls: seq<Call>)
    requires Sound(db) && i < |db.tokens| && db.tokens[i].revoked && db.tokens[i].secret != ""
    requires IsRun(HandleRefresh(db, cfg, env, db.tokens[i].secret).0, cfg, calls)
    ensures HandleRefresh(db, cfg, env, db.tokens[i].secret).1 == Invalid
    ensures Dead(Run(HandleRefresh(db, cfg, env, db.tokens[i].secret).0, cfg, calls).tokens, db.tokens[i].family)
  {
    FindUnique(db.tokens, i);
    var after := HandleRefresh(db, cfg, env, db.tokens[i].secret).0;
    var killed := InFamily(db.tokens[i].family);
    assert after.tokens == RevokeWhere(db.tokens, killed);
    assert forall k :: 0 <= k < |db.tokens| ==> (killed(db.tokens[k]) <==> db.tokens[k].family == db.tokens[i].family);
    assert after.tokens[i].family == db.tokens[i].family;
    DeadStaysDead(after, cfg, calls, db.tokens[i].family);
  }

  /** A rotation revokes the presented token and its family lives on in the one it returns. */
  lemma RefreshRotates(db: Db, cfg: Config, env: Env, i: nat)
    requires Sound(db) && Fresh(db, env) && i < |db.tokens| && db.tokens[i].secret != ""
    ensures var (after, response) := HandleRefresh(db, cfg, env, db.tokens[i].secret);
            (response.Session? <==> !db.tokens[i].revoked && env.now < db.tokens[i].expiresAt)
            && (response.Session? ==>
                 && response == Session(db.tokens[i].user, env.secret)
                 && after.tokens[..|db.tokens|] == db.tokens[i := db.tokens[i].(revoked := true)]
                 && |after.tokens| == |db.tokens| + 1
                 && after.tokens[|db.tokens|] ==
                      RefreshRow(db.tokens[i].user, env.secret, db.tokens[i].family, env.now + cfg.refreshExpiry * 1000, false))
  {
    FindUnique(db.tokens, i);
  }

  // ---- how long an issued token works --------------------------------------------------------------

  /** Is this a token of the family, as the tables know it? */
  predicate IsOfFamily(db: Db, token: Secret, family: Family) {
    var k := Find(db.tokens, ByToken(token));
    token != "" && k.Some? && db.tokens[k.value].family == family
  }

  predicate ResetsPassword(db: Db, now: int, token: Secret, user: UserId) {
    var k := Find(db.resets, BySecret(token));
    token != "" && k.Some? && Usable(db.resets[k.value], now) && db.resets[k.value].user == user
  }

  /** The request presents a token of the row's family, or revokes the sessions of its owner. */
  predicate Ends(db: Db, env: Env, request: Request, row: RefreshRow) {
    match request
    case Refresh(token) => IsOfFamily(db, token, row.family)
    case Logout(token) => IsOfFamily(db, token, row.family)
    case Reset(token, _) => ResetsPassword(db, env.now, token, row.user)
    case Suspend(user, suspend) => suspend && user == row.user
    case RevokeSessions(user) => user == row.user
    case _ => false
  }

  lemma RefreshEnds(db: Db, cfg: Config, env: Env, token: Secret, i: nat)
    requires Sound(db) && i < |db.tokens| && !db.tokens[i].revoked
    ensures HandleRefresh(db, cfg, env, token).0.tokens[i].revoked <==> IsOfFamily(db, token, db.tokens[i].family)
  {
    var k := Find(db.tokens, ByToken(token));
    if token != "" && k.Some? {
      var killed := InFamily(db.tokens[k.value].family);
      assert killed(db.tokens[i]) <==> db.tokens[i].family == db.tokens[k.value].family;
      if killed(db.tokens[i]) && i < k.value {
        assert false;
      }
    }
  }

  lemma RevokingEnds(tokens: seq<RefreshRow>, p: RefreshRow -> bool, i: nat)
    requires i < |tokens| && !tokens[i].revoked
    ensures RevokeWhere(tokens, p)[i].revoked <==> p(tokens[i])
  {
  }

  lemma LogoutEnds(db: Db, token: Secret, i: nat)
    requires i < |db.tokens| && !db.tokens[i].revoked
    ensures HandleLogout(db, token).0.tokens[i].revoked <==> IsOfFamily(db, token, db.tokens[i].family)
  {
    var k := Find(db.tokens, ByToken(token));
    if k.Some? {
      RevokingEnds(db.tokens, InFamily(db.tokens[k.value].family), i);
    }
  }

  lemma ResetEnds(db: Db, env: Env, token: Secret, password: string, i: nat)
    requires i < |db.tokens| && !db.tokens[i].revoked
    ensures HandleReset(db, env, token, password).0.tokens[i].revoked <==> ResetsPassword(db, env.now, token, db.tokens[i].user)
  {
    var k := Find(db.resets, BySecret(token));
    if k.Some? {
      RevokingEnds(db.tokens, OwnedBy(db.resets[k.value].user), i);
    }
  }

  /** An active row is revoked by exactly these requests. */
  lemma EndsExactly(db: Db, cfg: Config, env: Env, request: Request, i: nat)
    requires Sound(db) && i < |db.tokens| && !db.tokens[i].revoked
    ensures var after := Handle(db, cfg, env, request).0;
            i < |after.tokens| && (after.tokens[i].revoked <==> Ends(db, env, request, db.tokens[i]))
  {
    match request
    case Refresh(token) => RefreshEnds(db, cfg, env, token, i);
    case Logout(token) => LogoutEnds(db, token, i);
    case Reset(token, password) => ResetEnds(db, env, token, password, i);
    case Suspend(user, _) => RevokingEnds(db.tokens, OwnedBy(user), i);
    case RevokeSessions(user) => RevokingEnds(db.tokens, OwnedBy(user), i);
    case _ =>
  }

  /** Along the run, does some request end the row? */
  predicate EndsAlong(db: Db, cfg: Config, calls: seq<Call>, row: RefreshRow)
    decreases |calls|
  {
    calls != [] &&
    (Ends(db, calls[0].env, calls[0].request, row) || EndsAlong(Handle(db, cfg, calls[0].env, calls[0].request).0, cfg, calls[1..], row))
  }

  lemma {:induction false} ActiveUntilEnded(db: Db, cfg: Config, calls: seq<Call>, i: nat)
    requires Sound(db) && IsRun(db, cfg, calls) && i < |db.tokens| && !db.tokens[i].revoked
    ensures var later := Run(db, cfg, calls);
            i < |later.tokens| && (later.tokens[i].revoked <==> EndsAlong(db, cfg, calls, db.tokens[i]))
    decreases |calls|
  {
    if calls != [] {
      var next := Handle(db, cfg, calls[0].env, calls[0].request).0;
      HandleSound(db, cfg, calls[0].env, calls[0].request);
      EndsExactly(db, cfg, calls[0].env, calls[0].request, i);
      RunGrows(next, cfg, calls[1..]);
      if !next.tokens[i].revoked {
        HandleTokenStep(db, cfg, calls[0].env, calls[0].request);
        TokenStepGrows(next.users, db.tokens, next.tokens, calls[0].env);
        ActiveUntilEnded(next, cfg, calls[1..], i);
      }
    }
  }

  /** The row a session's token stands for. */
  predicate IsIssued(rows: seq<RefreshRow>, cfg: Config, env: Env, user: UserId) {
    rows != [] && var row := rows[|rows| - 1];
    row.user == user && row.secret == env.secret && row.expiresAt == env.now + cfg.refreshExpiry * 1000 && !row.revoked
  }

  /** Whichever request opens a session, its token is a new active row of that account. */
  lemma SessionIsIssued(db: Db, cfg: Config, env: Env, request: Request)
    requires Handle(db, cfg, env, request).1.Session?
    ensures var (after, response) := Handle(db, cfg, env, request);
            response.token == env.secret && IsIssued(after.tokens, cfg, env, response.user)
  {
  }

  /** Presenting a row's token while it is active, or not. */
  lemma PresentedToken(db: Db, cfg: Config, env: Env, i: nat)
    requires Sound(db) && i < |db.tokens| && db.tokens[i].secret != ""
    ensures HandleRefresh(db, cfg, env, db.tokens[i].secret).1 ==
              if !db.tokens[i].revoked && env.now < db.tokens[i].expiresAt then Session(db.tokens[i].user, env.secret) else Invalid
  {
    FindUnique(db.tokens, i);
  }

  lemma ActiveRowWorks(db: Db, cfg: Config, calls: seq<Call>, later: Env, i: nat)
    requires Sound(db) && IsRun(db, cfg, calls) && i < |db.tokens| && !db.tokens[i].revoked && db.tokens[i].secret != ""
    ensures HandleRefresh(Run(db, cfg, calls), cfg, later, db.tokens[i].secret).1 ==
              if later.now < db.tokens[i].expiresAt && !EndsAlong(db, cfg, calls, db.tokens[i])
              then Session(db.tokens[i].user, later.secret) else Invalid
  {
    ActiveUntilEnded(db, cfg, calls, i);
    RunSound(db, cfg, calls);
    RunGrows(db, cfg, calls);
    PresentedToken(Run(db, cfg, calls), cfg, later, i);
  }

  /**
   In every reachable state: the token of a session just response, presented after any further
   calls, opens a session for its account if it has not expired and none of the calls
   presented a token of its family or revoked its owner's sessions, and is invalid otherwise.
   */
  lemma IssuedTokenWorks(before: seq<Call>, db: Db, cfg: Config, call: Call, calls: seq<Call>, later: Env)
    requires IsRun(EMPTY, cfg, before) && db == Run(EMPTY, cfg, before) && Fresh(db, call.env)
    requires Handle(db, cfg, call.env, call.request).1.Session?
    requires IsRun(Handle(db, cfg, call.env, call.request).0, cfg, calls)
    ensures var (after, response) := Handle(db, cfg, call.env, call.request);
            && after.tokens != []
            && var row := after.tokens[|after.tokens| - 1];
            && row == RefreshRow(response.user, response.token, row.family, call.env.now + cfg.refreshExpiry * 1000, false)
            && Handle(Run(after, cfg, calls), cfg, later, Refresh(response.token)).1 ==
                 if later.now < row.expiresAt && !EndsAlong(after, cfg, calls, row) then Session(response.user, later.secret) else Invalid
  {
    var (after, response) := Handle(db, cfg, call.env, call.request);
    RunSound(EMPTY, cfg, before);
    HandleSound(db, cfg, call.env, call.request);
    SessionIsIssued(db, cfg, call.env, call.request);
    ActiveRowWorks(after, cfg, calls, later, |after.tokens| - 1);
  }

  predicate Unsuspends(calls: seq<Call>, user: UserId) {
    exists k :: 0 <= k < |calls| && calls[k].request == Suspend(user, false)
  }

  lemma {:induction false} StaysSuspended(db: Db, cfg: Config, calls: seq<Call>, user: UserId)
    requires user < |db.users| && db.users[user].suspended && !Unsuspends(calls, user)
    ensures user < |Run(db, cfg, calls).users| && Run(db, cfg, calls).users[user].suspended
    decreases |calls|
  {
    if calls != [] {
      HandleUsers(db, cfg, calls[0].env, calls[0].request);
      assert calls[0].request != Suspend(user, false);
      assert forall k :: 0 <= k < |calls[1..]| ==> calls[1..][k] == calls[k + 1];
      StaysSuspended(Handle(db, cfg, calls[0].env, calls[0].request).0, cfg, calls[1..], user);
    }
  }

  /**
   After the admin suspends a user, no sequence of sign-ins, refreshes, logouts and
   resets gives the user an active refresh token, until the admin unsuspends them.
   */
  lemma SuspensionLocksOut(db: Db, cfg: Config, user: UserId, calls: seq<Call>)
    requires Sound(db) && user < |db.users|
    requires IsRun(HandleSuspend(db, user, true).0, cfg, calls) && !Unsuspends(calls, user)
    ensures var later := Run(HandleSuspend(db, user, true).0, cfg, calls);
            forall i :: 0 <= i < |later.tokens| && later.tokens[i].user == user ==> later.tokens[i].revoked
  {
    var after := HandleSuspend(db, user, true).0;
    SuspendSound(db, user);
    RunSound(after, cfg, calls);
    StaysSuspended(after, cfg, calls, user);
  }

  lemma SuspendSound(db: Db, user: UserId)
    requires Sound(db) && user < |db.users|
    ensures Sound(HandleSuspend(db, user, true).0)
    ensures HandleSuspend(db, user, true).0.users[user].suspended
  {
    RevokeOnlyRevokes(db.tokens, OwnedBy(user));
    SuspendLockedOut(db, user, true);
  }

  // ---- single-use links and guess limits --------------------------------------------------------

  /** Rows stay, and change by being used only. */
  ghost predicate OnlyUsed(rows: seq<SingleUseRow>, later: seq<SingleUseRow>) {
    && |rows| <= |later|
    && forall i :: 0 <= i < |rows| ==> later[i] == rows[i] || later[i] == rows[i].(used := true)
  }

  lemma HandleLinks(db: Db, cfg: Config, env: Env, request: Request)
    ensures OnlyUsed(db.links, Handle(db, cfg, env, request).0.links)
  {
  }

  ghost predicate SecretsUnique(rows: seq<SingleUseRow>) {
    forall i, j :: 0 <= i < j < |rows| ==> rows[i].secret != rows[j].secret
  }

  lemma HandleLinksUnique(db: Db, cfg: Config, env: Env, request: Request)
    requires SecretsUnique(db.links) && Fresh(db, env)
    ensures SecretsUnique(Handle(db, cfg, env, request).0.links)
  {
  }

  lemma {:induction false} UsedLinkStaysUsed(db: Db, cfg: Config, calls: seq<Call>, i: nat)
    requires IsRun(db, cfg, calls) && SecretsUnique(db.links) && i < |db.links| && db.links[i].used
    ensures var later := Run(db, cfg, calls);
            SecretsUnique(later.links) && i < |later.links| && later.links[i] == db.links[i]
    decreases |calls|
  {
    if calls != [] {
      HandleLinks(db, cfg, calls[0].env, calls[0].request);
      HandleLinksUnique(db, cfg, calls[0].env, calls[0].request);
      UsedLinkStaysUsed(Handle(db, cfg, calls[0].env, calls[0].request).0, cfg, calls[1..], i);
    }
  }

  lemma {:induction false} RunLinksUnique(db: Db, cfg: Config, calls: seq<Call>)
    requires IsRun(db, cfg, calls) && SecretsUnique(db.links)
    ensures SecretsUnique(Run(db, cfg, calls).links)
    decreases |calls|
  {
    if calls != [] {
      HandleLinksUnique(db, cfg, calls[0].env, calls[0].request);
      RunLinksUnique(Handle(db, cfg, calls[0].env, calls[0].request).0, cfg, calls[1..]);
    }
  }

  /**
   A magic link that opened a session, in any reachable state, opens no second one,
   however many calls come between.
   */
  lemma LinkSignsInOnce(before: seq<Call>, db: Db, cfg: Config, env: Env, token: Secret, calls: seq<Call>, env': Env)
    requires IsRun(EMPTY, cfg, before) && db == Run(EMPTY, cfg, before)
    requires HandleVerifyLink(db, cfg, env, token).1.Session?
    requires IsRun(HandleVerifyLink(db, cfg, env, token).0, cfg, calls)
    ensures HandleVerifyLink(Run(HandleVerifyLink(db, cfg, env, token).0, cfg, calls), cfg, env', token).1 == Invalid
  {
    RunLinksUnique(EMPTY, cfg, before);
    UniqueLinkSignsInOnce(db, cfg, env, token, calls, env');
  }

  lemma UniqueLinkSignsInOnce(db: Db, cfg: Config, env: Env, token: Secret, calls: seq<Call>, env': Env)
    requires SecretsUnique(db.links)
    requires HandleVerifyLink(db, cfg, env, token).1.Session?
    requires IsRun(HandleVerifyLink(db, cfg, env, token).0, cfg, calls)
    ensures HandleVerifyLink(Run(HandleVerifyLink(db, cfg, env, token).0, cfg, calls), cfg, env', token).1 == Invalid
  {
    var i := Find(db.links, BySecret(token)).value;
    var after := HandleVerifyLink(db, cfg, env, token).0;
    assert after.links == db.links[i := db.links[i].(used := true)];
    UsedLinkStaysUsed(after, cfg, calls, i);
    FindUniqueLink(Run(after, cfg, calls).links, i);
  }

  lemma FindUniqueLink(rows: seq<SingleUseRow>, i: nat)
    requires SecretsUnique(rows) && i < |rows|
    ensures Find(rows, BySecret(rows[i].secret)) == Some(i)
  {
    var k := Find(rows, BySecret(rows[i].secret));
    assert BySecret(rows[i].secret)(rows[i]);
  }

  // ---- password resets ------------------------------------------------------------------------------

  lemma HandleResets(db: Db, cfg: Config, env: Env, request: Request)
    ensures OnlyUsed(db.resets, Handle(db, cfg, env, request).0.resets)
  {
  }

  lemma HandleResetsUnique(db: Db, cfg: Config, env: Env, request: Request)
    requires SecretsUnique(db.resets) && Fresh(db, env)
    ensures SecretsUnique(Handle(db, cfg, env, request).0.resets)
  {
  }

  lemma {:induction false} RunResets(db: Db, cfg: Config, calls: seq<Call>)
    requires IsRun(db, cfg, calls) && SecretsUnique(db.resets)
    ensures SecretsUnique(Run(db, cfg, calls).resets) && OnlyUsed(db.resets, Run(db, cfg, calls).resets)
    decreases |calls|
  {
    if calls != [] {
      var next := Handle(db, cfg, calls[0].env, calls[0].request).0;
      HandleResets(db, cfg, calls[0].env, calls[0].request);
      HandleResetsUnique(db, cfg, calls[0].env, calls[0].request);
      RunResets(next, cfg, calls[1..]);
      OnlyUsedTransitive(db.resets, next.resets, Run(db, cfg, calls).resets);
    }
  }

  lemma OnlyUsedTransitive(a: seq<SingleUseRow>, b: seq<SingleUseRow>, c: seq<SingleUseRow>)
    requires OnlyUsed(a, b) && OnlyUsed(b, c)
    ensures OnlyUsed(a, c)
  {
  }

  /**
   In every reachable state a reset, when it succeeds, sets the password of the account its
   token was made for, leaves that account no active session, and does not succeed again
   with that token, whatever calls come between.
   */
  lemma ResetWorksOnce(before: seq<Call>, db: Db, cfg: Config, env: Env, token: Secret, password: string,
                       calls: seq<Call>, env': Env, password': string)
    requires IsRun(EMPTY, cfg, before) && db == Run(EMPTY, cfg, before)
    requires HandleReset(db, env, token, password).1 == Done
    requires IsRun(HandleReset(db, env, token, password).0, cfg, calls)
    ensures exists i :: 0 <= i < |db.resets| && db.resets[i].secret == token &&
              IsResetBy(db, HandleReset(db, env, token, password).0, db.resets[i].user, password)
    ensures HandleReset(Run(HandleReset(db, env, token, password).0, cfg, calls), env', token, password').1 == Invalid
  {
    RunResets(EMPTY, cfg, before);
    var i := Find(db.resets, BySecret(token)).value;
    var after := HandleReset(db, env, token, password).0;
    assert after.resets == db.resets[i := db.resets[i].(used := true)];
    assert IsResetBy(db, after, db.resets[i].user, password);
    RunResets(after, cfg, calls);
    FindUniqueLink(Run(after, cfg, calls).resets, i);
  }

  /** The account has the new password and no active session; every other account and session is as it was. */
  ghost predicate IsResetBy(db: Db, after: Db, user: UserId, password: string) {
    && |after.users| == |db.users| && |after.tokens| == |db.tokens|
    && (forall u :: 0 <= u < |db.users| ==>
          after.users[u] == if u == user then db.users[u].(password := Some(password)) else db.users[u])
    && (forall k :: 0 <= k < |db.tokens| ==>
          after.tokens[k] == if db.tokens[k].user == user then db.tokens[k].(revoked := true) else db.tokens[k])
  }

  // ---- accounts ---------------------------------------------------------------------------------------

  predicate Differ(a: Option<string>, b: Option<string>) {
    a.None? || a != b
  }

  /** No two accounts share a user name, an address or a phone number. */
  ghost predicate AccountsUnique(users: seq<User>) {
    forall i, j :: 0 <= i < j < |users| ==>
      Differ(users[i].username, users[j].username) && Differ(users[i].email, users[j].email) && Differ(users[i].phone, users[j].phone)
  }

  /** Nobody has the user name, the address or the phone number of `u`. */
  ghost predicate IsNewcomer(users: seq<User>, u: User) {
    && (u.username.Some? ==> Find(users, ByUsername(u.username.value)).None?)
    && (u.email.Some? ==> Find(users, ByEmail(u.email.value)).None?)
    && (u.phone.Some? ==> Find(users, ByPhone(u.phone.value)).None?)
  }

  lemma NewcomerUnique(users: seq<User>, u: User)
    requires AccountsUnique(users) && IsNewcomer(users, u)
    ensures AccountsUnique(users + [u])
  {
    forall i | 0 <= i < |users|
      ensures Differ(users[i].username, u.username) && Differ(users[i].email, u.email) && Differ(users[i].phone, u.phone)
    {
      assert u.username.Some? ==> !ByUsername(u.username.value)(users[i]);
      assert u.email.Some? ==> !ByEmail(u.email.value)(users[i]);
      assert u.phone.Some? ==> !ByPhone(u.phone.value)(users[i]);
    }
  }

  /** The same accounts, but for passwords and suspensions. */
  ghost predicate SameNames(users: seq<User>, later: seq<User>) {
    |later| == |users| && forall i :: 0 <= i < |users| ==>
      later[i].username == users[i].username && later[i].email == users[i].email && later[i].phone == users[i].phone
  }

  /** The account that a request may create. */
  function Newcomer(request: Request): User {
    match request
    case Signup(username, password, email) => User(Some(username), Some(password), email, None, false)
    case RequestLink(email) => User(None, None, Some(email), None, false)
    case RequestOtp(phone) => User(None, None, None, Some(phone), false)
    case Google(_, email) => User(None, None, email, None, false)
    case _ => User(None, None, None, None, false)
  }

  /** Every handler leaves the names alone, or adds one newcomer. */
  lemma HandleNames(db: Db, cfg: Config, env: Env, request: Request)
    ensures var users := Handle(db, cfg, env, request).0.users;
            || SameNames(db.users, users)
            || (users == db.users + [Newcomer(request)] && IsNewcomer(db.users, Newcomer(request)))
  {
  }

  /** In every reachable state no two accounts share a user name, an address or a phone number. */
  lemma {:induction false} RunAccountsUnique(db: Db, cfg: Config, calls: seq<Call>)
    requires AccountsUnique(db.users)
    ensures AccountsUnique(Run(db, cfg, calls).users)
    decreases |calls|
  {
    if calls != [] {
      var next := Handle(db, cfg, calls[0].env, calls[0].request).0;
      HandleNames(db, cfg, calls[0].env, calls[0].request);
      if !SameNames(db.users, next.users) {
        NewcomerUnique(db.users, Newcomer(calls[0].request));
      }
      RunAccountsUnique(next, cfg, calls[1..]);
    }
  }

  /** A user name and a password open a session of the account that has them, and of no other. */
  lemma PasswordSignsIn(before: seq<Call>, db: Db, cfg: Config, env: Env, user: UserId, password: string)
    requires db == Run(EMPTY, cfg, before) && user < |db.users| && db.users[user].username.Some?
    ensures var row := db.users[user];
            HandleToken(db, cfg, env, row.username.value, password).1 ==
              if row.username.value == "" || password == "" || row.password != Some(password) then Invalid
              else if row.suspended then SuspendedAccount
              else Session(user, env.secret)
  {
    RunAccountsUnique(EMPTY, cfg, before);
    var name := db.users[user].username.value;
    assert ByUsername(name)(db.users[user]);
    assert Find(db.users, ByUsername(name)) == Some(user);
  }

  /** An identity, once known, stays with its account. */
  lemma {:induction false} IdentityStays(db: Db, cfg: Config, calls: seq<Call>, subject: string)
    requires subject in db.identities && db.identities[subject] < |db.users|
    ensures var later := Run(db, cfg, calls);
            subject in later.identities && later.identities[subject] == db.identities[subject] < |later.users|
    decreases |calls|
  {
    if calls != [] {
      HandleUsers(db, cfg, calls[0].env, calls[0].request);
      HandleIdentities(db, cfg, calls[0].env, calls[0].request, subject);
      IdentityStays(Handle(db, cfg, calls[0].env, calls[0].request).0, cfg, calls[1..], subject);
    }
  }

  lemma HandleIdentities(db: Db, cfg: Config, env: Env, request: Request, subject: string)
    requires subject in db.identities
    ensures var after := Handle(db, cfg, env, request).0;
            subject in after.identities && after.identities[subject] == db.identities[subject]
  {
  }

  /** Once Google has opened a session for an identity, it opens sessions of that account only. */
  lemma GoogleReturnsToAccount(db: Db, cfg: Config, env: Env, subject: string, email: Option<string>,
                               calls: seq<Call>, env': Env, email': Option<string>)
    requires HandleGoogle(db, cfg, env, subject, email).1.Session?
    ensures var (after, response) := HandleGoogle(db, cfg, env, subject, email);
            var later := Run(after, cfg, calls);
            && response.user < |later.users|
            && HandleGoogle(later, cfg, env', subject, email').1 ==
                 if later.users[response.user].suspended then SuspendedAccount else Session(response.user, env'.secret)
  {
    IdentityStays(HandleGoogle(db, cfg, env, subject, email).0, cfg, calls, subject);
  }

  // ---- what a forgotten password gives away ------------------------------------------------------

  /** Is the answer the same whatever accounts there are? */
  ghost predicate ForgotAnswersAlike(cfg: Config) {
    forall db, db', env, username, email ::
      HandleForgot(db, cfg, env, username, email).1 == HandleForgot(db', cfg, env, username, email).1
  }

  /** Asking for a reset tells nothing about accounts exactly when the token is not shown to the caller. */
  lemma ForgotAnswersAlikeExactly(cfg: Config)
    ensures ForgotAnswersAlike(cfg) <==> !cfg.showsReset
  {
    if cfg.showsReset {
      var name := "a";
      var user := User(Some(name), None, None, None, false);
      var db, env := EMPTY.(users := [user]), Env(0, "", 0, "");
      assert ByUsername(name)(db.users[0]);
      assert HandleForgot(db, cfg, env, name, "").1 == Shown("");
      assert HandleForgot(EMPTY, cfg, env, name, "").1 == Done;
    }
  }

  /** No code is ever tested against more wrong guesses than allowed. */
  ghost predicate GuessesBounded(db: Db, cfg: Config) {
    forall i :: 0 <= i < |db.otps| ==> db.otps[i].attempts <= cfg.otpMaxAttempts
  }

  lemma HandleGuesses(db: Db, cfg: Config, env: Env, request: Request)
    requires GuessesBounded(db, cfg)
    ensures GuessesBounded(Handle(db, cfg, env, request).0, cfg)
  {
  }

  lemma {:induction false} GuessesStayBounded(db: Db, cfg: Config, calls: seq<Call>)
    requires GuessesBounded(db, cfg)
    ensures GuessesBounded(Run(db, cfg, calls), cfg)
    decreases |calls|
  {
    if calls != [] {
      HandleGuesses(db, cfg, calls[0].env, calls[0].request);
      GuessesStayBounded(Handle(db, cfg, calls[0].env, calls[0].request).0, cfg, calls[1..]);
    }
  }
}
