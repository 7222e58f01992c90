/**
 What codes, links, resets and sign-ups are good for: each from the request that makes it,
 through any calls, to the request that uses it.
 */
module AuthLaws {
  import opened Seqs
  import opened AuthModel
  import opened AuthTheorems

  // ---- runs in parts ------------------------------------------------------------------

  lemma {:induction false} RunConcat(db: Db, cfg: Config, a: seq<Call>, b: seq<Call>)
    ensures Run(db, cfg, a + b) == Run(Run(db, cfg, a), cfg, b)
    decreases |a|
  {
    if a == [] {
      assert a + b == b;
    } else {
      assert (a + b)[1..] == a[1..] + b;
      RunConcat(Handle(db, cfg, a[0].env, a[0].request).0, cfg, a[1..], b);
    }
  }

  lemma RunOne(db: Db, cfg: Config, call: Call)
    ensures Run(db, cfg, [call]) == Handle(db, cfg, call.env, call.request).0
  {
    assert [call][1..] == [];
  }

  /** In every reachable state and after any further calls, accounts are told apart by their names. */
  lemma LaterAccountsUnique(before: seq<Call>, db: Db, cfg: Config, env: Env, request: Request, after: Db, calls: seq<Call>, later: Db)
    requires db == Run(EMPTY, cfg, before) && after == Handle(db, cfg, env, request).0 && later == Run(after, cfg, calls)
    ensures AccountsUnique(later.users)
  {
    RunAccountsUnique(EMPTY, cfg, before);
    RunAccountsUnique(db, cfg, [Call(env, request)]);
    RunOne(db, cfg, Call(env, request));
    RunAccountsUnique(after, cfg, calls);
  }

  /** Accounts keep their places and names. */
  ghost predicate KeepsNames(users: seq<User>, later: seq<User>) {
    |users| <= |later| && forall u :: 0 <= u < |users| ==>
      later[u].username == users[u].username && later[u].email == users[u].email && later[u].phone == users[u].phone
  }

  lemma {:induction false} RunKeepsNames(db: Db, cfg: Config, calls: seq<Call>)
    ensures KeepsNames(db.users, Run(db, cfg, calls).users)
    decreases |calls|
  {
    if calls != [] {
      HandleNames(db, cfg, calls[0].env, calls[0].request);
      RunKeepsNames(Handle(db, cfg, calls[0].env, calls[0].request).0, cfg, calls[1..]);
    }
  }

  // ---- codes sent to a phone ------------------------------------------------------------

  /** Row `j` is the latest code of its phone, and has not been used. */
  ghost predicate IsPending(db: Db, j: nat, row: OtpRow) {
    && j < |db.otps| && db.otps[j] == row && !row.used
    && forall k :: j < k < |db.otps| ==> db.otps[k].phone != row.phone
  }

  lemma {:induction false} LatestIs<T>(rows: seq<T>, p: T -> bool, j: nat)
    requires j < |rows| && p(rows[j]) && forall k :: j < k < |rows| ==> !p(rows[k])
    ensures FindLast(rows, p) == Some(j)
  {
    if j < |rows| - 1 {
      LatestIs(rows[..|rows| - 1], p, j);
    }
  }

  lemma PendingIsFound(db: Db, j: nat, row: OtpRow)
    requires IsPending(db, j, row)
    ensures FindLast(db.otps, UnusedFor(row.phone)) == Some(j)
  {
    LatestIs(db.otps, UnusedFor(row.phone), j);
  }

  /** A try of a code that is still open: it costs an attempt, or succeeds. */
  predicate IsTry(cfg: Config, env: Env, request: Request, row: OtpRow) {
    && request.VerifyOtp? && request.phone == row.phone && request.code != ""
    && env.now < row.expiresAt && row.attempts < cfg.otpMaxAttempts
  }

  /** The latest code signs in when it is the right one, and is used up by that; a wrong one only costs an attempt. */
  lemma CodeIsChecked(db: Db, cfg: Config, env: Env, x: string, j: nat, row: OtpRow)
    requires IsPending(db, j, row) && row.user < |db.users|
    ensures var (after, response) := HandleVerifyOtp(db, cfg, env, row.phone, x);
            if !IsTry(cfg, env, VerifyOtp(row.phone, x), row) then after == db && response == Invalid
            else if x != row.code then after == db.(otps := db.otps[j := row.(attempts := row.attempts + 1)]) && response == Invalid
            else after.otps == db.otps[j := row.(used := true)]
                 && response == if db.users[row.user].suspended then SuspendedAccount else Session(row.user, env.secret)
  {
    PendingIsFound(db, j, row);
  }

  lemma OtherOtps(db: Db, cfg: Config, env: Env, request: Request)
    requires !request.RequestOtp? && !request.VerifyOtp?
    ensures Handle(db, cfg, env, request).0.otps == db.otps
  {
  }

  lemma OtherPhone(db: Db, cfg: Config, env: Env, phone: string, x: string, j: nat, row: OtpRow)
    requires IsPending(db, j, row) && phone != row.phone
    ensures IsPending(HandleVerifyOtp(db, cfg, env, phone, x).0, j, row)
    ensures IsPending(HandleRequestOtp(db, cfg, env, phone).0, j, row)
  {
  }

  /** Neither asked for again nor presented, the code stays pending; wrong tries are counted. */
  lemma StaysPending(db: Db, cfg: Config, call: Call, j: nat, row: OtpRow)
    requires IsPending(db, j, row) && row.user < |db.users|
    requires call.request != RequestOtp(row.phone) && call.request != VerifyOtp(row.phone, row.code)
    ensures IsPending(Handle(db, cfg, call.env, call.request).0, j,
                      if IsTry(cfg, call.env, call.request, row) then row.(attempts := row.attempts + 1) else row)
  {
    match call.request
    case RequestOtp(phone) => OtherPhone(db, cfg, call.env, phone, "", j, row);
    case VerifyOtp(phone, x) =>
      if phone == row.phone {
        CodeIsChecked(db, cfg, call.env, x, j, row);
      } else {
        OtherPhone(db, cfg, call.env, phone, x, j, row);
      }
    case _ => OtherOtps(db, cfg, call.env, call.request);
  }

  /** How many calls tried a code of the phone before it expired. */
  function Tries(calls: seq<Call>, phone: string, expiresAt: int): nat
    decreases |calls|
  {
    if calls == [] then 0
    else
      var c := calls[0];
      (if c.request.VerifyOtp? && c.request.phone == phone && c.request.code != "" && c.env.now < expiresAt then 1 else 0)
      + Tries(calls[1..], phone, expiresAt)
  }

  /** No call asks for a new code, nor presents this one. */
  predicate LeavesCode(calls: seq<Call>, phone: string, code: string) {
    forall k :: 0 <= k < |calls| ==> calls[k].request != RequestOtp(phone) && calls[k].request != VerifyOtp(phone, code)
  }

  function Least(a: int, b: int): int {
    if a < b then a else b
  }

  lemma {:induction false} RunStaysPending(db: Db, cfg: Config, calls: seq<Call>, j: nat, row: OtpRow)
    requires IsPending(db, j, row) && row.user < |db.users| && row.attempts <= cfg.otpMaxAttempts
    requires LeavesCode(calls, row.phone, row.code)
    ensures IsPending(Run(db, cfg, calls), j,
                      row.(attempts := Least(cfg.otpMaxAttempts, row.attempts + Tries(calls, row.phone, row.expiresAt))))
    decreases |calls|
  {
    if calls != [] {
      var c := calls[0];
      var next := Handle(db, cfg, c.env, c.request).0;
      var row' := if IsTry(cfg, c.env, c.request, row) then row.(attempts := row.attempts + 1) else row;
      StaysPending(db, cfg, c, j, row);
      HandleUsers(db, cfg, c.env, c.request);
      RunStaysPending(next, cfg, calls[1..], j, row');
    }
  }

  lemma PendingSignsIn(db: Db, cfg: Config, calls: seq<Call>, later: Db, j: nat, row: OtpRow, env: Env, x: string)
    requires IsPending(db, j, row) && row.user < |db.users| && row.attempts == 0
    requires LeavesCode(calls, row.phone, row.code) && later == Run(db, cfg, calls)
    ensures row.user < |later.users|
    ensures Handle(later, cfg, env, VerifyOtp(row.phone, x)).1 ==
              if x != row.code || x == "" || row.expiresAt <= env.now || Tries(calls, row.phone, row.expiresAt) >= cfg.otpMaxAttempts then Invalid
              else if later.users[row.user].suspended then SuspendedAccount
              else Session(row.user, env.secret)
  {
    RunStaysPending(db, cfg, calls, j, row);
    RunKeepsNames(db, cfg, calls);
    CodeIsChecked(later, cfg, env, x, j, row.(attempts := Least(cfg.otpMaxAttempts, Tries(calls, row.phone, row.expiresAt))));
  }

  /** The code that a request makes, for the account with that phone. */
  lemma CodeIsMade(db: Db, cfg: Config, env: Env, phone: string, asked: Db) returns (user: UserId, row: OtpRow)
    requires asked == Handle(db, cfg, env, RequestOtp(phone)).0
    ensures user < |asked.users| && asked.users[user].phone == Some(phone) && IsPending(asked, |db.otps|, row)
    ensures row.user == user && row.phone == phone && row.code == env.code && row.attempts == 0
    ensures row.expiresAt == env.now + cfg.otpExpiry * 1000
  {
    var i := Find(db.users, ByPhone(phone));
    user := if i.Some? then i.value else |db.users|;
    row := OtpRow(user, phone, env.code, env.now + cfg.otpExpiry * 1000, 0, false);
  }

  /**
   In every reachable state, a code that was asked for, verified after any calls that neither
   ask for another nor present it, opens a session of the one account with that phone if it
   is the code drawn, not expired, fewer tries than the limit were made and the account is
   not suspended; any other code is invalid.
   */
  lemma CodeSignsInExactly(before: seq<Call>, db: Db, cfg: Config, env: Env, phone: string, asked: Db, calls: seq<Call>, later: Db,
                           env': Env, x: string) returns (user: UserId)
    requires db == Run(EMPTY, cfg, before) && asked == Handle(db, cfg, env, RequestOtp(phone)).0
    requires LeavesCode(calls, phone, env.code) && later == Run(asked, cfg, calls)
    ensures user < |later.users| && later.users[user].phone == Some(phone) && AccountsUnique(later.users)
    ensures Handle(later, cfg, env', VerifyOtp(phone, x)).1 ==
              if x != env.code || x == "" || env.now + cfg.otpExpiry * 1000 <= env'.now
                 || Tries(calls, phone, env.now + cfg.otpExpiry * 1000) >= cfg.otpMaxAttempts then Invalid
              else if later.users[user].suspended then SuspendedAccount
              else Session(user, env'.secret)
  {
    LaterAccountsUnique(before, db, cfg, env, RequestOtp(phone), asked, calls, later);
    user := AskedCodeSignsIn(db, cfg, env, phone, asked, calls, later, env', x);
  }

  lemma AskedCodeSignsIn(db: Db, cfg: Config, env: Env, phone: string, asked: Db, calls: seq<Call>, later: Db, env': Env, x: string)
      returns (user: UserId)
    requires asked == Handle(db, cfg, env, RequestOtp(phone)).0 && LeavesCode(calls, phone, env.code) && later == Run(asked, cfg, calls)
    ensures user < |later.users| && later.users[user].phone == Some(phone)
    ensures Handle(later, cfg, env', VerifyOtp(phone, x)).1 ==
              if x != env.code || x == "" || env.now + cfg.otpExpiry * 1000 <= env'.now
                 || Tries(calls, phone, env.now + cfg.otpExpiry * 1000) >= cfg.otpMaxAttempts then Invalid
              else if later.users[user].suspended then SuspendedAccount
              else Session(user, env'.secret)
  {
    var row: OtpRow;
    user, row := CodeIsMade(db, cfg, env, phone, asked);
    MadeCodeSignsIn(asked, cfg, calls, later, |db.otps|, row, env', x);
  }

  lemma MadeCodeSignsIn(db: Db, cfg: Config, calls: seq<Call>, later: Db, j: nat, row: OtpRow, env: Env, x: string)
    requires IsPending(db, j, row) && row.user < |db.users| && db.users[row.user].phone == Some(row.phone) && row.attempts == 0
    requires LeavesCode(calls, row.phone, row.code) && later == Run(db, cfg, calls)
    ensures row.user < |later.users| && later.users[row.user].phone == Some(row.phone)
    ensures Handle(later, cfg, env, VerifyOtp(row.phone, x)).1 ==
              if x != row.code || x == "" || row.expiresAt <= env.now || Tries(calls, row.phone, row.expiresAt) >= cfg.otpMaxAttempts then Invalid
              else if later.users[row.user].suspended then SuspendedAccount
              else Session(row.user, env.secret)
  {
    RunKeepsNames(db, cfg, calls);
    PendingSignsIn(db, cfg, calls, later, j, row, env, x);
  }

  // ---- magic links -----------------------------------------------------------------------------

  /** Some call presented the link while it was good. */
  predicate LinkWasUsed(calls: seq<Call>, token: Secret, expiresAt: int) {
    exists k :: 0 <= k < |calls| && calls[k].request == VerifyLink(token) && calls[k].env.now < expiresAt
  }

  lemma OtherLinks(db: Db, cfg: Config, env: Env, request: Request)
    requires !request.VerifyLink?
    ensures db.links <= Handle(db, cfg, env, request).0.links
  {
  }

  lemma LinkUse(db: Db, cfg: Config, call: Call, i: nat)
    requires SecretsUnique(db.links) && i < |db.links| && db.links[i].secret != ""
    ensures var after, row := Handle(db, cfg, call.env, call.request).0, db.links[i];
            && i < |after.links|
            && after.links[i] == row.(used := row.used || (call.request == VerifyLink(row.secret) && call.env.now < row.expiresAt))
  {
    if call.request.VerifyLink? {
      FindUniqueLink(db.links, i);
    } else {
      OtherLinks(db, cfg, call.env, call.request);
    }
  }

  lemma {:induction false} RunLinkUse(db: Db, cfg: Config, calls: seq<Call>, i: nat)
    requires IsRun(db, cfg, calls) && SecretsUnique(db.links) && i < |db.links| && db.links[i].secret != ""
    ensures var later, row := Run(db, cfg, calls), db.links[i];
            && SecretsUnique(later.links) && i < |later.links|
            && later.links[i] == row.(used := row.used || LinkWasUsed(calls, row.secret, row.expiresAt))
    decreases |calls|
  {
    if calls != [] {
      var row := db.links[i];
      LinkUse(db, cfg, calls[0], i);
      HandleLinksUnique(db, cfg, calls[0].env, calls[0].request);
      RunLinkUse(Handle(db, cfg, calls[0].env, calls[0].request).0, cfg, calls[1..], i);
      assert LinkWasUsed(calls, row.secret, row.expiresAt) <==>
        (calls[0].request == VerifyLink(row.secret) && calls[0].env.now < row.expiresAt) || LinkWasUsed(calls[1..], row.secret, row.expiresAt) by {
        assert forall k :: 0 <= k < |calls[1..]| ==> calls[1..][k] == calls[k + 1];
      }
    }
  }

  lemma LinkIsMade(db: Db, cfg: Config, env: Env, email: string) returns (user: UserId)
    ensures var after := HandleRequestLink(db, cfg, env, email).0;
            && user < |after.users| && after.users[user].email == Some(email)
            && after.links == db.links + [SingleUseRow(user, env.secret, env.now + cfg.linkExpiry * 1000, false)]
  {
    var i := Find(db.users, ByEmail(email));
    user := if i.Some? then i.value else |db.users|;
  }

  ghost predicate HasEmail(users: seq<User>, email: string) {
    exists u :: 0 <= u < |users| && users[u].email == Some(email)
  }

  ghost predicate HasPhone(users: seq<User>, phone: string) {
    exists u :: 0 <= u < |users| && users[u].phone == Some(phone)
  }

  /**
   Asking for a link makes an account for an address that has none, adds a link and touches
   nothing else; the answer shows the link only if links are delivered that way.
   */
  lemma LinkRequestIsExact(db: Db, cfg: Config, env: Env, email: string)
    ensures var (after, response) := Handle(db, cfg, env, RequestLink(email));
            && after.users == (if HasEmail(db.users, email) then db.users else db.users + [User(None, None, Some(email), None, false)])
            && |after.links| == |db.links| + 1 && after == db.(users := after.users, links := after.links)
            && response == if cfg.showsLink then Shown(env.secret) else Done
  {
    var i := Find(db.users, ByEmail(email));
    if HasEmail(db.users, email) {
      var u :| 0 <= u < |db.users| && db.users[u].email == Some(email);
      assert ByEmail(email)(db.users[u]);
    }
  }

  /** The same of asking for a code by phone. */
  lemma CodeRequestIsExact(db: Db, cfg: Config, env: Env, phone: string)
    ensures var (after, response) := Handle(db, cfg, env, RequestOtp(phone));
            && after.users == (if HasPhone(db.users, phone) then db.users else db.users + [User(None, None, None, Some(phone), false)])
            && |after.otps| == |db.otps| + 1 && after == db.(users := after.users, otps := after.otps)
            && response == if cfg.showsOtp then Shown(env.code) else Done
  {
    var i := Find(db.users, ByPhone(phone));
    if HasPhone(db.users, phone) {
      var u :| 0 <= u < |db.users| && db.users[u].phone == Some(phone);
      assert ByPhone(phone)(db.users[u]);
    }
  }

  lemma LinkIsChecked(db: Db, cfg: Config, env: Env, i: nat)
    requires SecretsUnique(db.links) && i < |db.links| && db.links[i].secret != "" && db.links[i].user < |db.users|
    ensures var row := db.links[i];
            HandleVerifyLink(db, cfg, env, row.secret).1 ==
              if row.used || row.expiresAt <= env.now then Invalid
              else if db.users[row.user].suspended then SuspendedAccount else Session(row.user, env.secret)
  {
    FindUniqueLink(db.links, i);
  }

  /**
   In every reachable state, a link that was asked for, presented after any calls, opens a
   session of the one account with that address if it was not presented before, has not
   expired and the account is not suspended; and none otherwise.
   */
  lemma LinkSignsInExactly(before: seq<Call>, db: Db, cfg: Config, env: Env, email: string, asked: Db, calls: seq<Call>, later: Db, env': Env)
      returns (user: UserId)
    requires IsRun(EMPTY, cfg, before) && db == Run(EMPTY, cfg, before) && Fresh(db, env)
    requires asked == Handle(db, cfg, env, RequestLink(email)).0 && IsRun(asked, cfg, calls) && later == Run(asked, cfg, calls)
    ensures user < |later.users| && later.users[user].email == Some(email) && AccountsUnique(later.users)
    ensures Handle(later, cfg, env', VerifyLink(env.secret)).1 ==
              if LinkWasUsed(calls, env.secret, env.now + cfg.linkExpiry * 1000) || env.now + cfg.linkExpiry * 1000 <= env'.now then Invalid
              else if later.users[user].suspended then SuspendedAccount
              else Session(user, env'.secret)
  {
    RunLinksUnique(EMPTY, cfg, before);
    LaterAccountsUnique(before, db, cfg, env, RequestLink(email), asked, calls, later);
    user := AskedLinkSignsIn(db, cfg, env, email, asked, calls, later, env');
  }

  lemma AskedLinkSignsIn(db: Db, cfg: Config, env: Env, email: string, asked: Db, calls: seq<Call>, later: Db, env': Env) returns (user: UserId)
    requires SecretsUnique(db.links) && Fresh(db, env)
    requires asked == Handle(db, cfg, env, RequestLink(email)).0 && IsRun(asked, cfg, calls) && later == Run(asked, cfg, calls)
    ensures user < |later.users| && later.users[user].email == Some(email)
    ensures Handle(later, cfg, env', VerifyLink(env.secret)).1 ==
              if LinkWasUsed(calls, env.secret, env.now + cfg.linkExpiry * 1000) || env.now + cfg.linkExpiry * 1000 <= env'.now then Invalid
              else if later.users[user].suspended then SuspendedAccount
              else Session(user, env'.secret)
  {
    user := LinkIsMade(db, cfg, env, email);
    HandleLinksUnique(db, cfg, env, RequestLink(email));
    RunLinkUse(asked, cfg, calls, |db.links|);
    RunKeepsNames(asked, cfg, calls);
    LinkIsChecked(later, cfg, env', |db.links|);
  }

  // ---- password resets ---------------------------------------------------------------------------

  predicate ResetWasUsed(calls: seq<Call>, token: Secret, expiresAt: int) {
    exists k :: 0 <= k < |calls| && calls[k].request.Reset? && calls[k].request.token == token && calls[k].env.now < expiresAt
  }

  predicate UsesReset(call: Call, row: SingleUseRow) {
    call.request.Reset? && call.request.token == row.secret && call.env.now < row.expiresAt
  }

  lemma OtherResets(db: Db, cfg: Config, env: Env, request: Request)
    requires !request.Reset?
    ensures db.resets <= Handle(db, cfg, env, request).0.resets
  {
  }

  lemma ResetUse(db: Db, cfg: Config, call: Call, i: nat)
    requires SecretsUnique(db.resets) && i < |db.resets| && db.resets[i].secret != ""
    ensures var after, row := Handle(db, cfg, call.env, call.request).0, db.resets[i];
            i < |after.resets| && after.resets[i] == row.(used := row.used || UsesReset(call, row))
  {
    if call.request.Reset? {
      FindUniqueLink(db.resets, i);
    } else {
      OtherResets(db, cfg, call.env, call.request);
    }
  }

  lemma {:induction false} RunResetUse(db: Db, cfg: Config, calls: seq<Call>, i: nat)
    requires IsRun(db, cfg, calls) && SecretsUnique(db.resets) && i < |db.resets| && db.resets[i].secret != ""
    ensures var later, row := Run(db, cfg, calls), db.resets[i];
            && SecretsUnique(later.resets) && i < |later.resets|
            && later.resets[i] == row.(used := row.used || ResetWasUsed(calls, row.secret, row.expiresAt))
    decreases |calls|
  {
    if calls != [] {
      var row := db.resets[i];
      ResetUse(db, cfg, calls[0], i);
      HandleResetsUnique(db, cfg, calls[0].env, calls[0].request);
      RunResetUse(Handle(db, cfg, calls[0].env, calls[0].request).0, cfg, calls[1..], i);
      assert ResetWasUsed(calls, row.secret, row.expiresAt) <==> UsesReset(calls[0], row) || ResetWasUsed(calls[1..], row.secret, row.expiresAt) by {
        assert forall k :: 0 <= k < |calls[1..]| ==> calls[1..][k] == calls[k + 1];
      }
    }
  }

  /** The account with the user name, or when nobody has it the one with the address. */
  predicate IsMeant(users: seq<User>, user: UserId, username: string, email: string) {
    && user < |users|
    && if username != "" && exists u :: 0 <= u < |users| && users[u].username == Some(username)
       then users[user].username == Some(username)
       else email != "" && users[user].email == Some(email)
  }

  /** A reset is made for the account that is meant, or for nobody when nobody is. */
  lemma ResetIsMade(db: Db, cfg: Config, env: Env, username: string, email: string) returns (user: UserId)
    ensures var (after, response) := HandleForgot(db, cfg, env, username, email);
            if exists u :: IsMeant(db.users, u, username, email)
            then IsMeant(db.users, user, username, email)
                 && response == (if cfg.showsReset then Shown(env.secret) else Done)
                 && after == db.(resets := db.resets + [SingleUseRow(user, env.secret, env.now + cfg.resetExpiry * 1000, false)])
            else after == db && response == Done
  {
    var i := ResolveUser(db, username, email);
    user := if i.Some? then i.value else 0;
    forall u | 0 <= u < |db.users| && db.users[u].username == Some(username) ensures ByUsername(username)(db.users[u]) {
    }
    forall u: UserId | IsMeant(db.users, u, username, email) ensures i.Some? {
      assert db.users[u].email == Some(email) ==> ByEmail(email)(db.users[u]);
    }
    if i.Some? {
      assert IsMeant(db.users, user, username, email);
    }
  }

  lemma ResetIsChecked(db: Db, cfg: Config, env: Env, i: nat, password: string)
    requires SecretsUnique(db.resets) && i < |db.resets| && db.resets[i].secret != ""
    ensures var row := db.resets[i]; var (after, response) := HandleReset(db, env, row.secret, password);
            if row.used || row.expiresAt <= env.now then after == db && response == Invalid
            else response == Done && IsResetBy(db, after, row.user, password)
  {
    FindUniqueLink(db.resets, i);
  }

  /**
   In every reachable state, a reset that was asked for, presented after any calls, sets the
   password of the account that was meant and ends its sessions, if it was not presented
   before and has not expired; otherwise it changes nothing.
   */
  lemma ResetTakesEffectExactly(before: seq<Call>, db: Db, cfg: Config, env: Env, username: string, email: string, asked: Db,
                                calls: seq<Call>, later: Db, env': Env, password: string) returns (user: UserId)
    requires IsRun(EMPTY, cfg, before) && db == Run(EMPTY, cfg, before) && Fresh(db, env)
    requires exists u :: IsMeant(db.users, u, username, email)
    requires asked == Handle(db, cfg, env, Forgot(username, email)).0 && IsRun(asked, cfg, calls) && later == Run(asked, cfg, calls)
    ensures IsMeant(db.users, user, username, email)
    ensures var (after, response) := Handle(later, cfg, env', Reset(env.secret, password));
            if ResetWasUsed(calls, env.secret, env.now + cfg.resetExpiry * 1000) || env.now + cfg.resetExpiry * 1000 <= env'.now
            then after == later && response == Invalid
            else response == Done && IsResetBy(later, after, user, password)
  {
    RunResets(EMPTY, cfg, before);
    user := AskedResetTakesEffect(db, cfg, env, username, email, asked, calls, later, env', password);
  }

  lemma AskedResetTakesEffect(db: Db, cfg: Config, env: Env, username: string, email: string, asked: Db,
                              calls: seq<Call>, later: Db, env': Env, password: string) returns (user: UserId)
    requires SecretsUnique(db.resets) && Fresh(db, env) && exists u :: IsMeant(db.users, u, username, email)
    requires asked == Handle(db, cfg, env, Forgot(username, email)).0 && IsRun(asked, cfg, calls) && later == Run(asked, cfg, calls)
    ensures IsMeant(db.users, user, username, email)
    ensures var (after, response) := Handle(later, cfg, env', Reset(env.secret, password));
            if ResetWasUsed(calls, env.secret, env.now + cfg.resetExpiry * 1000) || env.now + cfg.resetExpiry * 1000 <= env'.now
            then after == later && response == Invalid
            else response == Done && IsResetBy(later, after, user, password)
  {
    user := ResetIsMade(db, cfg, env, username, email);
    HandleResetsUnique(db, cfg, env, Forgot(username, email));
    RunResetUse(asked, cfg, calls, |db.resets|);
    ResetIsChecked(later, cfg, env', |db.resets|, password);
  }

  // ---- accounts --------------------------------------------------------------------------------------

  /** Nobody has the user name, nor the address if one is given. */
  predicate IsFree(users: seq<User>, username: string, email: Option<string>) {
    forall u :: 0 <= u < |users| ==> users[u].username != Some(username) && (email.Some? ==> users[u].email != email)
  }

  /** A sign-up opens a session of a new account with these names, or changes nothing if one is taken. */
  lemma SignupIsExact(db: Db, cfg: Config, env: Env, username: string, password: string, email: Option<string>)
    ensures var (after, response) := HandleSignup(db, cfg, env, username, password, email);
            if IsFree(db.users, username, email)
            then response == Session(|db.users|, env.secret) && after.users == db.users + [User(Some(username), Some(password), email, None, false)]
            else response == Conflict && after == db
  {
    forall u | 0 <= u < |db.users| && db.users[u].username == Some(username) ensures ByUsername(username)(db.users[u]) {
    }
    if email.Some? {
      forall u | 0 <= u < |db.users| && db.users[u].email == email ensures ByEmail(email.value)(db.users[u]) {
      }
    }
  }

  lemma OtherUsers(db: Db, cfg: Config, env: Env, request: Request)
    requires !request.Reset? && !request.Suspend?
    ensures var users := Handle(db, cfg, env, request).0.users; users == db.users || users == db.users + [Newcomer(request)]
  {
  }

  lemma PasswordStep(db: Db, cfg: Config, call: Call, u: UserId)
    requires !call.request.Reset? && u < |db.users|
    ensures var users := Handle(db, cfg, call.env, call.request).0.users; u < |users| && users[u].password == db.users[u].password
  {
    if !call.request.Suspend? {
      OtherUsers(db, cfg, call.env, call.request);
    }
  }

  predicate NoResets(calls: seq<Call>) {
    forall k :: 0 <= k < |calls| ==> !calls[k].request.Reset?
  }

  lemma {:induction false} RunKeepsPassword(db: Db, cfg: Config, calls: seq<Call>, u: UserId)
    requires NoResets(calls) && u < |db.users|
    ensures var users := Run(db, cfg, calls).users; u < |users| && users[u].password == db.users[u].password
    decreases |calls|
  {
    if calls != [] {
      PasswordStep(db, cfg, calls[0], u);
      RunKeepsPassword(Handle(db, cfg, calls[0].env, calls[0].request).0, cfg, calls[1..], u);
    }
  }

  /**
   In every reachable state, an account that was just signed up is signed in to, after any
   calls that reset no password, with its user name and its password and no other.
   */
  lemma SignupThenLogin(before: seq<Call>, db: Db, cfg: Config, env: Env, username: string, password: string, email: Option<string>,
                        calls: seq<Call>, env': Env, x: string)
    requires db == Run(EMPTY, cfg, before) && IsFree(db.users, username, email) && NoResets(calls)
    ensures var later := Run(Handle(db, cfg, env, Signup(username, password, email)).0, cfg, calls);
            && |db.users| < |later.users|
            && Handle(later, cfg, env', Login(username, x)).1 ==
                 if username == "" || x == "" || x != password then Invalid
                 else if later.users[|db.users|].suspended then SuspendedAccount
                 else Session(|db.users|, env'.secret)
  {
    var call := Call(env, Signup(username, password, email));
    var after := Handle(db, cfg, env, call.request).0;
    var later := Run(after, cfg, calls);
    SignupIsExact(db, cfg, env, username, password, email);
    RunKeepsPassword(after, cfg, calls, |db.users|);
    RunKeepsNames(after, cfg, calls);
    RunConcat(EMPTY, cfg, before, [call]);
    RunOne(db, cfg, call);
    RunConcat(EMPTY, cfg, before + [call], calls);
    PasswordSignsIn(before + [call] + calls, later, cfg, env', |db.users|, x);
  }

  /** An identity that Google vouches for the first time gets a new account, unless its address is taken. */
  lemma NewIdentityIsExact(db: Db, cfg: Config, env: Env, subject: string, email: Option<string>)
    requires subject !in db.identities
    ensures var (after, response) := HandleGoogle(db, cfg, env, subject, email);
            if email.Some? && exists u :: 0 <= u < |db.users| && db.users[u].email == email then after == db && response == Failure
            else response == Session(|db.users|, env.secret)
                 && after.users == db.users + [User(None, None, email, None, false)] && after.identities == db.identities[subject := |db.users|]
  {
    if email.Some? {
      forall u | 0 <= u < |db.users| && db.users[u].email == email ensures ByEmail(email.value)(db.users[u]) {
      }
    }
  }

  /** A suspension, or its lifting, marks that account and no other; only a suspension ends sessions. */
  lemma SuspendIsExact(db: Db, user: UserId, suspend: bool)
    ensures var (after, response) := HandleSuspend(db, user, suspend);
            if user >= |db.users| then after == db && response == NotFound
            else response == Done && |after.users| == |db.users| && |after.tokens| == |db.tokens|
                 && (forall u :: 0 <= u < |db.users| ==> after.users[u] == if u == user then db.users[u].(suspended := suspend) else db.users[u])
                 && (forall k :: 0 <= k < |db.tokens| ==>
                       after.tokens[k] == if suspend && db.tokens[k].user == user then db.tokens[k].(revoked := true) else db.tokens[k])
  {
  }

  /** A logout ends every session of the family of a known token, and no other. */
  lemma LogoutIsExact(db: Db, token: Secret, i: nat)
    requires Unique(db.tokens) && i < |db.tokens| && db.tokens[i].secret == token && token != ""
    ensures var (after, response) := HandleLogout(db, token);
            && response == Done && |after.tokens| == |db.tokens|
            && forall k :: 0 <= k < |db.tokens| ==>
                 after.tokens[k] == if db.tokens[k].family == db.tokens[i].family then db.tokens[k].(revoked := true) else db.tokens[k]
  {
    FindUnique(db.tokens, i);
  }
}
