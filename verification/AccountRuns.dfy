/** Accounts over whole runs: shut out while disabled, tokens that expire, sign-outs that last, passwords. */
module AccountRuns {
  import opened Wrappers
  import opened Auth
  import opened AuthHistory
  import opened AuthAnswers
  import opened TokenLineage

  // ---------------------------------------------------------------- what changes an account

  /** What the account is, apart from its password and the time of its last sign-in. */
  predicate SameAccount(u: User, v: User) {
    && v.society == u.society && v.email == u.email && v.phone == u.phone
    && v.status == u.status && v.active == u.active && v.superadmin == u.superadmin
  }

  ghost predicate SameAccounts(s: State, s': State) {
    && |s'.users| == |s.users| && s'.shut == s.shut
    && forall u :: 0 <= u < |s.users| ==> SameAccount(s.users[u], s'.users[u])
  }

  lemma LoginWithoutTokens(s: State, typed: string, password: string, society: Option<nat>, cfg: Settings)
    requires !Login(s, typed, password, society, cfg).1.Tokens?
    ensures var s' := Login(s, typed, password, society, cfg).0; s' == s.(failures := s'.failures)
  {
  }

  lemma LoginWithTokens(s: State, typed: string, password: string, society: Option<nat>, cfg: Settings)
    requires Login(s, typed, password, society, cfg).1.Tokens?
    ensures var s' := Login(s, typed, password, society, cfg).0;
            s'.shut == s.shut && s'.now == s.now && s'.failures == s.failures
  {
  }

  lemma LoginKeepsAccounts(s: State, typed: string, password: string, society: Option<nat>, cfg: Settings)
    ensures var s' := Login(s, typed, password, society, cfg).0;
            SameAccounts(s, s') && s'.now == s.now
            && forall u :: 0 <= u < |s.users| ==> s'.users[u].secret == s.users[u].secret
  {
    if Login(s, typed, password, society, cfg).1.Tokens? {
      LoginWithTokens(s, typed, password, society, cfg);
      SignInMints(s, typed, password, society, cfg);
    } else {
      LoginWithoutTokens(s, typed, password, society, cfg);
    }
  }

  /** The request changes the password of the caller's login. */
  predicate Changes(s: State, caller: Caller, action: Action, cfg: Settings)
    requires caller.user < |s.users|
  {
    action.NewPassword? && cfg.verify(action.current, s.users[caller.user].secret)
  }

  lemma ActionKeepsAccounts(s: State, caller: Caller, action: Action, cfg: Settings)
    requires caller.user < |s.users|
    requires action.Switch? && action.target.Some? ==> action.target.value < |s.users|
    ensures var s' := Acted(s, caller, action, cfg).0;
            && SameAccounts(s, s') && s'.now == s.now && s'.failures == s.failures
            && (forall u :: 0 <= u < |s.users| && u != caller.user ==> s'.users[u].secret == s.users[u].secret)
            && (!Changes(s, caller, action, cfg) ==> s'.users[caller.user].secret == s.users[caller.user].secret)
  {
  }

  lemma StepKeepsAccounts(w: World, e: Event, cfg: Settings)
    requires Possible(w, e) && !e.Administration?
    ensures SameAccounts(w.auth, Do(w, e, cfg).auth)
  {
    match e
    case SignIn(typed, password, society) => LoginKeepsAccounts(w.auth, typed, password, society, cfg);
    case Refreshing(k) => RefreshesWhen(w.auth, w.minted[k].token, cfg);
    case Request(k, gate, action) =>
      LetsThrough(w.auth, w.minted[k].token, gate);
      var (seen, who) := Authenticate(w.auth, w.minted[k].token, gate);
      if who.Success? {
        ActionKeepsAccounts(seen, who.value, action, cfg);
      }
    case PasswordReset(_, _) =>
    case Tick(_) =>
  }

  /** What every step of a stretch keeps holds at its end. */
  lemma {:induction false} Lasts(h: seq<World>, i: nat, j: nat, holds: State -> bool)
    requires i <= j < |h| && holds(h[i].auth)
    requires forall k :: i <= k < j && holds(h[k].auth) ==> holds(h[k + 1].auth)
    ensures holds(h[j].auth)
  {
    if i < j {
      Lasts(h, i, j - 1, holds);
    }
  }

  // ---------------------------------------------------------------- disabled logins, shut societies

  /** Administration enables the login again. */
  predicate Enables(e: Event, u: nat) {
    e.Administration? && u < |e.users| && e.users[u].active && e.users[u].status == Active
  }

  predicate Disabled(s: State, u: nat) {
    u < |s.users| && !Enabled(s, u)
  }

  lemma StepStaysDisabled(w: World, e: Event, cfg: Settings, u: nat)
    requires Possible(w, e) && Disabled(w.auth, u) && !Enables(e, u)
    ensures Disabled(Do(w, e, cfg).auth, u)
  {
    if !e.Administration? {
      StepKeepsAccounts(w, e, cfg);
    }
  }

  lemma StaysDisabled(h: seq<World>, events: seq<Event>, cfg: Settings, i: nat, j: nat, u: nat)
    requires History(h, events, cfg) && i <= j < |h| && Disabled(h[i].auth, u)
    requires forall k :: i <= k < j ==> !Enables(events[k], u)
    ensures Disabled(h[j].auth, u)
  {
    forall k | i <= k < j && Disabled(h[k].auth, u)
      ensures Disabled(h[k + 1].auth, u)
    {
      StepStaysDisabled(h[k], events[k], cfg, u);
    }
    Lasts(h, i, j, (s: State) => Disabled(s, u));
  }

  /** A disabled or suspended login stays locked out, tokens, password and switch alike, until it is enabled again. */
  lemma DisabledUntilEnabled(h: seq<World>, events: seq<Event>, cfg: Settings, i: nat, j: nat, u: nat, token: Token,
                             gate: Gate, typed: string, password: string, society: Option<nat>, caller: Caller, to: nat,
                             target: Option<nat>)
    requires History(h, events, cfg) && i <= j < |h| && Disabled(h[i].auth, u)
    requires forall k :: i <= k < j ==> !Enables(events[k], u)
    requires token.sub == u && TargetPicked(h[j].auth, caller, to, target)
    ensures RefreshTokens(h[j].auth, token, cfg).1.Denied? && Authenticate(h[j].auth, token, gate).1.Failure?
    ensures var reply := Login(h[j].auth, typed, password, society, cfg).1; reply.Tokens? ==> reply.access.sub != u
    ensures target != Some(u)
  {
    StaysDisabled(h, events, cfg, i, j, u);
    var s := h[j].auth;
    RefreshesWhen(s, token, cfg);
    LetsThrough(s, token, gate);
    if Login(s, typed, password, society, cfg).1.Tokens? {
      SignInMints(s, typed, password, society, cfg);
    }
    SwitchMints(s, caller, to, target, cfg);
  }

  /** Administration lets the login's society carry on, or moves the login, or makes it a platform admin's. */
  predicate Reopens(e: Event, u: nat) {
    e.Administration? && u < |e.users|
    && (e.users[u].superadmin || e.users[u].society.None? || e.users[u].society.value !in e.shut)
  }

  lemma StepStaysShut(w: World, e: Event, cfg: Settings, u: nat)
    requires Possible(w, e) && ShutSociety(w.auth, u) && !Reopens(e, u)
    ensures ShutSociety(Do(w, e, cfg).auth, u)
  {
    var s, s' := w.auth, Do(w, e, cfg).auth;
    var society: nat :| society in s.shut && s.users[u].society == Some(society);
    if !e.Administration? {
      StepKeepsAccounts(w, e, cfg);
      assert society in s'.shut && s'.users[u].society == Some(society);
    } else {
      assert e.users[u].society.value in s'.shut && s'.users[u].society == Some(e.users[u].society.value);
    }
  }

  lemma StaysShut(h: seq<World>, events: seq<Event>, cfg: Settings, i: nat, j: nat, u: nat)
    requires History(h, events, cfg) && i <= j < |h| && ShutSociety(h[i].auth, u)
    requires forall k :: i <= k < j ==> !Reopens(events[k], u)
    ensures ShutSociety(h[j].auth, u)
  {
    forall k | i <= k < j && ShutSociety(h[k].auth, u)
      ensures ShutSociety(h[k + 1].auth, u)
    {
      StepStaysShut(h[k], events[k], cfg, u);
    }
    Lasts(h, i, j, (s: State) => ShutSociety(s, u));
  }

  /** While its society is shut, a login that is no platform admin's gets no tokens and only the open paths. */
  lemma ShutUntilReopened(h: seq<World>, events: seq<Event>, cfg: Settings, i: nat, j: nat, u: nat, token: Token,
                          gate: Gate, typed: string, password: string, society: Option<nat>)
    requires History(h, events, cfg) && i <= j < |h| && ShutSociety(h[i].auth, u) && token.sub == u
    requires forall k :: i <= k < j ==> !Reopens(events[k], u)
    ensures RefreshTokens(h[j].auth, token, cfg).1.Denied?
    ensures !gate.openWhenShut ==> Authenticate(h[j].auth, token, gate).1.Failure?
    ensures var reply := Login(h[j].auth, typed, password, society, cfg).1; reply.Tokens? ==> reply.access.sub != u
  {
    StaysShut(h, events, cfg, i, j, u);
    var s := h[j].auth;
    RefreshesWhen(s, token, cfg);
    LetsThrough(s, token, gate);
    if Login(s, typed, password, society, cfg).1.Tokens? {
      SignInMints(s, typed, password, society, cfg);
    }
  }

  // ---------------------------------------------------------------- tokens expire

  function LifeOf(kind: Kind, cfg: Settings): (life: Time) {
    match kind
    case Access => cfg.accessLife
    case Refresh => cfg.refreshLife
  }

  /** The steps that mint add one token of each kind, which last their lives from that moment. */
  lemma StepMints(w: World, e: Event, cfg: Settings, k: nat)
    requires Possible(w, e) && |w.minted| <= k < |Do(w, e, cfg).minted|
    ensures var token := Do(w, e, cfg).minted[k].token; token.exp == w.auth.now + LifeOf(token.kind, cfg)
  {
    match e
    case SignIn(typed, password, society) =>
      if Login(w.auth, typed, password, society, cfg).1.Tokens? {
        SignInMints(w.auth, typed, password, society, cfg);
      }
    case Refreshing(n) => RefreshesWhen(w.auth, w.minted[n].token, cfg);
    case Request(n, gate, action) =>
      LetsThrough(w.auth, w.minted[n].token, gate);
      var (seen, who) := Authenticate(w.auth, w.minted[n].token, gate);
      if who.Success? && action.Switch? {
        SwitchMints(seen, who.value, action.to, action.target, cfg);
      }
    case PasswordReset(_, _) =>
    case Administration(_, _) =>
    case Tick(_) =>
  }

  /** Every token minted in a run was minted at one of its moments and lasts its kind's life from then, no longer. */
  lemma TokensExpire(h: seq<World>, events: seq<Event>, cfg: Settings, j: nat, k: nat, gate: Gate)
    returns (m: nat)
    requires History(h, events, cfg) && h[0].minted == [] && j < |h| && k < |h[j].minted|
    ensures m < j && |h[m].minted| <= k < |h[m + 1].minted|
    ensures var token := h[j].minted[k].token;
            && token.exp == h[m].auth.now + LifeOf(token.kind, cfg)
            && (h[j].auth.now > h[m].auth.now + LifeOf(token.kind, cfg) ==>
                  RefreshTokens(h[j].auth, token, cfg).1.Denied? && Authenticate(h[j].auth, token, gate).1.Failure?)
  {
    m := MintedAt(h, j, k);
    RunExtends(h, events, cfg, m + 1, j);
    StepMints(h[m], events[m], cfg, k);
    RefreshesWhen(h[j].auth, h[j].minted[k].token, cfg);
    LetsThrough(h[j].auth, h[j].minted[k].token, gate);
  }

  lemma {:induction false} MintedAt(h: seq<World>, j: nat, k: nat) returns (m: nat)
    requires j < |h| && h[0].minted == [] && k < |h[j].minted|
    ensures m < j && |h[m].minted| <= k < |h[m + 1].minted|
  {
    if k < |h[j - 1].minted| {
      m := MintedAt(h, j - 1, k);
    } else {
      m := j - 1;
    }
  }

  // ---------------------------------------------------------------- sign-outs last

  /** The request signs the token's device out. */
  predicate SignsOut(s: State, caller: Caller, action: Action, token: Token, cfg: Settings)
    requires caller.user < |s.users|
  {
    match action
    case LogOut => token.sid == caller.session
    case SignOutTheOthers => token.sub == caller.user && token.sid != caller.session
    case SignOutOne(sid) => token.sid == Some(sid) && token.sub == caller.user
    case NewPassword(_, _) => Changes(s, caller, action, cfg) && token.sub == caller.user && token.sid != caller.session
    case Switch(_, target) => token.sid == caller.session && target.Some? && target.value != caller.user
    case AnythingElse => false
  }

  /** A device can be signed out exactly while it is signed in as the caller's; no other device is touched. */
  lemma DeviceSignedOut(s: State, caller: Caller, sid: nat)
    ensures var (s', why) := SignOutDevice(s, caller, sid);
            && (why == None <==> && sid < |s.sessions| && s.sessions[sid].user == caller.user
                                 && s.sessions[sid].revokedAt == None)
            && (why != None ==> why == Some(DeviceNotFound) && s' == s)
            && (why == None ==>
                  s' == s.(sessions := s.sessions[sid :=
                             s.sessions[sid].(revokedAt := Some(s.now), reason := "signed_out")]))
  {
  }

  lemma ActionSignsOut(s: State, caller: Caller, action: Action, token: Token, cfg: Settings)
    requires caller.user < |s.users|
    requires action.Switch? && action.target.Some? ==> action.target.value < |s.users|
    requires SignsOut(s, caller, action, token, cfg) && token.sid.Some? && token.sid.value < |s.sessions|
    ensures !IsLive(Acted(s, caller, action, cfg).0, token.sid.value, token.sub)
  {
    RevokedAllEnds(s.sessions, caller.user, caller.session, s.now, "");
  }

  /** Once a request signed a device out, its tokens are refused everywhere for the rest of the run. */
  lemma SignedOutForGood(h: seq<World>, events: seq<Event>, cfg: Settings, i: nat, j: nat, token: Token, gate: Gate)
    requires History(h, events, cfg) && i < j < |h| && events[i].Request?
    requires token.sid.Some? && token.sid.value < |h[i].auth.sessions|
    requires var (seen, who) := Authenticate(h[i].auth, h[i].minted[events[i].k].token, events[i].gate);
             who.Success? && who.value.user < |seen.users| && SignsOut(seen, who.value, events[i].action, token, cfg)
    ensures RefreshTokens(h[j].auth, token, cfg).1.Denied? && Authenticate(h[j].auth, token, gate).1.Failure?
  {
    var (seen, who) := Authenticate(h[i].auth, h[i].minted[events[i].k].token, events[i].gate);
    AuthenticateOnlyEnds(h[i].auth, h[i].minted[events[i].k].token, events[i].gate);
    ActionSignsOut(seen, who.value, events[i].action, token, cfg);
    assert h[i + 1] == Requested(h[i], events[i].k, events[i].gate, events[i].action, cfg);
    RunOnlyEndsSessions(h, events, cfg, i, i + 1);
    RevokedForGood(h, events, cfg, i + 1, j, token, gate);
  }

  /** The device as its tokens present it. */
  function Device(sid: nat, u: nat): (token: Token) {
    Token(Access, u, Some(sid), [], 0)
  }

  /** The step signs the device out: a request that does, or a reset of its login's password. */
  predicate StepSignsOut(w: World, e: Event, sid: nat, u: nat, cfg: Settings)
    requires Possible(w, e)
  {
    match e
    case Request(k, gate, action) =>
      var (seen, who) := Authenticate(w.auth, w.minted[k].token, gate);
      who.Success? && who.value.user < |seen.users| && SignsOut(seen, who.value, action, Device(sid, u), cfg)
    case PasswordReset(v, _) => v == u
    case _ => false
  }

  lemma ActionKeepsDevice(s: State, caller: Caller, action: Action, sid: nat, u: nat, cfg: Settings)
    requires caller.user < |s.users| && IsLive(s, sid, u) && !SignsOut(s, caller, action, Device(sid, u), cfg)
    requires action.Switch? && action.target.Some? ==> action.target.value < |s.users|
    ensures IsLive(Acted(s, caller, action, cfg).0, sid, u)
  {
  }

  lemma LoginKeepsDevice(
    s: State, typed: string, password: string, society: Option<nat>, cfg: Settings, sid: nat, u: nat)
    requires IsLive(s, sid, u)
    ensures IsLive(Login(s, typed, password, society, cfg).0, sid, u)
  {
    if Login(s, typed, password, society, cfg).1.Tokens? {
      LoginMintsFresh(s, typed, password, society, cfg);
    } else {
      LoginWithoutTokens(s, typed, password, society, cfg);
    }
  }

  lemma StepKeepsDevice(w: World, e: Event, sid: nat, u: nat, cfg: Settings)
    requires Possible(w, e) && IsLive(w.auth, sid, u) && !StepSignsOut(w, e, sid, u, cfg)
    ensures IsLive(Do(w, e, cfg).auth, sid, u)
  {
    match e
    case SignIn(typed, password, society) => LoginKeepsDevice(w.auth, typed, password, society, cfg, sid, u);
    case Refreshing(_) =>
    case Request(k, gate, action) =>
      LetsThrough(w.auth, w.minted[k].token, gate);
      var (seen, who) := Authenticate(w.auth, w.minted[k].token, gate);
      assert IsLive(seen, sid, u);
      if who.Success? {
        ActionKeepsDevice(seen, who.value, action, sid, u, cfg);
      }
    case PasswordReset(_, _) =>
    case Administration(_, _) =>
    case Tick(_) =>
  }

  /** A signed-in device stays signed in, whatever others do, until a step signs it out. */
  lemma DeviceStaysSignedIn(h: seq<World>, events: seq<Event>, cfg: Settings, i: nat, j: nat, sid: nat, u: nat)
    requires History(h, events, cfg) && i <= j < |h| && IsLive(h[i].auth, sid, u)
    requires forall k :: i <= k < j ==> !StepSignsOut(h[k], events[k], sid, u, cfg)
    ensures IsLive(h[j].auth, sid, u)
  {
    forall k | i <= k < j && IsLive(h[k].auth, sid, u)
      ensures IsLive(h[k + 1].auth, sid, u)
    {
      StepKeepsDevice(h[k], events[k], sid, u, cfg);
    }
    Lasts(h, i, j, (s: State) => IsLive(s, sid, u));
  }

  /** A reset of the password signs the login out on every device. */
  lemma ResetSignsOutEverywhere(
    h: seq<World>, events: seq<Event>, cfg: Settings, i: nat, j: nat, token: Token, gate: Gate)
    requires History(h, events, cfg) && i < j < |h| && events[i].PasswordReset? && token.sub == events[i].u
    requires token.sid.Some? && token.sid.value < |h[i].auth.sessions|
    ensures RefreshTokens(h[j].auth, token, cfg).1.Denied? && Authenticate(h[j].auth, token, gate).1.Failure?
  {
    var s, u := h[i].auth, events[i].u;
    RevokedAllEnds(s.sessions, u, None, s.now, "password_reset");
    assert h[i + 1].auth == ResetPassword(s, u, events[i].secret);
    assert token.sid.value !in LiveOthers(h[i + 1].auth.sessions, u, None);
    RevokedForGood(h, events, cfg, i + 1, j, token, gate);
  }

  // ---------------------------------------------------------------- which password counts

  /** The step gives the login a new password. */
  predicate SetsPassword(w: World, e: Event, u: nat, cfg: Settings)
    requires Possible(w, e)
  {
    match e
    case Request(k, gate, action) =>
      var (seen, who) := Authenticate(w.auth, w.minted[k].token, gate);
      who.Success? && who.value.user == u && u < |seen.users| && Changes(seen, who.value, action, cfg)
    case PasswordReset(v, _) => v == u
    case Administration(users, _) => u < |w.auth.users| && users[u].secret != w.auth.users[u].secret
    case _ => false
  }

  lemma StepKeepsPassword(w: World, e: Event, u: nat, cfg: Settings)
    requires Possible(w, e) && u < |w.auth.users| && !SetsPassword(w, e, u, cfg)
    ensures u < |Do(w, e, cfg).auth.users| && Do(w, e, cfg).auth.users[u].secret == w.auth.users[u].secret
  {
    match e
    case SignIn(typed, password, society) => LoginKeepsAccounts(w.auth, typed, password, society, cfg);
    case Refreshing(k) => RefreshesWhen(w.auth, w.minted[k].token, cfg);
    case Request(k, gate, action) =>
      LetsThrough(w.auth, w.minted[k].token, gate);
      var (seen, who) := Authenticate(w.auth, w.minted[k].token, gate);
      if who.Success? {
        ActionKeepsAccounts(seen, who.value, action, cfg);
      }
    case PasswordReset(_, _) =>
    case Administration(_, _) =>
    case Tick(_) =>
  }

  lemma PasswordStays(h: seq<World>, events: seq<Event>, cfg: Settings, i: nat, j: nat, u: nat)
    requires History(h, events, cfg) && i <= j < |h| && u < |h[i].auth.users|
    requires forall k :: i <= k < j ==> !SetsPassword(h[k], events[k], u, cfg)
    ensures u < |h[j].auth.users| && h[j].auth.users[u].secret == h[i].auth.users[u].secret
  {
    var secret := h[i].auth.users[u].secret;
    forall k | i <= k < j && u < |h[k].auth.users| && h[k].auth.users[u].secret == secret
      ensures u < |h[k + 1].auth.users| && h[k + 1].auth.users[u].secret == secret
    {
      StepKeepsPassword(h[k], events[k], u, cfg);
    }
    Lasts(h, i, j, (s: State) => u < |s.users| && s.users[u].secret == secret);
  }

  /** The hash of a password is verified by that password. */
  ghost predicate Hashes(cfg: Settings) {
    forall p: string :: cfg.verify(p, cfg.hash(p))
  }

  /** A change goes through exactly when the current password is given; it sets the new one, on that login alone. */
  lemma ChangeTakesEffect(s: State, caller: Caller, current: string, next: string, cfg: Settings)
    requires caller.user < |s.users|
    ensures var (s', why) := ChangePassword(s, caller, current, next, cfg);
            && (why.None? <==> cfg.verify(current, s.users[caller.user].secret))
            && (why.Some? ==> why == Some(WrongPassword) && s' == s)
            && |s'.users| == |s.users| && s'.failures == s.failures
            && (forall u :: 0 <= u < |s.users| && u != caller.user ==> s'.users[u] == s.users[u])
            && (why.None? ==>
                  && SameAccount(s.users[caller.user], s'.users[caller.user]) && !s'.users[caller.user].mustChange
                  && forall p: string ::
                       cfg.verify(p, s'.users[caller.user].secret) <==> cfg.verify(p, cfg.hash(next)))
  {
  }

  /** The login's own password, as of now, is `password` and no other that its hash does not verify. */
  ghost predicate OpensWith(s: State, u: nat, password: string, cfg: Settings) {
    && u < |s.users|
    && (Hashes(cfg) ==> cfg.verify(password, s.users[u].secret))
    && (forall typed: string, p: string ::
          u in Matched(s, typed, p, cfg) <==> u in Candidates(s.users, typed) && cfg.verify(p, cfg.hash(password)))
  }

  lemma MatchedWith(s: State, u: nat, password: string, cfg: Settings)
    requires u < |s.users| && s.users[u].secret == cfg.hash(password)
    ensures OpensWith(s, u, password, cfg)
  {
  }

  /**
  After a password change that goes through, and until the next password is set for the
  login, the new password is the one it opens with: wherever the typed text names the login,
  it matches, and a password that does not verify against the new hash does not.
  */
  lemma NewPasswordCounts(h: seq<World>, events: seq<Event>, cfg: Settings, i: nat, j: nat, caller: Caller,
                          current: string, next: string)
    requires History(h, events, cfg) && i < j < |h|
    requires events[i].Request? && events[i].action == NewPassword(current, next)
    requires Authenticate(h[i].auth, h[i].minted[events[i].k].token, events[i].gate).1 == Success(caller)
    requires caller.user < |h[i].auth.users| && cfg.verify(current, h[i].auth.users[caller.user].secret)
    requires forall k :: i < k < j ==> !SetsPassword(h[k], events[k], caller.user, cfg)
    ensures OpensWith(h[j].auth, caller.user, next, cfg)
  {
    var token, gate := h[i].minted[events[i].k].token, events[i].gate;
    LetsThrough(h[i].auth, token, gate);
    var seen := Authenticate(h[i].auth, token, gate).0;
    assert h[i + 1] == Requested(h[i], events[i].k, gate, events[i].action, cfg);
    assert h[i + 1].auth == ChangePassword(seen, caller, current, next, cfg).0;
    PasswordStays(h, events, cfg, i + 1, j, caller.user);
    MatchedWith(h[j].auth, caller.user, next, cfg);
  }

  /** Likewise after a reset to the hash of a temporary password, which must then be changed. */
  lemma TemporaryPasswordCounts(h: seq<World>, events: seq<Event>, cfg: Settings, i: nat, j: nat, temporary: string)
    requires History(h, events, cfg) && i < j < |h|
    requires events[i].PasswordReset? && events[i].secret == cfg.hash(temporary)
    requires forall k :: i < k < j ==> !SetsPassword(h[k], events[k], events[i].u, cfg)
    ensures OpensWith(h[j].auth, events[i].u, temporary, cfg)
    ensures h[i + 1].auth.users[events[i].u].mustChange
  {
    PasswordStays(h, events, cfg, i + 1, j, events[i].u);
    MatchedWith(h[j].auth, events[i].u, temporary, cfg);
  }

  // ---------------------------------------------------------------- failures

  lemma NothingMatches(s: State, typed: string, password: string, society: Option<nat>, cfg: Settings)
    requires Unlocked(s, typed) && Matched(s, typed, password, cfg) == []
    ensures Login(s, typed, password, society, cfg)
            == (s.(failures := s.failures + [Attempt(Candidates(s.users, typed)[0], s.now)]), Denied(BadCredentials))
  {
  }

  lemma NothingRecorded(s: State, typed: string, password: string, society: Option<nat>, cfg: Settings)
    requires !Unlocked(s, typed) || Matched(s, typed, password, cfg) != []
    ensures Login(s, typed, password, society, cfg).0.failures == s.failures
  {
  }

  /** A failure is recorded exactly when the text names an unlocked login and no login it names has the password. */
  lemma FailureRecordedExactlyWhen(s: State, typed: string, password: string, society: Option<nat>, cfg: Settings)
    ensures var candidates, s' := Candidates(s.users, typed), Login(s, typed, password, society, cfg).0;
            if Unlocked(s, typed) && forall u :: u in candidates ==> !cfg.verify(password, s.users[u].secret)
            then s' == s.(failures := s.failures + [Attempt(candidates[0], s.now)])
            else s'.failures == s.failures
  {
    var matched := Matched(s, typed, password, cfg);
    assert matched != [] ==> matched[0] in matched;
    assert forall u :: u in matched <==> u in Candidates(s.users, typed) && cfg.verify(password, s.users[u].secret);
    if Unlocked(s, typed) && matched == [] {
      NothingMatches(s, typed, password, society, cfg);
    } else {
      NothingRecorded(s, typed, password, society, cfg);
    }
  }
}
