/** Whom the sign-in, the refresh and the check of every request let through, and what they mint. */
module AuthAnswers {
  import opened Wrappers
  import opened Text
  import opened Auth
  import opened AuthHistory
  import opened TokenLineage

  /** The login is on record, enabled, and its account active. */
  predicate Enabled(s: State, u: nat) {
    u < |s.users| && s.users[u].active && s.users[u].status == Active
  }

  /** The login's society is suspended or closed, and the login no platform admin's. */
  predicate ShutSociety(s: State, u: nat) {
    && u < |s.users| && !s.users[u].superadmin
    && exists society: nat :: society in s.shut && s.users[u].society == Some(society)
  }

  /** The token is of no session, or of one that is its own login's and not revoked. */
  predicate OwnSession(s: State, token: Token) {
    token.sid == None
    || exists sid: nat :: token.sid == Some(sid) && sid < |s.sessions|
                          && s.sessions[sid].user == token.sub && s.sessions[sid].revokedAt == None
  }

  lemma BlockedWhen(s: State, u: nat)
    requires u < |s.users|
    ensures Blocked(s, u).None? <==> Enabled(s, u) && !ShutSociety(s, u)
    ensures ShutOut(s, u) <==> ShutSociety(s, u)
  {
    if ShutOut(s, u) {
      assert s.users[u].society.value in s.shut && s.users[u].society == Some(s.users[u].society.value);
    }
  }

  lemma OwnIsLive(s: State, token: Token)
    ensures OwnSession(s, token) <==> (token.sid.Some? ==> IsLive(s, token.sid.value, token.sub))
  {
    if token.sid.Some? && IsLive(s, token.sid.value, token.sub) {
      var sid := token.sid.value;
      assert token.sid == Some(sid) && s.sessions[sid].user == token.sub && s.sessions[sid].revokedAt == None;
    }
  }

  // ---------------------------------------------------------------- requests and refreshes

  /**
  A request is let through exactly for an unexpired access token of an enabled login, whose
  session is live and its own, when the path is open to it; and it is that login that asks.
  */
  lemma LetsThrough(s: State, token: Token, gate: Gate)
    ensures Authenticate(s, token, gate).1.Success?
            <==> && token.kind == Access && s.now <= token.exp
                 && Enabled(s, token.sub) && OwnSession(s, token)
                 && !gate.refused && (ShutSociety(s, token.sub) ==> gate.openWhenShut)
    ensures Authenticate(s, token, gate).1.Success? ==>
              Authenticate(s, token, gate).1.value == Caller(token.sub, token.sid, token.peers)
    ensures Authenticate(s, token, gate).0.users == s.users && Authenticate(s, token, gate).0.failures == s.failures
    ensures Authenticate(s, token, gate).0.shut == s.shut && Authenticate(s, token, gate).0.now == s.now
  {
    OwnIsLive(s, token);
    if token.sub < |s.users| {
      BlockedWhen(s, token.sub);
    }
  }

  /** A good token notes its device as seen, at most every five minutes, even where the path is shut. */
  lemma DeviceIsNoted(s: State, token: Token, gate: Gate)
    ensures var after := Authenticate(s, token, gate).0.sessions;
            && |after| == |s.sessions|
            && forall sid :: 0 <= sid < |after| ==>
                 after[sid] == if && token.sid == Some(sid) && token.kind == Access && s.now <= token.exp
                                  && Enabled(s, token.sub) && OwnSession(s, token) && SeenLongAgo(s, sid)
                               then s.sessions[sid].(lastSeen := Some(s.now)) else s.sessions[sid]
  {
    OwnIsLive(s, token);
  }

  predicate SeenLongAgo(s: State, sid: int)
    requires 0 <= sid < |s.sessions|
  {
    match s.sessions[sid].lastSeen
    case None => true
    case Some(at) => s.now - at >= 300
  }

  /** Both tokens are of one session and login, one of each kind, each lasting its own life from now. */
  predicate MintsNow(s: State, reply: Reply, cfg: Settings) {
    && reply.Tokens?
    && reply.access.kind == Access && reply.access.exp == s.now + cfg.accessLife
    && reply.refresh.kind == Refresh && reply.refresh.exp == s.now + cfg.refreshLife
    && reply.access.sub == reply.refresh.sub && reply.access.sid == reply.refresh.sid
    && reply.access.peers == reply.refresh.peers
  }

  /**
  A refresh goes through exactly for an unexpired refresh token of an enabled login, whose
  society is not shut and whose session is live and its own; the new tokens are of that
  login, session and peers, or of a new session where the token had none.
  */
  lemma RefreshesWhen(s: State, token: Token, cfg: Settings)
    ensures var (after, reply) := RefreshTokens(s, token, cfg);
            && (reply.Tokens?
                <==> && token.kind == Refresh && s.now <= token.exp
                     && Enabled(s, token.sub) && !ShutSociety(s, token.sub) && OwnSession(s, token))
            && (reply.Tokens? ==>
                  && MintsNow(s, reply, cfg) && reply.access.sub == token.sub && reply.access.peers == token.peers
                  && reply.access.sid == (if token.sid.Some? then token.sid else Some(|s.sessions|))
                  && (token.sid.None? ==> after.sessions == s.sessions + [Session(token.sub, Some(s.now), None, "")]))
            && (!reply.Tokens? ==> reply.Denied? && after == s)
            && after.users == s.users && after.failures == s.failures
  {
    OwnIsLive(s, token);
    if token.sub < |s.users| {
      BlockedWhen(s, token.sub);
    }
  }

  predicate Unspoilt(s: State, token: Token, kind: Kind) {
    token.kind == kind && s.now <= token.exp
  }

  /** What a request or a refresh is refused for, in the order in which it is asked. */
  lemma RefusedFor(s: State, token: Token, gate: Gate, cfg: Settings)
    ensures var out := Authenticate(s, token, gate).1;
            var good := Unspoilt(s, token, Access);
            && (out == Failure(InvalidToken) <==> !good)
            && (out == Failure(UserNotFound) <==> good && !Enabled(s, token.sub))
            && (out == Failure(SignedOut) <==> good && Enabled(s, token.sub) && !OwnSession(s, token))
            && (out.Failure? ==> out.error in {InvalidToken, UserNotFound, SignedOut, Forbidden})
    ensures var reply := RefreshTokens(s, token, cfg).1;
            var good := Unspoilt(s, token, Refresh);
            && (reply == Denied(InvalidToken) <==> !good)
            && (reply == Denied(UserNotFound) <==> good && !Enabled(s, token.sub))
            && (reply == Denied(SocietyShut) <==> good && Enabled(s, token.sub) && ShutSociety(s, token.sub))
            && (reply == Denied(SignedOut)
                <==> good && Enabled(s, token.sub) && !ShutSociety(s, token.sub) && !OwnSession(s, token))
  {
    OwnIsLive(s, token);
    if token.sub < |s.users| {
      BlockedWhen(s, token.sub);
    }
  }

  /** The password is that of a login the text may mean. */
  predicate SomeMatch(s: State, typed: string, password: string, cfg: Settings) {
    exists u :: u in Candidates(s.users, typed) && cfg.verify(password, s.users[u].secret)
  }

  /**
  A sign-in is refused as wrong credentials exactly when nobody is meant or the password is
  nobody's, as locked exactly when the oldest login meant is, whatever the password, and for
  the society exactly when somebody can be signed in, but nobody there.
  */
  lemma SignInRefusedFor(s: State, typed: string, password: string, society: Option<nat>, cfg: Settings)
    ensures var reply := Login(s, typed, password, society, cfg).1;
            var candidates := Candidates(s.users, typed);
            var usable := Usable(s, Matched(s, typed, password, cfg));
            && (reply == Denied(TooManyAttempts) <==> candidates != [] && TooManyFailures(s, candidates[0]))
            && (reply == Denied(BadCredentials)
                <==> candidates == []
                     || (!TooManyFailures(s, candidates[0]) && !SomeMatch(s, typed, password, cfg)))
            && (reply == Denied(NotYourSociety)
                <==> && candidates != [] && !TooManyFailures(s, candidates[0]) && usable != [] && society.Some?
                     && forall u :: u in usable ==> s.users[u].society != society)
  {
    var matched := Matched(s, typed, password, cfg);
    SomeIn(matched);
    assert forall u :: u in matched <==> u in Candidates(s.users, typed) && cfg.verify(password, s.users[u].secret);
    if matched != [] && Usable(s, matched) == [] {
      SomeReason(s, matched);
      ReasonIsReal(s, matched);
    }
    if society.Some? {
      SomeIn(OfSociety(s, Usable(s, matched), society.value));
    }
  }

  lemma {:induction false} ReasonIsReal(s: State, ids: seq<nat>)
    requires Known(s, ids) && FirstReason(s, ids).Some?
    ensures FirstReason(s, ids).value in {AccountNotActive, AccountDisabled, SocietyShut}
  {
    if FirstReason(s, ids[..|ids| - 1]).Some? {
      ReasonIsReal(s, ids[..|ids| - 1]);
    }
  }

  /** Sign-in mints for an enabled login of a society that is not shut, and notes the time on that login alone. */
  lemma SignInMints(s: State, typed: string, password: string, society: Option<nat>, cfg: Settings)
    requires Login(s, typed, password, society, cfg).1.Tokens?
    ensures var (after, reply) := Login(s, typed, password, society, cfg);
            && MintsNow(s, reply, cfg) && Enabled(s, reply.access.sub) && !ShutSociety(s, reply.access.sub)
            && cfg.verify(password, s.users[reply.access.sub].secret)
            && after.users == s.users[reply.access.sub := s.users[reply.access.sub].(lastLogin := Some(s.now))]
  {
    LoginMintsFresh(s, typed, password, society, cfg);
    var u := Login(s, typed, password, society, cfg).1.access.sub;
    SignInLogins(s, typed, password, cfg, u);
    BlockedWhen(s, u);
  }

  /** Naming a society, of several logins there the oldest is signed in to. */
  lemma OldestSignsIn(s: State, typed: string, password: string, society: nat, cfg: Settings, u: nat)
    requires Login(s, typed, password, Some(society), cfg).1.Tokens?
    requires u in Candidates(s.users, typed) && cfg.verify(password, s.users[u].secret)
    requires Enabled(s, u) && !ShutSociety(s, u) && s.users[u].society == Some(society)
    ensures Login(s, typed, password, Some(society), cfg).1.access.sub <= u
  {
    BlockedWhen(s, u);
    var usable := Usable(s, Matched(s, typed, password, cfg));
    UsableOldestFirst(s, typed, password, cfg);
    FilterKeepsOrder(usable, (id: nat) => id < |s.users| && s.users[id].society == Some(society));
    var chosen := OfSociety(s, usable, society);
    assert u in chosen;
    var i :| 0 <= i < |chosen| && chosen[i] == u;
  }

  /** Why a login cannot be used: its account first, then whether it is disabled, then its society. */
  lemma WhyBlocked(s: State, u: nat)
    requires u < |s.users|
    ensures Blocked(s, u)
            == if s.users[u].status != Active then Some(AccountNotActive)
               else if !s.users[u].active then Some(AccountDisabled)
               else if ShutSociety(s, u) then Some(SocietyShut) else None
  {
    BlockedWhen(s, u);
  }

  lemma {:induction false} FirstIsFirst(s: State, ids: seq<nat>)
    requires Known(s, ids) && ids != [] && Blocked(s, ids[0]).Some?
    ensures FirstReason(s, ids) == Blocked(s, ids[0])
  {
    if |ids| > 1 {
      FirstIsFirst(s, ids[..|ids| - 1]);
    } else {
      assert FirstReason(s, ids[..0]) == None;
    }
  }

  lemma SomeIn(ids: seq<nat>)
    ensures ids != [] ==> exists id :: id in ids
  {
    assert ids != [] ==> ids[0] in ids;
  }

  /** Where no login the password matches can be used, the oldest one's reason is given; nothing is recorded. */
  lemma NoneUsable(s: State, typed: string, password: string, society: Option<nat>, cfg: Settings, matched: seq<nat>)
    requires Unlocked(s, typed) && matched == Matched(s, typed, password, cfg) && matched != []
    requires forall u :: u in matched ==> Blocked(s, u).Some?
    ensures Login(s, typed, password, society, cfg) == (s, Denied(Blocked(s, matched[0]).value))
  {
    SomeIn(Usable(s, matched));
    assert matched[0] in matched;
    FirstIsFirst(s, matched);
  }

  /** A switch goes through exactly when the query found another login, enabled and of no shut society. */
  lemma SwitchMints(s: State, caller: Caller, to: nat, target: Option<nat>, cfg: Settings)
    requires TargetPicked(s, caller, to, target)
    ensures var (after, reply) := SwitchSociety(s, caller, target, cfg);
            && (reply.Tokens? <==> target.Some? && target.value != caller.user)
            && (reply.Tokens? ==>
                  && MintsNow(s, reply, cfg) && reply.access.sub == target.value
                  && after.users == s.users[target.value := s.users[target.value].(lastLogin := Some(s.now))])
            && (!reply.Tokens? ==> reply == Denied(CannotSwitch) && after == s)
    ensures target.Some? ==>
              && target.value in caller.peers && Enabled(s, target.value) && !ShutSociety(s, target.value)
              && s.users[target.value].society == Some(to)
    ensures target.None? ==>
              forall u :: u in caller.peers && Enabled(s, u) && s.users[u].society == Some(to) ==> ShutSociety(s, u)
  {
    forall u | u in caller.peers && u < |s.users|
      ensures Blocked(s, u).None? <==> Enabled(s, u) && !ShutSociety(s, u)
    {
      BlockedWhen(s, u);
    }
  }

  // ---------------------------------------------------------------- who is meant

  /** The typed text names the login: by email, ignoring case, or by mobile number. */
  predicate Names(u: User, typed: string) {
    var id := Strip(typed);
    if '@' in id then SameButForCase(u.email, id) else u.phone == Some(id) || u.phone == Some(LoginMobile(id))
  }

  /** Enabled rows before `n` that the text names. */
  function NamedBefore(users: seq<User>, typed: string, n: nat): (ids: set<nat>)
    requires n <= |users|
  {
    set u: nat | u < n && users[u].active && Names(users[u], typed)
  }

  lemma OneMore(before: set<nat>, after: set<nat>, n: nat, hit: bool)
    requires n !in before && forall u :: u in after <==> u in before || (hit && u == n)
    ensures |after| == |before| + (if hit then 1 else 0)
  {
    assert after == before + (if hit then {n} else {});
  }

  lemma {:induction false} MatchingNamed(users: seq<User>, typed: string, n: nat)
    requires n <= |users|
    ensures |Matching(users, typed, n)| == |NamedBefore(users, typed, n)|
    ensures forall u: nat :: u in Matching(users, typed, n) <==> u in NamedBefore(users, typed, n)
  {
    if n > 0 {
      MatchingNamed(users, typed, n - 1);
      var hit := Identifies(users[n - 1], typed);
      CaseIgnored(users[n - 1].email, Strip(typed));
      assert hit <==> users[n - 1].active && Names(users[n - 1], typed);
      OneMore(NamedBefore(users, typed, n - 1), NamedBefore(users, typed, n), n - 1, hit);
    }
  }

  lemma {:induction false} PlaceInMatching(users: seq<User>, typed: string, n: nat, u: nat)
    requires u < n <= |users| && u in Matching(users, typed, n)
    ensures var before := |Matching(users, typed, u)|;
            before < |Matching(users, typed, n)| && Matching(users, typed, n)[before] == u
  {
    if u < n - 1 {
      PlaceInMatching(users, typed, n - 1, u);
    }
  }

  /** The logins tried are the enabled ones the text names, the ten oldest if there are more. */
  lemma CandidatesAreNamed(users: seq<User>, typed: string, u: nat)
    ensures u in Candidates(users, typed)
            <==> && u < |users| && users[u].active && Names(users[u], typed)
                 && |NamedBefore(users, typed, u)| < 10
  {
    var all := Matching(users, typed, |users|);
    MatchingNamed(users, typed, |users|);
    if u < |users| && users[u].active && Names(users[u], typed) {
      assert u in NamedBefore(users, typed, |users|);
      PlaceInMatching(users, typed, |users|, u);
      MatchingNamed(users, typed, u);
      var i := |Matching(users, typed, u)|;
      assert all[i] == u;
      if |all| > MAX_CANDIDATES && i >= MAX_CANDIDATES {
        forall k | 0 <= k < MAX_CANDIDATES
          ensures all[..MAX_CANDIDATES][k] != u
        {
          assert all[k] < all[i];
        }
      } else if |all| > MAX_CANDIDATES {
        assert all[..MAX_CANDIDATES][i] == u;
      }
    } else {
      assert u !in NamedBefore(users, typed, |users|);
    }
  }

  // ---------------------------------------------------------------- spellings of a mobile number

  predicate TenDigits(d: string) {
    |d| == 10 && forall i :: 0 <= i < |d| ==> Digit(d[i])
  }

  /** A typed number that is the ten digits, with +91, 91 or 0 before them, and blanks, dashes and brackets anywhere. */
  predicate Spells(typed: string, d: string) {
    var w := WithoutPunctuation(typed); w == d || w == "+91" + d || w == "91" + d || w == "0" + d
  }

  lemma SpellingsRead(typed: string, d: string)
    requires TenDigits(d) && Spells(typed, d)
    ensures LoginMobile(typed) == d
  {
    var w := WithoutPunctuation(typed);
    if w == "+91" + d {
      assert w[3..] == d;
    } else if w == "91" + d {
      assert w[0] == '9' && w[2..] == d;
    } else if w == "0" + d {
      assert w[0] == '0' && w[1..] == d;
    } else {
      assert w[0] != '+';
    }
  }

  lemma {:induction false} PunctuationSkipped(a: string, b: string)
    ensures WithoutPunctuation(a + b) == WithoutPunctuation(a) + WithoutPunctuation(b)
  {
    if a == "" {
      assert a + b == b;
    } else {
      assert (a + b)[1..] == a[1..] + b;
      PunctuationSkipped(a[1..], b);
    }
  }

  lemma {:induction false} DigitsStay(d: string)
    requires forall i :: 0 <= i < |d| ==> Digit(d[i])
    ensures WithoutPunctuation(d) == d
  {
    if d != "" {
      DigitsStay(d[1..]);
    }
  }

  lemma OneSkipped(c: char)
    requires Blank(c) || c == '-' || c == '(' || c == ')'
    ensures WithoutPunctuation([c]) == ""
  {
  }

  lemma SkippedAfter(a: string, c: char, b: string)
    requires Blank(c) || c == '-' || c == '(' || c == ')'
    ensures WithoutPunctuation(a + ([c] + b)) == WithoutPunctuation(a) + WithoutPunctuation(b)
  {
    OneSkipped(c);
    PunctuationSkipped(a, [c] + b);
    PunctuationSkipped([c], b);
  }

  lemma DashSkipped(a: string, b: string)
    requires TenDigits(a + b)
    ensures WithoutPunctuation(a + ("-" + b)) == a + b
  {
    SkippedAfter(a, '-', b);
    PunctuationSkipped(a, b);
    DigitsStay(a + b);
  }

  lemma BlankSkipped(prefix: string, rest: string)
    ensures WithoutPunctuation(prefix + (" " + rest)) == WithoutPunctuation(prefix) + WithoutPunctuation(rest)
  {
    SkippedAfter(prefix, ' ', rest);
  }

  /** For instance a blank after the prefix and a dash between the parts of a number. */
  lemma DashesSkipped(prefix: string, a: string, b: string)
    requires prefix == "" || prefix == "+91" || prefix == "91" || prefix == "0"
    requires TenDigits(a + b)
    ensures Spells(prefix + (" " + (a + ("-" + b))), a + b)
  {
    PrefixStays(prefix);
    BlankSkipped(prefix, a + ("-" + b));
    DashSkipped(a, b);
    assert "" + (a + b) == a + b;
  }

  lemma PrefixStays(prefix: string)
    requires prefix == "" || prefix == "+91" || prefix == "91" || prefix == "0"
    ensures WithoutPunctuation(prefix) == prefix
  {
    DigitsStay("91");
    if prefix == "+91" {
      assert "+91"[1..] == "91" && "+91" == "+" + "91";
    } else {
      DigitsStay(prefix);
    }
  }

  /** Where accounts store ten digits, every spelling of a number finds the same logins as the digits themselves. */
  lemma SpellingsFindTheSame(users: seq<User>, typed: string, d: string)
    requires TenDigits(d) && Spells(Strip(typed), d) && '@' !in Strip(typed)
    requires forall u :: u in users && u.phone.Some? ==> TenDigits(u.phone.value)
    ensures Candidates(users, typed) == Candidates(users, d)
  {
    StripDigits(d);
    DigitsStay(d);
    SpellingsRead(Strip(typed), d);
    SpellingsRead(d, d);
    forall u | u in users
      ensures Identifies(u, typed) <==> u.active && u.phone == Some(d)
    {
      if u.phone == Some(Strip(typed)) {
        DigitsStay(Strip(typed));
        TenDigitsSpelled(Strip(typed), d);
      }
    }
    forall u | u in users
      ensures Identifies(u, d) <==> u.active && u.phone == Some(d)
    {
    }
    SameMatching(users, typed, d, |users|);
  }

  lemma TenDigitsSpelled(id: string, d: string)
    requires TenDigits(id) && TenDigits(d) && Spells(id, d)
    ensures id == d
  {
    DigitsStay(id);
  }

  lemma StripDigits(d: string)
    requires TenDigits(d)
    ensures Strip(d) == d && '@' !in d
  {
  }

  lemma {:induction false} SameMatching(users: seq<User>, a: string, b: string, n: nat)
    requires n <= |users| && forall u :: u in users ==> (Identifies(u, a) <==> Identifies(u, b))
    ensures Matching(users, a, n) == Matching(users, b, n)
  {
    if n > 0 {
      SameMatching(users, a, b, n - 1);
      assert users[n - 1] in users;
    }
  }
}
