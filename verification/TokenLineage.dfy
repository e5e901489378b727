/** What the tokens descending from one sign-in have in common, and revocation that lasts. */
module TokenLineage {
  import opened Wrappers
  import opened Auth
  import opened AuthHistory

  // ---------------------------------------------------------------- sessions only ever end

  predicate Live(s: State, sid: nat) {
    sid < |s.sessions| && s.sessions[sid].revokedAt.None?
  }

  /** Sessions are added, change hands never, and once revoked stay revoked as they were. */
  ghost predicate SessionsOnlyEnd(before: seq<Session>, after: seq<Session>) {
    && |before| <= |after|
    && forall sid :: 0 <= sid < |before| ==>
         && after[sid].user == before[sid].user
         && (before[sid].revokedAt.Some? ==> after[sid].revokedAt == before[sid].revokedAt)
  }

  lemma OnlyEndTransitive(a: seq<Session>, b: seq<Session>, c: seq<Session>)
    requires SessionsOnlyEnd(a, b) && SessionsOnlyEnd(b, c)
    ensures SessionsOnlyEnd(a, c)
  {
  }

  lemma RevokingOnlyEnds(s: State, sid: nat, u: nat, keep: Option<nat>, reason: string)
    ensures SessionsOnlyEnd(s.sessions, RevokeOne(s, sid, reason).sessions)
    ensures SessionsOnlyEnd(s.sessions, RevokedAll(s.sessions, u, keep, s.now, reason))
  {
  }

  lemma AuthenticateOnlyEnds(s: State, token: Token, gate: Gate)
    ensures SessionsOnlyEnd(s.sessions, Authenticate(s, token, gate).0.sessions)
    ensures |Authenticate(s, token, gate).0.users| == |s.users|
  {
  }

  lemma LoginOnlyEnds(s: State, typed: string, password: string, society: Option<nat>, cfg: Settings)
    ensures SessionsOnlyEnd(s.sessions, Login(s, typed, password, society, cfg).0.sessions)
  {
  }

  lemma RefreshOnlyEnds(s: State, token: Token, cfg: Settings)
    ensures SessionsOnlyEnd(s.sessions, RefreshTokens(s, token, cfg).0.sessions)
  {
  }

  lemma SwitchOnlyEnds(s: State, caller: Caller, target: Option<nat>, cfg: Settings)
    requires target.Some? ==> target.value < |s.users|
    ensures SessionsOnlyEnd(s.sessions, SwitchSociety(s, caller, target, cfg).0.sessions)
  {
  }

  lemma ActionOnlyEnds(s: State, caller: Caller, action: Action, cfg: Settings)
    requires caller.user < |s.users|
    requires action.Switch? && action.target.Some? ==> action.target.value < |s.users|
    ensures SessionsOnlyEnd(s.sessions, Acted(s, caller, action, cfg).0.sessions)
  {
  }

  lemma StepOnlyEndsSessions(w: World, e: Event, cfg: Settings)
    requires Possible(w, e)
    ensures SessionsOnlyEnd(w.auth.sessions, Do(w, e, cfg).auth.sessions)
  {
    match e
    case SignIn(typed, password, society) => LoginOnlyEnds(w.auth, typed, password, society, cfg);
    case Refreshing(k) => RefreshOnlyEnds(w.auth, w.minted[k].token, cfg);
    case Request(k, gate, action) =>
      AuthenticateOnlyEnds(w.auth, w.minted[k].token, gate);
      var (seen, who) := Authenticate(w.auth, w.minted[k].token, gate);
      if who.Success? {
        ActionOnlyEnds(seen, who.value, action, cfg);
        OnlyEndTransitive(w.auth.sessions, seen.sessions, Acted(seen, who.value, action, cfg).0.sessions);
      }
    case PasswordReset(u, secret) => RevokingOnlyEnds(w.auth, 0, u, None, "password_reset");
    case Administration(users, shut) =>
    case Tick(later) =>
  }

  ghost predicate EachOnlyEnds(h: seq<World>) {
    forall i :: 0 <= i < |h| - 1 ==> SessionsOnlyEnd(h[i].auth.sessions, h[i + 1].auth.sessions)
  }

  lemma {:induction false} ChainOnlyEnds(h: seq<World>, i: nat, j: nat)
    requires EachOnlyEnds(h) && i <= j < |h|
    ensures SessionsOnlyEnd(h[i].auth.sessions, h[j].auth.sessions)
  {
    if i < j {
      ChainOnlyEnds(h, i, j - 1);
      OnlyEndTransitive(h[i].auth.sessions, h[j - 1].auth.sessions, h[j].auth.sessions);
    }
  }

  lemma RunOnlyEndsSessions(h: seq<World>, events: seq<Event>, cfg: Settings, i: nat, j: nat)
    requires History(h, events, cfg) && i <= j < |h|
    ensures SessionsOnlyEnd(h[i].auth.sessions, h[j].auth.sessions)
  {
    forall k | 0 <= k < |h| - 1
      ensures SessionsOnlyEnd(h[k].auth.sessions, h[k + 1].auth.sessions)
    {
      StepOnlyEndsSessions(h[k], events[k], cfg);
    }
    ChainOnlyEnds(h, i, j);
  }

  /** A token of a session that has ended, or of somebody else's session, is refused everywhere. */
  lemma DeadSessionRefused(s: State, token: Token, gate: Gate, cfg: Settings)
    requires token.sid.Some? && !IsLive(s, token.sid.value, token.sub)
    ensures RefreshTokens(s, token, cfg).1.Denied? && RefreshTokens(s, token, cfg).0 == s
    ensures Authenticate(s, token, gate).1.Failure? && Authenticate(s, token, gate).0 == s
  {
  }

  /** Once a session has ended, its tokens are refused by refresh and by every request, for the rest of the run. */
  lemma RevokedForGood(h: seq<World>, events: seq<Event>, cfg: Settings, i: nat, j: nat, token: Token, gate: Gate)
    requires History(h, events, cfg) && i <= j < |h|
    requires token.sid.Some? && token.sid.value < |h[i].auth.sessions|
    requires !IsLive(h[i].auth, token.sid.value, token.sub)
    ensures RefreshTokens(h[j].auth, token, cfg).1.Denied?
    ensures Authenticate(h[j].auth, token, gate).1.Failure?
  {
    RunOnlyEndsSessions(h, events, cfg, i, j);
    DeadSessionRefused(h[j].auth, token, gate, cfg);
  }

  /**
  After a password change, every token the login had on another device is refused for
  the rest of the run.
  */
  lemma PasswordChangeLocksOthersOut(h: seq<World>, events: seq<Event>, cfg: Settings, i: nat, j: nat, token: Token,
                                     gate: Gate, caller: Caller, current: string, next: string)
    requires History(h, events, cfg) && i < j < |h|
    requires events[i].Request? && events[i].action == NewPassword(current, next)
    requires Authenticate(h[i].auth, h[i].minted[events[i].k].token, events[i].gate).1 == Success(caller)
    requires ChangePassword(Authenticate(h[i].auth, h[i].minted[events[i].k].token, events[i].gate).0, caller,
                            current, next, cfg).1.None?
    requires token.sub == caller.user && token.sid.Some? && token.sid != caller.session
    requires token.sid.value < |h[i].auth.sessions|
    ensures RefreshTokens(h[j].auth, token, cfg).1.Denied?
    ensures Authenticate(h[j].auth, token, gate).1.Failure?
  {
    var seen := Authenticate(h[i].auth, h[i].minted[events[i].k].token, events[i].gate).0;
    RevokedAllEnds(seen.sessions, caller.user, caller.session, seen.now, "password_changed");
    var after := h[i + 1].auth;
    assert after.sessions == RevokedAll(seen.sessions, caller.user, caller.session, seen.now, "password_changed");
    assert token.sid.value !in LiveOthers(after.sessions, caller.user, caller.session);
    RevokedForGood(h, events, cfg, i + 1, j, token, gate);
  }

  // ---------------------------------------------------------------- lineages

  function SetOf(ids: seq<nat>): (ids': set<nat>) {
    set id | id in ids
  }

  /** The peers every token of a sign-in carries. */
  function PeersOf(usable: seq<nat>): (peers: set<nat>) {
    if |usable| > 1 then SetOf(usable) else {}
  }

  ghost predicate TokenFits(w: World, m: Minted) {
    && m.origin < |w.origins|
    && SetOf(m.token.peers) == PeersOf(w.origins[m.origin])
    && m.token.sub in w.origins[m.origin]
    && m.token.sid.Some? && m.token.sid.value < |w.auth.sessions|
    && w.auth.sessions[m.token.sid.value].user == m.token.sub
  }

  /** Tokens of one session share their origin; of one origin at most one session is live. */
  ghost predicate PairFits(w: World, m: Minted, n: Minted) {
    m.token.sid.Some? && n.token.sid.Some? ==>
      && (m.token.sid == n.token.sid ==> m.origin == n.origin)
      && (m.origin == n.origin && Live(w.auth, m.token.sid.value) && Live(w.auth, n.token.sid.value) ==>
            m.token.sid == n.token.sid)
  }

  ghost predicate Lineages(w: World) {
    && (forall k :: 0 <= k < |w.minted| ==> TokenFits(w, w.minted[k]))
    && (forall j, k :: 0 <= j < |w.minted| && 0 <= k < |w.minted| ==> PairFits(w, w.minted[j], w.minted[k]))
  }

  /** Runs start before any token is minted. */
  lemma NoTokensYet(w: World)
    requires w.minted == []
    ensures Lineages(w)
  {
  }

  /** Users come and go, the clock runs, sessions end: the lineages stand. */
  lemma LineagesStand(w: World, s: State)
    requires Lineages(w) && SessionsOnlyEnd(w.auth.sessions, s.sessions)
    ensures Lineages(w.(auth := s))
  {
  }

  /** Two fresh tokens of one session join a lineage. */
  lemma TokensJoin(w: World, access: Token, refresh: Token, origin: nat)
    requires Lineages(w)
    requires TokenFits(w, Minted(access, origin)) && TokenFits(w, Minted(refresh, origin)) && access.sid == refresh.sid
    requires forall k :: 0 <= k < |w.minted| ==> PairFits(w, w.minted[k], Minted(access, origin))
    ensures Lineages(Collected(w, Tokens(access, refresh), origin))
  {
  }

  /** Both tokens are of a new session of one of the logins, and carry them as peers when there are several. */
  ghost predicate MintsFresh(s: State, after: State, reply: Reply, usable: seq<nat>) {
    && reply.Tokens?
    && reply.access.sub in usable && reply.refresh.sub == reply.access.sub
    && reply.access.sid == reply.refresh.sid == Some(|s.sessions|)
    && reply.access.peers == reply.refresh.peers == (if |usable| > 1 then usable else [])
    && after.sessions == s.sessions + [Session(reply.access.sub, Some(s.now), None, "")]
  }

  /** What a sign-in that succeeds mints. */
  lemma LoginMintsFresh(s: State, typed: string, password: string, society: Option<nat>, cfg: Settings)
    requires Login(s, typed, password, society, cfg).1.Tokens?
    ensures var (after, reply) := Login(s, typed, password, society, cfg);
            MintsFresh(s, after, reply, Usable(s, Matched(s, typed, password, cfg)))
  {
  }

  /** Fresh tokens start a lineage of their own. */
  lemma NewLineage(w: World, after: State, reply: Reply, usable: seq<nat>)
    requires Lineages(w) && MintsFresh(w.auth, after, reply, usable)
    ensures Lineages(Collected(w.(auth := after, origins := w.origins + [usable]), reply, |w.origins|))
  {
    LineagesStand(w, after);
    var w1 := w.(auth := after, origins := w.origins + [usable]);
    forall k | 0 <= k < |w1.minted|
      ensures TokenFits(w1, w1.minted[k]) && PairFits(w1, w1.minted[k], Minted(reply.access, |w.origins|))
    {
      assert TokenFits(w, w.minted[k]);
    }
    forall j, k | 0 <= j < |w1.minted| && 0 <= k < |w1.minted|
      ensures PairFits(w1, w1.minted[j], w1.minted[k])
    {
      assert PairFits(w.(auth := after), w.minted[j], w.minted[k]);
    }
    TokensJoin(w1, reply.access, reply.refresh, |w.origins|);
  }

  /** A sign-in starts a lineage of its own: its peers are the logins usable with the password. */
  lemma SignInJoins(w: World, typed: string, password: string, society: Option<nat>, cfg: Settings)
    requires Lineages(w)
    ensures Lineages(SignedIn(w, typed, password, society, cfg))
  {
    var (after, reply) := Login(w.auth, typed, password, society, cfg);
    if reply.Tokens? {
      LoginMintsFresh(w.auth, typed, password, society, cfg);
      NewLineage(w, after, reply, Usable(w.auth, Matched(w.auth, typed, password, cfg)));
    } else {
      LoginOnlyEnds(w.auth, typed, password, society, cfg);
      LineagesStand(w, after);
    }
  }

  /** The usable logins are all different, the oldest first: several of them are several logins. */
  lemma UsableOldestFirst(s: State, typed: string, password: string, cfg: Settings)
    ensures OldestFirst(Usable(s, Matched(s, typed, password, cfg)))
  {
    FilterKeepsOrder(Candidates(s.users, typed),
                     (id: nat) => id < |s.users| && cfg.verify(password, s.users[id].secret));
    FilterKeepsOrder(Matched(s, typed, password, cfg), (id: nat) => id < |s.users| && Blocked(s, id).None?);
  }

  predicate BelongsTo(s: State, u: nat, society: nat) {
    u < |s.users| && s.users[u].society == Some(society)
  }

  /** The login the identifier is counted against is not locked. */
  predicate Unlocked(s: State, typed: string) {
    Candidates(s.users, typed) != [] && !TooManyFailures(s, Candidates(s.users, typed)[0])
  }

  /** Naming no society signs in exactly when one login is usable, and offers the choice exactly when several are. */
  lemma SignsInWithoutSociety(s: State, typed: string, password: string, cfg: Settings)
    ensures var reply := Login(s, typed, password, None, cfg).1;
            var usable := Usable(s, Matched(s, typed, password, cfg));
            && (reply.Tokens? <==> Unlocked(s, typed) && |usable| == 1)
            && (reply.Choose? <==> Unlocked(s, typed) && |usable| > 1)
            && (reply.Choose? ==> reply.logins == usable)
  {
  }

  /** Naming a society signs in to a usable login of that society, exactly when there is one. */
  lemma SignsInToSociety(s: State, typed: string, password: string, society: nat, cfg: Settings)
    ensures var reply := Login(s, typed, password, Some(society), cfg).1;
            var usable := Usable(s, Matched(s, typed, password, cfg));
            && (reply.Tokens? <==> Unlocked(s, typed) && exists u :: u in usable && BelongsTo(s, u, society))
            && (reply.Tokens? ==> BelongsTo(s, reply.access.sub, society))
            && !reply.Choose?
  {
    var usable := Usable(s, Matched(s, typed, password, cfg));
    var chosen := OfSociety(s, usable, society);
    assert chosen != [] ==> chosen[0] in chosen;
    assert forall u :: u in chosen <==> u in usable && BelongsTo(s, u, society);
  }

  /** After a switch the device's session has ended and a session of the login in the other society has begun. */
  lemma SwitchHandsOver(s: State, caller: Caller, to: nat, target: Option<nat>, cfg: Settings)
    requires TargetPicked(s, caller, to, target)
    requires SwitchSociety(s, caller, target, cfg).1.Tokens?
    requires caller.session.Some? ==> caller.session.value < |s.sessions|
    ensures var (after, reply) := SwitchSociety(s, caller, target, cfg);
            && reply.access.sub in caller.peers && s.users[reply.access.sub].society == Some(to)
            && reply.access.sub != caller.user && Blocked(s, reply.access.sub).None?
            && (caller.session.Some? ==> !Live(after, caller.session.value))
            && reply.access.sid == reply.refresh.sid == Some(|s.sessions|)
            && IsLive(after, |s.sessions|, reply.access.sub)
            && forall sid :: 0 <= sid < |s.sessions| && caller.session != Some(sid) ==>
                 after.sessions[sid] == s.sessions[sid]
  {
  }

  lemma RefreshJoins(w: World, k: nat, cfg: Settings)
    requires Lineages(w) && k < |w.minted|
    ensures Lineages(Refreshed(w, k, cfg))
  {
    var (after, reply) := RefreshTokens(w.auth, w.minted[k].token, cfg);
    assert TokenFits(w, w.minted[k]);
    RefreshOnlyEnds(w.auth, w.minted[k].token, cfg);
    LineagesStand(w, after);
    if reply.Tokens? {
      var w1 := w.(auth := after);
      var o := w.minted[k].origin;
      assert TokenFits(w1, w1.minted[k]);
      forall j | 0 <= j < |w1.minted|
        ensures PairFits(w1, w1.minted[j], Minted(reply.access, o))
      {
        assert PairFits(w1, w1.minted[j], w1.minted[k]);
      }
      TokensJoin(w1, reply.access, reply.refresh, o);
    }
  }

  /** A switch ends the presented session, the lineage's only live one, and starts the next. */
  lemma SwitchJoins(w: World, k: nat, caller: Caller, to: nat, target: Option<nat>, cfg: Settings)
    requires Lineages(w) && k < |w.minted|
    requires target.Some? ==> target.value < |w.auth.users|
    requires caller == Caller(w.minted[k].token.sub, w.minted[k].token.sid, w.minted[k].token.peers)
    requires TargetPicked(w.auth, caller, to, target)
    requires caller.session.Some? && Live(w.auth, caller.session.value)
    ensures var (after, reply) := SwitchSociety(w.auth, caller, target, cfg);
            Lineages(Collected(w.(auth := after), reply, w.minted[k].origin))
  {
    var (after, reply) := SwitchSociety(w.auth, caller, target, cfg);
    SwitchOnlyEnds(w.auth, caller, target, cfg);
    LineagesStand(w, after);
    if reply.Tokens? {
      var o := w.minted[k].origin;
      var w1 := w.(auth := after);
      var peers := Distinct(caller.peers + [caller.user]);
      assert TokenFits(w, w.minted[k]) && TokenFits(w1, w1.minted[k]);
      SamePeers(w.origins[o], caller, target.value);
      forall j | 0 <= j < |w1.minted|
        ensures PairFits(w1, w1.minted[j], Minted(reply.access, o))
      {
        assert TokenFits(w, w.minted[j]) && PairFits(w, w.minted[j], w.minted[k]);
      }
      TokensJoin(w1, reply.access, reply.refresh, o);
    }
  }

  /** Adding the caller to peers that include the caller and another adds nobody. */
  lemma SamePeers(usable: seq<nat>, caller: Caller, target: nat)
    requires SetOf(caller.peers) == PeersOf(usable) && caller.user in usable
    requires target in caller.peers && target != caller.user
    ensures var peers := Distinct(caller.peers + [caller.user]);
            |peers| > 1 && SetOf(peers) == PeersOf(usable) && target in usable
  {
    var peers := Distinct(caller.peers + [caller.user]);
    assert target in SetOf(caller.peers);
    assert caller.user in SetOf(usable);
    forall id
      ensures id in SetOf(peers) <==> id in PeersOf(usable)
    {
      assert id in SetOf(caller.peers) <==> id in PeersOf(usable);
    }
    assert target in peers && caller.user in peers;
    var i :| 0 <= i < |peers| && peers[i] == target;
    var j :| 0 <= j < |peers| && peers[j] == caller.user;
    assert i != j;
  }

  lemma RequestJoins(w: World, k: nat, gate: Gate, action: Action, cfg: Settings)
    requires Lineages(w) && Possible(w, Request(k, gate, action))
    ensures Lineages(Requested(w, k, gate, action, cfg))
  {
    var token := w.minted[k].token;
    var (seen, who) := Authenticate(w.auth, token, gate);
    assert TokenFits(w, w.minted[k]);
    AuthenticateOnlyEnds(w.auth, token, gate);
    LineagesStand(w, seen);
    if who.Success? {
      var w1 := w.(auth := seen);
      assert Live(seen, token.sid.value);
      if action.Switch? {
        SwitchJoins(w1, k, who.value, action.to, action.target, cfg);
      } else {
        ActionOnlyEnds(seen, who.value, action, cfg);
        LineagesStand(w1, Acted(seen, who.value, action, cfg).0);
      }
    }
  }

  lemma StepKeepsLineages(w: World, e: Event, cfg: Settings)
    requires Lineages(w) && Possible(w, e)
    ensures Lineages(Do(w, e, cfg))
  {
    match e
    case SignIn(typed, password, society) => SignInJoins(w, typed, password, society, cfg);
    case Refreshing(k) => RefreshJoins(w, k, cfg);
    case Request(k, gate, action) => RequestJoins(w, k, gate, action, cfg);
    case PasswordReset(u, secret) =>
      RevokingOnlyEnds(w.auth, 0, u, None, "password_reset");
      LineagesStand(w, ResetPassword(w.auth, u, secret));
    case Administration(users, shut) => LineagesStand(w, w.auth.(users := users, shut := shut));
    case Tick(later) => LineagesStand(w, w.auth.(now := later));
  }

  lemma {:induction false} RunsKeepLineages(h: seq<World>, events: seq<Event>, cfg: Settings, i: nat)
    requires History(h, events, cfg) && Lineages(h[0]) && i < |h|
    ensures Lineages(h[i])
  {
    if i > 0 {
      RunsKeepLineages(h, events, cfg, i - 1);
      StepKeepsLineages(h[i - 1], events[i - 1], cfg);
    }
  }

  /** The logins of a sign-in: those the identifier could be whose password matched and that could be used. */
  lemma SignInLogins(s: State, typed: string, password: string, cfg: Settings, id: nat)
    ensures id in Usable(s, Matched(s, typed, password, cfg))
            <==> id in Candidates(s.users, typed) && cfg.verify(password, s.users[id].secret) && Blocked(s, id).None?
  {
  }

  /** Tokens and sign-ins are never forgotten or changed. */
  ghost predicate Extends(w: World, w': World) {
    w.minted <= w'.minted && w.origins <= w'.origins
  }

  lemma {:induction false} RunExtends(h: seq<World>, events: seq<Event>, cfg: Settings, i: nat, j: nat)
    requires History(h, events, cfg) && i <= j < |h|
    ensures Extends(h[i], h[j])
  {
    if i < j {
      RunExtends(h, events, cfg, i, j - 1);
      StepExtends(h[j - 1], events[j - 1], cfg);
    }
  }

  lemma StepExtends(w: World, e: Event, cfg: Settings)
    requires Possible(w, e)
    ensures Extends(w, Do(w, e, cfg))
  {
  }

  /**
  Every token descending from one sign-in, through any number of refreshes and switches,
  belongs to one of the logins usable at that sign-in, carries exactly those logins as
  peers, or none when there was just one, and the sign-in never has two live sessions.
  */
  lemma OneLineage(h: seq<World>, events: seq<Event>, cfg: Settings, i: nat, j: nat, k: nat, typed: string,
                   password: string, society: Option<nat>, now: nat)
    requires History(h, events, cfg) && Lineages(h[0])
    requires i < now < |h| && events[i] == SignIn(typed, password, society)
    requires Login(h[i].auth, typed, password, society, cfg).1.Tokens?
    requires j < |h[now].minted| && k < |h[now].minted|
    requires h[now].minted[j].origin == h[now].minted[k].origin == |h[i].origins|
    ensures var usable := Usable(h[i].auth, Matched(h[i].auth, typed, password, cfg));
            var one, other := h[now].minted[j].token, h[now].minted[k].token;
            && one.sub in usable && other.sub in usable
            && SetOf(one.peers) == SetOf(other.peers) == PeersOf(usable)
            && one.sid.Some? && other.sid.Some?
            && (Live(h[now].auth, one.sid.value) && Live(h[now].auth, other.sid.value) ==> one.sid == other.sid)
  {
    RunsKeepLineages(h, events, cfg, now);
    RunExtends(h, events, cfg, i + 1, now);
    assert h[i + 1] == SignedIn(h[i], typed, password, society, cfg);
    assert h[i + 1].origins[|h[i].origins|] == Usable(h[i].auth, Matched(h[i].auth, typed, password, cfg));
    assert TokenFits(h[now], h[now].minted[j]) && TokenFits(h[now], h[now].minted[k]);
    assert PairFits(h[now], h[now].minted[j], h[now].minted[k]);
  }
}
