/** Signing in, switching and signing out as the program does them, on tables it rewrites. */
module AuthService {
  import opened Wrappers
  import opened Auth

  ghost function RevokedThose(sessions: seq<Session>, ended: set<nat>, now: Time, reason: string)
    : (after: seq<Session>)
  {
    seq(|sessions|, i requires 0 <= i < |sessions| =>
      if i in ended then Revoked(sessions[i], now, reason) else sessions[i])
  }

  lemma RevokedOneMore(sessions: seq<Session>, ended: set<nat>, sid: nat, now: Time, reason: string)
    requires sid < |sessions| && sid !in ended
    ensures RevokedThose(sessions, ended + {sid}, now, reason)
            == RevokedThose(sessions, ended, now, reason)[sid := Revoked(sessions[sid], now, reason)]
  {
  }

  ghost function Ended(rows: seq<nat>, keep: Option<nat>): (ended: set<nat>) {
    set x | x in rows && keep != Some(x)
  }

  lemma EndedNext(rows: seq<nat>, i: nat, keep: Option<nat>)
    requires i < |rows| && forall i, j :: 0 <= i < j < |rows| ==> rows[i] != rows[j]
    ensures rows[i] !in Ended(rows[..i], keep)
    ensures Ended(rows[..i + 1], keep) == Ended(rows[..i], keep) + (if keep == Some(rows[i]) then {} else {rows[i]})
  {
  }

  lemma EndedAll(rows: seq<nat>, sessions: seq<Session>, u: nat, keep: Option<nat>)
    requires (set sid | sid in rows) == LiveOthers(sessions, u, None)
    ensures Ended(rows, keep) == LiveOthers(sessions, u, keep)
  {
    forall x: nat
      ensures x in Ended(rows, keep) <==> x in LiveOthers(sessions, u, keep)
    {
      assert x in rows <==> x in LiveOthers(sessions, u, None);
    }
  }

  lemma RevokedLiveOthers(sessions: seq<Session>, u: nat, keep: Option<nat>, now: Time, reason: string)
    ensures RevokedThose(sessions, LiveOthers(sessions, u, keep), now, reason)
            == RevokedAll(sessions, u, keep, now, reason)
  {
  }

  class AuthService {
    var users: seq<User>
    var sessions: seq<Session>
    var failures: seq<Attempt>
    var shut: set<nat>
    var now: Time
    const cfg: Settings

    constructor (s: State, cfg: Settings)
      ensures Tables() == s && this.cfg == cfg
    {
      users, sessions, failures, shut, now := s.users, s.sessions, s.failures, s.shut, s.now;
      this.cfg := cfg;
    }

    function Tables(): (s: State)
      reads this
    {
      State(users, sessions, failures, shut, now)
    }

    // -------------------------------------------------------------- sessions

    method StartSession(u: nat) returns (sid: nat)
      modifies this`sessions
      ensures sid == |old(sessions)| && sessions == old(sessions) + [Session(u, Some(now), None, "")]
    {
      sid := |sessions|;
      sessions := sessions + [Session(u, Some(now), None, "")];
    }

    method Touch(sid: nat)
      requires sid < |sessions|
      modifies this`sessions
      ensures Tables() == Touched(old(Tables()), sid)
    {
      if sessions[sid].lastSeen.None? || now - sessions[sid].lastSeen.value >= TOUCH_EVERY {
        sessions := sessions[sid := sessions[sid].(lastSeen := Some(now))];
      }
    }

    /** The user's sessions that are not revoked. */
    method LiveFor(u: nat) returns (rows: seq<nat>)
      ensures (set sid | sid in rows) == LiveOthers(sessions, u, None)
      ensures forall i :: 0 <= i < |rows| ==> rows[i] < |sessions|
      ensures forall i, j :: 0 <= i < j < |rows| ==> rows[i] != rows[j]
    {
      rows := [];
      for sid := 0 to |sessions|
        invariant forall x: nat :: x in rows <==> x < sid && IsLive(Tables(), x, u)
        invariant forall i :: 0 <= i < |rows| ==> rows[i] < sid
        invariant forall i, j :: 0 <= i < j < |rows| ==> rows[i] != rows[j]
      {
        if IsLive(Tables(), sid, u) {
          rows := rows + [sid];
        }
      }
    }

    method Revoke(sid: nat, reason: string)
      requires sid < |sessions|
      modifies this`sessions
      ensures sessions == old(sessions)[sid := Revoked(old(sessions)[sid], now, reason)]
    {
      if sessions[sid].revokedAt.None? {
        sessions := sessions[sid := sessions[sid].(revokedAt := Some(now), reason := reason)];
      }
    }

    /** Signs a user out everywhere but on the kept device; how many devices that were. */
    method RevokeAll(u: nat, reason: string, keep: Option<nat>) returns (n: nat)
      modifies this`sessions
      ensures sessions == RevokedAll(old(sessions), u, keep, now, reason)
      ensures n == |LiveOthers(old(sessions), u, keep)|
    {
      n := 0;
      var rows := LiveFor(u);
      ghost var before := sessions;
      ghost var ended: set<nat> := {};
      assert sessions == RevokedThose(before, {}, now, reason);
      for i := 0 to |rows|
        invariant sessions == RevokedThose(before, ended, now, reason)
        invariant ended == Ended(rows[..i], keep)
        invariant n == |ended|
      {
        EndedNext(rows, i, keep);
        if keep.Some? && rows[i] == keep.value {
          continue;
        }
        Revoke(rows[i], reason);
        RevokedOneMore(before, ended, rows[i], now, reason);
        n := n + 1;
        ended := ended + {rows[i]};
      }
      assert rows[..|rows|] == rows;
      EndedAll(rows, before, u, keep);
      RevokedLiveOthers(before, u, keep, now, reason);
    }

    // -------------------------------------------------------------- signing in

    method UsableOf(ids: seq<nat>) returns (usable: seq<nat>, reason: Option<Why>)
      requires Known(Tables(), ids)
      ensures usable == Usable(Tables(), ids) && reason == FirstReason(Tables(), ids)
    {
      usable, reason := [], None;
      for i := 0 to |ids|
        invariant usable == Usable(Tables(), ids[..i]) && reason == FirstReason(Tables(), ids[..i])
      {
        assert ids[..i + 1][..i] == ids[..i];
        var blocked := Blocked(Tables(), ids[i]);
        if blocked.None? {
          usable := usable + [ids[i]];
        } else if reason.None? {
          reason := blocked;
        }
      }
      assert ids[..|ids|] == ids;
    }

    method IssueTokens(u: nat, peers: seq<nat>) returns (reply: Reply)
      requires u < |users|
      modifies this
      ensures (Tables(), reply) == Issue(old(Tables()), u, peers, cfg)
    {
      var sid := StartSession(u);
      var carried := if |peers| > 1 then peers else [];
      reply := Tokens(Token(Access, u, Some(sid), carried, now + cfg.accessLife),
                      Token(Refresh, u, Some(sid), carried, now + cfg.refreshLife));
      users := users[u := users[u].(lastLogin := Some(now))];
    }

    method Login(typed: string, password: string, society: Option<nat>) returns (reply: Reply)
      modifies this
      ensures (Tables(), reply) == Auth.Login(old(Tables()), typed, password, society, cfg)
    {
      var candidates := Candidates(users, typed);
      if candidates == [] {
        return Denied(BadCredentials);
      }
      var primary := candidates[0];
      if TooManyFailures(Tables(), primary) {
        return Denied(TooManyAttempts);
      }
      var matched := Matched(Tables(), typed, password, cfg);
      if matched == [] {
        failures := failures + [Attempt(primary, now)];
        return Denied(BadCredentials);
      }
      var usable, reason := UsableOf(matched);
      if usable == [] {
        SomeReason(Tables(), matched);
        return Denied(reason.value);
      }
      var u;
      if society.Some? {
        var chosen := OfSociety(Tables(), usable, society.value);
        if chosen == [] {
          return Denied(NotYourSociety);
        }
        u := chosen[0];
      } else if |usable| > 1 {
        return Choose(usable);
      } else {
        u := usable[0];
      }
      reply := IssueTokens(u, usable);
    }

    method RefreshSession(token: Token) returns (reply: Reply)
      modifies this
      ensures (Tables(), reply) == RefreshTokens(old(Tables()), token, cfg)
    {
      if token.exp < now || token.kind != Refresh {
        return Denied(InvalidToken);
      }
      var u := token.sub;
      if u >= |users| || !users[u].active || users[u].status != Active {
        return Denied(UserNotFound);
      }
      if ShutOut(Tables(), u) {
        return Denied(SocietyShut);
      }
      var sid;
      if token.sid.Some? {
        if !IsLive(Tables(), token.sid.value, u) {
          return Denied(SignedOut);
        }
        sid := token.sid.value;
        Touch(sid);
      } else {
        sid := StartSession(u);
      }
      reply := Tokens(Token(Access, u, Some(sid), token.peers, now + cfg.accessLife),
                      Token(Refresh, u, Some(sid), token.peers, now + cfg.refreshLife));
    }

    method CurrentUser(token: Token, gate: Gate) returns (out: Result<Caller, Why>)
      modifies this
      ensures (Tables(), out) == Authenticate(old(Tables()), token, gate)
    {
      if token.exp < now || token.kind != Access {
        return Failure(InvalidToken);
      }
      var u := token.sub;
      if u >= |users| || !users[u].active || users[u].status != Active {
        return Failure(UserNotFound);
      }
      if token.sid.Some? {
        if !IsLive(Tables(), token.sid.value, u) {
          return Failure(SignedOut);
        }
        Touch(token.sid.value);
      }
      if gate.refused || (ShutOut(Tables(), u) && !gate.openWhenShut) {
        return Failure(Forbidden);
      }
      out := Success(Caller(u, token.sid, token.peers));
    }

    method SwitchSociety(caller: Caller, society: nat) returns (reply: Reply, target: Option<nat>)
      modifies this
      ensures TargetPicked(old(Tables()), caller, society, target)
      ensures (Tables(), reply) == Auth.SwitchSociety(old(Tables()), caller, target, cfg)
    {
      if exists u :: u in caller.peers && SwitchTarget(Tables(), caller, society, u) {
        var u :| u in caller.peers && SwitchTarget(Tables(), caller, society, u);
        target := Some(u);
      } else {
        target := None;
      }
      if target.None? || target.value == caller.user {
        return Denied(CannotSwitch), target;
      }
      if caller.session.Some? && caller.session.value < |sessions| {
        Revoke(caller.session.value, "switched_society");
      }
      reply := IssueTokens(target.value, Distinct(caller.peers + [caller.user]));
    }

    method ChangePassword(caller: Caller, current: string, next: string) returns (refused: Option<Why>)
      requires caller.user < |users|
      modifies this
      ensures (Tables(), refused) == Auth.ChangePassword(old(Tables()), caller, current, next, cfg)
      ensures refused.None? ==> LiveOthers(sessions, caller.user, caller.session) == {}
    {
      if !cfg.verify(current, users[caller.user].secret) {
        return Some(WrongPassword);
      }
      users := users[caller.user := users[caller.user].(secret := cfg.hash(next), mustChange := false)];
      RevokedAllEnds(sessions, caller.user, caller.session, now, "password_changed");
      var n := RevokeAll(caller.user, "password_changed", caller.session);
      refused := None;
    }
  }
}
