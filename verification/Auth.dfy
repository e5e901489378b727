/**
Sign-in, device sessions and society switching. Users and sessions are rows in the
order they were created; a login belongs to one society, and a person has one login
in each. Tokens are records nobody but the service can mint.
*/
module Auth {
  import opened Wrappers
  import opened Text

  type Time = int

  const MAX_FAILED_LOGINS := 10
  const FAILED_LOGIN_WINDOW: Time := 900   // seconds
  const TOUCH_EVERY: Time := 300
  const MAX_CANDIDATES := 10

  datatype UserStatus = Active | Inactive | Suspended | Pending

  datatype User = User(society: Option<nat>, email: string, phone: Option<string>, secret: string, status: UserStatus,
                       active: bool, superadmin: bool, mustChange: bool, lastLogin: Option<Time>)

  datatype Session = Session(user: nat, lastSeen: Option<Time>, revokedAt: Option<Time>, reason: string)

  datatype Attempt = Attempt(user: nat, at: Time)

  /** `shut` are the societies that are suspended or closed. */
  datatype State = State(users: seq<User>, sessions: seq<Session>, failures: seq<Attempt>, shut: set<nat>, now: Time)

  datatype Kind = Access | Refresh

  /** A token without a session is one from before sessions existed. */
  datatype Token = Token(kind: Kind, sub: nat, sid: Option<nat>, peers: seq<nat>, exp: Time)

  /** How passwords are checked and hashed, and how long tokens last. */
  datatype Settings = Settings(verify: (string, string) -> bool, hash: string -> string,
                               accessLife: Time, refreshLife: Time)

  datatype Why =
    | BadCredentials | TooManyAttempts | AccountNotActive | AccountDisabled | SocietyShut | NotYourSociety
    | CannotSwitch | WrongPassword | InvalidToken | UserNotFound | SignedOut | Forbidden | DeviceNotFound

  datatype Reply = Tokens(access: Token, refresh: Token) | Choose(logins: seq<nat>) | Denied(why: Why)

  /** Who is making a request: the login, its device session, and the peers its token carries. */
  datatype Caller = Caller(user: nat, session: Option<nat>, peers: seq<nat>)

  // ---------------------------------------------------------------- who can sign in

  function WithoutPunctuation(s: string): (t: string) {
    if s == "" then ""
    else (if Blank(s[0]) || s[0] in {'-', '(', ')'} then "" else [s[0]]) + WithoutPunctuation(s[1..])
  }

  /** A typed mobile number as the ten digits accounts store. */
  function LoginMobile(value: string): (digits: string) {
    var d := WithoutPunctuation(value);
    if "+91" <= d then d[3..]
    else if "91" <= d && |d| == 12 then d[2..]
    else if "0" <= d && |d| == 11 then d[1..]
    else d
  }

  predicate Identifies(u: User, typed: string) {
    var id := Strip(typed);
    && u.active
    && if '@' in id then Lower(u.email) == Lower(id) else u.phone == Some(id) || u.phone == Some(LoginMobile(id))
  }

  /** The logins among the first `n` that the typed identifier could be, oldest first. */
  function Matching(users: seq<User>, typed: string, n: nat): (ids: seq<nat>)
    requires n <= |users|
    ensures forall i :: 0 <= i < |ids| ==> ids[i] < n
    ensures forall i, j :: 0 <= i < j < |ids| ==> ids[i] < ids[j]
  {
    if n == 0 then []
    else Matching(users, typed, n - 1) + (if Identifies(users[n - 1], typed) then [n - 1] else [])
  }

  function Candidates(users: seq<User>, typed: string): (ids: seq<nat>)
    ensures forall i :: 0 <= i < |ids| ==> ids[i] < |users|
    ensures forall i, j :: 0 <= i < j < |ids| ==> ids[i] < ids[j]
  {
    var all := Matching(users, typed, |users|);
    if |all| > MAX_CANDIDATES then all[..MAX_CANDIDATES] else all
  }

  /** A suspended or closed society shuts everybody out but platform admins. */
  predicate ShutOut(s: State, u: nat)
    requires u < |s.users|
  {
    s.users[u].society.Some? && !s.users[u].superadmin && s.users[u].society.value in s.shut
  }

  /** Why a login cannot be used right now, if it cannot. */
  function Blocked(s: State, u: nat): (why: Option<Why>)
    requires u < |s.users|
  {
    if s.users[u].status != Active then Some(AccountNotActive)
    else if !s.users[u].active then Some(AccountDisabled)
    else if ShutOut(s, u) then Some(SocietyShut)
    else None
  }

  ghost predicate Known(s: State, ids: seq<nat>) {
    forall i :: 0 <= i < |ids| ==> ids[i] < |s.users|
  }

  /** The ids that satisfy `keep`, in their order. */
  function Filter(ids: seq<nat>, keep: nat -> bool): (kept: seq<nat>)
    ensures forall id :: id in kept <==> id in ids && keep(id)
  {
    if ids == [] then []
    else
      var front, last := ids[..|ids| - 1], ids[|ids| - 1];
      assert ids == front + [last];
      Filter(front, keep) + (if keep(last) then [last] else [])
  }

  ghost predicate OldestFirst(ids: seq<nat>) {
    forall i, j :: 0 <= i < j < |ids| ==> ids[i] < ids[j]
  }

  lemma {:induction false} FilterKeepsOrder(ids: seq<nat>, keep: nat -> bool)
    requires OldestFirst(ids)
    ensures OldestFirst(Filter(ids, keep))
  {
    if ids != [] {
      var front, last := ids[..|ids| - 1], ids[|ids| - 1];
      FilterKeepsOrder(front, keep);
      var kept := Filter(front, keep);
      forall i | 0 <= i < |kept|
        ensures kept[i] < last
      {
        assert kept[i] in kept;
      }
    }
  }

  function Usable(s: State, ids: seq<nat>): (usable: seq<nat>)
    ensures forall i :: 0 <= i < |usable| ==> usable[i] < |s.users|
  {
    var usable := Filter(ids, (id: nat) => id < |s.users| && Blocked(s, id).None?);
    assert forall i :: 0 <= i < |usable| ==> usable[i] in usable;
    usable
  }

  function OfSociety(s: State, ids: seq<nat>, society: nat): (chosen: seq<nat>)
    ensures forall i :: 0 <= i < |chosen| ==> chosen[i] < |s.users|
  {
    var chosen := Filter(ids, (id: nat) => id < |s.users| && s.users[id].society == Some(society));
    assert forall i :: 0 <= i < |chosen| ==> chosen[i] in chosen;
    chosen
  }

  /** The first reason why one of the logins cannot be used. */
  function FirstReason(s: State, ids: seq<nat>): (why: Option<Why>)
    requires Known(s, ids)
  {
    if ids == [] then None
    else
      var before := FirstReason(s, ids[..|ids| - 1]);
      if before.Some? then before else Blocked(s, ids[|ids| - 1])
  }

  /** Failures of a login recorded at or after a moment. */
  function FailuresSince(failures: seq<Attempt>, u: nat, since: Time): (n: nat) {
    if failures == [] then 0
    else
      var last := failures[|failures| - 1];
      FailuresSince(failures[..|failures| - 1], u, since) + (if last.user == u && last.at >= since then 1 else 0)
  }

  predicate TooManyFailures(s: State, u: nat) {
    FailuresSince(s.failures, u, s.now - FAILED_LOGIN_WINDOW) >= MAX_FAILED_LOGINS
  }

  // ---------------------------------------------------------------- sessions

  predicate IsLive(s: State, sid: nat, u: nat) {
    sid < |s.sessions| && s.sessions[sid].revokedAt.None? && s.sessions[sid].user == u
  }

  function Touched(s: State, sid: nat): (s': State)
    requires sid < |s.sessions|
  {
    var row := s.sessions[sid];
    if row.lastSeen.None? || s.now - row.lastSeen.value >= TOUCH_EVERY
    then s.(sessions := s.sessions[sid := row.(lastSeen := Some(s.now))])
    else s
  }

  /** A live device was seen less than five minutes ago, and one seen since is not written again. */
  lemma TouchedIsRecent(s: State, sid: nat)
    requires sid < |s.sessions|
    ensures var row := Touched(s, sid).sessions[sid];
            && row.lastSeen.Some? && s.now - row.lastSeen.value < 300
            && (s.sessions[sid].lastSeen.Some? && s.now - s.sessions[sid].lastSeen.value < 300
                ==> row == s.sessions[sid])
            && row.(lastSeen := None) == s.sessions[sid].(lastSeen := None)
    ensures Touched(Touched(s, sid), sid) == Touched(s, sid)
    ensures forall i :: 0 <= i < |s.sessions| && i != sid ==> Touched(s, sid).sessions[i] == s.sessions[i]
  {
  }

  function Revoked(row: Session, now: Time, reason: string): (row': Session) {
    if row.revokedAt.None? then row.(revokedAt := Some(now), reason := reason) else row
  }

  function RevokeOne(s: State, sid: nat, reason: string): (s': State) {
    if sid < |s.sessions| then s.(sessions := s.sessions[sid := Revoked(s.sessions[sid], s.now, reason)]) else s
  }

  function RevokedAll(sessions: seq<Session>, u: nat, keep: Option<nat>, now: Time, reason: string)
    : (sessions': seq<Session>)
    ensures |sessions'| == |sessions|
  {
    seq(|sessions|, i requires 0 <= i < |sessions| =>
      if sessions[i].user == u && keep != Some(i) then Revoked(sessions[i], now, reason) else sessions[i])
  }

  /** The user's live sessions other than the kept one. */
  ghost function LiveOthers(sessions: seq<Session>, u: nat, keep: Option<nat>): (others: set<nat>) {
    set sid: nat | sid < |sessions| && sessions[sid].user == u && sessions[sid].revokedAt.None? && keep != Some(sid)
  }

  /** Afterwards none of the user's other sessions is live, and rows of other users and the kept row are as before. */
  lemma RevokedAllEnds(sessions: seq<Session>, u: nat, keep: Option<nat>, now: Time, reason: string)
    ensures var after := RevokedAll(sessions, u, keep, now, reason);
            && LiveOthers(after, u, keep) == {}
            && (forall sid: nat :: sid < |sessions| && sid !in LiveOthers(sessions, u, keep) ==>
                  after[sid] == sessions[sid])
            && (forall sid: nat :: sid in LiveOthers(sessions, u, keep) ==>
                  after[sid] == sessions[sid].(revokedAt := Some(now), reason := reason))
  {
  }

  // ---------------------------------------------------------------- tokens

  /** A session is started and both tokens carry it; peers are carried only when there are several. */
  function Issue(s: State, u: nat, peers: seq<nat>, cfg: Settings): (out: (State, Reply))
    requires u < |s.users|
  {
    var sid := |s.sessions|;
    var carried := if |peers| > 1 then peers else [];
    (s.(sessions := s.sessions + [Session(u, Some(s.now), None, "")],
        users := s.users[u := s.users[u].(lastLogin := Some(s.now))]),
     Tokens(Token(Access, u, Some(sid), carried, s.now + cfg.accessLife),
            Token(Refresh, u, Some(sid), carried, s.now + cfg.refreshLife)))
  }

  /** The logins the password matches, among those the identifier could be. */
  function Matched(s: State, typed: string, password: string, cfg: Settings): (ids: seq<nat>)
    ensures forall i :: 0 <= i < |ids| ==> ids[i] < |s.users|
  {
    var ids := Filter(Candidates(s.users, typed),
                      (id: nat) => id < |s.users| && cfg.verify(password, s.users[id].secret));
    assert forall i :: 0 <= i < |ids| ==> ids[i] in ids;
    ids
  }

  function Login(s: State, typed: string, password: string, society: Option<nat>, cfg: Settings)
    : (out: (State, Reply))
  {
    var candidates := Candidates(s.users, typed);
    if candidates == [] then (s, Denied(BadCredentials))
    else if TooManyFailures(s, candidates[0]) then (s, Denied(TooManyAttempts))
    else
      var matched := Matched(s, typed, password, cfg);
      if matched == [] then
        (s.(failures := s.failures + [Attempt(candidates[0], s.now)]), Denied(BadCredentials))
      else
        var usable := Usable(s, matched);
        if usable == [] then
          (s, Denied(var why := FirstReason(s, matched); if why.Some? then why.value else BadCredentials))
        else if society.Some? then
          var chosen := OfSociety(s, usable, society.value);
          if chosen == [] then (s, Denied(NotYourSociety)) else Issue(s, chosen[0], usable, cfg)
        else if |usable| > 1 then (s, Choose(usable))
        else Issue(s, usable[0], usable, cfg)
  }

  /** Every reason why `matched` has nobody usable is a real one. */
  lemma {:induction false} SomeReason(s: State, ids: seq<nat>)
    requires Known(s, ids) && ids != [] && Usable(s, ids) == []
    ensures FirstReason(s, ids).Some?
  {
  }

  function RefreshTokens(s: State, token: Token, cfg: Settings): (out: (State, Reply)) {
    if token.exp < s.now || token.kind != Refresh then (s, Denied(InvalidToken))
    else if token.sub >= |s.users| || !s.users[token.sub].active || s.users[token.sub].status != Active then
      (s, Denied(UserNotFound))
    else if ShutOut(s, token.sub) then (s, Denied(SocietyShut))
    else if token.sid.Some? && !IsLive(s, token.sid.value, token.sub) then (s, Denied(SignedOut))
    else
      var sid := if token.sid.Some? then token.sid.value else |s.sessions|;
      (if token.sid.Some? then Touched(s, sid)
       else s.(sessions := s.sessions + [Session(token.sub, Some(s.now), None, "")]),
       Tokens(Token(Access, token.sub, Some(sid), token.peers, s.now + cfg.accessLife),
              Token(Refresh, token.sub, Some(sid), token.peers, s.now + cfg.refreshLife)))
  }

  // ---------------------------------------------------------------- requests

  /** What the path of a request decides: whether it stays open to a shut society, and whether it is refused anyway. */
  datatype Gate = Gate(openWhenShut: bool, refused: bool)

  function Authenticate(s: State, token: Token, gate: Gate): (out: (State, Result<Caller, Why>)) {
    if token.exp < s.now || token.kind != Access then (s, Failure(InvalidToken))
    else if token.sub >= |s.users| || !s.users[token.sub].active || s.users[token.sub].status != Active then
      (s, Failure(UserNotFound))
    else if token.sid.Some? && !IsLive(s, token.sid.value, token.sub) then (s, Failure(SignedOut))
    else
      var seen := if token.sid.Some? then Touched(s, token.sid.value) else s;
      if gate.refused || (ShutOut(s, token.sub) && !gate.openWhenShut) then (seen, Failure(Forbidden))
      else (seen, Success(Caller(token.sub, token.sid, token.peers)))
  }

  /** A login the caller may switch to in the society. */
  predicate SwitchTarget(s: State, caller: Caller, society: nat, u: nat) {
    && u in caller.peers && u < |s.users|
    && s.users[u].society == Some(society) && s.users[u].active
    && Blocked(s, u).None?
  }

  /** What the unordered query for the target may come to. */
  ghost predicate TargetPicked(s: State, caller: Caller, society: nat, target: Option<nat>) {
    match target
    case None => forall u :: u in caller.peers ==> !SwitchTarget(s, caller, society, u)
    case Some(u) => SwitchTarget(s, caller, society, u)
  }

  function Distinct(ids: seq<nat>): (ds: seq<nat>)
    ensures forall id :: id in ds <==> id in ids
    ensures forall i, j :: 0 <= i < j < |ds| ==> ds[i] != ds[j]
  {
    if ids == [] then []
    else
      var front, last := ids[..|ids| - 1], ids[|ids| - 1];
      assert ids == front + [last];
      Distinct(front) + (if last in front then [] else [last])
  }

  function SwitchSociety(s: State, caller: Caller, target: Option<nat>, cfg: Settings): (out: (State, Reply))
    requires target.Some? ==> target.value < |s.users|
  {
    if target.None? || target.value == caller.user then (s, Denied(CannotSwitch))
    else
      var ended := if caller.session.Some? then RevokeOne(s, caller.session.value, "switched_society") else s;
      Issue(ended, target.value, Distinct(caller.peers + [caller.user]), cfg)
  }

  function ChangePassword(s: State, caller: Caller, current: string, next: string, cfg: Settings)
    : (out: (State, Option<Why>))
    requires caller.user < |s.users|
  {
    if !cfg.verify(current, s.users[caller.user].secret) then (s, Some(WrongPassword))
    else
      (s.(users := s.users[caller.user := s.users[caller.user].(secret := cfg.hash(next), mustChange := false)],
          sessions := RevokedAll(s.sessions, caller.user, caller.session, s.now, "password_changed")),
       None)
  }

  function Logout(s: State, caller: Caller): (s': State) {
    if caller.session.Some? then RevokeOne(s, caller.session.value, "logout") else s
  }

  function SignOutOthers(s: State, caller: Caller): (s': State) {
    s.(sessions := RevokedAll(s.sessions, caller.user, caller.session, s.now, "signed_out"))
  }

  function SignOutDevice(s: State, caller: Caller, sid: nat): (out: (State, Option<Why>)) {
    if !IsLive(s, sid, caller.user) then (s, Some(DeviceNotFound)) else (RevokeOne(s, sid, "signed_out"), None)
  }

  /** An admin resets the password: every device signed in with the old one is signed out. */
  function ResetPassword(s: State, u: nat, secret: string): (s': State)
    requires u < |s.users|
  {
    s.(users := s.users[u := s.users[u].(secret := secret, mustChange := true)],
       sessions := RevokedAll(s.sessions, u, None, s.now, "password_reset"))
  }
}
