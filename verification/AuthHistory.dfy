/** Every run of sign-ins and requests, together with the tokens it has minted. */
module AuthHistory {
  import opened Wrappers
  import opened Auth

  /** A token and the sign-in it descends from. */
  datatype Minted = Minted(token: Token, origin: nat)

  /** `origins[o]` are the logins usable with the password at sign-in `o`. Nobody else can mint a token. */
  datatype World = World(auth: State, minted: seq<Minted>, origins: seq<seq<nat>>)

  /** What a signed-in request may be for; `target` is what the query for the switch's target returned. */
  datatype Action =
    | Switch(to: nat, target: Option<nat>)
    | NewPassword(current: string, next: string)
    | LogOut
    | SignOutTheOthers
    | SignOutOne(sid: nat)
    | AnythingElse

  /** `k` is the token presented. */
  datatype Event =
    | SignIn(typed: string, password: string, society: Option<nat>)
    | Refreshing(k: nat)
    | Request(k: nat, gate: Gate, action: Action)
    | PasswordReset(u: nat, secret: string)
    | Administration(users: seq<User>, shut: set<nat>)
    | Tick(later: Time)

  ghost predicate ActionPossible(s: State, who: Result<Caller, Why>, action: Action) {
    match action
    case Switch(to, target) =>
      (target.Some? ==> target.value < |s.users|)
      && (who.Success? ==> TargetPicked(s, who.value, to, target))
    case _ => true
  }

  ghost predicate Possible(w: World, e: Event) {
    match e
    case SignIn(_, _, _) => true
    case Refreshing(k) => k < |w.minted|
    case Request(k, gate, action) =>
      k < |w.minted|
      && ActionPossible(Authenticate(w.auth, w.minted[k].token, gate).0,
                        Authenticate(w.auth, w.minted[k].token, gate).1, action)
    case PasswordReset(u, _) => u < |w.auth.users|
    case Administration(users, _) => |w.auth.users| <= |users|
    case Tick(later) => w.auth.now <= later
  }

  function Collected(w: World, reply: Reply, origin: nat): (w': World) {
    match reply
    case Tokens(access, refresh) => w.(minted := w.minted + [Minted(access, origin), Minted(refresh, origin)])
    case _ => w
  }

  function SignedIn(w: World, typed: string, password: string, society: Option<nat>, cfg: Settings): (w': World) {
    var (after, reply) := Login(w.auth, typed, password, society, cfg);
    var w1 := w.(auth := after);
    if reply.Tokens?
    then Collected(w1.(origins := w.origins + [Usable(w.auth, Matched(w.auth, typed, password, cfg))]), reply,
                   |w.origins|)
    else w1
  }

  function Refreshed(w: World, k: nat, cfg: Settings): (w': World)
    requires k < |w.minted|
  {
    var (after, reply) := RefreshTokens(w.auth, w.minted[k].token, cfg);
    Collected(w.(auth := after), reply, w.minted[k].origin)
  }

  /** An action of an authenticated caller, and the answer where it mints tokens. */
  function Acted(s: State, caller: Caller, action: Action, cfg: Settings): (out: (State, Reply))
    requires caller.user < |s.users|
    requires action.Switch? && action.target.Some? ==> action.target.value < |s.users|
  {
    match action
    case Switch(_, target) => SwitchSociety(s, caller, target, cfg)
    case NewPassword(current, next) => (ChangePassword(s, caller, current, next, cfg).0, Choose([]))
    case LogOut => (Logout(s, caller), Choose([]))
    case SignOutTheOthers => (SignOutOthers(s, caller), Choose([]))
    case SignOutOne(sid) => (SignOutDevice(s, caller, sid).0, Choose([]))
    case AnythingElse => (s, Choose([]))
  }

  function Requested(w: World, k: nat, gate: Gate, action: Action, cfg: Settings): (w': World)
    requires k < |w.minted|
    requires action.Switch? && action.target.Some? ==>
               action.target.value < |Authenticate(w.auth, w.minted[k].token, gate).0.users|
  {
    var (seen, who) := Authenticate(w.auth, w.minted[k].token, gate);
    if who.Failure? then w.(auth := seen)
    else
      var (after, reply) := Acted(seen, who.value, action, cfg);
      Collected(w.(auth := after), reply, w.minted[k].origin)
  }

  ghost function Do(w: World, e: Event, cfg: Settings): (w': World)
    requires Possible(w, e)
  {
    match e
    case SignIn(typed, password, society) => SignedIn(w, typed, password, society, cfg)
    case Refreshing(k) => Refreshed(w, k, cfg)
    case Request(k, gate, action) => Requested(w, k, gate, action, cfg)
    case PasswordReset(u, secret) => w.(auth := ResetPassword(w.auth, u, secret))
    case Administration(users, shut) => w.(auth := w.auth.(users := users, shut := shut))
    case Tick(later) => w.(auth := w.auth.(now := later))
  }

  ghost predicate History(h: seq<World>, events: seq<Event>, cfg: Settings) {
    && |h| == |events| + 1
    && forall i :: 0 <= i < |events| ==> Possible(h[i], events[i]) && h[i + 1] == Do(h[i], events[i], cfg)
  }
}
