/** How many wrong passwords one login can collect, and when a lock lifts. */
module LockOut {
  import opened Wrappers
  import opened Auth
  import opened AuthHistory

  /** Failures of a login recorded within a closed interval. */
  function FailuresWithin(failures: seq<Attempt>, u: nat, from': Time, to': Time): (n: nat) {
    if failures == [] then 0
    else
      var last := failures[|failures| - 1];
      FailuresWithin(failures[..|failures| - 1], u, from', to')
      + (if last.user == u && from' <= last.at <= to' then 1 else 0)
  }

  /** No closed interval as long as the window holds more than ten failures of one login. */
  ghost predicate Bounded(failures: seq<Attempt>) {
    forall u, from' :: WindowBounded(failures, u, from')
  }

  ghost predicate WindowBounded(failures: seq<Attempt>, u: nat, from': Time) {
    FailuresWithin(failures, u, from', from' + FAILED_LOGIN_WINDOW) <= MAX_FAILED_LOGINS
  }

  /** Recorded in the order of the clock, none later than now. */
  ghost predicate Timely(s: State) {
    && (forall i, j :: 0 <= i < j < |s.failures| ==> s.failures[i].at <= s.failures[j].at)
    && (forall i :: 0 <= i < |s.failures| ==> s.failures[i].at <= s.now)
  }

  lemma {:induction false} WithinAtMostSince(failures: seq<Attempt>, u: nat, from': Time, to': Time, since: Time)
    requires since <= from'
    ensures FailuresWithin(failures, u, from', to') <= FailuresSince(failures, u, since)
  {
    if failures != [] {
      WithinAtMostSince(failures[..|failures| - 1], u, from', to', since);
    }
  }

  /** What a sign-in does to the record of failures: nothing, or one more, and then only for a login not locked. */
  lemma LoginRecords(s: State, typed: string, password: string, society: Option<nat>, cfg: Settings)
    ensures var s' := Login(s, typed, password, society, cfg).0;
            && s'.now == s.now
            && (s'.failures == s.failures
                || exists u: nat ::
                     u < |s.users| && !TooManyFailures(s, u) && s'.failures == s.failures + [Attempt(u, s.now)])
  {
  }

  /** A sign-in keeps the bound. */
  lemma LoginKeepsBound(s: State, typed: string, password: string, society: Option<nat>, cfg: Settings)
    requires Bounded(s.failures)
    ensures Bounded(Login(s, typed, password, society, cfg).0.failures)
  {
    LoginRecords(s, typed, password, society, cfg);
    var failures := Login(s, typed, password, society, cfg).0.failures;
    if failures != s.failures {
      var u: nat :| u < |s.users| && !TooManyFailures(s, u) && failures == s.failures + [Attempt(u, s.now)];
      forall v, from'
        ensures WindowBounded(failures, v, from')
      {
        assert WindowBounded(s.failures, v, from');
        assert failures[..|failures| - 1] == s.failures;
        if v == u && from' <= s.now <= from' + FAILED_LOGIN_WINDOW {
          WithinAtMostSince(s.failures, u, from', from' + FAILED_LOGIN_WINDOW, s.now - FAILED_LOGIN_WINDOW);
        }
      }
    }
  }

  // ---------------------------------------------------------------- when the lock lifts

  /** The times of a login's failures, in the order recorded. */
  function TimesOf(failures: seq<Attempt>, u: nat): (times: seq<Time>) {
    if failures == [] then []
    else
      var last := failures[|failures| - 1];
      TimesOf(failures[..|failures| - 1], u) + (if last.user == u then [last.at] else [])
  }

  ghost predicate Ascending(times: seq<Time>) {
    forall i, j :: 0 <= i < j < |times| ==> times[i] <= times[j]
  }

  function CountSince(times: seq<Time>, since: Time): (n: nat) {
    if times == [] then 0
    else CountSince(times[..|times| - 1], since) + (if times[|times| - 1] >= since then 1 else 0)
  }

  lemma {:induction false} SinceIsCount(failures: seq<Attempt>, u: nat, since: Time)
    ensures FailuresSince(failures, u, since) == CountSince(TimesOf(failures, u), since)
  {
    if failures != [] {
      SinceIsCount(failures[..|failures| - 1], u, since);
      var times := TimesOf(failures, u);
      if failures[|failures| - 1].user == u {
        assert times[..|times| - 1] == TimesOf(failures[..|failures| - 1], u);
      } else {
        assert times == TimesOf(failures[..|failures| - 1], u);
      }
    }
  }

  /** In ascending times, at least `n` are recent exactly when the `n`-th last is. */
  lemma {:induction false} RecentCount(times: seq<Time>, since: Time, n: nat)
    requires Ascending(times) && n > 0
    ensures CountSince(times, since) <= |times|
    ensures CountSince(times, since) >= n <==> |times| >= n && times[|times| - n] >= since
  {
    if times != [] {
      var front := times[..|times| - 1];
      if n > 1 {
        RecentCount(front, since, n - 1);
      } else {
        RecentCount(front, since, n);
        if times[|times| - 1] < since && |front| > 0 {
          assert front[|front| - 1] <= times[|times| - 1];
        }
      }
    }
  }

  lemma {:induction false} TimesAscend(failures: seq<Attempt>, u: nat, latest: Time)
    requires forall i, j :: 0 <= i < j < |failures| ==> failures[i].at <= failures[j].at
    requires forall i :: 0 <= i < |failures| ==> failures[i].at <= latest
    ensures Ascending(TimesOf(failures, u))
    ensures forall i :: 0 <= i < |TimesOf(failures, u)| ==> TimesOf(failures, u)[i] <= latest
  {
    if failures != [] {
      TimesAscend(failures[..|failures| - 1], u, failures[|failures| - 1].at);
    }
  }

  /** A login is locked exactly while the tenth last of its failures is within the window. */
  lemma LockedWhileTenthLastRecent(s: State, u: nat)
    requires Timely(s)
    ensures var times := TimesOf(s.failures, u);
            TooManyFailures(s, u) <==>
              |times| >= 10 && times[|times| - 10] >= s.now - 900
  {
    SinceIsCount(s.failures, u, s.now - FAILED_LOGIN_WINDOW);
    TimesAscend(s.failures, u, s.now);
    RecentCount(TimesOf(s.failures, u), s.now - FAILED_LOGIN_WINDOW, MAX_FAILED_LOGINS);
  }

  // ---------------------------------------------------------------- whole runs

  lemma RequestRecordsNothing(w: World, k: nat, gate: Gate, action: Action, cfg: Settings)
    requires Possible(w, Request(k, gate, action))
    ensures Requested(w, k, gate, action, cfg).auth.failures == w.auth.failures
    ensures Requested(w, k, gate, action, cfg).auth.now == w.auth.now
  {
  }

  /** Only a sign-in records a failure, only for a login that is not locked, and only one. */
  lemma StepRecords(w: World, e: Event, cfg: Settings)
    requires Possible(w, e)
    ensures var s, s' := w.auth, Do(w, e, cfg).auth;
            && s.now <= s'.now
            && (s'.failures == s.failures
                || (s'.now == s.now && exists u: nat ::
                      u < |s.users| && !TooManyFailures(s, u) && s'.failures == s.failures + [Attempt(u, s.now)]))
  {
    match e
    case SignIn(typed, password, society) => LoginRecords(w.auth, typed, password, society, cfg);
    case Refreshing(k) =>
    case Request(k, gate, action) => RequestRecordsNothing(w, k, gate, action, cfg);
    case PasswordReset(u, secret) =>
    case Administration(users, shut) =>
    case Tick(later) =>
  }

  lemma StepKeepsBound(w: World, e: Event, cfg: Settings)
    requires Possible(w, e) && Bounded(w.auth.failures)
    ensures Bounded(Do(w, e, cfg).auth.failures)
  {
    match e
    case SignIn(typed, password, society) => LoginKeepsBound(w.auth, typed, password, society, cfg);
    case Refreshing(k) =>
    case Request(k, gate, action) => RequestRecordsNothing(w, k, gate, action, cfg);
    case PasswordReset(u, secret) =>
    case Administration(users, shut) =>
    case Tick(later) =>
  }

  /** In every run any fifteen minutes hold at most ten recorded failures of one login. */
  lemma {:induction false} NeverMoreThanTen(h: seq<World>, events: seq<Event>, cfg: Settings, i: nat, u: nat,
                                            from': Time)
    requires History(h, events, cfg) && Bounded(h[0].auth.failures) && i < |h|
    ensures Bounded(h[i].auth.failures)
    ensures FailuresWithin(h[i].auth.failures, u, from', from' + 900) <= 10
  {
    if i > 0 {
      NeverMoreThanTen(h, events, cfg, i - 1, u, from');
      StepKeepsBound(h[i - 1], events[i - 1], cfg);
    }
    assert WindowBounded(h[i].auth.failures, u, from');
  }

  lemma {:induction false} StaysTimely(h: seq<World>, events: seq<Event>, cfg: Settings, i: nat)
    requires History(h, events, cfg) && Timely(h[0].auth) && i < |h|
    ensures Timely(h[i].auth)
  {
    if i > 0 {
      StaysTimely(h, events, cfg, i - 1);
      StepRecords(h[i - 1], events[i - 1], cfg);
    }
  }

  lemma OthersTimes(failures: seq<Attempt>, last: Attempt, u: nat)
    ensures TimesOf(failures + [last], u) == TimesOf(failures, u) + (if last.user == u then [last.at] else [])
  {
  }

  /** Nothing is recorded against a login while it is locked. */
  lemma LockedRecordsNothing(w: World, e: Event, cfg: Settings, u: nat)
    requires Possible(w, e) && TooManyFailures(w.auth, u)
    ensures TimesOf(Do(w, e, cfg).auth.failures, u) == TimesOf(w.auth.failures, u)
  {
    StepRecords(w, e, cfg);
    var s, s' := w.auth, Do(w, e, cfg).auth;
    if s'.failures != s.failures {
      var v: nat :| v < |s.users| && !TooManyFailures(s, v) && s'.failures == s.failures + [Attempt(v, s.now)];
      OthersTimes(s.failures, Attempt(v, s.now), u);
    }
  }

  ghost predicate LockedStays(h: seq<World>, u: nat) {
    && (forall k :: 0 <= k < |h| ==> Timely(h[k].auth))
    && (forall k :: 0 <= k < |h| - 1 && TooManyFailures(h[k].auth, u) ==>
          TimesOf(h[k + 1].auth.failures, u) == TimesOf(h[k].auth.failures, u))
  }

  /** The moment after which the lock is gone: the window past the tenth last failure. */
  function LiftsAfter(times: seq<Time>): (moment: Time)
    requires |times| >= MAX_FAILED_LOGINS
  {
    times[|times| - MAX_FAILED_LOGINS] + FAILED_LOGIN_WINDOW
  }

  lemma {:induction false} LockChain(h: seq<World>, i: nat, j: nat, u: nat)
    requires LockedStays(h, u) && i <= j < |h|
    requires var times := TimesOf(h[i].auth.failures, u);
             |times| >= MAX_FAILED_LOGINS && forall k :: i <= k < j ==> h[k].auth.now <= LiftsAfter(times)
    ensures var times := TimesOf(h[i].auth.failures, u);
            && TimesOf(h[j].auth.failures, u) == times
            && (TooManyFailures(h[j].auth, u) <==> h[j].auth.now <= LiftsAfter(times))
  {
    if i < j {
      LockChain(h, i, j - 1, u);
    }
    LockedWhileTenthLastRecent(h[j].auth, u);
  }

  /**
  Once locked, a login's failures stay as they are, however many attempts are refused,
  until the window has passed the tenth last of them; and then the lock is lifted.
  */
  lemma LockLifts(h: seq<World>, events: seq<Event>, cfg: Settings, i: nat, j: nat, u: nat)
    requires History(h, events, cfg) && Timely(h[0].auth) && i <= j < |h|
    requires TooManyFailures(h[i].auth, u)
    requires var times := TimesOf(h[i].auth.failures, u);
             |times| >= MAX_FAILED_LOGINS ==> forall k :: i <= k < j ==> h[k].auth.now <= LiftsAfter(times)
    ensures var times := TimesOf(h[i].auth.failures, u);
            && |times| >= MAX_FAILED_LOGINS
            && TimesOf(h[j].auth.failures, u) == times
            && (TooManyFailures(h[j].auth, u) <==> h[j].auth.now <= LiftsAfter(times))
  {
    assert LockedStays(h, u) by {
      forall k | 0 <= k < |h|
        ensures Timely(h[k].auth)
      {
        StaysTimely(h, events, cfg, k);
      }
      forall k | 0 <= k < |h| - 1 && TooManyFailures(h[k].auth, u)
        ensures TimesOf(h[k + 1].auth.failures, u) == TimesOf(h[k].auth.failures, u)
      {
        LockedRecordsNothing(h[k], events[k], cfg, u);
      }
    }
    LockedWhileTenthLastRecent(h[i].auth, u);
    LockChain(h, i, j, u);
  }
}
