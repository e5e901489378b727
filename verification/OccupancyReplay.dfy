/** Replaying the occupancy log: when it tells exactly who lives where, and since when. */
module OccupancyReplay {
  import opened Wrappers
  import opened Ledger
  import opened OccupancyHistory

  datatype Home = Home(flat: nat, since: Date)

  function Noted(homes: map<Who, Home>, e: Entry): (homes': map<Who, Home>) {
    match e
    case MovedIn(f, who, on) => homes[who := Home(f, on)]
    case MovedOut(_, who, _) => homes - {who}
    case FlatVacant(_, _) => homes
  }

  /** Who lives where according to the log. */
  function Replay(log: seq<Entry>): (homes: map<Who, Home>) {
    if log == [] then map[] else Noted(Replay(log[..|log| - 1]), log[|log| - 1])
  }

  function HomeOf(p: Stay): (home: Option<Home>) {
    if p.active && p.moveOut.None? && p.moveIn.Some? then Some(Home(p.flat, p.moveIn.value)) else None
  }

  /** Where someone lives according to the people on record. */
  function Lives(s: Db, who: Who): (home: Option<Home>) {
    match who
    case TheResident(r) => if r < |s.residents| then HomeOf(s.residents[r]) else None
    case TheTenant(t) => if t < |s.tenants| then HomeOf(s.tenants[t].stay) else None
  }

  function Find(homes: map<Who, Home>, who: Who): (home: Option<Home>) {
    if who in homes then Some(homes[who]) else None
  }

  ghost predicate LogExact(s: Db) {
    forall who :: Find(Replay(s.log), who) == Lives(s, who)
  }

  /** The move-in, if it is one that goes through, names a record that is active and not moved out. */
  ghost predicate NamesActiveRecord(s: Db, e: Event) {
    match e
    case ResidentIn(f, r, on, society) =>
      ResidentMoveIn(s, f, r, on, society).Success? ==> OnBooks(s.residents[r], f)
    case TenantIn(f, t, on, create, society) =>
      TenantMoveIn(s, f, t, on, create, society).Success? ==> OnBooks(s.tenants[t].stay, f)
    case _ => true
  }

  lemma ReplayNext(log: seq<Entry>, e: Entry)
    ensures Replay(log + [e]) == Noted(Replay(log), e)
  {
  }

  lemma NobodyYet(s: Db)
    requires s.log == [] && forall f :: 0 <= f ==> !TenantLivesIn(s, f) && !ResidentLivesIn(s, f)
    ensures LogExact(s)
  {
    forall who
      ensures Find(Replay(s.log), who) == Lives(s, who)
    {
      match who
      case TheResident(r) =>
        if r < |s.residents| {
          assert !ResidentLivesIn(s, s.residents[r].flat);
        }
      case TheTenant(t) =>
        if t < |s.tenants| {
          assert !TenantLivesIn(s, s.tenants[t].stay.flat);
        }
    }
  }

  // ---------------------------------------------------------------- the steps

  lemma ResidentInReplay(s: Db, f: nat, r: nat, on: Date)
    requires LogExact(s) && f < |s.flats| && r < |s.residents| && s.residents[r].flat == f
    ensures LogExact(ResidentArrives(s, f, r, on)) <==> OnBooks(s.residents[r], f)
  {
    var s' := ResidentArrives(s, f, r, on);
    ReplayNext(s.log, MovedIn(f, TheResident(r), on));
    assert Find(Replay(s'.log), TheResident(r)) == Some(Home(f, on));
    forall who | who != TheResident(r)
      ensures Find(Replay(s'.log), who) == Lives(s', who)
    {
      assert Find(Replay(s.log), who) == Lives(s, who);
    }
    assert Lives(s', TheResident(r)) == if OnBooks(s.residents[r], f) then Some(Home(f, on)) else None;
  }

  lemma TenantInReplay(s: Db, f: nat, t: nat, on: Date, create: bool)
    requires LogExact(s) && f < |s.flats| && t < |s.tenants| && s.tenants[t].stay.flat == f
    ensures LogExact(TenantArrives(s, f, t, on, create)) <==> OnBooks(s.tenants[t].stay, f)
  {
    var s' := TenantArrives(s, f, t, on, create);
    ReplayNext(s.log, MovedIn(f, TheTenant(t), on));
    assert s'.log == s.log + [MovedIn(f, TheTenant(t), on)];
    assert Find(Replay(s'.log), TheTenant(t)) == Some(Home(f, on));
    forall who | who != TheTenant(t)
      ensures Find(Replay(s'.log), who) == Lives(s', who)
    {
      assert Find(Replay(s.log), who) == Lives(s, who);
    }
    assert Lives(s', TheTenant(t)) == if OnBooks(s.tenants[t].stay, f) then Some(Home(f, on)) else None;
  }

  lemma OutReplay(s: Db, s': Db, f: nat, who: Who, on: Date)
    requires LogExact(s)
    requires s'.log == s.log + [MovedOut(f, who, on)]
             || s'.log == s.log + [FlatVacant(f, on)] + [MovedOut(f, who, on)]
             || s'.log == s.log + [MovedOut(f, who, on)] + [FlatVacant(f, on)]
    requires Lives(s', who).None?
    requires forall other :: other != who ==> Lives(s', other) == Lives(s, other)
    ensures LogExact(s')
  {
  }

  lemma OneMoreArrives(s: Db, s': Db, f: nat, r: nat, on: Date)
    requires LogExact(s) && s'.log == s.log + [MovedIn(f, TheResident(r), on)]
    requires Lives(s', TheResident(r)) == Some(Home(f, on))
    requires forall other :: other != TheResident(r) ==> Lives(s', other) == Lives(s, other)
    ensures LogExact(s')
  {
  }

  lemma {:induction false} ArrivalsReplay(s: Db, f: nat, on: Date, n: nat)
    requires LogExact(s) && n <= |s.residents|
    ensures LogExact(s.(residents := AllArrived(s.residents, f, on, n), log := s.log + Arrivals(s.residents, f, on, n)))
  {
    if n == 0 {
      assert s.log + [] == s.log;
    } else {
      ArrivalsReplay(s, f, on, n - 1);
      if Waiting(s.residents[n - 1], f) {
        var before := s.(residents := AllArrived(s.residents, f, on, n - 1),
                         log := s.log + Arrivals(s.residents, f, on, n - 1));
        var after := s.(residents := AllArrived(s.residents, f, on, n), log := s.log + Arrivals(s.residents, f, on, n));
        assert after.log == before.log + [MovedIn(f, TheResident(n - 1), on)];
        OneMoreArrives(before, after, f, n - 1, on);
      }
    }
  }

  lemma PossessionReplay(s: Db, f: nat, on: Date, today: Date)
    requires LogExact(s) && f < |s.flats|
    ensures LogExact(TakePossession(s, f, on, today))
  {
    var s' := TakePossession(s, f, on, today);
    var moved := s.(residents := AllArrived(s.residents, f, on, |s.residents|),
                    log := s.log + Arrivals(s.residents, f, on, |s.residents|));
    ArrivalsReplay(s, f, on, |s.residents|);
    var same := if PossessionMovesIn(s, f, on, today) then moved else s;
    forall who
      ensures Find(Replay(s'.log), who) == Lives(s', who)
    {
      assert Find(Replay(same.log), who) == Lives(same, who);
    }
  }

  lemma SameLogSamePeople(s: Db, s': Db)
    requires LogExact(s) && s'.log == s.log
    requires forall who :: Lives(s', who) == Lives(s, who)
    ensures LogExact(s')
  {
  }

  lemma NewPersonReplay(s: Db, f: nat, terms: Terms, moveIn: Option<Date>, society: Option<nat>)
    requires LogExact(s)
    ensures LogExact(AddResident(s, f, moveIn, society).0)
    ensures LogExact(AddTenant(s, f, terms, moveIn, society).0)
  {
    var resident := s.(residents := s.residents + [Stay(f, true, None, None)]);
    var tenant := s.(tenants := s.tenants + [Tenant(Stay(f, true, None, None), terms)]);
    SameLogSamePeople(s, resident);
    SameLogSamePeople(s, tenant);
    if FlatFound(s, f, society) && moveIn.Some? {
      ResidentInReplay(resident, f, |s.residents|, moveIn.value);
      TenantInReplay(tenant, f, |s.tenants|, moveIn.value, terms.start.Some? && terms.end.Some?);
    }
  }

  lemma MoveOutReplay(s: Db, f: nat, p: nat, on: Date, society: Option<nat>, ended: Option<nat>)
    requires LogExact(s) && (ended.Some? ==> ended.value < |s.agreements|)
    ensures LogExact(Kept(s, ResidentMoveOut(s, f, p, on, society)))
    ensures LogExact(Kept(s, TenantMoveOut(s, f, p, on, society, ended)))
  {
    if ResidentMoveOut(s, f, p, on, society).Success? {
      OutReplay(s, ResidentLeaves(s, f, p, on), f, TheResident(p), on);
    }
    if TenantMoveOut(s, f, p, on, society, ended).Success? {
      OutReplay(s, TenantLeaves(s, f, p, on, ended), f, TheTenant(p), on);
    }
  }

  /** One step keeps the log exact if and only if it does not move in a record that is not active. */
  lemma StepReplay(s: Db, e: Event)
    requires LogExact(s) && Possible(s, e)
    ensures LogExact(Do(s, e)) <==> NamesActiveRecord(s, e)
  {
    match e
    case NewResident(f, moveIn, society) => NewPersonReplay(s, f, NO_TERMS, moveIn, society);
    case NewTenant(f, terms, moveIn, society) => NewPersonReplay(s, f, terms, moveIn, society);
    case ResidentIn(f, r, on, society) =>
      if ResidentMoveIn(s, f, r, on, society).Success? {
        ResidentInReplay(s, f, r, on);
      }
    case ResidentOut(f, r, on, society) => MoveOutReplay(s, f, r, on, society, None);
    case TenantIn(f, t, on, create, society) =>
      if TenantMoveIn(s, f, t, on, create, society).Success? {
        TenantInReplay(s, f, t, on, create);
      }
    case TenantOut(f, t, on, society, ended) => MoveOutReplay(s, f, t, on, society, ended);
    case Possession(f, on, today) => PossessionReplay(s, f, on, today);
    case _ => SameLogSamePeople(s, Do(s, e));
  }

  // ---------------------------------------------------------------- whole runs

  /**
  Along a run, replaying the log gives exactly who lives where and since when at every
  point if and only if every move-in that went through named an active record.
  */
  lemma ReplayIsExact(h: seq<Db>, events: seq<Event>)
    requires History(h, events) && LogExact(h[0])
    ensures (forall i :: 0 <= i < |h| ==> LogExact(h[i]))
            <==> (forall i :: 0 <= i < |events| ==> NamesActiveRecord(h[i], events[i]))
  {
    if forall i :: 0 <= i < |events| ==> NamesActiveRecord(h[i], events[i]) {
      forall i | 0 <= i < |h|
        ensures LogExact(h[i])
      {
        ExactUpTo(h, events, i);
      }
    }
    if forall i :: 0 <= i < |h| ==> LogExact(h[i]) {
      forall i | 0 <= i < |events|
        ensures NamesActiveRecord(h[i], events[i])
      {
        StepReplay(h[i], events[i]);
        assert LogExact(h[i + 1]);
      }
    }
  }

  lemma {:induction false} ExactUpTo(h: seq<Db>, events: seq<Event>, i: nat)
    requires History(h, events) && LogExact(h[0]) && i < |h|
    requires forall j :: 0 <= j < |events| ==> NamesActiveRecord(h[j], events[j])
    ensures LogExact(h[i])
  {
    if i > 0 {
      ExactUpTo(h, events, i - 1);
      StepReplay(h[i - 1], events[i - 1]);
    }
  }

  // ---------------------------------------------------------------- a run that goes wrong

  /** One flat and one resident, who came on day 1. */
  function With(status: Option<Occupancy>, residents: seq<Stay>, log: seq<Entry>): (s: Db) {
    Db([Flat(true, 0, "A", None, "101", status, None)], residents, [], [], log, [])
  }

  const HOME: Db := With(Some(OwnerOccupied), [Stay(0, true, Some(1), None)], [MovedIn(0, TheResident(0), 1)])

  const GONE: Db := With(Some(Vacant), [Stay(0, false, Some(1), Some(2))],
                         [MovedIn(0, TheResident(0), 1), FlatVacant(0, 2), MovedOut(0, TheResident(0), 2)])

  const BACK: Db := With(Some(Vacant), [Stay(0, false, Some(3), Some(2))], GONE.log + [MovedIn(0, TheResident(0), 3)])

  lemma Arrives()
    ensures ResidentArrives(With(None, [Stay(0, true, None, None)], []), 0, 0, 1) == HOME
  {
    var added := With(None, [Stay(0, true, None, None)], []);
    var s' := ResidentArrives(added, 0, 0, 1);
    var moved := added.(residents := HOME.residents);
    assert s'.residents == HOME.residents && LivesIn(moved.residents[0], 0) && s'.flats == HOME.flats;
    assert s'.log == HOME.log;
  }

  lemma ComesHome()
    ensures AddResident(With(None, [], []), 0, Some(1), Some(0)) == (HOME, None)
  {
    Arrives();
    assert With(None, [Stay(0, true, None, None)], [])
           == With(None, [], []).(residents := [] + [Stay(0, true, None, None)]);
  }

  lemma Leaves()
    ensures ResidentMoveOut(HOME, 0, 0, 2, Some(0)) == Success(GONE)
  {
    var s' := ResidentLeaves(HOME, 0, 0, 2);
    assert s'.residents == GONE.residents && s'.flats == GONE.flats && s'.log == GONE.log;
  }

  lemma ComesBack()
    ensures ResidentMoveIn(GONE, 0, 0, 3, Some(0)) == Success(BACK)
    ensures Find(Replay(BACK.log), TheResident(0)) == Some(Home(0, 3)) && Lives(BACK, TheResident(0)).None?
    ensures !LogExact(BACK)
  {
    var s' := ResidentArrives(GONE, 0, 0, 3);
    assert s'.residents == BACK.residents && s'.flats == BACK.flats && s'.log == BACK.log;
    ReplayNext(GONE.log, MovedIn(0, TheResident(0), 3));
    assert Find(Replay(BACK.log), TheResident(0)) != Lives(BACK, TheResident(0));
  }

  /**
  The condition matters: from empty books, a resident moves in, moves out and is moved in
  again; the log has them home, and on record they live nowhere.
  */
  lemma MovedOutRecordFoolsTheLog() returns (h: seq<Db>, events: seq<Event>)
    ensures History(h, events) && h[0] == Db([], [], [], [], [], []) && |h| == 5
    ensures events == [NewFlat(With(None, [], []).flats[0]), NewResident(0, Some(1), Some(0)),
                       ResidentOut(0, 0, 2, Some(0)), ResidentIn(0, 0, 3, Some(0))]
    ensures !LogExact(h[4]) && Find(Replay(h[4].log), TheResident(0)) == Some(Home(0, 3))
    ensures Lives(h[4], TheResident(0)).None?
  {
    h, events := [Db([], [], [], [], [], [])], [];
    h, events := Longer(h, events, NewFlat(With(None, [], []).flats[0]), With(None, [], []));
    ComesHome();
    h, events := Longer(h, events, NewResident(0, Some(1), Some(0)), HOME);
    Leaves();
    h, events := Longer(h, events, ResidentOut(0, 0, 2, Some(0)), GONE);
    ComesBack();
    h, events := Longer(h, events, ResidentIn(0, 0, 3, Some(0)), BACK);
  }

  // ---------------------------------------------------------------- the vacancy entry

  /** Nobody's home is in the flat. */
  ghost predicate EmptyIn(homes: map<Who, Home>, f: nat) {
    forall who :: who in homes ==> homes[who].flat != f
  }

  lemma VacantMeansEmpty(s: Db, f: nat)
    requires LogExact(s)
    ensures Derived(s, f) == Vacant <==> EmptyIn(Replay(s.log), f)
  {
    var homes := Replay(s.log);
    if Derived(s, f) == Vacant {
      forall who | who in homes
        ensures homes[who].flat != f
      {
        assert Find(homes, who) == Lives(s, who);
        match who
        case TheResident(r) => assert !LivesIn(s.residents[r], f);
        case TheTenant(t) => assert !LivesIn(s.tenants[t].stay, f);
      }
    } else if TenantLivesIn(s, f) {
      var t :| 0 <= t < |s.tenants| && LivesIn(s.tenants[t].stay, f);
      assert Find(homes, TheTenant(t)) == Lives(s, TheTenant(t));
    } else {
      var r :| 0 <= r < |s.residents| && LivesIn(s.residents[r], f);
      assert Find(homes, TheResident(r)) == Lives(s, TheResident(r));
    }
  }

  /** What the step added to the log. */
  ghost function Added(s: Db, s': Db): (added: seq<Entry>)
    requires s.log <= s'.log
  {
    s'.log[|s.log|..]
  }

  /** A move-out notes the flat as vacant exactly when the log, replayed, leaves it empty. */
  lemma VacancyNotedExactly(s: Db, f: nat, p: nat, on: Date, society: Option<nat>, ended: Option<nat>)
    requires LogExact(s) && (ended.Some? ==> ended.value < |s.agreements|)
    ensures var out := ResidentMoveOut(s, f, p, on, society);
            out.Success? ==> s.log <= out.value.log
                             && (FlatVacant(f, on) in Added(s, out.value) <==> EmptyIn(Replay(out.value.log), f))
    ensures var out := TenantMoveOut(s, f, p, on, society, ended);
            out.Success? ==> s.log <= out.value.log
                             && (FlatVacant(f, on) in Added(s, out.value) <==> EmptyIn(Replay(out.value.log), f))
  {
    MoveOutReplay(s, f, p, on, society, ended);
    if ResidentMoveOut(s, f, p, on, society).Success? {
      ResidentVacancy(s, f, p, on);
    }
    if TenantMoveOut(s, f, p, on, society, ended).Success? {
      TenantVacancy(s, f, p, on, ended);
    }
  }

  lemma ResidentVacancy(s: Db, f: nat, r: nat, on: Date)
    requires f < |s.flats| && r < |s.residents| && LogExact(ResidentLeaves(s, f, r, on))
    ensures var s' := ResidentLeaves(s, f, r, on);
            s.log <= s'.log && (FlatVacant(f, on) in Added(s, s') <==> EmptyIn(Replay(s'.log), f))
  {
    var s' := ResidentLeaves(s, f, r, on);
    var out := MovedOut(f, TheResident(r), on);
    VacantMeansEmpty(s', f);
    assert s'.log == s.log + (if Derived(s', f) == Vacant then [FlatVacant(f, on), out] else [out]) by {
      var gone := s.(residents := s'.residents, vehicles := s'.vehicles);
      assert TenantLivesIn(gone, f) == TenantLivesIn(s', f);
      assert ResidentLivesIn(gone, f) == ResidentLivesIn(s', f);
    }
  }

  lemma TenantVacancy(s: Db, f: nat, t: nat, on: Date, ended: Option<nat>)
    requires ended.Some? ==> ended.value < |s.agreements|
    requires f < |s.flats| && t < |s.tenants| && LogExact(TenantLeaves(s, f, t, on, ended))
    ensures var s' := TenantLeaves(s, f, t, on, ended);
            s.log <= s'.log && (FlatVacant(f, on) in Added(s, s') <==> EmptyIn(Replay(s'.log), f))
  {
    var s' := TenantLeaves(s, f, t, on, ended);
    var out := MovedOut(f, TheTenant(t), on);
    VacantMeansEmpty(s', f);
    assert s'.log == s.log + (if Derived(s', f) == Vacant then [out, FlatVacant(f, on)] else [out]) by {
      var gone := s.(tenants := s'.tenants);
      assert TenantLivesIn(gone, f) == TenantLivesIn(s', f);
      assert ResidentLivesIn(gone, f) == ResidentLivesIn(s', f);
    }
  }
}
