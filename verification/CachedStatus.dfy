/** Exactly when a flat's cached status is the one that follows from who lives there. */
module CachedStatus {
  import opened Wrappers
  import opened Ledger
  import opened OccupancyHistory
  import opened OccupancyInvariants

  /** The step writes the flat's status anew: a move in or out of it that went through, with a date or a possession. */
  predicate Resyncs(s: Db, e: Event, f: nat) {
    match e
    case NewFlat(_) => false
    case NewResident(g, moveIn, society) => g == f && moveIn.Some? && AddResident(s, g, moveIn, society).1.None?
    case NewTenant(g, terms, moveIn, society) =>
      g == f && moveIn.Some? && AddTenant(s, g, terms, moveIn, society).1.None?
    case ResidentIn(g, r, on, society) => g == f && ResidentMoveIn(s, g, r, on, society).Success?
    case ResidentOut(g, r, on, society) => g == f && ResidentMoveOut(s, g, r, on, society).Success?
    case TenantIn(g, t, on, create, society) => g == f && TenantMoveIn(s, g, t, on, create, society).Success?
    case TenantOut(g, t, on, society, ended) =>
      && g == f && (ended.Some? ==> ended.value < |s.agreements|)
      && TenantMoveOut(s, g, t, on, society, ended).Success?
    case Renewing(_, _, _, _) => false
    case ChannelEdit(_, _, _, _, _) => false
    case Possession(g, on, today) => g == f && PossessionMovesIn(s, g, on, today)
  }

  // ---------------------------------------------------------------- one step

  /** What a step that does not resync the flat leaves alone. */
  ghost predicate Untouched(s: Db, s': Db, f: nat) {
    && f < |s.flats| && f < |s'.flats| && s'.flats[f].status == s.flats[f].status
    && |s.tenants| <= |s'.tenants| && |s.residents| <= |s'.residents|
    && (forall t :: 0 <= t < |s.tenants| ==> (LivesIn(s.tenants[t].stay, f) <==> LivesIn(s'.tenants[t].stay, f)))
    && (forall t :: |s.tenants| <= t < |s'.tenants| ==> !LivesIn(s'.tenants[t].stay, f))
    && (forall r :: 0 <= r < |s.residents| ==> (LivesIn(s.residents[r], f) <==> LivesIn(s'.residents[r], f)))
    && (forall r :: |s.residents| <= r < |s'.residents| ==> !LivesIn(s'.residents[r], f))
  }

  lemma UntouchedStatus(s: Db, s': Db, f: nat)
    requires Untouched(s, s', f)
    ensures StatusRight(s', f) <==> StatusRight(s, f)
  {
    SameTenants(s, s', f);
    SameResidents(s, s', f);
    StatusUntouched(s, s', f);
  }

  lemma ResidentInStatus(s: Db, g: nat, r: nat, on: Date, society: Option<nat>, f: nat)
    requires f < |s.flats|
    ensures var out := ResidentMoveIn(s, g, r, on, society);
            StatusRight(Kept(s, out), f) <==> StatusRight(s, f) || (g == f && out.Success?)
  {
    if ResidentMoveIn(s, g, r, on, society).Success? {
      ResidentStepSetsStatus(s, g, r, on);
      if f != g {
        UntouchedStatus(s, ResidentArrives(s, g, r, on), f);
      }
    }
  }

  lemma ResidentOutStatus(s: Db, g: nat, r: nat, on: Date, society: Option<nat>, f: nat)
    requires f < |s.flats|
    ensures var out := ResidentMoveOut(s, g, r, on, society);
            StatusRight(Kept(s, out), f) <==> StatusRight(s, f) || (g == f && out.Success?)
  {
    if ResidentMoveOut(s, g, r, on, society).Success? {
      ResidentStepSetsStatus(s, g, r, on);
      if f != g {
        UntouchedStatus(s, ResidentLeaves(s, g, r, on), f);
      }
    }
  }

  lemma TenantInStatus(s: Db, g: nat, t: nat, on: Date, create: bool, society: Option<nat>, f: nat)
    requires f < |s.flats|
    ensures var out := TenantMoveIn(s, g, t, on, create, society);
            StatusRight(Kept(s, out), f) <==> StatusRight(s, f) || (g == f && out.Success?)
  {
    if TenantMoveIn(s, g, t, on, create, society).Success? {
      TenantStepSetsStatus(s, g, t, on, create, None);
      if f != g {
        UntouchedStatus(s, TenantArrives(s, g, t, on, create), f);
      }
    }
  }

  lemma TenantOutStatus(s: Db, g: nat, t: nat, on: Date, society: Option<nat>, ended: Option<nat>, f: nat)
    requires f < |s.flats| && (ended.Some? ==> ended.value < |s.agreements|)
    ensures var out := TenantMoveOut(s, g, t, on, society, ended);
            StatusRight(Kept(s, out), f) <==> StatusRight(s, f) || (g == f && out.Success?)
  {
    if TenantMoveOut(s, g, t, on, society, ended).Success? {
      TenantStepSetsStatus(s, g, t, on, false, ended);
      if f != g {
        UntouchedStatus(s, TenantLeaves(s, g, t, on, ended), f);
      }
    }
  }

  lemma NewResidentStatus(s: Db, g: nat, moveIn: Option<Date>, society: Option<nat>, f: nat)
    requires f < |s.flats|
    ensures var (s', refusal) := AddResident(s, g, moveIn, society);
            StatusRight(s', f) <==> StatusRight(s, f) || (g == f && moveIn.Some? && refusal.None?)
  {
    var added := s.(residents := s.residents + [Stay(g, true, None, None)]);
    if FlatFound(s, g, society) {
      UntouchedStatus(s, added, f);
      if moveIn.Some? && CheckResidentMoveIn(s, g).None? {
        ResidentInStatus(added, g, |s.residents|, moveIn.value, society, f);
      }
    }
  }

  lemma NewTenantStatus(s: Db, g: nat, terms: Terms, moveIn: Option<Date>, society: Option<nat>, f: nat)
    requires f < |s.flats|
    ensures var (s', refusal) := AddTenant(s, g, terms, moveIn, society);
            StatusRight(s', f) <==> StatusRight(s, f) || (g == f && moveIn.Some? && refusal.None?)
  {
    var added := s.(tenants := s.tenants + [Tenant(Stay(g, true, None, None), terms)]);
    if AgreementDatesValid(terms) && FlatFound(s, g, society) {
      UntouchedStatus(s, added, f);
      if moveIn.Some? && CheckTenantMoveIn(s, g, None, terms.start, terms.end).None? {
        var create := terms.start.Some? && terms.end.Some?;
        TenantInStatus(added, g, |s.tenants|, moveIn.value, create, society, f);
      }
    }
  }

  lemma PossessionStatus(s: Db, g: nat, on: Date, today: Date, f: nat)
    requires f < |s.flats| && g < |s.flats|
    ensures StatusRight(TakePossession(s, g, on, today), f)
            <==> StatusRight(s, f) || (g == f && PossessionMovesIn(s, g, on, today))
  {
    var s' := TakePossession(s, g, on, today);
    if g == f && PossessionMovesIn(s, g, on, today) {
      var moved := s.(residents := s'.residents);
      SameTenants(moved, s', f);
      SameResidents(moved, s', f);
    } else {
      UntouchedStatus(s, s', f);
    }
  }

  lemma TermsStatus(s: Db, t: nat, n: Renewal, channel: Edit, name: Edit, society: Option<nat>, pick: Option<nat>,
                    f: nat)
    requires f < |s.flats| && (pick.Some? ==> pick.value < |s.agreements|)
    ensures StatusRight(Kept(s, RenewAgreement(s, t, n, society, pick)), f) <==> StatusRight(s, f)
    ensures StatusRight(Kept(s, EditChannel(s, t, channel, name, society, pick)), f) <==> StatusRight(s, f)
  {
    UntouchedStatus(s, Kept(s, RenewAgreement(s, t, n, society, pick)), f);
    UntouchedStatus(s, Kept(s, EditChannel(s, t, channel, name, society, pick)), f);
  }

  /** A step leaves a flat's status right exactly when it was right or the step resynced the flat. */
  lemma StepStatus(s: Db, e: Event, f: nat)
    requires Possible(s, e) && f < |s.flats|
    ensures StatusRight(Do(s, e), f) <==> StatusRight(s, f) || Resyncs(s, e, f)
  {
    match e
    case NewFlat(flat) => UntouchedStatus(s, s.(flats := s.flats + [flat]), f);
    case NewResident(g, moveIn, society) => NewResidentStatus(s, g, moveIn, society, f);
    case NewTenant(g, terms, moveIn, society) => NewTenantStatus(s, g, terms, moveIn, society, f);
    case ResidentIn(g, r, on, society) => ResidentInStatus(s, g, r, on, society, f);
    case ResidentOut(g, r, on, society) => ResidentOutStatus(s, g, r, on, society, f);
    case TenantIn(g, t, on, create, society) => TenantInStatus(s, g, t, on, create, society, f);
    case TenantOut(g, t, on, society, ended) => TenantOutStatus(s, g, t, on, society, ended, f);
    case Renewing(t, n, society, current) => TermsStatus(s, t, n, None, None, society, current, f);
    case ChannelEdit(t, channel, name, society, current) =>
      TermsStatus(s, t, Renewal(0, 0, None, None, None, None, None), channel, name, society, current, f);
    case Possession(g, on, today) => PossessionStatus(s, g, on, today, f);
  }

  lemma FlatsStay(s: Db, e: Event)
    requires Possible(s, e)
    ensures |s.flats| <= |Do(s, e).flats|
  {
  }

  // ---------------------------------------------------------------- whole runs

  ghost predicate ResyncedBetween(h: seq<Db>, events: seq<Event>, f: nat, i: nat, j: nat)
    requires |h| == |events| + 1 && j <= |events|
  {
    exists k :: i <= k < j && Resyncs(h[k], events[k], f)
  }

  ghost predicate EachStepExact(h: seq<Db>, events: seq<Event>, f: nat)
    requires |h| == |events| + 1
  {
    forall k :: 0 <= k < |events| && f < |h[k].flats| ==>
      && f < |h[k + 1].flats|
      && (StatusRight(h[k + 1], f) <==> StatusRight(h[k], f) || Resyncs(h[k], events[k], f))
  }

  lemma {:induction false} ExactChain(h: seq<Db>, events: seq<Event>, f: nat, i: nat, j: nat)
    requires |h| == |events| + 1 && i <= j < |h| && f < |h[i].flats| && EachStepExact(h, events, f)
    ensures f < |h[j].flats|
    ensures StatusRight(h[j], f) <==> StatusRight(h[i], f) || ResyncedBetween(h, events, f, i, j)
  {
    if i < j {
      ExactChain(h, events, f, i, j - 1);
      assert ResyncedBetween(h, events, f, i, j)
             <==> ResyncedBetween(h, events, f, i, j - 1) || Resyncs(h[j - 1], events[j - 1], f);
    }
  }

  /**
  In every run, a flat's cached status is right exactly when it was right at the start, or
  at any earlier point, or some step since then resynced the flat.
  */
  lemma StatusRightExactlyWhen(h: seq<Db>, events: seq<Event>, f: nat, i: nat, j: nat)
    requires History(h, events) && i <= j < |h| && f < |h[i].flats|
    ensures f < |h[j].flats|
    ensures StatusRight(h[j], f) <==> StatusRight(h[i], f) || ResyncedBetween(h, events, f, i, j)
  {
    forall k | 0 <= k < |events| && f < |h[k].flats|
      ensures f < |h[k + 1].flats|
      ensures StatusRight(h[k + 1], f) <==> StatusRight(h[k], f) || Resyncs(h[k], events[k], f)
    {
      FlatsStay(h[k], events[k]);
      StepStatus(h[k], events[k], f);
    }
    ExactChain(h, events, f, i, j);
  }

  /** From the first move on, the guards refuse exactly those whom the records keep out. */
  lemma GuardsExactOnceResynced(h: seq<Db>, events: seq<Event>, f: nat, i: nat, j: nat, except: Option<nat>,
                                start: Option<Date>, end: Option<Date>)
    requires History(h, events) && i <= j < |h| && f < |h[i].flats|
    requires StatusRight(h[i], f) || ResyncedBetween(h, events, f, i, j)
    ensures f < |h[j].flats|
    ensures CheckResidentMoveIn(h[j], f).Some? <==> TenantLivesIn(h[j], f)
    ensures CheckTenantMoveIn(h[j], f, except, start, end).Some? <==>
              || TenantOnBooks(h[j], f, except)
              || (ResidentLivesIn(h[j], f) && !TenantLivesIn(h[j], f))
              || (start.Some? && end.Some? && ActiveOverlap(h[j], f, start.value, end.value, None))
  {
    StatusRightExactlyWhen(h, events, f, i, j);
    ResidentGuardExact(h[j], f);
    TenantGuardExact(h[j], f, except, start, end);
  }

  // ---------------------------------------------------------------- where it is wrong

  function OneFlat(status: Option<Occupancy>): (flat: Flat) {
    Flat(true, 0, "A", None, "101", status, None)
  }

  /**
  A flat created as owner occupied with nobody on record keeps that status, though it is
  vacant, through a row of the possession sheet too.
  */
  lemma CreatedOccupiedStaysOccupied() returns (h: seq<Db>, events: seq<Event>)
    ensures History(h, events) && h[0] == Db([], [], [], [], [], [])
    ensures events == [NewFlat(OneFlat(Some(OwnerOccupied))), Possession(0, 5, 9)]
    ensures h[2].flats == [OneFlat(Some(OwnerOccupied)).(possession := Some(5))] && Derived(h[2], 0) == Vacant
    ensures !StatusRight(h[1], 0) && !StatusRight(h[2], 0)
  {
    events := [NewFlat(OneFlat(Some(OwnerOccupied))), Possession(0, 5, 9)];
    var s0 := Db([], [], [], [], [], []);
    var s1 := s0.(flats := [OneFlat(Some(OwnerOccupied))]);
    h := [s0, s1, TakePossession(s1, 0, 5, 9)];
    assert Do(s0, events[0]) == s1 && Do(s1, events[1]) == h[2];
  }

  /** A stale status keeps people out: a flat created as let refuses a resident though its tenant never moved in. */
  lemma StaleStatusRefuses() returns (h: seq<Db>, events: seq<Event>)
    ensures History(h, events) && h[0] == Db([], [], [], [], [], []) && |h| == 4
    ensures events[2] == NewResident(0, Some(7), Some(0))
    ensures AddResident(h[2], 0, Some(7), Some(0)).1 == Some(FlatTenantOccupied)
    ensures forall f :: 0 <= f ==> Derived(h[2], f) == Vacant
  {
    events := [NewFlat(OneFlat(Some(TenantOccupied))), NewTenant(0, NO_TERMS, None, Some(0)),
               NewResident(0, Some(7), Some(0))];
    var s0 := Db([], [], [], [], [], []);
    var s1 := s0.(flats := [OneFlat(Some(TenantOccupied))]);
    var s2 := s1.(tenants := [Tenant(Stay(0, true, None, None), NO_TERMS)]);
    h := [s0, s1, s2, s2];
    assert OnBooks(s2.tenants[0].stay, 0) && None != Some(0);
    assert Do(s0, events[0]) == s1 && Do(s1, events[1]) == s2 && Do(s2, events[2]) == s2;
  }
}
