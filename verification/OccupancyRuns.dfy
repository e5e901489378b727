/** The occupancy and agreement results over whole runs. */
module OccupancyRuns {
  import opened Wrappers
  import opened Ledger
  import opened OccupancyHistory
  import opened OccupancyInvariants
  import opened AgreementLedger

  // ---------------------------------------------------------------- every step, every run

  lemma NewResidentSound(s: Db, f: nat, moveIn: Option<Date>, society: Option<nat>)
    requires Sound(s)
    ensures Sound(AddResident(s, f, moveIn, society).0)
  {
    if FlatFound(s, f, society) {
      var added := s.(residents := s.residents + [Stay(f, true, None, None)]);
      NewRowSound(s, added);
      if moveIn.Some? && CheckResidentMoveIn(added, f).None? {
        ResidentArrivesSound(added, f, |s.residents|, moveIn.value);
      }
    }
  }

  lemma NewTenantSound(s: Db, f: nat, terms: Terms, moveIn: Option<Date>, society: Option<nat>)
    requires Sound(s)
    ensures Sound(AddTenant(s, f, terms, moveIn, society).0)
  {
    if AgreementDatesValid(terms) && FlatFound(s, f, society) {
      var added := s.(tenants := s.tenants + [Tenant(Stay(f, true, None, None), terms)]);
      NewRowSound(s, added);
      assert Sound(added);
      var create := terms.start.Some? && terms.end.Some?;
      if moveIn.Some? && TenantMoveIn(added, f, |s.tenants|, moveIn.value, create, society).Success? {
        TenantMoveInSound(added, f, |s.tenants|, moveIn.value, create, society);
      }
    }
  }

  lemma TenantMoveInSound(s: Db, f: nat, t: nat, on: Date, create: bool, society: Option<nat>)
    requires Sound(s)
    ensures Sound(Kept(s, TenantMoveIn(s, f, t, on, create, society)))
  {
    if TenantMoveIn(s, f, t, on, create, society).Success? {
      var terms := s.tenants[t].terms;
      TenantArrivesSound(s, f, t, on, create, if create then terms.start else None, if create then terms.end else None);
      TenantArrivesKeepsLedger(s, f, t, on, create, society);
    }
  }

  lemma TermsOnlySound(s: Db, s': Db)
    requires Sound(s) && References(s')
    requires s'.flats == s.flats && s'.residents == s.residents && |s'.tenants| == |s.tenants|
    requires forall t :: 0 <= t < |s.tenants| ==> s'.tenants[t].stay == s.tenants[t].stay
    ensures CacheRight(s') && Exclusive(s')
  {
    forall f | 0 <= f < |s.flats|
      ensures Derived(s, f) == Derived(s', f)
    {
      SameTenants(s, s', f);
      SameResidents(s, s', f);
    }
  }

  lemma ResidentMoveInSound(s: Db, f: nat, r: nat, on: Date, society: Option<nat>)
    requires Sound(s)
    ensures Sound(Kept(s, ResidentMoveIn(s, f, r, on, society)))
  {
    if ResidentMoveIn(s, f, r, on, society).Success? {
      ResidentArrivesSound(s, f, r, on);
    }
  }

  lemma ResidentMoveOutSound(s: Db, f: nat, r: nat, on: Date, society: Option<nat>)
    requires Sound(s)
    ensures Sound(Kept(s, ResidentMoveOut(s, f, r, on, society)))
  {
    if ResidentMoveOut(s, f, r, on, society).Success? {
      ResidentLeavesSound(s, f, r, on);
    }
  }

  lemma TenantMoveOutSound(s: Db, f: nat, t: nat, on: Date, society: Option<nat>, ended: Option<nat>)
    requires Sound(s) && Picked(s, t, ended)
    ensures Sound(Kept(s, TenantMoveOut(s, f, t, on, society, ended)))
  {
    if TenantMoveOut(s, f, t, on, society, ended).Success? {
      TenantLeavesSound(s, f, t, on, ended);
      TenantLeavesKeepsLedger(s, f, t, on, ended);
    }
  }

  lemma RenewalSound(s: Db, t: nat, n: Renewal, society: Option<nat>, current: Option<nat>)
    requires Sound(s) && PickedLatest(s, t, current)
    ensures Sound(Kept(s, RenewAgreement(s, t, n, society, current)))
  {
    if RenewAgreement(s, t, n, society, current).Success? {
      RenewsKeepsLedger(s, t, n, society, current);
      TermsOnlySound(s, Renews(s, t, n, current.value));
    }
  }

  lemma ChannelEditSound(s: Db, t: nat, channel: Edit, name: Edit, society: Option<nat>, current: Option<nat>)
    requires Sound(s) && Picked(s, t, current)
    ensures Sound(Kept(s, EditChannel(s, t, channel, name, society, current)))
  {
    if EditChannel(s, t, channel, name, society, current).Success? {
      EditChannelKeepsLedger(s, t, channel, name, society, current);
      TermsOnlySound(s, EditChannel(s, t, channel, name, society, current).value);
    }
  }

  lemma PossessionSound(s: Db, f: nat, on: Date, today: Date)
    requires Sound(s) && f < |s.flats|
    ensures Sound(TakePossession(s, f, on, today))
  {
    TakePossessionSound(s, f, on, today);
  }

  lemma NewFlatSound(s: Db, flat: Flat)
    requires Sound(s)
    ensures Sound(s.(flats := s.flats + [flat]))
  {
    NewRowSound(s, s.(flats := s.flats + [flat]));
  }

  /** Each step keeps everything at once. */
  lemma StepKeepsSound(s: Db, e: Event)
    requires Sound(s) && Possible(s, e)
    ensures Sound(Do(s, e))
  {
    match e
    case NewFlat(flat) => NewFlatSound(s, flat);
    case NewResident(f, moveIn, society) => NewResidentSound(s, f, moveIn, society);
    case NewTenant(f, terms, moveIn, society) => NewTenantSound(s, f, terms, moveIn, society);
    case ResidentIn(f, r, on, society) => ResidentMoveInSound(s, f, r, on, society);
    case ResidentOut(f, r, on, society) => ResidentMoveOutSound(s, f, r, on, society);
    case TenantIn(f, t, on, create, society) => TenantMoveInSound(s, f, t, on, create, society);
    case TenantOut(f, t, on, society, ended) => TenantMoveOutSound(s, f, t, on, society, ended);
    case Renewing(t, n, society, current) => RenewalSound(s, t, n, society, current);
    case ChannelEdit(t, channel, name, society, current) => ChannelEditSound(s, t, channel, name, society, current);
    case Possession(f, on, today) => PossessionSound(s, f, on, today);
  }

  /** Runs may start from flats of any status with nobody on record yet. */
  lemma NobodyOnRecordIsSound(s: Db)
    requires s.residents == [] && s.tenants == [] && s.agreements == []
    ensures Sound(s)
  {
  }

  /** The books stay sound through every run from sound books. */
  lemma {:induction false} RunsStaySound(h: seq<Db>, events: seq<Event>, i: nat)
    requires History(h, events) && Sound(h[0]) && i < |h|
    ensures Sound(h[i])
  {
    if i > 0 {
      RunsStaySound(h, events, i - 1);
      StepKeepsSound(h[i - 1], events[i - 1]);
    }
  }

  /** No flat ever has both a resident and a tenant living in it, nor two tenants. */
  lemma NeverDoublyOccupied(h: seq<Db>, events: seq<Event>, i: nat, f: nat)
    requires History(h, events) && Sound(h[0]) && i < |h|
    ensures !(TenantLivesIn(h[i], f) && ResidentLivesIn(h[i], f))
    ensures forall t, u :: (0 <= t < |h[i].tenants| && 0 <= u < |h[i].tenants|
                            && LivesIn(h[i].tenants[t].stay, f) && LivesIn(h[i].tenants[u].stay, f)) ==> t == u
    ensures f < |h[i].flats| && (TenantLivesIn(h[i], f) || ResidentLivesIn(h[i], f)) ==>
              h[i].flats[f].status == Some(Derived(h[i], f))
  {
    RunsStaySound(h, events, i);
    if TenantLivesIn(h[i], f) {
      var t :| 0 <= t < |h[i].tenants| && LivesIn(h[i].tenants[t].stay, f);
      assert h[i].tenants[t].stay.flat == f;
      assert forall r :: 0 <= r < |h[i].residents| ==> !LivesIn(h[i].residents[r], f);
    }
  }

  /**
  In every reachable state a tenant has at most one active agreement, it carries the
  tenant's cached terms, moving the tenant in again with an agreement is refused, and
  moving the tenant out leaves none active, whichever agreement the query returns.
  */
  lemma OneTenancyAtATime(h: seq<Db>, events: seq<Event>, i: nat, t: nat, on: Date, society: Option<nat>,
                          ended: Option<nat>)
    requires History(h, events) && Sound(h[0]) && i < |h|
    requires t < |h[i].tenants| && Picked(h[i], t, ended)
    ensures forall a: nat, b: nat :: ActiveOf(h[i], a, t) && ActiveOf(h[i], b, t) ==> a == b
    ensures forall a: nat :: ActiveOf(h[i], a, t) ==> CarriesTerms(h[i].agreements[a], h[i].tenants[t].terms)
    ensures (exists a: nat :: ActiveOf(h[i], a, t)) ==>
              TenantMoveIn(h[i], h[i].tenants[t].stay.flat, t, on, true, society).Failure?
    ensures var out := TenantMoveOut(h[i], h[i].tenants[t].stay.flat, t, on, society, ended);
            out.Success? ==> forall a: nat :: !ActiveOf(out.value, a, t)
  {
    RunsStaySound(h, events, i);
    var f := h[i].tenants[t].stay.flat;
    forall a: nat, b: nat | ActiveOf(h[i], a, t) && ActiveOf(h[i], b, t)
      ensures a == b
    {
      assert !(a < b) && !(b < a);
    }
    if a: nat :| ActiveOf(h[i], a, t) {
      SecondAgreementRefused(h[i], f, t, a, on, society);
    }
    if TenantMoveOut(h[i], f, t, on, society, ended).Success? {
      MoveOutEndsTenancy(h[i], f, t, on, society, ended);
    }
  }

  /** On one flat, two active agreements never share a day. */
  lemma ActiveDatesDisjoint(h: seq<Db>, events: seq<Event>, i: nat, a: nat, b: nat, day: Date)
    requires History(h, events) && Sound(h[0]) && i < |h|
    requires a < |h[i].agreements| && b < |h[i].agreements| && a != b
    requires h[i].agreements[a].status == h[i].agreements[b].status == Active
    requires h[i].agreements[a].flat == h[i].agreements[b].flat
    ensures !(h[i].agreements[a].start <= day <= h[i].agreements[a].end
              && h[i].agreements[b].start <= day <= h[i].agreements[b].end)
  {
    RunsStaySound(h, events, i);
    var lo, hi := if a < b then a else b, if a < b then b else a;
    assert !Overlaps(h[i].agreements[lo], h[i].agreements[hi].start, h[i].agreements[hi].end);
  }

  // ---------------------------------------------------------------- renewal chains

  /** The agreement and those it renews, latest first. */
  ghost function Chain(gs: seq<Agreement>, b: nat): (chain: seq<nat>)
    requires Forward(gs) && b < |gs|
    decreases b
  {
    if gs[b].renewalOf.None? then [b] else [b] + Chain(gs, gs[b].renewalOf.value)
  }

  /** A chain ends in a first agreement, stays on one tenant and flat, and goes strictly back in time. */
  lemma {:induction false} ChainGoesBack(gs: seq<Agreement>, b: nat, i: nat, j: nat)
    requires Forward(gs) && b < |gs|
    requires i < j < |Chain(gs, b)|
    ensures Chain(gs, b)[i] < |gs| && Chain(gs, b)[j] < |gs|
    ensures var later, earlier := gs[Chain(gs, b)[i]], gs[Chain(gs, b)[j]];
            && earlier.tenant == later.tenant && earlier.flat == later.flat
            && earlier.start < later.start && earlier.end < later.end
            && earlier.status == Renewed
    decreases b
  {
    var chain := Chain(gs, b);
    var a := gs[b].renewalOf.value;
    var rest := Chain(gs, a);
    assert chain == [b] + rest;
    if i > 0 {
      ChainGoesBack(gs, a, i - 1, j - 1);
    } else if j > 1 {
      ChainGoesBack(gs, a, 0, j - 1);
      assert rest[0] == a;
    } else {
      assert rest[0] == a;
    }
  }

  /** The last agreement of a chain renews nothing: following renewals always ends. */
  lemma {:induction false} ChainEnds(gs: seq<Agreement>, b: nat)
    requires Forward(gs) && b < |gs|
    ensures var chain := Chain(gs, b);
            0 < |chain| <= b + 1 && chain[|chain| - 1] < |gs| && gs[chain[|chain| - 1]].renewalOf.None?
    decreases b
  {
    if gs[b].renewalOf.Some? {
      ChainEnds(gs, gs[b].renewalOf.value);
    }
  }

  /** In every reachable state, every renewal chain ends, on one tenant and flat, strictly back in time. */
  lemma ChainsInEveryRun(h: seq<Db>, events: seq<Event>, n: nat, b: nat)
    requires History(h, events) && Sound(h[0]) && n < |h| && b < |h[n].agreements|
    ensures Forward(h[n].agreements)
    ensures var gs, chain := h[n].agreements, Chain(h[n].agreements, b);
            && 0 < |chain| <= b + 1 && (forall i :: 0 <= i < |chain| ==> chain[i] < |gs|)
            && chain[0] == b && gs[chain[|chain| - 1]].renewalOf.None?
            && forall i, j :: 0 <= i < j < |chain| ==>
                 && gs[chain[j]].tenant == gs[chain[i]].tenant && gs[chain[j]].flat == gs[chain[i]].flat
                 && gs[chain[j]].start < gs[chain[i]].start && gs[chain[j]].end < gs[chain[i]].end
                 && gs[chain[j]].status == Renewed
  {
    RunsStaySound(h, events, n);
    var gs, chain := h[n].agreements, Chain(h[n].agreements, b);
    ChainEnds(gs, b);
    forall i: nat, j: nat | i < j < |chain|
      ensures chain[i] < |gs| && chain[j] < |gs|
      ensures gs[chain[j]].tenant == gs[chain[i]].tenant && gs[chain[j]].flat == gs[chain[i]].flat
      ensures gs[chain[j]].start < gs[chain[i]].start && gs[chain[j]].end < gs[chain[i]].end
      ensures gs[chain[j]].status == Renewed
    {
      ChainGoesBack(gs, b, i, j);
    }
    forall i: nat | i < |chain|
      ensures chain[i] < |gs|
    {
      if i > 0 {
        ChainGoesBack(gs, b, 0, i);
      }
    }
  }

  /** An agreement is marked renewed exactly when exactly one agreement renews it. */
  lemma RenewedExactlyOnce(h: seq<Db>, events: seq<Event>, i: nat, a: nat)
    requires History(h, events) && Sound(h[0]) && i < |h| && a < |h[i].agreements|
    ensures h[i].agreements[a].status == Renewed <==> exists b: nat :: RenewedBy(h[i].agreements, a, b)
    ensures forall b: nat, c: nat :: RenewedBy(h[i].agreements, a, b) && RenewedBy(h[i].agreements, a, c) ==> b == c
  {
    RunsStaySound(h, events, i);
    if b: nat :| RenewedBy(h[i].agreements, a, b) {
      assert h[i].agreements[b].renewalOf == Some(a);
    }
  }

  /** No agreement is removed or moved; one no longer active never changes again; none comes to be expired. */
  ghost predicate Evolves(gs: seq<Agreement>, gs': seq<Agreement>) {
    && |gs| <= |gs'|
    && (forall a :: 0 <= a < |gs'| && gs'[a].status == Expired ==> a < |gs| && gs[a].status == Expired)
    && forall a :: 0 <= a < |gs| ==>
         && (gs[a].status != Active ==> gs'[a] == gs[a])
         && gs'[a].flat == gs[a].flat && gs'[a].tenant == gs[a].tenant
         && gs'[a].start == gs[a].start && gs'[a].end == gs[a].end
         && gs'[a].rent == gs[a].rent && gs'[a].deposit == gs[a].deposit
         && gs'[a].document == gs[a].document && gs'[a].renewalOf == gs[a].renewalOf
  }

  lemma TenantMoveInEvolves(s: Db, f: nat, t: nat, on: Date, create: bool, society: Option<nat>)
    ensures Evolves(s.agreements, Kept(s, TenantMoveIn(s, f, t, on, create, society)).agreements)
  {
  }

  lemma NewTenantEvolves(s: Db, f: nat, terms: Terms, moveIn: Option<Date>, society: Option<nat>)
    ensures Evolves(s.agreements, AddTenant(s, f, terms, moveIn, society).0.agreements)
  {
  }

  lemma TenantMoveOutEvolves(s: Db, f: nat, t: nat, on: Date, society: Option<nat>, ended: Option<nat>)
    requires Picked(s, t, ended)
    ensures Evolves(s.agreements, Kept(s, TenantMoveOut(s, f, t, on, society, ended)).agreements)
  {
  }

  lemma ChannelEditEvolves(s: Db, t: nat, channel: Edit, name: Edit, society: Option<nat>, current: Option<nat>)
    requires Picked(s, t, current)
    ensures Evolves(s.agreements, Kept(s, EditChannel(s, t, channel, name, society, current)).agreements)
  {
  }

  lemma RenewalEvolves(s: Db, t: nat, n: Renewal, society: Option<nat>, current: Option<nat>)
    requires PickedLatest(s, t, current)
    ensures Evolves(s.agreements, Kept(s, RenewAgreement(s, t, n, society, current)).agreements)
  {
  }

  lemma StepEvolves(s: Db, e: Event)
    requires Possible(s, e)
    ensures Evolves(s.agreements, Do(s, e).agreements)
  {
    match e
    case NewTenant(f, terms, moveIn, society) => NewTenantEvolves(s, f, terms, moveIn, society);
    case TenantIn(f, t, on, create, society) => TenantMoveInEvolves(s, f, t, on, create, society);
    case TenantOut(f, t, on, society, ended) => TenantMoveOutEvolves(s, f, t, on, society, ended);
    case Renewing(t, n, society, current) => RenewalEvolves(s, t, n, society, current);
    case ChannelEdit(t, channel, name, society, current) => ChannelEditEvolves(s, t, channel, name, society, current);
    case NewFlat(_) =>
    case NewResident(_, _, _) =>
    case ResidentIn(_, _, _, _) =>
    case ResidentOut(_, _, _, _) =>
    case Possession(_, _, _) =>
  }

  ghost predicate EachEvolves(h: seq<Db>) {
    forall k :: 0 <= k < |h| - 1 ==> Evolves(h[k].agreements, h[k + 1].agreements)
  }

  lemma {:induction false} EvolvesChain(h: seq<Db>, i: nat, j: nat)
    requires EachEvolves(h) && i <= j < |h|
    ensures Evolves(h[i].agreements, h[j].agreements)
  {
    if i < j {
      EvolvesChain(h, i, j - 1);
      assert Evolves(h[j - 1].agreements, h[j].agreements);
    }
  }

  /** Renewed and terminated are never left, and the ledger only grows, along every run. */
  lemma LedgerOnlyGrows(h: seq<Db>, events: seq<Event>, i: nat, j: nat)
    requires History(h, events) && i <= j < |h|
    ensures Evolves(h[i].agreements, h[j].agreements)
  {
    forall k | 0 <= k < |h| - 1
      ensures Evolves(h[k].agreements, h[k + 1].agreements)
    {
      StepEvolves(h[k], events[k]);
    }
    EvolvesChain(h, i, j);
  }

  // ---------------------------------------------------------------- refusals leave nothing behind

  /**
  The checks made before a row exists foresee every refusal: putting a person on
  record either succeeds, move-in included, or changes nothing.
  */
  lemma RefusedPersonLeavesNothing(s: Db, f: nat, terms: Terms, moveIn: Option<Date>, society: Option<nat>)
    ensures AddResident(s, f, moveIn, society).1.Some? ==> AddResident(s, f, moveIn, society).0 == s
    ensures AddTenant(s, f, terms, moveIn, society).1.Some? ==> AddTenant(s, f, terms, moveIn, society).0 == s
  {
  }
}
