/**
What every run keeps. The guards of the service read the cached status, so that an
owner and a tenant never both live in a flat holds only together with the cache
being right; and move-out ends a tenancy only because a tenant never has two active
agreements, which rests on move-in and renewal together.
*/
module OccupancyInvariants {
  import opened Wrappers
  import opened Ledger
  import opened OccupancyHistory

  // ---------------------------------------------------------------- the invariants

  ghost predicate References(s: Db) {
    && (forall r :: 0 <= r < |s.residents| ==> s.residents[r].flat < |s.flats|)
    && (forall t :: 0 <= t < |s.tenants| ==>
          s.tenants[t].stay.flat < |s.flats| && AgreementDatesValid(s.tenants[t].terms))
    && (forall a :: 0 <= a < |s.agreements| ==>
          && s.agreements[a].tenant < |s.tenants|
          && s.agreements[a].flat == s.tenants[s.agreements[a].tenant].stay.flat
          && s.agreements[a].start < s.agreements[a].end)
  }

  /** The flat's stored status is the one that follows from who lives there. */
  predicate StatusRight(s: Db, f: nat) {
    f < |s.flats| && s.flats[f].status == Some(Derived(s, f))
  }

  /** If anyone lives in a flat, its stored status is right. */
  ghost predicate CacheRight(s: Db) {
    forall f :: 0 <= f < |s.flats| && Derived(s, f) != Vacant ==> StatusRight(s, f)
  }

  /** No flat has both a resident and a tenant living in it, nor two tenants. */
  ghost predicate Exclusive(s: Db) {
    && (forall t, r :: 0 <= t < |s.tenants| && 0 <= r < |s.residents| ==>
          !(LivesIn(s.tenants[t].stay, s.tenants[t].stay.flat)
            && LivesIn(s.residents[r], s.tenants[t].stay.flat)))
    && (forall t, u :: 0 <= t < u < |s.tenants| ==>
          !(LivesIn(s.tenants[t].stay, s.tenants[t].stay.flat)
            && LivesIn(s.tenants[u].stay, s.tenants[t].stay.flat)))
  }

  /** A tenant has at most one active agreement. */
  ghost predicate OneActive(gs: seq<Agreement>) {
    forall a, b :: 0 <= a < b < |gs| && gs[a].status == gs[b].status == Active ==> gs[a].tenant != gs[b].tenant
  }

  ghost predicate CarriesTerms(g: Agreement, terms: Terms) {
    && terms.start == Some(g.start) && terms.end == Some(g.end)
    && terms.rent == g.rent && terms.deposit == g.deposit
    && terms.channel == g.channel && terms.channelName == g.channelName
  }

  /** The terms cached on the tenant are those of the active agreement. */
  ghost predicate TermsCached(gs: seq<Agreement>, tenants: seq<Tenant>) {
    forall a :: 0 <= a < |gs| && gs[a].status == Active && gs[a].tenant < |tenants| ==>
      CarriesTerms(gs[a], tenants[gs[a].tenant].terms)
  }

  /** Active agreements on one flat never share a day. */
  ghost predicate DatesDisjoint(gs: seq<Agreement>) {
    forall a, b :: 0 <= a < b < |gs| && gs[a].status == gs[b].status == Active && gs[a].flat == gs[b].flat ==>
      !Overlaps(gs[a], gs[b].start, gs[b].end)
  }

  /** A renewal carries an earlier agreement of the same tenant and flat forward. */
  ghost predicate Forward(gs: seq<Agreement>) {
    forall b :: 0 <= b < |gs| && gs[b].renewalOf.Some? ==>
      var a := gs[b].renewalOf.value;
      && a < b
      && gs[a].tenant == gs[b].tenant && gs[a].flat == gs[b].flat
      && gs[a].start < gs[b].start && gs[a].end < gs[b].end
      && gs[a].status == Renewed
  }

  ghost predicate RenewedBy(gs: seq<Agreement>, a: nat, b: nat) {
    b < |gs| && gs[b].renewalOf == Some(a)
  }

  /** A renewed agreement has a renewal, and no agreement has two. */
  ghost predicate RenewedOnce(gs: seq<Agreement>) {
    && (forall a :: 0 <= a < |gs| && gs[a].status == Renewed ==> exists b :: RenewedBy(gs, a, b))
    && (forall a: nat, b: nat, c: nat :: RenewedBy(gs, a, b) && RenewedBy(gs, a, c) ==> b == c)
  }

  ghost predicate LedgerSound(gs: seq<Agreement>) {
    OneActive(gs) && DatesDisjoint(gs) && Forward(gs) && RenewedOnce(gs)
  }

  ghost predicate AgreementsSound(s: Db) {
    References(s) && TermsCached(s.agreements, s.tenants) && LedgerSound(s.agreements)
  }

  ghost predicate Sound(s: Db) {
    References(s) && CacheRight(s) && Exclusive(s) && AgreementsSound(s)
  }

  // ---------------------------------------------------------------- who lives where, step by step

  /** Whoever lives in `g` before lives there after, and nobody else. */
  ghost predicate SameOccupants(s: Db, s': Db, g: nat) {
    && (TenantLivesIn(s, g) <==> TenantLivesIn(s', g))
    && (ResidentLivesIn(s, g) <==> ResidentLivesIn(s', g))
  }

  lemma SameTenants(s: Db, s': Db, g: nat)
    requires |s.tenants| <= |s'.tenants|
    requires forall t :: 0 <= t < |s.tenants| ==> (LivesIn(s.tenants[t].stay, g) <==> LivesIn(s'.tenants[t].stay, g))
    requires forall t :: |s.tenants| <= t < |s'.tenants| ==> !LivesIn(s'.tenants[t].stay, g)
    ensures TenantLivesIn(s, g) <==> TenantLivesIn(s', g)
  {
  }

  lemma SameResidents(s: Db, s': Db, g: nat)
    requires |s.residents| <= |s'.residents|
    requires forall r :: 0 <= r < |s.residents| ==> (LivesIn(s.residents[r], g) <==> LivesIn(s'.residents[r], g))
    requires forall r :: |s.residents| <= r < |s'.residents| ==> !LivesIn(s'.residents[r], g)
    ensures ResidentLivesIn(s, g) <==> ResidentLivesIn(s', g)
  {
  }

  /** A step that leaves a flat's status and occupants alone leaves the status as right or as wrong as it was. */
  lemma StatusUntouched(s: Db, s': Db, g: nat)
    requires g < |s.flats| && g < |s'.flats| && s'.flats[g].status == s.flats[g].status && SameOccupants(s, s', g)
    ensures Derived(s', g) == Derived(s, g) && (StatusRight(s', g) <==> StatusRight(s, g))
  {
  }

  /** A step that resyncs `f` and leaves every other flat's row and occupants alone keeps the cache right. */
  lemma CacheStaysRight(s: Db, s': Db, f: nat)
    requires CacheRight(s)
    requires |s.flats| == |s'.flats| && f < |s.flats|
    requires StatusRight(s', f)
    requires forall g :: 0 <= g < |s.flats| && g != f ==>
               s'.flats[g].status == s.flats[g].status && SameOccupants(s, s', g)
    ensures CacheRight(s')
  {
    forall g | 0 <= g < |s'.flats| && Derived(s', g) != Vacant
      ensures StatusRight(s', g)
    {
      if g != f {
        StatusUntouched(s, s', g);
        assert StatusRight(s, g);
      }
    }
  }

  /** Where the stored status is right, the guard that reads it refuses a resident exactly where a tenant lives. */
  lemma ResidentGuardExact(s: Db, f: nat)
    requires StatusRight(s, f)
    ensures CheckResidentMoveIn(s, f).Some? <==> TenantLivesIn(s, f)
  {
    if t :| 0 <= t < |s.tenants| && LivesIn(s.tenants[t].stay, f) {
      assert OnBooks(s.tenants[t].stay, f) && None != Some(t);
    }
  }

  /**
  Where the stored status is right, a tenant is refused exactly where another tenant is on the
  books, or a resident and no tenant lives there, or the dates given overlap an active agreement.
  */
  lemma TenantGuardExact(s: Db, f: nat, except: Option<nat>, start: Option<Date>, end: Option<Date>)
    requires StatusRight(s, f)
    ensures CheckTenantMoveIn(s, f, except, start, end).Some? <==>
              || TenantOnBooks(s, f, except)
              || (ResidentLivesIn(s, f) && !TenantLivesIn(s, f))
              || (start.Some? && end.Some? && ActiveOverlap(s, f, start.value, end.value, None))
  {
    if r :| 0 <= r < |s.residents| && LivesIn(s.residents[r], f) {
      assert s.residents[r].flat == f && s.residents[r].active;
    }
  }

  /** Whoever lives in a flat makes its stored status right, so that the guards see them. */
  lemma OccupiedIsRight(s: Db, f: nat)
    requires CacheRight(s) && f < |s.flats| && (TenantLivesIn(s, f) || ResidentLivesIn(s, f))
    ensures StatusRight(s, f)
  {
  }

  lemma ResidentArrivesSound(s: Db, f: nat, r: nat, on: Date)
    requires References(s) && CacheRight(s) && Exclusive(s)
    requires f < |s.flats| && r < |s.residents| && s.residents[r].flat == f
    requires CheckResidentMoveIn(s, f).None?
    ensures CacheRight(ResidentArrives(s, f, r, on)) && Exclusive(ResidentArrives(s, f, r, on))
  {
    var s' := ResidentArrives(s, f, r, on);
    forall g | 0 <= g < |s.flats| && g != f
      ensures SameOccupants(s, s', g)
    {
      SameTenants(s, s', g);
      SameResidents(s, s', g);
    }
    SameTenants(s, s', f);
    CacheStaysRight(s, s', f);
    if TenantLivesIn(s, f) {
      OccupiedIsRight(s, f);
      ResidentGuardExact(s, f);
    }
  }

  lemma ResidentLeavesSound(s: Db, f: nat, r: nat, on: Date)
    requires References(s) && CacheRight(s) && Exclusive(s)
    requires f < |s.flats| && r < |s.residents| && s.residents[r].flat == f
    ensures CacheRight(ResidentLeaves(s, f, r, on)) && Exclusive(ResidentLeaves(s, f, r, on))
  {
    var s' := ResidentLeaves(s, f, r, on);
    forall g | 0 <= g < |s.flats| && g != f
      ensures SameOccupants(s, s', g)
    {
      SameTenants(s, s', g);
      SameResidents(s, s', g);
    }
    var gone := s.(residents := s'.residents, vehicles := s'.vehicles);
    assert Derived(gone, f) == Derived(s', f) by {
      SameTenants(gone, s', f);
      SameResidents(gone, s', f);
    }
    CacheStaysRight(s, s', f);
  }

  lemma OthersOnBooks(s: Db, f: nat, t: nat)
    requires Exclusive(s)
    ensures ResidentLivesIn(s, f) ==> !TenantLivesIn(s, f)
    ensures !TenantOnBooks(s, f, Some(t)) ==>
              forall u: nat :: u < |s.tenants| && u != t ==> !LivesIn(s.tenants[u].stay, f)
  {
    forall u: nat | u < |s.tenants| && u != t && LivesIn(s.tenants[u].stay, f)
      ensures TenantOnBooks(s, f, Some(t))
    {
      assert OnBooks(s.tenants[u].stay, f) && Some(t) != Some(u);
    }
  }

  lemma TenantArrivesSound(s: Db, f: nat, t: nat, on: Date, create: bool, start: Option<Date>, end: Option<Date>)
    requires References(s) && CacheRight(s) && Exclusive(s)
    requires f < |s.flats| && t < |s.tenants| && s.tenants[t].stay.flat == f
    requires CheckTenantMoveIn(s, f, Some(t), start, end).None?
    ensures CacheRight(TenantArrives(s, f, t, on, create)) && Exclusive(TenantArrives(s, f, t, on, create))
  {
    var s' := TenantArrives(s, f, t, on, create);
    forall g | 0 <= g < |s.flats| && g != f
      ensures SameOccupants(s, s', g)
    {
      SameTenants(s, s', g);
      SameResidents(s, s', g);
    }
    var moved := s.(tenants := s'.tenants);
    assert Derived(moved, f) == Derived(s', f) by {
      SameTenants(moved, s', f);
      SameResidents(moved, s', f);
    }
    CacheStaysRight(s, s', f);
    SameResidents(s, s', f);
    OthersOnBooks(s, f, t);
    if ResidentLivesIn(s, f) {
      OccupiedIsRight(s, f);
      TenantGuardExact(s, f, Some(t), start, end);
    }
  }

  lemma TenantLeavesSound(s: Db, f: nat, t: nat, on: Date, ended: Option<nat>)
    requires References(s) && CacheRight(s) && Exclusive(s)
    requires f < |s.flats| && t < |s.tenants| && s.tenants[t].stay.flat == f
    requires ended.Some? ==> ended.value < |s.agreements|
    ensures CacheRight(TenantLeaves(s, f, t, on, ended)) && Exclusive(TenantLeaves(s, f, t, on, ended))
  {
    var s' := TenantLeaves(s, f, t, on, ended);
    forall g | 0 <= g < |s.flats| && g != f
      ensures SameOccupants(s, s', g)
    {
      SameTenants(s, s', g);
      SameResidents(s, s', g);
    }
    var gone := s.(tenants := s'.tenants);
    assert Derived(gone, f) == Derived(s', f) by {
      SameTenants(gone, s', f);
      SameResidents(gone, s', f);
    }
    CacheStaysRight(s, s', f);
  }

  lemma TakePossessionSound(s: Db, f: nat, on: Date, today: Date)
    requires References(s) && CacheRight(s) && Exclusive(s) && f < |s.flats|
    ensures CacheRight(TakePossession(s, f, on, today)) && Exclusive(TakePossession(s, f, on, today))
  {
    var s' := TakePossession(s, f, on, today);
    forall g | 0 <= g < |s.flats| && g != f
      ensures SameOccupants(s, s', g)
    {
      SameTenants(s, s', g);
      SameResidents(s, s', g);
    }
    SameTenants(s, s', f);
    if PossessionMovesIn(s, f, on, today) {
      var moved := s.(residents := s'.residents);
      assert Derived(moved, f) == Derived(s', f) by {
        SameTenants(moved, s', f);
        SameResidents(moved, s', f);
      }
      CacheStaysRight(s, s', f);
    } else {
      SameResidents(s, s', f);
      forall g: nat | g < |s.flats| && Derived(s', g) != Vacant
        ensures StatusRight(s', g)
      {
        assert SameOccupants(s, s', g);
        StatusUntouched(s, s', g);
        assert StatusRight(s, g);
      }
    }
  }

  lemma OccupantsOnRecord(s: Db, g: nat)
    requires References(s) && Derived(s, g) != Vacant
    ensures g < |s.flats|
  {
  }

  /** A new row that nobody lives in changes no flat's occupants. */
  lemma NewRowSound(s: Db, s': Db)
    requires References(s) && CacheRight(s) && Exclusive(s)
    requires s.flats <= s'.flats && s.residents <= s'.residents && s.tenants <= s'.tenants
    requires forall r :: |s.residents| <= r < |s'.residents| ==> s'.residents[r].moveIn.None?
    requires forall t :: |s.tenants| <= t < |s'.tenants| ==> s'.tenants[t].stay.moveIn.None?
    ensures CacheRight(s') && Exclusive(s')
  {
    forall g | 0 <= g < |s'.flats| && Derived(s', g) != Vacant
      ensures StatusRight(s', g)
    {
      SameTenants(s, s', g);
      SameResidents(s, s', g);
      OccupantsOnRecord(s, g);
      StatusUntouched(s, s', g);
      assert StatusRight(s, g);
    }
  }

  /** Right after a move-in or a move-out the stored status is right, whatever it was before. */
  lemma ResidentStepSetsStatus(s: Db, f: nat, r: nat, on: Date)
    requires f < |s.flats| && r < |s.residents|
    ensures StatusRight(ResidentArrives(s, f, r, on), f) && StatusRight(ResidentLeaves(s, f, r, on), f)
  {
  }

  lemma TenantStepSetsStatus(s: Db, f: nat, t: nat, on: Date, create: bool, ended: Option<nat>)
    requires f < |s.flats| && t < |s.tenants|
    requires ended.Some? ==> ended.value < |s.agreements|
    ensures StatusRight(TenantArrives(s, f, t, on, create), f) && StatusRight(TenantLeaves(s, f, t, on, ended), f)
  {
  }
}
