/** Whether whoever holds an active agreement is still on the flat's books. */
module AgreementTenure {
  import opened Wrappers
  import opened Ledger
  import opened OccupancyHistory
  import opened OccupancyInvariants
  import opened AgreementLedger
  import opened OccupancyRuns

  /** The agreement's tenant is on the books of its flat. */
  predicate Held(s: Db, a: nat) {
    && a < |s.agreements| && s.agreements[a].tenant < |s.tenants|
    && OnBooks(s.tenants[s.agreements[a].tenant].stay, s.agreements[a].flat)
  }

  /** Every active agreement is. */
  ghost predicate AllHeld(s: Db) {
    forall a: nat :: a < |s.agreements| && s.agreements[a].status == Active ==> Held(s, a)
  }

  /** A move-in that goes through and makes an agreement names a tenant on the books. */
  predicate SignsOnBooks(s: Db, e: Event) {
    match e
    case TenantIn(f, t, on, create, society) =>
      (&& TenantMoveIn(s, f, t, on, create, society).Success?
       && create && s.tenants[t].terms.start.Some? && s.tenants[t].terms.end.Some?) ==>
        OnBooks(s.tenants[t].stay, f)
    case _ => true
  }

  // ---------------------------------------------------------------- one step

  lemma MoveInHeld(s: Db, f: nat, t: nat, on: Date, create: bool, society: Option<nat>)
    requires AgreementsSound(s) && AllHeld(s)
    ensures AllHeld(Kept(s, TenantMoveIn(s, f, t, on, create, society)))
            <==> SignsOnBooks(s, TenantIn(f, t, on, create, society))
  {
    if TenantMoveIn(s, f, t, on, create, society).Success? {
      var s' := TenantArrives(s, f, t, on, create);
      forall a: nat | a < |s.agreements|
        ensures s'.agreements[a] == s.agreements[a] && (Held(s', a) <==> Held(s, a))
      {
      }
      if |s'.agreements| > |s.agreements| {
        assert s'.agreements[|s.agreements|].status == Active;
        assert Held(s', |s.agreements|) <==> OnBooks(s.tenants[t].stay, f);
      }
    }
  }

  /** Ending the tenancy of whoever leaves leaves nobody's agreement behind. */
  lemma MoveOutHeld(s: Db, f: nat, t: nat, on: Date, society: Option<nat>, ended: Option<nat>)
    requires AgreementsSound(s) && AllHeld(s) && Picked(s, t, ended)
    ensures AllHeld(Kept(s, TenantMoveOut(s, f, t, on, society, ended)))
  {
    if TenantMoveOut(s, f, t, on, society, ended).Success? {
      var s' := TenantLeaves(s, f, t, on, ended);
      MoveOutEndsTenancy(s, f, t, on, society, ended);
      forall a: nat | a < |s'.agreements| && s'.agreements[a].status == Active
        ensures Held(s', a)
      {
        assert !ActiveOf(s', a, t);
        assert s'.agreements[a] == s.agreements[a] && Held(s, a);
      }
    }
  }

  lemma RenewalHeld(s: Db, t: nat, n: Renewal, society: Option<nat>, current: Option<nat>)
    requires AllHeld(s) && AgreementsSound(s) && PickedLatest(s, t, current)
    ensures AllHeld(Kept(s, RenewAgreement(s, t, n, society, current)))
  {
    if RenewAgreement(s, t, n, society, current).Success? {
      var s' := Renews(s, t, n, current.value);
      assert Held(s, current.value);
      forall a: nat | a < |s'.agreements| && s'.agreements[a].status == Active
        ensures Held(s', a)
      {
        assert a < |s.agreements| ==> s'.agreements[a] == s.agreements[a] && Held(s, a);
      }
    }
  }

  lemma ChannelHeld(s: Db, t: nat, channel: Edit, name: Edit, society: Option<nat>, current: Option<nat>)
    requires AllHeld(s) && Picked(s, t, current)
    ensures AllHeld(Kept(s, EditChannel(s, t, channel, name, society, current)))
  {
    var s' := Kept(s, EditChannel(s, t, channel, name, society, current));
    forall a: nat | a < |s'.agreements| && s'.agreements[a].status == Active
      ensures Held(s', a)
    {
      assert s.agreements[a].status == Active && Held(s, a);
    }
  }

  lemma NewTenantHeld(s: Db, f: nat, terms: Terms, moveIn: Option<Date>, society: Option<nat>)
    requires Sound(s) && AllHeld(s)
    ensures AllHeld(AddTenant(s, f, terms, moveIn, society).0)
  {
    var added := s.(tenants := s.tenants + [Tenant(Stay(f, true, None, None), terms)]);
    assert forall a: nat :: a < |s.agreements| ==> (Held(added, a) <==> Held(s, a));
    if AgreementDatesValid(terms) && FlatFound(s, f, society) && moveIn.Some? {
      NewRowSound(s, added);
      MoveInHeld(added, f, |s.tenants|, moveIn.value, terms.start.Some? && terms.end.Some?, society);
    }
  }

  /** Agreements and tenants are as they were. */
  lemma ElsewhereHeld(s: Db, s': Db)
    requires AllHeld(s) && s'.agreements == s.agreements && s'.tenants == s.tenants
    ensures AllHeld(s')
  {
    assert forall a: nat :: Held(s', a) <==> Held(s, a);
  }

  /** A step leaves every active agreement with a tenant on the books exactly when it signs none off the books. */
  lemma StepHeld(s: Db, e: Event)
    requires Sound(s) && AllHeld(s) && Possible(s, e)
    ensures AllHeld(Do(s, e)) <==> SignsOnBooks(s, e)
  {
    match e
    case NewFlat(flat) => ElsewhereHeld(s, s.(flats := s.flats + [flat]));
    case NewResident(f, moveIn, society) => ElsewhereHeld(s, AddResident(s, f, moveIn, society).0);
    case NewTenant(f, terms, moveIn, society) => NewTenantHeld(s, f, terms, moveIn, society);
    case ResidentIn(f, r, on, society) => ElsewhereHeld(s, Kept(s, ResidentMoveIn(s, f, r, on, society)));
    case ResidentOut(f, r, on, society) => ElsewhereHeld(s, Kept(s, ResidentMoveOut(s, f, r, on, society)));
    case TenantIn(f, t, on, create, society) => MoveInHeld(s, f, t, on, create, society);
    case TenantOut(f, t, on, society, ended) => MoveOutHeld(s, f, t, on, society, ended);
    case Renewing(t, n, society, current) => RenewalHeld(s, t, n, society, current);
    case ChannelEdit(t, channel, name, society, current) => ChannelHeld(s, t, channel, name, society, current);
    case Possession(f, on, today) => ElsewhereHeld(s, TakePossession(s, f, on, today));
  }

  // ---------------------------------------------------------------- whole runs

  lemma {:induction false} HeldUpTo(h: seq<Db>, events: seq<Event>, i: nat)
    requires History(h, events) && Sound(h[0]) && AllHeld(h[0]) && i < |h|
    requires forall j :: 0 <= j < |events| ==> SignsOnBooks(h[j], events[j])
    ensures AllHeld(h[i])
  {
    if i > 0 {
      HeldUpTo(h, events, i - 1);
      RunsStaySound(h, events, i - 1);
      StepHeld(h[i - 1], events[i - 1]);
    }
  }

  /**
  Along a run every active agreement belongs to a tenant on its flat's books if and only
  if every move-in that made an agreement named a tenant on the books.
  */
  lemma ActiveAgreementsHeld(h: seq<Db>, events: seq<Event>)
    requires History(h, events) && Sound(h[0]) && AllHeld(h[0])
    ensures (forall i :: 0 <= i < |h| ==> AllHeld(h[i]))
            <==> (forall i :: 0 <= i < |events| ==> SignsOnBooks(h[i], events[i]))
  {
    if forall i :: 0 <= i < |events| ==> SignsOnBooks(h[i], events[i]) {
      forall i | 0 <= i < |h|
        ensures AllHeld(h[i])
      {
        HeldUpTo(h, events, i);
      }
    }
    if forall i :: 0 <= i < |h| ==> AllHeld(h[i]) {
      forall i | 0 <= i < |events|
        ensures SignsOnBooks(h[i], events[i])
      {
        RunsStaySound(h, events, i);
        StepHeld(h[i], events[i]);
        assert AllHeld(h[i + 1]);
      }
    }
  }

  // ---------------------------------------------------------------- signed off the books

  function Lease(start: Date, end: Date): (terms: Terms) {
    Terms(Some(start), Some(end), None, None, None, None, None)
  }

  function OneFlat(status: Option<Occupancy>): (flats: seq<Flat>) {
    [Flat(true, 0, "A", None, "101", status, None)]
  }

  function Signed(): (g: Agreement) {
    FirstAgreement(0, 0, Lease(10, 20))
  }

  function LetOut(): (s: Db) {
    Db(OneFlat(Some(TenantOccupied)), [], [Tenant(Stay(0, true, Some(5), None), Lease(10, 20))], [Signed()],
       [MovedIn(0, TheTenant(0), 5)], [])
  }

  function MovedAway(): (s: Db) {
    Db(OneFlat(Some(Vacant)), [], [Tenant(Stay(0, false, Some(5), Some(8)), Lease(10, 20))],
       [Signed().(status := Terminated, endedBy := Some(8))],
       [MovedIn(0, TheTenant(0), 5), MovedOut(0, TheTenant(0), 8), FlatVacant(0, 8)], [])
  }

  function SignedAgain(): (s: Db) {
    Db(OneFlat(Some(Vacant)), [], [Tenant(Stay(0, false, Some(9), Some(8)), Lease(10, 20))],
       [Signed().(status := Terminated, endedBy := Some(8)), Signed()],
       [MovedIn(0, TheTenant(0), 5), MovedOut(0, TheTenant(0), 8), FlatVacant(0, 8), MovedIn(0, TheTenant(0), 9)], [])
  }

  lemma LetsOut(s: Db)
    requires s == Db(OneFlat(None), [], [], [], [], [])
    ensures AddTenant(s, 0, Lease(10, 20), Some(5), Some(0)) == (LetOut(), None)
  {
    var added := s.(tenants := [Tenant(Stay(0, true, None, None), Lease(10, 20))]);
    assert CheckTenantMoveIn(added, 0, Some(0), Some(10), Some(20)).None?;
    assert added == s.(tenants := s.tenants + [Tenant(Stay(0, true, None, None), Lease(10, 20))]);
    var s' := TenantArrives(added, 0, 0, 5, true);
    var moved := added.(tenants := LetOut().tenants);
    assert s'.tenants == LetOut().tenants && LivesIn(moved.tenants[0].stay, 0) && s'.flats == LetOut().flats;
    assert s'.agreements == LetOut().agreements && s'.log == LetOut().log;
  }

  lemma MovesAway()
    ensures TenantMoveOut(LetOut(), 0, 0, 8, Some(0), Some(0)) == Success(MovedAway())
  {
    var s' := TenantLeaves(LetOut(), 0, 0, 8, Some(0));
    assert s'.tenants == MovedAway().tenants && s'.flats == MovedAway().flats;
    assert s'.agreements == MovedAway().agreements && s'.log == MovedAway().log;
  }

  lemma SignsAgain()
    ensures TenantMoveIn(MovedAway(), 0, 0, 9, true, Some(0)) == Success(SignedAgain())
  {
    var s' := TenantArrives(MovedAway(), 0, 0, 9, true);
    assert s'.tenants == SignedAgain().tenants && s'.flats == SignedAgain().flats;
    assert s'.agreements == SignedAgain().agreements && s'.log == SignedAgain().log;
  }

  lemma NextTenantRefused()
    ensures AllHeld(MovedAway()) && !AllHeld(SignedAgain()) && Derived(SignedAgain(), 0) == Vacant
    ensures AddTenant(SignedAgain(), 0, Lease(15, 25), Some(12), Some(0)).1 == Some(AgreementOverlap)
  {
    assert !Held(SignedAgain(), 1);
    assert Overlaps(SignedAgain().agreements[1], 15, 25) && None != Some(1);
  }

  lemma RunToLetOut() returns (h: seq<Db>, events: seq<Event>)
    ensures History(h, events) && |h| == 3 && h[0] == Db([], [], [], [], [], []) && h[2] == LetOut()
  {
    var s1 := Db(OneFlat(None), [], [], [], [], []);
    LetsOut(s1);
    h, events := [Db([], [], [], [], [], [])], [];
    h, events := Longer(h, events, NewFlat(OneFlat(None)[0]), s1);
    h, events := Longer(h, events, NewTenant(0, Lease(10, 20), Some(5), Some(0)), LetOut());
  }

  /** A tenant who left is moved in again: the agreement this makes keeps the next tenant out of an empty flat. */
  lemma SignedOffTheBooks() returns (h: seq<Db>, events: seq<Event>)
    ensures History(h, events) && h[0] == Db([], [], [], [], [], []) && |h| == 5 && h[4] == SignedAgain()
    ensures events[2] == TenantOut(0, 0, 8, Some(0), Some(0)) && events[3] == TenantIn(0, 0, 9, true, Some(0))
    ensures AllHeld(h[3]) && !AllHeld(h[4]) && Derived(h[4], 0) == Vacant
    ensures AddTenant(h[4], 0, Lease(15, 25), Some(12), Some(0)).1 == Some(AgreementOverlap)
  {
    h, events := RunToLetOut();
    MovesAway();
    h, events := Longer(h, events, TenantOut(0, 0, 8, Some(0), Some(0)), MovedAway());
    SignsAgain();
    h, events := Longer(h, events, TenantIn(0, 0, 9, true, Some(0)), SignedAgain());
    NextTenantRefused();
  }
}
