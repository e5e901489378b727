/** No caller acts on another society's flats, and no step of one society touches another. */
module SocietyScope {
  import opened Wrappers
  import opened Ledger
  import opened OccupancyHistory
  import opened OccupancyInvariants
  import opened OccupancyRuns

  /** The caller's society; a platform admin has none, and some steps are not made by a caller. */
  function CallerOf(e: Event): (society: Option<nat>) {
    match e
    case NewFlat(_) => None
    case NewResident(_, _, society) => society
    case NewTenant(_, _, _, society) => society
    case ResidentIn(_, _, _, society) => society
    case ResidentOut(_, _, _, society) => society
    case TenantIn(_, _, _, _, society) => society
    case TenantOut(_, _, _, society, _) => society
    case Renewing(_, _, society, _) => society
    case ChannelEdit(_, _, _, society, _) => society
    case Possession(_, _, _) => None
  }

  function Refused(out: Result<Db, Refusal>): (why: Option<Refusal>) {
    match out
    case Success(_) => None
    case Failure(why) => Some(why)
  }

  /** What the caller is told. */
  function AnswerOf(s: Db, e: Event): (why: Option<Refusal>)
    requires e.TenantOut? && e.ended.Some? ==> e.ended.value < |s.agreements|
    requires (e.Renewing? || e.ChannelEdit?) && e.current.Some? ==> e.current.value < |s.agreements|
  {
    match e
    case NewFlat(_) => None
    case NewResident(f, moveIn, society) => AddResident(s, f, moveIn, society).1
    case NewTenant(f, terms, moveIn, society) => AddTenant(s, f, terms, moveIn, society).1
    case ResidentIn(f, r, on, society) => Refused(ResidentMoveIn(s, f, r, on, society))
    case ResidentOut(f, r, on, society) => Refused(ResidentMoveOut(s, f, r, on, society))
    case TenantIn(f, t, on, create, society) => Refused(TenantMoveIn(s, f, t, on, create, society))
    case TenantOut(f, t, on, society, ended) => Refused(TenantMoveOut(s, f, t, on, society, ended))
    case Renewing(t, n, society, current) => Refused(RenewAgreement(s, t, n, society, current))
    case ChannelEdit(t, channel, name, society, current) => Refused(EditChannel(s, t, channel, name, society, current))
    case Possession(_, _, _) => None
  }

  /** The flat a request is about, where it names one on record: its own, or that of the tenant it names. */
  function PlaceOf(s: Db, e: Event): (f: Option<nat>) {
    match e
    case NewFlat(_) => None
    case NewResident(f, _, _) => Some(f)
    case NewTenant(f, _, _, _) => Some(f)
    case ResidentIn(f, _, _, _) => Some(f)
    case ResidentOut(f, _, _, _) => Some(f)
    case TenantIn(f, _, _, _, _) => Some(f)
    case TenantOut(f, _, _, _, _) => Some(f)
    case Renewing(t, _, _, _) => if t < |s.tenants| then Some(s.tenants[t].stay.flat) else None
    case ChannelEdit(t, _, _, _, _) => if t < |s.tenants| then Some(s.tenants[t].stay.flat) else None
    case Possession(f, _, _) => Some(f)
  }

  /** The flat is missing, or belongs to another society than the caller's. */
  predicate Elsewhere(s: Db, e: Event) {
    && PlaceOf(s, e).Some?
    && (PlaceOf(s, e).value >= |s.flats|
        || (CallerOf(e).Some? && s.flats[PlaceOf(s, e).value].society != CallerOf(e).value))
  }

  /** Or it was deleted; only the edit of a tenant's form does not ask. */
  predicate Deleted(s: Db, e: Event) {
    && PlaceOf(s, e).Some? && !e.ChannelEdit?
    && PlaceOf(s, e).value < |s.flats| && !s.flats[PlaceOf(s, e).value].active
  }

  /**
  Whoever asks for something on another society's flat, or a deleted one, is told there is
  no such flat (no such tenant, where the form is the tenant's), and nothing changes.
  */
  lemma NotFoundElsewhere(s: Db, e: Event)
    requires Possible(s, e) && !e.Possession? && !e.NewFlat?
    requires Deleted(s, e) || (Elsewhere(s, e) && (CallerOf(e).Some? || !e.ChannelEdit?))
    ensures Do(s, e) == s
    ensures AnswerOf(s, e) == Some(FlatNotFound)
            || (e.ChannelEdit? && AnswerOf(s, e) == Some(TenantNotFound))
            || (e.NewTenant? && !AgreementDatesValid(e.terms) && AnswerOf(s, e) == Some(AgreementDatesInvalid))
  {
  }

  // ---------------------------------------------------------------- what a step leaves alone

  predicate In(s: Db, f: nat, y: nat) {
    f < |s.flats| && s.flats[f].society == y
  }

  function FlatOf(e: Entry): (f: nat) {
    match e
    case MovedIn(f, _, _) => f
    case MovedOut(f, _, _) => f
    case FlatVacant(f, _) => f
  }

  /** Whose vehicle it is lives, or lived, in the society. */
  predicate KeptIn(s: Db, v: Vehicle, y: nat) {
    match v.keeper
    case None => false
    case Some(TheResident(r)) => r < |s.residents| && In(s, s.residents[r].flat, y)
    case Some(TheTenant(t)) => t < |s.tenants| && In(s, s.tenants[t].stay.flat, y)
  }

  /** Every flat, person, agreement and vehicle of the society is as it was, and none, nor any log entry, is added. */
  ghost predicate LeavesSociety(s: Db, s': Db, y: nat) {
    FlatsLeft(s, s', y) && PeopleLeft(s, s', y) && LedgerLeft(s, s', y) && VehiclesLeft(s, s', y)
  }

  ghost predicate FlatsLeft(s: Db, s': Db, y: nat) {
    && |s.flats| <= |s'.flats|
    && (forall f :: 0 <= f < |s.flats| ==> s'.flats[f].society == s.flats[f].society)
    && (forall f :: 0 <= f < |s.flats| && In(s, f, y) ==> s'.flats[f] == s.flats[f])
    && (forall f :: |s.flats| <= f < |s'.flats| ==> !In(s', f, y))
  }

  ghost predicate PeopleLeft(s: Db, s': Db, y: nat) {
    && |s.residents| <= |s'.residents| && |s.tenants| <= |s'.tenants|
    && (forall r :: 0 <= r < |s.residents| && In(s, s.residents[r].flat, y) ==> s'.residents[r] == s.residents[r])
    && (forall r :: 0 <= r < |s.residents| ==> s'.residents[r].flat == s.residents[r].flat)
    && (forall r :: |s.residents| <= r < |s'.residents| ==> !In(s', s'.residents[r].flat, y))
    && (forall t :: 0 <= t < |s.tenants| && In(s, s.tenants[t].stay.flat, y) ==> s'.tenants[t] == s.tenants[t])
    && (forall t :: 0 <= t < |s.tenants| ==> s'.tenants[t].stay.flat == s.tenants[t].stay.flat)
    && (forall t :: |s.tenants| <= t < |s'.tenants| ==> !In(s', s'.tenants[t].stay.flat, y))
  }

  ghost predicate LedgerLeft(s: Db, s': Db, y: nat) {
    && |s.agreements| <= |s'.agreements| && s.log <= s'.log
    && (forall a :: 0 <= a < |s.agreements| && In(s, s.agreements[a].flat, y) ==> s'.agreements[a] == s.agreements[a])
    && (forall a :: 0 <= a < |s.agreements| ==> s'.agreements[a].flat == s.agreements[a].flat)
    && (forall a :: |s.agreements| <= a < |s'.agreements| ==> !In(s', s'.agreements[a].flat, y))
    && (forall k :: |s.log| <= k < |s'.log| ==> !In(s', FlatOf(s'.log[k]), y))
  }

  ghost predicate VehiclesLeft(s: Db, s': Db, y: nat) {
    && |s.vehicles| == |s'.vehicles|
    && (forall v :: 0 <= v < |s.vehicles| && KeptIn(s, s.vehicles[v], y) ==> s'.vehicles[v] == s.vehicles[v])
  }

  /** The step is made by a caller of another society, or is about another society's flat. */
  predicate OfAnother(s: Db, e: Event, y: nat) {
    match e
    case NewFlat(flat) => flat.society != y
    case Possession(f, _, _) => !In(s, f, y)
    case _ => CallerOf(e).Some? && CallerOf(e).value != y
  }

  lemma ResidentInLeaves(s: Db, f: nat, r: nat, on: Date, society: nat, y: nat)
    requires References(s) && society != y
    ensures LeavesSociety(s, Kept(s, ResidentMoveIn(s, f, r, on, Some(society))), y)
  {
  }

  lemma ResidentOutLeaves(s: Db, f: nat, r: nat, on: Date, society: nat, y: nat)
    requires References(s) && society != y
    ensures LeavesSociety(s, Kept(s, ResidentMoveOut(s, f, r, on, Some(society))), y)
  {
  }

  lemma TenantInLeaves(s: Db, f: nat, t: nat, on: Date, create: bool, society: nat, y: nat)
    requires References(s) && society != y
    ensures LeavesSociety(s, Kept(s, TenantMoveIn(s, f, t, on, create, Some(society))), y)
  {
  }

  lemma TenantOutLeavesFlats(s: Db, f: nat, t: nat, on: Date, society: nat, ended: Option<nat>, y: nat)
    requires References(s) && society != y && Picked(s, t, ended)
    ensures FlatsLeft(s, Kept(s, TenantMoveOut(s, f, t, on, Some(society), ended)), y)
  {
  }

  lemma TenantOutLeavesPeople(s: Db, f: nat, t: nat, on: Date, society: nat, ended: Option<nat>, y: nat)
    requires References(s) && society != y && Picked(s, t, ended)
    ensures PeopleLeft(s, Kept(s, TenantMoveOut(s, f, t, on, Some(society), ended)), y)
  {
  }

  lemma TenantOutLeavesVehicles(s: Db, f: nat, t: nat, on: Date, society: nat, ended: Option<nat>, y: nat)
    requires References(s) && society != y && Picked(s, t, ended)
    ensures VehiclesLeft(s, Kept(s, TenantMoveOut(s, f, t, on, Some(society), ended)), y)
  {
  }

  lemma TenantOutLeavesLedger(s: Db, f: nat, t: nat, on: Date, society: nat, ended: Option<nat>, y: nat)
    requires References(s) && society != y && Picked(s, t, ended)
    ensures LedgerLeft(s, Kept(s, TenantMoveOut(s, f, t, on, Some(society), ended)), y)
  {
  }

  lemma LeavesTransitive(a: Db, b: Db, c: Db, y: nat)
    requires References(a) && References(b) && LeavesSociety(a, b, y) && LeavesSociety(b, c, y)
    ensures LeavesSociety(a, c, y)
  {
    forall f: nat
      ensures f < |a.flats| ==> (In(a, f, y) <==> In(b, f, y)) && (In(b, f, y) <==> In(c, f, y))
      ensures f < |b.flats| ==> (In(b, f, y) <==> In(c, f, y))
    {
    }
  }

  lemma NewResidentLeaves(s: Db, f: nat, moveIn: Option<Date>, society: nat, y: nat)
    requires References(s) && society != y
    ensures LeavesSociety(s, AddResident(s, f, moveIn, Some(society)).0, y)
  {
  }

  lemma NewTenantLeaves(s: Db, f: nat, terms: Terms, moveIn: Option<Date>, society: nat, y: nat)
    requires References(s) && society != y
    ensures LeavesSociety(s, AddTenant(s, f, terms, moveIn, Some(society)).0, y)
  {
    if AgreementDatesValid(terms) && FlatFound(s, f, Some(society)) {
      var added := s.(tenants := s.tenants + [Tenant(Stay(f, true, None, None), terms)]);
      assert LeavesSociety(s, added, y) && References(added);
      if moveIn.Some? {
        var create := terms.start.Some? && terms.end.Some?;
        var s' := Kept(added, TenantMoveIn(added, f, |s.tenants|, moveIn.value, create, Some(society)));
        TenantInLeaves(added, f, |s.tenants|, moveIn.value, create, society, y);
        LeavesTransitive(s, added, s', y);
      }
    }
  }

  lemma RenewalLeaves(s: Db, t: nat, n: Renewal, society: nat, current: Option<nat>, y: nat)
    requires References(s) && society != y && Picked(s, t, current)
    ensures LeavesSociety(s, Kept(s, RenewAgreement(s, t, n, Some(society), current)), y)
  {
  }

  lemma ChannelLeaves(s: Db, t: nat, channel: Edit, name: Edit, society: nat, current: Option<nat>, y: nat)
    requires References(s) && society != y && Picked(s, t, current)
    ensures LeavesSociety(s, Kept(s, EditChannel(s, t, channel, name, Some(society), current)), y)
  {
  }

  lemma {:induction false} ArrivalsStay(residents: seq<Stay>, f: nat, on: Date, n: nat)
    requires n <= |residents|
    ensures forall k :: 0 <= k < |Arrivals(residents, f, on, n)| ==> FlatOf(Arrivals(residents, f, on, n)[k]) == f
  {
    if n > 0 {
      ArrivalsStay(residents, f, on, n - 1);
    }
  }

  lemma PossessionLeaves(s: Db, f: nat, on: Date, today: Date, y: nat)
    requires References(s) && f < |s.flats| && !In(s, f, y)
    ensures LeavesSociety(s, TakePossession(s, f, on, today), y)
  {
    ArrivalsStay(s.residents, f, on, |s.residents|);
  }

  lemma StepLeavesSociety(s: Db, e: Event, y: nat)
    requires Possible(s, e) && References(s) && OfAnother(s, e, y)
    ensures LeavesSociety(s, Do(s, e), y)
  {
    match e
    case NewFlat(flat) =>
    case NewResident(f, moveIn, society) => NewResidentLeaves(s, f, moveIn, society.value, y);
    case NewTenant(f, terms, moveIn, society) => NewTenantLeaves(s, f, terms, moveIn, society.value, y);
    case ResidentIn(f, r, on, society) => ResidentInLeaves(s, f, r, on, society.value, y);
    case ResidentOut(f, r, on, society) => ResidentOutLeaves(s, f, r, on, society.value, y);
    case TenantIn(f, t, on, create, society) => TenantInLeaves(s, f, t, on, create, society.value, y);
    case TenantOut(f, t, on, society, ended) =>
      TenantOutLeavesFlats(s, f, t, on, society.value, ended, y);
      TenantOutLeavesPeople(s, f, t, on, society.value, ended, y);
      TenantOutLeavesVehicles(s, f, t, on, society.value, ended, y);
      TenantOutLeavesLedger(s, f, t, on, society.value, ended, y);
    case Renewing(t, n, society, current) => RenewalLeaves(s, t, n, society.value, current, y);
    case ChannelEdit(t, channel, name, society, current) =>
      ChannelLeaves(s, t, channel, name, society.value, current, y);
    case Possession(f, on, today) => PossessionLeaves(s, f, on, today, y);
  }

  // ---------------------------------------------------------------- whole runs

  ghost predicate EachLeaves(h: seq<Db>, i: nat, j: nat, y: nat)
    requires i <= j < |h|
  {
    && (forall k :: i <= k < j ==> LeavesSociety(h[k], h[k + 1], y))
    && (forall k :: i <= k <= j ==> References(h[k]))
  }

  lemma {:induction false} LeavesChain(h: seq<Db>, i: nat, j: nat, y: nat)
    requires i <= j < |h| && EachLeaves(h, i, j, y)
    ensures LeavesSociety(h[i], h[j], y)
  {
    if i < j {
      LeavesChain(h, i, j - 1, y);
      LeavesTransitive(h[i], h[j - 1], h[j], y);
    }
  }

  /** Over any stretch of a run made up of other societies' steps, everything of a society stays as it is. */
  lemma SocietiesApart(h: seq<Db>, events: seq<Event>, i: nat, j: nat, y: nat)
    requires History(h, events) && Sound(h[0]) && i <= j < |h|
    requires forall k :: i <= k < j ==> OfAnother(h[k], events[k], y)
    ensures LeavesSociety(h[i], h[j], y)
  {
    forall k | i <= k <= j
      ensures References(h[k])
    {
      RunsStaySound(h, events, k);
    }
    forall k | i <= k < j
      ensures LeavesSociety(h[k], h[k + 1], y)
    {
      StepLeavesSociety(h[k], events[k], y);
    }
    LeavesChain(h, i, j, y);
  }
}
