/** How far each occupancy step reaches, and what a renewal makes of the terms. */
module OccupancyFrames {
  import opened Wrappers
  import opened Ledger
  import opened OccupancyHistory
  import opened OccupancyInvariants
  import opened AgreementLedger

  /** Apart from the status of flat `f`, only `who`'s own record, agreements and vehicles may differ. */
  ghost predicate TouchesOnly(s: Db, s': Db, f: nat, who: Who) {
    && |s'.flats| == |s.flats| && |s'.residents| == |s.residents| && |s'.tenants| == |s.tenants|
    && |s'.vehicles| == |s.vehicles| && |s'.agreements| >= |s.agreements| && s.log <= s'.log
    && (forall g :: 0 <= g < |s.flats| && g != f ==> s'.flats[g] == s.flats[g])
    && (forall g :: 0 <= g < |s.flats| ==> s'.flats[g].(status := None) == s.flats[g].(status := None))
    && (forall r: nat :: r < |s.residents| && TheResident(r) != who ==> s'.residents[r] == s.residents[r])
    && (forall t: nat :: t < |s.tenants| && TheTenant(t) != who ==> s'.tenants[t] == s.tenants[t])
    && (forall a :: 0 <= a < |s.agreements| && TheTenant(s.agreements[a].tenant) != who ==>
          s'.agreements[a] == s.agreements[a])
    && (forall a :: |s.agreements| <= a < |s'.agreements| ==> TheTenant(s'.agreements[a].tenant) == who)
    && (forall v :: 0 <= v < |s.vehicles| && s.vehicles[v].keeper != Some(who) ==> s'.vehicles[v] == s.vehicles[v])
  }

  lemma ResidentInTouches(s: Db, f: nat, r: nat, on: Date, society: Option<nat>)
    ensures TouchesOnly(s, Kept(s, ResidentMoveIn(s, f, r, on, society)), f, TheResident(r))
  {
  }

  lemma ResidentOutTouches(s: Db, f: nat, r: nat, on: Date, society: Option<nat>)
    ensures TouchesOnly(s, Kept(s, ResidentMoveOut(s, f, r, on, society)), f, TheResident(r))
  {
  }

  lemma TenantInTouches(s: Db, f: nat, t: nat, on: Date, create: bool, society: Option<nat>)
    ensures TouchesOnly(s, Kept(s, TenantMoveIn(s, f, t, on, create, society)), f, TheTenant(t))
  {
  }

  lemma TenantOutTouches(s: Db, f: nat, t: nat, on: Date, society: Option<nat>, ended: Option<nat>)
    requires Picked(s, t, ended)
    ensures TouchesOnly(s, Kept(s, TenantMoveOut(s, f, t, on, society, ended)), f, TheTenant(t))
  {
  }

  /** Someone's move touches nobody else and no other flat. */
  lemma MoveTouchesOnlyTheMover(s: Db, e: Event)
    requires Possible(s, e)
    ensures e.ResidentIn? || e.ResidentOut? ==> TouchesOnly(s, Do(s, e), e.f, TheResident(e.r))
    ensures e.TenantIn? || e.TenantOut? ==> TouchesOnly(s, Do(s, e), e.f, TheTenant(e.t))
  {
    match e
    case ResidentIn(f, r, on, society) => ResidentInTouches(s, f, r, on, society);
    case ResidentOut(f, r, on, society) => ResidentOutTouches(s, f, r, on, society);
    case TenantIn(f, t, on, create, society) => TenantInTouches(s, f, t, on, create, society);
    case TenantOut(f, t, on, society, ended) => TenantOutTouches(s, f, t, on, society, ended);
    case NewFlat(_) =>
    case NewResident(_, _, _) =>
    case NewTenant(_, _, _, _) =>
    case Renewing(_, _, _, _) =>
    case ChannelEdit(_, _, _, _, _) =>
    case Possession(_, _, _) =>
  }

  /** Who moves out is off the books from that day, keeps no vehicle and holds no slot. */
  lemma MoveOutClosesTheRecord(s: Db, f: nat, id: nat, on: Date, society: Option<nat>, ended: Option<nat>, v: nat)
    requires Picked(s, id, ended) && v < |s.vehicles|
    ensures var out := ResidentMoveOut(s, f, id, on, society);
            out.Success? ==>
              && !out.value.residents[id].active && out.value.residents[id].moveOut == Some(on)
              && out.value.residents[id].moveIn == s.residents[id].moveIn
              && out.value.vehicles[v].keeper != Some(TheResident(id))
              && (s.vehicles[v].keeper == Some(TheResident(id)) ==> out.value.vehicles[v] == Vehicle(None, None))
    ensures var out := TenantMoveOut(s, f, id, on, society, ended);
            out.Success? ==>
              && !out.value.tenants[id].stay.active && out.value.tenants[id].stay.moveOut == Some(on)
              && out.value.tenants[id].stay.moveIn == s.tenants[id].stay.moveIn
              && out.value.tenants[id].terms == s.tenants[id].terms
              && out.value.vehicles[v].keeper != Some(TheTenant(id))
              && (s.vehicles[v].keeper == Some(TheTenant(id)) ==> out.value.vehicles[v] == Vehicle(None, None))
  {
  }

  // ---------------------------------------------------------------- whole runs

  /** The step is about the person: their own move or terms, or a possession that moves them in. */
  predicate Concerns(s: Db, e: Event, who: Who) {
    match e
    case ResidentIn(_, r, _, _) => who == TheResident(r)
    case ResidentOut(_, r, _, _) => who == TheResident(r)
    case TenantIn(_, t, _, _, _) => who == TheTenant(t)
    case TenantOut(_, t, _, _, _) => who == TheTenant(t)
    case Renewing(t, _, _, _) => who == TheTenant(t)
    case ChannelEdit(t, _, _, _, _) => who == TheTenant(t)
    case Possession(f, on, today) =>
      && who.TheResident? && who.id < |s.residents| && Waiting(s.residents[who.id], f)
      && PossessionMovesIn(s, f, on, today)
    case NewFlat(_) => false
    case NewResident(_, _, _) => false
    case NewTenant(_, _, _, _) => false
  }

  predicate OnRecord(s: Db, who: Who) {
    match who
    case TheResident(r) => r < |s.residents|
    case TheTenant(t) => t < |s.tenants|
  }

  predicate SameRecord(s: Db, s': Db, who: Who)
    requires OnRecord(s, who)
  {
    && OnRecord(s', who)
    && match who
       case TheResident(r) => s'.residents[r] == s.residents[r]
       case TheTenant(t) => s'.tenants[t] == s.tenants[t]
  }

  function StayOf(s: Db, who: Who): (p: Stay)
    requires OnRecord(s, who)
  {
    match who
    case TheResident(r) => s.residents[r]
    case TheTenant(t) => s.tenants[t].stay
  }

  /** Nothing about the person differs, unless the step is theirs; and nobody who left comes back. */
  ghost predicate LeavesAlone(s: Db, s': Db, who: Who, own: bool)
    requires OnRecord(s, who)
  {
    && OnRecord(s', who)
    && (!own ==> SameRecord(s, s', who))
    && (!StayOf(s, who).active ==> !StayOf(s', who).active)
    && (StayOf(s, who).moveOut.Some? ==> StayOf(s', who).moveOut.Some?)
  }

  lemma NewPersonLeavesAlone(s: Db, f: nat, terms: Terms, moveIn: Option<Date>, society: Option<nat>, who: Who)
    requires OnRecord(s, who)
    ensures LeavesAlone(s, AddResident(s, f, moveIn, society).0, who, false)
    ensures LeavesAlone(s, AddTenant(s, f, terms, moveIn, society).0, who, false)
  {
  }

  lemma ResidentMoveLeavesAlone(s: Db, f: nat, r: nat, on: Date, society: Option<nat>, who: Who)
    requires OnRecord(s, who)
    ensures LeavesAlone(s, Kept(s, ResidentMoveIn(s, f, r, on, society)), who, who == TheResident(r))
    ensures LeavesAlone(s, Kept(s, ResidentMoveOut(s, f, r, on, society)), who, who == TheResident(r))
  {
  }

  lemma TenantInLeavesAlone(s: Db, f: nat, t: nat, on: Date, create: bool, society: Option<nat>, who: Who)
    requires OnRecord(s, who)
    ensures LeavesAlone(s, Kept(s, TenantMoveIn(s, f, t, on, create, society)), who, who == TheTenant(t))
  {
  }

  lemma TenantOutLeavesAlone(s: Db, f: nat, t: nat, on: Date, society: Option<nat>, ended: Option<nat>, who: Who)
    requires OnRecord(s, who) && (ended.Some? ==> ended.value < |s.agreements|)
    ensures LeavesAlone(s, Kept(s, TenantMoveOut(s, f, t, on, society, ended)), who, who == TheTenant(t))
  {
  }

  lemma TermsLeaveAlone(s: Db, t: nat, n: Renewal, channel: Edit, name: Edit, society: Option<nat>, pick: Option<nat>,
                        who: Who)
    requires OnRecord(s, who) && (pick.Some? ==> pick.value < |s.agreements|)
    ensures LeavesAlone(s, Kept(s, RenewAgreement(s, t, n, society, pick)), who, who == TheTenant(t))
    ensures LeavesAlone(s, Kept(s, EditChannel(s, t, channel, name, society, pick)), who, who == TheTenant(t))
  {
  }

  lemma StepLeavesAlone(s: Db, e: Event, who: Who)
    requires Possible(s, e) && OnRecord(s, who)
    ensures LeavesAlone(s, Do(s, e), who, Concerns(s, e, who))
  {
    match e
    case NewFlat(flat) =>
    case NewResident(f, moveIn, society) => NewPersonLeavesAlone(s, f, NO_TERMS, moveIn, society, who);
    case NewTenant(f, terms, moveIn, society) => NewPersonLeavesAlone(s, f, terms, moveIn, society, who);
    case ResidentIn(f, r, on, society) => ResidentMoveLeavesAlone(s, f, r, on, society, who);
    case ResidentOut(f, r, on, society) => ResidentMoveLeavesAlone(s, f, r, on, society, who);
    case TenantIn(f, t, on, create, society) => TenantInLeavesAlone(s, f, t, on, create, society, who);
    case TenantOut(f, t, on, society, ended) => TenantOutLeavesAlone(s, f, t, on, society, ended, who);
    case Renewing(t, n, society, current) => TermsLeaveAlone(s, t, n, None, None, society, current, who);
    case ChannelEdit(t, channel, name, society, current) =>
      TermsLeaveAlone(s, t, Renewal(0, 0, None, None, None, None, None), channel, name, society, current, who);
    case Possession(f, on, today) =>
  }

  /** Each step of the run leaves the person alone, or is theirs. */
  ghost predicate EachLeavesAlone(h: seq<Db>, events: seq<Event>, who: Who)
    requires |h| == |events| + 1
  {
    forall k :: 0 <= k < |events| && OnRecord(h[k], who) ==>
      LeavesAlone(h[k], h[k + 1], who, Concerns(h[k], events[k], who))
  }

  lemma RunLeavesAlone(h: seq<Db>, events: seq<Event>, who: Who)
    requires History(h, events)
    ensures EachLeavesAlone(h, events, who)
  {
    forall k | 0 <= k < |events| && OnRecord(h[k], who)
      ensures LeavesAlone(h[k], h[k + 1], who, Concerns(h[k], events[k], who))
    {
      StepLeavesAlone(h[k], events[k], who);
    }
  }

  ghost predicate OwnBetween(h: seq<Db>, events: seq<Event>, who: Who, i: nat, j: nat)
    requires |h| == |events| + 1 && j <= |events|
  {
    exists k :: i <= k < j && Concerns(h[k], events[k], who)
  }

  lemma {:induction false} AloneChain(h: seq<Db>, events: seq<Event>, i: nat, j: nat, who: Who)
    requires |h| == |events| + 1 && i <= j < |h| && EachLeavesAlone(h, events, who) && OnRecord(h[i], who)
    ensures LeavesAlone(h[i], h[j], who, OwnBetween(h, events, who, i, j))
  {
    if i < j {
      AloneChain(h, events, i, j - 1, who);
      assert LeavesAlone(h[j - 1], h[j], who, Concerns(h[j - 1], events[j - 1], who));
    }
  }

  /**
  Over any stretch of a run, a person's record changes only by steps that are about that
  person; and who has moved out stays moved out, even when moved in again.
  */
  lemma RecordChangesOnlyByOwnSteps(h: seq<Db>, events: seq<Event>, i: nat, j: nat, who: Who)
    requires History(h, events) && i <= j < |h| && OnRecord(h[i], who)
    ensures OnRecord(h[j], who)
    ensures !OwnBetween(h, events, who, i, j) ==> SameRecord(h[i], h[j], who)
    ensures !StayOf(h[i], who).active ==> !StayOf(h[j], who).active
    ensures StayOf(h[i], who).moveOut.Some? ==> StayOf(h[j], who).moveOut.Some?
  {
    RunLeavesAlone(h, events, who);
    AloneChain(h, events, i, j, who);
  }

  // ---------------------------------------------------------------- renewal

  function OrElse<T>(given: Option<T>, before: Option<T>): (after: Option<T>) {
    if given.Some? then given else before
  }

  /**
  On sound books the terms of a renewal are the tenant's cached terms with what was given
  put over them, in the ledger and on the tenant alike; only the agreement renewed changes
  its status, and it joins the history as the one the new agreement renews.
  */
  lemma RenewalMergesTerms(s: Db, t: nat, n: Renewal, society: Option<nat>, current: Option<nat>)
    requires Sound(s) && PickedLatest(s, t, current)
    requires RenewAgreement(s, t, n, society, current).Success?
    ensures var s' := RenewAgreement(s, t, n, society, current).value;
            var next := |s.agreements|;
            var cached := s.tenants[t].terms;
            && |s'.agreements| == next + 1 && ActiveOf(s', next, t) && s'.agreements[next].renewalOf == current
            && s'.agreements[current.value].status == Renewed
            && (forall a :: 0 <= a < next && a != current.value ==> s'.agreements[a] == s.agreements[a])
            && CarriesTerms(s'.agreements[next], s'.tenants[t].terms)
            && s'.agreements[next].start == n.start && s'.agreements[next].end == n.end
            && s'.agreements[next].rent == OrElse(n.rent, cached.rent)
            && s'.agreements[next].deposit == OrElse(n.deposit, cached.deposit)
            && s'.agreements[next].document == (if n.document.Some? && n.document.value != "" then n.document
                                                else s.agreements[current.value].document)
            && s'.agreements[next].channel == OrElse(n.channel, cached.channel)
            && s'.agreements[next].channelName == (if n.channel.Some? then n.channelName else cached.channelName)
            && s'.flats == s.flats && s'.residents == s.residents && s'.log == s.log && s'.vehicles == s.vehicles
            && s'.tenants[t].stay == s.tenants[t].stay
  {
  }
}
