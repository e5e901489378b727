/** When each occupancy request goes through, in terms of the rows themselves, and the rows it leaves. */
module OccupancyAnswers {
  import opened Wrappers
  import opened Ledger
  import opened OccupancyHistory
  import opened OccupancyInvariants
  import opened OccupancyRuns

  /** The flat is on record, not deleted, and the caller's, who has no society or that of the flat. */
  predicate Reachable(s: Db, f: nat, society: Option<nat>) {
    && f < |s.flats| && s.flats[f].active
    && (society == None || society == Some(s.flats[f].society))
  }

  /** A tenant other than `but` is on record for the flat, active and not moved out. */
  predicate TenantKept(s: Db, f: nat, but: Option<nat>) {
    exists t: nat ::
      && t < |s.tenants| && but != Some(t)
      && s.tenants[t].stay.flat == f && s.tenants[t].stay.active && s.tenants[t].stay.moveOut == None
  }

  predicate ResidentKept(s: Db, f: nat) {
    exists r: nat :: r < |s.residents| && s.residents[r].flat == f && s.residents[r].active
  }

  /** Some day lies in both. */
  ghost predicate SharesDay(g: Agreement, start: Date, end: Date) {
    exists day: Date :: InBoth(g, start, end, day)
  }

  predicate InBoth(g: Agreement, start: Date, end: Date, day: Date) {
    g.start <= day <= g.end && start <= day <= end
  }

  /** An active agreement of the flat, of a tenant other than `but`, shares a day with the dates. */
  ghost predicate Clashes(s: Db, f: nat, start: Date, end: Date, but: Option<nat>) {
    exists a: nat ::
      && a < |s.agreements| && s.agreements[a].flat == f && s.agreements[a].status == Active
      && but != Some(s.agreements[a].tenant) && SharesDay(s.agreements[a], start, end)
  }

  lemma OverlapIsADay(g: Agreement, start: Date, end: Date)
    requires g.start < g.end && start < end
    ensures Overlaps(g, start, end) <==> SharesDay(g, start, end)
  {
    if Overlaps(g, start, end) {
      assert InBoth(g, start, end, if g.start <= start then start else g.start);
    }
  }

  lemma OverlapsAreClashes(s: Db, f: nat, start: Date, end: Date)
    requires References(s) && start < end
    ensures ActiveOverlap(s, f, start, end, None) <==> Clashes(s, f, start, end, None)
  {
    forall a: nat | a < |s.agreements|
      ensures Overlaps(s.agreements[a], start, end) <==> SharesDay(s.agreements[a], start, end)
    {
      OverlapIsADay(s.agreements[a], start, end);
    }
    if ActiveOverlap(s, f, start, end, None) {
      var a :| 0 <= a < |s.agreements| && s.agreements[a].flat == f && s.agreements[a].status == Active
               && Overlaps(s.agreements[a], start, end);
      assert SharesDay(s.agreements[a], start, end) && None != Some(s.agreements[a].tenant);
    }
    if Clashes(s, f, start, end, None) {
      var a: nat :| a < |s.agreements| && s.agreements[a].flat == f && s.agreements[a].status == Active
                    && SharesDay(s.agreements[a], start, end);
      assert Overlaps(s.agreements[a], start, end) && None != Some(a);
    }
  }

  lemma KeptIsOnBooks(s: Db, f: nat, but: Option<nat>)
    ensures TenantOnBooks(s, f, but) <==> TenantKept(s, f, but)
  {
    if TenantOnBooks(s, f, but) {
      var t :| 0 <= t < |s.tenants| && OnBooks(s.tenants[t].stay, f) && but != Some(t);
      assert s.tenants[t].stay.flat == f;
    }
    if TenantKept(s, f, but) {
      var t: nat :| t < |s.tenants| && but != Some(t) && s.tenants[t].stay.flat == f
                    && s.tenants[t].stay.active && s.tenants[t].stay.moveOut == None;
      assert OnBooks(s.tenants[t].stay, f);
    }
  }

  lemma ActiveIsKept(s: Db, f: nat)
    ensures ResidentActive(s, f) <==> ResidentKept(s, f)
  {
    if ResidentActive(s, f) {
      var r :| 0 <= r < |s.residents| && s.residents[r].flat == f && s.residents[r].active;
      assert s.residents[r].flat == f;
    }
  }

  // ---------------------------------------------------------------- the status

  /** On record for the flat, active, not moved out, and with a day of moving in. */
  predicate AtHome(p: Stay, f: nat) {
    p.flat == f && p.active && p.moveOut == None && p.moveIn != None
  }

  /** The derived status says tenant if some tenant is at home, else owner if some resident is, else vacant. */
  lemma StatusFollowsPeople(s: Db, f: nat)
    ensures Derived(s, f) == TenantOccupied <==> exists t :: 0 <= t < |s.tenants| && AtHome(s.tenants[t].stay, f)
    ensures Derived(s, f) == OwnerOccupied
            <==> && (forall t :: 0 <= t < |s.tenants| ==> !AtHome(s.tenants[t].stay, f))
                 && (exists r :: 0 <= r < |s.residents| && AtHome(s.residents[r], f))
  {
    assert forall t :: 0 <= t < |s.tenants| ==> (AtHome(s.tenants[t].stay, f) <==> LivesIn(s.tenants[t].stay, f));
    assert forall r :: 0 <= r < |s.residents| ==> (AtHome(s.residents[r], f) <==> LivesIn(s.residents[r], f));
  }

  // ---------------------------------------------------------------- possession

  /** On record for the flat, active, neither moved in nor out. */
  predicate NotYetIn(p: Stay, f: nat) {
    p.flat == f && p.active && p.moveOut == None && p.moveIn == None
  }

  /**
  An accepted possession date moves in, on that day, exactly the residents of the flat who are
  neither in nor out, unless the day is ahead or a tenant is on the books; nobody else.
  */
  lemma PossessionMoves(s: Db, f: nat, on: Date, today: Date)
    requires f < |s.flats|
    ensures var s' := TakePossession(s, f, on, today);
            && s'.flats[f].possession == Some(on) && s'.tenants == s.tenants && s'.agreements == s.agreements
            && |s'.residents| == |s.residents|
            && forall r :: 0 <= r < |s.residents| ==>
                 s'.residents[r] == if NotYetIn(s.residents[r], f) && on <= today && !TenantKept(s, f, None)
                                    then s.residents[r].(moveIn := Some(on)) else s.residents[r]
  {
    KeptIsOnBooks(s, f, None);
    forall r | 0 <= r < |s.residents|
      ensures NotYetIn(s.residents[r], f) <==> Waiting(s.residents[r], f)
      ensures NotYetIn(s.residents[r], f) ==> AnyWaiting(s, f)
    {
    }
  }

  // ---------------------------------------------------------------- residents

  /** A resident moves in unless the flat is marked let and a tenant is on its books. */
  lemma ResidentMovesIn(s: Db, f: nat, r: nat, on: Date, society: Option<nat>)
    ensures ResidentMoveIn(s, f, r, on, society).Success?
            <==> && Reachable(s, f, society) && r < |s.residents| && s.residents[r].flat == f
                 && !(s.flats[f].status == Some(TenantOccupied) && TenantKept(s, f, None))
    ensures ResidentMoveIn(s, f, r, on, society).Success? ==>
              var s' := ResidentMoveIn(s, f, r, on, society).value;
              && s'.residents == s.residents[r := s.residents[r].(moveIn := Some(on))]
              && s'.log == s.log + [MovedIn(f, TheResident(r), on)] && s'.vehicles == s.vehicles
  {
    KeptIsOnBooks(s, f, None);
  }

  /** A resident of the flat can always move out, though not before the day of moving in. */
  lemma ResidentMovesOut(s: Db, f: nat, r: nat, on: Date, society: Option<nat>)
    ensures ResidentMoveOut(s, f, r, on, society).Success?
            <==> && Reachable(s, f, society) && r < |s.residents| && s.residents[r].flat == f
                 && (s.residents[r].moveIn.Some? ==> s.residents[r].moveIn.value <= on)
    ensures ResidentMoveOut(s, f, r, on, society).Success? ==>
              var s' := ResidentMoveOut(s, f, r, on, society).value;
              && s'.residents == s.residents[r := s.residents[r].(active := false, moveOut := Some(on))]
              && MovedOut(f, TheResident(r), on) in s'.log
  {
    if ResidentMoveOut(s, f, r, on, society).Success? {
      var s' := ResidentMoveOut(s, f, r, on, society).value;
      assert s'.log[|s'.log| - 1] == MovedOut(f, TheResident(r), on);
    }
  }

  /** Putting a resident on record goes through wherever moving in would. */
  lemma ResidentIsAdded(s: Db, f: nat, moveIn: Option<Date>, society: Option<nat>)
    ensures AddResident(s, f, moveIn, society).1 == None
            <==> && Reachable(s, f, society)
                 && (moveIn.Some? ==> !(s.flats[f].status == Some(TenantOccupied) && TenantKept(s, f, None)))
    ensures AddResident(s, f, moveIn, society).1 == None ==>
              AddResident(s, f, moveIn, society).0.residents == s.residents + [Stay(f, true, moveIn, None)]
  {
    KeptIsOnBooks(s, f, None);
  }

  // ---------------------------------------------------------------- tenants

  /** No other tenant is on the books, no resident in a flat marked as the owner's, and no clash of dates. */
  ghost predicate TenantMay(s: Db, f: nat, but: Option<nat>, terms: Terms, signs: bool)
    requires f < |s.flats|
  {
    && !TenantKept(s, f, but)
    && !(s.flats[f].status == Some(OwnerOccupied) && ResidentKept(s, f))
    && !(signs && terms.start.Some? && terms.end.Some? && Clashes(s, f, terms.start.value, terms.end.value, None))
  }

  lemma TenantCheck(s: Db, f: nat, but: Option<nat>, terms: Terms, signs: bool)
    requires References(s) && f < |s.flats| && AgreementDatesValid(terms)
    ensures CheckTenantMoveIn(s, f, but, if signs then terms.start else None, if signs then terms.end else None).None?
            <==> TenantMay(s, f, but, terms, signs)
  {
    KeptIsOnBooks(s, f, but);
    ActiveIsKept(s, f);
    if signs && terms.start.Some? && terms.end.Some? {
      OverlapsAreClashes(s, f, terms.start.value, terms.end.value);
    }
  }

  /** The agreement a tenancy starts with: the tenant's terms, active, renewing nothing. */
  predicate FirstOfTenancy(g: Agreement, f: nat, t: nat, terms: Terms) {
    && g.flat == f && g.tenant == t && terms.start == Some(g.start) && terms.end == Some(g.end)
    && g.rent == terms.rent && g.deposit == terms.deposit && g.document == terms.document
    && g.channel == terms.channel && g.channelName == terms.channelName
    && g.status == Active && g.renewalOf == None
  }

  /** When a tenant moves in, and the one agreement this makes, if it is asked for and has both dates. */
  lemma TenantMovesIn(s: Db, f: nat, t: nat, on: Date, create: bool, society: Option<nat>)
    requires References(s)
    ensures TenantMoveIn(s, f, t, on, create, society).Success?
            <==> && Reachable(s, f, society) && t < |s.tenants| && s.tenants[t].stay.flat == f
                 && TenantMay(s, f, Some(t), s.tenants[t].terms, create)
    ensures TenantMoveIn(s, f, t, on, create, society).Success? ==>
              var s', terms := TenantMoveIn(s, f, t, on, create, society).value, s.tenants[t].terms;
              && s'.tenants == s.tenants[t := s.tenants[t].(stay := s.tenants[t].stay.(moveIn := Some(on)))]
              && s'.log == s.log + [MovedIn(f, TheTenant(t), on)] && s'.vehicles == s.vehicles
              && (if create && terms.start.Some? && terms.end.Some?
                  then |s'.agreements| == |s.agreements| + 1 && s.agreements <= s'.agreements
                       && FirstOfTenancy(s'.agreements[|s.agreements|], f, t, terms)
                  else s'.agreements == s.agreements)
  {
    if f < |s.flats| && t < |s.tenants| {
      TenantCheck(s, f, Some(t), s.tenants[t].terms, create);
    }
  }

  /** A tenant of the flat can always move out, though not before the day of moving in. */
  lemma TenantMovesOut(s: Db, f: nat, t: nat, on: Date, society: Option<nat>, ended: Option<nat>)
    requires Picked(s, t, ended)
    ensures TenantMoveOut(s, f, t, on, society, ended).Success?
            <==> && Reachable(s, f, society) && t < |s.tenants| && s.tenants[t].stay.flat == f
                 && (s.tenants[t].stay.moveIn.Some? ==> s.tenants[t].stay.moveIn.value <= on)
    ensures TenantMoveOut(s, f, t, on, society, ended).Success? ==>
              var s' := TenantMoveOut(s, f, t, on, society, ended).value;
              && s'.tenants == s.tenants[t := s.tenants[t].(stay :=
                   s.tenants[t].stay.(active := false, moveOut := Some(on)))]
              && MovedOut(f, TheTenant(t), on) in s'.log
              && (if ended.Some?
                  then s'.agreements == s.agreements[ended.value :=
                         s.agreements[ended.value].(status := Terminated, endedBy := Some(on))]
                  else s'.agreements == s.agreements)
  {
    if TenantMoveOut(s, f, t, on, society, ended).Success? {
      var s' := TenantMoveOut(s, f, t, on, society, ended).value;
      assert s'.log[|s.log|] == MovedOut(f, TheTenant(t), on);
    }
  }

  predicate DatesInOrder(terms: Terms) {
    match (terms.start, terms.end)
    case (None, None) => true
    case (Some(start), Some(end)) => start < end
    case (_, _) => false
  }

  lemma OnRecordFirst(s: Db, f: nat, terms: Terms, signs: bool)
    requires f < |s.flats|
    ensures var added := s.(tenants := s.tenants + [Tenant(Stay(f, true, None, None), terms)]);
            TenantMay(added, f, Some(|s.tenants|), terms, signs) <==> TenantMay(s, f, None, terms, signs)
  {
    var added := s.(tenants := s.tenants + [Tenant(Stay(f, true, None, None), terms)]);
    if TenantKept(added, f, Some(|s.tenants|)) {
      var t: nat :| t < |added.tenants| && Some(|s.tenants|) != Some(t) && added.tenants[t].stay.flat == f
                    && added.tenants[t].stay.active && added.tenants[t].stay.moveOut == None;
      assert s.tenants[t].stay.flat == f && None != Some(t);
    }
    if TenantKept(s, f, None) {
      var t: nat :| t < |s.tenants| && s.tenants[t].stay.flat == f
                    && s.tenants[t].stay.active && s.tenants[t].stay.moveOut == None;
      assert added.tenants[t].stay.flat == f && Some(|s.tenants|) != Some(t);
    }
    SameAgreementsClash(s, added, f, terms);
    assert ResidentKept(added, f) <==> ResidentKept(s, f);
  }

  lemma SameAgreementsClash(s: Db, s': Db, f: nat, terms: Terms)
    requires s'.agreements == s.agreements
    ensures terms.start.Some? && terms.end.Some? ==>
              (Clashes(s', f, terms.start.value, terms.end.value, None)
               <==> Clashes(s, f, terms.start.value, terms.end.value, None))
  {
  }

  /** Putting a tenant on record goes through wherever moving in would, with an agreement when there are dates. */
  lemma TenantIsAdded(s: Db, f: nat, terms: Terms, moveIn: Option<Date>, society: Option<nat>)
    requires References(s)
    ensures AddTenant(s, f, terms, moveIn, society).1 == None
            <==> && DatesInOrder(terms) && Reachable(s, f, society)
                 && (moveIn.Some? ==> TenantMay(s, f, None, terms, true))
    ensures AddTenant(s, f, terms, moveIn, society).1 == None ==>
              var s' := AddTenant(s, f, terms, moveIn, society).0;
              && s'.tenants == s.tenants + [Tenant(Stay(f, true, moveIn, None), terms)]
              && (if moveIn.Some? && terms.start.Some?
                  then |s'.agreements| == |s.agreements| + 1 && s.agreements <= s'.agreements
                       && FirstOfTenancy(s'.agreements[|s.agreements|], f, |s.tenants|, terms)
                  else s'.agreements == s.agreements)
  {
    if DatesInOrder(terms) && Reachable(s, f, society) {
      var added := s.(tenants := s.tenants + [Tenant(Stay(f, true, None, None), terms)]);
      TenantCheck(s, f, None, terms, true);
      OnRecordFirst(s, f, terms, true);
      if moveIn.Some? {
        TenantMovesIn(added, f, |s.tenants|, moveIn.value, terms.start.Some? && terms.end.Some?, society);
      }
    }
  }

  // ---------------------------------------------------------------- renewal

  /** The tenant's active agreement starts before the renewal starts and ends before it ends. */
  predicate RenewsForward(s: Db, t: nat, n: Renewal) {
    exists a: nat ::
      && a < |s.agreements| && s.agreements[a].tenant == t && s.agreements[a].status == Active
      && s.agreements[a].start < n.start && s.agreements[a].end < n.end
  }

  /**
  On sound books a renewal goes through if and only if the tenant's flat is there for the
  caller, the dates are in order and lie after those of the tenant's active agreement, and
  no other tenant's active agreement of the flat shares a day with them. In particular the
  agreement renewed never stands in the way.
  */
  lemma RenewalGoesThrough(s: Db, t: nat, n: Renewal, society: Option<nat>, current: Option<nat>)
    requires Sound(s) && PickedLatest(s, t, current)
    ensures RenewAgreement(s, t, n, society, current).Success?
            <==> && t < |s.tenants| && Reachable(s, s.tenants[t].stay.flat, society)
                 && n.start < n.end && RenewsForward(s, t, n)
                 && !Clashes(s, s.tenants[t].stay.flat, n.start, n.end, Some(t))
  {
    if t < |s.tenants| && n.start < n.end {
      OnlyForward(s, t, n, current);
      if current.Some? {
        OwnExcluded(s, t, n, current.value);
      }
    }
  }

  /** With one active agreement, the one the query returns is the one that counts. */
  lemma OnlyForward(s: Db, t: nat, n: Renewal, current: Option<nat>)
    requires AgreementsSound(s) && PickedLatest(s, t, current)
    ensures RenewsForward(s, t, n)
            <==> current.Some? && s.agreements[current.value].start < n.start && s.agreements[current.value].end < n.end
  {
    if RenewsForward(s, t, n) {
      var a: nat :| a < |s.agreements| && s.agreements[a].tenant == t && s.agreements[a].status == Active
                    && s.agreements[a].start < n.start && s.agreements[a].end < n.end;
      assert ActiveOf(s, a, t);
    }
  }

  lemma OwnExcluded(s: Db, t: nat, n: Renewal, a: nat)
    requires AgreementsSound(s) && ActiveOf(s, a, t) && t < |s.tenants| && n.start < n.end
    ensures ActiveOverlap(s, s.tenants[t].stay.flat, n.start, n.end, Some(a))
            <==> Clashes(s, s.tenants[t].stay.flat, n.start, n.end, Some(t))
  {
    var f := s.tenants[t].stay.flat;
    forall b: nat | b < |s.agreements| && s.agreements[b].status == Active
      ensures s.agreements[b].tenant == t <==> b == a
      ensures Overlaps(s.agreements[b], n.start, n.end) <==> SharesDay(s.agreements[b], n.start, n.end)
    {
      OverlapIsADay(s.agreements[b], n.start, n.end);
    }
    if ActiveOverlap(s, f, n.start, n.end, Some(a)) {
      var b: nat :| b < |s.agreements| && s.agreements[b].flat == f && s.agreements[b].status == Active
                    && Overlaps(s.agreements[b], n.start, n.end) && Some(a) != Some(b);
      assert SharesDay(s.agreements[b], n.start, n.end) && Some(t) != Some(s.agreements[b].tenant);
    }
    if Clashes(s, f, n.start, n.end, Some(t)) {
      var b: nat :| b < |s.agreements| && s.agreements[b].flat == f && s.agreements[b].status == Active
                    && Some(t) != Some(s.agreements[b].tenant) && SharesDay(s.agreements[b], n.start, n.end);
      assert Overlaps(s.agreements[b], n.start, n.end) && Some(a) != Some(b);
    }
  }

  // ---------------------------------------------------------------- the agreement channel

  /** When the form of a tenant goes through, and the channel and name it leaves on tenant and active agreement. */
  lemma ChannelIsEdited(s: Db, t: nat, channel: Edit, name: Edit, society: Option<nat>, current: Option<nat>)
    requires References(s) && Picked(s, t, current)
    ensures EditChannel(s, t, channel, name, society, current).Success?
            <==> && t < |s.tenants| && s.tenants[t].stay.active
                 && (society == None || society == Some(s.flats[s.tenants[t].stay.flat].society))
    ensures EditChannel(s, t, channel, name, society, current).Success? ==>
              var s' := EditChannel(s, t, channel, name, society, current).value;
              var was, is' := s.tenants[t].terms, s'.tenants[t].terms;
              && is' == was.(channel := is'.channel, channelName := is'.channelName)
              && (channel.None? ==> is'.channel == was.channel) && (channel.Some? ==> is'.channel == channel.value)
              && (channel.Some? && channel.value in {None, Some("direct")} ==> is'.channelName == None)
              && (!(channel.Some? && channel.value in {None, Some("direct")}) ==>
                    is'.channelName == if name.Some? then name.value else was.channelName)
              && (channel.None? && name.None? ==> s' == s)
              && (current.Some? && (channel.Some? || name.Some?) ==>
                    s'.agreements[current.value] == s.agreements[current.value].(channel := is'.channel,
                                                                                 channelName := is'.channelName))
  {
    if channel.None? && name.None? && t < |s.tenants| {
      assert s.tenants[t].(terms := EditedTerms(s.tenants[t].terms, channel, name)) == s.tenants[t];
      assert s.tenants[t := s.tenants[t]] == s.tenants;
    }
  }

  // ---------------------------------------------------------------- refusals

  /** The resident is on record for the flat. */
  predicate ResidentThere(s: Db, f: nat, r: nat) {
    r < |s.residents| && s.residents[r].flat == f
  }

  predicate TenantThere(s: Db, f: nat, t: nat) {
    t < |s.tenants| && s.tenants[t].stay.flat == f
  }

  /** What a resident's move is refused for: the flat first, then the resident, then the flat being let or the day. */
  lemma ResidentRefused(s: Db, f: nat, r: nat, on: Date, society: Option<nat>)
    ensures var out := ResidentMoveIn(s, f, r, on, society);
            var found := Reachable(s, f, society) && ResidentThere(s, f, r);
            && (out == Failure(FlatNotFound) <==> !Reachable(s, f, society))
            && (out == Failure(ResidentNotFound) <==> Reachable(s, f, society) && !ResidentThere(s, f, r))
            && (out == Failure(FlatTenantOccupied)
                <==> found && s.flats[f].status == Some(TenantOccupied) && TenantKept(s, f, None))
    ensures var out := ResidentMoveOut(s, f, r, on, society);
            var found := Reachable(s, f, society) && ResidentThere(s, f, r);
            && (out == Failure(FlatNotFound) <==> !Reachable(s, f, society))
            && (out == Failure(ResidentNotFound) <==> Reachable(s, f, society) && !ResidentThere(s, f, r))
            && (out == Failure(MoveOutBeforeMoveIn)
                <==> found && s.residents[r].moveIn.Some? && on < s.residents[r].moveIn.value)
  {
    KeptIsOnBooks(s, f, None);
  }

  /** And a tenant's: another tenant comes before a resident, and a resident before an agreement's dates. */
  lemma TenantRefused(s: Db, f: nat, t: nat, on: Date, create: bool, society: Option<nat>, ended: Option<nat>)
    requires Picked(s, t, ended)
    ensures var out := TenantMoveIn(s, f, t, on, create, society);
            var found := Reachable(s, f, society) && TenantThere(s, f, t);
            && (out == Failure(FlatNotFound) <==> !Reachable(s, f, society))
            && (out == Failure(TenantNotFound) <==> Reachable(s, f, society) && !TenantThere(s, f, t))
            && (out == Failure(AnotherTenantActive) <==> found && TenantKept(s, f, Some(t)))
            && (out == Failure(FlatOwnerOccupied)
                <==> && found && !TenantKept(s, f, Some(t))
                     && s.flats[f].status == Some(OwnerOccupied) && ResidentKept(s, f))
            && (out.Failure? ==> out.error in {FlatNotFound, TenantNotFound, AnotherTenantActive, FlatOwnerOccupied,
                                               AgreementOverlap})
    ensures var out := TenantMoveOut(s, f, t, on, society, ended);
            var found := Reachable(s, f, society) && TenantThere(s, f, t);
            && (out == Failure(FlatNotFound) <==> !Reachable(s, f, society))
            && (out == Failure(TenantNotFound) <==> Reachable(s, f, society) && !TenantThere(s, f, t))
            && (out == Failure(MoveOutBeforeMoveIn)
                <==> found && s.tenants[t].stay.moveIn.Some? && on < s.tenants[t].stay.moveIn.value)
  {
    KeptIsOnBooks(s, f, Some(t));
    ActiveIsKept(s, f);
  }

  /** Some agreement of the tenant is active. */
  predicate HasActive(s: Db, t: nat) {
    exists a: nat :: a < |s.agreements| && s.agreements[a].tenant == t && s.agreements[a].status == Active
  }

  /** And a renewal: who and where, the dates by themselves, the agreement there is, and last the other agreements. */
  lemma RenewalRefused(s: Db, t: nat, n: Renewal, society: Option<nat>, current: Option<nat>)
    requires Sound(s) && PickedLatest(s, t, current)
    ensures var out := RenewAgreement(s, t, n, society, current);
            var found := t < |s.tenants| && Reachable(s, s.tenants[t].stay.flat, society);
            && (out == Failure(TenantNotFound) <==> t >= |s.tenants|)
            && (out == Failure(FlatNotFound) <==> t < |s.tenants| && !found)
            && (out == Failure(EndNotAfterStart) <==> found && n.end <= n.start)
            && (out == Failure(NoActiveAgreement) <==> found && n.start < n.end && !HasActive(s, t))
            && (out == Failure(RenewalNotForward)
                <==> found && n.start < n.end && HasActive(s, t) && !RenewsForward(s, t, n))
            && (out == Failure(RenewalOverlap)
                <==> && found && n.start < n.end && RenewsForward(s, t, n)
                     && Clashes(s, s.tenants[t].stay.flat, n.start, n.end, Some(t)))
  {
    if current.Some? {
      assert s.agreements[current.value].tenant == t;
    } else if HasActive(s, t) {
      var a: nat :| a < |s.agreements| && s.agreements[a].tenant == t && s.agreements[a].status == Active;
      assert ActiveOf(s, a, t);
    }
    if t < |s.tenants| && n.start < n.end {
      OnlyForward(s, t, n, current);
      if current.Some? {
        OwnExcluded(s, t, n, current.value);
      }
    }
  }
}
