/** The occupancy service as the program has it: an object that rewrites its tables row by row. */
module OccupancyService {
  import opened Wrappers
  import opened Ledger

  lemma FreedVehicles(before: seq<Vehicle>, after: seq<Vehicle>, who: Who)
    requires |after| == |before|
    requires forall v :: 0 <= v < |after| ==>
               after[v] == if before[v].keeper == Some(who) then Vehicle(None, None) else before[v]
    ensures after == Unassigned(before, who)
  {
  }

  class OccupancyService {
    var flats: seq<Flat>
    var residents: seq<Stay>
    var tenants: seq<Tenant>
    var agreements: seq<Agreement>
    var log: seq<Entry>
    var vehicles: seq<Vehicle>

    constructor (db: Db)
      ensures Books() == db
    {
      flats, residents, tenants := db.flats, db.residents, db.tenants;
      agreements, log, vehicles := db.agreements, db.log, db.vehicles;
    }

    function Books(): (db: Db)
      reads this
    {
      Db(flats, residents, tenants, agreements, log, vehicles)
    }

    method SyncStatus(f: nat) returns (status: Occupancy)
      requires f < |flats|
      modifies this`flats
      ensures Books() == Synced(old(Books()), f)
      ensures status == Derived(old(Books()), f) && flats[f].status == Some(status)
    {
      status := Derived(Books(), f);
      flats := flats[f := flats[f].(status := Some(status))];
    }

    method LogEvent(e: Entry)
      modifies this`log
      ensures Books() == Logged(old(Books()), e)
    {
      log := log + [e];
    }

    /** Whoever leaves keeps no vehicle, and those vehicles hold no slot; all others stay as they are. */
    method UnassignVehicles(who: Who)
      modifies this`vehicles
      ensures |vehicles| == |old(vehicles)|
      ensures forall v :: 0 <= v < |vehicles| && old(vehicles)[v].keeper == Some(who) ==>
                vehicles[v].keeper.None? && vehicles[v].slot.None?
      ensures forall v :: 0 <= v < |vehicles| && old(vehicles)[v].keeper != Some(who) ==>
                vehicles[v] == old(vehicles)[v]
    {
      for v := 0 to |vehicles|
        invariant |vehicles| == |old(vehicles)|
        invariant forall u :: 0 <= u < v && old(vehicles)[u].keeper == Some(who) ==> vehicles[u] == Vehicle(None, None)
        invariant forall u :: 0 <= u < v && old(vehicles)[u].keeper != Some(who) ==> vehicles[u] == old(vehicles)[u]
        invariant forall u :: v <= u < |vehicles| ==> vehicles[u] == old(vehicles)[u]
      {
        if vehicles[v].keeper == Some(who) {
          vehicles := vehicles[v := vehicles[v].(slot := None)];
          vehicles := vehicles[v := vehicles[v].(keeper := None)];
        }
      }
    }

    method ResidentMoveIn(f: nat, r: nat, on: Date, society: Option<nat>) returns (refusal: Option<Refusal>)
      modifies this
      ensures Answers(Ledger.ResidentMoveIn(old(Books()), f, r, on, society), old(Books()), Books(), refusal)
    {
      if !FlatFound(Books(), f, society) {
        return Some(FlatNotFound);
      }
      if r >= |residents| || residents[r].flat != f {
        return Some(ResidentNotFound);
      }
      refusal := CheckResidentMoveIn(Books(), f);
      if refusal.Some? {
        return;
      }
      residents := residents[r := residents[r].(moveIn := Some(on))];
      var _ := SyncStatus(f);
      LogEvent(MovedIn(f, TheResident(r), on));
    }

    method ResidentMoveOut(f: nat, r: nat, on: Date, society: Option<nat>) returns (refusal: Option<Refusal>)
      modifies this
      ensures Answers(Ledger.ResidentMoveOut(old(Books()), f, r, on, society), old(Books()), Books(), refusal)
    {
      if !FlatFound(Books(), f, society) {
        return Some(FlatNotFound);
      }
      if r >= |residents| || residents[r].flat != f {
        return Some(ResidentNotFound);
      }
      if residents[r].moveIn.Some? && on < residents[r].moveIn.value {
        return Some(MoveOutBeforeMoveIn);
      }
      residents := residents[r := residents[r].(moveOut := Some(on))];
      residents := residents[r := residents[r].(active := false)];
      assert residents == old(residents)[r := old(residents)[r].(moveOut := Some(on), active := false)];
      UnassignVehicles(TheResident(r));
      FreedVehicles(old(vehicles), vehicles, TheResident(r));
      var status := SyncStatus(f);
      if status == Vacant {
        LogEvent(FlatVacant(f, on));
      }
      LogEvent(MovedOut(f, TheResident(r), on));
      refusal := None;
    }

    method TenantMoveIn(f: nat, t: nat, on: Date, create: bool, society: Option<nat>)
      returns (refusal: Option<Refusal>)
      modifies this
      ensures Answers(Ledger.TenantMoveIn(old(Books()), f, t, on, create, society), old(Books()), Books(), refusal)
    {
      if !FlatFound(Books(), f, society) {
        return Some(FlatNotFound);
      }
      if t >= |tenants| || tenants[t].stay.flat != f {
        return Some(TenantNotFound);
      }
      var terms := tenants[t].terms;
      refusal := CheckTenantMoveIn(Books(), f, Some(t),
                                   if create then terms.start else None, if create then terms.end else None);
      if refusal.Some? {
        return;
      }
      tenants := tenants[t := tenants[t].(stay := tenants[t].stay.(moveIn := Some(on)))];
      var _ := SyncStatus(f);
      if create && terms.start.Some? && terms.end.Some? {
        agreements := agreements + [FirstAgreement(f, t, terms)];
      }
      LogEvent(MovedIn(f, TheTenant(t), on));
    }

    /** The tenant's active agreement, as an unordered query finds it. */
    method FindActive(t: nat) returns (found: Option<nat>)
      ensures Picked(Books(), t, found)
    {
      if exists a :: 0 <= a < |agreements| && ActiveOf(Books(), a, t) {
        var a :| 0 <= a < |agreements| && ActiveOf(Books(), a, t);
        found := Some(a);
      } else {
        found := None;
      }
    }

    /** The tenant's active agreement that ends last. */
    method FindLatestActive(t: nat) returns (found: Option<nat>)
      ensures PickedLatest(Books(), t, found)
    {
      found := None;
      for a := 0 to |agreements|
        invariant found.None? ==> forall b :: 0 <= b < a ==> !ActiveOf(Books(), b, t)
        invariant found.Some? ==> found.value < a && ActiveOf(Books(), found.value, t)
        invariant found.Some? ==> forall b :: 0 <= b < a && ActiveOf(Books(), b, t) ==>
                                    agreements[b].end <= agreements[found.value].end
      {
        if ActiveOf(Books(), a, t) && (found.None? || agreements[found.value].end < agreements[a].end) {
          found := Some(a);
        }
      }
    }

    method TenantMoveOut(f: nat, t: nat, on: Date, society: Option<nat>)
      returns (refusal: Option<Refusal>, ended: Option<nat>)
      modifies this
      ensures Picked(old(Books()), t, ended)
      ensures Answers(Ledger.TenantMoveOut(old(Books()), f, t, on, society, ended), old(Books()), Books(), refusal)
    {
      ended := FindActive(t);
      if !FlatFound(Books(), f, society) {
        return Some(FlatNotFound), ended;
      }
      if t >= |tenants| || tenants[t].stay.flat != f {
        return Some(TenantNotFound), ended;
      }
      if tenants[t].stay.moveIn.Some? && on < tenants[t].stay.moveIn.value {
        return Some(MoveOutBeforeMoveIn), ended;
      }
      tenants := tenants[t := tenants[t].(stay := tenants[t].stay.(moveOut := Some(on), active := false))];
      var _ := SyncStatus(f);
      UnassignVehicles(TheTenant(t));
      FreedVehicles(old(vehicles), vehicles, TheTenant(t));
      if ended.Some? {
        agreements := agreements[ended.value := agreements[ended.value].(status := Terminated, endedBy := Some(on))];
      }
      LogEvent(MovedOut(f, TheTenant(t), on));
      if flats[f].status == Some(Vacant) {
        LogEvent(FlatVacant(f, on));
      }
      refusal := None;
    }

    method RenewAgreement(t: nat, n: Renewal, society: Option<nat>)
      returns (refusal: Option<Refusal>, current: Option<nat>)
      modifies this
      ensures PickedLatest(old(Books()), t, current)
      ensures Answers(Ledger.RenewAgreement(old(Books()), t, n, society, current), old(Books()), Books(), refusal)
    {
      current := FindLatestActive(t);
      if t >= |tenants| {
        return Some(TenantNotFound), current;
      }
      var f := tenants[t].stay.flat;
      if !FlatFound(Books(), f, society) {
        return Some(FlatNotFound), current;
      }
      if n.end <= n.start {
        return Some(EndNotAfterStart), current;
      }
      if current.None? {
        return Some(NoActiveAgreement), current;
      }
      var a := current.value;
      if n.start <= agreements[a].start || n.end <= agreements[a].end {
        return Some(RenewalNotForward), current;
      }
      if ActiveOverlap(Books(), f, n.start, n.end, current) {
        return Some(RenewalOverlap), current;
      }
      var next := RenewedAgreement(agreements[a], a, t, f, n);
      agreements := agreements + [next];
      agreements := agreements[a := agreements[a].(status := Renewed)];
      var terms := tenants[t].terms.(start := Some(n.start), end := Some(n.end));
      if n.rent.Some? {
        terms := terms.(rent := n.rent);
      }
      if n.deposit.Some? {
        terms := terms.(deposit := n.deposit);
      }
      terms := terms.(channel := next.channel, channelName := next.channelName);
      tenants := tenants[t := tenants[t].(terms := terms)];
      refusal := None;
    }

    method AddResident(f: nat, moveIn: Option<Date>, society: Option<nat>) returns (refusal: Option<Refusal>)
      modifies this
      ensures (Books(), refusal) == Ledger.AddResident(old(Books()), f, moveIn, society)
    {
      if !FlatFound(Books(), f, society) {
        return Some(FlatNotFound);
      }
      if moveIn.Some? {
        refusal := CheckResidentMoveIn(Books(), f);
        if refusal.Some? {
          return;
        }
      }
      residents := residents + [Stay(f, true, None, None)];
      refusal := None;
      if moveIn.Some? {
        refusal := ResidentMoveIn(f, |residents| - 1, moveIn.value, society);
      }
    }

    method AddTenant(f: nat, terms: Terms, moveIn: Option<Date>, society: Option<nat>)
      returns (refusal: Option<Refusal>)
      modifies this
      ensures (Books(), refusal) == Ledger.AddTenant(old(Books()), f, terms, moveIn, society)
    {
      if !AgreementDatesValid(terms) {
        return Some(AgreementDatesInvalid);
      }
      if !FlatFound(Books(), f, society) {
        return Some(FlatNotFound);
      }
      if moveIn.Some? {
        refusal := CheckTenantMoveIn(Books(), f, None, terms.start, terms.end);
        if refusal.Some? {
          return;
        }
      }
      tenants := tenants + [Tenant(Stay(f, true, None, None), terms)];
      refusal := None;
      if moveIn.Some? {
        refusal := TenantMoveIn(f, |tenants| - 1, moveIn.value, terms.start.Some? && terms.end.Some?, society);
      }
    }

    method EditChannel(t: nat, channel: Edit, name: Edit, society: Option<nat>)
      returns (refusal: Option<Refusal>, current: Option<nat>)
      modifies this
      ensures Picked(old(Books()), t, current)
      ensures Answers(Ledger.EditChannel(old(Books()), t, channel, name, society, current),
                      old(Books()), Books(), refusal)
    {
      current := FindActive(t);
      if !TenantFound(Books(), t, society) {
        return Some(TenantNotFound), current;
      }
      var terms := EditedTerms(tenants[t].terms, channel, name);
      tenants := tenants[t := tenants[t].(terms := terms)];
      if current.Some? && (channel.Some? || name.Some?) {
        agreements := agreements[current.value :=
          agreements[current.value].(channel := terms.channel, channelName := terms.channelName)];
      }
      refusal := None;
    }

    /** Marks the flat's waiting residents as moved in; how many, and a note where something keeps them out. */
    method MoveInResidents(f: nat, on: Date, today: Date, dryRun: bool) returns (moved: nat, note: Note)
      requires f < |flats|
      modifies this
      ensures note == WhyNobody(old(Books()), f, on, today)
      ensures moved == if PossessionMovesIn(old(Books()), f, on, today)
                       then |Arrivals(old(residents), f, on, |old(residents)|)| else 0
      ensures dryRun || !PossessionMovesIn(old(Books()), f, on, today) ==> Books() == old(Books())
      ensures !dryRun && PossessionMovesIn(old(Books()), f, on, today) ==>
                Books() == Synced(old(Books()).(
                             residents := AllArrived(old(residents), f, on, |old(residents)|),
                             log := old(log) + Arrivals(old(residents), f, on, |old(residents)|)), f)
    {
      moved, note := 0, NoNote;
      if on > today {
        note := DateInFuture;
        return;
      }
      if !AnyWaiting(Books(), f) {
        return;
      }
      if TenantOnBooks(Books(), f, None) {
        note := FlatHasTenant;
        return;
      }
      var waiting := residents;
      ghost var was := log;
      for r := 0 to |waiting|
        invariant residents == if dryRun then waiting else AllArrived(waiting, f, on, r)
        invariant log == if dryRun then was else was + Arrivals(waiting, f, on, r)
        invariant moved == |Arrivals(waiting, f, on, r)|
        invariant flats == old(flats) && tenants == old(tenants) && agreements == old(agreements)
        invariant vehicles == old(vehicles)
      {
        if Waiting(waiting[r], f) {
          if !dryRun {
            residents := residents[r := residents[r].(moveIn := Some(on))];
            LogEvent(MovedIn(f, TheResident(r), on));
          }
          moved := moved + 1;
        }
      }
      if !dryRun {
        var _ := SyncStatus(f);
      }
    }
  }
}
