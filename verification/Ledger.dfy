/**
The society's books: flats with a cached occupancy status, the people on record,
the agreement ledger, the occupancy log and the vehicles; and what each occupancy
step makes of them.

A table is the sequence of its rows in the order they were inserted, and a row's
id is its place in that sequence. No step deletes a row. Every step is a function
from the books to the new books or to the refusal that leaves them as they were.
*/
module Ledger {
  import opened Wrappers

  type Date = int
  type Amount = int

  datatype Occupancy = OwnerOccupied | TenantOccupied | Vacant

  datatype Flat = Flat(active: bool, society: nat, wing: string, wingCode: Option<string>, number: string,
                       status: Option<Occupancy>, possession: Option<Date>)

  /** What a resident row and a tenant row have in common. */
  datatype Stay = Stay(flat: nat, active: bool, moveIn: Option<Date>, moveOut: Option<Date>)

  /** The current terms cached on a tenant row. */
  datatype Terms = Terms(start: Option<Date>, end: Option<Date>, rent: Option<Amount>, deposit: Option<Amount>,
                         document: Option<string>, channel: Option<string>, channelName: Option<string>)

  const NO_TERMS := Terms(None, None, None, None, None, None, None)

  datatype Tenant = Tenant(stay: Stay, terms: Terms)

  datatype Status = Active | Expired | Renewed | Terminated

  datatype Agreement = Agreement(flat: nat, tenant: nat, start: Date, end: Date, rent: Option<Amount>,
                                 deposit: Option<Amount>, document: Option<string>, channel: Option<string>,
                                 channelName: Option<string>, status: Status, renewalOf: Option<nat>,
                                 endedBy: Option<Date>)

  datatype Who = TheResident(id: nat) | TheTenant(id: nat)

  datatype Entry =
    | MovedIn(flat: nat, who: Who, on: Date)
    | MovedOut(flat: nat, who: Who, on: Date)
    | FlatVacant(flat: nat, on: Date)

  datatype Vehicle = Vehicle(keeper: Option<Who>, slot: Option<string>)

  datatype Db = Db(flats: seq<Flat>, residents: seq<Stay>, tenants: seq<Tenant>, agreements: seq<Agreement>,
                   log: seq<Entry>, vehicles: seq<Vehicle>)

  datatype Refusal =
    | FlatNotFound | ResidentNotFound | TenantNotFound
    | FlatTenantOccupied | FlatOwnerOccupied | AnotherTenantActive | AgreementOverlap
    | NoActiveAgreement | RenewalOverlap
    | MoveOutBeforeMoveIn | EndNotAfterStart | RenewalNotForward | AgreementDatesInvalid

  // ---------------------------------------------------------------- queries

  /** An active flat, in the caller's society when the caller has one. */
  predicate FlatFound(s: Db, f: nat, society: Option<nat>) {
    && f < |s.flats|
    && s.flats[f].active
    && (society.Some? ==> s.flats[f].society == society.value)
  }

  /** On the flat's books and not moved out, whether or not moved in yet. */
  predicate OnBooks(p: Stay, f: nat) {
    p.flat == f && p.active && p.moveOut.None?
  }

  /** Living in the flat. */
  predicate LivesIn(p: Stay, f: nat) {
    OnBooks(p, f) && p.moveIn.Some?
  }

  predicate TenantOnBooks(s: Db, f: nat, except: Option<nat>) {
    exists t :: 0 <= t < |s.tenants| && OnBooks(s.tenants[t].stay, f) && except != Some(t)
  }

  predicate TenantLivesIn(s: Db, f: nat) {
    exists t :: 0 <= t < |s.tenants| && LivesIn(s.tenants[t].stay, f)
  }

  predicate ResidentLivesIn(s: Db, f: nat) {
    exists r :: 0 <= r < |s.residents| && LivesIn(s.residents[r], f)
  }

  /** The guard of a tenant's move-in looks at active residents only, moved out or not. */
  predicate ResidentActive(s: Db, f: nat) {
    exists r :: 0 <= r < |s.residents| && s.residents[r].flat == f && s.residents[r].active
  }

  predicate ActiveOf(s: Db, a: nat, t: nat) {
    a < |s.agreements| && s.agreements[a].tenant == t && s.agreements[a].status == Active
  }

  predicate Overlaps(g: Agreement, start: Date, end: Date) {
    g.start <= end && g.end >= start
  }

  predicate ActiveOverlap(s: Db, f: nat, start: Date, end: Date, except: Option<nat>) {
    exists a :: 0 <= a < |s.agreements| && s.agreements[a].flat == f && s.agreements[a].status == Active
                && Overlaps(s.agreements[a], start, end) && except != Some(a)
  }

  /** What an unordered query for the tenant's active agreement may return. */
  predicate Picked(s: Db, t: nat, pick: Option<nat>) {
    match pick
    case None => forall a :: 0 <= a < |s.agreements| ==> !ActiveOf(s, a, t)
    case Some(a) => ActiveOf(s, a, t)
  }

  /** What the same query ordered by latest end date may return. */
  predicate PickedLatest(s: Db, t: nat, pick: Option<nat>) {
    && Picked(s, t, pick)
    && (pick.Some? ==>
          forall a :: 0 <= a < |s.agreements| && ActiveOf(s, a, t) ==>
            s.agreements[a].end <= s.agreements[pick.value].end)
  }

  // ---------------------------------------------------------------- the cached status

  /** A flat's occupancy from who has actually moved in. */
  function Derived(s: Db, f: nat): (o: Occupancy) {
    if TenantLivesIn(s, f) then TenantOccupied
    else if ResidentLivesIn(s, f) then OwnerOccupied
    else Vacant
  }

  function Synced(s: Db, f: nat): (s': Db)
    requires f < |s.flats|
  {
    s.(flats := s.flats[f := s.flats[f].(status := Some(Derived(s, f)))])
  }

  function Logged(s: Db, e: Entry): (s': Db) {
    s.(log := s.log + [e])
  }

  /** Vehicles of someone who leaves belong to nobody and hold no parking slot. */
  function Unassigned(vehicles: seq<Vehicle>, who: Who): (v': seq<Vehicle>)
    ensures |v'| == |vehicles|
    ensures forall v :: 0 <= v < |vehicles| ==>
              v'[v] == if vehicles[v].keeper == Some(who) then Vehicle(None, None) else vehicles[v]
  {
    if vehicles == [] then []
    else
      [if vehicles[0].keeper == Some(who) then Vehicle(None, None) else vehicles[0]] + Unassigned(vehicles[1..], who)
  }

  // ---------------------------------------------------------------- residents

  function CheckResidentMoveIn(s: Db, f: nat): (refusal: Option<Refusal>)
    requires f < |s.flats|
  {
    if TenantOnBooks(s, f, None) && s.flats[f].status == Some(TenantOccupied) then Some(FlatTenantOccupied) else None
  }

  function ResidentArrives(s: Db, f: nat, r: nat, on: Date): (s': Db)
    requires f < |s.flats| && r < |s.residents|
  {
    var moved := s.(residents := s.residents[r := s.residents[r].(moveIn := Some(on))]);
    Logged(Synced(moved, f), MovedIn(f, TheResident(r), on))
  }

  function ResidentMoveIn(s: Db, f: nat, r: nat, on: Date, society: Option<nat>): (out: Result<Db, Refusal>) {
    if !FlatFound(s, f, society) then Failure(FlatNotFound)
    else if r >= |s.residents| || s.residents[r].flat != f then Failure(ResidentNotFound)
    else if CheckResidentMoveIn(s, f).Some? then Failure(CheckResidentMoveIn(s, f).value)
    else Success(ResidentArrives(s, f, r, on))
  }

  function ResidentLeaves(s: Db, f: nat, r: nat, on: Date): (s': Db)
    requires f < |s.flats| && r < |s.residents|
  {
    var gone := s.(residents := s.residents[r := s.residents[r].(moveOut := Some(on), active := false)],
                   vehicles := Unassigned(s.vehicles, TheResident(r)));
    var synced := Synced(gone, f);
    var noted := if synced.flats[f].status == Some(Vacant) then Logged(synced, FlatVacant(f, on)) else synced;
    Logged(noted, MovedOut(f, TheResident(r), on))
  }

  function ResidentMoveOut(s: Db, f: nat, r: nat, on: Date, society: Option<nat>): (out: Result<Db, Refusal>) {
    if !FlatFound(s, f, society) then Failure(FlatNotFound)
    else if r >= |s.residents| || s.residents[r].flat != f then Failure(ResidentNotFound)
    else if s.residents[r].moveIn.Some? && on < s.residents[r].moveIn.value then Failure(MoveOutBeforeMoveIn)
    else Success(ResidentLeaves(s, f, r, on))
  }

  // ---------------------------------------------------------------- tenants

  function CheckTenantMoveIn(s: Db, f: nat, except: Option<nat>, start: Option<Date>, end: Option<Date>)
    : (refusal: Option<Refusal>)
    requires f < |s.flats|
  {
    if TenantOnBooks(s, f, except) then Some(AnotherTenantActive)
    else if ResidentActive(s, f) && s.flats[f].status == Some(OwnerOccupied) then Some(FlatOwnerOccupied)
    else if start.Some? && end.Some? && ActiveOverlap(s, f, start.value, end.value, None) then Some(AgreementOverlap)
    else None
  }

  function FirstAgreement(f: nat, t: nat, terms: Terms): (g: Agreement)
    requires terms.start.Some? && terms.end.Some?
  {
    Agreement(f, t, terms.start.value, terms.end.value, terms.rent, terms.deposit, terms.document,
              terms.channel, terms.channelName, Active, None, None)
  }

  function TenantArrives(s: Db, f: nat, t: nat, on: Date, create: bool): (s': Db)
    requires f < |s.flats| && t < |s.tenants|
  {
    var terms := s.tenants[t].terms;
    var moved := s.(tenants := s.tenants[t := s.tenants[t].(stay := s.tenants[t].stay.(moveIn := Some(on)))]);
    var synced := Synced(moved, f);
    var signed := if create && terms.start.Some? && terms.end.Some?
                  then synced.(agreements := synced.agreements + [FirstAgreement(f, t, terms)])
                  else synced;
    Logged(signed, MovedIn(f, TheTenant(t), on))
  }

  function TenantMoveIn(s: Db, f: nat, t: nat, on: Date, create: bool, society: Option<nat>)
    : (out: Result<Db, Refusal>)
  {
    if !FlatFound(s, f, society) then Failure(FlatNotFound)
    else if t >= |s.tenants| || s.tenants[t].stay.flat != f then Failure(TenantNotFound)
    else
      var terms := s.tenants[t].terms;
      var check := CheckTenantMoveIn(s, f, Some(t), if create then terms.start else None,
                                     if create then terms.end else None);
      if check.Some? then Failure(check.value) else Success(TenantArrives(s, f, t, on, create))
  }

  function TenantLeaves(s: Db, f: nat, t: nat, on: Date, ended: Option<nat>): (s': Db)
    requires f < |s.flats| && t < |s.tenants|
    requires ended.Some? ==> ended.value < |s.agreements|
  {
    var stay := s.tenants[t].stay.(moveOut := Some(on), active := false);
    var gone := Synced(s.(tenants := s.tenants[t := s.tenants[t].(stay := stay)]), f);
    var freed := gone.(vehicles := Unassigned(gone.vehicles, TheTenant(t)));
    var closed := if ended.None? then freed
                  else freed.(agreements := freed.agreements[ended.value :=
                         freed.agreements[ended.value].(status := Terminated, endedBy := Some(on))]);
    var noted := Logged(closed, MovedOut(f, TheTenant(t), on));
    if noted.flats[f].status == Some(Vacant) then Logged(noted, FlatVacant(f, on)) else noted
  }

  /** `ended` is the agreement the unordered query returned. */
  function TenantMoveOut(s: Db, f: nat, t: nat, on: Date, society: Option<nat>, ended: Option<nat>)
    : (out: Result<Db, Refusal>)
    requires ended.Some? ==> ended.value < |s.agreements|
  {
    if !FlatFound(s, f, society) then Failure(FlatNotFound)
    else if t >= |s.tenants| || s.tenants[t].stay.flat != f then Failure(TenantNotFound)
    else if s.tenants[t].stay.moveIn.Some? && on < s.tenants[t].stay.moveIn.value then Failure(MoveOutBeforeMoveIn)
    else Success(TenantLeaves(s, f, t, on, ended))
  }

  // ---------------------------------------------------------------- renewal

  /** What a renewal may change; whatever is left out is carried over. */
  datatype Renewal = Renewal(start: Date, end: Date, rent: Option<Amount>, deposit: Option<Amount>,
                             document: Option<string>, channel: Option<string>, channelName: Option<string>)

  function RenewedAgreement(before: Agreement, a: nat, t: nat, f: nat, n: Renewal): (g: Agreement) {
    Agreement(f, t, n.start, n.end,
              if n.rent.Some? then n.rent else before.rent,
              if n.deposit.Some? then n.deposit else before.deposit,
              if n.document.Some? && n.document.value != "" then n.document else before.document,
              if n.channel.Some? then n.channel else before.channel,
              if n.channel.Some? then n.channelName else before.channelName,
              Active, Some(a), None)
  }

  function Renews(s: Db, t: nat, n: Renewal, a: nat): (s': Db)
    requires t < |s.tenants| && a < |s.agreements|
  {
    var tenant := s.tenants[t];
    var next := RenewedAgreement(s.agreements[a], a, t, tenant.stay.flat, n);
    var terms := tenant.terms.(start := Some(n.start), end := Some(n.end),
                               rent := if n.rent.Some? then n.rent else tenant.terms.rent,
                               deposit := if n.deposit.Some? then n.deposit else tenant.terms.deposit,
                               channel := next.channel, channelName := next.channelName);
    s.(agreements := (s.agreements + [next])[a := s.agreements[a].(status := Renewed)],
       tenants := s.tenants[t := tenant.(terms := terms)])
  }

  /** `current` is the agreement the ordered query returned. */
  function RenewAgreement(s: Db, t: nat, n: Renewal, society: Option<nat>, current: Option<nat>)
    : (out: Result<Db, Refusal>)
    requires current.Some? ==> current.value < |s.agreements|
  {
    if t >= |s.tenants| then Failure(TenantNotFound)
    else if !FlatFound(s, s.tenants[t].stay.flat, society) then Failure(FlatNotFound)
    else if n.end <= n.start then Failure(EndNotAfterStart)
    else if current.None? then Failure(NoActiveAgreement)
    else if n.start <= s.agreements[current.value].start || n.end <= s.agreements[current.value].end then
      Failure(RenewalNotForward)
    else if ActiveOverlap(s, s.tenants[t].stay.flat, n.start, n.end, current) then Failure(RenewalOverlap)
    else Success(Renews(s, t, n, current.value))
  }

  // ---------------------------------------------------------------- people and terms

  /** A resident is put on record, and moved in at once when a date is given. */
  function AddResident(s: Db, f: nat, moveIn: Option<Date>, society: Option<nat>): (out: (Db, Option<Refusal>)) {
    if !FlatFound(s, f, society) then (s, Some(FlatNotFound))
    else if moveIn.Some? && CheckResidentMoveIn(s, f).Some? then (s, CheckResidentMoveIn(s, f))
    else
      var added := s.(residents := s.residents + [Stay(f, true, None, None)]);
      if moveIn.None? then (added, None)
      else match ResidentMoveIn(added, f, |s.residents|, moveIn.value, society)
        case Success(moved) => (moved, None)
        case Failure(why) => (added, Some(why))
  }

  predicate AgreementDatesValid(terms: Terms) {
    && terms.start.Some? == terms.end.Some?
    && (terms.start.Some? && terms.end.Some? ==> terms.start.value < terms.end.value)
  }

  /** A tenant is put on record, and moved in at once when a date is given. */
  function AddTenant(s: Db, f: nat, terms: Terms, moveIn: Option<Date>, society: Option<nat>)
    : (out: (Db, Option<Refusal>))
  {
    if !AgreementDatesValid(terms) then (s, Some(AgreementDatesInvalid))
    else if !FlatFound(s, f, society) then (s, Some(FlatNotFound))
    else if moveIn.Some? && CheckTenantMoveIn(s, f, None, terms.start, terms.end).Some? then
      (s, CheckTenantMoveIn(s, f, None, terms.start, terms.end))
    else
      var added := s.(tenants := s.tenants + [Tenant(Stay(f, true, None, None), terms)]);
      if moveIn.None? then (added, None)
      else match TenantMoveIn(added, f, |s.tenants|, moveIn.value, terms.start.Some? && terms.end.Some?, society)
        case Success(moved) => (moved, None)
        case Failure(why) => (added, Some(why))
  }

  /** An active tenant of the caller's society, when the caller has one. */
  predicate TenantFound(s: Db, t: nat, society: Option<nat>) {
    && t < |s.tenants|
    && s.tenants[t].stay.active
    && (society.Some? ==>
          s.tenants[t].stay.flat < |s.flats| && s.flats[s.tenants[t].stay.flat].society == society.value)
  }

  /** A field that an edit leaves alone, or sets (possibly to nothing). */
  type Edit = Option<Option<string>>

  /** The name goes with an agent or an app: no channel, or a direct one, clears it. */
  function EditedTerms(terms: Terms, channel: Edit, name: Edit): (terms': Terms) {
    terms.(channel := if channel.Some? then channel.value else terms.channel,
           channelName := if channel.Some? && (channel.value.None? || channel.value == Some("direct")) then None
                          else if name.Some? then name.value
                          else terms.channelName)
  }

  /** The agreement channel is edited on the tenant; `current`, the active agreement found, carries the same channel. */
  function EditChannel(s: Db, t: nat, channel: Edit, name: Edit, society: Option<nat>, current: Option<nat>)
    : (out: Result<Db, Refusal>)
    requires current.Some? ==> current.value < |s.agreements|
  {
    if !TenantFound(s, t, society) then Failure(TenantNotFound)
    else
      var terms := EditedTerms(s.tenants[t].terms, channel, name);
      var edited := s.(tenants := s.tenants[t := s.tenants[t].(terms := terms)]);
      if current.None? || (channel.None? && name.None?) then Success(edited)
      else Success(edited.(agreements := edited.agreements[current.value :=
                     edited.agreements[current.value].(channel := terms.channel, channelName := terms.channelName)]))
  }

  // ---------------------------------------------------------------- possession

  /** A resident of the flat still waiting for a move-in date. */
  predicate Waiting(p: Stay, f: nat) {
    OnBooks(p, f) && p.moveIn.None?
  }

  predicate AnyWaiting(s: Db, f: nat) {
    exists r :: 0 <= r < |s.residents| && Waiting(s.residents[r], f)
  }

  /** Whether a possession date moves the flat's waiting residents in. */
  predicate PossessionMovesIn(s: Db, f: nat, on: Date, today: Date) {
    on <= today && AnyWaiting(s, f) && !TenantOnBooks(s, f, None)
  }

  /** Why nobody is moved in, where there is something to say about it. */
  datatype Note = NoNote | DateInFuture | FlatHasTenant

  function WhyNobody(s: Db, f: nat, on: Date, today: Date): (note: Note) {
    if on > today then DateInFuture
    else if AnyWaiting(s, f) && TenantOnBooks(s, f, None) then FlatHasTenant
    else NoNote
  }

  /** The first `n` resident rows, those waiting in `f` marked as moved in. */
  function AllArrived(residents: seq<Stay>, f: nat, on: Date, n: nat): (r': seq<Stay>)
    requires n <= |residents|
    ensures |r'| == |residents|
    ensures forall r :: 0 <= r < |residents| ==>
              r'[r] == if r < n && Waiting(residents[r], f) then residents[r].(moveIn := Some(on)) else residents[r]
  {
    if n == 0 then residents
    else
      var before := AllArrived(residents, f, on, n - 1);
      if Waiting(residents[n - 1], f) then before[n - 1 := residents[n - 1].(moveIn := Some(on))] else before
  }

  function Arrivals(residents: seq<Stay>, f: nat, on: Date, n: nat): (log: seq<Entry>)
    requires n <= |residents|
  {
    if n == 0 then []
    else
      var before := Arrivals(residents, f, on, n - 1);
      if Waiting(residents[n - 1], f) then before + [MovedIn(f, TheResident(n - 1), on)] else before
  }

  /** What one accepted row of the possession sheet writes. */
  function TakePossession(s: Db, f: nat, on: Date, today: Date): (s': Db)
    requires f < |s.flats|
  {
    var dated := s.(flats := s.flats[f := s.flats[f].(possession := Some(on))]);
    if !PossessionMovesIn(s, f, on, today) then dated
    else Synced(dated.(residents := AllArrived(s.residents, f, on, |s.residents|),
                       log := s.log + Arrivals(s.residents, f, on, |s.residents|)), f)
  }
}
