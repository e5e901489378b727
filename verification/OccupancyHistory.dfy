/** Everything that can happen to the society's books, and the runs it makes up. */
module OccupancyHistory {
  import opened Wrappers
  import opened Ledger

  /**
  One atomic step. `ended` and `current` are what the query for the tenant's active
  agreement happened to return; a flat may be added with any status at all.
  */
  datatype Event =
    | NewFlat(flat: Flat)
    | NewResident(f: nat, moveIn: Option<Date>, society: Option<nat>)
    | NewTenant(f: nat, terms: Terms, moveIn: Option<Date>, society: Option<nat>)
    | ResidentIn(f: nat, r: nat, on: Date, society: Option<nat>)
    | ResidentOut(f: nat, r: nat, on: Date, society: Option<nat>)
    | TenantIn(f: nat, t: nat, on: Date, create: bool, society: Option<nat>)
    | TenantOut(f: nat, t: nat, on: Date, society: Option<nat>, ended: Option<nat>)
    | Renewing(t: nat, n: Renewal, society: Option<nat>, current: Option<nat>)
    | ChannelEdit(t: nat, channel: Edit, name: Edit, society: Option<nat>, current: Option<nat>)
    | Possession(f: nat, on: Date, today: Date)

  function Kept(s: Db, out: Result<Db, Refusal>): (s': Db) {
    match out
    case Success(db) => db
    case Failure(_) => s
  }

  ghost predicate Possible(s: Db, e: Event) {
    match e
    case TenantOut(_, t, _, _, ended) => Picked(s, t, ended)
    case Renewing(t, _, _, current) => PickedLatest(s, t, current)
    case ChannelEdit(t, _, _, _, current) => Picked(s, t, current)
    case Possession(f, _, _) => f < |s.flats|
    case _ => true
  }

  ghost function Do(s: Db, e: Event): (s': Db)
    requires Possible(s, e)
  {
    match e
    case NewFlat(flat) => s.(flats := s.flats + [flat])
    case NewResident(f, moveIn, society) => AddResident(s, f, moveIn, society).0
    case NewTenant(f, terms, moveIn, society) => AddTenant(s, f, terms, moveIn, society).0
    case ResidentIn(f, r, on, society) => Kept(s, ResidentMoveIn(s, f, r, on, society))
    case ResidentOut(f, r, on, society) => Kept(s, ResidentMoveOut(s, f, r, on, society))
    case TenantIn(f, t, on, create, society) => Kept(s, TenantMoveIn(s, f, t, on, create, society))
    case TenantOut(f, t, on, society, ended) => Kept(s, TenantMoveOut(s, f, t, on, society, ended))
    case Renewing(t, n, society, current) => Kept(s, RenewAgreement(s, t, n, society, current))
    case ChannelEdit(t, channel, name, society, current) => Kept(s, EditChannel(s, t, channel, name, society, current))
    case Possession(f, on, today) => TakePossession(s, f, on, today)
  }

  /** `h` lists the books before and after each of the events. */
  ghost predicate History(h: seq<Db>, events: seq<Event>) {
    && |h| == |events| + 1
    && forall i :: 0 <= i < |events| ==> Possible(h[i], events[i]) && h[i + 1] == Do(h[i], events[i])
  }

  /** A run goes on with any step that is possible at its end. */
  lemma Longer(h: seq<Db>, events: seq<Event>, e: Event, after: Db) returns (h': seq<Db>, events': seq<Event>)
    requires History(h, events) && Possible(h[|events|], e) && after == Do(h[|events|], e)
    ensures h' == h + [after] && events' == events + [e] && History(h', events')
  {
    h', events' := h + [after], events + [e];
  }
}
