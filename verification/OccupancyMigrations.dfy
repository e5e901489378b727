/** The two data migrations that first make every flat's stored status follow who lives there. */
module OccupancyMigrations {
  import opened Wrappers
  import opened Ledger
  import opened OccupancyInvariants

  /** The stored status, where none reads as vacant. */
  function Stored(flat: Flat): (o: Occupancy) {
    if flat.status.Some? then flat.status.value else Vacant
  }

  /** Somebody is on record for the flat, whether or not active. */
  predicate HasPeople(s: Db, f: nat) {
    (exists t :: 0 <= t < |s.tenants| && s.tenants[t].stay.flat == f)
    || (exists r :: 0 <= r < |s.residents| && s.residents[r].flat == f)
  }

  // ---------------------------------------------------------------- what each leaves behind

  /** Flats with people on record follow who lives there; the others keep the status they were given. */
  ghost predicate FollowsPeople(s: Db, flats: seq<Flat>) {
    && |flats| == |s.flats|
    && forall f :: 0 <= f < |flats| ==>
         && flats[f].(status := None) == s.flats[f].(status := None)
         && (HasPeople(s, f) ==> Stored(flats[f]) == Derived(s, f))
         && (!HasPeople(s, f) || Stored(s.flats[f]) == Derived(s, f) ==> flats[f] == s.flats[f])
  }

  /** Flats with nobody on record are vacant; the others keep their status. */
  ghost predicate VacantWithoutPeople(s: Db, flats: seq<Flat>) {
    && |flats| == |s.flats|
    && forall f :: 0 <= f < |flats| ==>
         && flats[f].(status := None) == s.flats[f].(status := None)
         && (!HasPeople(s, f) ==> Stored(flats[f]) == Vacant)
         && (HasPeople(s, f) || Stored(s.flats[f]) == Vacant ==> flats[f] == s.flats[f])
  }

  method SyncFlatOccupancy(s: Db) returns (flats: seq<Flat>, changed: nat)
    ensures FollowsPeople(s, flats)
    ensures changed == |set f | 0 <= f < |flats| && flats[f] != s.flats[f]|
  {
    flats, changed := s.flats, 0;
    ghost var touched: set<int> := {};
    for f := 0 to |s.flats|
      invariant |flats| == |s.flats|
      invariant forall g :: f <= g < |flats| ==> flats[g] == s.flats[g]
      invariant forall g :: 0 <= g < f ==>
                  flats[g] == if HasPeople(s, g) && Stored(s.flats[g]) != Derived(s, g)
                              then s.flats[g].(status := Some(Derived(s, g))) else s.flats[g]
      invariant touched == set g | 0 <= g < f && flats[g] != s.flats[g]
      invariant changed == |touched|
    {
      if HasPeople(s, f) {
        var wanted := if TenantLivesIn(s, f) then TenantOccupied
                      else if ResidentLivesIn(s, f) then OwnerOccupied
                      else Vacant;
        if Stored(s.flats[f]) != wanted {
          flats := flats[f := flats[f].(status := Some(wanted))];
          changed := changed + 1;
          touched := touched + {f};
        }
      }
    }
  }

  method ResetUnoccupiedFlats(s: Db) returns (flats: seq<Flat>, letOut: seq<nat>)
    ensures VacantWithoutPeople(s, flats)
    ensures forall f: nat :: f in letOut
              <==> f < |s.flats| && !HasPeople(s, f) && s.flats[f].status == Some(TenantOccupied)
    ensures forall i, j :: 0 <= i < j < |letOut| ==> letOut[i] < letOut[j]
  {
    flats, letOut := s.flats, [];
    for f := 0 to |s.flats|
      invariant |flats| == |s.flats|
      invariant forall g :: f <= g < |flats| ==> flats[g] == s.flats[g]
      invariant forall g :: 0 <= g < f ==>
                  flats[g] == if !HasPeople(s, g) && Stored(s.flats[g]) != Vacant
                              then s.flats[g].(status := Some(Vacant)) else s.flats[g]
      invariant forall g: nat :: g in letOut <==> g < f && !HasPeople(s, g) && s.flats[g].status == Some(TenantOccupied)
      invariant forall i :: 0 <= i < |letOut| ==> letOut[i] < f
      invariant forall i, j :: 0 <= i < j < |letOut| ==> letOut[i] < letOut[j]
    {
      var status := s.flats[f].status;
      if (status == Some(OwnerOccupied) || status == Some(TenantOccupied)) && !HasPeople(s, f) {
        flats := flats[f := flats[f].(status := Some(Vacant))];
        if status == Some(TenantOccupied) {
          letOut := letOut + [f];
        }
      }
    }
  }

  // ---------------------------------------------------------------- both in turn

  /** Whatever was stored, after both every flat's stored status is the one that follows from who lives there. */
  lemma BothMakeItRight(s: Db, first: seq<Flat>, second: seq<Flat>)
    requires FollowsPeople(s, first) && VacantWithoutPeople(s.(flats := first), second)
    ensures forall f :: 0 <= f < |second| ==> Stored(second[f]) == Derived(s.(flats := second), f)
    ensures CacheRight(s.(flats := second))
  {
  }

  /** The service can start from there: whatever else is in order, the books are sound once both have run. */
  lemma MigratedBooksAreSound(s: Db, first: seq<Flat>, second: seq<Flat>)
    requires References(s) && Exclusive(s) && AgreementsSound(s)
    requires FollowsPeople(s, first) && VacantWithoutPeople(s.(flats := first), second)
    ensures Sound(s.(flats := second))
  {
  }

  /** Where every stored status is right, neither migration changes anything. */
  lemma RightMeansNothingToDo(s: Db, first: seq<Flat>, second: seq<Flat>)
    requires forall f :: 0 <= f < |s.flats| ==> Stored(s.flats[f]) == Derived(s, f)
    requires FollowsPeople(s, first) && VacantWithoutPeople(s.(flats := first), second)
    ensures first == s.flats && second == s.flats
  {
  }

  /** Running both again changes nothing. */
  lemma BothAgainChangeNothing(s: Db, first: seq<Flat>, second: seq<Flat>, third: seq<Flat>, fourth: seq<Flat>)
    requires FollowsPeople(s, first) && VacantWithoutPeople(s.(flats := first), second)
    requires FollowsPeople(s.(flats := second), third) && VacantWithoutPeople(s.(flats := third), fourth)
    ensures third == second && fourth == second
  {
  }
}
