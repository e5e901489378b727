/** Floors of a wing and the flats that carry a floor's number. */
module Floors {
  import opened Wrappers

  /** A deleted wing stays on record; a deactivated one is kept. */
  datatype Wing = Wing(society: nat, active: bool, deleted: bool)

  datatype Floor = Floor(wing: nat, society: nat, number: int, name: Option<string>, active: bool)

  datatype Flat = Flat(wing: Option<nat>, floor: Option<int>, active: bool)

  datatype Site = Site(wings: seq<Wing>, floors: seq<Floor>, flats: seq<Flat>)

  datatype Refusal = WingNotFound | WingDeactivated | NumberTaken | FloorNotFound | StillHasFlats(count: nat)

  /** A caller without a society of his own sees every society's rows. */
  predicate Sees(caller: Option<nat>, society: nat) {
    caller == None || caller == Some(society)
  }

  predicate FloorFound(s: Site, id: nat, caller: Option<nat>) {
    id < |s.floors| && s.floors[id].active && Sees(caller, s.floors[id].society)
  }

  /** An active flat of the wing with the number. */
  predicate Carries(flat: Flat, wing: nat, number: int) {
    flat.wing == Some(wing) && flat.floor == Some(number) && flat.active
  }

  function FlatsOn(flats: seq<Flat>, wing: nat, number: int): (count: nat) {
    if flats == [] then 0
    else FlatsOn(flats[..|flats| - 1], wing, number) + (if Carries(flats[|flats| - 1], wing, number) then 1 else 0)
  }

  function Count(s: Site, id: nat): (count: nat)
    requires id < |s.floors|
  {
    FlatsOn(s.flats, s.floors[id].wing, s.floors[id].number)
  }

  /** The active floor of the wing with the number. */
  predicate Holds(floor: Floor, wing: nat, number: int) {
    floor.wing == wing && floor.number == number && floor.active
  }

  /** Another active floor of the wing has the number. */
  predicate Taken(floors: seq<Floor>, wing: nat, number: int, except: Option<nat>) {
    exists i: nat :: i < |floors| && Holds(floors[i], wing, number) && except != Some(i)
  }

  function Create(s: Site, wing: nat, number: int, name: Option<string>, caller: Option<nat>)
    : (out: Result<Site, Refusal>)
  {
    if wing >= |s.wings| || s.wings[wing].deleted || !Sees(caller, s.wings[wing].society) then Failure(WingNotFound)
    else if !s.wings[wing].active then Failure(WingDeactivated)
    else if Taken(s.floors, wing, number, None) then Failure(NumberTaken)
    else Success(s.(floors := s.floors + [Floor(wing, s.wings[wing].society, number, name, true)]))
  }

  function Moved(flats: seq<Flat>, wing: nat, from: int, to: int): (after: seq<Flat>)
    ensures |after| == |flats|
  {
    seq(|flats|, i requires 0 <= i < |flats| =>
      if Carries(flats[i], wing, from) then flats[i].(floor := Some(to)) else flats[i])
  }

  /** A field left out of the form keeps its value. */
  function Update(s: Site, id: nat, number: Option<int>, name: Option<string>, caller: Option<nat>)
    : (out: Result<Site, Refusal>)
  {
    if !FloorFound(s, id, caller) then Failure(FloorNotFound)
    else
      var floor := s.floors[id];
      var newNumber := if number.Some? then number.value else floor.number;
      if newNumber != floor.number && Taken(s.floors, floor.wing, newNumber, Some(id)) then Failure(NumberTaken)
      else
        var newName := if name.Some? then name else floor.name;
        Success(s.(floors := s.floors[id := floor.(number := newNumber, name := newName)],
                   flats := if newNumber == floor.number then s.flats
                            else Moved(s.flats, floor.wing, floor.number, newNumber)))
  }

  function Delete(s: Site, id: nat, caller: Option<nat>): (out: Result<Site, Refusal>) {
    if !FloorFound(s, id, caller) then Failure(FloorNotFound)
    else if Count(s, id) > 0 then Failure(StillHasFlats(Count(s, id)))
    else Success(s.(floors := s.floors[id := s.floors[id].(active := false)]))
  }

  // ---------------------------------------------------------------- what each step keeps

  /** No two active floors of a wing share a number. */
  ghost predicate NumbersUnique(floors: seq<Floor>) {
    forall i, j :: 0 <= i < j < |floors| && floors[i].active && floors[j].active && floors[i].wing == floors[j].wing ==>
      floors[i].number != floors[j].number
  }

  /** Every floor belongs to its wing's society. */
  ghost predicate SocietyOfWing(s: Site) {
    forall i :: 0 <= i < |s.floors| ==>
      s.floors[i].wing < |s.wings| && s.floors[i].society == s.wings[s.floors[i].wing].society
  }

  /** No active flat of a wing carries a number that no active floor of it has. */
  ghost predicate NoStrays(s: Site) {
    forall k: nat, w: nat, n: int :: k < |s.flats| && Carries(s.flats[k], w, n) ==> Taken(s.floors, w, n, None)
  }

  ghost predicate Orderly(s: Site) {
    NumbersUnique(s.floors) && SocietyOfWing(s)
  }

  /** Creating, renumbering and deleting floors keep the numbers apart and every floor in its wing's society. */
  lemma StepsKeepOrder(s: Site, wing: nat, id: nat, number: int, newNumber: Option<int>, name: Option<string>,
                       caller: Option<nat>)
    requires Orderly(s)
    ensures Create(s, wing, number, name, caller).Success? ==> Orderly(Create(s, wing, number, name, caller).value)
    ensures Update(s, id, newNumber, name, caller).Success? ==> Orderly(Update(s, id, newNumber, name, caller).value)
    ensures Delete(s, id, caller).Success? ==> Orderly(Delete(s, id, caller).value)
  {
  }

  lemma TakenBy(floors: seq<Floor>, i: nat, except: Option<nat>)
    requires i < |floors| && floors[i].active && except != Some(i)
    ensures Taken(floors, floors[i].wing, floors[i].number, except)
  {
  }

  lemma {:induction false} NoneOn(flats: seq<Flat>, wing: nat, number: int)
    ensures FlatsOn(flats, wing, number) == 0 <==> forall k :: 0 <= k < |flats| ==> !Carries(flats[k], wing, number)
  {
    if flats != [] {
      NoneOn(flats[..|flats| - 1], wing, number);
      assert forall k :: 0 <= k < |flats| - 1 ==> flats[k] == flats[..|flats| - 1][k];
    }
  }

  /** The floor screens leave no flat behind on a number without a floor. */
  lemma CreateKeepsHomes(s: Site, wing: nat, number: int, name: Option<string>, caller: Option<nat>)
    requires NoStrays(s) && Create(s, wing, number, name, caller).Success?
    ensures NoStrays(Create(s, wing, number, name, caller).value)
  {
    var s' := Create(s, wing, number, name, caller).value;
    forall k: nat, w: nat, n: int | k < |s'.flats| && Carries(s'.flats[k], w, n)
      ensures Taken(s'.floors, w, n, None)
    {
      assert Carries(s.flats[k], w, n) && Taken(s.floors, w, n, None);
      var i: nat :| i < |s.floors| && Holds(s.floors[i], w, n);
      TakenBy(s'.floors, i, None);
    }
  }

  lemma UpdateKeepsHomes(s: Site, id: nat, number: Option<int>, name: Option<string>, caller: Option<nat>)
    requires NoStrays(s) && Update(s, id, number, name, caller).Success?
    ensures NoStrays(Update(s, id, number, name, caller).value)
  {
    var s' := Update(s, id, number, name, caller).value;
    forall k: nat, w: nat, n: int | k < |s'.flats| && Carries(s'.flats[k], w, n)
      ensures Taken(s'.floors, w, n, None)
    {
      if s'.flats[k] == s.flats[k] {
        assert Carries(s.flats[k], w, n) && Taken(s.floors, w, n, None);
        var i: nat :| i < |s.floors| && Holds(s.floors[i], w, n);
        TakenBy(s'.floors, i, None);
      } else {
        TakenBy(s'.floors, id, None);
      }
    }
  }

  lemma DeleteKeepsHomes(s: Site, id: nat, caller: Option<nat>)
    requires NoStrays(s) && Delete(s, id, caller).Success?
    ensures NoStrays(Delete(s, id, caller).value)
  {
    var s' := Delete(s, id, caller).value;
    NoneOn(s.flats, s.floors[id].wing, s.floors[id].number);
    forall k: nat, w: nat, n: int | k < |s'.flats| && Carries(s'.flats[k], w, n)
      ensures Taken(s'.floors, w, n, None)
    {
      assert Carries(s.flats[k], w, n) && Taken(s.floors, w, n, None);
      var i: nat :| i < |s.floors| && Holds(s.floors[i], w, n);
      assert !Carries(s.flats[k], s.floors[id].wing, s.floors[id].number);
      TakenBy(s'.floors, i, None);
    }
  }

  // ---------------------------------------------------------------- renumbering

  /** What each number of each wing counts after flats moved from one number to another. */
  lemma {:induction false} MovedCounts(flats: seq<Flat>, wing: nat, from: int, to: int, w: nat, n: int)
    requires from != to
    ensures FlatsOn(Moved(flats, wing, from, to), w, n)
            == if w == wing && n == to then FlatsOn(flats, wing, from) + FlatsOn(flats, wing, to)
               else if w == wing && n == from then 0
               else FlatsOn(flats, w, n)
  {
    if flats != [] {
      var front := flats[..|flats| - 1];
      MovedCounts(front, wing, from, to, w, n);
      assert Moved(flats, wing, from, to)[..|flats| - 1] == Moved(front, wing, from, to);
    }
  }

  /**
  Renumbering takes the floor's flats along: it then counts them and the flats that
  already carried the new number without a floor; no other floor's count moves.
  */
  lemma RenumberCounts(s: Site, id: nat, number: int, name: Option<string>, caller: Option<nat>)
    requires NumbersUnique(s.floors) && Update(s, id, Some(number), name, caller).Success?
    ensures var s' := Update(s, id, Some(number), name, caller).value;
            && (number != s.floors[id].number ==>
                  (Count(s', id) == Count(s, id) <==> FlatsOn(s.flats, s.floors[id].wing, number) == 0))
            && Count(s', id) >= Count(s, id)
            && forall j :: 0 <= j < |s.floors| && j != id && s.floors[j].active ==> Count(s', j) == Count(s, j)
  {
    var floor := s.floors[id];
    if number != floor.number {
      MovedCounts(s.flats, floor.wing, floor.number, number, floor.wing, number);
      forall j: nat | j < |s.floors| && j != id && s.floors[j].active
        ensures FlatsOn(Moved(s.flats, floor.wing, floor.number, number), s.floors[j].wing, s.floors[j].number)
                == FlatsOn(s.flats, s.floors[j].wing, s.floors[j].number)
      {
        MovedCounts(s.flats, floor.wing, floor.number, number, s.floors[j].wing, s.floors[j].number);
        assert !Holds(s.floors[j], floor.wing, number);
      }
    }
  }

  /** Renumbering back is always allowed, and undoes everything exactly when no flat carried the new number before. */
  lemma RenumberBackUndoes(s: Site, id: nat, number: int, caller: Option<nat>)
    requires NumbersUnique(s.floors) && Update(s, id, Some(number), None, caller).Success?
    requires number != s.floors[id].number
    ensures var there := Update(s, id, Some(number), None, caller).value;
            var back := Update(there, id, Some(s.floors[id].number), None, caller);
            && back.Success? && back.value.floors == s.floors && back.value.wings == s.wings
            && (back.value == s <==> FlatsOn(s.flats, s.floors[id].wing, number) == 0)
  {
    var floor := s.floors[id];
    var there := Update(s, id, Some(number), None, caller).value;
    forall i: nat | i < |there.floors| && i != id
      ensures !Holds(there.floors[i], floor.wing, floor.number)
    {
      assert there.floors[i] == s.floors[i];
    }
    assert there.floors[id := floor] == s.floors;
    NoneOn(s.flats, floor.wing, number);
    var home := Moved(there.flats, floor.wing, number, floor.number);
    if FlatsOn(s.flats, floor.wing, number) == 0 {
      assert home == s.flats;
    } else {
      var k :| 0 <= k < |s.flats| && Carries(s.flats[k], floor.wing, number);
      assert home[k] != s.flats[k];
    }
  }

  /** A flat without a floor, on number 5, is swept up when floor 3 becomes floor 5 and back again. */
  lemma StrayFlatIsSweptUp()
    ensures var s := Site([Wing(0, true, false)], [Floor(0, 0, 3, None, true)],
                          [Flat(Some(0), Some(3), true), Flat(Some(0), Some(5), true)]);
            var there := Update(s, 0, Some(5), None, Some(0));
            && Orderly(s) && there.Success? && Count(s, 0) == 1 && Count(there.value, 0) == 2
            && var back := Update(there.value, 0, Some(3), None, Some(0));
               back.Success? && back.value.flats == [Flat(Some(0), Some(3), true), Flat(Some(0), Some(3), true)]
               && back.value != s
  {
    var s := Site([Wing(0, true, false)], [Floor(0, 0, 3, None, true)],
                  [Flat(Some(0), Some(3), true), Flat(Some(0), Some(5), true)]);
    var there := Update(s, 0, Some(5), None, Some(0)).value;
    assert s.flats[..1] == [s.flats[0]] && s.flats[..1][..0] == [];
    assert FlatsOn(s.flats[..1], 0, 3) == 1;
    assert there.flats == [Flat(Some(0), Some(5), true), Flat(Some(0), Some(5), true)];
    MovedCounts(s.flats, 0, 3, 5, 0, 5);
    assert FlatsOn(s.flats[..1], 0, 5) == 0;
    var back := Update(there, 0, Some(3), None, Some(0)).value;
    assert back.flats == [Flat(Some(0), Some(3), true), Flat(Some(0), Some(3), true)];
    assert s.flats[1] != back.flats[1];
  }

  /** As long as every numbered flat has its floor, renumbering keeps each floor's flats and can be taken back. */
  lemma OrderlyRenumbering(s: Site, id: nat, number: int, caller: Option<nat>)
    requires NumbersUnique(s.floors) && NoStrays(s) && Update(s, id, Some(number), None, caller).Success?
    ensures var s' := Update(s, id, Some(number), None, caller).value;
            && (forall j :: 0 <= j < |s.floors| && s.floors[j].active ==> Count(s', j) == Count(s, j))
            && Update(s', id, Some(s.floors[id].number), None, caller) == Success(s)
  {
    var floor := s.floors[id];
    if number == floor.number {
      assert s.floors[id := floor] == s.floors;
    } else {
      NoneOn(s.flats, floor.wing, number);
      assert !Taken(s.floors, floor.wing, number, None);
      RenumberCounts(s, id, number, None, caller);
      RenumberBackUndoes(s, id, number, caller);
    }
  }

  // ---------------------------------------------------------------- answers

  /** No active floor of the wing but `but` has the number. */
  predicate Free(s: Site, wing: nat, number: int, but: Option<nat>) {
    forall i: nat :: i < |s.floors| && but != Some(i) && s.floors[i].active && s.floors[i].wing == wing ==>
      s.floors[i].number != number
  }

  /** The caller has no society, or that of the row. */
  predicate OwnRow(caller: Option<nat>, society: nat) {
    caller.Some? ==> caller.value == society
  }

  /** A floor is added exactly to an active wing of the caller's that is not deleted, under a free number. */
  lemma CreationWorks(s: Site, wing: nat, number: int, name: Option<string>, caller: Option<nat>)
    ensures var out := Create(s, wing, number, name, caller);
            && (out.Success? <==> && wing < |s.wings| && !s.wings[wing].deleted && s.wings[wing].active
                                  && OwnRow(caller, s.wings[wing].society) && Free(s, wing, number, None))
            && (out.Success? ==> out.value.wings == s.wings && out.value.flats == s.flats
                                 && out.value.floors
                                    == s.floors + [Floor(wing, s.wings[wing].society, number, name, true)])
            && var found := wing < |s.wings| && !s.wings[wing].deleted && OwnRow(caller, s.wings[wing].society);
               && (out == Failure(WingNotFound) <==> !found)
               && (out == Failure(WingDeactivated) <==> found && !s.wings[wing].active)
               && (out == Failure(NumberTaken) <==> found && s.wings[wing].active && !Free(s, wing, number, None))
  {
    if wing < |s.wings| && !Free(s, wing, number, None) {
      var i: nat :| i < |s.floors| && s.floors[i].active && s.floors[i].wing == wing && s.floors[i].number == number;
      TakenBy(s.floors, i, None);
    }
  }

  /**
  A floor on record is changed exactly when the number it is to have is its own or free. It
  then has the number and name given, and those it had where they were left out; nothing
  else of it or of other floors changes, and a flat moves exactly if it carried the old number.
  */
  lemma ChangeWorks(s: Site, id: nat, number: Option<int>, name: Option<string>, caller: Option<nat>)
    ensures var out := Update(s, id, number, name, caller);
            && (out.Success? <==>
                  && id < |s.floors| && s.floors[id].active && OwnRow(caller, s.floors[id].society)
                  && (number.Some? && number.value != s.floors[id].number ==>
                        Free(s, s.floors[id].wing, number.value, Some(id))))
            && (out.Success? ==> Changed(s, out.value, id, number, name))
            && (out == Failure(FloorNotFound)
                <==> !(id < |s.floors| && s.floors[id].active && OwnRow(caller, s.floors[id].society)))
            && (out.Failure? ==> out.error in {FloorNotFound, NumberTaken})
  {
    if id < |s.floors| && number.Some? && !Free(s, s.floors[id].wing, number.value, Some(id)) {
      var i: nat :| i < |s.floors| && Some(id) != Some(i) && s.floors[i].active
                    && s.floors[i].wing == s.floors[id].wing && s.floors[i].number == number.value;
      TakenBy(s.floors, i, Some(id));
    }
  }

  ghost predicate Changed(s: Site, s': Site, id: nat, number: Option<int>, name: Option<string>)
    requires id < |s.floors|
  {
    && s'.wings == s.wings && |s'.floors| == |s.floors| && |s'.flats| == |s.flats|
    && (forall i :: 0 <= i < |s.floors| && i != id ==> s'.floors[i] == s.floors[i])
    && s'.floors[id].number == (match number case Some(n) => n case None => s.floors[id].number)
    && s'.floors[id].name == (match name case Some(n) => Some(n) case None => s.floors[id].name)
    && s'.floors[id].active && s'.floors[id].wing == s.floors[id].wing && s'.floors[id].society == s.floors[id].society
    && forall k :: 0 <= k < |s.flats| ==>
         if s.flats[k].active && s.flats[k].wing == Some(s.floors[id].wing)
            && s.flats[k].floor == Some(s.floors[id].number)
         then s'.flats[k] == s.flats[k].(floor := Some(s'.floors[id].number))
         else s'.flats[k] == s.flats[k]
  }

  ghost function On(flats: seq<Flat>, wing: nat, number: int): (on: set<nat>) {
    set k: nat | k < |flats| && flats[k].active && flats[k].wing == Some(wing) && flats[k].floor == Some(number)
  }

  /** The number of flats a refused deletion names is that of the active flats of the wing with the number. */
  lemma {:induction false} CountIsExact(flats: seq<Flat>, wing: nat, number: int)
    ensures FlatsOn(flats, wing, number) == |On(flats, wing, number)|
  {
    if flats != [] {
      var n, front := |flats| - 1, flats[..|flats| - 1];
      CountIsExact(front, wing, number);
      assert forall k: nat :: k < n ==> flats[k] == front[k];
      if Carries(flats[n], wing, number) {
        assert On(flats, wing, number) == On(front, wing, number) + {n};
      } else {
        assert On(flats, wing, number) == On(front, wing, number);
      }
    }
  }

  /** A floor is deleted exactly when no active flat of its wing carries its number; only its row changes. */
  lemma DeletionWorks(s: Site, id: nat, caller: Option<nat>)
    ensures var out := Delete(s, id, caller);
            && (out.Success? <==>
                  && id < |s.floors| && s.floors[id].active && OwnRow(caller, s.floors[id].society)
                  && forall k :: 0 <= k < |s.flats| ==>
                       !(s.flats[k].active && s.flats[k].wing == Some(s.floors[id].wing)
                         && s.flats[k].floor == Some(s.floors[id].number)))
            && (out.Success? ==> out.value == s.(floors := s.floors[id := s.floors[id].(active := false)]))
            && (out == Failure(FloorNotFound)
                <==> !(id < |s.floors| && s.floors[id].active && OwnRow(caller, s.floors[id].society)))
            && (out.Failure? && out != Failure(FloorNotFound) ==>
                  out == Failure(StillHasFlats(|On(s.flats, s.floors[id].wing, s.floors[id].number)|)))
  {
    if id < |s.floors| {
      CountIsExact(s.flats, s.floors[id].wing, s.floors[id].number);
      NoneOn(s.flats, s.floors[id].wing, s.floors[id].number);
    }
  }

  // ---------------------------------------------------------------- as the program has it

  class FloorService {
    var wings: seq<Wing>
    var floors: seq<Floor>
    var flats: seq<Flat>

    constructor (site: Site)
      ensures Tables() == site
    {
      wings, floors, flats := site.wings, site.floors, site.flats;
    }

    function Tables(): (site: Site)
      reads this
    {
      Site(wings, floors, flats)
    }

    method CountFlats(id: nat) returns (count: nat)
      requires id < |floors|
      ensures count == Count(Tables(), id)
    {
      count := 0;
      for k := 0 to |flats|
        invariant count == FlatsOn(flats[..k], floors[id].wing, floors[id].number)
      {
        assert flats[..k + 1][..k] == flats[..k];
        if Carries(flats[k], floors[id].wing, floors[id].number) {
          count := count + 1;
        }
      }
      assert flats[..|flats|] == flats;
    }

    method CreateFloor(wing: nat, number: int, name: Option<string>, caller: Option<nat>)
      returns (refusal: Option<Refusal>)
      modifies this`floors
      ensures Answers(Create(old(Tables()), wing, number, name, caller), old(Tables()), Tables(), refusal)
    {
      if wing >= |wings| || wings[wing].deleted || !Sees(caller, wings[wing].society) {
        return Some(WingNotFound);
      }
      if !wings[wing].active {
        return Some(WingDeactivated);
      }
      if Taken(floors, wing, number, None) {
        return Some(NumberTaken);
      }
      floors := floors + [Floor(wing, wings[wing].society, number, name, true)];
      refusal := None;
    }

    method UpdateFloor(id: nat, number: Option<int>, name: Option<string>, caller: Option<nat>)
      returns (refusal: Option<Refusal>)
      modifies this`floors, this`flats
      ensures Answers(Update(old(Tables()), id, number, name, caller), old(Tables()), Tables(), refusal)
    {
      if !FloorFound(Tables(), id, caller) {
        return Some(FloorNotFound);
      }
      var floor := floors[id];
      var renumbered := number.Some? && number.value != floor.number;
      if renumbered {
        if Taken(floors, floor.wing, number.value, Some(id)) {
          return Some(NumberTaken);
        }
        for k := 0 to |flats|
          invariant |flats| == |old(flats)| && floors == old(floors)
          invariant forall i :: 0 <= i < k ==> flats[i] == Moved(old(flats), floor.wing, floor.number, number.value)[i]
          invariant forall i :: k <= i < |flats| ==> flats[i] == old(flats)[i]
        {
          if Carries(flats[k], floor.wing, floor.number) {
            flats := flats[k := flats[k].(floor := number)];
          }
        }
        assert flats == Moved(old(flats), floor.wing, floor.number, number.value);
        floors := floors[id := floors[id].(number := number.value)];
      }
      if name.Some? {
        floors := floors[id := floors[id].(name := name)];
      }
      assert floors == old(floors)[id := floors[id]];
      refusal := None;
    }

    method DeleteFloor(id: nat, caller: Option<nat>) returns (refusal: Option<Refusal>)
      modifies this`floors
      ensures Answers(Delete(old(Tables()), id, caller), old(Tables()), Tables(), refusal)
    {
      if !FloorFound(Tables(), id, caller) {
        return Some(FloorNotFound);
      }
      var count := CountFlats(id);
      if count > 0 {
        return Some(StillHasFlats(count));
      }
      floors := floors[id := floors[id].(active := false)];
      refusal := None;
    }
  }
}
