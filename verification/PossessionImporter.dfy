/** The import as the program runs it: a loop over the rows that writes flats and residents as it goes. */
module PossessionImporter {
  import opened Wrappers
  import opened Text
  import opened Ledger
  import opened PossessionImport
  import FlatLookup
  import Service = OccupancyService

  /** An accepted row: the date is set where it differs, then the waiting residents are moved in. */
  method WriteRow(occupancy: Service.OccupancyService, f: nat, on: Date, today: Date, dryRun: bool)
    returns (changed: bool, message: Message)
    requires f < |occupancy.flats|
    modifies occupancy
    ensures occupancy.Books()
            == if dryRun then old(occupancy.Books()) else TakePossession(old(occupancy.Books()), f, on, today)
    ensures message == NoteOf(old(occupancy.Books()), f, on, today)
    ensures changed == !(old(occupancy.flats)[f].possession == Some(on) && !message.MarkedMovedIn?)
  {
    ghost var before := occupancy.Books();
    var previous := occupancy.flats[f].possession;
    if !dryRun && previous != Some(on) {
      occupancy.flats := occupancy.flats[f := occupancy.flats[f].(possession := Some(on))];
    }
    ghost var dated := occupancy.Books();
    assert !dryRun ==> dated == before.(flats := before.flats[f := before.flats[f].(possession := Some(on))]);
    assert PossessionMovesIn(dated, f, on, today) == PossessionMovesIn(before, f, on, today);
    assert WhyNobody(dated, f, on, today) == WhyNobody(before, f, on, today);
    var moved, note := occupancy.MoveInResidents(f, on, today, dryRun);
    message := MessageOf(moved, on, note);
    changed := previous != Some(on) || moved > 0;
  }

  method ImportRow(occupancy: Service.OccupancyService, lookup: FlatLookup.FlatLookup, seen: map<nat, int>, row: Row,
                   g: Setting, dryRun: bool, ghost out: seq<RowResult>)
    returns (seen': map<nat, int>, result: RowResult)
    requires ListsFlats(occupancy.Books(), g) && lookup.Valid() && lookup.cards == g.cards
    modifies occupancy
    ensures Progress(occupancy.Books(), seen', out + [result])
            == Step(Progress(old(occupancy.Books()), seen, out), row, g, dryRun)
  {
    seen' := seen;
    FoundIsListed(row, g);
    var found := lookup.Find(Cleaned(row.wing), Cleaned(row.number));
    if found.Failure? {
      result := Answer(row, Error, None, Failed(Lookup(found.error)));
    } else if found.value.id in seen {
      result := Answer(row, Error, None,
                       Failed(AppearsAgain(found.value.wing, found.value.number, seen[found.value.id])));
    } else {
      var date := DateOf(row, g);
      if date.Failure? {
        result := Answer(row, Error, None, Failed(date.error));
      } else {
        var f, on := found.value.id, date.value;
        seen' := seen'[f := LineOf(row)];
        var previous := occupancy.flats[f].possession;
        var changed, message := WriteRow(occupancy, f, on, g.today, dryRun);
        result := Answer(row, if changed then Updated else Unchanged, previous, message);
      }
    }
  }

  method ImportPossessionDates(occupancy: Service.OccupancyService, rows: seq<Row>, g: Setting, dryRun: bool)
    returns (out: seq<RowResult>)
    requires ListsFlats(occupancy.Books(), g)
    modifies occupancy
    ensures out == Import(old(occupancy.Books()), rows, g, dryRun).out
    ensures occupancy.Books() == Import(old(occupancy.Books()), rows, g, dryRun).db
  {
    var lookup := new FlatLookup.FlatLookup(g.cards);
    var seen: map<nat, int> := map[];
    out := [];
    ghost var s := occupancy.Books();
    for i := 0 to |rows|
      invariant lookup.Valid() && lookup.cards == g.cards && fresh(lookup)
      invariant Progress(occupancy.Books(), seen, out) == Import(s, rows[..i], g, dryRun)
    {
      assert rows[..i + 1][..i] == rows[..i];
      var result;
      seen, result := ImportRow(occupancy, lookup, seen, rows[i], g, dryRun, out);
      out := out + [result];
    }
    assert rows[..|rows|] == rows;
  }
}
