/**
What importing a sheet of possession dates amounts to: the dry run tells exactly what
the real run does, the real run is one simultaneous update, repeating it changes
nothing, and when the order of the rows does not matter.
*/
module PossessionResults {
  import opened Wrappers
  import opened Text
  import opened Ledger
  import opened PossessionImport
  import opened OccupancyHistory
  import opened OccupancyAnswers
  import FlatLookup

  // ---------------------------------------------------------------- the sheet as a map from flats to dates

  function Targets(rows: seq<Row>, g: Setting): (targets: seq<Option<(nat, Date)>>) {
    seq(|rows|, i requires 0 <= i < |rows| => Target(rows[i], g))
  }

  /** The first target of each flat. */
  function FirstOf(targets: seq<Option<(nat, Date)>>): (dates: map<nat, Date>) {
    if targets == [] then map[]
    else
      var before := FirstOf(targets[..|targets| - 1]);
      var target := targets[|targets| - 1];
      if target.Some? && target.value.0 !in before then before[target.value.0 := target.value.1] else before
  }

  /** The date each flat gets: the first good row of the flat counts. */
  function Dates(rows: seq<Row>, g: Setting): (dates: map<nat, Date>) {
    FirstOf(Targets(rows, g))
  }

  lemma DatesOfFront(rows: seq<Row>, g: Setting)
    requires rows != []
    ensures var before := Dates(rows[..|rows| - 1], g);
            var target := Target(rows[|rows| - 1], g);
            Dates(rows, g) == if target.Some? && target.value.0 !in before
                              then before[target.value.0 := target.value.1] else before
  {
    assert Targets(rows, g)[..|rows| - 1] == Targets(rows[..|rows| - 1], g);
  }

  lemma {:induction false} SeenAreDated(s: Db, rows: seq<Row>, g: Setting, dryRun: bool)
    requires ListsFlats(s, g)
    ensures Import(s, rows, g, dryRun).seen.Keys == Dates(rows, g).Keys
    ensures forall f :: f in Dates(rows, g) ==> f < |s.flats|
  {
    if rows != [] {
      SeenAreDated(s, rows[..|rows| - 1], g, dryRun);
      DatesOfFront(rows, g);
      AcceptedRows(Import(s, rows[..|rows| - 1], g, dryRun).seen, rows[|rows| - 1], g);
    }
  }

  lemma {:induction false} DatesGrow(rows: seq<Row>, g: Setting, k: nat)
    requires k <= |rows|
    ensures forall f :: f in Dates(rows[..k], g) ==> f in Dates(rows, g) && Dates(rows, g)[f] == Dates(rows[..k], g)[f]
    decreases |rows| - k
  {
    if k == |rows| {
      assert rows[..k] == rows;
    } else {
      assert rows[..k + 1][..k] == rows[..k];
      DatesOfFront(rows[..k + 1], g);
      DatesGrow(rows, g, k + 1);
    }
  }

  // ---------------------------------------------------------------- one simultaneous update

  function Handed(s: Db, f: nat, on: Date, today: Date): (flat: Flat)
    requires f < |s.flats|
  {
    s.flats[f].(possession := Some(on),
                status := if PossessionMovesIn(s, f, on, today) then Some(OwnerOccupied) else s.flats[f].status)
  }

  function Settled(s: Db, p: Stay, dates: map<nat, Date>, today: Date): (p': Stay) {
    if p.flat in dates && Waiting(p, p.flat) && PossessionMovesIn(s, p.flat, dates[p.flat], today)
    then p.(moveIn := Some(dates[p.flat])) else p
  }

  /** `s'` is `s` with every dated flat handed over at once, each judged by `s` alone. */
  ghost predicate HandedOver(s: Db, s': Db, dates: map<nat, Date>, today: Date) {
    && |s'.flats| == |s.flats| && |s'.residents| == |s.residents|
    && (forall f :: 0 <= f < |s.flats| ==>
          s'.flats[f] == if f in dates then Handed(s, f, dates[f], today) else s.flats[f])
    && (forall r :: 0 <= r < |s.residents| ==> s'.residents[r] == Settled(s, s.residents[r], dates, today))
    && s'.tenants == s.tenants && s'.agreements == s.agreements && s'.vehicles == s.vehicles
  }

  /** A flat no row has reached yet looks the same to the next row. */
  lemma UntouchedFlat(s: Db, s': Db, dates: map<nat, Date>, f: nat, on: Date, today: Date)
    requires HandedOver(s, s', dates, today) && f < |s.flats| && f !in dates
    ensures forall r :: 0 <= r < |s.residents| ==> (Waiting(s'.residents[r], f) <==> Waiting(s.residents[r], f))
    ensures AnyWaiting(s', f) == AnyWaiting(s, f) && TenantOnBooks(s', f, None) == TenantOnBooks(s, f, None)
    ensures PossessionMovesIn(s', f, on, today) == PossessionMovesIn(s, f, on, today)
    ensures NoteOf(s', f, on, today) == NoteOf(s, f, on, today)
  {
    forall r | 0 <= r < |s.residents|
      ensures Waiting(s'.residents[r], f) <==> Waiting(s.residents[r], f)
    {
      assert s'.residents[r] == Settled(s, s.residents[r], dates, today);
    }
    if AnyWaiting(s, f) {
      var r :| 0 <= r < |s.residents| && Waiting(s.residents[r], f);
      assert Waiting(s'.residents[r], f);
    }
    SameArrivals(s.residents, s'.residents, f, on, |s.residents|);
  }

  lemma {:induction false} SameArrivals(a: seq<Stay>, b: seq<Stay>, f: nat, on: Date, n: nat)
    requires |a| == |b| && n <= |a|
    requires forall r :: 0 <= r < n ==> (Waiting(a[r], f) <==> Waiting(b[r], f))
    ensures Arrivals(a, f, on, n) == Arrivals(b, f, on, n)
  {
    if n > 0 {
      SameArrivals(a, b, f, on, n - 1);
    }
  }

  lemma {:induction false} ArrivalsAreTheWaiting(residents: seq<Stay>, f: nat, on: Date, n: nat)
    requires n <= |residents|
    ensures |Arrivals(residents, f, on, n)| == |set r | 0 <= r < n && Waiting(residents[r], f)|
  {
    if n > 0 {
      ArrivalsAreTheWaiting(residents, f, on, n - 1);
      var before := set r | 0 <= r < n - 1 && Waiting(residents[r], f);
      assert (set r | 0 <= r < n && Waiting(residents[r], f))
             == before + (if Waiting(residents[n - 1], f) then {n - 1} else {});
    }
  }

  /** The number a row reports as moved in is the number of residents whose record the row changes. */
  lemma NoteCountsMoves(s: Db, f: nat, on: Date, today: Date)
    requires f < |s.flats|
    ensures var s' := TakePossession(s, f, on, today);
            var changed := set r | 0 <= r < |s.residents| && s'.residents[r] != s.residents[r];
            match NoteOf(s, f, on, today)
            case MarkedMovedIn(count, day) => count == |changed| && count > 0 && day == on
            case _ => changed == {}
  {
    var s' := TakePossession(s, f, on, today);
    var changed := set r | 0 <= r < |s.residents| && s'.residents[r] != s.residents[r];
    if PossessionMovesIn(s, f, on, today) {
      ArrivalsAreTheWaiting(s.residents, f, on, |s.residents|);
      assert changed == set r | 0 <= r < |s.residents| && Waiting(s.residents[r], f);
      var r :| 0 <= r < |s.residents| && Waiting(s.residents[r], f);
      assert r in changed;
    }
  }

  lemma OneMoreFlat(s: Db, s': Db, dates: map<nat, Date>, f: nat, on: Date, today: Date)
    requires HandedOver(s, s', dates, today) && f < |s.flats| && f !in dates
    ensures HandedOver(s, TakePossession(s', f, on, today), dates[f := on], today)
  {
  }

  /** Row after row, the import amounts to handing every dated flat over at once. */
  lemma {:induction false} ImportIsSimultaneous(s: Db, rows: seq<Row>, g: Setting)
    requires ListsFlats(s, g)
    ensures HandedOver(s, Import(s, rows, g, false).db, Dates(rows, g), g.today)
  {
    if rows != [] {
      var front := rows[..|rows| - 1];
      var row := rows[|rows| - 1];
      ImportIsSimultaneous(s, front, g);
      DatesOfFront(rows, g);
      SeenAreDated(s, front, g, false);
      AcceptedRows(Import(s, front, g, false).seen, row, g);
      var target := Target(row, g);
      if target.Some? && target.value.0 !in Dates(front, g) {
        OneMoreFlat(s, Import(s, front, g, false).db, Dates(front, g), target.value.0, target.value.1, g.today);
      }
    }
  }

  // ---------------------------------------------------------------- dry run

  /** The dry run changes nothing and answers, row for row, what the real run answers. */
  lemma {:induction false} DryRunIsExact(s: Db, rows: seq<Row>, g: Setting)
    requires ListsFlats(s, g)
    ensures Import(s, rows, g, true).db == s
    ensures Import(s, rows, g, true).out == Import(s, rows, g, false).out
    ensures Import(s, rows, g, true).seen == Import(s, rows, g, false).seen
  {
    if rows != [] {
      var front := rows[..|rows| - 1];
      var row := rows[|rows| - 1];
      DryRunIsExact(s, front, g);
      ImportIsSimultaneous(s, front, g);
      DatesOfFront(rows, g);
      SeenAreDated(s, front, g, false);
      AcceptedRows(Import(s, front, g, false).seen, row, g);
      var target := Target(row, g);
      if target.Some? && target.value.0 !in Dates(front, g) {
        UntouchedFlat(s, Import(s, front, g, false).db, Dates(front, g), target.value.0, target.value.1, g.today);
      }
    }
  }

  // ---------------------------------------------------------------- what a row is told

  /** Handing a flat over changes the books exactly when the date is another or somebody is moved in. */
  lemma HandoverChanges(s: Db, f: nat, on: Date, today: Date)
    requires f < |s.flats|
    ensures TakePossession(s, f, on, today) != s
            <==> s.flats[f].possession != Some(on) || PossessionMovesIn(s, f, on, today)
  {
    var s' := TakePossession(s, f, on, today);
    if s.flats[f].possession != Some(on) {
      assert s'.flats[f].possession == Some(on);
    } else if PossessionMovesIn(s, f, on, today) {
      var r :| 0 <= r < |s.residents| && Waiting(s.residents[r], f);
      assert s'.residents[r].moveIn == Some(on) && s.residents[r].moveIn.None?;
    } else {
      assert s.flats[f].(possession := Some(on)) == s.flats[f];
      assert s.flats[f := s.flats[f]] == s.flats;
    }
  }

  lemma NoteMarks(s: Db, f: nat, on: Date, today: Date)
    requires f < |s.flats|
    ensures NoteOf(s, f, on, today).MarkedMovedIn? <==> PossessionMovesIn(s, f, on, today)
  {
    if PossessionMovesIn(s, f, on, today) {
      ArrivalsAreTheWaiting(s.residents, f, on, |s.residents|);
      var waiting := set q | 0 <= q < |s.residents| && Waiting(s.residents[q], f);
      var r :| 0 <= r < |s.residents| && Waiting(s.residents[r], f);
      assert r in waiting;
    }
  }

  /** What a row says of who moves in: the day is ahead, the flat is let, how many moved, or nothing. */
  lemma MessageSays(s: Db, f: nat, on: Date, today: Date)
    requires f < |s.flats|
    ensures var someone := exists r :: 0 <= r < |s.residents| && NotYetIn(s.residents[r], f);
            var s' := TakePossession(s, f, on, today);
            NoteOf(s, f, on, today)
            == if on > today then Message.Noted(DateInFuture)
               else if !someone then NoMessage
               else if TenantKept(s, f, None) then Message.Noted(FlatHasTenant)
               else MarkedMovedIn(|set r | 0 <= r < |s.residents| && s'.residents[r] != s.residents[r]|, on)
  {
    NoteCountsMoves(s, f, on, today);
    NoteMarks(s, f, on, today);
    KeptIsOnBooks(s, f, None);
    assert forall r :: 0 <= r < |s.residents| ==> (NotYetIn(s.residents[r], f) <==> Waiting(s.residents[r], f));
  }

  /**
  A row is answered with an error exactly when it is rejected, and then changes nothing; an
  accepted one is answered as updated exactly when the real run changes the books at it, and
  names the date that was on record.
  */
  lemma RowAnswer(p: Progress, row: Row, g: Setting)
    requires ListsFlats(p.db, g)
    ensures var p' := Step(p, row, g, false);
            var result := p'.out[|p.out|];
            && result.line == row.line
            && result.wing == (if Cleaned(row.wing) == "" then None else Some(Cleaned(row.wing)))
            && result.number == (if Cleaned(row.number) == "" then None else Some(Cleaned(row.number)))
            && (result.status == Error <==> Rejection(p.seen, row, g).Some?)
            && (result.status == Error ==> p'.db == p.db && p'.seen == p.seen && result.previous == None
                                           && result.message == Failed(Rejection(p.seen, row, g).value))
            && (result.status == Updated <==> p'.db != p.db)
            && (result.status != Error ==>
                  && Target(row, g).Some? && Target(row, g).value.0 < |p.db.flats|
                  && result.previous == p.db.flats[Target(row, g).value.0].possession
                  && result.message == NoteOf(p.db, Target(row, g).value.0, Target(row, g).value.1, g.today))
  {
    AcceptedRows(p.seen, row, g);
    if Rejection(p.seen, row, g).None? {
      var (f, on) := Target(row, g).value;
      HandoverChanges(p.db, f, on, g.today);
      NoteMarks(p.db, f, on, g.today);
    }
  }

  /** Every date a row names as previous is the one on record before the whole import. */
  lemma {:induction false} PreviousIsOnRecord(s: Db, rows: seq<Row>, g: Setting, i: nat)
    requires ListsFlats(s, g) && i < |rows|
    ensures var result := Import(s, rows, g, false).out[i];
            result.status != Error ==>
              && Target(rows[i], g).Some? && Target(rows[i], g).value.0 < |s.flats|
              && result.previous == s.flats[Target(rows[i], g).value.0].possession
  {
    var front := rows[..|rows| - 1];
    var p := Import(s, front, g, false);
    if i < |rows| - 1 {
      PreviousIsOnRecord(s, front, g, i);
      RowAnswer(p, rows[|rows| - 1], g);
    } else {
      RowAnswer(p, rows[i], g);
      AcceptedRows(p.seen, rows[i], g);
      SeenAreDated(s, front, g, false);
      ImportIsSimultaneous(s, front, g);
    }
  }

  /** The text is a date the import takes: readable, from 1950 on, at most a year of 366 days ahead. */
  lemma GoodDates(row: Row, g: Setting, day: Date)
    ensures DateOf(row, g) == Success(day)
            <==> Cleaned(row.date) != "" && g.parse(Cleaned(row.date)) == Some(day) && 711858 <= day <= g.today + 366
    ensures DateOf(row, g) == Failure(DateEmpty) <==> Cleaned(row.date) == ""
  {
  }

  /** Row `first` is the first good row of the flat. */
  ghost predicate FirstGood(rows: seq<Row>, g: Setting, first: nat, f: nat) {
    first < |rows| && FirstAt(Targets(rows, g), first, f)
  }

  ghost predicate FirstAt(targets: seq<Option<(nat, Date)>>, first: nat, f: nat) {
    && first < |targets| && targets[first].Some? && targets[first].value.0 == f
    && forall k :: 0 <= k < first && targets[k].Some? ==> targets[k].value.0 != f
  }

  lemma StepNotes(p: Progress, row: Row, g: Setting, dryRun: bool)
    requires ListsFlats(p.db, g)
    ensures Step(p, row, g, dryRun).seen
            == if Target(row, g).Some? && Target(row, g).value.0 !in p.seen
               then p.seen[Target(row, g).value.0 := LineOf(row)] else p.seen
  {
    AcceptedRows(p.seen, row, g);
  }

  function Lines(rows: seq<Row>): (lines: seq<int>) {
    seq(|rows|, i requires 0 <= i < |rows| => LineOf(rows[i]))
  }

  /** The line of the first target of each flat. */
  function Noted(targets: seq<Option<(nat, Date)>>, lines: seq<int>): (noted: map<nat, int>)
    requires |targets| == |lines|
  {
    if targets == [] then map[]
    else
      var last := |targets| - 1;
      OneNoted(Noted(targets[..last], lines[..last]), targets[last], lines[last])
  }

  function OneNoted(noted: map<nat, int>, target: Option<(nat, Date)>, line: int): (noted': map<nat, int>) {
    if target.Some? && target.value.0 !in noted then noted[target.value.0 := line] else noted
  }

  lemma ImportNotes(s: Db, rows: seq<Row>, g: Setting, dryRun: bool)
    requires ListsFlats(s, g) && rows != []
    ensures var row := rows[|rows| - 1];
            Import(s, rows, g, dryRun).seen
            == OneNoted(Import(s, rows[..|rows| - 1], g, dryRun).seen, Target(row, g), LineOf(row))
  {
    StepNotes(Import(s, rows[..|rows| - 1], g, dryRun), rows[|rows| - 1], g, dryRun);
  }

  lemma NotedOfFront(rows: seq<Row>, g: Setting)
    requires rows != []
    ensures var front, row := rows[..|rows| - 1], rows[|rows| - 1];
            Noted(Targets(rows, g), Lines(rows))
            == OneNoted(Noted(Targets(front, g), Lines(front)), Target(row, g), LineOf(row))
  {
    var front := rows[..|rows| - 1];
    assert Targets(rows, g)[..|front|] == Targets(front, g) && Lines(rows)[..|front|] == Lines(front);
  }

  lemma {:induction false} SeenIsNoted(s: Db, rows: seq<Row>, g: Setting, dryRun: bool)
    requires ListsFlats(s, g)
    ensures Import(s, rows, g, dryRun).seen == Noted(Targets(rows, g), Lines(rows))
  {
    if rows != [] {
      SeenIsNoted(s, rows[..|rows| - 1], g, dryRun);
      ImportNotes(s, rows, g, dryRun);
      NotedOfFront(rows, g);
    }
  }

  lemma {:induction false} NotedAtFirst(targets: seq<Option<(nat, Date)>>, lines: seq<int>, f: nat) returns (first: nat)
    requires |targets| == |lines|
    ensures if f in Noted(targets, lines) then FirstAt(targets, first, f) && Noted(targets, lines)[f] == lines[first]
            else forall k :: 0 <= k < |targets| && targets[k].Some? ==> targets[k].value.0 != f
  {
    first := 0;
    if targets != [] {
      var last := |targets| - 1;
      first := NotedAtFirst(targets[..last], lines[..last], f);
      if f !in Noted(targets[..last], lines[..last]) {
        first := last;
      }
    }
  }

  lemma RepeatedIsSeen(seen: map<nat, int>, row: Row, g: Setting)
    requires Rejection(seen, row, g).Some? && Rejection(seen, row, g).value.AppearsAgain?
    ensures FlatOf(row, g).Success? && FlatOf(row, g).value.id in seen
    ensures var card := FlatOf(row, g).value;
            Rejection(seen, row, g) == Some(AppearsAgain(card.wing, card.number, seen[card.id]))
  {
  }

  lemma SeenAtFirst(s: Db, rows: seq<Row>, g: Setting, dryRun: bool, f: nat) returns (first: nat)
    requires ListsFlats(s, g) && f in Import(s, rows, g, dryRun).seen
    ensures FirstGood(rows, g, first, f) && Import(s, rows, g, dryRun).seen[f] == LineOf(rows[first])
  {
    SeenIsNoted(s, rows, g, dryRun);
    first := NotedAtFirst(Targets(rows, g), Lines(rows), f);
  }

  /**
  A row is told it repeats a flat exactly when an earlier row was good and of that flat,
  whatever its own date; otherwise its flat, then its date is what may be wrong with it.
  */
  lemma RepeatsWhen(s: Db, rows: seq<Row>, row: Row, g: Setting, dryRun: bool)
    requires ListsFlats(s, g)
    ensures var why := Rejection(Import(s, rows, g, dryRun).seen, row, g);
            var repeats := FlatOf(row, g).Success? && exists k :: IsOf(rows, g, k, FlatOf(row, g).value.id);
            && (why.Some? && why.value.AppearsAgain? <==> repeats)
            && (FlatOf(row, g).Failure? ==> why == Some(Lookup(FlatOf(row, g).error)))
            && (FlatOf(row, g).Success? && !repeats ==>
                  why == if DateOf(row, g).Failure? then Some(DateOf(row, g).error) else None)
  {
    if FlatOf(row, g).Success? {
      var f := FlatOf(row, g).value.id;
      SeenIsNoted(s, rows, g, dryRun);
      var first := NotedAtFirst(Targets(rows, g), Lines(rows), f);
      assert f in Noted(Targets(rows, g), Lines(rows)) ==> IsOf(rows, g, first, f);
    }
  }

  /** The row is good by itself and of the flat. */
  ghost predicate IsOf(rows: seq<Row>, g: Setting, k: int, f: nat) {
    0 <= k < |rows| && Targets(rows, g)[k].Some? && Targets(rows, g)[k].value.0 == f
  }

  /** A repeated row is told the line of the first good row of its flat. */
  lemma RepeatNamesFirst(s: Db, rows: seq<Row>, row: Row, g: Setting, dryRun: bool, seen: map<nat, int>)
    returns (first: nat)
    requires ListsFlats(s, g) && seen == Import(s, rows, g, dryRun).seen
    requires Rejection(seen, row, g).Some? && Rejection(seen, row, g).value.AppearsAgain?
    ensures FlatOf(row, g).Success? && FirstGood(rows, g, first, FlatOf(row, g).value.id)
    ensures Rejection(seen, row, g)
            == Some(AppearsAgain(FlatOf(row, g).value.wing, FlatOf(row, g).value.number, LineOf(rows[first])))
  {
    RepeatedIsSeen(seen, row, g);
    first := SeenAtFirst(s, rows, g, dryRun, FlatOf(row, g).value.id);
  }

  // ---------------------------------------------------------------- sending the sheet again

  /** A move-in date already on record is never changed by an import. */
  lemma RecordedMoveInsStay(s: Db, rows: seq<Row>, g: Setting, r: nat)
    requires ListsFlats(s, g) && r < |s.residents| && s.residents[r].moveIn.Some?
    ensures Import(s, rows, g, false).db.residents[r] == s.residents[r]
  {
  }

  /** Only active flats of the society get a date. */
  lemma {:induction false} DatedFlatsBelong(s: Db, rows: seq<Row>, g: Setting)
    requires ListsFlats(s, g)
    ensures forall f :: f in Dates(rows, g) ==> Belongs(s, g.society, f)
  {
    if rows != [] {
      DatedFlatsBelong(s, rows[..|rows| - 1], g);
      DatesOfFront(rows, g);
      AcceptedRows(map[], rows[|rows| - 1], g);
    }
  }

  /** An import leaves other societies' flats, deleted flats and whoever is on record there as they are. */
  lemma ImportStaysInSociety(s: Db, rows: seq<Row>, g: Setting, f: nat, r: nat)
    requires ListsFlats(s, g) && f < |s.flats| && !Belongs(s, g.society, f)
    requires r < |s.residents| && s.residents[r].flat == f
    ensures Import(s, rows, g, false).db.flats[f] == s.flats[f]
    ensures Import(s, rows, g, false).db.residents[r] == s.residents[r]
  {
    DatedFlatsBelong(s, rows, g);
    ImportIsSimultaneous(s, rows, g);
  }

  /** In a flat handed over, nobody is left whom the same date would move in. */
  lemma NothingLeftToDo(s: Db, s': Db, dates: map<nat, Date>, f: nat, today: Date)
    requires HandedOver(s, s', dates, today) && f < |s.flats| && f in dates
    ensures !PossessionMovesIn(s', f, dates[f], today)
    ensures TakePossession(s', f, dates[f], today) == s'
    ensures !NoteOf(s', f, dates[f], today).MarkedMovedIn?
  {
  }

  /** What the second sending answers, given what the first did. */
  ghost predicate AnswersAgain(first: RowResult, second: RowResult) {
    if first.status == Error then second == first else second.status == Unchanged
  }

  /**
  Sending the same sheet again on the same day leaves the books as they are, log and
  all; every row that was in error is in the same error, every other row is unchanged.
  */
  lemma ImportIsIdempotent(s: Db, rows: seq<Row>, g: Setting)
    requires ListsFlats(s, g)
    ensures var first := Import(s, rows, g, false);
            var second := Import(first.db, rows, g, false);
            && second.db == first.db
            && forall i :: 0 <= i < |rows| ==> AnswersAgain(first.out[i], second.out[i])
  {
    ImportIsSimultaneous(s, rows, g);
    AgainUpTo(s, Import(s, rows, g, false).db, rows, g, |rows|);
    assert rows[..|rows|] == rows;
  }

  /** A row whose flat is already as the row wants it changes nothing and is rejected as before. */
  lemma RowAgain(p: Progress, q: Progress, row: Row, g: Setting)
    requires ListsFlats(p.db, g) && ListsFlats(q.db, g) && p.seen == q.seen
    requires Target(row, g).Some? && Target(row, g).value.0 !in p.seen ==>
               var (f, on) := Target(row, g).value;
               && f < |q.db.flats| && q.db.flats[f].possession == Some(on)
               && TakePossession(q.db, f, on, g.today) == q.db
               && !NoteOf(q.db, f, on, g.today).MarkedMovedIn?
    ensures var p', q' := Step(p, row, g, false), Step(q, row, g, false);
            && q'.db == q.db && q'.seen == p'.seen
            && q'.out[..|q.out|] == q.out && p'.out[..|p.out|] == p.out
            && AnswersAgain(p'.out[|p.out|], q'.out[|q.out|])
  {
    AcceptedRows(p.seen, row, g);
  }

  lemma TargetDone(s: Db, s': Db, rows: seq<Row>, g: Setting, k: nat)
    requires ListsFlats(s, g) && k < |rows| && HandedOver(s, s', Dates(rows, g), g.today)
    requires Target(rows[k], g).Some? && Target(rows[k], g).value.0 !in Import(s, rows[..k], g, false).seen
    ensures var (f, on) := Target(rows[k], g).value;
            && f < |s'.flats| && s'.flats[f].possession == Some(on)
            && TakePossession(s', f, on, g.today) == s' && !NoteOf(s', f, on, g.today).MarkedMovedIn?
  {
    assert rows[..k + 1][..k] == rows[..k];
    SeenAreDated(s, rows[..k], g, false);
    SeenAreDated(s, rows, g, false);
    DatesOfFront(rows[..k + 1], g);
    DatesGrow(rows, g, k + 1);
    NothingLeftToDo(s, s', Dates(rows, g), Target(rows[k], g).value.0, g.today);
  }

  ghost predicate AllAnswerAgain(first: seq<RowResult>, second: seq<RowResult>) {
    |first| == |second| && forall i :: 0 <= i < |first| ==> AnswersAgain(first[i], second[i])
  }

  /** Over the first `k` rows the second sending changes nothing and answers again. */
  ghost predicate Again(s: Db, s': Db, rows: seq<Row>, g: Setting, k: nat)
    requires ListsFlats(s, g) && ListsFlats(s', g) && k <= |rows|
  {
    var p, q := Import(s, rows[..k], g, false), Import(s', rows[..k], g, false);
    q.db == s' && q.seen == p.seen && AllAnswerAgain(p.out, q.out)
  }

  lemma OneRowAgain(s: Db, s': Db, rows: seq<Row>, g: Setting, k: nat)
    requires ListsFlats(s, g) && ListsFlats(s', g) && k < |rows| && HandedOver(s, s', Dates(rows, g), g.today)
    requires Again(s, s', rows, g, k)
    ensures Again(s, s', rows, g, k + 1)
  {
    assert rows[..k + 1][..k] == rows[..k];
    var p, q := Import(s, rows[..k], g, false), Import(s', rows[..k], g, false);
    if Target(rows[k], g).Some? && Target(rows[k], g).value.0 !in p.seen {
      TargetDone(s, s', rows, g, k);
    }
    RowAgain(p, q, rows[k], g);
    OneMoreAnswer(p.out, q.out, Step(p, rows[k], g, false).out, Step(q, rows[k], g, false).out);
  }

  lemma {:induction false} AgainUpTo(s: Db, s': Db, rows: seq<Row>, g: Setting, k: nat)
    requires ListsFlats(s, g) && ListsFlats(s', g) && k <= |rows|
    requires HandedOver(s, s', Dates(rows, g), g.today)
    ensures Again(s, s', rows, g, k)
  {
    if k > 0 {
      AgainUpTo(s, s', rows, g, k - 1);
      OneRowAgain(s, s', rows, g, k - 1);
    }
  }

  lemma OneMoreAnswer(first: seq<RowResult>, second: seq<RowResult>, first': seq<RowResult>, second': seq<RowResult>)
    requires AllAnswerAgain(first, second) && |first'| == |first| + 1 && |second'| == |second| + 1
    requires first'[..|first|] == first && second'[..|second|] == second
    requires AnswersAgain(first'[|first|], second'[|second|])
    ensures AllAnswerAgain(first', second')
  {
    forall i | 0 <= i < |first'|
      ensures AnswersAgain(first'[i], second'[i])
    {
      assert i < |first| ==> first'[i] == first[i] && second'[i] == second[i];
    }
  }

  // ---------------------------------------------------------------- the order of the rows

  /** No flat is given two different dates. */
  ghost predicate Agreeing(targets: seq<Option<(nat, Date)>>) {
    forall i, j ::
      (0 <= i < |targets| && 0 <= j < |targets| && targets[i].Some? && targets[j].Some?
       && targets[i].value.0 == targets[j].value.0) ==> targets[i] == targets[j]
  }

  /** No two good rows give one flat two different dates. */
  ghost predicate Consistent(rows: seq<Row>, g: Setting) {
    Agreeing(Targets(rows, g))
  }

  ghost predicate SameOutcome(s: Db, rows: seq<Row>, rows': seq<Row>, g: Setting)
    requires ListsFlats(s, g)
  {
    && Import(s, rows, g, false).db.flats == Import(s, rows', g, false).db.flats
    && Import(s, rows, g, false).db.residents == Import(s, rows', g, false).db.residents
  }

  lemma {:induction false} FirstComesFromTargets(targets: seq<Option<(nat, Date)>>)
    ensures forall f :: f in FirstOf(targets) ==> Some((f, FirstOf(targets)[f])) in targets
    ensures forall i :: 0 <= i < |targets| && targets[i].Some? ==> targets[i].value.0 in FirstOf(targets)
  {
    if targets != [] {
      var front := targets[..|targets| - 1];
      FirstComesFromTargets(front);
      assert targets == front + [targets[|targets| - 1]];
      assert forall i :: 0 <= i < |front| ==> targets[i] == front[i];
    }
  }

  lemma TargetsOfRows(rows: seq<Row>, rows': seq<Row>, g: Setting)
    requires multiset(rows) == multiset(rows')
    ensures forall target :: target in Targets(rows', g) ==> target in Targets(rows, g)
  {
    forall target | target in Targets(rows', g)
      ensures target in Targets(rows, g)
    {
      var i :| 0 <= i < |rows'| && Targets(rows', g)[i] == target;
      assert rows'[i] in multiset(rows);
      var j :| 0 <= j < |rows| && rows[j] == rows'[i];
      assert Targets(rows, g)[j] == target;
    }
  }

  lemma SameTargetsSameDates(ts: seq<Option<(nat, Date)>>, ts': seq<Option<(nat, Date)>>)
    requires Agreeing(ts) && forall target :: target in ts <==> target in ts'
    ensures FirstOf(ts) == FirstOf(ts')
  {
    FirstComesFromTargets(ts);
    FirstComesFromTargets(ts');
    forall f | f in FirstOf(ts')
      ensures f in FirstOf(ts) && FirstOf(ts)[f] == FirstOf(ts')[f]
    {
      var j :| 0 <= j < |ts| && ts[j] == Some((f, FirstOf(ts')[f]));
      assert ts[j].value.0 in FirstOf(ts);
      var k :| 0 <= k < |ts| && ts[k] == Some((f, FirstOf(ts)[f]));
    }
    forall f | f in FirstOf(ts)
      ensures f in FirstOf(ts')
    {
      var j :| 0 <= j < |ts'| && ts'[j] == Some((f, FirstOf(ts)[f]));
      assert ts'[j].value.0 in FirstOf(ts');
    }
  }

  /** The row put first. */
  function Fronted(rows: seq<Row>, i: nat): (rows': seq<Row>)
    requires i < |rows|
    ensures multiset(rows') == multiset(rows)
  {
    assert rows == rows[..i] + [rows[i]] + rows[i + 1..];
    [rows[i]] + (rows[..i] + rows[i + 1..])
  }

  lemma {:induction false} FirstWins(targets: seq<Option<(nat, Date)>>)
    requires targets != [] && targets[0].Some?
    ensures targets[0].value.0 in FirstOf(targets) && FirstOf(targets)[targets[0].value.0] == targets[0].value.1
  {
    if |targets| > 1 {
      FirstWins(targets[..|targets| - 1]);
    } else {
      assert targets[..0] == [];
    }
  }

  /**
  Every order of the sheet's rows gives the same possession dates, move-in dates and
  statuses if and only if no two good rows give one flat two different dates.
  */
  lemma OrderDoesNotMatter(s: Db, rows: seq<Row>, g: Setting)
    requires ListsFlats(s, g)
    ensures (forall rows': seq<Row> :: multiset(rows') == multiset(rows) ==> SameOutcome(s, rows, rows', g))
            <==> Consistent(rows, g)
  {
    if Consistent(rows, g) {
      forall rows': seq<Row> | multiset(rows') == multiset(rows)
        ensures SameOutcome(s, rows, rows', g)
      {
        TargetsOfRows(rows, rows', g);
        TargetsOfRows(rows', rows, g);
        SameTargetsSameDates(Targets(rows, g), Targets(rows', g));
        ImportIsSimultaneous(s, rows, g);
        ImportIsSimultaneous(s, rows', g);
      }
    } else {
      var ts := Targets(rows, g);
      var i, j :| 0 <= i < |ts| && 0 <= j < |ts| && ts[i].Some? && ts[j].Some?
                  && ts[i].value.0 == ts[j].value.0 && ts[i] != ts[j];
      FrontedDate(s, rows, g, i);
      FrontedDate(s, rows, g, j);
      assert !(SameOutcome(s, rows, Fronted(rows, i), g) && SameOutcome(s, rows, Fronted(rows, j), g));
    }
  }

  lemma FrontedDate(s: Db, rows: seq<Row>, g: Setting, i: nat)
    requires ListsFlats(s, g) && i < |rows| && Targets(rows, g)[i].Some?
    ensures var f := Targets(rows, g)[i].value.0;
            && f < |s.flats|
            && Import(s, Fronted(rows, i), g, false).db.flats[f].possession == Some(Targets(rows, g)[i].value.1)
  {
    assert Fronted(rows, i)[0] == rows[i];
    FirstWins(Targets(Fronted(rows, i), g));
    SeenAreDated(s, Fronted(rows, i), g, false);
    ImportIsSimultaneous(s, Fronted(rows, i), g);
  }

  // ---------------------------------------------------------------- a sheet that depends on its order

  function OnlyFlat(): (s: Db) {
    Db([Flat(true, 0, "A", None, "101", None, None)], [], [], [], [], [])
  }

  function Dated(date: string): (row: Row) {
    Row(None, Some("A"), Some("101"), Some(date))
  }

  function OnlyListed(today: Date, parse: string -> Option<Date>): (g: Setting) {
    Setting(0, [CardOf(OnlyFlat(), 0)], today, parse)
  }

  lemma WordIsClean(w: string)
    requires IsWord(w)
    ensures Clean(w) == w
  {
    WordsOfJoined([w]);
  }

  lemma OnlyFlatListed(g: Setting)
    requires g == OnlyListed(g.today, g.parse)
    ensures ListsFlats(OnlyFlat(), g)
  {
    assert g.cards[0].id == 0 && HasCard(g.cards, 0);
  }

  lemma OnlyFlatFound(g: Setting, date: string)
    requires g == OnlyListed(g.today, g.parse)
    ensures FlatOf(Dated(date), g) == Success(CardOf(OnlyFlat(), 0))
  {
    WordIsClean("A");
    WordIsClean("101");
    assert FlatLookup.WingMatches(g.cards[0], "A", "101");
    assert FlatLookup.LastInWing(g.cards, "A", "101") == Some(g.cards[0]);
  }

  /** The text is a word that reads as a date within the range. */
  predicate Reads(g: Setting, text: string, day: Date) {
    IsWord(text) && g.parse(text) == Some(day) && EARLIEST_POSSESSION <= day <= g.today + LATEST_AHEAD
  }

  lemma DatedTarget(g: Setting, text: string, day: Date)
    requires g == OnlyListed(g.today, g.parse) && Reads(g, text, day)
    ensures Target(Dated(text), g) == Some((0, day))
  {
    OnlyFlatFound(g, text);
    WordIsClean(text);
  }

  lemma FirstRowCounts(g: Setting, first: string, day: Date, second: Row)
    requires g == OnlyListed(g.today, g.parse) && Reads(g, first, day)
    ensures ListsFlats(OnlyFlat(), g)
    ensures Import(OnlyFlat(), [Dated(first), second], g, false).db.flats[0].possession == Some(day)
  {
    OnlyFlatListed(g);
    DatedTarget(g, first, day);
    var rows := [Dated(first), second];
    FrontedDate(OnlyFlat(), rows, g, 0);
    assert Fronted(rows, 0) == rows;
  }

  /** One flat, two rows, two dates: whichever row comes first counts. */
  lemma TwoRowsTwoOutcomes(g: Setting, one: string, day: Date, other: string, later: Date)
    requires g == OnlyListed(g.today, g.parse) && Reads(g, one, day) && Reads(g, other, later) && day != later
    ensures ListsFlats(OnlyFlat(), g)
    ensures Import(OnlyFlat(), [Dated(one), Dated(other)], g, false).db.flats[0].possession == Some(day)
    ensures Import(OnlyFlat(), [Dated(other), Dated(one)], g, false).db.flats[0].possession == Some(later)
    ensures !Consistent([Dated(one), Dated(other)], g)
  {
    FirstRowCounts(g, one, day, Dated(other));
    FirstRowCounts(g, other, later, Dated(one));
    DatedTarget(g, one, day);
    DatedTarget(g, other, later);
    var ts := Targets([Dated(one), Dated(other)], g);
    assert ts[0] == Some((0, day)) && ts[1] == Some((0, later));
  }

  /** For instance the first of January and the first of February 2020. */
  lemma JanuaryOrFebruary() returns (g: Setting)
    ensures ListsFlats(OnlyFlat(), g)
    ensures var january, february := Dated("2020-01-01"), Dated("2020-02-01");
            && Import(OnlyFlat(), [january, february], g, false).db.flats[0].possession == Some(737425)
            && Import(OnlyFlat(), [february, january], g, false).db.flats[0].possession == Some(737456)
            && !Consistent([january, february], g)
  {
    g := OnlyListed(737500, (text: string) => if text == "2020-01-01" then Some(737425)
                                              else if text == "2020-02-01" then Some(737456) else None);
    assert Reads(g, "2020-01-01", 737425) && Reads(g, "2020-02-01", 737456);
    TwoRowsTwoOutcomes(g, "2020-01-01", 737425, "2020-02-01", 737456);
  }

  // ---------------------------------------------------------------- the import inside a run

  lemma RowIsAStep(p: Progress, row: Row, g: Setting)
    requires ListsFlats(p.db, g)
    ensures Step(p, row, g, false).db == p.db
            || (Target(row, g).Some? && Target(row, g).value.0 < |p.db.flats|
                && Step(p, row, g, false).db
                   == TakePossession(p.db, Target(row, g).value.0, Target(row, g).value.1, g.today))
  {
    AcceptedRows(p.seen, row, g);
  }

  /** A real import is a run of possession steps, so whatever every run keeps it keeps. */
  lemma {:induction false} ImportIsARun(s: Db, rows: seq<Row>, g: Setting) returns (h: seq<Db>, events: seq<Event>)
    requires ListsFlats(s, g)
    ensures History(h, events) && h[0] == s && h[|events|] == Import(s, rows, g, false).db
    ensures forall i :: 0 <= i < |events| ==> events[i].Possession? && events[i].today == g.today
  {
    h, events := [s], [];
    if rows != [] {
      var p := Import(s, rows[..|rows| - 1], g, false);
      var row := rows[|rows| - 1];
      h, events := ImportIsARun(s, rows[..|rows| - 1], g);
      RowIsAStep(p, row, g);
      if Import(s, rows, g, false).db != p.db {
        var e := Possession(Target(row, g).value.0, Target(row, g).value.1, g.today);
        h, events := Longer(h, events, e, Do(p.db, e));
      }
    }
  }
}
