/**
Setting the possession date of many flats from a sheet, row by row, each row's
writes visible to the next.
*/
module PossessionImport {
  import opened Wrappers
  import opened Text
  import opened Ledger
  import FlatLookup

  datatype Row = Row(line: Option<int>, wing: Option<string>, number: Option<string>, date: Option<string>)

  datatype Problem =
    | Lookup(problem: FlatLookup.Problem)
    | AppearsAgain(wing: string, number: string, line: int)
    | DateEmpty | DateMalformed | DateOutOfRange

  datatype Message =
    | NoMessage
    | MarkedMovedIn(count: nat, on: Date)
    | Noted(note: Note)
    | Failed(problem: Problem)

  datatype RowStatus = Updated | Unchanged | Error

  datatype RowResult = RowResult(line: Option<int>, wing: Option<string>, number: Option<string>,
                                 status: RowStatus, previous: Option<Date>, message: Message)

  /** What the import is given besides the rows: the society, the listing, the day, and how a date is read from text. */
  datatype Setting = Setting(society: nat, cards: seq<FlatLookup.Card>, today: Date, parse: string -> Option<Date>)

  const EARLIEST_POSSESSION: Date := 711858   // 1 January 1950, counted in days from 1 January of year 1
  const LATEST_AHEAD := 366

  /** An active flat of the society. */
  predicate Belongs(s: Db, society: nat, f: nat) {
    f < |s.flats| && s.flats[f].active && s.flats[f].society == society
  }

  function CardOf(s: Db, f: nat): (c: FlatLookup.Card)
    requires f < |s.flats|
  {
    FlatLookup.Card(f, s.flats[f].wing, s.flats[f].wingCode, s.flats[f].number)
  }

  ghost predicate HasCard(cards: seq<FlatLookup.Card>, f: nat) {
    exists i :: 0 <= i < |cards| && cards[i].id == f
  }

  /** The lookup is built from the active flats of the society, each listed once, in whatever order. */
  ghost predicate ListsFlats(s: Db, g: Setting) {
    && (forall i :: 0 <= i < |g.cards| ==>
          Belongs(s, g.society, g.cards[i].id) && g.cards[i] == CardOf(s, g.cards[i].id))
    && (forall i, j :: 0 <= i < j < |g.cards| ==> g.cards[i].id != g.cards[j].id)
    && (forall f: nat :: Belongs(s, g.society, f) ==> HasCard(g.cards, f))
  }

  /** Dates and statuses may differ, nothing else of the flats. */
  ghost predicate SameFlats(s: Db, s': Db) {
    && |s'.flats| == |s.flats|
    && forall f :: 0 <= f < |s.flats| ==>
         s'.flats[f].(status := None, possession := None) == s.flats[f].(status := None, possession := None)
  }

  lemma ListingStays(s: Db, s': Db, g: Setting)
    requires ListsFlats(s, g) && SameFlats(s, s')
    ensures ListsFlats(s', g)
  {
    forall f: nat
      ensures Belongs(s', g.society, f) <==> Belongs(s, g.society, f)
      ensures Belongs(s, g.society, f) ==> CardOf(s', f) == CardOf(s, f)
    {
      if f < |s.flats| {
        assert s'.flats[f].(status := None, possession := None) == s.flats[f].(status := None, possession := None);
      }
    }
  }

  lemma TakingKeepsListing(s: Db, f: nat, on: Date, g: Setting)
    requires ListsFlats(s, g) && f < |s.flats|
    ensures var s' := TakePossession(s, f, on, g.today); SameFlats(s, s') && ListsFlats(s', g)
  {
    ListingStays(s, TakePossession(s, f, on, g.today), g);
  }

  function Cleaned(v: Option<string>): (c: string) {
    if v.Some? then Clean(v.value) else ""
  }

  function Named(v: string): (o: Option<string>) {
    if v == "" then None else Some(v)
  }

  /** The possession date a row gives, or what is wrong with it. */
  function DateOf(row: Row, g: Setting): (out: Result<Date, Problem>) {
    var text := Cleaned(row.date);
    if text == "" then Failure(DateEmpty)
    else match g.parse(text)
      case None => Failure(DateMalformed)
      case Some(day) =>
        if day < EARLIEST_POSSESSION || day > g.today + LATEST_AHEAD then Failure(DateOutOfRange) else Success(day)
  }

  /** The flat a row names, or why there is none. */
  function FlatOf(row: Row, g: Setting): (out: Result<FlatLookup.Card, FlatLookup.Problem>) {
    FlatLookup.Scan(g.cards, Cleaned(row.wing), Cleaned(row.number))
  }

  function Given(v: Option<string>): (text: string) {
    if v.Some? then v.value else ""
  }

  /** The lookup cleans what it is given: cleaning the row's wing and number beforehand makes no difference. */
  lemma CleanedFirst(row: Row, g: Setting)
    ensures FlatOf(row, g) == FlatLookup.Scan(g.cards, Given(row.wing), Given(row.number))
  {
    var wing, number := Given(row.wing), Given(row.number);
    CleanOnce(wing);
    CleanOnce(number);
    SameWords(g.cards, wing, number);
  }

  lemma {:induction false} SameWords(cards: seq<FlatLookup.Card>, wing: string, number: string)
    requires Clean(Clean(wing)) == Clean(wing) && Clean(Clean(number)) == Clean(number)
    ensures FlatLookup.LastInWing(cards, Clean(wing), Clean(number)) == FlatLookup.LastInWing(cards, wing, number)
    ensures FlatLookup.WithNumber(cards, Clean(number)) == FlatLookup.WithNumber(cards, number)
  {
    if cards != [] {
      SameWords(cards[..|cards| - 1], wing, number);
    }
  }

  /** A row with a wing finds a flat exactly when an active flat of the society has that wing and number. */
  lemma RowNamesFlat(s: Db, row: Row, g: Setting)
    requires ListsFlats(s, g) && Cleaned(row.wing) != "" && Cleaned(row.number) != ""
    ensures FlatOf(row, g).Success? <==>
              exists f: nat :: Belongs(s, g.society, f)
                               && FlatLookup.WingMatches(CardOf(s, f), Given(row.wing), Given(row.number))
    ensures FlatOf(row, g).Success? ==> Belongs(s, g.society, FlatOf(row, g).value.id)
  {
    var wing, number := Given(row.wing), Given(row.number);
    CleanedFirst(row, g);
    FlatLookup.ScanWithWing(g.cards, wing, number);
    if f: nat :| Belongs(s, g.society, f) && FlatLookup.WingMatches(CardOf(s, f), wing, number) {
      assert HasCard(g.cards, f);
      var i :| 0 <= i < |g.cards| && g.cards[i].id == f;
      assert FlatLookup.WingMatches(g.cards[i], wing, number);
    }
  }

  function MessageOf(moved: nat, on: Date, note: Note): (m: Message) {
    if moved > 0 then MarkedMovedIn(moved, on) else if note == NoNote then NoMessage else Noted(note)
  }

  /** The message a row carries about who is moved in, as the books before it say. */
  function NoteOf(s: Db, f: nat, on: Date, today: Date): (m: Message) {
    MessageOf(if PossessionMovesIn(s, f, on, today) then |Arrivals(s.residents, f, on, |s.residents|)| else 0,
              on, WhyNobody(s, f, on, today))
  }

  function Answer(row: Row, status: RowStatus, previous: Option<Date>, message: Message): (r: RowResult) {
    RowResult(row.line, Named(Cleaned(row.wing)), Named(Cleaned(row.number)), status, previous, message)
  }

  /** The line a repeated row is told about. */
  function LineOf(row: Row): (line: int) {
    if row.line.Some? then row.line.value else 0
  }

  datatype Progress = Progress(db: Db, seen: map<nat, int>, out: seq<RowResult>)

  /** Why a row is in error, given the flats seen so far. */
  function Rejection(seen: map<nat, int>, row: Row, g: Setting): (why: Option<Problem>) {
    match FlatOf(row, g)
    case Failure(why) => Some(Lookup(why))
    case Success(card) =>
      if card.id in seen then Some(AppearsAgain(card.wing, card.number, seen[card.id]))
      else if DateOf(row, g).Failure? then Some(DateOf(row, g).error)
      else None
  }

  /** The flat and the date of a row that is not in error by itself. */
  function Target(row: Row, g: Setting): (target: Option<(nat, Date)>) {
    if FlatOf(row, g).Success? && DateOf(row, g).Success? then Some((FlatOf(row, g).value.id, DateOf(row, g).value))
    else None
  }

  /** A row goes in exactly when it is good by itself and its flat was not seen before. */
  lemma AcceptedRows(seen: map<nat, int>, row: Row, g: Setting)
    ensures Rejection(seen, row, g).None? <==> Target(row, g).Some? && Target(row, g).value.0 !in seen
    ensures Target(row, g).Some? ==> exists i :: 0 <= i < |g.cards| && g.cards[i].id == Target(row, g).value.0
  {
    FoundIsListed(row, g);
  }

  /** One row: the books, the flats seen so far and the results after it. */
  function Step(p: Progress, row: Row, g: Setting, dryRun: bool): (p': Progress)
    requires ListsFlats(p.db, g)
    ensures SameFlats(p.db, p'.db) && ListsFlats(p'.db, g)
    ensures |p'.db.residents| == |p.db.residents| && |p'.out| == |p.out| + 1
  {
    AcceptedRows(p.seen, row, g);
    match Rejection(p.seen, row, g)
    case Some(why) => p.(out := p.out + [Answer(row, Error, None, Failed(why))])
    case None =>
      var (f, on) := Target(row, g).value;
      TakingKeepsListing(p.db, f, on, g);
      var previous := p.db.flats[f].possession;
      var note := NoteOf(p.db, f, on, g.today);
      var status := if previous == Some(on) && !note.MarkedMovedIn? then Unchanged else Updated;
      Progress(if dryRun then p.db else TakePossession(p.db, f, on, g.today),
               p.seen[f := LineOf(row)],
               p.out + [Answer(row, status, previous, note)])
  }

  lemma FoundIsListed(row: Row, g: Setting)
    ensures FlatOf(row, g).Success? ==>
              exists i :: 0 <= i < |g.cards| && g.cards[i] == FlatOf(row, g).value
  {
    var wing, number := Cleaned(row.wing), Cleaned(row.number);
    if Clean(number) != "" {
      if Clean(wing) != "" {
        FlatLookup.ScanWithWing(g.cards, wing, number);
      } else {
        FlatLookup.ScanWithoutWing(g.cards, wing, number);
        if FlatOf(row, g).Success? {
          var i :| FlatLookup.OnlyWithNumber(g.cards, number, i);
        }
      }
    }
  }

  /** The sheet's rows in order. */
  function Import(s: Db, rows: seq<Row>, g: Setting, dryRun: bool): (p: Progress)
    requires ListsFlats(s, g)
    ensures SameFlats(s, p.db) && ListsFlats(p.db, g) && |p.db.residents| == |s.residents|
    ensures |p.out| == |rows|
  {
    if rows == [] then Progress(s, map[], [])
    else Step(Import(s, rows[..|rows| - 1], g, dryRun), rows[|rows| - 1], g, dryRun)
  }
}
