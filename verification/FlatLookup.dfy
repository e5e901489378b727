/** Finding a flat of a society from the wing and flat number a sheet gives. */
module FlatLookup {
  import opened Wrappers
  import opened Text

  /** What the lookup reads of a flat: its id, its wing's name and code, and its number. */
  datatype Card = Card(id: nat, wing: string, code: Option<string>, number: string)

  datatype Problem =
    | NumberRequired | NoSuchFlatInWing(wing: string, number: string) | NoSuchFlat(number: string)
    | InMoreThanOneWing(number: string)

  function CodeKey(c: Card): (key: string) {
    if c.code.Some? && c.code.value != "" then Lower(c.code.value) else Lower(c.wing)
  }

  /** A wing goes by its name and by its code; a blank code is no code. */
  function WingKeys(c: Card): (keys: set<string>) {
    {Lower(c.wing), CodeKey(c)}
  }

  // ---------------------------------------------------------------- a plain scan, as the reference

  predicate NumberMatches(c: Card, number: string) {
    Lower(c.number) == Lower(Clean(number))
  }

  predicate WingMatches(c: Card, wing: string, number: string) {
    NumberMatches(c, number) && Lower(Clean(wing)) in WingKeys(c)
  }

  /** The last card of the list that matches. */
  function LastInWing(cards: seq<Card>, wing: string, number: string): (found: Option<Card>) {
    if cards == [] then None
    else if WingMatches(cards[|cards| - 1], wing, number) then Some(cards[|cards| - 1])
    else LastInWing(cards[..|cards| - 1], wing, number)
  }

  function WithNumber(cards: seq<Card>, number: string): (found: seq<Card>) {
    if cards == [] then []
    else
      WithNumber(cards[..|cards| - 1], number)
      + (if NumberMatches(cards[|cards| - 1], number) then [cards[|cards| - 1]] else [])
  }

  function Scan(cards: seq<Card>, wing: string, number: string): (out: Result<Card, Problem>) {
    if Clean(number) == "" then Failure(NumberRequired)
    else if Clean(wing) != "" then
      match LastInWing(cards, wing, number)
      case Some(c) => Success(c)
      case None => Failure(NoSuchFlatInWing(Clean(wing), Clean(number)))
    else
      var found := WithNumber(cards, number);
      if found == [] then Failure(NoSuchFlat(Clean(number)))
      else if |found| > 1 then Failure(InMoreThanOneWing(Clean(number)))
      else Success(found[0])
  }

  lemma {:induction false} LastInWingFinds(cards: seq<Card>, wing: string, number: string)
    ensures var found := LastInWing(cards, wing, number);
            && (found.Some? <==> exists i :: 0 <= i < |cards| && WingMatches(cards[i], wing, number))
            && (found.Some? ==> found.value in cards && WingMatches(found.value, wing, number))
  {
    if cards != [] && !WingMatches(cards[|cards| - 1], wing, number) {
      var front := cards[..|cards| - 1];
      LastInWingFinds(front, wing, number);
      if i :| 0 <= i < |cards| && WingMatches(cards[i], wing, number) {
        assert front[i] == cards[i];
      }
    }
  }

  predicate OnlyWithNumber(cards: seq<Card>, number: string, i: int) {
    && 0 <= i < |cards| && NumberMatches(cards[i], number)
    && forall j :: 0 <= j < |cards| && NumberMatches(cards[j], number) ==> j == i
  }

  /** None, one or several listed flats carry the number. */
  lemma {:induction false} WithNumberCounts(cards: seq<Card>, number: string)
    ensures var found := WithNumber(cards, number);
            && (found == [] ==> forall i :: 0 <= i < |cards| ==> !NumberMatches(cards[i], number))
            && (|found| == 1 ==> exists i :: OnlyWithNumber(cards, number, i) && found[0] == cards[i])
            && (|found| > 1 ==> exists i, j :: 0 <= i < j < |cards|
                                                && NumberMatches(cards[i], number) && NumberMatches(cards[j], number))
  {
    if cards != [] {
      var n := |cards| - 1;
      var front := cards[..n];
      WithNumberCounts(front, number);
      var before := WithNumber(front, number);
      if NumberMatches(cards[n], number) {
        if before == [] {
          assert OnlyWithNumber(cards, number, n);
        } else if |before| == 1 {
          var i :| OnlyWithNumber(front, number, i);
          assert NumberMatches(cards[i], number) && i < n;
        } else {
          var i, j :| 0 <= i < j < |front| && NumberMatches(front[i], number) && NumberMatches(front[j], number);
          assert NumberMatches(cards[i], number) && NumberMatches(cards[j], number);
        }
      } else if |before| == 1 {
        var i :| OnlyWithNumber(front, number, i) && before[0] == front[i];
        assert OnlyWithNumber(cards, number, i);
      } else if |before| > 1 {
        var i, j :| 0 <= i < j < |front| && NumberMatches(front[i], number) && NumberMatches(front[j], number);
        assert NumberMatches(cards[i], number) && NumberMatches(cards[j], number);
      }
    }
  }

  /** With a wing: found exactly when some flat matches, and then a matching flat, the only one if there is one. */
  lemma ScanWithWing(cards: seq<Card>, wing: string, number: string)
    requires Clean(wing) != "" && Clean(number) != ""
    ensures var out := Scan(cards, wing, number);
            && (out.Success? <==> exists i :: 0 <= i < |cards| && WingMatches(cards[i], wing, number))
            && (out.Success? ==> out.value in cards && WingMatches(out.value, wing, number))
            && (forall i :: 0 <= i < |cards| && WingMatches(cards[i], wing, number)
                            && (forall j :: 0 <= j < |cards| && WingMatches(cards[j], wing, number) ==> j == i)
                            ==> out == Success(cards[i]))
  {
    LastInWingFinds(cards, wing, number);
  }

  /** Without a wing: found exactly when exactly one listed flat carries the number, and then that flat. */
  lemma ScanWithoutWing(cards: seq<Card>, wing: string, number: string)
    requires Clean(wing) == "" && Clean(number) != ""
    ensures var out := Scan(cards, wing, number);
            && (out.Success? <==> exists i :: OnlyWithNumber(cards, number, i))
            && (forall i :: OnlyWithNumber(cards, number, i) ==> out == Success(cards[i]))
  {
    WithNumberCounts(cards, number);
  }

  /** What a wing is called: its name, or its code if it has one, in any case. */
  ghost predicate Calls(text: string, c: Card) {
    && Clean(text) != ""
    && (SameButForCase(Clean(text), c.wing)
        || exists code: string :: c.code == Some(code) && code != "" && SameButForCase(Clean(text), code))
  }

  lemma CalledWhen(text: string, number: string, c: Card)
    requires Clean(text) != ""
    ensures WingMatches(c, text, number) <==> Calls(text, c) && SameButForCase(Clean(number), c.number)
  {
    CaseIgnored(Clean(text), c.wing);
    CaseIgnored(Clean(number), c.number);
    if c.code.Some? {
      CaseIgnored(Clean(text), c.code.value);
      assert c.code == Some(c.code.value);
    }
  }

  /** Where a flat is the only one so called, giving its wing's code or its name, in any case, finds the same flat. */
  lemma CodeAndNameFindTheSame(cards: seq<Card>, i: nat, byCode: string, byName: string, number: string)
    requires i < |cards| && Calls(byCode, cards[i]) && Calls(byName, cards[i])
    requires Clean(number) != "" && SameButForCase(Clean(number), cards[i].number)
    requires forall j :: 0 <= j < |cards| && j != i && SameButForCase(Clean(number), cards[j].number) ==>
               !Calls(byCode, cards[j]) && !Calls(byName, cards[j])
    ensures Scan(cards, byCode, number) == Scan(cards, byName, number) == Success(cards[i])
  {
    forall j | 0 <= j < |cards|
      ensures WingMatches(cards[j], byCode, number) <==> j == i
      ensures WingMatches(cards[j], byName, number) <==> j == i
    {
      CalledWhen(byCode, number, cards[j]);
      CalledWhen(byName, number, cards[j]);
    }
    ScanWithWing(cards, byCode, number);
    ScanWithWing(cards, byName, number);
  }

  predicate OfNumber(c: Card, number: string) {
    SameButForCase(Clean(number), c.number)
  }

  /** Which refusal there is and what it names: no number, none of the number, none in the wing, or several. */
  lemma RefusalSays(cards: seq<Card>, wing: string, number: string)
    ensures var out := Scan(cards, wing, number);
            && (out == Failure(NumberRequired) <==> Clean(number) == "")
            && (out.Failure? && out.error.NoSuchFlatInWing?
                <==> && Clean(number) != "" && Clean(wing) != ""
                     && forall i :: 0 <= i < |cards| ==> !(Calls(wing, cards[i]) && OfNumber(cards[i], number)))
            && (out.Failure? && out.error.NoSuchFlatInWing? ==>
                  out.error.wing == Clean(wing) && out.error.number == Clean(number))
            && (out == Failure(NoSuchFlat(Clean(number)))
                <==> && Clean(number) != "" && Clean(wing) == ""
                     && forall i :: 0 <= i < |cards| ==> !OfNumber(cards[i], number))
            && (out == Failure(InMoreThanOneWing(Clean(number)))
                <==> && Clean(number) != "" && Clean(wing) == ""
                     && exists i, j :: 0 <= i < j < |cards| && OfNumber(cards[i], number) && OfNumber(cards[j], number))
  {
    forall i | 0 <= i < |cards|
      ensures NumberMatches(cards[i], number) <==> OfNumber(cards[i], number)
      ensures Clean(wing) != "" ==>
                (WingMatches(cards[i], wing, number) <==> Calls(wing, cards[i]) && OfNumber(cards[i], number))
    {
      CaseIgnored(Clean(number), cards[i].number);
      if Clean(wing) != "" {
        CalledWhen(wing, number, cards[i]);
      }
    }
    LastInWingFinds(cards, wing, number);
    WithNumberCounts(cards, number);
  }

  // ---------------------------------------------------------------- the indexes

  ghost function LastKeyed(cards: seq<Card>, k: (string, string)): (found: Option<Card>) {
    if cards == [] then None
    else
      var last := cards[|cards| - 1];
      if Lower(last.number) == k.1 && k.0 in WingKeys(last) then Some(last) else LastKeyed(cards[..|cards| - 1], k)
  }

  ghost function Numbered(cards: seq<Card>, k: string): (found: seq<Card>) {
    if cards == [] then []
    else
      var last := cards[|cards| - 1];
      Numbered(cards[..|cards| - 1], k) + (if Lower(last.number) == k then [last] else [])
  }

  ghost predicate IndexedByWing(byWing: map<(string, string), Card>, cards: seq<Card>) {
    forall k :: LastKeyed(cards, k) == if k in byWing then Some(byWing[k]) else None
  }

  ghost predicate IndexedByNumber(byNumber: map<string, seq<Card>>, cards: seq<Card>) {
    forall k :: Numbered(cards, k) == if k in byNumber then byNumber[k] else []
  }

  lemma WingIndexGrows(byWing: map<(string, string), Card>, cards: seq<Card>, c: Card)
    requires IndexedByWing(byWing, cards)
    ensures IndexedByWing(byWing[(Lower(c.wing), Lower(c.number)) := c][(CodeKey(c), Lower(c.number)) := c],
                          cards + [c])
  {
  }

  lemma NumberIndexGrows(byNumber: map<string, seq<Card>>, cards: seq<Card>, c: Card)
    requires IndexedByNumber(byNumber, cards)
    ensures var n := Lower(c.number);
            IndexedByNumber(byNumber[n := (if n in byNumber then byNumber[n] else []) + [c]], cards + [c])
  {
  }

  /** The lookups by key are the scans. */
  lemma {:induction false} KeyedScan(cards: seq<Card>, wing: string, number: string)
    ensures LastKeyed(cards, (Lower(Clean(wing)), Lower(Clean(number)))) == LastInWing(cards, wing, number)
    ensures Numbered(cards, Lower(Clean(number))) == WithNumber(cards, number)
  {
    if cards != [] {
      KeyedScan(cards[..|cards| - 1], wing, number);
    }
  }

  class FlatLookup {
    var byWing: map<(string, string), Card>     // wing name or code, flat number, in lower case
    var byNumber: map<string, seq<Card>>        // flat number, in lower case
    ghost const cards: seq<Card>

    ghost predicate Valid()
      reads this
    {
      IndexedByWing(byWing, cards) && IndexedByNumber(byNumber, cards)
    }

    constructor (listing: seq<Card>)
      ensures Valid() && cards == listing
    {
      cards := listing;
      new;
      byWing, byNumber := map[], map[];
      assert listing[..0] == [];
      for i := 0 to |listing|
        invariant IndexedByWing(byWing, listing[..i])
        invariant IndexedByNumber(byNumber, listing[..i])
      {
        var c := listing[i];
        assert listing[..i] + [c] == listing[..i + 1];
        WingIndexGrows(byWing, listing[..i], c);
        NumberIndexGrows(byNumber, listing[..i], c);
        var number := Lower(c.number);
        byWing := byWing[(Lower(c.wing), number) := c];
        byWing := byWing[(CodeKey(c), number) := c];
        byNumber := byNumber[number := (if number in byNumber then byNumber[number] else []) + [c]];
      }
      assert listing[..|listing|] == listing;
    }

    /** The flat, or why there is none; exactly as a scan of the listing. */
    function Find(wing: string, number: string): (out: Result<Card, Problem>)
      requires Valid()
      reads this
      ensures out == Scan(cards, wing, number)
    {
      KeyedScan(cards, wing, number);
      var w, n := Clean(wing), Clean(number);
      assert LastKeyed(cards, (Lower(w), Lower(n)))
             == if (Lower(w), Lower(n)) in byWing then Some(byWing[(Lower(w), Lower(n))]) else None;
      if n == "" then Failure(NumberRequired)
      else if w != "" then
        if (Lower(w), Lower(n)) in byWing then Success(byWing[(Lower(w), Lower(n))])
        else Failure(NoSuchFlatInWing(w, n))
      else
        var found := if Lower(n) in byNumber then byNumber[Lower(n)] else [];
        if found == [] then Failure(NoSuchFlat(n))
        else if |found| > 1 then Failure(InMoreThanOneWing(n))
        else Success(found[0])
    }
  }
}
