/** Calendar dates and their "YYYY-MM-DD" text. */
module IsoDate {
  import opened Wrappers
  import opened Text
  import Decimal

  const MIN_YEAR := 1
  const MAX_YEAR := 9999

  datatype Day = Day(year: nat, month: nat, day: nat)

  predicate Leap(year: nat) {
    year % 4 == 0 && (year % 100 != 0 || year % 400 == 0)
  }

  function DaysIn(year: nat, month: nat): (days: nat) {
    if month == 2 then (if Leap(year) then 29 else 28)
    else if month in {4, 6, 9, 11} then 30
    else 31
  }

  predicate Real(d: Day) {
    && MIN_YEAR <= d.year <= MAX_YEAR
    && 1 <= d.month <= 12
    && 1 <= d.day <= DaysIn(d.year, d.month)
  }

  type Date = d: Day | Real(d) witness Day(1, 1, 1)

  // ---------------------------------------------------------------- counting days

  /** Days before a year, by the rule of the calendar. */
  function DaysBefore(year: nat): (days: int) {
    var y := year - 1; 365 * y + y / 4 - y / 100 + y / 400
  }

  function DaysUpTo(year: nat, month: nat): (days: nat) {
    if month == 0 then 0 else DaysUpTo(year, month - 1) + DaysIn(year, month)
  }

  /** The day counted from 1 January of year 1, which is day 1. */
  function Ordinal(d: Day): (n: int) {
    DaysBefore(d.year) + (if d.month > 0 then DaysUpTo(d.year, d.month - 1) else 0) + d.day
  }

  /** The months make up the years of that rule. */
  lemma YearLengths(year: nat)
    requires year > 0
    ensures DaysBefore(year + 1) == DaysBefore(year) + DaysUpTo(year, 12)
  {
    assert DaysUpTo(year, 1) == 31 && DaysUpTo(year, 2) == 31 + DaysIn(year, 2);
    assert DaysUpTo(year, 3) == DaysUpTo(year, 2) + 31 && DaysUpTo(year, 4) == DaysUpTo(year, 3) + 30;
    assert DaysUpTo(year, 5) == DaysUpTo(year, 4) + 31 && DaysUpTo(year, 6) == DaysUpTo(year, 5) + 30;
    assert DaysUpTo(year, 7) == DaysUpTo(year, 6) + 31 && DaysUpTo(year, 8) == DaysUpTo(year, 7) + 31;
    assert DaysUpTo(year, 9) == DaysUpTo(year, 8) + 30 && DaysUpTo(year, 10) == DaysUpTo(year, 9) + 31;
    assert DaysUpTo(year, 11) == DaysUpTo(year, 10) + 30 && DaysUpTo(year, 12) == DaysUpTo(year, 11) + 31;
    FourYears(year);
  }

  /** The first of January 1950, from which possession dates are taken. */
  lemma FirstOf1950()
    ensures Ordinal(Day(1950, 1, 1)) == 711858
  {
  }

  lemma FourYears(year: nat)
    requires year > 0
    ensures year / 4 - (year - 1) / 4 == (if year % 4 == 0 then 1 else 0)
    ensures year / 100 - (year - 1) / 100 == (if year % 100 == 0 then 1 else 0)
    ensures year / 400 - (year - 1) / 400 == (if year % 400 == 0 then 1 else 0)
    ensures year % 100 == 0 ==> year % 4 == 0
    ensures year % 400 == 0 ==> year % 100 == 0
  {
  }

  function Power10(w: nat): (p: nat)
    ensures p > 0
  {
    if w == 0 then 1 else 10 * Power10(w - 1)
  }

  /** `n` in exactly `w` digits, zeros in front; higher digits are lost. */
  function Padded(n: nat, w: nat): (s: string)
    ensures |s| == w && forall i :: 0 <= i < w ==> Digit(s[i])
  {
    if w == 0 then "" else Padded(n / 10, w - 1) + [Decimal.DigitChar(n % 10)]
  }

  lemma {:induction false} ReadPadded(n: nat, w: nat)
    requires n < Power10(w)
    ensures Decimal.Read(Padded(n, w)) == n
  {
    if w > 0 {
      ReadPadded(n / 10, w - 1);
      assert Padded(n, w)[..w - 1] == Padded(n / 10, w - 1);
    }
  }

  lemma {:induction false} PaddedRead(s: string)
    requires forall i :: 0 <= i < |s| ==> Digit(s[i])
    ensures Decimal.Read(s) < Power10(|s|)
    ensures Padded(Decimal.Read(s), |s|) == s
  {
    if s != "" {
      var front, last := s[..|s| - 1], s[|s| - 1];
      PaddedRead(front);
      assert Decimal.Read(s) / 10 == Decimal.Read(front) && Decimal.Read(s) % 10 == Decimal.DigitValue(last);
      assert Decimal.DigitChar(Decimal.DigitValue(last)) == last;
      assert s == front + [last];
    }
  }

  function Format(d: Date): (s: string)
    ensures |s| == 10
  {
    Padded(d.year, 4) + "-" + Padded(d.month, 2) + "-" + Padded(d.day, 2)
  }

  predicate Shaped(s: string) {
    && |s| == 10 && s[4] == '-' && s[7] == '-'
    && (forall i :: 0 <= i < 4 ==> Digit(s[i]))
    && (forall i :: 5 <= i < 7 ==> Digit(s[i]))
    && (forall i :: 8 <= i < 10 ==> Digit(s[i]))
  }

  /** The date whose text this is, if it is one's. */
  function Canonical(s: string): (d: Option<Date>)
  {
    if !Shaped(s) then None
    else
      var d := Day(Decimal.Read(s[..4]), Decimal.Read(s[5..7]), Decimal.Read(s[8..]));
      if Real(d) then Some(d) else None
  }

  /** Every date is the date of its text. */
  lemma CanonicalFormat(d: Date)
    ensures Canonical(Format(d)) == Some(d)
  {
    var s := Format(d);
    var y, m, dd := Padded(d.year, 4), Padded(d.month, 2), Padded(d.day, 2);
    assert s[..4] == y && s[5..7] == m && s[8..] == dd;
    assert forall i :: 0 <= i < 4 ==> s[i] == y[i];
    assert forall i :: 5 <= i < 7 ==> s[i] == m[i - 5];
    assert forall i :: 8 <= i < 10 ==> s[i] == dd[i - 8];
    assert Power10(4) == 10000 && Power10(2) == 100;
    ReadPadded(d.year, 4);
    ReadPadded(d.month, 2);
    ReadPadded(d.day, 2);
  }

  /** And no other text has a date. */
  lemma FormatCanonical(s: string)
    requires Canonical(s).Some?
    ensures Format(Canonical(s).value) == s
  {
    PaddedRead(s[..4]);
    PaddedRead(s[5..7]);
    PaddedRead(s[8..]);
    assert s == s[..4] + "-" + s[5..7] + "-" + s[8..];
  }

  // ---------------------------------------------------------------- how the program reads dates

  /** What becomes of texts that are no date's own: some may be read as dates too. */
  type Reader = string -> Option<Date>

  /** A date's own text is read as that date. */
  function ReadDate(reader: Reader, s: string): (d: Option<Date>) {
    if Canonical(s).Some? then Canonical(s) else reader(s)
  }

  predicate AllDigits(s: string) {
    forall i :: 0 <= i < |s| ==> Digit(s[i])
  }

  /** Eight digits alone are a date as well, as for current versions of Python. */
  function ReadCompact(s: string): (d: Option<Date>) {
    if |s| == 8 && AllDigits(s) then
      var d := Day(Decimal.Read(s[..4]), Decimal.Read(s[4..6]), Decimal.Read(s[6..]));
      if Real(d) then Some(d) else None
    else None
  }

  lemma EightDigits()
    ensures ReadCompact("20200101") == Some(Day(2020, 1, 1)) && Canonical("20200101") == None
  {
    ReadsTwoThousandTwenty();
    assert "20200101"[..4] == "2020" && "20200101"[4..6] == "01" && "20200101"[6..] == "01";
    assert "01"[..1] == "0" && "0"[..0] == "";
  }

  lemma ReadsTwoThousandTwenty()
    ensures Decimal.Read("2020") == 2020
  {
    assert "2020"[..3] == "202" && "202"[..2] == "20" && "20"[..1] == "2" && "2"[..0] == "";
    assert Decimal.Read("2") == 2 && Decimal.Read("20") == 20 && Decimal.Read("202") == 202;
  }
}
