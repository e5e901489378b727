/** Text as the sheets and codes use it; letters and blanks are those of ASCII. */
module Text {
  /** The characters below 128 that separate words: tab to carriage return, the four separators, and space. */
  predicate Blank(c: char) {
    '\U{0009}' <= c <= '\U{000D}' || '\U{001C}' <= c <= '\U{0020}'
  }

  predicate Digit(c: char) {
    '0' <= c <= '9'
  }

  function LowerChar(c: char): (l: char) {
    if 'A' <= c <= 'Z' then c - 'A' + 'a' else c
  }

  function UpperChar(c: char): (u: char) {
    if 'a' <= c <= 'z' then c - 'a' + 'A' else c
  }

  function Lower(s: string): (l: string) {
    seq(|s|, i requires 0 <= i < |s| => LowerChar(s[i]))
  }

  function Upper(s: string): (u: string) {
    seq(|s|, i requires 0 <= i < |s| => UpperChar(s[i]))
  }

  /** The same character, or the same letter in the other case. */
  predicate SameLetter(a: char, b: char) {
    || a == b
    || ('a' <= a <= 'z' && b as int == a as int - 32)
    || ('a' <= b <= 'z' && a as int == b as int - 32)
  }

  /** The same text but for the case of its letters. */
  predicate SameButForCase(s: string, t: string) {
    |s| == |t| && forall i :: 0 <= i < |s| ==> SameLetter(s[i], t[i])
  }

  /** Two texts are the same in lower case exactly when they are the same in upper case, and differ only in case. */
  lemma CaseIgnored(s: string, t: string)
    ensures Lower(s) == Lower(t) <==> SameButForCase(s, t)
    ensures Upper(s) == Upper(t) <==> SameButForCase(s, t)
  {
    assert |Lower(s)| == |s| && |Lower(t)| == |t| && |Upper(s)| == |s| && |Upper(t)| == |t|;
    if Lower(s) == Lower(t) {
      forall i | 0 <= i < |s| ensures SameLetter(s[i], t[i]) {
        assert Lower(s)[i] == Lower(t)[i];
      }
    }
    if Upper(s) == Upper(t) {
      forall i | 0 <= i < |s| ensures SameLetter(s[i], t[i]) {
        assert Upper(s)[i] == Upper(t)[i];
      }
    }
  }

  lemma BlanksAre(c: char)
    ensures Blank(c) <==> c as int in {9, 10, 11, 12, 13, 28, 29, 30, 31, 32}
  {
  }

  /** Without the blanks at either end. */
  function Strip(s: string): (t: string)
    decreases |s|
  {
    if s != "" && Blank(s[0]) then Strip(s[1..])
    else if s != "" && Blank(s[|s| - 1]) then Strip(s[..|s| - 1])
    else s
  }

  // ---------------------------------------------------------------- words

  predicate IsWord(w: string) {
    w != "" && forall i :: 0 <= i < |w| ==> !Blank(w[i])
  }

  /** The first `n` characters from `s` on that are not blank. */
  function WordEnd(s: string): (n: nat)
    ensures n <= |s|
    ensures forall i :: 0 <= i < n ==> !Blank(s[i])
    ensures n < |s| ==> Blank(s[n])
  {
    if s == "" || Blank(s[0]) then 0 else 1 + WordEnd(s[1..])
  }

  /** The words between the blanks. */
  function Words(s: string): (ws: seq<string>)
    ensures forall i :: 0 <= i < |ws| ==> IsWord(ws[i])
    decreases |s|
  {
    if s == "" then []
    else if Blank(s[0]) then Words(s[1..])
    else [s[..WordEnd(s)]] + Words(s[WordEnd(s)..])
  }

  function Joined(ws: seq<string>): (s: string) {
    if ws == [] then "" else if |ws| == 1 then ws[0] else ws[0] + " " + Joined(ws[1..])
  }

  /** Trimmed, inner runs of blanks collapsed to one space. */
  function Clean(s: string): (c: string) {
    Joined(Words(s))
  }

  lemma {:induction false} WordEndOf(w: string, rest: string)
    requires IsWord(w) && (rest == "" || Blank(rest[0]))
    ensures WordEnd(w + rest) == |w|
    decreases |w|
  {
    if |w| == 1 {
      assert (w + rest)[1..] == rest;
    } else {
      assert (w + rest)[1..] == w[1..] + rest;
      WordEndOf(w[1..], rest);
    }
  }

  lemma {:induction false} WordsOfJoined(ws: seq<string>)
    requires forall i :: 0 <= i < |ws| ==> IsWord(ws[i])
    ensures Words(Joined(ws)) == ws
  {
    if |ws| == 1 {
      WordEndOf(ws[0], "");
      assert ws[0] + "" == ws[0];
    } else if |ws| > 1 {
      WordsOfJoined(ws[1..]);
      var rest := " " + Joined(ws[1..]);
      assert Joined(ws) == ws[0] + rest;
      WordEndOf(ws[0], rest);
      assert (ws[0] + rest)[|ws[0]|..] == rest && (ws[0] + rest)[..|ws[0]|] == ws[0];
      assert rest[1..] == Joined(ws[1..]);
    }
  }

  /** Cleaning twice is cleaning once. */
  lemma CleanOnce(s: string)
    ensures Clean(Clean(s)) == Clean(s)
  {
    WordsOfJoined(Words(s));
  }
}
