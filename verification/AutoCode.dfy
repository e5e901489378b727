/** Short codes the program fills in itself. */
module AutoCode {
  import opened Wrappers
  import opened Text
  import Decimal

  const GENERIC: set<string> :=
    {"wing", "block", "tower", "building", "zone", "parking", "area", "floor", "the"}

  predicate Alphanumeric(c: char) {
    'A' <= c <= 'Z' || 'a' <= c <= 'z' || Digit(c)
  }

  /** The first `n` characters are letters and digits. */
  function RunEnd(s: string): (n: nat)
    ensures n <= |s| && forall i :: 0 <= i < n ==> Alphanumeric(s[i])
  {
    if s == "" || !Alphanumeric(s[0]) then 0 else 1 + RunEnd(s[1..])
  }

  /** The runs of letters and digits in a name. */
  function Runs(s: string): (ws: seq<string>)
    ensures forall i :: 0 <= i < |ws| ==> ws[i] != "" && forall j :: 0 <= j < |ws[i]| ==> Alphanumeric(ws[i][j])
    decreases |s|
  {
    if s == "" then []
    else if !Alphanumeric(s[0]) then Runs(s[1..])
    else [s[..RunEnd(s)]] + Runs(s[RunEnd(s)..])
  }

  function Specific(ws: seq<string>): (kept: seq<string>)
    ensures forall w :: w in kept ==> w in ws
  {
    if ws == [] then []
    else (if Lower(ws[0]) in GENERIC then [] else [ws[0]]) + Specific(ws[1..])
  }

  function Initials(ws: seq<string>): (s: string)
    requires forall i :: 0 <= i < |ws| ==> ws[i] != ""
    ensures |s| == |ws| && forall i :: 0 <= i < |s| ==> s[i] == ws[i][0]
  {
    seq(|ws|, i requires 0 <= i < |ws| => ws[i][0])
  }

  /** The words that say which place it is; when none does, all of them, and X for a name without any. */
  function KeptWords(name: string): (kept: seq<string>)
    ensures kept != []
    ensures forall i :: 0 <= i < |kept| ==> kept[i] != "" && forall j :: 0 <= j < |kept[i]| ==> Alphanumeric(kept[i][j])
  {
    var words := Runs(name);
    var specific := Specific(words);
    assert forall i :: 0 <= i < |specific| ==> specific[i] in words;
    if specific != [] then specific else if words != [] then words else ["X"]
  }

  /** The code before any suffix. */
  function Base(name: string, maxLen: nat): (base: string)
    ensures forall i :: 0 <= i < |base| ==> 'A' <= base[i] <= 'Z' || Digit(base[i])
  {
    var kept := KeptWords(name);
    var base := if |kept| == 1 then
                  if |kept[0]| <= maxLen then kept[0] else if |kept[0]| <= 3 then kept[0] else kept[0][..3]
                else
                  var initials := Initials(kept);
                  if |initials| <= maxLen then initials else initials[..maxLen];
    Upper(base)
  }

  /** Before any suffix a code fits the length asked for, or is three characters of a single word. */
  lemma BaseFits(name: string, maxLen: nat)
    ensures |Base(name, maxLen)| <= (if maxLen < 3 then 3 else maxLen)
    ensures maxLen > 0 ==> Base(name, maxLen) != ""
  {
  }

  lemma {:induction false} RunEndOf(w: string, rest: string)
    requires forall i :: 0 <= i < |w| ==> Alphanumeric(w[i])
    requires rest == "" || !Alphanumeric(rest[0])
    ensures RunEnd(w + rest) == |w|
  {
    if w == "" {
      assert w + rest == rest;
    } else {
      assert (w + rest)[1..] == w[1..] + rest;
      RunEndOf(w[1..], rest);
    }
  }

  /** A blank between two names keeps their words apart. */
  lemma {:induction false} RunsApart(a: string, b: string)
    ensures Runs(a + " " + b) == Runs(a) + Runs(b)
    decreases |a|
  {
    if a == "" {
      assert (a + " " + b)[1..] == b;
    } else if !Alphanumeric(a[0]) {
      assert (a + " " + b)[1..] == a[1..] + " " + b;
      RunsApart(a[1..], b);
    } else {
      var n := RunEnd(a);
      var w, rest := a[..n], a[n..];
      assert a == w + rest && a + " " + b == w + (rest + " " + b);
      RunStops(a);
      RunEndOf(w, rest + " " + b);
      RunsApart(rest, b);
      assert (a + " " + b)[..n] == w && (a + " " + b)[n..] == rest + " " + b;
    }
  }

  lemma {:induction false} RunStops(s: string)
    ensures RunEnd(s) < |s| ==> !Alphanumeric(s[RunEnd(s)])
    ensures s != "" && Alphanumeric(s[0]) ==> RunEnd(s) > 0
  {
    if s != "" && Alphanumeric(s[0]) {
      RunStops(s[1..]);
    }
  }

  lemma {:induction false} SpecificApart(a: seq<string>, b: seq<string>)
    ensures Specific(a + b) == Specific(a) + Specific(b)
  {
    if a == [] {
      assert a + b == b;
    } else {
      assert (a + b)[1..] == a[1..] + b;
      SpecificApart(a[1..], b);
    }
  }

  /** Words that say what kind of place it is. */
  predicate SaysKind(w: string) {
    Lower(w) in {"wing", "block", "tower", "building", "zone", "parking", "area", "floor", "the"}
  }

  /** A word: letters and digits only, those of ASCII. */
  predicate CodeWord(w: string) {
    w != "" && forall i :: 0 <= i < |w| ==> InWord(w[i] as int)
  }

  predicate InWord(code: int) {
    48 <= code <= 57 || 65 <= code <= 90 || 97 <= code <= 122
  }

  lemma WordAlone(w: string)
    requires CodeWord(w)
    ensures Runs(w) == [w]
  {
    RunEndOf(w, "");
    assert w + "" == w;
  }

  /** A word of that kind, before or after, adds nothing to the code of a name that says which place it is. */
  lemma KindAddsNothing(name: string, w: string, maxLen: nat)
    requires CodeWord(w) && SaysKind(w)
    requires exists i :: 0 <= i < |Runs(name)| && !SaysKind(Runs(name)[i])
    ensures Base(name + " " + w, maxLen) == Base(name, maxLen)
    ensures Base(w + " " + name, maxLen) == Base(name, maxLen)
  {
    WordAlone(w);
    SomeSpecific(Runs(name));
    NoneSpecific(w);
    RunsApart(name, w);
    SpecificApart(Runs(name), [w]);
    SameBase(name, name + " " + w, maxLen);
    RunsApart(w, name);
    SpecificApart([w], Runs(name));
    SameBase(name, w + " " + name, maxLen);
  }

  lemma NoneSpecific(w: string)
    requires SaysKind(w)
    ensures Specific([w]) == []
  {
    assert [w][1..] == [];
  }

  lemma SameBase(a: string, b: string, maxLen: nat)
    requires Specific(Runs(a)) == Specific(Runs(b)) != []
    ensures Base(a, maxLen) == Base(b, maxLen)
  {
  }

  lemma {:induction false} SomeSpecific(ws: seq<string>)
    requires exists i :: 0 <= i < |ws| && !SaysKind(ws[i])
    ensures Specific(ws) != []
  {
    var i :| 0 <= i < |ws| && !SaysKind(ws[i]);
    if i > 0 {
      assert ws[1..][i - 1] == ws[i];
      SomeSpecific(ws[1..]);
    }
  }

  /** A single word that says which place it is codes as itself, or as its first three characters if too long. */
  lemma SingleWordCode(w: string, maxLen: nat)
    requires CodeWord(w) && !SaysKind(w)
    ensures Base(w, maxLen) == if |w| <= maxLen then Upper(w) else if |w| < 3 then Upper(w) else Upper(w[..3])
  {
    WordAlone(w);
    assert Specific([w]) == [w] + Specific([w][1..]) && [w][1..] == [];
  }

  /** A name of two such words codes as their initials. */
  lemma TwoWordsCode(v: string, w: string, maxLen: nat)
    requires CodeWord(v) && !SaysKind(v)
    requires CodeWord(w) && !SaysKind(w) && maxLen >= 2
    ensures Base(v + " " + w, maxLen) == Upper([v[0], w[0]])
  {
    WordAlone(v);
    WordAlone(w);
    RunsApart(v, w);
    SpecificApart([v], [w]);
    assert Specific([v]) == [v] + Specific([v][1..]) && [v][1..] == [];
    assert Specific([w]) == [w] + Specific([w][1..]) && [w][1..] == [];
    assert KeptWords(v + " " + w) == [v, w];
    assert Initials([v, w]) == [v[0], w[0]];
  }

  /** Two or more such words code as their initials, as many as the code may have. */
  lemma InitialsCode(name: string, maxLen: nat, ws: seq<string>)
    requires ws == Specific(Runs(name)) && |ws| >= 2
    ensures var code := Base(name, maxLen);
            && |code| == (if |ws| <= maxLen then |ws| else maxLen)
            && forall i :: 0 <= i < |code| ==> ws[i] != "" && code[i] == UpperChar(ws[i][0])
  {
    assert forall i :: 0 <= i < |ws| ==> ws[i] in Runs(name);
  }

  /** A name without letters and digits codes as X. */
  lemma NamelessCode(name: string, maxLen: nat)
    requires forall i :: 0 <= i < |name| ==> !InWord(name[i] as int)
    ensures Base(name, maxLen) == "X"
  {
    NoRuns(name);
  }

  lemma {:induction false} NoRuns(name: string)
    requires forall i :: 0 <= i < |name| ==> !InWord(name[i] as int)
    ensures Runs(name) == []
  {
    if name != "" {
      NoRuns(name[1..]);
    }
  }

  /** A name of words of that kind only keeps them all: "Tower" codes as itself. */
  lemma KindAlone(w: string, maxLen: nat)
    requires CodeWord(w) && SaysKind(w) && |w| <= maxLen
    ensures Base(w, maxLen) == Upper(w)
  {
    WordAlone(w);
    assert Specific([w]) == Specific([w][1..]) && [w][1..] == [];
  }

  function Used(taken: seq<string>): (used: set<string>) {
    set t | t in taken && t != "" :: Upper(t)
  }

  /** The n-th code tried: the base itself, then base2, base3 and so on. */
  function Tried(base: string, n: nat): (code: string)
    requires n > 0
  {
    if n == 1 then base else base + Decimal.Print(n)
  }

  lemma TriedInjective(base: string, m: nat, n: nat)
    requires m > 0 && n > 0
    ensures Tried(base, m) == Tried(base, n) <==> m == n
  {
    if m > 1 && n > 1 {
      Decimal.PrintInjective(m, n);
      assert Tried(base, m)[|base|..] == Decimal.Print(m) && Tried(base, n)[|base|..] == Decimal.Print(n);
    }
  }

  /** The code is the first one tried that is not in use. */
  ghost predicate FirstFree(base: string, used: set<string>, code: string) {
    exists n: nat :: FreeAt(base, used, n) && code == Tried(base, n)
  }

  ghost predicate FreeAt(base: string, used: set<string>, n: nat) {
    n > 0 && Tried(base, n) !in used && forall m: nat :: 0 < m < n ==> Tried(base, m) in used
  }

  /** Codes tried before the n-th. */
  ghost predicate TriedBefore(base: string, hit: set<string>, n: nat) {
    forall c :: c in hit ==> exists m: nat :: 0 < m < n && c == Tried(base, m)
  }

  lemma NewTry(base: string, used: set<string>, hit: set<string>, n: nat)
    requires n > 0 && hit <= used && TriedBefore(base, hit, n) && Tried(base, n) in used
    ensures TriedBefore(base, hit + {Tried(base, n)}, n + 1)
    ensures |hit| < |hit + {Tried(base, n)}| <= |used|
  {
    var code := Tried(base, n);
    forall m: nat | 0 < m < n
      ensures code != Tried(base, m)
    {
      TriedInjective(base, m, n);
    }
    assert code !in hit;
    SmallerThan(hit + {code}, used);
  }

  /** The search ends: every code found in use is a different one. */
  method Search(base: string, used: set<string>) returns (code: string, ghost n: nat)
    ensures FreeAt(base, used, n) && code == Tried(base, n)
  {
    var next := 2;
    code := base;
    ghost var hit: set<string> := {};
    while code in used
      invariant next >= 2 && code == Tried(base, next - 1)
      invariant hit <= used && TriedBefore(base, hit, next - 1)
      invariant forall m: nat :: 0 < m < next - 1 ==> Tried(base, m) in used
      decreases |used| - |hit|
    {
      NewTry(base, used, hit, next - 1);
      hit := hit + {code};
      code := base + Decimal.Print(next);
      next := next + 1;
    }
    n := next - 1;
  }

  method ShortCode(name: string, taken: seq<string>, maxLen: nat) returns (code: string)
    ensures FirstFree(Base(name, maxLen), Used(taken), code)
    ensures forall t :: t in taken ==> Upper(t) != Upper(code) || t == ""
  {
    ghost var n;
    var base := Base(name, maxLen);
    code, n := Search(base, Used(taken));
    FreeIgnoringCase(base, taken, n);
  }

  /** A code not in use differs from every code taken, whatever the case. */
  lemma FreeIgnoringCase(base: string, taken: seq<string>, n: nat)
    requires n > 0 && forall i :: 0 <= i < |base| ==> 'A' <= base[i] <= 'Z' || Digit(base[i])
    requires Tried(base, n) !in Used(taken)
    ensures forall t :: t in taken ==> Upper(t) != Upper(Tried(base, n)) || t == ""
  {
    UpperStays(base, n);
    forall t | t in taken && t != ""
      ensures Upper(t) != Upper(Tried(base, n))
    {
      assert Upper(t) in Used(taken);
    }
  }

  lemma SmallerThan<T>(a: set<T>, b: set<T>)
    requires a <= b
    ensures |a| <= |b|
  {
    assert b == a + (b - a);
  }

  /** A code is in upper case already. */
  lemma UpperStays(base: string, n: nat)
    requires n > 0 && forall i :: 0 <= i < |base| ==> 'A' <= base[i] <= 'Z' || Digit(base[i])
    ensures Upper(Tried(base, n)) == Tried(base, n)
  {
  }

  /** Coding names one after another, each time avoiding the codes already given. */
  ghost predicate CodedInTurn(names: seq<string>, taken: seq<string>, maxLen: nat, codes: seq<string>) {
    |codes| == |names|
    && forall i :: 0 <= i < |codes| ==> FirstFree(Base(names[i], maxLen), Used(taken + codes[..i]), codes[i])
  }

  /** Codes given one after another differ from each other and from those taken, whatever the case. */
  lemma CodesInTurnDiffer(names: seq<string>, taken: seq<string>, maxLen: nat, codes: seq<string>, i: nat, j: nat)
    requires CodedInTurn(names, taken, maxLen, codes) && i < j < |codes|
    ensures Upper(codes[i]) != Upper(codes[j]) || codes[i] == ""
    ensures forall t :: t in taken && t != "" ==> Upper(t) != Upper(codes[j])
  {
    var base := Base(names[j], maxLen);
    var used := Used(taken + codes[..j]);
    var n: nat :| FreeAt(base, used, n) && codes[j] == Tried(base, n);
    UpperStays(base, n);
    assert codes[i] == codes[..j][i] && codes[i] in taken + codes[..j];
    assert codes[i] != "" ==> Upper(codes[i]) in used;
    forall t | t in taken && t != ""
      ensures Upper(t) != Upper(codes[j])
    {
      assert t in taken + codes[..j] && Upper(t) in used;
    }
  }

  /** A code is never empty as long as it may have a character. */
  lemma CodeNotEmpty(name: string, taken: seq<string>, maxLen: nat, code: string)
    requires maxLen > 0 && FirstFree(Base(name, maxLen), Used(taken), code)
    ensures code != ""
  {
  }

  // ---------------------------------------------------------------- the next number of a group

  function Numbers(existing: seq<Option<string>>): (numbers: seq<nat>) {
    if existing == [] then []
    else
      Numbers(existing[..|existing| - 1])
      + (match existing[|existing| - 1]
         case None => []
         case Some(code) => if Decimal.Numeric(Strip(code)) then [Decimal.Read(Strip(code))] else [])
  }

  function Max(numbers: seq<nat>): (m: nat)
    requires numbers != []
    ensures m in numbers && forall n :: n in numbers ==> n <= m
  {
    var last := numbers[|numbers| - 1];
    if |numbers| == 1 then last
    else
      var m := Max(numbers[..|numbers| - 1]);
      assert forall n :: n in numbers ==> n == last || n in numbers[..|numbers| - 1];
      if m < last then last else m
  }

  function NextNumberCode(existing: seq<Option<string>>): (next: Option<string>) {
    var numbers := Numbers(existing);
    if numbers == [] then None else Some(Decimal.Print(Max(numbers) + 1))
  }

  predicate IsNumber(code: Option<string>, n: nat) {
    code.Some? && Decimal.Numeric(Strip(code.value)) && Decimal.Read(Strip(code.value)) == n
  }

  /** Some code reads as the number. */
  ghost predicate HasNumber(existing: seq<Option<string>>, n: nat) {
    exists i :: 0 <= i < |existing| && IsNumber(existing[i], n)
  }

  lemma {:induction false} NumbersOf(existing: seq<Option<string>>, n: nat)
    ensures n in Numbers(existing) <==> HasNumber(existing, n)
  {
    if existing != [] {
      var front, last := existing[..|existing| - 1], existing[|existing| - 1];
      NumbersOf(front, n);
      assert existing == front + [last];
      assert HasNumber(existing, n) <==> HasNumber(front, n) || IsNumber(last, n) by {
        if HasNumber(front, n) {
          var i :| 0 <= i < |front| && IsNumber(front[i], n);
          assert IsNumber(existing[i], n);
        }
        if IsNumber(last, n) {
          assert IsNumber(existing[|front|], n);
        }
      }
    }
  }

  /** There is a next number exactly when some code is numeric; it reads as one more than the highest. */
  lemma NextNumberContinues(existing: seq<Option<string>>)
    ensures var next := NextNumberCode(existing);
            && (next.Some? <==> exists n: nat :: HasNumber(existing, n))
            && (next.Some? ==>
                  && Decimal.Numeric(next.value) && Decimal.Read(next.value) > 0
                  && (forall n: nat :: HasNumber(existing, n) ==> n < Decimal.Read(next.value))
                  && HasNumber(existing, Decimal.Read(next.value) - 1))
  {
    var numbers := Numbers(existing);
    forall n: nat
      ensures n in numbers <==> HasNumber(existing, n)
    {
      NumbersOf(existing, n);
    }
    if numbers != [] {
      Decimal.ReadPrint(Max(numbers) + 1);
      assert numbers[0] in numbers;
    }
  }
}
