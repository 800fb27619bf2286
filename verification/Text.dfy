/** Decimal numbers and whitespace-separated words, as std::to_string, std::stoi and
    istringstream extraction treat them. A C++ char is a Dafny char throughout. */
module Text {
  import opened Wrappers

  const INT_MAX: int := 0x7FFF_FFFF
  const INT_MIN: int := -0x8000_0000
  const SIZE_LIMIT: int := 0x1_0000_0000_0000_0000

  predicate IsDigit(c: char) {
    '0' <= c <= '9'
  }

  predicate IsSpace(c: char) {
    c == ' ' || c == '\t' || c == '\n' || c == '\r' || c == '\U{000B}' || c == '\U{000C}'
  }

  predicate AllDigits(s: string) {
    forall k :: 0 <= k < |s| ==> IsDigit(s[k])
  }

  function Digit(d: nat): char
    requires d < 10
  {
    '0' + d as char
  }

  /** std::to_string of a non-negative number. */
  function Decimal(n: nat): (s: string)
    ensures s != "" && AllDigits(s)
  {
    if n < 10 then [Digit(n)] else Decimal(n / 10) + [Digit(n % 10)]
  }

  /** The number a run of digits denotes. */
  function Value(s: string): nat
    requires AllDigits(s)
  {
    if s == "" then 0 else 10 * Value(s[..|s| - 1]) + (s[|s| - 1] as int - '0' as int)
  }

  lemma {:induction false} ValueOfDecimal(n: nat)
    ensures Value(Decimal(n)) == n
  {
    if n >= 10 {
      var s := Decimal(n);
      ValueOfDecimal(n / 10);
      assert s[..|s| - 1] == Decimal(n / 10);
    }
  }

  function Pow10(n: nat): nat {
    if n == 0 then 1 else 10 * Pow10(n - 1)
  }

  /** Digits count by position, the first one most. */
  lemma {:induction false} ValueByPosition(a: string, b: string)
    requires AllDigits(a) && AllDigits(b)
    ensures AllDigits(a + b) && Value(a + b) == Value(a) * Pow10(|b|) + Value(b)
    ensures |b| == 1 ==> Value(b) == b[0] as int - '0' as int
    decreases |b|
  {
    if b == "" {
      assert a + b == a;
    } else {
      var init := b[..|b| - 1];
      ValueByPosition(a, init);
      assert (a + b)[..|a + b| - 1] == a + init;
      OneMoreDigit(Value(a), Pow10(|init|), Value(init), b[|b| - 1] as int - '0' as int);
    }
  }

  lemma OneMoreDigit(a: int, p: int, v: int, d: int)
    ensures 10 * (a * p + v) + d == a * (10 * p) + (10 * v + d)
  {
    assert a * (10 * p) == 10 * (a * p);
  }

  /** std::to_string writes the one numeral without leading zeros that denotes its number. */
  lemma {:induction false} DecimalIsCanonical(s: string)
    requires s != "" && AllDigits(s) && (|s| > 1 ==> s[0] != '0')
    ensures Decimal(Value(s)) == s
    ensures |s| > 1 ==> Value(s) >= 10
    decreases |s|
  {
    var init, last := s[..|s| - 1], s[|s| - 1];
    if init != "" {
      DecimalIsCanonical(init);
      assert |init| == 1 ==> Value(init) == init[0] as int - '0' as int && init[0] > '0';
    } else {
      assert Value(s) == last as int - '0' as int;
    }
    assert s == init + [last];
  }

  lemma DecimalInjective(m: nat, n: nat)
    requires Decimal(m) == Decimal(n)
    ensures m == n
  {
    ValueOfDecimal(m);
    ValueOfDecimal(n);
  }

  /** How many leading digits s has. */
  function DigitRun(s: string): (n: nat)
    ensures n <= |s| && AllDigits(s[..n])
    ensures n < |s| ==> !IsDigit(s[n])
  {
    if s == "" || !IsDigit(s[0]) then 0 else
      var n := DigitRun(s[1..]);
      assert s[..n + 1] == [s[0]] + s[1..][..n];
      n + 1
  }

  lemma {:induction false} DigitRunOf(ds: string, rest: string)
    requires AllDigits(ds)
    requires rest == "" || !IsDigit(rest[0])
    ensures DigitRun(ds + rest) == |ds|
    decreases |ds|
  {
    if ds == "" {
      assert ds + rest == rest;
    } else {
      assert (ds + rest)[1..] == ds[1..] + rest;
      DigitRunOf(ds[1..], rest);
    }
  }

  function SkipSpaces(s: string): string {
    if s != "" && IsSpace(s[0]) then SkipSpaces(s[1..]) else s
  }

  /** How many leading characters of s are not whitespace. */
  function WordRun(s: string): (n: nat)
    ensures n <= |s|
    ensures forall k :: 0 <= k < n ==> !IsSpace(s[k])
    ensures n < |s| ==> IsSpace(s[n])
  {
    if s == "" || IsSpace(s[0]) then 0 else 1 + WordRun(s[1..])
  }

  predicate IsWord(w: string) {
    w != "" && forall k :: 0 <= k < |w| ==> !IsSpace(w[k])
  }

  lemma {:induction false} WordRunOf(w: string, rest: string)
    requires forall k :: 0 <= k < |w| ==> !IsSpace(w[k])
    requires rest == "" || IsSpace(rest[0])
    ensures WordRun(w + rest) == |w|
    decreases |w|
  {
    if w == "" {
      assert w + rest == rest;
    } else {
      assert (w + rest)[1..] == w[1..] + rest;
      WordRunOf(w[1..], rest);
    }
  }

  /** `stream >> word`: skip whitespace, take a maximal run of other characters. The
      extraction fails, leaving an empty word, when nothing is left. */
  function NextWord(s: string): (r: (string, string)) {
    var t := SkipSpaces(s);
    var n := WordRun(t);
    (t[..n], t[n..])
  }

  lemma NextWordOf(w: string, rest: string)
    requires IsWord(w)
    requires rest == "" || IsSpace(rest[0])
    ensures NextWord(w + rest) == (w, rest)
    ensures NextWord(" " + w + rest) == (w, rest)
  {
    WordRunOf(w, rest);
    var t := " " + w + rest;
    assert t[1..] == w + rest;
    assert SkipSpaces(t) == SkipSpaces(t[1..]);
    assert SkipSpaces(w + rest) == w + rest;
  }

  /** Splitting "WORD name rest" into its words. */
  lemma TwoWords(word: string, name: string, rest: string)
    requires IsWord(word) && IsWord(name) && (rest == "" || IsSpace(rest[0]))
    ensures NextWord(word + " " + name + rest) == (word, " " + name + rest)
    ensures NextWord(" " + name + rest) == (name, rest)
  {
    NextWordOf(name, rest);
    NextWordOf(word, " " + name + rest);
    assert word + " " + name + rest == word + (" " + name + rest);
  }

  /** t occurs in s. */
  ghost predicate Contains(s: string, t: string) {
    exists a, b :: s == a + t + b
  }

  lemma ContainsAt(s: string, t: string, p: nat)
    requires p + |t| <= |s| && s[p..p + |t|] == t
    ensures Contains(s, t)
  {
    assert s == s[..p] + t + s[p + |t|..];
  }

  predicate IsBlank(s: string) {
    forall k :: 0 <= k < |s| ==> IsSpace(s[k])
  }

  lemma {:induction false} SkipSpacesOf(blanks: string, rest: string)
    requires IsBlank(blanks) && (rest == "" || !IsSpace(rest[0]))
    ensures SkipSpaces(blanks + rest) == rest
    decreases |blanks|
  {
    if blanks == "" {
      assert blanks + rest == rest;
    } else {
      assert (blanks + rest)[1..] == blanks[1..] + rest;
      SkipSpacesOf(blanks[1..], rest);
    }
  }

  lemma {:induction false} SkipSpacesSplits(s: string) returns (blanks: string)
    ensures s == blanks + SkipSpaces(s) && IsBlank(blanks)
    ensures SkipSpaces(s) == "" || !IsSpace(SkipSpaces(s)[0])
    decreases |s|
  {
    blanks := "";
    if s != "" && IsSpace(s[0]) {
      blanks := SkipSpacesSplits(s[1..]);
      blanks := [s[0]] + blanks;
    }
  }

  /** The one way to split s into blanks, a word that ends where a space or the end comes, and the
      rest; the word is empty only if nothing but blanks is there. */
  ghost predicate SplitsAt(s: string, w: string, rest: string) {
    && (exists blanks :: IsBlank(blanks) && s == blanks + w + rest)
    && (forall k :: 0 <= k < |w| ==> !IsSpace(w[k]))
    && (rest == "" || IsSpace(rest[0])) && (w == "" ==> rest == "")
  }

  lemma NextWordAt(s: string, w: string, rest: string)
    requires SplitsAt(s, w, rest)
    ensures NextWord(s) == (w, rest)
  {
    hide IsBlank;
    var blanks :| IsBlank(blanks) && s == blanks + w + rest;
    assert s == blanks + (w + rest);
    SkipSpacesOf(blanks, w + rest);
    WordRunOf(w, rest);
  }

  lemma WordFound(s: string)
    ensures SplitsAt(s, NextWord(s).0, NextWord(s).1)
  {
    hide IsBlank;
    var blanks := SkipSpacesSplits(s);
    var (w, rest) := NextWord(s);
    assert s == blanks + w + rest;
  }

  lemma NextWordSplits(s: string, w: string, rest: string)
    ensures NextWord(s) == (w, rest) <==> SplitsAt(s, w, rest)
  {
    hide NextWord, SplitsAt;
    WordFound(s);
    if SplitsAt(s, w, rest) {
      NextWordAt(s, w, rest);
    }
  }

  /** The sign t starts with, if any. */
  function SignOf(t: string): string {
    if t != "" && (t[0] == '-' || t[0] == '+') then t[..1] else ""
  }

  function Signed(sign: string, ds: string): int
    requires AllDigits(ds)
  {
    var v: int := Value(ds);
    if sign == "-" then -v else v
  }

  /** `stream >> number` as far as the text goes: skip whitespace, an optional sign, then digits.
      The number and what follows it, or None without a digit. */
  function NextNumber(s: string): Option<(int, string)> {
    var t := SkipSpaces(s);
    var u := t[|SignOf(t)|..];
    var n := DigitRun(u);
    if n == 0 then None else Some((Signed(SignOf(t), u[..n]), u[n..]))
  }

  /** A number as text: a sign, or none, in front of digits. */
  predicate IsNumeral(sign: string, ds: string) {
    ds != "" && AllDigits(ds) && (sign == "" || sign == "+" || sign == "-")
  }

  /** Blanks, a numeral whose digits end where something else or the end comes, and the rest. */
  ghost predicate NumberAt(s: string, v: int, rest: string) {
    && (rest == "" || !IsDigit(rest[0]))
    && exists blanks, sign, ds ::
         IsNumeral(sign, ds) && IsBlank(blanks) && s == blanks + (sign + (ds + rest)) && v == Signed(sign, ds)
  }

  lemma NextNumberOf(blanks: string, sign: string, ds: string, rest: string)
    requires IsBlank(blanks) && IsNumeral(sign, ds) && (rest == "" || !IsDigit(rest[0]))
    ensures NextNumber(blanks + (sign + (ds + rest))) == Some((Signed(sign, ds), rest))
  {
    hide Signed;
    var u := ds + rest;
    var t := sign + u;
    assert IsDigit(ds[0]) && u[0] == ds[0];
    SkipSpacesOf(blanks, t);
    DigitRunOf(ds, rest);
    assert SignOf(t) == sign;
    assert t[|sign|..] == u;
  }

  lemma SignSplits(t: string)
    ensures t == SignOf(t) + t[|SignOf(t)|..] && (SignOf(t) == "" || SignOf(t) == "+" || SignOf(t) == "-")
  {
  }

  lemma NumberThere(blanks: string, sign: string, ds: string, rest: string)
    requires IsBlank(blanks) && IsNumeral(sign, ds) && (rest == "" || !IsDigit(rest[0]))
    ensures NumberAt(blanks + (sign + (ds + rest)), Signed(sign, ds), rest)
  {
  }

  lemma NumeralAfter(s: string)
    requires NextNumber(s).Some?
    ensures NumberAt(s, NextNumber(s).value.0, NextNumber(s).value.1)
  {
    hide Signed, SignOf, NumberAt, IsBlank;
    var blanks := SkipSpacesSplits(s);
    var t := SkipSpaces(s);
    SignSplits(t);
    var u := t[|SignOf(t)|..];
    var ds, rest := u[..DigitRun(u)], u[DigitRun(u)..];
    assert u == ds + rest && (rest == "" || rest[0] == u[DigitRun(u)]);
    NumberThere(blanks, SignOf(t), ds, rest);
  }

  lemma NextNumberSplits(s: string, v: int, rest: string)
    ensures NextNumber(s) == Some((v, rest)) <==> NumberAt(s, v, rest)
  {
    hide NextNumber, Signed, IsBlank;
    if NumberAt(s, v, rest) {
      var blanks, sign, ds :|
        IsNumeral(sign, ds) && IsBlank(blanks) && s == blanks + (sign + (ds + rest)) && v == Signed(sign, ds);
      NextNumberOf(blanks, sign, ds, rest);
    }
    if NextNumber(s) == Some((v, rest)) {
      NumeralAfter(s);
    }
  }

  /** `stream >> size`: it fails without a digit or above the largest size_t; a minus sign wraps around. */
  function NextSize(s: string): Option<nat> {
    match NextNumber(s)
    case Some((v, _)) => if -SIZE_LIMIT < v < SIZE_LIMIT then Some(v % SIZE_LIMIT) else None
    case None => None
  }

  lemma DecimalNext(blanks: string, n: nat, rest: string)
    requires IsBlank(blanks) && (rest == "" || !IsDigit(rest[0]))
    ensures NextNumber(blanks + Decimal(n) + rest) == Some((n as int, rest))
  {
    hide NextNumber, Decimal, Value, IsBlank;
    var d := Decimal(n);
    ValueOfDecimal(n);
    NextNumberOf(blanks, "", d, rest);
    assert "" + (d + rest) == d + rest && blanks + (d + rest) == blanks + d + rest;
  }

  lemma NextSizeOf(n: nat)
    requires n < SIZE_LIMIT
    ensures NextSize(" " + Decimal(n)) == Some(n)
  {
    hide NextNumber, Decimal;
    DecimalNext(" ", n, "");
    assert " " + Decimal(n) + "" == " " + Decimal(n);
  }

  /** `stream >> size` on a variable: a word that is no number reads as 0, one too large as the largest size_t. */
  function SizeArgument(s: string): nat {
    match NextSize(s)
    case Some(n) => n
    case None => if NextNumber(s).Some? then SIZE_LIMIT - 1 else 0
  }

  /** A size in range is read as itself, any larger one as the largest size_t. */
  lemma SizeArgumentOf(n: nat)
    ensures SizeArgument(" " + Decimal(n)) == if n < SIZE_LIMIT then n else SIZE_LIMIT - 1
  {
    hide NextNumber, Decimal;
    DecimalNext(" ", n, "");
    assert " " + Decimal(n) + "" == " " + Decimal(n);
  }

  /** What a std::string is to a callee that is handed its c_str(). */
  function CString(s: string): (r: string)
    ensures r <= s && '\0' !in r && (r != s ==> s[|r|] == '\0')
  {
    if s == "" || s[0] == '\0' then "" else [s[0]] + CString(s[1..])
  }

  lemma CStringStops(s: string, rest: string)
    requires '\0' !in s
    ensures CString(s + "\0" + rest) == s
  {
    var all := s + "\0" + rest;
    var r := CString(all);
    assert all[|s|] == '\0';
    assert forall k :: 0 <= k < |s| ==> all[k] == s[k];
    assert r == all[..|r|] && all[|r|] == '\0';
  }

  /** std::stoi: None stands for the exception it throws without a digit or out of range. */
  function Stoi(s: string): Option<int> {
    match NextNumber(s)
    case Some((v, _)) => if INT_MIN <= v <= INT_MAX then Some(v) else None
    case None => None
  }

  lemma StoiOfDecimal(n: nat)
    ensures Stoi(Decimal(n)) == if n <= INT_MAX then Some(n) else None
  {
    hide NextNumber, Decimal;
    DecimalNext("", n, "");
    assert "" + Decimal(n) + "" == Decimal(n);
  }

  lemma StoiAfterSpace(word: string)
    requires IsWord(word)
    ensures SkipSpaces(" " + word) == word == SkipSpaces(word)
    ensures NextNumber(" " + word) == NextNumber(word) && Stoi(" " + word) == Stoi(word)
  {
    assert (" " + word)[1..] == word;
  }

  lemma TwelveReads(blanks: string, sign: string, rest: string)
    requires IsBlank(blanks) && IsNumeral(sign, "12") && (rest == "" || !IsDigit(rest[0]))
    ensures Decimal(12) == "12"
    ensures NextNumber(blanks + (sign + ("12" + rest))) == Some((if sign == "-" then -12 else 12, rest))
  {
    assert Decimal(12) == [Digit(1)] + [Digit(2)] == "12";
    ValueOfDecimal(12);
    NextNumberOf(blanks, sign, "12", rest);
  }

  lemma DecimalTexts()
    ensures Decimal(2) == "2" && Decimal(12) == "12"
  {
    TwelveReads("", "", "");
  }

  /** "12" is twelve, "-12" is not, and what is no number has no value. */
  lemma NumberTexts()
    ensures Decimal(12) == "12" && Value("12") == 12
    ensures Stoi("12") == Some(12) && Stoi("-12") == Some(-12) && Stoi("x").None?
    ensures NextSize(" 12") == Some(12) && NextSize(" -12") == Some(SIZE_LIMIT - 12)
  {
    hide NextNumber;
    ValueOfDecimal(12);
    TwelveReads("", "", "");
    TwelveReads("", "-", "");
    TwelveReads(" ", "", "");
    TwelveReads(" ", "-", "");
    assert "" + ("" + ("12" + "")) == "12" && "" + ("-" + ("12" + "")) == "-12";
    assert " " + ("" + ("12" + "")) == " 12" && " " + ("-" + ("12" + "")) == " -12";
    NoNumber("x");
  }

  lemma NoNumber(word: string)
    requires IsWord(word) && !IsDigit(word[0]) && word[0] != '-' && word[0] != '+'
    ensures NextNumber(word).None?
  {
    assert SkipSpaces(word) == word;
    assert word[0..] == word;
  }

  /** v, or the nearer end of the range if it is outside. */
  function Clamp(v: int, low: int, high: int): int {
    if v < low then low else if v > high then high else v
  }

  /** `stream >> n` on an integer variable of that range: no number reads as 0, one out of range as
      the nearest that fits. */
  function IntArgument(s: string, low: int, high: int): int {
    match NextNumber(s)
    case Some((v, _)) => Clamp(v, low, high)
    case None => 0
  }

  /** `stream >> count` on an int that is 0, as far as a loop up to it can tell. */
  function CountArgument(s: string): nat {
    var n := IntArgument(s, INT_MIN, INT_MAX);
    if n < 0 then 0 else n
  }
}
