/**
 * The three Python string built-ins the core leans on: `str.split()` with no
 * separator, `' '.join(...)`, and `int(str)` in base 10.
 */
module PyText {
  import opened Wrappers

  /** The characters for which Python's `str.isspace()` holds; `split()` and `int()` skip exactly these. */
  predicate IsSpace(c: char) {
    || c == ' '
    || ('\t' <= c <= '\r')
    || ('\U{1c}' <= c <= '\U{1f}')
    || c == '\U{85}' || c == '\U{a0}' || c == '\U{1680}'
    || ('\U{2000}' <= c <= '\U{200a}')
    || c == '\U{2028}' || c == '\U{2029}' || c == '\U{202f}' || c == '\U{205f}' || c == '\U{3000}'
  }

  predicate NoSpace(s: string) {
    forall i :: 0 <= i < |s| ==> !IsSpace(s[i])
  }

  /** A token as `split()` returns it: non-empty and free of whitespace. */
  predicate IsWord(w: string) {
    |w| > 0 && NoSpace(w)
  }

  /** `s.split()`: the maximal runs of non-whitespace characters of `s`, in order. */
  function Split(s: string): (words: seq<string>)
    ensures forall i :: 0 <= i < |words| ==> IsWord(words[i])
  {
    SplitFrom(s, "")
  }

  /** Splits `s` when the characters of `cur` have already been read as the start of the current token. */
  function SplitFrom(s: string, cur: string): (words: seq<string>)
    requires NoSpace(cur)
    ensures forall i :: 0 <= i < |words| ==> IsWord(words[i])
    decreases |s|
  {
    if s == [] then
      (if cur == "" then [] else [cur])
    else if IsSpace(s[0]) then
      (if cur == "" then [] else [cur]) + SplitFrom(s[1..], "")
    else
      SplitFrom(s[1..], cur + [s[0]])
  }

  /** `' '.join(parts)`. */
  function Join(parts: seq<string>): string {
    if |parts| == 0 then ""
    else if |parts| == 1 then parts[0]
    else parts[0] + " " + Join(parts[1..])
  }

  /** The tokens of every part, part after part. */
  function SplitAll(parts: seq<string>): seq<string> {
    if |parts| == 0 then [] else Split(parts[0]) + SplitAll(parts[1..])
  }

  /** A whitespace character ends the token in progress and nothing carries across it. */
  lemma {:induction false} SplitAcrossSpace(a: string, sep: char, b: string, cur: string)
    requires IsSpace(sep) && NoSpace(cur)
    ensures SplitFrom(a + [sep] + b, cur) == SplitFrom(a, cur) + SplitFrom(b, "")
    decreases |a|
  {
    if a == [] {
      assert a + [sep] + b == [sep] + b;
      assert ([sep] + b)[1..] == b;
    } else {
      assert (a + [sep] + b)[0] == a[0];
      assert (a + [sep] + b)[1..] == a[1..] + [sep] + b;
      if IsSpace(a[0]) {
        SplitAcrossSpace(a[1..], sep, b, "");
      } else {
        SplitAcrossSpace(a[1..], sep, b, cur + [a[0]]);
      }
    }
  }

  /** Joining with single spaces and splitting again yields the tokens of each part in order. */
  lemma {:induction false} SplitJoin(parts: seq<string>)
    ensures Split(Join(parts)) == SplitAll(parts)
  {
    if |parts| == 0 {
    } else if |parts| == 1 {
      assert SplitAll(parts[1..]) == [];
    } else {
      SplitAcrossSpace(parts[0], ' ', Join(parts[1..]), "");
      assert parts[0] + " " + Join(parts[1..]) == parts[0] + [' '] + Join(parts[1..]);
      SplitJoin(parts[1..]);
    }
  }

  lemma {:induction false} SplitFromWord(w: string, cur: string)
    requires NoSpace(w) && NoSpace(cur)
    ensures SplitFrom(w, cur) == if cur + w == "" then [] else [cur + w]
    decreases |w|
  {
    if w == [] {
      assert cur + w == cur;
    } else {
      assert cur + [w[0]] + w[1..] == cur + w;
      SplitFromWord(w[1..], cur + [w[0]]);
    }
  }

  /** A single token splits to itself. */
  lemma {:induction false} SplitWord(w: string)
    requires IsWord(w)
    ensures Split(w) == [w]
  {
    SplitFromWord(w, "");
    assert "" + w == w;
  }

  /** Round trip: tokens joined with single spaces split back into the same tokens. */
  lemma {:induction false} SplitJoinWords(words: seq<string>)
    requires forall i :: 0 <= i < |words| ==> IsWord(words[i])
    ensures Split(Join(words)) == words
  {
    SplitJoin(words);
    SplitAllWords(words);
  }

  lemma {:induction false} SplitAllWords(words: seq<string>)
    requires forall i :: 0 <= i < |words| ==> IsWord(words[i])
    ensures SplitAll(words) == words
  {
    if |words| > 0 {
      SplitWord(words[0]);
      SplitAllWords(words[1..]);
    }
  }

  /* ---------------------------------------------------------------- int() */

  predicate IsDigit(c: char) {
    '0' <= c <= '9'
  }

  /** `s.lstrip()`. */
  function TrimStart(s: string): (r: string)
    ensures r == "" || !IsSpace(r[0])
    ensures |r| <= |s| && r == s[|s| - |r|..]
  {
    if |s| > 0 && IsSpace(s[0]) then TrimStart(s[1..]) else s
  }

  /** `s.rstrip()`. */
  function TrimEnd(s: string): (r: string)
    ensures r == "" || !IsSpace(r[|r| - 1])
    ensures |r| <= |s| && r == s[..|r|]
  {
    if |s| > 0 && IsSpace(s[|s| - 1]) then TrimEnd(s[..|s| - 1]) else s
  }

  /** `s.strip()`. */
  function Strip(s: string): string {
    TrimEnd(TrimStart(s))
  }

  /**
   * A base-10 digit string as `int()` accepts it: ASCII digits, where an
   * underscore may stand only between two digits.
   */
  predicate WellFormedDigits(d: string) {
    && |d| > 0
    && (forall i :: 0 <= i < |d| ==> IsDigit(d[i]) || d[i] == '_')
    && (forall i :: 0 <= i < |d| && d[i] == '_' ==> 0 < i < |d| - 1 && IsDigit(d[i - 1]) && IsDigit(d[i + 1]))
  }

  /** The number the digits of `d` spell, underscores ignored. */
  function DigitsValue(d: string): nat {
    if d == [] then 0
    else if IsDigit(d[|d| - 1]) then 10 * DigitsValue(d[..|d| - 1]) + (d[|d| - 1] as int - '0' as int)
    else DigitsValue(d[..|d| - 1])
  }

  /**
   * CPython's default `sys.get_int_max_str_digits()`: `int()` of a decimal
   * string with more digits than this raises `ValueError`.
   */
  const MAX_STR_DIGITS: nat := 4300

  /** How many digits `d` holds, underscores not counted. */
  function DigitCount(d: string): nat {
    if d == [] then 0
    else DigitCount(d[..|d| - 1]) + (if IsDigit(d[|d| - 1]) then 1 else 0)
  }

  function Pow10(n: nat): nat {
    if n == 0 then 1 else 10 * Pow10(n - 1)
  }

  /** The digits `int()` accepts: well formed, and no more of them than the limit. */
  predicate Accepted(d: string) {
    WellFormedDigits(d) && DigitCount(d) <= MAX_STR_DIGITS
  }

  /**
   * `int(s)`: surrounding whitespace stripped, an optional sign, then digits;
   * `None` where Python raises `ValueError`. Because of the digit limit, the
   * decimal numeral of every value it returns has at most 4300 digits.
   */
  function ParseInt(s: string): (r: Option<int>)
    ensures r.Some? ==> |ShowNat(if r.value < 0 then -r.value else r.value)| <= MAX_STR_DIGITS
  {
    var t := Strip(s);
    if |t| > 0 && (t[0] == '+' || t[0] == '-') then
      if Accepted(t[1..]) then
        var v: int := DigitsValue(t[1..]);
        AcceptedFits(t[1..]);
        Some(if t[0] == '-' then -v else v)
      else None
    else if Accepted(t) then
      AcceptedFits(t);
      Some(DigitsValue(t))
    else None
  }

  /** The number spelled by `d` has no more digits than `d`. */
  lemma {:induction false} DigitsValueBound(d: string)
    ensures DigitsValue(d) < Pow10(DigitCount(d))
  {
    if d != [] {
      var init := d[..|d| - 1];
      DigitsValueBound(init);
      if IsDigit(d[|d| - 1]) {
        assert DigitsValue(init) + 1 <= Pow10(DigitCount(init));
        assert 10 * DigitsValue(init) + 10 <= 10 * Pow10(DigitCount(init));
      }
    }
  }

  /** A number below `10^c` is written with at most `c` digits. */
  lemma {:induction false} ShowNatLength(v: nat, c: nat)
    requires c >= 1 && v < Pow10(c)
    ensures |ShowNat(v)| <= c
  {
    if v >= 10 {
      assert Pow10(1) == 10;
      assert v / 10 < Pow10(c - 1) by {
        assert Pow10(c) == 10 * Pow10(c - 1);
      }
      ShowNatLength(v / 10, c - 1);
    }
  }

  lemma {:induction false} AcceptedFits(d: string)
    requires Accepted(d)
    ensures |ShowNat(DigitsValue(d))| <= MAX_STR_DIGITS
  {
    assert IsDigit(d[|d| - 1]);
    DigitsValueBound(d);
    ShowNatLength(DigitsValue(d), DigitCount(d));
  }

  /** The decimal numeral of `n` as `str(n)` writes it. */
  function ShowNat(n: nat): (d: string)
    ensures |d| > 0 && forall i :: 0 <= i < |d| ==> IsDigit(d[i])
  {
    var last := ['0' + (n % 10) as char];
    if n < 10 then last else ShowNat(n / 10) + last
  }

  function ShowInt(n: int): string {
    if n < 0 then "-" + ShowNat(-n) else ShowNat(n)
  }

  lemma {:induction false} ShowNatValue(n: nat)
    ensures DigitsValue(ShowNat(n)) == n
  {
    var d := ShowNat(n);
    if n >= 10 {
      ShowNatValue(n / 10);
      assert d[..|d| - 1] == ShowNat(n / 10);
    }
  }

  lemma {:induction false} StripNoSpaceEnds(s: string)
    requires |s| > 0 && !IsSpace(s[0]) && !IsSpace(s[|s| - 1])
    ensures Strip(s) == s
  {
  }

  /** A string of digits only counts every character. */
  lemma {:induction false} DigitCountAll(d: string)
    requires forall i :: 0 <= i < |d| ==> IsDigit(d[i])
    ensures DigitCount(d) == |d|
  {
    if d != [] {
      DigitCountAll(d[..|d| - 1]);
    }
  }

  /** A non-empty string of digits only is a numeral `int()` accepts unless it is too long. */
  lemma {:induction false} DigitsWellFormed(d: string)
    requires |d| > 0 && forall i :: 0 <= i < |d| ==> IsDigit(d[i])
    ensures WellFormedDigits(d) && DigitCount(d) == |d|
  {
    DigitCountAll(d);
  }

  lemma {:induction false} ParseDigits(d: string)
    requires |d| > 0 && forall i :: 0 <= i < |d| ==> IsDigit(d[i])
    ensures ParseInt(d) == if |d| <= MAX_STR_DIGITS then Some(DigitsValue(d)) else None
  {
    DigitsWellFormed(d);
    StripNoSpaceEnds(d);
    assert IsDigit(d[0]);
  }

  lemma {:induction false} ParseNegative(d: string)
    requires |d| > 0 && forall i :: 0 <= i < |d| ==> IsDigit(d[i])
    ensures ParseInt("-" + d) == if |d| <= MAX_STR_DIGITS then Some(-(DigitsValue(d) as int)) else None
  {
    var s := "-" + d;
    DigitsWellFormed(d);
    StripNoSpaceEnds(s);
    assert s[0] == '-' && s[1..] == d;
  }

  /**
   * Round trip: `int(str(n)) == n` for every integer of at most 4300 digits;
   * a longer numeral is refused.
   */
  lemma {:induction false} ParseShowInt(n: int)
    ensures |ShowNat(if n < 0 then -n else n)| <= MAX_STR_DIGITS ==> ParseInt(ShowInt(n)) == Some(n)
    ensures |ShowNat(if n < 0 then -n else n)| > MAX_STR_DIGITS ==> ParseInt(ShowInt(n)) == None
  {
    var m: nat := if n < 0 then -n else n;
    ShowNatValue(m);
    if n < 0 {
      ParseNegative(ShowNat(m));
    } else {
      ParseDigits(ShowNat(m));
    }
  }
}
