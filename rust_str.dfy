/**
 * The two pieces of Rust's standard library that the command parser of
 * src/agent/human.rs relies on: `str::split_whitespace` and
 * `str::parse::<usize>`, together with `usize::to_string` (`Decimal`) and a
 * single-space `Join`, which the lemmas use to build inputs.
 */
module RustStr {
  import opened Wrappers

  /** `char::is_whitespace`: the Unicode `White_Space` property. */
  predicate IsWhitespace(c: char) {
    || c == ' '
    || ('\t' <= c <= '\r')
    || c == '\U{85}'
    || c == '\U{A0}'
    || c == '\U{1680}'
    || ('\U{2000}' <= c <= '\U{200A}')
    || c == '\U{2028}'
    || c == '\U{2029}'
    || c == '\U{202F}'
    || c == '\U{205F}'
    || c == '\U{3000}'
  }

  predicate AllWhitespace(s: string) {
    forall i :: 0 <= i < |s| ==> IsWhitespace(s[i])
  }

  /** A token that `split_whitespace` can produce: non-empty and free of whitespace. */
  predicate IsWord(w: string) {
    |w| > 0 && forall i :: 0 <= i < |w| ==> !IsWhitespace(w[i])
  }

  predicate AllWords(ws: seq<string>) {
    forall i :: 0 <= i < |ws| ==> IsWord(ws[i])
  }

  lemma AllWordsConcat(a: seq<string>, b: seq<string>)
    requires AllWords(a) && AllWords(b)
    ensures AllWords(a + b)
  {
    forall i | 0 <= i < |a + b|
      ensures IsWord((a + b)[i])
    {
      if i < |a| {
        assert (a + b)[i] == a[i];
      } else {
        assert (a + b)[i] == b[i - |a|];
      }
    }
  }

  /** Length of the leading run of whitespace of `s`. */
  function LeadingSpace(s: string): (n: nat)
    ensures n <= |s|
    ensures AllWhitespace(s[..n])
    ensures n < |s| ==> !IsWhitespace(s[n])
  {
    if s == [] || !IsWhitespace(s[0]) then 0
    else
      var n := 1 + LeadingSpace(s[1..]);
      assert s[..n] == [s[0]] + s[1..][..n - 1];
      n
  }

  /** Length of the leading run of non-whitespace characters of `s`. */
  function LeadingWord(s: string): (n: nat)
    ensures n <= |s|
    ensures forall i :: 0 <= i < n ==> !IsWhitespace(s[i])
    ensures n < |s| ==> IsWhitespace(s[n])
  {
    if s == [] || IsWhitespace(s[0]) then 0
    else 1 + LeadingWord(s[1..])
  }

  /**
   * `str::split_whitespace`: the maximal runs of non-whitespace characters,
   * in order; runs of whitespace separate them and no token is empty.
   */
  function SplitWhitespace(s: string): (ws: seq<string>)
    ensures AllWords(ws)
    decreases |s|
  {
    var t := s[LeadingSpace(s)..];
    if t == [] then []
    else
      assert !IsWhitespace(t[0]);
      var n := LeadingWord(t);
      var rest := SplitWhitespace(t[n..]);
      assert IsWord(t[..n]);
      AllWordsConcat([t[..n]], rest);
      [t[..n]] + rest
  }

  /** The tokens `ws` written out with one space between neighbours. */
  function Join(ws: seq<string>): string {
    if |ws| == 0 then ""
    else if |ws| == 1 then ws[0]
    else ws[0] + " " + Join(ws[1..])
  }

  lemma {:induction false} LeadingSpaceOfBlank(s: string)
    requires AllWhitespace(s)
    ensures LeadingSpace(s) == |s|
  {
    if s != [] {
      LeadingSpaceOfBlank(s[1..]);
    }
  }

  lemma {:induction false} LeadingSpaceSkips(w: string, s: string)
    requires AllWhitespace(w)
    ensures LeadingSpace(w + s) == |w| + LeadingSpace(s)
  {
    if w != [] {
      assert IsWhitespace(w[0]);
      assert (w + s)[0] == w[0];
      assert (w + s)[1..] == w[1..] + s;
      LeadingSpaceSkips(w[1..], s);
      assert LeadingSpace(w + s) == 1 + LeadingSpace((w + s)[1..]);
    } else {
      assert w + s == s;
    }
  }

  lemma {:induction false} LeadingWordOf(w: string, s: string)
    requires forall i :: 0 <= i < |w| ==> !IsWhitespace(w[i])
    requires s == [] || IsWhitespace(s[0])
    ensures LeadingWord(w + s) == |w|
  {
    if w != [] {
      assert (w + s)[1..] == w[1..] + s;
      LeadingWordOf(w[1..], s);
    }
  }

  /** Whitespace-only input has no tokens. */
  lemma SplitBlank(s: string)
    requires AllWhitespace(s)
    ensures SplitWhitespace(s) == []
  {
    LeadingSpaceOfBlank(s);
  }

  lemma LeadingSpaceSuffix(w: string, s: string)
    requires AllWhitespace(w)
    ensures (w + s)[LeadingSpace(w + s)..] == s[LeadingSpace(s)..]
  {
    LeadingSpaceSkips(w, s);
    assert (w + s)[|w| + LeadingSpace(s)..] == s[LeadingSpace(s)..];
  }

  /** Leading whitespace does not change the tokens. */
  lemma SplitSkipsLeadingSpace(w: string, s: string)
    requires AllWhitespace(w)
    ensures SplitWhitespace(w + s) == SplitWhitespace(s)
  {
    LeadingSpaceSuffix(w, s);
  }

  /** A word followed by whitespace (or nothing) is the first token. */
  lemma SplitWordFirst(w: string, s: string)
    requires IsWord(w)
    requires s == [] || IsWhitespace(s[0])
    ensures SplitWhitespace(w + s) == [w] + SplitWhitespace(s)
  {
    assert LeadingSpace(w + s) == 0;
    assert (w + s)[0..] == w + s;
    LeadingWordOf(w, s);
    assert (w + s)[..|w|] == w;
    assert (w + s)[|w|..] == s;
  }

  /** Splitting undoes joining: `split_whitespace` recovers the tokens. */
  lemma {:induction false} SplitJoin(ws: seq<string>)
    requires AllWords(ws)
    ensures SplitWhitespace(Join(ws)) == ws
  {
    if |ws| == 0 {
      SplitBlank("");
    } else if |ws| == 1 {
      SplitWordFirst(ws[0], "");
      SplitBlank("");
      assert ws[0] + "" == ws[0];
    } else {
      var rest := Join(ws[1..]);
      assert ws[0] + " " + rest == ws[0] + (" " + rest);
      SplitWordFirst(ws[0], " " + rest);
      SplitSkipsLeadingSpace(" ", rest);
      SplitJoin(ws[1..]);
    }
  }

  // ---------------------------------------------------------------------
  // str::parse::<usize>
  // ---------------------------------------------------------------------

  /** The kinds of `ParseIntError` that parsing an unsigned integer can give. */
  datatype IntErrorKind = Empty | InvalidDigit | PosOverflow

  /** The largest `usize`, on a 64-bit target. */
  const UsizeMax: nat := 0xFFFF_FFFF_FFFF_FFFF

  predicate IsDigit(c: char) {
    '0' <= c <= '9'
  }

  function DigitValue(c: char): (d: nat)
    requires IsDigit(c)
    ensures d < 10
  {
    c as int - '0' as int
  }

  predicate AllDigits(s: string) {
    forall i :: 0 <= i < |s| ==> IsDigit(s[i])
  }

  /** The digits of `s` once an optional leading `+` is cut off. */
  function Digits(s: string): string {
    if |s| > 0 && s[0] == '+' then s[1..] else s
  }

  /**
   * The text `parse::<usize>` accepts, overflow aside: an optional `+`
   * followed by one or more ASCII digits.
   */
  predicate IsNumeral(s: string) {
    |Digits(s)| > 0 && AllDigits(Digits(s))
  }

  function Pow10(k: nat): (p: nat)
    ensures p >= 1
  {
    if k == 0 then 1 else 10 * Pow10(k - 1)
  }

  /** The value of a digit string in positional notation: each digit times its power of ten. */
  function NumeralValue(s: string): nat
    requires AllDigits(s)
  {
    if s == [] then 0 else DigitValue(s[0]) * Pow10(|s| - 1) + NumeralValue(s[1..])
  }

  /**
   * The digit loop of `from_str_radix`: left to right, the first position
   * that holds a non-digit or whose digit makes the value exceed
   * `UsizeMax` decides the error. On a digit string the loop computes
   * `acc` shifted left by the digits, plus their value, and fails exactly
   * when that exceeds `UsizeMax`.
   */
  function ParseDigits(s: string, acc: nat): (r: Result<nat, IntErrorKind>)
    requires acc <= UsizeMax
    ensures r.Ok? ==> acc <= r.value <= UsizeMax && AllDigits(s)
    ensures r.Err? ==> r.error != Empty
    ensures AllDigits(s) ==>
              var v := acc * Pow10(|s|) + NumeralValue(s);
              r == if v <= UsizeMax then Ok(v) else Err(PosOverflow)
    decreases |s|
  {
    if s == [] then Ok(acc)
    else if !IsDigit(s[0]) then Err(InvalidDigit)
    else
      var next := acc * 10 + DigitValue(s[0]);
      ShiftValue(acc, DigitValue(s[0]), Pow10(|s| - 1));
      if next > UsizeMax then Err(PosOverflow)
      else ParseDigits(s[1..], next)
  }

  /** Shifting `acc` one digit further left and adding `d` commutes with the power of ten. */
  lemma ShiftValue(acc: nat, d: nat, p: nat)
    requires p >= 1
    ensures acc * (10 * p) + d * p == (acc * 10 + d) * p
    ensures (acc * 10 + d) * p >= acc * 10 + d
  {
  }

  lemma {:induction false} OverflowFirst(d: string, t: string, acc: nat)
    requires acc <= UsizeMax && |d| > 0 && AllDigits(d)
    requires acc * Pow10(|d|) + NumeralValue(d) > UsizeMax
    ensures ParseDigits(d + t, acc) == Err(PosOverflow)
    decreases |d|
  {
    var next := acc * 10 + DigitValue(d[0]);
    ShiftValue(acc, DigitValue(d[0]), Pow10(|d| - 1));
    assert (d + t)[0] == d[0];
    if |d| == 1 {
      assert d[1..] == [];
    } else if next <= UsizeMax {
      assert (d + t)[1..] == d[1..] + t;
      OverflowFirst(d[1..], t, next);
    }
  }

  /**
   * A run of digits too large for a `usize` is reported as an overflow even
   * when a character that is not a digit follows it: the scan stops at the
   * first position that fails.
   */
  lemma OverflowBeforeBadDigit(d: string, t: string)
    requires |d| > 0 && AllDigits(d) && NumeralValue(d) > UsizeMax
    ensures ParseUsize(d + t) == Err(PosOverflow)
  {
    assert (d + t)[0] == d[0] && IsDigit(d[0]);
    OverflowFirst(d, t, 0);
  }

  lemma {:induction false} BadDigitFirst(d: string, c: char, t: string, acc: nat)
    requires acc <= UsizeMax && AllDigits(d) && !IsDigit(c)
    requires acc * Pow10(|d|) + NumeralValue(d) <= UsizeMax
    ensures ParseDigits(d + [c] + t, acc) == Err(InvalidDigit)
    decreases |d|
  {
    if d == [] {
      assert (d + [c] + t)[0] == c;
    } else {
      var next := acc * 10 + DigitValue(d[0]);
      ShiftValue(acc, DigitValue(d[0]), Pow10(|d| - 1));
      assert (d + [c] + t)[0] == d[0];
      assert (d + [c] + t)[1..] == d[1..] + [c] + t;
      BadDigitFirst(d[1..], c, t, next);
    }
  }

  /**
   * A character that is not a digit after a run of digits that still fits a
   * `usize` is reported as an invalid digit, whatever follows it.
   */
  lemma BadDigitAfterFit(d: string, c: char, t: string)
    requires |d| > 0 && AllDigits(d) && NumeralValue(d) <= UsizeMax && !IsDigit(c)
    ensures ParseUsize(d + [c] + t) == Err(InvalidDigit)
  {
    assert (d + [c] + t)[0] == d[0] && IsDigit(d[0]);
    BadDigitFirst(d, c, t, 0);
  }

  /** `str::parse::<usize>`. */
  function ParseUsize(s: string): (r: Result<nat, IntErrorKind>)
    ensures r.Ok? ==> r.value <= UsizeMax && IsNumeral(s)
    ensures IsNumeral(s) ==>
              r == if NumeralValue(Digits(s)) <= UsizeMax then Ok(NumeralValue(Digits(s)))
                   else Err(PosOverflow)
    ensures !IsNumeral(s) ==> r.Err?
    ensures r == Err(Empty) <==> s == []
  {
    if s == [] then Err(Empty)
    else if s[0] == '+' then
      if |s| == 1 then Err(InvalidDigit) else ParseDigits(s[1..], 0)
    else ParseDigits(s, 0)
  }

  /** `usize::to_string`: the decimal numeral of `n`, without leading zeros. */
  function Decimal(n: nat): (s: string)
    ensures IsWord(s) && AllDigits(s)
  {
    if n < 10 then ['0' + n as char]
    else Decimal(n / 10) + ['0' + (n % 10) as char]
  }

  lemma {:induction false} ParseDigitsSnoc(s: string, c: char, acc: nat, v: nat)
    requires acc <= UsizeMax
    requires ParseDigits(s, acc) == Ok(v)
    requires IsDigit(c) && v * 10 + DigitValue(c) <= UsizeMax
    ensures ParseDigits(s + [c], acc) == Ok(v * 10 + DigitValue(c))
  {
    if s == [] {
      assert [c][1..] == [];
    } else {
      assert (s + [c])[1..] == s[1..] + [c];
      ParseDigitsSnoc(s[1..], c, acc * 10 + DigitValue(s[0]), v);
    }
  }

  /** Parsing undoes printing, for every value that fits in a `usize`. */
  lemma {:induction false} ParseDecimal(n: nat)
    requires n <= UsizeMax
    ensures ParseUsize(Decimal(n)) == Ok(n)
  {
    if n < 10 {
      assert ParseDigits(Decimal(n)[1..], n) == Ok(n);
    } else {
      ParseDecimal(n / 10);
      var c := '0' + (n % 10) as char;
      assert Decimal(n / 10)[0] != '+';
      ParseDigitsSnoc(Decimal(n / 10), c, 0, n / 10);
    }
  }
}
