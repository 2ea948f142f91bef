/** The string primitives of Rust's standard library that the tool relies on:
    `char::is_whitespace` and `str::trim`, `str::trim_start_matches` with a
    single character, splitting at a separator, `str::contains`, the decimal
    `Display` of an integer and `usize::from_str`. */
module Text {
  import opened Wrappers

  /** Rust's `char::is_whitespace`: the characters with the Unicode
      White_Space property. */
  predicate IsWhitespace(c: char) {
    || ('\t' <= c <= '\r')
    || c == ' '
    || c == '\U{0085}'
    || c == '\U{00A0}'
    || c == '\U{1680}'
    || ('\U{2000}' <= c <= '\U{200A}')
    || c == '\U{2028}'
    || c == '\U{2029}'
    || c == '\U{202F}'
    || c == '\U{205F}'
    || c == '\U{3000}'
  }

  /** The end of the run of characters satisfying `p` that starts at `i`. */
  function SkipWhile(s: string, i: nat, p: char -> bool): (k: nat)
    requires i <= |s|
    ensures i <= k <= |s|
    ensures forall j :: i <= j < k ==> p(s[j])
    ensures k == |s| || !p(s[k])
    decreases |s| - i
  {
    if i < |s| && p(s[i]) then SkipWhile(s, i + 1, p) else i
  }

  /** The start of the run of characters satisfying `p` that ends at `j`,
      looking no further back than `lo`. */
  function SkipBackWhile(s: string, lo: nat, j: nat, p: char -> bool): (k: nat)
    requires lo <= j <= |s|
    ensures lo <= k <= j
    ensures forall m :: k <= m < j ==> p(s[m])
    ensures k == lo || !p(s[k - 1])
    decreases j
  {
    if lo < j && p(s[j - 1]) then SkipBackWhile(s, lo, j - 1, p) else j
  }

  /** `s.trim_start_matches(c)`: `s` with every leading `c` removed. The
      result is the suffix of `s` left after a run of `c`, and it does not
      itself start with `c`. */
  function TrimStartMatches(s: string, c: char): (r: string)
    ensures |r| <= |s| && r == s[|s| - |r|..]
    ensures forall j :: 0 <= j < |s| - |r| ==> s[j] == c
    ensures r == [] || r[0] != c
  {
    s[SkipWhile(s, 0, x => x == c)..]
  }

  predicate AllWhitespace(s: string) {
    forall i :: 0 <= i < |s| ==> IsWhitespace(s[i])
  }

  /** `r` is the slice of `s` starting at `i`, and everything of `s` around
      that slice is whitespace. */
  ghost predicate TrimmedAt(s: string, r: string, i: int) {
    && 0 <= i <= i + |r| <= |s|
    && r == s[i..i + |r|]
    && (forall j :: 0 <= j < i ==> IsWhitespace(s[j]))
    && (forall j :: i + |r| <= j < |s| ==> IsWhitespace(s[j]))
  }

  /** `str::trim`: the longest slice of `s` that neither starts nor ends with
      whitespace, everything cut off being whitespace. */
  function Trim(s: string): (r: string)
    ensures exists i :: TrimmedAt(s, r, i)
    ensures r == [] || (!IsWhitespace(r[0]) && !IsWhitespace(r[|r| - 1]))
  {
    var a := SkipWhile(s, 0, IsWhitespace);
    var b := SkipBackWhile(s, a, |s|, IsWhitespace);
    assert TrimmedAt(s, s[a..b], a);
    s[a..b]
  }

  /** A line is empty after trimming exactly when it is all whitespace. */
  lemma TrimEmptyIff(s: string)
    ensures Trim(s) == [] <==> AllWhitespace(s)
  {
    var r := Trim(s);
    var i :| TrimmedAt(s, r, i);
    if r == [] {
      assert s == s[..i] + s[i..];
      forall k | 0 <= k < |s| ensures IsWhitespace(s[k]) {
        if k < i {
          assert s[k] == s[..i][k];
        } else {
          assert s[k] == s[i..][k - i];
        }
      }
    } else {
      assert s[i] == r[0];
    }
  }

  /** Splits `s` at the first occurrence of `c`: the part before it, which
      does not contain `c`, and the part after it. */
  function SplitOnce(s: string, c: char): (r: Option<(string, string)>)
    ensures r.None? <==> c !in s
    ensures r.Some? ==> s == r.value.0 + [c] + r.value.1 && c !in r.value.0
    decreases |s|
  {
    if |s| == 0 then None
    else if s[0] == c then Some(([], s[1..]))
    else match SplitOnce(s[1..], c) {
      case None => None
      case Some(p) =>
        assert s == [s[0]] + s[1..];
        Some(([s[0]] + p.0, p.1))
    }
  }

  /** The first item that `s.split(c)` yields: the text before the first `c`,
      or all of `s` when it holds no `c`. */
  function FirstField(s: string, c: char): (r: string)
    ensures c !in r
    ensures r <= s
    ensures |r| < |s| ==> s[|r|] == c
  {
    match SplitOnce(s, c)
    case None => s
    case Some(p) =>
      assert s[..|p.0|] == p.0;
      p.0
  }

  /** A suffix is the middle slice followed by the rest. */
  lemma SliceSplit<T>(s: seq<T>, i: int, j: int)
    requires 0 <= i <= j <= |s|
    ensures s[i..] == s[i..j] + s[j..]
  {
  }

  /** The split is determined by where the first `c` is. */
  lemma {:induction false} SplitOnceOf(before: string, c: char, after: string)
    requires c !in before
    ensures SplitOnce(before + [c] + after, c) == Some((before, after))
    decreases |before|
  {
    var s := before + [c] + after;
    if before == [] {
      assert s[1..] == after;
    } else {
      assert s[0] == before[0];
      assert s[1..] == before[1..] + [c] + after;
      SplitOnceOf(before[1..], c, after);
      assert before == [s[0]] + before[1..];
    }
  }

  /** The first field is any prefix free of `c` that is followed by `c` or
      ends the string. */
  lemma FirstFieldOf(field: string, c: char, tail: string)
    requires c !in field
    requires tail == [] || tail[0] == c
    ensures FirstField(field + tail, c) == field
  {
    if tail == [] {
      assert field + tail == field;
    } else {
      assert field + tail == field + [c] + tail[1..];
      SplitOnceOf(field, c, tail[1..]);
    }
  }

  /** The run of `c` that `TrimStartMatches` removes is the longest one. */
  lemma TrimStartMatchesOf(s: string, c: char, d: nat)
    requires d <= |s|
    requires forall j :: 0 <= j < d ==> s[j] == c
    requires d == |s| || s[d] != c
    ensures TrimStartMatches(s, c) == s[d..]
  {
  }

  /** `haystack.contains(needle)`: `needle` occurs as a contiguous slice. */
  predicate Contains(haystack: string, needle: string)
    ensures needle <= haystack ==> Contains(haystack, needle)
    ensures Contains(haystack, needle) ==> |needle| <= |haystack|
    decreases |haystack|
  {
    needle <= haystack || (|haystack| > 0 && Contains(haystack[1..], needle))
  }

  /** `Contains` agrees with the slice-based definition of a substring. */
  lemma {:induction false} ContainsIff(haystack: string, needle: string)
    ensures Contains(haystack, needle) <==>
      exists i :: 0 <= i <= |haystack| - |needle| && needle <= haystack[i..]
    decreases |haystack|
  {
    if needle <= haystack {
      assert haystack[0..] == haystack;
    } else if |haystack| > 0 {
      ContainsIff(haystack[1..], needle);
      if Contains(haystack[1..], needle) {
        var i :| 0 <= i <= |haystack| - 1 - |needle| && needle <= haystack[1..][i..];
        assert haystack[1..][i..] == haystack[i + 1..];
      }
      if exists i :: 0 <= i <= |haystack| - |needle| && needle <= haystack[i..] {
        var i :| 0 <= i <= |haystack| - |needle| && needle <= haystack[i..];
        assert i != 0 by { assert haystack[0..] == haystack; }
        assert haystack[1..][i - 1..] == haystack[i..];
      }
    }
  }

  // ---------------------------------------------------------------------
  // Decimal numbers

  /** Rust's `usize` on the 64-bit targets the tool runs on. */
  const USIZE_MAX: nat := 0xFFFF_FFFF_FFFF_FFFF

  predicate IsDigit(c: char) {
    '0' <= c <= '9'
  }

  predicate AllDigits(s: string) {
    forall i :: 0 <= i < |s| ==> IsDigit(s[i])
  }

  function DigitChar(d: int): (c: char)
    requires 0 <= d < 10
    ensures IsDigit(c)
  {
    ('0' as int + d) as char
  }

  function DigitValue(c: char): (d: nat)
    requires IsDigit(c)
    ensures d < 10 && DigitChar(d) == c
  {
    c as int - '0' as int
  }

  /** The value of a string of decimal digits, most significant first. */
  function DigitsValue(s: string): nat
    requires AllDigits(s)
    decreases |s|
  {
    if |s| == 0 then 0
    else DigitsValue(s[..|s| - 1]) * 10 + DigitValue(s[|s| - 1])
  }

  /** The `Display` form of an unsigned integer: its shortest decimal
      representation. */
  function NatToDecimal(n: nat): (r: string)
    ensures |r| >= 1 && AllDigits(r)
    ensures |r| > 1 ==> r[0] != '0'
    decreases n
  {
    if n < 10 then [DigitChar(n)]
    else NatToDecimal(n / 10) + [DigitChar(n % 10)]
  }

  lemma {:induction false} DecimalValue(n: nat)
    ensures DigitsValue(NatToDecimal(n)) == n
    decreases n
  {
    if n >= 10 {
      var s := NatToDecimal(n);
      assert s[..|s| - 1] == NatToDecimal(n / 10);
      DecimalValue(n / 10);
    }
  }

  /** `str::parse::<usize>`: an optional `+` followed by at least one decimal
      digit, whose value fits in a `usize`. A `-` sign, any other character,
      an empty digit string and an overflow are all errors. */
  function ParseUsize(s: string): (r: Option<nat>)
    ensures r.Some? ==> r.value <= USIZE_MAX
  {
    if |s| == 0 then None
    else
      var digits := if s[0] == '+' then s[1..] else s;
      if |digits| == 0 || !AllDigits(digits) then None
      else
        var v := DigitsValue(digits);
        if v <= USIZE_MAX then Some(v) else None
  }

  /** Printing a `usize` and parsing it back gives the same number, with or
      without a leading `+`. */
  lemma ParseUsizeOfDecimal(n: nat)
    requires n <= USIZE_MAX
    ensures ParseUsize(NatToDecimal(n)) == Some(n)
    ensures ParseUsize("+" + NatToDecimal(n)) == Some(n)
  {
    DecimalValue(n);
    var s := NatToDecimal(n);
    assert ("+" + s)[1..] == s;
  }

  /** A character that is neither a digit nor a leading `+` makes the parse
      fail. */
  lemma ParseUsizeRejects(s: string, i: int)
    requires 0 <= i < |s| && !IsDigit(s[i]) && !(i == 0 && s[i] == '+')
    ensures ParseUsize(s) == None
  {
    if s[0] == '+' {
      assert s[1..][i - 1] == s[i];
    }
  }

  /** A successful parse consists of digits only, after an optional `+`,
      and has at least one digit: its last character. */
  lemma ParseUsizeAccepts(s: string)
    requires ParseUsize(s).Some?
    ensures |s| >= 1 && IsDigit(s[|s| - 1])
    ensures forall i :: 0 <= i < |s| ==> IsDigit(s[i]) || (i == 0 && s[i] == '+')
  {
    assert s[|s| - 1] == (if s[0] == '+' then s[1..] else s)[|s| - 1 - (if s[0] == '+' then 1 else 0)];
    if s[0] == '+' {
      forall i | 1 <= i < |s| ensures IsDigit(s[i]) {
        assert s[i] == s[1..][i - 1];
      }
    }
  }

  /** The value of any digit string, canonical or not (`"02"` is 2), with or
      without a leading `+`: the number it denotes when that fits in a
      `usize`, and an error when it overflows. */
  lemma ParseUsizeOfDigits(s: string, d: string)
    requires |d| > 0 && AllDigits(d)
    requires s == d || s == "+" + d
    ensures ParseUsize(s) == if DigitsValue(d) <= USIZE_MAX then Some(DigitsValue(d)) else None
  {
    if s != d {
      assert s[1..] == d;
    }
  }

  /** Neither the empty string nor a lone `+` is a number. */
  lemma ParseUsizeNoDigits()
    ensures ParseUsize("") == None
    ensures ParseUsize("+") == None
  {
    assert "+"[1..] == [];
  }
}
