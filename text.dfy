/**
 * The string operations the application relies on, restricted to ASCII:
 * Python's `str.strip`, `str.upper`, `str.lower`, the regular-expression
 * classes `\w` and `\d`, case-insensitive containment, and decimal numerals.
 */
module Text {

  /** `str.isspace` on ASCII: tab, line feed, vertical tab, form feed,
      carriage return, the separators 0x1C-0x1F, and space. */
  predicate IsSpace(c: char) {
    var n := c as int;
    (9 <= n <= 13) || (28 <= n <= 32)
  }

  predicate AllSpace(s: string) {
    forall i :: 0 <= i < |s| ==> IsSpace(s[i])
  }

  /**
   * Python's `s.strip()`: white space is dropped from the front, then from
   * the back, until both ends hold a non-space character or nothing is left.
   */
  function Strip(s: string): (r: string)
    ensures |r| <= |s|
    ensures r == [] <==> AllSpace(s)
    ensures r != [] ==> !IsSpace(r[0]) && !IsSpace(r[|r| - 1])
    decreases |s|
  {
    if s != [] && IsSpace(s[0]) then Strip(s[1..])
    else if s != [] && IsSpace(s[|s| - 1]) then Strip(s[..|s| - 1])
    else s
  }

  /**
   * `strip()` removes outer white space and nothing else: what it returns is
   * a contiguous piece of its input, and everything cut off before and after
   * that piece is white space.
   */
  lemma StripIsSlice(s: string)
    ensures exists i, j :: 0 <= i <= j <= |s| && AllSpace(s[..i]) && AllSpace(s[j..]) && Strip(s) == s[i..j]
  {
    var i, j := StripBounds(s);
  }

  /** Where `strip()` cuts `s`: it keeps `s[i..j]`, and the parts before `i` and from `j` on are white space. */
  lemma {:induction false} StripBounds(s: string) returns (i: nat, j: nat)
    ensures i <= j <= |s| && AllSpace(s[..i]) && AllSpace(s[j..]) && Strip(s) == s[i..j]
    decreases |s|
  {
    if s != [] && IsSpace(s[0]) {
      var i', j' := StripBounds(s[1..]);
      StripFrontStep(s, i', j');
      i, j := i' + 1, j' + 1;
    } else if s != [] && IsSpace(s[|s| - 1]) {
      i, j := StripBounds(s[..|s| - 1]);
      StripBackStep(s, i, j);
    } else {
      i, j := 0, |s|;
      assert s[..0] == [] && s[|s|..] == [] && s[0..|s|] == s;
    }
  }

  /** Dropping a leading white-space character moves both cuts one place right. */
  lemma StripFrontStep(s: string, i: nat, j: nat)
    requires s != [] && IsSpace(s[0])
    requires var t := s[1..]; i <= j <= |t| && AllSpace(t[..i]) && AllSpace(t[j..]) && Strip(t) == t[i..j]
    ensures AllSpace(s[..i + 1]) && AllSpace(s[j + 1..]) && Strip(s) == s[i + 1..j + 1]
  {
    var t := s[1..];
    assert Strip(s) == Strip(t);
    assert t[i..j] == s[i + 1..j + 1];
    var front, back := s[..i + 1], s[j + 1..];
    forall k | 0 <= k < |front| ensures IsSpace(front[k]) {
      if k > 0 {
        assert front[k] == t[..i][k - 1];
      }
    }
    forall k | 0 <= k < |back| ensures IsSpace(back[k]) {
      assert back[k] == t[j..][k];
    }
  }

  /** Dropping a trailing white-space character leaves both cuts in place. */
  lemma StripBackStep(s: string, i: nat, j: nat)
    requires s != [] && !IsSpace(s[0]) && IsSpace(s[|s| - 1])
    requires var t := s[..|s| - 1]; i <= j <= |t| && AllSpace(t[..i]) && AllSpace(t[j..]) && Strip(t) == t[i..j]
    ensures AllSpace(s[..i]) && AllSpace(s[j..]) && Strip(s) == s[i..j]
  {
    var t := s[..|s| - 1];
    assert Strip(s) == Strip(t);
    assert t[i..j] == s[i..j];
    var front, back := s[..i], s[j..];
    forall k | 0 <= k < |front| ensures IsSpace(front[k]) {
      assert front[k] == t[..i][k];
    }
    forall k | 0 <= k < |back| ensures IsSpace(back[k]) {
      if j + k < |s| - 1 {
        assert back[k] == t[j..][k];
      }
    }
  }

  /** A string is blank when nothing is left of it after `strip()`. */
  predicate IsBlank(s: string) {
    Strip(s) == []
  }

  /** A string with no white space at either end is its own `strip()`. */
  lemma {:induction false} StripUnpadded(s: string)
    requires s == [] || (!IsSpace(s[0]) && !IsSpace(s[|s| - 1]))
    ensures Strip(s) == s
  {
  }

  predicate IsDigit(c: char) { '0' <= c <= '9' }

  predicate IsLower(c: char) { 'a' <= c <= 'z' }

  /** Python's `\w` on ASCII: letters, digits and underscore. */
  predicate IsWordChar(c: char) {
    'A' <= c <= 'Z' || IsLower(c) || IsDigit(c) || c == '_'
  }

  function UpperChar(c: char): char {
    if IsLower(c) then (c as int - 32) as char else c
  }

  function LowerChar(c: char): char {
    if 'A' <= c <= 'Z' then (c as int + 32) as char else c
  }

  /** Python's `s.upper()` on ASCII. */
  function Upper(s: string): string {
    seq(|s|, i requires 0 <= i < |s| => UpperChar(s[i]))
  }

  /** Python's `s.lower()` on ASCII. */
  function Lower(s: string): string {
    seq(|s|, i requires 0 <= i < |s| => LowerChar(s[i]))
  }

  /** A string with no lower-case letter is its own `upper()`. */
  lemma UpperOfUpper(s: string)
    requires forall i :: 0 <= i < |s| ==> !IsLower(s[i])
    ensures Upper(s) == s
  {
  }

  /** Python's `term in s`: `term` occurs as a contiguous piece of `s`. */
  predicate Contains(s: string, term: string)
    decreases |s|
  {
    term <= s || (s != [] && Contains(s[1..], term))
  }

  /** Django's `icontains` on ASCII. */
  predicate IContains(s: string, term: string) {
    Contains(Lower(s), Lower(term))
  }

  function DigitChar(d: nat): (c: char)
    requires d < 10
    ensures IsDigit(c)
  {
    ('0' as int + d) as char
  }

  function DigitValue(c: char): (d: nat)
    requires IsDigit(c)
    ensures d < 10 && DigitChar(d) == c
  {
    c as int - '0' as int
  }

  predicate AllDigits(s: string) {
    forall i :: 0 <= i < |s| ==> IsDigit(s[i])
  }

  /** Python's `str(n)` for a natural number. */
  function NatToDecimal(n: nat): (r: string)
    ensures r != [] && AllDigits(r)
    decreases n
  {
    if n < 10 then [DigitChar(n)] else NatToDecimal(n / 10) + [DigitChar(n % 10)]
  }

  /** Python's `str(i)` for any integer. */
  function IntToDecimal(i: int): string {
    if i < 0 then "-" + NatToDecimal(-i) else NatToDecimal(i)
  }

  /** Python's `int(s)` on a string of decimal digits. */
  function DecimalValue(s: string): nat
    requires AllDigits(s)
  {
    if s == [] then 0 else DecimalValue(s[..|s| - 1]) * 10 + DigitValue(s[|s| - 1])
  }

  /** `int(str(n)) == n`. */
  lemma {:induction false} DecimalRoundTrip(n: nat)
    ensures DecimalValue(NatToDecimal(n)) == n
    decreases n
  {
    var s := NatToDecimal(n);
    if n >= 10 {
      DecimalRoundTrip(n / 10);
      assert s[..|s| - 1] == NatToDecimal(n / 10);
      assert DigitValue(s[|s| - 1]) == n % 10;
    }
  }

  /** The longest prefix of `s` made of decimal digits (what `\d+` takes greedily). */
  function LeadingDigits(s: string): (r: string)
    ensures r <= s && AllDigits(r)
    ensures |r| < |s| ==> !IsDigit(s[|r|])
  {
    if s != [] && IsDigit(s[0]) then [s[0]] + LeadingDigits(s[1..]) else []
  }

  lemma {:induction false} LeadingDigitsOfDigits(s: string)
    requires AllDigits(s)
    ensures LeadingDigits(s) == s
  {
    if s != [] {
      LeadingDigitsOfDigits(s[1..]);
    }
  }
}
