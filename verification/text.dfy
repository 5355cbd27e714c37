/**
 * The pieces of JavaScript string handling the relay and the room API rely on:
 * `String.prototype.trim`, `startsWith`, `parseInt(s, 10)` and `Number.prototype.toString()`
 * on non-negative integers.
 */
module Text {
  import opened Wrappers

  /** ECMAScript WhiteSpace and LineTerminator characters: what `trim` strips and `parseInt` skips. */
  predicate IsSpace(c: char) {
    || c == ' ' || c == '\t' || c == '\n' || c == '\r'
    || c == '\U{000B}' || c == '\U{000C}' || c == '\U{00A0}' || c == '\U{1680}'
    || ('\U{2000}' <= c <= '\U{200A}')
    || c == '\U{2028}' || c == '\U{2029}' || c == '\U{202F}' || c == '\U{205F}'
    || c == '\U{3000}' || c == '\U{FEFF}'
  }

  /** Every character of `s` is white space (the empty string included). */
  predicate IsBlank(s: string) {
    forall i | 0 <= i < |s| :: IsSpace(s[i])
  }

  /** Number of leading white-space characters: what `trim` removes at the front. */
  function TrimOffset(s: string): (n: nat)
    ensures n <= |s|
    ensures forall i | 0 <= i < n :: IsSpace(s[i])
    ensures n == |s| || !IsSpace(s[n])
  {
    if |s| > 0 && IsSpace(s[0]) then
      var m := TrimOffset(s[1..]);
      assert forall i | 0 <= i < m :: s[1..][i] == s[i + 1];
      m + 1
    else 0
  }

  /** Length of `s` once its trailing white space is dropped. */
  function KeptLength(s: string): (n: nat)
    ensures n <= |s|
    ensures forall i | n <= i < |s| :: IsSpace(s[i])
    ensures n == 0 || !IsSpace(s[n - 1])
  {
    if |s| > 0 && IsSpace(s[|s| - 1]) then KeptLength(s[..|s| - 1]) else |s|
  }

  /** Drops leading white space (`parseInt` does this before reading a sign). */
  function TrimStart(s: string): string {
    s[TrimOffset(s)..]
  }

  /** `s.trim()`: the infix of `s` left after removing white space from both ends. */
  function Trim(s: string): (r: string)
    ensures TrimOffset(s) + |r| <= |s|
    ensures r == s[TrimOffset(s)..TrimOffset(s) + |r|]
    ensures IsBlank(s[..TrimOffset(s)]) && IsBlank(s[TrimOffset(s) + |r|..])
    ensures r == [] || (!IsSpace(r[0]) && !IsSpace(r[|r| - 1]))
  {
    var i := TrimOffset(s);
    var t := s[i..];
    var n := KeptLength(t);
    var r := s[i..i + n];
    PrefixBlank(s, i);
    forall k | i + n <= k < |s|
      ensures IsSpace(s[k])
    {
      assert s[k] == t[k - i];
    }
    SuffixBlank(s, i + n);
    assert n > 0 ==> r[0] == s[i] && r[n - 1] == t[n - 1];
    r
  }

  /** A prefix made of white space only is blank. */
  lemma PrefixBlank(s: string, i: nat)
    requires i <= |s| && forall k | 0 <= k < i :: IsSpace(s[k])
    ensures IsBlank(s[..i])
  {
    var p := s[..i];
    forall k | 0 <= k < |p|
      ensures IsSpace(p[k])
    {
      assert p[k] == s[k];
    }
  }

  /** A suffix made of white space only is blank. */
  lemma SuffixBlank(s: string, i: nat)
    requires i <= |s| && forall k | i <= k < |s| :: IsSpace(s[k])
    ensures IsBlank(s[i..])
  {
    var q := s[i..];
    forall k | 0 <= k < |q|
      ensures IsSpace(q[k])
    {
      assert q[k] == s[i + k];
    }
  }

  /** `trim()` yields the empty string exactly when the input is all white space. */
  lemma TrimEmptyIffBlank(s: string)
    ensures |Trim(s)| == 0 <==> IsBlank(s)
  {
    var r := Trim(s);
    if |r| == 0 {
      var i := TrimOffset(s);
      assert s == s[..i] + s[i..];
    } else {
      assert r[0] == s[TrimOffset(s)];
    }
  }

  /** Trimming an already trimmed string changes nothing. */
  lemma TrimIdempotent(s: string)
    ensures Trim(Trim(s)) == Trim(s)
  {
    var r := Trim(s);
    assert TrimOffset(r) == 0;
    assert r[0..] == r;
    assert KeptLength(r) == |r|;
  }

  /** `s.startsWith(p)`. */
  predicate StartsWith(s: string, p: string) {
    |p| <= |s| && s[..|p|] == p
  }

  predicate IsDigit(c: char) {
    '0' <= c <= '9'
  }

  predicate AllDigits(s: string) {
    forall i | 0 <= i < |s| :: IsDigit(s[i])
  }

  function DigitValue(c: char): (d: nat)
    requires IsDigit(c)
    ensures d < 10
  {
    (c as int) - ('0' as int)
  }

  function DigitChar(d: nat): (c: char)
    requires d < 10
    ensures IsDigit(c) && DigitValue(c) == d
  {
    (('0' as int) + d) as char
  }

  /** The value of a run of decimal digits, most significant first. */
  function DecimalValue(ds: string): nat
    requires AllDigits(ds)
  {
    if |ds| == 0 then 0 else DecimalValue(ds[..|ds| - 1]) * 10 + DigitValue(ds[|ds| - 1])
  }

  /** The longest prefix of `s` made of decimal digits. */
  function LeadingDigits(s: string): (r: string)
    ensures |r| <= |s| && r == s[..|r|]
    ensures AllDigits(r)
    ensures |r| == |s| || !IsDigit(s[|r|])
  {
    if |s| > 0 && IsDigit(s[0]) then [s[0]] + LeadingDigits(s[1..]) else []
  }

  /** After leading white space, whether a `-` sign is present and the digit run that follows the optional sign. */
  function SignAndDigits(s: string): (r: (bool, string))
    ensures AllDigits(r.1)
  {
    var t := TrimStart(s);
    if |t| > 0 && (t[0] == '-' || t[0] == '+') then (t[0] == '-', LeadingDigits(t[1..]))
    else (false, LeadingDigits(t))
  }

  /**
   * `parseInt(s, 10)`: skip leading white space, accept one optional sign, then read the
   * longest run of decimal digits; `NaN` (here `None`) when that run is empty.
   */
  function ParseInt(s: string): (r: Option<int>)
    ensures r.Some? <==> |SignAndDigits(s).1| > 0
    ensures r.Some? ==> r.value == (if SignAndDigits(s).0 then -1 else 1) * DecimalValue(SignAndDigits(s).1)
  {
    var (negative, ds) := SignAndDigits(s);
    var v: int := DecimalValue(ds);
    if |ds| == 0 then None else if negative then Some(-v) else Some(v)
  }

  /** `n.toString()` for a non-negative integer: its shortest decimal spelling. */
  function NatToString(n: nat): (r: string)
    ensures |r| >= 1 && AllDigits(r)
    ensures DecimalValue(r) == n
    ensures |r| > 1 ==> r[0] != '0'
  {
    if n < 10 then [DigitChar(n)]
    else
      var prefix := NatToString(n / 10);
      var r := prefix + [DigitChar(n % 10)];
      assert r[..|r| - 1] == prefix;
      r
  }

  /** Reading back a number's decimal spelling gives the number. */
  lemma {:induction false} ParseIntOfNatToString(n: nat)
    ensures ParseInt(NatToString(n)) == Some(n)
  {
    var s := NatToString(n);
    assert !IsSpace(s[0]);
    assert s[0..] == s;
    assert s[0] != '-' && s[0] != '+';
    assert LeadingDigits(s) == s;
  }
}
