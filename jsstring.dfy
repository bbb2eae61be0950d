/**
 * The few ECMAScript string built-ins the page components rely on:
 * `String.prototype.trim`, `parseInt` without a radix and
 * `Number.prototype.toString()` on non-negative integers.
 */
module JsString {
  import opened Common

  /**
   * The ECMAScript WhiteSpace and LineTerminator code points, which `trim`
   * removes and the regular-expression class `\s` matches.
   */
  predicate IsSpace(c: char)
  {
    || c == '\t' || c == '\n' || c == '\U{B}' || c == '\U{C}' || c == '\r' || c == ' '
    || c == '\U{A0}' || c == '\U{1680}' || ('\U{2000}' <= c <= '\U{200A}')
    || c == '\U{2028}' || c == '\U{2029}' || c == '\U{202F}' || c == '\U{205F}'
    || c == '\U{3000}' || c == '\U{FEFF}'
  }

  predicate AllSpace(s: string)
  {
    forall i :: 0 <= i < |s| ==> IsSpace(s[i])
  }

  /** `s.trimStart()`: the suffix left after the leading white space. */
  function TrimStart(s: string): (r: string)
    ensures |r| <= |s| && r == s[|s| - |r|..]
    ensures r == [] || !IsSpace(r[0])
    ensures AllSpace(s[..|s| - |r|])
  {
    if s == [] || !IsSpace(s[0]) then s
    else
      var t := TrimStart(s[1..]);
      assert s[1..][|s| - 1 - |t|..] == s[|s| - |t|..];
      assert forall i :: 1 <= i < |s| - |t| ==> s[i] == s[1..][i - 1];
      t
  }

  /** `s.trimEnd()`: the prefix left before the trailing white space. */
  function TrimEnd(s: string): (r: string)
    ensures |r| <= |s| && r == s[..|r|]
    ensures r == [] || !IsSpace(r[|r| - 1])
    ensures AllSpace(s[|r|..])
  {
    if s == [] || !IsSpace(s[|s| - 1]) then s
    else
      var t := TrimEnd(s[..|s| - 1]);
      assert s[..|s| - 1][..|t|] == s[..|t|];
      assert forall i :: |t| <= i < |s| - 1 ==> s[i] == s[..|s| - 1][i];
      t
  }

  /**
   * `s.trim()`: a contiguous slice of `s` that neither starts nor ends
   * with white space, with only white space cut off on either side.
   */
  function Trim(s: string): (r: string)
    ensures exists i, j :: 0 <= i <= j <= |s| && r == s[i..j] && AllSpace(s[..i]) && AllSpace(s[j..])
    ensures r == [] || (!IsSpace(r[0]) && !IsSpace(r[|r| - 1]))
  {
    var a := TrimStart(s);
    var r := TrimEnd(a);
    TrimSlice(s, a, r);
    r
  }

  /** Where `trim` cuts: after the leading white space and before the trailing white space. */
  lemma TrimSlice(s: string, a: string, r: string)
    requires |a| <= |s| && a == s[|s| - |a|..] && AllSpace(s[..|s| - |a|])
    requires |r| <= |a| && r == a[..|r|] && AllSpace(a[|r|..])
    ensures var i := |s| - |a|; var j := i + |r|;
      0 <= i <= j <= |s| && r == s[i..j] && AllSpace(s[..i]) && AllSpace(s[j..])
  {
    var i := |s| - |a|;
    var j := i + |r|;
    assert forall k :: 0 <= k < |r| ==> r[k] == a[k] == s[i + k];
    assert r == s[i..j];
    assert forall k :: 0 <= k < |s| - j ==> s[j..][k] == a[|r|..][k];
  }

  /** A string trims to the empty string exactly when it is all white space (`!s.trim()`). */
  lemma TrimBlank(s: string)
    ensures Trim(s) == [] <==> AllSpace(s)
  {
    var i, j :| 0 <= i <= j <= |s| && Trim(s) == s[i..j] && AllSpace(s[..i]) && AllSpace(s[j..]);
    if Trim(s) == [] {
      assert i == j;
      forall k | 0 <= k < |s| ensures IsSpace(s[k]) {
        if k < i { assert s[k] == s[..i][k]; } else { assert s[k] == s[j..][k - j]; }
      }
    } else {
      assert s[i] == Trim(s)[0];
    }
  }

  // ------------------------------------------------------------- parseInt

  /** The value of `c` as a digit of base `radix` (10 or 16), or -1 when it is not one. */
  function DigitValue(c: char, radix: int): (v: int)
    ensures -1 <= v && ((radix == 10 || radix == 16) ==> v < radix)
    ensures radix == 10 ==> (v >= 0 <==> '0' <= c <= '9')
  {
    if '0' <= c <= '9' then (c as int - '0' as int)
    else if radix == 16 && 'a' <= c <= 'f' then (c as int - 'a' as int + 10)
    else if radix == 16 && 'A' <= c <= 'F' then (c as int - 'A' as int + 10)
    else -1
  }

  predicate IsDigit(c: char, radix: int)
  {
    DigitValue(c, radix) >= 0
  }

  /** The length of the longest prefix of `s` made of base-`radix` digits. */
  function DigitRun(s: string, radix: int): (n: nat)
    ensures n <= |s|
    ensures forall i :: 0 <= i < n ==> IsDigit(s[i], radix)
    ensures n == |s| || !IsDigit(s[n], radix)
  {
    if s == [] || !IsDigit(s[0], radix) then 0
    else
      var n := DigitRun(s[1..], radix);
      assert forall i :: 1 <= i < 1 + n ==> s[i] == s[1..][i - 1];
      1 + n
  }

  /** The number a string of base-`radix` digits denotes, most significant digit first. */
  function DigitsValue(d: string, radix: int): (v: nat)
    requires radix == 10 || radix == 16
    requires forall i :: 0 <= i < |d| ==> IsDigit(d[i], radix)
  {
    if d == [] then 0
    else
      assert IsDigit(d[|d| - 1], radix);
      DigitsValue(d[..|d| - 1], radix) * radix + DigitValue(d[|d| - 1], radix)
  }

  /** The string starts with `0x` or `0X`. */
  predicate HexPrefix(s: string)
  {
    |s| >= 2 && s[0] == '0' && (s[1] == 'x' || s[1] == 'X')
  }

  /** What `parseInt` reads after skipping leading white space and one sign character. */
  function Unsigned(s: string): (u: string)
    ensures |u| <= |s|
  {
    var t := TrimStart(s);
    if t != [] && (t[0] == '+' || t[0] == '-') then t[1..] else t
  }

  /** The sign `parseInt` reads: a leading `-` after the white space. */
  predicate Negative(s: string)
  {
    var t := TrimStart(s);
    t != [] && t[0] == '-'
  }

  /**
   * `parseInt(s)` with no radix argument: leading white space is skipped,
   * one `+` or `-` sign is read, a `0x`/`0X` prefix switches to base 16,
   * and the longest run of digits that follows is the magnitude. `None` is
   * `NaN`, returned exactly when no digit follows; what follows the run is ignored.
   */
  function ParseInt(s: string): (r: Option<int>)
    ensures r.None? <==>
      (var u := Unsigned(s); if HexPrefix(u) then |u| == 2 || !IsDigit(u[2], 16) else u == [] || !IsDigit(u[0], 10))
    ensures r.Some? && r.value < 0 ==> Negative(s)
  {
    var u := Unsigned(s);
    var radix := if HexPrefix(u) then 16 else 10;
    var digits := if HexPrefix(u) then u[2..] else u;
    assert digits != [] ==> digits[0] == if HexPrefix(u) then u[2] else u[0];
    var n := DigitRun(digits, radix);
    if n == 0 then None
    else
      assert forall i :: 0 <= i < n ==> digits[..n][i] == digits[i];
      var m: int := DigitsValue(digits[..n], radix);
      Some(if Negative(s) then -m else m)
  }

  // ------------------------------------------------------------- toString

  /** The decimal digit character for `d`. */
  function DigitChar(d: int): (c: char)
    requires 0 <= d < 10
    ensures DigitValue(c, 10) == d
  {
    ('0' as int + d) as char
  }

  /** `n.toString()` for a non-negative integer: its decimal digits, no leading zero. */
  function DecimalString(n: nat): (r: string)
    ensures r != []
    ensures forall i :: 0 <= i < |r| ==> IsDigit(r[i], 10)
    ensures r[0] == '0' ==> n == 0 && |r| == 1
  {
    if n < 10 then [DigitChar(n)]
    else DecimalString(n / 10) + [DigitChar(n % 10)]
  }

  /** The decimal digits of `n` denote `n`. */
  lemma {:induction false} DecimalStringValue(n: nat)
    ensures DigitsValue(DecimalString(n), 10) == n
  {
    var r := DecimalString(n);
    if n >= 10 {
      DecimalStringValue(n / 10);
      assert r[..|r| - 1] == DecimalString(n / 10);
    }
  }

  /**
   * `parseInt` reads the decimal string of `n` back as `n`, whatever
   * non-digit text follows it (so `parseInt("12abc")` is 12), except that
   * `0` followed by `x` or `X` is read as a hexadecimal prefix instead.
   */
  lemma ParseDecimalPrefix(n: nat, rest: string)
    requires rest == [] || !IsDigit(rest[0], 10)
    requires n == 0 && rest != [] ==> rest[0] != 'x' && rest[0] != 'X'
    ensures ParseInt(DecimalString(n) + rest) == Some(n)
  {
    var r := DecimalString(n);
    var s := r + rest;
    assert s[0] == r[0] && IsDigit(r[0], 10) && !IsSpace(r[0]);
    assert TrimStart(s) == s;
    assert Unsigned(s) == s && !Negative(s);
    assert |r| >= 2 ==> s[1] == r[1];
    assert !HexPrefix(s);
    var k := DigitRun(s, 10);
    assert forall i :: 0 <= i < |r| ==> s[i] == r[i] && IsDigit(s[i], 10);
    assert |s| == |r| || s[|r|] == rest[0];
    assert k == |r|;
    assert s[..k] == r;
    DecimalStringValue(n);
  }

  /** Reading back the decimal string of `n` with `parseInt` gives `n`. */
  lemma ParseDecimalString(n: nat)
    ensures ParseInt(DecimalString(n)) == Some(n)
  {
    ParseDecimalPrefix(n, []);
    assert DecimalString(n) + [] == DecimalString(n);
  }

  /** Different numbers have different decimal strings. */
  lemma DecimalStringInjective(m: nat, n: nat)
    ensures DecimalString(m) == DecimalString(n) <==> m == n
  {
    if DecimalString(m) == DecimalString(n) {
      ParseDecimalString(m);
      ParseDecimalString(n);
    }
  }
}
