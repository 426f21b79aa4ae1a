/** The string operations the source borrows from JavaScript:
    `String.prototype.trim`, `startsWith`, `Number.prototype.toString` on
    non-negative integers and `parseInt` on a run of decimal digits. */
module Text {

  /** ECMAScript WhiteSpace and LineTerminator code points: exactly the
      characters `trim` removes. */
  predicate IsSpace(c: char) {
    || c == '\t' || c == '\n' || c == '\U{B}' || c == '\U{C}' || c == '\r'
    || c == ' ' || c == '\U{A0}' || c == '\U{1680}'
    || ('\U{2000}' <= c <= '\U{200A}')
    || c == '\U{2028}' || c == '\U{2029}' || c == '\U{202F}' || c == '\U{205F}'
    || c == '\U{3000}' || c == '\U{FEFF}'
  }

  predicate AllSpace(s: string) {
    forall k :: 0 <= k < |s| ==> IsSpace(s[k])
  }

  /** `s` with its leading whitespace removed. */
  function TrimStart(s: string): (r: string)
    ensures |r| <= |s| && r == s[|s| - |r|..]
    ensures r == [] || !IsSpace(r[0])
    ensures AllSpace(s[..|s| - |r|])
  {
    if |s| > 0 && IsSpace(s[0]) then TrimStart(s[1..]) else s
  }

  /** `s` with its trailing whitespace removed. */
  function TrimEnd(s: string): (r: string)
    ensures |r| <= |s| && r == s[..|r|]
    ensures r == [] || !IsSpace(r[|r| - 1])
    ensures AllSpace(s[|r|..])
  {
    if |s| > 0 && IsSpace(s[|s| - 1]) then TrimEnd(s[..|s| - 1]) else s
  }

  /** `s.trim()`: the infix of `s` left after removing whitespace at both
      ends; neither end of the result is whitespace and only whitespace was
      removed. */
  function Trim(s: string): (r: string)
    ensures r == [] || (!IsSpace(r[0]) && !IsSpace(r[|r| - 1]))
    ensures exists lo :: 0 <= lo <= |s| - |r| && r == s[lo..lo + |r|]
                         && AllSpace(s[..lo]) && AllSpace(s[lo + |r|..])
  {
    var a := TrimStart(s);
    var b := TrimEnd(a);
    var lo := |s| - |a|;
    assert a == s[lo..] && b == a[..|b|];
    assert b == s[lo..lo + |b|];
    assert AllSpace(s[..lo]);
    assert s[lo + |b|..] == a[|b|..];
    assert AllSpace(s[lo + |b|..]);
    b
  }

  /** A string trims to the empty string exactly when it is all whitespace,
      which is what the source's `!text.trim()` guards test. */
  lemma TrimEmptyIffAllSpace(s: string)
    ensures Trim(s) == [] <==> AllSpace(s)
  {
    TrimStartEmptyIffAllSpace(s);
    TrimEndEmptyIffEmpty(TrimStart(s));
  }

  /** Removing leading whitespace leaves nothing exactly when the string is
      all whitespace. */
  lemma TrimStartEmptyIffAllSpace(s: string)
    ensures TrimStart(s) == [] <==> AllSpace(s)
  {
    var a := TrimStart(s);
    if a == [] {
      assert s[..|s|] == s;
    } else {
      assert a[0] == s[|s| - |a|];
    }
  }

  /** A string that does not start with whitespace keeps something when its
      trailing whitespace is removed, unless it is empty. */
  lemma TrimEndEmptyIffEmpty(a: string)
    requires a == [] || !IsSpace(a[0])
    ensures TrimEnd(a) == [] <==> a == []
  {
  }

  /** Trimming a trimmed string changes nothing. */
  lemma TrimIdempotent(s: string)
    ensures Trim(Trim(s)) == Trim(s)
  {
    var r := Trim(s);
    assert TrimStart(r) == r;
    assert TrimEnd(r) == r;
  }

  /** `s.startsWith(prefix)`. */
  predicate StartsWith(s: string, prefix: string) {
    |prefix| <= |s| && s[..|prefix|] == prefix
  }

  /** The characters `\d` matches in a regular expression without the `u` flag. */
  predicate IsDigit(c: char) {
    '0' <= c <= '9'
  }

  predicate AllDigits(s: string) {
    forall k :: 0 <= k < |s| ==> IsDigit(s[k])
  }

  function DigitChar(d: nat): (c: char)
    requires d < 10
    ensures IsDigit(c)
  {
    ((('0' as int) + d) as char)
  }

  function DigitValue(c: char): (d: nat)
    requires IsDigit(c)
    ensures d < 10 && DigitChar(d) == c
  {
    (c as int) - ('0' as int)
  }

  /** `n.toString()` for a non-negative integer: its decimal digits, most
      significant first, without leading zeros. */
  function NatToString(n: nat): (r: string)
    ensures 1 <= |r|
    ensures AllDigits(r)
    ensures |r| > 1 ==> r[0] != '0'
  {
    if n < 10 then [DigitChar(n)]
    else NatToString(n / 10) + [DigitChar(n % 10)]
  }

  /** `parseInt(s, 10)` of a string of decimal digits (leading zeros allowed);
      the empty string reads as 0 here, where `parseInt` gives `NaN`, which
      every caller in the source maps to 0 anyway. */
  function ParseDecimal(s: string): nat
    requires AllDigits(s)
  {
    if s == [] then 0
    else 10 * ParseDecimal(s[..|s| - 1]) + DigitValue(s[|s| - 1])
  }

  /** Reading back the decimal rendering of `n` gives `n`. */
  lemma {:induction false} ParseNatToString(n: nat)
    ensures ParseDecimal(NatToString(n)) == n
  {
    var s := NatToString(n);
    if n >= 10 {
      assert s[..|s| - 1] == NatToString(n / 10);
      ParseNatToString(n / 10);
    }
  }

  /** Distinct numbers have distinct decimal renderings. */
  lemma NatToStringInjective(a: nat, b: nat)
    requires NatToString(a) == NatToString(b)
    ensures a == b
  {
    ParseNatToString(a);
    ParseNatToString(b);
  }

  function Pow10(k: nat): (r: nat)
    ensures r >= 1
  {
    if k == 0 then 1 else 10 * Pow10(k - 1)
  }

  /** The last `k` digits of `n`'s decimal rendering read back as `n mod 10^k`. */
  lemma {:induction false} ParseSuffix(n: nat, k: nat)
    requires k <= |NatToString(n)|
    ensures ParseDecimal(NatToString(n)[|NatToString(n)| - k..]) == n % Pow10(k)
  {
    var s := NatToString(n);
    if k == 0 {
      assert s[|s|..] == [];
    } else if n < 10 {
      assert s[|s| - k..] == s;
      assert s[..0] == [];
    } else {
      var t := NatToString(n / 10);
      assert s == t + [DigitChar(n % 10)];
      var suf := s[|s| - k..];
      assert suf[..|suf| - 1] == t[|t| - (k - 1)..];
      ParseSuffix(n / 10, k - 1);
      ModStep(n, Pow10(k - 1));
    }
  }

  /** `10 * ((n / 10) % m) + n % 10 == n % (10 * m)`. */
  lemma ModStep(n: nat, m: nat)
    requires m >= 1
    ensures 10 * ((n / 10) % m) + n % 10 == n % (10 * m)
  {
    var q := n / 10;
    var d := n % 10;
    var a := q / m;
    var b := q % m;
    assert n == 10 * q + d;
    assert q == m * a + b;
    assert n == (10 * m) * a + (10 * b + d) by {
      assert 10 * q == 10 * (m * a) + 10 * b;
      assert 10 * (m * a) == (10 * m) * a;
    }
    assert 0 <= 10 * b + d < 10 * m;
    ModUnique(n, 10 * m, a, 10 * b + d);
  }

  /** Euclidean division is unique: a quotient and an in-range remainder
      that reconstruct `n` are the ones `/` and `%` give. */
  lemma ModUnique(n: int, den: int, q: int, r: int)
    requires den > 0 && n == den * q + r && 0 <= r < den
    ensures n % den == r
  {
    var q0 := n / den;
    var r0 := n % den;
    assert den * (q0 - q) == r - r0 by {
      assert den * q0 + r0 == den * q + r;
    }
    if q0 > q {
      MulAtLeast(den, q0 - q);
    } else if q0 < q {
      MulAtLeast(den, q - q0);
    }
  }

  lemma MulAtLeast(den: int, k: int)
    requires den > 0 && k >= 1
    ensures den * k >= den
  {
  }

  /** The decimal rendering of `n` has at most `k` digits only if `n < 10^k`. */
  lemma {:induction false} NatToStringBound(n: nat)
    ensures n < Pow10(|NatToString(n)|)
  {
    if n >= 10 {
      NatToStringBound(n / 10);
    }
  }
}
