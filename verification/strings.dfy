/** Python's decimal rendering of integers (`str(i)` and f-string interpolation)
    and its substring test (`t in s`), the two string operations the engine's
    error handling and the window error messages rely on. */
module Strings {

  predicate IsDigit(c: char) {
    '0' <= c <= '9'
  }

  predicate AllDigits(s: string) {
    forall k :: 0 <= k < |s| ==> IsDigit(s[k])
  }

  function DigitChar(d: nat): (c: char)
    requires d < 10
    ensures IsDigit(c)
  {
    ('0' as int + d) as char
  }

  function DigitValue(c: char): (d: nat)
    requires IsDigit(c)
    ensures d < 10
    ensures DigitChar(d) == c
  {
    c as int - '0' as int
  }

  /** Decimal digits of `n`, most significant first, no leading zeros. */
  function NatToString(n: nat): (s: string)
    ensures |s| >= 1 && AllDigits(s)
    ensures s[0] == '0' <==> n == 0
    ensures |s| > 1 ==> s[0] != '0'
    decreases n
  {
    if n < 10 then [DigitChar(n)] else NatToString(n / 10) + [DigitChar(n % 10)]
  }

  /** Well-formed output of `str` on an int: an optional minus sign and digits. */
  predicate IsDecimalText(s: string) {
    if |s| > 0 && s[0] == '-' then |s| >= 2 && AllDigits(s[1..]) else |s| >= 1 && AllDigits(s)
  }

  /** Decimal text exactly as `str` writes it: no leading zero except in "0"
      itself, and no "-0". */
  predicate IsCanonicalDecimal(s: string) {
    && IsDecimalText(s)
    && (var d := if s[0] == '-' then s[1..] else s;
        (|d| > 1 ==> d[0] != '0') && (s[0] == '-' ==> d[0] != '0'))
  }

  /** Python's `str(i)` for an int `i`. */
  function IntToString(i: int): (s: string)
    ensures IsCanonicalDecimal(s)
    ensures s[0] == '-' <==> i < 0
  {
    if i < 0 then "-" + NatToString(-i) else NatToString(i)
  }

  function ParseNat(s: string): nat
    requires AllDigits(s)
    decreases |s|
  {
    if |s| == 0 then 0 else ParseNat(s[..|s| - 1]) * 10 + DigitValue(s[|s| - 1])
  }

  function Pow10(k: nat): (r: nat)
    ensures r >= 1
  {
    if k == 0 then 1 else 10 * Pow10(k - 1)
  }

  /** A number below 10^k has at most k digits, and its last digit is `n % 10`. */
  lemma {:induction false} NatToStringDigits(n: nat, k: nat)
    requires 1 <= k && n < Pow10(k)
    ensures |NatToString(n)| <= k
    ensures NatToString(n)[|NatToString(n)| - 1] == DigitChar(n % 10)
    decreases k
  {
    if n >= 10 {
      assert k > 1;
      NatToStringDigits(n / 10, k - 1);
    }
  }

  /** Reads back what `IntToString` writes (Python's `int(s)` on decimal text). */
  function ParseInt(s: string): int
    requires IsDecimalText(s)
  {
    if |s| > 0 && s[0] == '-' then 0 - ParseNat(s[1..]) as int else ParseNat(s)
  }

  lemma {:induction false} ParseNatToString(n: nat)
    ensures ParseNat(NatToString(n)) == n
    decreases n
  {
    if n >= 10 {
      var s := NatToString(n);
      assert s[..|s| - 1] == NatToString(n / 10);
      ParseNatToString(n / 10);
    }
  }

  /** `str` on ints loses nothing: the decimal text reads back as the same int. */
  lemma IntToStringRoundTrip(i: int)
    ensures ParseInt(IntToString(i)) == i
  {
    if i < 0 {
      assert IntToString(i)[1..] == NatToString(-i);
      ParseNatToString(-i);
    } else {
      ParseNatToString(i);
    }
  }

  /** Digits with a nonzero lead digit denote a positive number. */
  lemma {:induction false} ParseNatLeading(d: string)
    requires AllDigits(d) && |d| >= 1 && d[0] != '0'
    ensures ParseNat(d) >= 1
    decreases |d|
  {
    var p := d[..|d| - 1];
    if |d| > 1 {
      assert p[0] == d[0];
      ParseNatLeading(p);
    } else {
      assert p == [];
    }
  }

  /** Digits without a leading zero are what `NatToString` writes for their value. */
  lemma {:induction false} NatToStringParse(d: string)
    requires AllDigits(d) && |d| >= 1 && (|d| > 1 ==> d[0] != '0')
    ensures NatToString(ParseNat(d)) == d
    decreases |d|
  {
    var p := d[..|d| - 1];
    var v := DigitValue(d[|d| - 1]);
    if |d| == 1 {
      assert p == [];
      assert d == [DigitChar(v)];
    } else {
      assert p[0] == d[0];
      ParseNatLeading(p);
      NatToStringParse(p);
      var n := ParseNat(d);
      assert n / 10 == ParseNat(p) && n % 10 == v;
      assert d == p + [d[|d| - 1]];
    }
  }

  /** `str(i)` is the only canonical decimal text that reads back as `i`. */
  lemma CanonicalDecimalIsIntToString(s: string, i: int)
    requires IsCanonicalDecimal(s) && ParseInt(s) == i
    ensures s == IntToString(i)
  {
    if s[0] == '-' {
      var d := s[1..];
      ParseNatLeading(d);
      NatToStringParse(d);
      assert s == "-" + d;
    } else {
      NatToStringParse(s);
    }
  }

  predicate StartsWith(s: string, t: string) {
    |t| <= |s| && s[..|t|] == t
  }

  /** Python's substring test `t in s`. */
  predicate Contains(s: string, t: string)
    ensures |t| == 0 ==> Contains(s, t)
    ensures Contains(s, t) ==> |t| <= |s|
    decreases |s|
  {
    StartsWith(s, t) || (|s| > 0 && Contains(s[1..], t))
  }

  /** A text shorter than `t` cannot contain it. */
  lemma {:induction false} ContainsNeedsRoom(s: string, t: string)
    requires |s| < |t|
    ensures !Contains(s, t)
    decreases |s|
  {
    if |s| > 0 {
      ContainsNeedsRoom(s[1..], t);
    }
  }

  /** An occurrence of `t` in `s` at offset `i`. */
  ghost predicate OccursAt(s: string, t: string, i: nat) {
    i + |t| <= |s| && s[i..i + |t|] == t
  }

  /** The recursive substring test agrees with the positional definition. */
  lemma {:induction false} ContainsIffOccurs(s: string, t: string)
    ensures Contains(s, t) <==> exists i: nat :: OccursAt(s, t, i)
    decreases |s|
  {
    if StartsWith(s, t) {
      assert OccursAt(s, t, 0);
    } else if |s| > 0 {
      ContainsIffOccurs(s[1..], t);
      forall i: nat | i > 0 && OccursAt(s, t, i)
        ensures OccursAt(s[1..], t, i - 1)
      {
        assert s[1..][i - 1..i - 1 + |t|] == s[i..i + |t|];
      }
      if Contains(s[1..], t) {
        var i: nat :| OccursAt(s[1..], t, i);
        assert s[1..][i..i + |t|] == s[i + 1..i + 1 + |t|];
        assert OccursAt(s, t, i + 1);
      } else {
        assert !OccursAt(s, t, 0);
      }
    } else {
      assert |t| > 0;
    }
  }

  /** A prefix none of whose characters can begin `t` cannot hold or straddle an
      occurrence of `t`: `t in p + s` exactly when `t in s`. */
  lemma {:induction false} ContainsSkipsPrefix(p: string, s: string, t: string)
    requires |t| > 0
    requires forall k :: 0 <= k < |p| ==> p[k] != t[0]
    ensures Contains(p + s, t) <==> Contains(s, t)
    decreases |p|
  {
    if |p| == 0 {
      assert p + s == s;
    } else {
      assert (p + s)[0] == p[0];
      assert !StartsWith(p + s, t);
      assert (p + s)[1..] == p[1..] + s;
      ContainsSkipsPrefix(p[1..], s, t);
    }
  }
}
