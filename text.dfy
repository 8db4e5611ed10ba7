/** The few Python string operations the pipeline relies on, on `string`
    (a sequence of Unicode scalar values): `startswith`, `endswith`, the
    substring test `sub in s`, `s.replace(pat, "")`, `str(n)` for an integer
    and `int(s)` for a decimal string. */
module Text {

  import opened Wrappers

  /** Python `s.startswith(p)`. */
  predicate StartsWith(s: string, p: string) {
    |p| <= |s| && s[..|p|] == p
  }

  /** Python `s.endswith(p)`. */
  predicate EndsWith(s: string, p: string) {
    |p| <= |s| && s[|s| - |p|..] == p
  }

  /** Python `sub in s`: `sub` occurs somewhere in `s`. */
  predicate Contains(s: string, sub: string)
    decreases |s|
  {
    StartsWith(s, sub) || (|s| > 0 && Contains(s[1..], sub))
  }

  /** A string that ends with `p` contains `p`. */
  lemma {:induction false} EndsWithContains(s: string, p: string)
    ensures EndsWith(s, p) ==> Contains(s, p)
    decreases |s|
  {
    if EndsWith(s, p) {
      if |s| == |p| {
        assert s[..|p|] == s[|s| - |p|..];
      } else {
        assert s[1..][|s[1..]| - |p|..] == s[|s| - |p|..];
        EndsWithContains(s[1..], p);
      }
    }
  }

  /** Python `s.replace(pat, "")`: every non-overlapping occurrence of
      `pat`, scanned left to right, is removed. */
  function RemoveAll(s: string, pat: string): string
    requires |pat| > 0
    decreases |s|
  {
    if |s| == 0 then s
    else if StartsWith(s, pat) then RemoveAll(s[|pat|..], pat)
    else [s[0]] + RemoveAll(s[1..], pat)
  }

  /** The shadow-column marker appended to historical column names. */
  const PastMarker: string := "_past"

  /** Removing the marker from `b + "_past"` gives back `b` when `b` holds no
      marker of its own: the marker has no proper prefix that is also a
      suffix, so no occurrence can straddle the end of `b`. */
  lemma {:induction false} RemoveMarkerFromSuffixed(b: string)
    requires !Contains(b, PastMarker)
    ensures RemoveAll(b + PastMarker, PastMarker) == b
    decreases |b|
  {
    var s := b + PastMarker;
    if |b| == 0 {
      assert s == PastMarker;
      assert s[|PastMarker|..] == [];
    } else {
      // An occurrence at the front would lie inside b, or would put the
      // marker's leading '_' where the marker has none (|b| < 5).
      assert |b| >= |PastMarker| ==> b[..|PastMarker|] == s[..|PastMarker|];
      assert |b| < |PastMarker| ==> s[|b|] == '_' && PastMarker[|b|] != '_';
      assert !StartsWith(s, PastMarker);
      assert !Contains(b[1..], PastMarker);
      assert s[1..] == b[1..] + PastMarker;
      RemoveMarkerFromSuffixed(b[1..]);
      assert b == [b[0]] + b[1..];
    }
  }

  // ----- decimal integers -----

  predicate IsDigit(c: char) {
    '0' <= c <= '9'
  }

  function DigitChar(d: nat): (c: char)
    requires d < 10
    ensures IsDigit(c)
  {
    (48 + d) as char
  }

  function DigitValue(c: char): nat
    requires IsDigit(c)
  {
    c as int - 48
  }

  predicate AllDigits(s: string) {
    forall i :: 0 <= i < |s| ==> IsDigit(s[i])
  }

  /** Python `str(n)` for a non-negative integer: its decimal digits, most
      significant first, with no leading zero. */
  function NatToString(n: nat): (r: string)
    ensures |r| > 0 && AllDigits(r)
    ensures |r| > 1 ==> r[0] != '0'
    decreases n
  {
    if n < 10 then [DigitChar(n)]
    else NatToString(n / 10) + [DigitChar(n % 10)]
  }

  /** Python `str(i)` for any integer. */
  function IntToString(i: int): string {
    if i < 0 then "-" + NatToString(-i) else NatToString(i)
  }

  /** The value of a string of decimal digits. */
  function ParseNat(s: string): nat
    requires AllDigits(s)
    decreases |s|
  {
    if |s| == 0 then 0
    else ParseNat(s[..|s| - 1]) * 10 + DigitValue(s[|s| - 1])
  }

  /** Python `int(s)` on an optionally signed string of decimal digits;
      `None` stands for the `ValueError` raised on anything else. */
  function ParseInt(s: string): Option<int> {
    if |s| > 1 && s[0] == '-' && AllDigits(s[1..]) then Some(-(ParseNat(s[1..]) as int))
    else if |s| > 0 && AllDigits(s) then Some(ParseNat(s))
    else None
  }

  /** Reading back the decimal form of a natural number gives the number. */
  lemma {:induction false} NatRoundTrip(n: nat)
    ensures ParseNat(NatToString(n)) == n
    decreases n
  {
    var s := NatToString(n);
    if n >= 10 {
      assert s[..|s| - 1] == NatToString(n / 10);
      NatRoundTrip(n / 10);
    }
  }

  /** `int(str(i)) == i` for every integer `i`. */
  lemma IntRoundTrip(i: int)
    ensures ParseInt(IntToString(i)) == Some(i)
  {
    if i < 0 {
      var s := IntToString(i);
      assert s[1..] == NatToString(-i);
      NatRoundTrip(-i);
    } else {
      NatRoundTrip(i);
    }
  }

  /** Distinct integers have distinct decimal forms. */
  lemma IntToStringInjective(a: int, b: int)
    requires IntToString(a) == IntToString(b)
    ensures a == b
  {
    IntRoundTrip(a);
    IntRoundTrip(b);
  }

  /** Two strings of digits followed by the same kind of non-digit text are
      equal only when the digit parts are equal. */
  lemma DigitPrefixUnique(y1: string, t1: string, y2: string, t2: string)
    requires AllDigits(y1) && AllDigits(y2)
    requires |t1| > 0 && !IsDigit(t1[0]) && |t2| > 0 && !IsDigit(t2[0])
    requires y1 + t1 == y2 + t2
    ensures y1 == y2 && t1 == t2
  {
    var s := y1 + t1;
    // both digit parts end where s has its first non-digit
    assert forall i :: 0 <= i < |y1| ==> IsDigit(s[i]);
    assert !IsDigit(s[|y1|]);
    assert forall i :: 0 <= i < |y2| ==> IsDigit(s[i]);
    assert !IsDigit(s[|y2|]);
    assert y1 == s[..|y1|] == y2;
    assert t1 == s[|y1|..] == t2;
  }
}
