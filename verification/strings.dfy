/** The string operations the logging core applies to messages and level
    names: Python 2's `str.lower()` on byte strings, the substring test
    `p in s`, and the decimal notation that `int()` reads. */
module Strings {
  import opened Options

  predicate IsUpper(c: char) {
    'A' <= c <= 'Z'
  }

  /** `c.lower()` for one character of a byte string in the C locale. */
  function LowerChar(c: char): char {
    if IsUpper(c) then (c as int + 32) as char else c
  }

  /** `s.lower()`: every upper-case ASCII letter becomes lower-case, every
      other character is kept. */
  function Lower(s: string): (r: string)
    ensures |r| == |s|
    ensures forall i :: 0 <= i < |r| ==> !IsUpper(r[i])
    ensures forall i :: 0 <= i < |s| && !IsUpper(s[i]) ==> r[i] == s[i]
    ensures forall i :: 0 <= i < |s| && IsUpper(s[i]) ==> r[i] as int == s[i] as int + 32
  {
    seq(|s|, i requires 0 <= i < |s| => LowerChar(s[i]))
  }

  /** Lower-casing twice is lower-casing once. */
  lemma LowerIdempotent(s: string)
    ensures Lower(Lower(s)) == Lower(s)
  {
    var once := Lower(s);
    assert forall i :: 0 <= i < |once| ==> Lower(once)[i] == once[i];
  }

  /** `p` occurs in `s` starting at index `i`. */
  ghost predicate OccursAt(p: string, s: string, i: int) {
    0 <= i && i + |p| <= |s| && s[i..i + |p|] == p
  }

  /** `p` occurs somewhere in `s`. */
  ghost predicate Occurs(p: string, s: string) {
    exists i :: OccursAt(p, s, i)
  }

  lemma OccursAtShift(p: string, s: string, i: int)
    requires |s| > 0 && 0 <= i
    ensures OccursAt(p, s[1..], i) <==> OccursAt(p, s, i + 1)
  {
    if 0 <= i && i + |p| <= |s| - 1 {
      assert s[1..][i..i + |p|] == s[i + 1..i + 1 + |p|];
    }
  }

  /** Python's `p in s` for strings: a scan from the left. */
  function Contains(s: string, p: string): (r: bool)
    ensures r <==> Occurs(p, s)
    decreases |s|
  {
    if |s| < |p| then
      assert forall i :: !OccursAt(p, s, i);
      false
    else if s[..|p|] == p then
      assert OccursAt(p, s, 0);
      true
    else
      var rest := Contains(s[1..], p);
      assert rest <==> exists i :: OccursAt(p, s, i) by {
        forall i | OccursAt(p, s, i)
          ensures OccursAt(p, s[1..], i - 1)
        {
          assert i != 0;
          OccursAtShift(p, s, i - 1);
        }
        forall i | OccursAt(p, s[1..], i)
          ensures OccursAt(p, s, i + 1)
        {
          OccursAtShift(p, s, i);
        }
      }
      rest
  }

  // ---------------------------------------------------------------------
  // Decimal notation, as read by Python 2's int() on a string.

  predicate IsDigit(c: char) {
    '0' <= c <= '9'
  }

  /** The characters `str.isspace()` accepts in the C locale: space, tab,
      line feed, vertical tab, form feed and carriage return. */
  predicate IsSpace(c: char) {
    c == ' ' || 9 <= c as int <= 13
  }

  predicate AllDigits(s: string) {
    forall i :: 0 <= i < |s| ==> IsDigit(s[i])
  }

  function DigitValue(c: char): nat
    requires IsDigit(c)
  {
    c as int - '0' as int
  }

  function DigitChar(d: nat): (c: char)
    requires d < 10
    ensures IsDigit(c) && DigitValue(c) == d
  {
    ('0' as int + d) as char
  }

  /** The number a run of decimal digits denotes, most significant first. */
  function DigitsValue(ds: string): nat
    requires AllDigits(ds)
  {
    if |ds| == 0 then 0
    else DigitsValue(ds[..|ds| - 1]) * 10 + DigitValue(ds[|ds| - 1])
  }

  /** The shortest decimal spelling of `n`. */
  function Digits(n: nat): (ds: string)
    ensures 0 < |ds| && AllDigits(ds)
    ensures DigitsValue(ds) == n
    decreases n
  {
    if n < 10 then [DigitChar(n)]
    else
      var ds := Digits(n / 10) + [DigitChar(n % 10)];
      assert ds[..|ds| - 1] == Digits(n / 10);
      ds
  }

  /** `str(n)` for an integer. */
  function Decimal(n: int): string {
    if n < 0 then "-" + Digits(-n) else Digits(n)
  }

  function TrimStart(s: string): (r: string)
    ensures |r| <= |s| && r == s[|s| - |r|..]
    ensures |r| > 0 ==> !IsSpace(r[0])
    ensures forall i :: 0 <= i < |s| - |r| ==> IsSpace(s[i])
  {
    if |s| > 0 && IsSpace(s[0]) then TrimStart(s[1..]) else s
  }

  function TrimEnd(s: string): (r: string)
    ensures |r| <= |s| && r == s[..|r|]
    ensures |r| > 0 ==> !IsSpace(r[|r| - 1])
    ensures forall i :: |r| <= i < |s| ==> IsSpace(s[i])
  {
    if |s| > 0 && IsSpace(s[|s| - 1]) then TrimEnd(s[..|s| - 1]) else s
  }

  /** `s.strip()` with no argument. */
  function Strip(s: string): string {
    TrimEnd(TrimStart(s))
  }

  /** The integer Python 2's `int(s)` returns for a string `s`, or None where
      it raises ValueError: surrounding white space is ignored, then an
      optional sign, white space (skipped after a sign as before one), and
      at least one ASCII decimal digit must make up the rest. */
  function ParseInt(s: string): (r: Option<int>)
    ensures var t := Strip(s);
      r.Some? <==>
        || (0 < |t| && AllDigits(t))
        || (1 < |t| && (t[0] == '+' || t[0] == '-') && 0 < |TrimStart(t[1..])| && AllDigits(TrimStart(t[1..])))
  {
    ParseSigned(Strip(s))
  }

  /** The integer a stripped string spells: an optional sign, then digits,
      with any white space between the sign and the digits skipped. */
  function ParseSigned(t: string): Option<int> {
    if |t| == 0 then None
    else if t[0] == '-' || t[0] == '+' then
      match Unsigned(TrimStart(t[1..]))
      case None => None
      case Some(magnitude) =>
        var m: int := magnitude;
        Some(if t[0] == '-' then -m else m)
    else Unsigned(t)
  }

  /** The value of a non-empty run of digits, or None for anything else. */
  function Unsigned(b: string): (r: Option<nat>)
    ensures r.Some? <==> 0 < |b| && AllDigits(b)
    ensures r.Some? ==> r.value == DigitsValue(b)
  {
    if 0 < |b| && AllDigits(b) then Some(DigitsValue(b)) else None
  }

  /** A sign followed by digits worth `v` reads as `v`, negated for `-`. */
  lemma SignedDigits(t: string, v: int)
    requires 1 < |t| && (t[0] == '+' || t[0] == '-') && AllDigits(t[1..])
    requires DigitsValue(t[1..]) == v
    ensures ParseInt(t) == Some(if t[0] == '-' then -v else v)
  {
    SignedGap(t, [], t[1..], v);
  }

  /** A sign, white space, then digits worth `v`: the sign applies to `v`. */
  lemma SignedGap(t: string, gap: string, d: string, v: int)
    requires 1 < |t| && (t[0] == '+' || t[0] == '-') && t[1..] == gap + d
    requires forall i :: 0 <= i < |gap| ==> IsSpace(gap[i])
    requires 0 < |d| && AllDigits(d) && DigitsValue(d) == v
    ensures Strip(t) == t && TrimStart(t[1..]) == d
    ensures ParseInt(t) == Some(if t[0] == '-' then -v else v)
  {
    assert IsDigit(d[0]) && IsDigit(d[|d| - 1]);
    assert t[|t| - 1] == d[|d| - 1];
    StripUnpadded(t);
    TrimStartPadding(gap, d);
    assert Unsigned(d) == Some(v);
    SignedBody(t, d, v);
  }

  lemma SignedBody(t: string, d: string, v: int)
    requires 1 < |t| && (t[0] == '+' || t[0] == '-')
    requires TrimStart(t[1..]) == d && Unsigned(d).Some? && Unsigned(d).value == v
    ensures ParseSigned(t) == Some(if t[0] == '-' then -v else v)
  {
  }

  /** Reading back what `str(n)` wrote gives `n`. */
  lemma ParseDecimal(n: int)
    ensures ParseInt(Decimal(n)) == Some(n)
  {
    var d := Decimal(n);
    if n < 0 {
      assert d[1..] == Digits(-n);
      SignedDigits(d, -n);
    } else {
      assert IsDigit(d[0]) && IsDigit(d[|d| - 1]);
      StripUnpadded(d);
    }
  }

  /** Surrounding white space does not change what `int()` reads. */
  lemma ParseIgnoresPadding(pre: string, s: string, post: string)
    requires forall i :: 0 <= i < |pre| ==> IsSpace(pre[i])
    requires forall i :: 0 <= i < |post| ==> IsSpace(post[i])
    requires 0 < |s| && !IsSpace(s[0]) && !IsSpace(s[|s| - 1])
    ensures ParseInt(pre + s + post) == ParseInt(s)
  {
    TrimStartPadding(pre, s + post);
    assert pre + s + post == pre + (s + post);
    TrimEndPadding(s, post);
    assert Strip(pre + s + post) == s;
    assert TrimStart(s) == s;
    assert Strip(s) == s;
  }

  lemma {:induction false} TrimStartPadding(pre: string, s: string)
    requires forall i :: 0 <= i < |pre| ==> IsSpace(pre[i])
    requires 0 < |s| && !IsSpace(s[0])
    ensures TrimStart(pre + s) == s
    decreases |pre|
  {
    if |pre| > 0 {
      assert (pre + s)[1..] == pre[1..] + s;
      TrimStartPadding(pre[1..], s);
    } else {
      assert pre + s == s;
    }
  }

  lemma {:induction false} TrimEndPadding(s: string, post: string)
    requires forall i :: 0 <= i < |post| ==> IsSpace(post[i])
    requires 0 < |s| && !IsSpace(s[|s| - 1])
    ensures TrimEnd(s + post) == s
    decreases |post|
  {
    if |post| > 0 {
      assert (s + post)[..|s + post| - 1] == s + post[..|post| - 1];
      TrimEndPadding(s, post[..|post| - 1]);
    } else {
      assert s + post == s;
    }
  }

  /** Leading zeros add nothing to the value of a run of digits. */
  lemma {:induction false} LeadingZeros(zeros: string, ds: string)
    requires forall i :: 0 <= i < |zeros| ==> zeros[i] == '0'
    requires AllDigits(ds)
    ensures AllDigits(zeros + ds)
    ensures DigitsValue(zeros + ds) == DigitsValue(ds)
    decreases |ds|
  {
    var all := zeros + ds;
    if |ds| == 0 {
      assert all == zeros;
      AllZeros(zeros);
    } else {
      assert all[..|all| - 1] == zeros + ds[..|ds| - 1];
      LeadingZeros(zeros, ds[..|ds| - 1]);
    }
  }

  lemma {:induction false} AllZeros(zeros: string)
    requires forall i :: 0 <= i < |zeros| ==> zeros[i] == '0'
    ensures AllDigits(zeros) && DigitsValue(zeros) == 0
    decreases |zeros|
  {
    if |zeros| > 0 {
      AllZeros(zeros[..|zeros| - 1]);
    }
  }

  /** A string with no white space at either end is its own strip. */
  lemma StripUnpadded(t: string)
    requires 0 < |t| && !IsSpace(t[0]) && !IsSpace(t[|t| - 1])
    ensures Strip(t) == t
  {
    assert TrimStart(t) == t;
  }

  /** `int()` reads leading zeros as Python does: `int("007") == 7`. */
  lemma ZerosParse(zeros: string, n: nat)
    requires forall i :: 0 <= i < |zeros| ==> zeros[i] == '0'
    ensures ParseInt(zeros + Digits(n)) == Some(n)
  {
    var t := zeros + Digits(n);
    LeadingZeros(zeros, Digits(n));
    assert IsDigit(t[0]) && IsDigit(t[|t| - 1]);
    StripUnpadded(t);
  }

  /** An explicit plus sign changes nothing: `int("+007") == 7`. */
  lemma PlusParse(zeros: string, n: nat)
    requires forall i :: 0 <= i < |zeros| ==> zeros[i] == '0'
    ensures ParseInt("+" + zeros + Digits(n)) == Some(n)
  {
    SignedZeros('+', zeros, Digits(n), n);
  }

  /** A minus sign before leading zeros negates the digits: `int("-007") == -7`. */
  lemma MinusParse(zeros: string, n: nat)
    requires forall i :: 0 <= i < |zeros| ==> zeros[i] == '0'
    ensures var m: int := -(n as int); ParseInt("-" + zeros + Digits(n)) == Some(m)
  {
    SignedZeros('-', zeros, Digits(n), n);
  }

  lemma SignedZeros(sign: char, zeros: string, ds: string, v: int)
    requires sign == '+' || sign == '-'
    requires forall i :: 0 <= i < |zeros| ==> zeros[i] == '0'
    requires 0 < |ds| && AllDigits(ds) && DigitsValue(ds) == v
    ensures ParseInt([sign] + zeros + ds) == Some(if sign == '-' then -v else v)
  {
    var t := [sign] + zeros + ds;
    assert t[1..] == zeros + ds;
    LeadingZeros(zeros, ds);
    SignedDigits(t, v);
  }

  /** White space between the sign and the digits is skipped, as the C
      conversion under Python 2's `int()` skips it: `int("- 7") == -7`
      for any digits `ds` worth `v`. */
  lemma SpaceAfterSign(sign: char, gap: string, ds: string, v: int)
    requires sign == '+' || sign == '-'
    requires forall i :: 0 <= i < |gap| ==> IsSpace(gap[i])
    requires 0 < |ds| && AllDigits(ds) && DigitsValue(ds) == v
    ensures ParseInt([sign] + (gap + ds)) == Some(if sign == '-' then -v else v)
  {
    var t := [sign] + (gap + ds);
    assert t[1..] == gap + ds;
    SignedGap(t, gap, ds, v);
  }
}
