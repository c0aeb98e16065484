/**
 * The part of C's `atof` that the control channel relies on: optional
 * leading white space, an optional sign, then `digits[.digits]`. As with
 * `atof`, the longest prefix of that form is read, and a string with no
 * such prefix reads as zero.
 */
module Decimal {

  predicate IsDigit(c: char) {
    '0' <= c <= '9'
  }

  /** The characters C's `isspace` accepts: blank, and tab through carriage return. */
  predicate IsSpace(c: char) {
    c == ' ' || 9 <= c as int <= 13
  }

  predicate AllDigits(s: seq<char>) {
    forall i :: 0 <= i < |s| ==> IsDigit(s[i])
  }

  function DigitValue(c: char): (d: nat)
    requires IsDigit(c)
    ensures d < 10
  {
    c as int - '0' as int
  }

  function DigitChar(d: nat): (c: char)
    requires d < 10
    ensures IsDigit(c) && DigitValue(c) == d
  {
    ('0' as int + d) as char
  }

  /** Length of the run of digits that starts s. */
  function LeadingDigits(s: seq<char>): (k: nat)
    ensures k <= |s|
    ensures forall i :: 0 <= i < k ==> IsDigit(s[i])
    ensures k < |s| ==> !IsDigit(s[k])
  {
    if s == [] || !IsDigit(s[0]) then 0 else 1 + LeadingDigits(s[1..])
  }

  /** Value of a string of decimal digits, most significant first. */
  function NatValue(ds: seq<char>): nat
    requires AllDigits(ds)
  {
    if ds == [] then 0 else NatValue(ds[..|ds| - 1]) * 10 + DigitValue(ds[|ds| - 1])
  }

  /** Value of the digits after a decimal point: "25" reads as 0.25. */
  function FracValue(ds: seq<char>): (v: real)
    requires AllDigits(ds)
    ensures 0.0 <= v < 1.0
  {
    if ds == [] then 0.0 else (DigitValue(ds[0]) as real + FracValue(ds[1..])) / 10.0
  }

  /** What is left of s once its leading white space is skipped. */
  function SkipSpace(s: seq<char>): (t: seq<char>)
    ensures |t| <= |s| && t == s[|s| - |t|..]
    ensures t == [] || !IsSpace(t[0])
    ensures forall i :: 0 <= i < |s| - |t| ==> IsSpace(s[i])
  {
    if s != [] && IsSpace(s[0]) then SkipSpace(s[1..]) else s
  }

  /** The digits after a leading '.', if rest starts with one. */
  function FractionDigits(rest: seq<char>): (f: seq<char>)
    ensures AllDigits(f)
  {
    if rest != [] && rest[0] == '.' then rest[1..][..LeadingDigits(rest[1..])] else []
  }

  /** The value of the longest `digits[.digits]` prefix of u, or 0.0 when u has none. */
  function ParseUnsigned(u: seq<char>): (v: real)
    ensures v >= 0.0
  {
    var k := LeadingDigits(u);
    var frac := FractionDigits(u[k..]);
    if k == 0 && frac == [] then 0.0 else NatValue(u[..k]) as real + FracValue(frac)
  }

  /** The number at the start of s, or 0.0 when s does not start with one. */
  function ParseDecimal(s: seq<char>): (v: real)
    ensures v > 0.0 ==> SkipSpace(s) != [] && SkipSpace(s)[0] != '-'
  {
    var t := SkipSpace(s);
    if t != [] && t[0] == '-' then -ParseUnsigned(t[1..])
    else if t != [] && t[0] == '+' then ParseUnsigned(t[1..])
    else ParseUnsigned(t)
  }

  /** The decimal digits of k, without leading zeros: the inverse of NatValue. */
  function ShowNat(k: nat): (s: seq<char>)
    ensures s != [] && AllDigits(s)
    ensures NatValue(s) == k
  {
    if k < 10 then [DigitChar(k)]
    else
      var s := ShowNat(k / 10) + [DigitChar(k % 10)];
      assert s[..|s| - 1] == ShowNat(k / 10);
      s
  }

  lemma {:induction false} LeadingDigitsAppend(a: seq<char>, b: seq<char>)
    requires AllDigits(a)
    ensures LeadingDigits(a + b) == |a| + LeadingDigits(b)
  {
    if a == [] {
      assert a + b == b;
    } else {
      assert (a + b)[1..] == a[1..] + b;
      LeadingDigitsAppend(a[1..], b);
    }
  }

  /** A run of digits followed by something that is not a digit reads as the run's value plus the fraction after it. */
  lemma ParseUnsignedDigits(w: seq<char>, rest: seq<char>)
    requires w != [] && AllDigits(w)
    requires rest == [] || !IsDigit(rest[0])
    ensures ParseUnsigned(w + rest) == NatValue(w) as real + FracValue(FractionDigits(rest))
  {
    LeadingDigitsAppend(w, rest);
    assert (w + rest)[..|w|] == w;
    assert (w + rest)[|w|..] == rest;
  }

  /** Text that starts with a digit has no blank or sign to skip. */
  lemma ParseDecimalFromDigit(s: seq<char>)
    requires s != [] && IsDigit(s[0])
    ensures ParseDecimal(s) == ParseUnsigned(s)
  {
    assert SkipSpace(s) == s;
  }

  /** A natural number written out reads back as itself, whatever follows it that is not part of a number. */
  lemma ParseShowNat(k: nat, tail: seq<char>)
    requires tail == [] || !(IsDigit(tail[0]) || tail[0] in ".eE" || (k == 0 && tail[0] in "xX"))
    ensures ParseDecimal(ShowNat(k) + tail) == k as real
  {
    var w := ShowNat(k);
    assert (w + tail)[0] == w[0];
    ParseDecimalFromDigit(w + tail);
    ParseUnsignedDigits(w, tail);
  }

  /** The digits after the point are exactly ds when nothing after them is a digit. */
  lemma FractionDigitsOf(ds: seq<char>, tail: seq<char>)
    requires AllDigits(ds)
    requires tail == [] || !IsDigit(tail[0])
    ensures FractionDigits("." + ds + tail) == ds
  {
    assert ("." + ds + tail)[1..] == ds + tail;
    LeadingDigitsAppend(ds, tail);
    assert (ds + tail)[..|ds|] == ds;
  }

  /** "whole.digits" reads as the value of the whole digits plus the fraction the other digits spell. */
  lemma ParseDigitsDotDigits(w: seq<char>, ds: seq<char>, tail: seq<char>)
    requires w != [] && AllDigits(w) && AllDigits(ds)
    requires tail == [] || !(IsDigit(tail[0]) || tail[0] in "eE")
    ensures ParseDecimal(w + "." + ds + tail) == NatValue(w) as real + FracValue(ds)
  {
    var rest := "." + ds + tail;
    assert w + "." + ds + tail == w + rest;
    assert (w + rest)[0] == w[0];
    ParseDecimalFromDigit(w + rest);
    ParseUnsignedDigits(w, rest);
    FractionDigitsOf(ds, tail);
  }

  /** A leading point and digits read as the fraction the digits spell: ".5" reads as 0.5. */
  lemma LeadingPointFraction(ds: seq<char>, tail: seq<char>)
    requires ds != [] && AllDigits(ds)
    requires tail == [] || !(IsDigit(tail[0]) || tail[0] in "eE")
    ensures ParseDecimal("." + ds + tail) == FracValue(ds)
  {
    var u := "." + ds + tail;
    assert u[0] == '.' && !IsSpace(u[0]);
    assert SkipSpace(u) == u;
    assert LeadingDigits(u) == 0;
    assert u[0..] == u;
    FractionDigitsOf(ds, tail);
  }

  /** A whole number written out, a point and digits read back as the number plus the fraction. */
  lemma ParseShowDecimal(k: nat, ds: seq<char>, tail: seq<char>)
    requires AllDigits(ds)
    requires tail == [] || !(IsDigit(tail[0]) || tail[0] in "eE")
    ensures ParseDecimal(ShowNat(k) + "." + ds + tail) == k as real + FracValue(ds)
  {
    ParseDigitsDotDigits(ShowNat(k), ds, tail);
  }

  /**
   * Text whose first non-blank character cannot begin a number reads as
   * zero, as `atof` reads it; 'i' and 'n' are left out because `atof` reads
   * "inf" and "nan" as numbers.
   */
  lemma NoNumberReadsZero(s: seq<char>)
    requires var t := SkipSpace(s); t == [] || !(IsDigit(t[0]) || t[0] in "+-.iInN")
    ensures ParseDecimal(s) == 0.0
  {
    assert LeadingDigits(SkipSpace(s)) == 0;
  }

  /** A leading white-space character is skipped and changes nothing. */
  lemma BlankSkipped(c: char, s: seq<char>)
    requires IsSpace(c)
    ensures ParseDecimal([c] + s) == ParseDecimal(s)
  {
    assert ([c] + s)[1..] == s;
  }

  /** A leading '+' is dropped. */
  lemma PlusSignRead(u: seq<char>)
    ensures ParseDecimal(['+'] + u) == ParseUnsigned(u)
  {
    var t := ['+'] + u;
    assert t[0] == '+' && !IsSpace(t[0]);
    assert SkipSpace(t) == t;
    assert t[1..] == u;
  }

  /** A leading '-' negates the unsigned value that follows. */
  lemma MinusSignRead(u: seq<char>)
    ensures ParseDecimal(['-'] + u) == -ParseUnsigned(u)
  {
    var t := ['-'] + u;
    assert t[0] == '-' && !IsSpace(t[0]);
    assert SkipSpace(t) == t;
    assert t[1..] == u;
  }
}
