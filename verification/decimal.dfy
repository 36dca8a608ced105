/**
 * Decimal text for integers, as the source produces it (`current::ToString`,
 * `Printf("%d")`) and reads it back (`sscanf` with a `%d` directive).
 * Integers are unbounded here: `%d` overflow is not modelled.
 */
module Decimal {

  predicate IsDigit(c: char) {
    '0' <= c <= '9'
  }

  /** The characters C's `isspace` accepts in the "C" locale. */
  predicate IsSpace(c: char) {
    c == ' ' || c == '\t' || c == '\n' || c == '\r' || c == 11 as char || c == 12 as char
  }

  predicate AllDigits(s: string) {
    forall i :: 0 <= i < |s| ==> IsDigit(s[i])
  }

  function DigitChar(d: nat): (c: char)
    requires d < 10
    ensures IsDigit(c)
  {
    ('0' as int + d) as char
  }

  function DigitValue(c: char): (d: nat)
    requires IsDigit(c)
    ensures d < 10
  {
    c as int - '0' as int
  }

  /** The value a run of decimal digits denotes, most significant first. */
  function DigitsValue(ds: string): nat
    requires AllDigits(ds)
  {
    if |ds| == 0 then 0 else DigitsValue(ds[..|ds| - 1]) * 10 + DigitValue(ds[|ds| - 1])
  }

  /** `ToString` of a non-negative integer: shortest decimal, no leading zero. */
  function NatToString(n: nat): (r: string)
    ensures |r| > 0 && AllDigits(r)
    ensures r[0] == '0' ==> n == 0 && |r| == 1
  {
    if n < 10 then [DigitChar(n)] else NatToString(n / 10) + [DigitChar(n % 10)]
  }

  /** `ToString` / `%d` of a signed integer: a minus sign for negatives. */
  function IntToString(i: int): (r: string)
    ensures |r| > 0
    ensures i < 0 <==> r[0] == '-'
    ensures i >= 0 ==> AllDigits(r)
  {
    if i < 0 then "-" + NatToString(-i) else NatToString(i)
  }

  lemma {:induction false} NatToStringValue(n: nat)
    ensures DigitsValue(NatToString(n)) == n
    decreases n
  {
    var r := NatToString(n);
    if n >= 10 {
      NatToStringValue(n / 10);
      assert r[..|r| - 1] == NatToString(n / 10);
    }
  }

  /** Index just past the run of digits starting at `j`. */
  function DigitRunEnd(s: string, j: nat): (e: nat)
    requires j <= |s|
    ensures j <= e <= |s|
    ensures AllDigits(s[j..e])
    ensures e < |s| ==> !IsDigit(s[e])
    decreases |s| - j
  {
    if j < |s| && IsDigit(s[j]) then DigitRunEnd(s, j + 1) else j
  }

  /** Index of the first non-space character at or after `j`. */
  function SkipSpaces(s: string, j: nat): (e: nat)
    requires j <= |s|
    ensures j <= e <= |s|
    ensures e < |s| ==> !IsSpace(s[e])
    ensures forall k :: j <= k < e ==> IsSpace(s[k])
    decreases |s| - j
  {
    if j < |s| && IsSpace(s[j]) then SkipSpaces(s, j + 1) else j
  }

  /** The outcome of one `%d` conversion. */
  datatype Scan =
    | Converted(value: int, end: nat)  // a number was read; `end` is just past it
    | NoMatch                           // matching failure: no digits where a number belongs
    | EndOfInput                        // input failure: only white space was left

  /**
   * One `%d` directive of `sscanf` starting at position `i`: skip white space,
   * an optional sign, then the longest run of digits (at least one).
   */
  function ScanInt(s: string, i: nat): (r: Scan)
    requires i <= |s|
    ensures r.Converted? ==> i < r.end <= |s| && (r.end < |s| ==> !IsDigit(s[r.end]))
    ensures r.EndOfInput? <==> SkipSpaces(s, i) == |s|
  {
    var j := SkipSpaces(s, i);
    if j == |s| then EndOfInput
    else
      var neg := s[j] == '-';
      var k := if s[j] == '-' || s[j] == '+' then j + 1 else j;
      var e := DigitRunEnd(s, k);
      if e == k then NoMatch
      else
        var v: int := DigitsValue(s[k..e]);
        Converted(if neg then -v else v, e)
  }

  /** A run of digits that ends at `e` is the run `DigitRunEnd` finds. */
  lemma {:induction false} DigitRunEndAt(s: string, j: nat, e: nat)
    requires j <= e <= |s| && AllDigits(s[j..e])
    requires e == |s| || !IsDigit(s[e])
    ensures DigitRunEnd(s, j) == e
    decreases e - j
  {
    if j < e {
      assert s[j..e][0] == s[j];
      assert s[j + 1..e] == s[j..e][1..];
      DigitRunEndAt(s, j + 1, e);
    }
  }

  lemma DigitRunOfAppend(pre: string, ds: string, rest: string)
    requires AllDigits(ds)
    requires |rest| == 0 || !IsDigit(rest[0])
    ensures DigitRunEnd(pre + ds + rest, |pre|) == |pre| + |ds|
  {
    var s := pre + ds + rest;
    assert s[|pre|..|pre| + |ds|] == ds;
    assert |pre| + |ds| < |s| ==> s[|pre| + |ds|] == rest[0];
    DigitRunEndAt(s, |pre|, |pre| + |ds|);
  }

  /** A `%d` at the first character of an unsigned digit run reads that run. */
  lemma ScanDigitsAt(s: string, i: nat, ds: string)
    requires i + |ds| <= |s| && s[i..i + |ds|] == ds
    requires |ds| > 0 && AllDigits(ds)
    requires DigitRunEnd(s, i) == i + |ds|
    ensures ScanInt(s, i) == Converted(DigitsValue(ds), i + |ds|)
  {
    assert s[i] == ds[0];
    assert SkipSpaces(s, i) == i;
  }

  /** A `%d` at a minus sign followed by a digit run reads the negated run. */
  lemma ScanNegativeAt(s: string, i: nat, ds: string)
    requires i + 1 + |ds| <= |s| && s[i] == '-' && s[i + 1..i + 1 + |ds|] == ds
    requires |ds| > 0 && AllDigits(ds)
    requires DigitRunEnd(s, i + 1) == i + 1 + |ds|
    ensures ScanInt(s, i) == Converted(0 - DigitsValue(ds), i + 1 + |ds|)
  {
    assert !IsSpace(s[i]);
    assert SkipSpaces(s, i) == i;
    assert s[i + 1..DigitRunEnd(s, i + 1)] == ds;
  }

  lemma ScanNatToString(pre: string, n: nat, rest: string)
    requires |rest| == 0 || !IsDigit(rest[0])
    ensures ScanInt(pre + NatToString(n) + rest, |pre|) == Converted(n, |pre| + |NatToString(n)|)
  {
    var ds := NatToString(n);
    var s := pre + ds + rest;
    DigitRunOfAppend(pre, ds, rest);
    assert s[|pre|..|pre| + |ds|] == ds;
    NatToStringValue(n);
    ScanDigitsAt(s, |pre|, ds);
  }

  /** A `%d` at a minus sign placed before a digit run reads the negated run. */
  lemma ScanNegDigits(pre: string, ds: string, rest: string)
    requires |ds| > 0 && AllDigits(ds)
    requires |rest| == 0 || !IsDigit(rest[0])
    ensures ScanInt(pre + ("-" + ds) + rest, |pre|) == Converted(0 - DigitsValue(ds), |pre| + 1 + |ds|)
  {
    NegativeLayout(pre, ds, rest);
    ScanNegativeAt(pre + ("-" + ds) + rest, |pre|, ds);
  }

  /** Where the sign and the digits of `pre + "-" + ds + rest` sit. */
  lemma NegativeLayout(pre: string, ds: string, rest: string)
    requires AllDigits(ds)
    requires |rest| == 0 || !IsDigit(rest[0])
    ensures var s := pre + ("-" + ds) + rest;
            && |pre| + 1 + |ds| <= |s| && s[|pre|] == '-'
            && s[|pre| + 1..|pre| + 1 + |ds|] == ds
            && DigitRunEnd(s, |pre| + 1) == |pre| + 1 + |ds|
  {
    var p := pre + "-";
    var s := pre + ("-" + ds) + rest;
    assert p + ds + rest == s;
    DigitRunOfAppend(p, ds, rest);
    MiddleOf(p, ds, rest);
  }

  lemma ScanNegToString(pre: string, n: nat, rest: string)
    requires n > 0
    requires |rest| == 0 || !IsDigit(rest[0])
    ensures ScanInt(pre + ("-" + NatToString(n)) + rest, |pre|) == Converted(0 - n, |pre| + 1 + |NatToString(n)|)
  {
    NatToStringValue(n);
    ScanNegDigits(pre, NatToString(n), rest);
  }

  /** The middle part of a concatenation of three. */
  lemma MiddleOf(a: string, b: string, c: string)
    ensures (a + b + c)[|a|..|a| + |b|] == b
    ensures |a| > 0 ==> (a + b + c)[|a| - 1] == a[|a| - 1]
  {
  }

  /**
   * Reading back what `IntToString` printed: a `%d` directive placed where the
   * number starts recovers the number and stops right after it.
   */
  lemma {:induction false} ScanIntToString(pre: string, n: int, rest: string)
    requires |rest| == 0 || !IsDigit(rest[0])
    ensures ScanInt(pre + IntToString(n) + rest, |pre|) == Converted(n, |pre| + |IntToString(n)|)
  {
    if n < 0 {
      var m: nat := -n;
      assert IntToString(n) == "-" + NatToString(m);
      ScanNegToString(pre, m, rest);
    } else {
      assert IntToString(n) == NatToString(n);
      ScanNatToString(pre, n, rest);
    }
  }
}
