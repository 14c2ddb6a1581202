/**
 * The stored name of an uploaded logo: the decimal rendering of the Unix time
 * of the request, an underscore, and the client's original file name
 * (`time() . '_' . $logo->getClientOriginalName()`). The name is a function of
 * (time, original name) alone; SplitLogoFilename recovers both parts, which is
 * what makes distinct pairs give distinct names.
 */
module Filenames {
  import opened Wrappers

  predicate IsDigit(c: char) {
    '0' <= c <= '9'
  }

  predicate AllDigits(s: string) {
    forall i :: 0 <= i < |s| ==> IsDigit(s[i])
  }

  function DigitChar(d: nat): (c: char)
    requires d < 10
    ensures IsDigit(c)
  {
    (d + '0' as int) as char
  }

  function DigitValue(c: char): (d: nat)
    requires IsDigit(c)
    ensures d < 10 && DigitChar(d) == c
  {
    c as int - '0' as int
  }

  /** PHP's string conversion of a non-negative integer: decimal, no leading zeros. */
  function Decimal(n: nat): (s: string)
    ensures |s| > 0 && AllDigits(s)
    ensures s[0] == '0' ==> n == 0
    decreases n
  {
    if n < 10 then [DigitChar(n)] else Decimal(n / 10) + [DigitChar(n % 10)]
  }

  /** Reads a string of digits back as a number; the inverse of Decimal. */
  function ParseDecimal(s: string): nat
    requires AllDigits(s)
    decreases |s|
  {
    if s == [] then 0 else ParseDecimal(s[..|s| - 1]) * 10 + DigitValue(s[|s| - 1])
  }

  lemma {:induction false} ParseDecimalInvertsDecimal(n: nat)
    ensures ParseDecimal(Decimal(n)) == n
  {
    if n >= 10 {
      var s := Decimal(n);
      assert s[..|s| - 1] == Decimal(n / 10);
      ParseDecimalInvertsDecimal(n / 10);
      assert DigitValue(DigitChar(n % 10)) == n % 10;
    }
  }

  lemma DecimalInjective(m: nat, n: nat)
    ensures Decimal(m) == Decimal(n) <==> m == n
  {
    ParseDecimalInvertsDecimal(m);
    ParseDecimalInvertsDecimal(n);
  }

  /** The length of the longest all-digit prefix of s. */
  function DigitRun(s: string): (k: nat)
    ensures k <= |s| && AllDigits(s[..k])
    ensures k < |s| ==> !IsDigit(s[k])
    decreases |s|
  {
    if s == [] || !IsDigit(s[0]) then 0 else 1 + DigitRun(s[1..])
  }

  lemma {:induction false} DigitRunStopsAtNonDigit(digits: string, rest: string)
    requires AllDigits(digits)
    requires rest != [] && !IsDigit(rest[0])
    ensures DigitRun(digits + rest) == |digits|
    decreases |digits|
  {
    if digits != [] {
      assert (digits + rest)[1..] == digits[1..] + rest;
      DigitRunStopsAtNonDigit(digits[1..], rest);
    }
  }

  /**
   * The name under which a logo uploaded at `time` as `original` is stored;
   * SplitLogoFilename recovers both parts from it.
   */
  function LogoFilename(time: nat, original: string): (name: string)
    ensures SplitLogoFilename(name) == Some((time, original))
  {
    var digits := Decimal(time);
    DigitRunStopsAtNonDigit(digits, "_" + original);
    ParseDecimalInvertsDecimal(time);
    var name := digits + "_" + original;
    assert name == digits + ("_" + original);
    assert name[..|digits|] == digits;
    assert name[|digits| + 1..] == original;
    name
  }

  /** Splits a stored logo name back into the upload time and the original name. */
  function SplitLogoFilename(name: string): Option<(nat, string)> {
    var k := DigitRun(name);
    if 0 < k < |name| && name[k] == '_' then Some((ParseDecimal(name[..k]), name[k + 1..]))
    else None
  }

  /**
   * Two uploads get the same stored name exactly when they happen in the same
   * second under the same original name; then the second overwrites the first.
   */
  lemma LogoFilenameCollision(t1: nat, o1: string, t2: nat, o2: string)
    ensures LogoFilename(t1, o1) == LogoFilename(t2, o2) <==> t1 == t2 && o1 == o2
  {
  }
}
