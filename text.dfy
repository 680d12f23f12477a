/**
  Decimal rendering of unsigned integers, as Rust's `{}` formatting of a `u64`
  produces it, and the small reader that inverts it. The reader is not part of
  the timer; it is the partner against which the renderings are proved exact.
*/
module Text {
  import opened Wrappers

  predicate IsDigit(c: char) {
    '0' <= c <= '9'
  }

  predicate AllDigits(s: string) {
    forall i :: 0 <= i < |s| ==> IsDigit(s[i])
  }

  function DigitChar(d: nat): (c: char)
    requires d < 10
    ensures IsDigit(c)
  {
    (d + '0' as int) as char
  }

  function DigitValue(c: char): (d: nat)
    requires IsDigit(c)
    ensures d < 10 && DigitChar(d) == c
  {
    c as int - '0' as int
  }

  /** The shortest decimal rendering of `n`: no leading zero except for 0 itself. */
  function DigitsOf(n: nat): (r: string)
    ensures 1 <= |r| && AllDigits(r)
    ensures (|r| == 1) == (n < 10)
    ensures r[0] == '0' ==> n == 0
    decreases n
  {
    if n < 10 then [DigitChar(n)] else DigitsOf(n / 10) + [DigitChar(n % 10)]
  }

  /** The number a string of decimal digits denotes (leading zeros allowed). */
  function Value(s: string): nat
    requires AllDigits(s)
  {
    if s == [] then 0 else Value(s[..|s| - 1]) * 10 + DigitValue(s[|s| - 1])
  }

  lemma {:induction false} ValueOfDigits(n: nat)
    ensures Value(DigitsOf(n)) == n
    decreases n
  {
    var r := DigitsOf(n);
    if n < 10 {
      assert r[..0] == [];
    } else {
      assert r[..|r| - 1] == DigitsOf(n / 10);
      ValueOfDigits(n / 10);
    }
  }

  lemma {:induction false} DigitsOfInjective(a: nat, b: nat)
    requires DigitsOf(a) == DigitsOf(b)
    ensures a == b
  {
    ValueOfDigits(a);
    ValueOfDigits(b);
  }

  lemma {:induction false} ValueLeadingZero(s: string)
    requires AllDigits(s)
    ensures Value("0" + s) == Value(s)
    decreases |s|
  {
    var z := "0" + s;
    if s == [] {
      assert z[..0] == [];
    } else {
      assert z[..|z| - 1] == "0" + s[..|s| - 1];
      ValueLeadingZero(s[..|s| - 1]);
    }
  }

  lemma {:induction false} DigitsOfAtMostTwo(n: nat)
    ensures |DigitsOf(n)| <= 2 <==> n < 100
  {
    if n >= 10 {
      assert |DigitsOf(n)| == |DigitsOf(n / 10)| + 1;
      assert n / 10 < 10 <==> n < 100;
    }
  }

  /** Length of the longest prefix of `s` made of digits. */
  function SpanDigits(s: string): (k: nat)
    ensures k <= |s|
    ensures forall i :: 0 <= i < k ==> IsDigit(s[i])
    ensures k < |s| ==> !IsDigit(s[k])
  {
    if s == [] || !IsDigit(s[0]) then 0 else 1 + SpanDigits(s[1..])
  }

  /** Reads a maximal run of digits at the head of `s`; fails when there is none. */
  function ReadNat(s: string): (r: Option<(nat, string)>)
    ensures r.None? <==> s == [] || !IsDigit(s[0])
    ensures r.Some? ==> |r.value.1| < |s| && r.value.1 == s[|s| - |r.value.1|..]
    ensures r.Some? ==> r.value.1 == [] || !IsDigit(r.value.1[0])
  {
    var k := SpanDigits(s);
    if k == 0 then None else Some((Value(s[..k]), s[k..]))
  }

  /** Strips the literal `lit` from the head of `s`; fails when `s` does not start with it. */
  function Expect(lit: string, s: string): (r: Option<string>)
    ensures r.Some? <==> lit <= s
    ensures r.Some? ==> lit + r.value == s
  {
    if lit <= s then Some(s[|lit|..]) else None
  }

  lemma ReadNatAppend(ds: string, rest: string)
    requires 1 <= |ds| && AllDigits(ds)
    requires rest == [] || !IsDigit(rest[0])
    ensures ReadNat(ds + rest) == Some((Value(ds), rest))
  {
    var s := ds + rest;
    var k := SpanDigits(s);
    assert forall i :: 0 <= i < |ds| ==> s[i] == ds[i];
    assert |ds| < |s| ==> s[|ds|] == rest[0];
    assert k == |ds|;
    assert s[..k] == ds && s[k..] == rest;
  }

  lemma ExpectAppend(lit: string, rest: string)
    ensures Expect(lit, lit + rest) == Some(rest)
  {
    assert lit <= lit + rest;
    assert (lit + rest)[|lit|..] == rest;
  }
}
