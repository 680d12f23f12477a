/**
  `format_duration` (src/main.rs:14-19): a count of seconds split into hours,
  minutes and seconds and rendered as `HH:MM:SS`, each field zero-padded to at
  least two digits (`{:02}`); the hours field grows beyond two digits rather
  than being cut.
*/
module Clock {
  import opened Wrappers
  import opened Text

  datatype Hms = Hms(hours: nat, minutes: nat, seconds: nat)

  /** The three fields `format_duration` computes before rendering them. */
  function Split(t: nat): (c: Hms)
    ensures c.minutes < 60 && c.seconds < 60
    ensures c.hours * 3600 + c.minutes * 60 + c.seconds == t
  {
    Hms(t / 3600, (t % 3600) / 60, t % 60)
  }

  /** A decomposition with minutes and seconds below 60 is the one `Split` finds. */
  lemma SplitUnique(c: Hms)
    requires c.minutes < 60 && c.seconds < 60
    ensures Split(c.hours * 3600 + c.minutes * 60 + c.seconds) == c
  {
    var t := c.hours * 3600 + c.minutes * 60 + c.seconds;
    var below := c.minutes * 60 + c.seconds;
    DivModBy(t, 3600, c.hours, below);
    DivModBy(below, 60, c.minutes, c.seconds);
    DivModBy(t, 60, c.hours * 60 + c.minutes, c.seconds);
  }

  /** Euclidean division is unique: a quotient and an in-range remainder are the ones `/` and `%` give. */
  lemma DivModBy(t: nat, d: nat, q: nat, r: nat)
    requires d == 60 || d == 3600
    requires r < d && t == q * d + r
    ensures t / d == q && t % d == r
  {
  }

  /** `{:02}`: the decimal rendering, with one leading zero when it has a single digit. */
  function Pad2(n: nat): (r: string)
    ensures AllDigits(r) && 2 <= |r|
    ensures |r| == 2 <==> n < 100
    ensures r[0] == '0' ==> n < 10
  {
    DigitsOfAtMostTwo(n);
    if n < 10 then "0" + DigitsOf(n) else DigitsOf(n)
  }

  lemma Pad2Value(n: nat)
    ensures Value(Pad2(n)) == n
  {
    ValueOfDigits(n);
    if n < 10 {
      ValueLeadingZero(DigitsOf(n));
    }
  }

  function FormatDuration(t: nat): (r: string)
    ensures 8 <= |r|
    ensures r[|r| - 6] == ':' && r[|r| - 3] == ':'
    ensures forall i :: 0 <= i < |r| ==> (IsDigit(r[i]) <==> i != |r| - 6 && i != |r| - 3)
    ensures r[0] == '0' ==> t < 36000
  {
    var c := Split(t);
    Render(Pad2(c.hours), Pad2(c.minutes), Pad2(c.seconds))
  }

  /** Three digit fields joined by colons; the last two fields are two digits wide. */
  function Render(h: string, m: string, s: string): (r: string)
    requires AllDigits(h) && AllDigits(m) && AllDigits(s)
    requires 2 <= |h| && |m| == 2 && |s| == 2
    ensures |r| == |h| + 6 && r[0] == h[0]
    ensures r[|r| - 6] == ':' && r[|r| - 3] == ':'
    ensures forall i :: 0 <= i < |r| ==> (IsDigit(r[i]) <==> i != |r| - 6 && i != |r| - 3)
  {
    var r := h + ":" + m + ":" + s;
    assert forall i :: 0 <= i < |h| ==> r[i] == h[i];
    assert forall i :: 0 <= i < 2 ==> r[|h| + 1 + i] == m[i] && r[|h| + 4 + i] == s[i];
    r
  }

  /** Reads `HH:MM:SS` back into its three fields; the inverse of `FormatDuration`. */
  function ParseClock(s: string): Option<Hms> {
    var hr :- ReadNat(s);
    var r1 :- Expect(":", hr.1);
    var mr :- ReadNat(r1);
    var r2 :- Expect(":", mr.1);
    var sr :- ReadNat(r2);
    if sr.1 == [] then Some(Hms(hr.0, mr.0, sr.0)) else None
  }

  /**
    The rendering loses nothing: reading it back gives the hours (however many
    digits they take), minutes and seconds of the input, so their weighted sum
    is the input again.
  */
  lemma FormatRoundTrip(t: nat)
    ensures ParseClock(FormatDuration(t)) == Some(Split(t))
  {
    var c := Split(t);
    Pad2Value(c.hours);
    Pad2Value(c.minutes);
    Pad2Value(c.seconds);
    RenderRoundTrip(Pad2(c.hours), Pad2(c.minutes), Pad2(c.seconds));
  }

  lemma RenderRoundTrip(h: string, m: string, s: string)
    requires AllDigits(h) && AllDigits(m) && AllDigits(s)
    requires 2 <= |h| && |m| == 2 && |s| == 2
    ensures ParseClock(Render(h, m, s)) == Some(Hms(Value(h), Value(m), Value(s)))
  {
    var tail2 := ":" + s;
    var middle := m + tail2;
    var tail1 := ":" + middle;
    RenderShape(h, m, s);
    ReadNatAppend(h, tail1);
    assert ReadNat(h + tail1) == Some((Value(h), tail1));
    ExpectAppend(":", middle);
    ReadNatAppend(m, tail2);
    assert ReadNat(middle) == Some((Value(m), tail2));
    ExpectAppend(":", s);
    assert s + [] == s;
    ReadNatAppend(s, []);
    assert ReadNat(s) == Some((Value(s), []));
  }

  lemma RenderShape(h: string, m: string, s: string)
    requires AllDigits(h) && AllDigits(m) && AllDigits(s)
    requires 2 <= |h| && |m| == 2 && |s| == 2
    ensures Render(h, m, s) == h + (":" + (m + (":" + s)))
  {
  }

  lemma FormatInjective(a: nat, b: nat)
    requires FormatDuration(a) == FormatDuration(b)
    ensures a == b
  {
    FormatRoundTrip(a);
    FormatRoundTrip(b);
  }

  /** The result is exactly the eight characters `HH:MM:SS` precisely below 100 hours. */
  lemma FormatWidth(t: nat)
    ensures |FormatDuration(t)| == 8 <==> t < 360000
  {
    var c := Split(t);
    assert |FormatDuration(t)| == |Pad2(c.hours)| + 6;
    assert c.hours < 100 <==> t < 360000;
  }

  /** The literal printed after the last tick is the rendering of zero seconds. */
  lemma FormatZero()
    ensures FormatDuration(0) == "00:00:00"
  {
  }
}
