/** Decimal text of natural numbers: the rendering JavaScript uses when a
    number is concatenated to a string or converted with `toString()`, and a
    parser for the labels built from such renderings. */
module Decimal {
  import opened Wrappers

  predicate IsDigit(c: char) { '0' <= c <= '9' }

  predicate AllDigits(s: string) {
    forall i :: 0 <= i < |s| ==> IsDigit(s[i])
  }

  function DigitChar(d: nat): (c: char)
    requires d < 10
    ensures IsDigit(c)
  {
    ('0' as int + d) as char
  }

  function DigitValue(c: char): (d: nat)
    requires IsDigit(c)
    ensures d < 10
    ensures DigitChar(d) == c
  {
    c as int - '0' as int
  }

  /** `String(n)` for a natural number: its decimal digits, most significant first. */
  function NatToString(n: nat): (r: string)
    ensures AllDigits(r)
    ensures |r| >= 1
    ensures r[0] == '0' <==> n == 0
    decreases n
  {
    if n < 10 then [DigitChar(n)] else NatToString(n / 10) + [DigitChar(n % 10)]
  }

  /** The number a string of decimal digits denotes (leading zeros allowed). */
  function ParseDecimal(s: string): nat
    requires AllDigits(s)
  {
    if |s| == 0 then 0 else ParseDecimal(s[..|s| - 1]) * 10 + DigitValue(s[|s| - 1])
  }

  /** Reading back the rendering of `n` gives `n`. */
  lemma {:induction false} ParseNatToString(n: nat)
    ensures ParseDecimal(NatToString(n)) == n
    decreases n
  {
    var s := NatToString(n);
    if n < 10 {
      assert s[..|s| - 1] == [];
    } else {
      assert s[..|s| - 1] == NatToString(n / 10);
      ParseNatToString(n / 10);
    }
  }

  /** The rendering has one digit below 10, two digits from 10 to 99, and more
      from 100 on. */
  lemma {:induction false} NatToStringLength(n: nat)
    ensures |NatToString(n)| == 1 <==> n < 10
    ensures |NatToString(n)| == 2 <==> 10 <= n < 100
    ensures |NatToString(n)| >= 3 <==> n >= 100
    decreases n
  {
    if n >= 10 {
      NatToStringLength(n / 10);
    }
  }

  /** Length of the longest all-digit prefix of `s`. */
  function DigitRun(s: string): (k: nat)
    ensures k <= |s|
    ensures AllDigits(s[..k])
    ensures k < |s| ==> !IsDigit(s[k])
  {
    if |s| == 0 || !IsDigit(s[0]) then 0 else 1 + DigitRun(s[1..])
  }

  lemma {:induction false} DigitRunOfDigitsThen(a: string, rest: string)
    requires AllDigits(a)
    requires |rest| == 0 || !IsDigit(rest[0])
    ensures DigitRun(a + rest) == |a|
  {
    if |a| > 0 {
      assert (a + rest)[1..] == a[1..] + rest;
      DigitRunOfDigitsThen(a[1..], rest);
    } else {
      assert a + rest == rest;
    }
  }

  /** Reads a string of the shape `prefix <digits> sep <digits> suffix` back
      into its two numbers; None for any string not of that shape. */
  function ParsePair(s: string, prefix: string, sep: string, suffix: string): Option<(nat, nat)> {
    if |s| < |prefix| + |suffix| || s[..|prefix|] != prefix || s[|s| - |suffix|..] != suffix then None
    else
      var middle := s[|prefix|..|s| - |suffix|];
      var k := DigitRun(middle);
      var rest := middle[k..];
      if k == 0 || |rest| < |sep| || rest[..|sep|] != sep then None
      else
        var b := rest[|sep|..];
        if |b| == 0 || !AllDigits(b) then None
        else Some((ParseDecimal(middle[..k]), ParseDecimal(b)))
  }

  /** Reading back a string built as `prefix + a + sep + b + suffix`, from two
      non-empty digit strings and a separator that does not start with a digit,
      gives back the numbers `a` and `b` denote. */
  lemma ParsePairRoundTrip(prefix: string, a: string, sep: string, b: string, suffix: string)
    requires AllDigits(a) && |a| > 0
    requires AllDigits(b) && |b| > 0
    requires |sep| > 0 && !IsDigit(sep[0])
    ensures ParsePair(prefix + a + sep + b + suffix, prefix, sep, suffix)
            == Some((ParseDecimal(a), ParseDecimal(b)))
  {
    var s := prefix + a + sep + b + suffix;
    assert s[..|prefix|] == prefix;
    assert s[|s| - |suffix|..] == suffix;
    var middle := s[|prefix|..|s| - |suffix|];
    assert middle == a + (sep + b);
    DigitRunOfDigitsThen(a, sep + b);
    assert middle[..|a|] == a;
    var rest := middle[|a|..];
    assert rest == sep + b;
    assert rest[..|sep|] == sep;
    assert rest[|sep|..] == b;
  }

  /** Rendering two numbers into that shape and reading them back is the identity. */
  lemma NatPairRoundTrip(prefix: string, x: nat, sep: string, y: nat, suffix: string)
    requires |sep| > 0 && !IsDigit(sep[0])
    ensures ParsePair(prefix + NatToString(x) + sep + NatToString(y) + suffix, prefix, sep, suffix)
            == Some((x, y))
  {
    ParsePairRoundTrip(prefix, NatToString(x), sep, NatToString(y), suffix);
    ParseNatToString(x);
    ParseNatToString(y);
  }
}
