/** Decimal integer text as Go's `strconv.Itoa` writes it and
    `strconv.Atoi` reads it on a 64-bit platform (and as `fmt`'s `%d`
    prints an `int`). */
module Decimal {
  import opened Wrappers
  import opened Text

  const MinInt64: int := -0x8000_0000_0000_0000
  const MaxInt64: int := 0x7FFF_FFFF_FFFF_FFFF

  /** Go's `int` on a 64-bit platform. */
  type Int64 = x: int | MinInt64 <= x <= MaxInt64

  function DigitChar(d: nat): (c: char)
    requires d < 10
    ensures IsAsciiDigit(c)
  {
    ('0' as int + d) as char
  }

  function DigitValue(c: char): (d: nat)
    requires IsAsciiDigit(c)
    ensures d < 10
  {
    (c as int - '0' as int)
  }

  /** The shortest decimal spelling of `n`. */
  function NatDigits(n: nat): (s: string)
    ensures |s| >= 1 && AllAsciiDigits(s)
    ensures |s| > 1 ==> s[0] != '0'
    decreases n
  {
    if n < 10 then [DigitChar(n)] else NatDigits(n / 10) + [DigitChar(n % 10)]
  }

  /** The number a run of decimal digits denotes. */
  function DigitsValue(s: string): nat
    requires AllAsciiDigits(s)
    decreases |s|
  {
    if |s| == 0 then 0 else 10 * DigitsValue(s[..|s| - 1]) + DigitValue(s[|s| - 1])
  }

  /** `strconv.Itoa`: an optional minus sign and the shortest digits. */
  function Itoa(n: int): string {
    if n < 0 then "-" + NatDigits(-n) else NatDigits(n)
  }

  /** `strconv.Atoi`: an optional `+` or `-`, then one or more ASCII digits
      and nothing else, whose value must fit in a 64-bit `int`. */
  function Atoi(s: string): (r: Option<Int64>)
    ensures r.Some? ==> |s| >= 1
  {
    if |s| == 0 then None
    else
      var neg := s[0] == '-';
      var body := if s[0] == '-' || s[0] == '+' then s[1..] else s;
      if |body| == 0 || !AllAsciiDigits(body) then None
      else
        var v: int := if neg then 0 - (DigitsValue(body) as int) else DigitsValue(body);
        if MinInt64 <= v <= MaxInt64 then Some(v) else None
  }

  /** Reading the digits back gives the number they spell. */
  lemma {:induction false} DigitsValueOfNatDigits(n: nat)
    ensures DigitsValue(NatDigits(n)) == n
    decreases n
  {
    if n >= 10 {
      var s := NatDigits(n);
      assert s[..|s| - 1] == NatDigits(n / 10);
      DigitsValueOfNatDigits(n / 10);
    }
  }

  /** Atoi inverts Itoa on every 64-bit integer. */
  lemma AtoiItoa(n: Int64)
    ensures Atoi(Itoa(n)) == Some(n)
  {
    var s := Itoa(n);
    if n < 0 {
      var m: nat := 0 - (n as int);
      var d := NatDigits(m);
      assert s == "-" + d;
      assert s[1..] == d;
      DigitsValueOfNatDigits(m);
      assert DigitsValue(s[1..]) == m;
    } else {
      var m: nat := n;
      DigitsValueOfNatDigits(m);
      assert IsAsciiDigit(s[0]);
      assert DigitsValue(s) == m;
    }
  }

  /** Itoa never writes white space at either end, so trimming keeps it. */
  lemma TrimSpaceItoa(n: int)
    ensures TrimSpace(Itoa(n)) == Itoa(n)
  {
    var s := Itoa(n);
    var d := NatDigits(if n < 0 then -n else n);
    assert IsAsciiDigit(d[|d| - 1]);
    assert s[|s| - 1] == d[|d| - 1];
    TrimSpaceOfTrimmed(s);
  }
}
