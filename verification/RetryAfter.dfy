/**
 The Retry-After header of a denied request: whole seconds printed by a hand-written decimal
 printer with a ten-byte buffer.
 */
module RetryAfter {
  import opened Prelude
  import opened SlidingWindow

  const MAX_DURATION: int := 0x7fff_ffff_ffff_ffff

  function Digit(d: nat): char
    requires d < 10
  {
    '0' + d as char
  }

  /** Decimal notation without leading zeros. */
  function Decimal(n: nat): (s: string)
    ensures |s| > 0
  {
    if n < 10 then [Digit(n)] else Decimal(n / 10) + [Digit(n % 10)]
  }

  predicate IsDigit(c: char) { '0' <= c <= '9' }

  predicate IsNumeral(s: string) {
    |s| > 0 && forall i :: 0 <= i < |s| ==> IsDigit(s[i])
  }

  /** The number that the first n digits of s denote. */
  function Value(s: string, n: nat): nat
    requires n <= |s| && forall i :: 0 <= i < |s| ==> IsDigit(s[i])
  {
    if n == 0 then 0 else 10 * Value(s, n - 1) + (s[n - 1] - '0') as nat
  }

  lemma {:induction false} ValueOfPrefix(s: string, d: char, n: nat)
    requires n <= |s| && (forall i :: 0 <= i < |s| ==> IsDigit(s[i])) && IsDigit(d)
    ensures Value(s + [d], n) == Value(s, n)
  {
    if n == 0 {
    } else {
      ValueOfPrefix(s, d, n - 1);
    }
  }

  /** Reading a printed number back gives the number, and only zero starts with '0'. */
  lemma {:induction false} DecimalReadsBack(n: nat)
    ensures IsNumeral(Decimal(n)) && Value(Decimal(n), |Decimal(n)|) == n
    ensures n > 0 ==> Decimal(n)[0] != '0'
  {
    if n >= 10 {
      DecimalReadsBack(n / 10);
      ValueOfPrefix(Decimal(n / 10), Digit(n % 10), |Decimal(n / 10)|);
    } else {
      assert Value([Digit(n)], 0) == 0;
    }
  }

  function Pow10(k: nat): nat {
    if k == 0 then 1 else 10 * Pow10(k - 1)
  }

  /** The digits the printing loop has still to write. */
  function Leading(m: nat): string { if m > 0 then Decimal(m) else "" }

  lemma LeadingOnly(n: int)
    ensures n > 0 ==> Decimal(n) == Leading(n) + []
    ensures Leading(0) == [] && forall s: string :: [] + s == s
  {
  }

  lemma DecimalStep(m: nat, tail: string)
    requires m > 0
    ensures Leading(m) + tail == Leading(m / 10) + ([Digit(m % 10)] + tail)
  {
  }

  const TEN_DIGITS := 10_000_000_000

  /**
   The printer. From 10^10 on it would run off its buffer; a negative number leaves the buffer
   untouched and prints nothing.
   */
  method Itoa(n: int) returns (s: string)
    requires n < TEN_DIGITS
    ensures n >= 0 ==> s == Decimal(n)
    ensures n < 0 ==> s == ""
  {
    if n == 0 {
      return "0";
    }
    hide Decimal, Leading;
    var buf := new char[10];
    LeadingOnly(n);
    var i, m := buf.Length, n;
    assert buf[i..] == [];
    assert n < Pow10(i) by { assert Pow10(5) == 100_000; }
    while m > 0
      invariant 0 <= i <= buf.Length && m < Pow10(i)
      invariant n < 0 ==> m == n && i == buf.Length
      invariant n > 0 ==> m >= 0 && Decimal(n) == Leading(m) + buf[i..]
    {
      DecimalStep(m, buf[i..]);
      i := i - 1;
      buf[i] := Digit(m % 10);
      assert buf[i..] == [Digit(m % 10)] + buf[i + 1..];
      m := m / 10;
    }
    s := buf[i..];
  }

  /** Whole seconds announced for a waiting time. */
  function Seconds(retryAfter: int): (s: int)
    requires retryAfter > 0
  {
    retryAfter / SECOND + 1
  }

  /** Every Duration fits the printer's buffer, and the header says at most one second too much. */
  lemma HeaderFits(retryAfter: int)
    requires 0 < retryAfter <= MAX_DURATION
    ensures 0 < Seconds(retryAfter) < TEN_DIGITS
    ensures retryAfter < Seconds(retryAfter) * SECOND <= retryAfter + SECOND
  {
  }

  /** The method the middleware runs to fill the header: a numeral that reads back as the seconds. */
  method Header(retryAfter: int) returns (s: string)
    requires 0 < retryAfter <= MAX_DURATION
    ensures IsNumeral(s) && Value(s, |s|) == Seconds(retryAfter)
    ensures s[0] != '0'
  {
    HeaderFits(retryAfter);
    s := Itoa(Seconds(retryAfter));
    DecimalReadsBack(Seconds(retryAfter));
  }

  /**
   The header is enough and barely so: a denied caller, alone on its key, that comes back after the
   announced number of seconds is admitted; coming back a second and a nanosecond earlier it is denied.
   */
  lemma HeaderIsEnough(cs: seq<Call>, limit: int, w: int, n: nat, header: string)
    requires Uniform(cs, limit, w) && n + 1 < |cs| && VerdictAt(cs, n).Denied?
    requires VerdictAt(cs, n).retryAfter > 0 && header == Decimal(Seconds(VerdictAt(cs, n).retryAfter))
    ensures IsNumeral(header)
    ensures cs[n + 1].now >= cs[n].now + Value(header, |header|) * SECOND ==> Admits(cs, n + 1)
    ensures cs[n + 1].now < cs[n].now + (Value(header, |header|) - 1) * SECOND ==> VerdictAt(cs, n + 1).Denied?
  {
    hide Uniform, VerdictAt, Decimal, Value;
    RetryAfterIsExact(cs, limit, w, n, n + 1);
    DecimalReadsBack(Seconds(VerdictAt(cs, n).retryAfter));
  }
}
