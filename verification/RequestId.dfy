/** The hand-written hexadecimal printer behind request ids: itohex and pad. */
module RequestId {
  // ---- Hexadecimal digits ----

  type Digit = x: int | 0 <= x < 16

  function HexChar(d: Digit): char { if d < 10 then (48 + d) as char else (97 + d - 10) as char }

  function HexValue(c: char): Digit {
    if '0' <= c <= '9' then c as int - 48 else if 'a' <= c <= 'f' then c as int - 97 + 10 else 0
  }

  /** The digits of n without leading zeros; none for 0 and for negative numbers. */
  function HexDigits(n: int): string
    decreases if n > 0 then n else 0
  {
    if n <= 0 then "" else HexDigits(n / 16) + [HexChar(n % 16)]
  }

  function Zeros(n: nat): string { seq(n, _ => '0') }

  /** Cut to the first width characters, or filled up with zeros on the left. */
  function Pad(s: string, width: nat): string {
    if |s| >= width then s[..width] else Zeros(width - |s|) + s
  }

  function Itohex(n: int, width: nat): string { Pad(HexDigits(n), width) }

  /** The number a string of hexadecimal digits stands for. */
  function Value(s: string): nat {
    if s == "" then 0 else Value(s[..|s| - 1]) * 16 + HexValue(s[|s| - 1])
  }

  function Digits(n: int): nat { |HexDigits(n)| }

  /** n without its last k hexadecimal digits. */
  function Shift(n: int, k: nat): int
    decreases k
  {
    if k == 0 then n else Shift(n / 16, k - 1)
  }

  // ---- What is printed ----

  lemma ValueOfAppend(s: string, d: Digit)
    ensures Value(s + [HexChar(d)]) == Value(s) * 16 + d
  {
    assert (s + [HexChar(d)])[..|s|] == s;
  }

  lemma {:induction false} ValueOfDigits(n: int)
    requires n >= 0
    ensures Value(HexDigits(n)) == n
    decreases n
  {
    if n <= 0 {
    } else {
      ValueOfDigits(n / 16);
      ValueOfAppend(HexDigits(n / 16), n % 16);
    }
  }

  lemma {:induction false} ValueOfPadded(k: nat, s: string)
    ensures Value(Zeros(k) + s) == Value(s)
  {
    var t := Zeros(k) + s;
    if s != "" {
      ValueOfPadded(k, s[..|s| - 1]);
      assert t[..|t| - 1] == Zeros(k) + s[..|s| - 1];
    } else if k > 0 {
      ValueOfPadded(k - 1, "");
      assert t[..|t| - 1] == Zeros(k - 1) + "";
    }
  }

  lemma {:induction false} LeadingDigits(n: int, k: nat)
    requires n >= 0 && k <= Digits(n)
    ensures HexDigits(n)[..Digits(n) - k] == HexDigits(Shift(n, k))
    decreases k
  {
    if k > 0 {
      var s := HexDigits(n / 16);
      LeadingDigits(n / 16, k - 1);
      assert (s + [HexChar(n % 16)])[..|s| + 1 - k] == s[..|s| - (k - 1)];
    } else {
      assert HexDigits(n)[..Digits(n)] == HexDigits(n);
    }
  }

  lemma {:induction false} ShiftIsNatural(n: int, k: nat)
    requires n >= 0
    ensures Shift(n, k) >= 0
  {
    if k == 0 {
    } else {
      ShiftIsNatural(n / 16, k - 1);
    }
  }

  lemma PrintedCut(n: int, width: nat)
    requires n >= 0 && Digits(n) > width
    ensures Itohex(n, width) == HexDigits(Shift(n, Digits(n) - width))
    ensures Value(Itohex(n, width)) == Shift(n, Digits(n) - width)
  {
    hide HexDigits, Value, Shift;
    var k := Digits(n) - width;
    LeadingDigits(n, k);
    ShiftIsNatural(n, k);
    ValueOfDigits(Shift(n, k));
  }

  /**
   The result has exactly width characters; read as a number it is n itself when n has no more digits
   than that, and n without the digits that do not fit when it has more.
   */
  lemma PrintedValue(n: int, width: nat)
    requires n >= 0
    ensures |Itohex(n, width)| == width
    ensures Value(Itohex(n, width)) == if Digits(n) <= width then n else Shift(n, Digits(n) - width)
  {
    hide HexDigits, Value, Shift;
    if Digits(n) > width {
      PrintedCut(n, width);
    } else {
      var s := HexDigits(n);
      ValueOfDigits(n);
      ValueOfPadded(width - |s|, s);
      assert |s| == width ==> s[..width] == s;
    }
  }

  // ---- Order ----

  /** The order Go gives strings, for two strings of one length. */
  predicate Before(s: string, t: string)
    requires |s| == |t|
  {
    s != "" &&
    var a, b := s[..|s| - 1], t[..|t| - 1];
    Before(a, b) || (a == b && s[|s| - 1] < t[|t| - 1])
  }

  predicate IsHex(s: string) { forall i :: 0 <= i < |s| ==> s[i] == HexChar(HexValue(s[i])) }

  lemma CharOrder(c: char, d: char)
    requires c == HexChar(HexValue(c)) && d == HexChar(HexValue(d))
    ensures c < d <==> HexValue(c) < HexValue(d)
  {
  }

  lemma {:induction false} OrderIsValue(s: string, t: string)
    requires |s| == |t| && IsHex(s) && IsHex(t)
    ensures Before(s, t) <==> Value(s) < Value(t)
    ensures s == t <==> Value(s) == Value(t)
  {
    if s == "" {
    } else {
      var a, b := s[..|s| - 1], t[..|t| - 1];
      var c, d := s[|s| - 1], t[|t| - 1];
      assert s == a + [c] && t == b + [d];
      assert IsHex(a) && IsHex(b);
      OrderIsValue(a, b);
      CharOrder(c, d);
    }
  }

  lemma CharIsHex(d: Digit)
    ensures HexValue(HexChar(d)) == d
  {
  }

  /** The digits are 0 to 9 and a to f. */
  lemma HexTable(d: Digit)
    ensures HexChar(0) == '0' && HexChar(9) == '9' && HexChar(10) == 'a' && HexChar(15) == 'f'
    ensures d != 0 && d != 10 ==> HexChar(d) as int == HexChar(d - 1) as int + 1
  {
  }

  lemma {:induction false} DigitsAreHex(n: int)
    ensures IsHex(HexDigits(n))
    decreases if n > 0 then n else 0
  {
    if n <= 0 {
    } else {
      DigitsAreHex(n / 16);
      CharIsHex(n % 16);
    }
  }

  lemma PrintedIsHex(n: int, width: nat)
    ensures IsHex(Itohex(n, width))
  {
    DigitsAreHex(n);
    CharIsHex(0);
  }

  lemma {:induction false} ShiftIsMonotone(a: int, b: int, k: nat)
    requires 0 <= a <= b
    ensures Shift(a, k) <= Shift(b, k)
  {
    if k == 0 {
    } else {
      ShiftIsMonotone(a / 16, b / 16, k - 1);
    }
  }

  lemma {:induction false} FewerDigitsIsLess(a: int, b: int)
    requires a >= 0 && Digits(a) < Digits(b)
    ensures a < b
    decreases if b > 0 then b else 0
  {
    if a == 0 {
    } else {
      FewerDigitsIsLess(a / 16, b / 16);
    }
  }

  lemma {:induction false} ShiftDigits(n: int, k: nat)
    requires n >= 0 && k <= Digits(n)
    ensures Digits(Shift(n, k)) == Digits(n) - k
  {
    LeadingDigits(n, k);
  }

  predicate NotAfter(s: string, t: string)
    requires |s| == |t|
  {
    s == t || Before(s, t)
  }

  lemma PrintedOrder(a: int, b: int, width: nat)
    requires 0 <= a && 0 <= b
    ensures |Itohex(a, width)| == |Itohex(b, width)|
    ensures NotAfter(Itohex(a, width), Itohex(b, width)) <==> Value(Itohex(a, width)) <= Value(Itohex(b, width))
  {
    PrintedValue(a, width);
    PrintedValue(b, width);
    PrintedIsHex(a, width);
    PrintedIsHex(b, width);
    hide Itohex, IsHex;
    OrderIsValue(Itohex(a, width), Itohex(b, width));
  }

  /** Printing keeps the order of times with the same number of digits, or where the earlier one has room to spare. */
  lemma OrderIsKept(a: int, b: int, width: nat)
    requires 0 <= a <= b && (Digits(a) == Digits(b) || Digits(a) < width)
    ensures |Itohex(a, width)| == |Itohex(b, width)| && NotAfter(Itohex(a, width), Itohex(b, width))
  {
    PrintedValue(a, width);
    PrintedValue(b, width);
    PrintedOrder(a, b, width);
    hide Itohex, Digits, NotAfter, Value;
    if Digits(a) == Digits(b) {
      if Digits(b) > width {
        ShiftIsMonotone(a, b, Digits(b) - width);
      }
    } else if Digits(b) > width {
      ShiftDigits(b, Digits(b) - width);
      FewerDigitsIsLess(a, Shift(b, Digits(b) - width));
    }
  }

  /** p digits f, and 1 followed by p zeros. */
  function AllOnes(p: nat): nat { if p == 0 then 0 else AllOnes(p - 1) * 16 + 15 }

  function Power(p: nat): nat { if p == 0 then 1 else Power(p - 1) * 16 }

  lemma {:induction false} AllOnesShape(p: nat, k: nat)
    requires k <= p
    ensures Digits(AllOnes(p)) == p && AllOnes(p) == Power(p) - 1
    ensures Shift(AllOnes(p), k) == AllOnes(p - k)
  {
    if p == 0 {
    } else {
      AllOnesShape(p - 1, if k > 0 then k - 1 else 0);
      assert AllOnes(p) / 16 == AllOnes(p - 1);
    }
  }

  lemma {:induction false} PowerShape(p: nat, k: nat)
    requires k <= p
    ensures Digits(Power(p)) == p + 1 && Power(p) > 0
    ensures Shift(Power(p), k) == Power(p - k)
  {
    if p > 0 {
      PowerShape(p - 1, if k > 0 then k - 1 else 0);
      assert Power(p) / 16 == Power(p - 1);
    } else {
      assert HexDigits(1) == HexDigits(0) + [HexChar(1)];
    }
  }

  lemma PrintedOnes(p: nat, width: nat)
    requires width <= p
    ensures Digits(AllOnes(p)) == p && Value(Itohex(AllOnes(p), width)) == AllOnes(width)
  {
    hide Itohex, Digits, Value, AllOnes, Shift;
    AllOnesShape(p, p - width);
    PrintedValue(AllOnes(p), width);
    assert Shift(AllOnes(p), 0) == AllOnes(p) by { AllOnesShape(p, 0); }
  }

  lemma PrintedPower(p: nat, width: nat)
    requires 0 < width <= p + 1
    ensures Digits(Power(p)) == p + 1 && Value(Itohex(Power(p), width)) == Power(width - 1)
  {
    hide Itohex, Digits, Value, Power, Shift;
    PowerShape(p, p + 1 - width);
    PrintedValue(Power(p), width);
    assert Shift(Power(p), 0) == Power(p) by { PowerShape(p, 0); }
  }

  /** Otherwise the order is lost: the last time of p digits prints after the first time of q digits. */
  lemma OrderIsLost(p: nat, q: nat, width: nat)
    requires 0 < width <= p < q
    ensures var a, b := AllOnes(p), Power(q - 1);
            && a < b && Digits(a) == p && Digits(b) == q
            && |Itohex(a, width)| == |Itohex(b, width)| && !NotAfter(Itohex(a, width), Itohex(b, width))
  {
    var a, b := AllOnes(p), Power(q - 1);
    PrintedOnes(p, width);
    PrintedPower(q - 1, width);
    PrintedOrder(a, b, width);
    assert Power(width - 1) < AllOnes(width) by {
      AllOnesShape(width, 0);
      PowerShape(width - 1, 0);
    }
    hide Itohex, Digits, NotAfter, Value, AllOnes, Power;
    FewerDigitsIsLess(a, b);
  }

  // ---- The loops ----

  lemma SixteenDigits()
    ensures Power(16) == 0x1_0000_0000_0000_0000
  {
    assert Power(3) == 0x1000;
    assert Power(6) == 0x100_0000;
    assert Power(9) == 0x10_0000_0000;
    assert Power(12) == 0x1_0000_0000_0000;
  }

  lemma NoDigits(n: int)
    ensures n <= 0 ==> HexDigits(n) == ""
    ensures HexDigits(0) == ""
  {
  }

  lemma NextDigit(m: int, i: nat)
    requires 0 < m < Power(i)
    ensures i > 0 && 0 <= m / 16 < Power(i - 1)
    ensures HexDigits(m) == HexDigits(m / 16) + [HexChar(m % 16)]
  {
  }

  method PrintPadded(s: string, width: nat, c: char) returns (r: string)
    ensures r == if |s| >= width then s[..width] else seq(width - |s|, _ => c) + s
  {
    if |s| >= width {
      return s[..width];
    }
    var b := new char[width];
    var gap := width - |s|;
    var i := 0;
    while i < gap
      invariant 0 <= i <= gap
      invariant forall k :: 0 <= k < i ==> b[k] == c
    {
      b[i] := c;
      i := i + 1;
    }
    while i < width
      invariant gap <= i <= width
      invariant forall k :: 0 <= k < gap ==> b[k] == c
      invariant forall k :: gap <= k < i ==> b[k] == s[k - gap]
    {
      b[i] := s[i - gap];
      i := i + 1;
    }
    r := b[..];
  }

  /** For every int64 the sixteen characters of the buffer are enough. */
  method PrintHex(n: int, width: nat) returns (s: string)
    requires -0x8000_0000_0000_0000 <= n < 0x8000_0000_0000_0000
    ensures s == Itohex(n, width)
  {
    if n == 0 {
      NoDigits(0);
      s := PrintPadded("", width, '0');
      return;
    }
    hide HexDigits, HexChar, Power;
    SixteenDigits();
    var buf := new char[16];
    var i, m := 16, n;
    while m > 0
      invariant 0 <= i <= 16
      invariant m > 0 ==> m < Power(i)
      invariant HexDigits(n) == HexDigits(m) + buf[i..]
      decreases m
    {
      NextDigit(m, i);
      ghost var rest := buf[i..];
      i := i - 1;
      buf[i] := HexChar(m % 16);
      assert buf[i..] == [HexChar(m % 16)] + rest;
      m := m / 16;
    }
    NoDigits(m);
    s := PrintPadded(buf[i..], width, '0');
  }
}
