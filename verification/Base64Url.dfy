/**
 base64url (RFC 4648 section 5, without padding): the two browser helpers, which go through the padded
 standard alphabet of btoa and atob, against the raw form Go's RawURLEncoding reads and writes.
 */
module Base64Url {
  import opened Prelude

  type Byte = x: int | 0 <= x < 256

  type Sextet = x: int | 0 <= x < 64

  // ---- Alphabets: RFC 4648, tables 1 and 2 ----

  function StdChar(v: Sextet): char {
    if v < 26 then (65 + v) as char
    else if v < 52 then (97 + v - 26) as char
    else if v < 62 then (48 + v - 52) as char
    else if v == 62 then '+'
    else '/'
  }

  function UrlChar(v: Sextet): char {
    if v == 62 then '-' else if v == 63 then '_' else StdChar(v)
  }

  function StdValue(c: char): Option<Sextet> {
    if 'A' <= c <= 'Z' then Some(c as int - 65)
    else if 'a' <= c <= 'z' then Some(c as int - 97 + 26)
    else if '0' <= c <= '9' then Some(c as int - 48 + 52)
    else if c == '+' then Some(62)
    else if c == '/' then Some(63)
    else None
  }

  function UrlValue(c: char): Option<Sextet> {
    if c == '-' then Some(62) else if c == '_' then Some(63) else if c == '+' || c == '/' then None else StdValue(c)
  }

  /** The alphabets are those of the tables: A to Z, a to z, 0 to 9, and two more. */
  lemma Tables(v: Sextet)
    ensures StdChar(0) == 'A' && StdChar(25) == 'Z' && StdChar(26) == 'a' && StdChar(51) == 'z'
    ensures StdChar(52) == '0' && StdChar(61) == '9' && StdChar(62) == '+' && StdChar(63) == '/'
    ensures 0 < v < 62 && v != 26 && v != 52 ==> StdChar(v) as int == StdChar(v - 1) as int + 1
    ensures UrlChar(v) == if v == 62 then '-' else if v == 63 then '_' else StdChar(v)
  {
  }

  /** Not one of the characters base64url avoids. */
  predicate IsPlain(c: char) { c != '+' && c != '/' && c != '=' }

  predicate IsSpace(c: char) { c as int in {9, 10, 12, 13, 32} }

  // ---- Regrouping: bits 6k to 6k + 5 of the bytes, bits 8j to 8j + 7 of the sextets ----

  // One group is three bytes x, y, z or four sextets p, q, r, t.
  function First(x: Byte): Sextet { x / 4 }
  function Second(x: Byte, y: Byte): Sextet { x % 4 * 16 + y / 16 }
  function Third(y: Byte, z: Byte): Sextet { y % 16 * 4 + z / 64 }
  function Fourth(z: Byte): Sextet { z % 64 }

  function High(p: Sextet, q: Sextet): Byte { p * 4 + q / 16 }
  function Mid(q: Sextet, r: Sextet): Byte { q % 16 * 16 + r / 4 }
  function Low(r: Sextet, t: Sextet): Byte { r % 4 * 64 + t }

  function ByteOrZero(b: seq<Byte>, j: nat): Byte { if j < |b| then b[j] else 0 }

  function SextetAt(b: seq<Byte>, k: nat): Sextet {
    var g := k / 4 * 3;
    match k % 4
    case 0 => First(ByteOrZero(b, g))
    case 1 => Second(ByteOrZero(b, g), ByteOrZero(b, g + 1))
    case 2 => Third(ByteOrZero(b, g + 1), ByteOrZero(b, g + 2))
    case _ => Fourth(ByteOrZero(b, g + 2))
  }

  /** The characters that m bytes need. */
  function RawLength(m: nat): nat { (4 * m + 2) / 3 }

  function Sextets(b: seq<Byte>): seq<Sextet> { seq(RawLength(|b|), k requires 0 <= k => SextetAt(b, k)) }

  function SextetOrZero(v: seq<Sextet>, k: nat): Sextet { if k < |v| then v[k] else 0 }

  function ByteAt(v: seq<Sextet>, j: nat): Byte {
    var g := j / 3 * 4;
    match j % 3
    case 0 => High(SextetOrZero(v, g), SextetOrZero(v, g + 1))
    case 1 => Mid(SextetOrZero(v, g + 1), SextetOrZero(v, g + 2))
    case _ => Low(SextetOrZero(v, g + 2), SextetOrZero(v, g + 3))
  }

  /** The whole bytes in the sextets; bits left over at the end are dropped. */
  function Bytes(v: seq<Sextet>): seq<Byte> { seq(3 * |v| / 4, j requires 0 <= j => ByteAt(v, j)) }

  lemma GroupBack(x: Byte, y: Byte, z: Byte)
    ensures High(First(x), Second(x, y)) == x
    ensures Mid(Second(x, y), Third(y, z)) == y
    ensures Low(Third(y, z), Fourth(z)) == z
  {
  }

  lemma SextetsOfGroup(b: seq<Byte>, g: nat)
    ensures SextetAt(b, 4 * g) == First(ByteOrZero(b, 3 * g))
    ensures SextetAt(b, 4 * g + 1) == Second(ByteOrZero(b, 3 * g), ByteOrZero(b, 3 * g + 1))
    ensures SextetAt(b, 4 * g + 2) == Third(ByteOrZero(b, 3 * g + 1), ByteOrZero(b, 3 * g + 2))
    ensures SextetAt(b, 4 * g + 3) == Fourth(ByteOrZero(b, 3 * g + 2))
  {
    hide First, Second, Third, Fourth;
  }

  lemma BytesOfGroup(v: seq<Sextet>, g: nat)
    ensures ByteAt(v, 3 * g) == High(SextetOrZero(v, 4 * g), SextetOrZero(v, 4 * g + 1))
    ensures ByteAt(v, 3 * g + 1) == Mid(SextetOrZero(v, 4 * g + 1), SextetOrZero(v, 4 * g + 2))
    ensures ByteAt(v, 3 * g + 2) == Low(SextetOrZero(v, 4 * g + 2), SextetOrZero(v, 4 * g + 3))
  {
    hide High, Mid, Low;
  }

  /** Which sextets of group g exist. */
  lemma Lengths(m: nat, g: nat)
    ensures 3 * g < m ==> 4 * g + 1 < RawLength(m)
    ensures 3 * g + 1 < m ==> 4 * g + 2 < RawLength(m)
    ensures 3 * g + 2 < m ==> 4 * g + 3 < RawLength(m)
  {
  }

  lemma Listed(b: seq<Byte>, k: nat)
    ensures k < RawLength(|b|) ==> SextetOrZero(Sextets(b), k) == SextetAt(b, k)
  {
    hide SextetAt, RawLength;
  }

  lemma ByteBack(b: seq<Byte>, g: nat)
    ensures 3 * g < |b| ==> ByteAt(Sextets(b), 3 * g) == b[3 * g]
    ensures 3 * g + 1 < |b| ==> ByteAt(Sextets(b), 3 * g + 1) == b[3 * g + 1]
    ensures 3 * g + 2 < |b| ==> ByteAt(Sextets(b), 3 * g + 2) == b[3 * g + 2]
  {
    hide First, Second, Third, Fourth, High, Mid, Low, SextetAt, ByteAt, Sextets, SextetOrZero, RawLength;
    SextetsOfGroup(b, g);
    BytesOfGroup(Sextets(b), g);
    GroupBack(ByteOrZero(b, 3 * g), ByteOrZero(b, 3 * g + 1), ByteOrZero(b, 3 * g + 2));
    Lengths(|b|, g);
    Listed(b, 4 * g);
    Listed(b, 4 * g + 1);
    Listed(b, 4 * g + 2);
    Listed(b, 4 * g + 3);
  }

  lemma ByteBackAt(b: seq<Byte>, j: nat)
    requires j < |b|
    ensures ByteAt(Sextets(b), j) == b[j]
  {
    hide ByteAt, Sextets;
    var g := j / 3;
    ByteBack(b, g);
    if j == 3 * g {
    } else if j == 3 * g + 1 {
    } else {
      assert j == 3 * g + 2;
    }
  }

  /** Regrouping bytes into sextets and back loses nothing. */
  lemma BytesOfSextets(b: seq<Byte>)
    ensures Bytes(Sextets(b)) == b
  {
    hide ByteAt, SextetAt;
    var v := Sextets(b);
    assert 3 * |v| / 4 == |b|;
    hide Sextets;
    forall j | 0 <= j < |b| ensures Bytes(v)[j] == b[j] {
      ByteBackAt(b, j);
    }
  }

  /** A length some byte string has, and no bits set beyond its last whole byte. */
  predicate Canonical(v: seq<Sextet>) {
    match |v| % 4
    case 0 => true
    case 1 => false
    case 2 => v[|v| - 1] % 16 == 0
    case _ => v[|v| - 1] % 4 == 0
  }

  lemma QuadBack(p: Sextet, q: Sextet, r: Sextet, t: Sextet)
    ensures First(High(p, q)) == p
    ensures Second(High(p, q), Mid(q, r)) == q
    ensures Third(Mid(q, r), Low(r, t)) == r
    ensures Fourth(Low(r, t)) == t
    ensures Second(High(p, q), 0) == q / 16 * 16
    ensures Third(Mid(q, r), 0) == r / 4 * 4
  {
  }

  /** What regrouping keeps of the last of n sextets: the bits of a whole byte. */
  function Kept(v: seq<Sextet>, k: nat): Sextet
    requires k < |v|
  {
    if k < |v| - 1 then v[k]
    else if |v| % 4 == 2 then v[k] / 16 * 16
    else if |v| % 4 == 3 then v[k] / 4 * 4
    else v[k]
  }

  lemma ListedByte(v: seq<Sextet>, j: nat)
    ensures ByteOrZero(Bytes(v), j) == if j < 3 * |v| / 4 then ByteAt(v, j) else 0
  {
    hide ByteAt;
  }

  lemma ByteLengths(n: nat, g: nat)
    ensures 4 * g + 1 < n ==> 3 * g < 3 * n / 4
    ensures 4 * g + 2 < n ==> 3 * g + 1 < 3 * n / 4
    ensures 4 * g + 3 < n ==> 3 * g + 2 < 3 * n / 4
    ensures 4 * g + 2 == n ==> 3 * g + 1 >= 3 * n / 4
    ensures 4 * g + 3 == n ==> 3 * g + 2 >= 3 * n / 4
  {
  }

  lemma SextetBack(v: seq<Sextet>, g: nat)
    requires |v| % 4 != 1
    ensures 4 * g < |v| ==> SextetAt(Bytes(v), 4 * g) == Kept(v, 4 * g)
    ensures 4 * g + 1 < |v| ==> SextetAt(Bytes(v), 4 * g + 1) == Kept(v, 4 * g + 1)
    ensures 4 * g + 2 < |v| ==> SextetAt(Bytes(v), 4 * g + 2) == Kept(v, 4 * g + 2)
    ensures 4 * g + 3 < |v| ==> SextetAt(Bytes(v), 4 * g + 3) == Kept(v, 4 * g + 3)
  {
    hide First, Second, Third, Fourth, High, Mid, Low, SextetAt, ByteAt, Bytes, ByteOrZero;
    SextetsOfGroup(Bytes(v), g);
    BytesOfGroup(v, g);
    QuadBack(SextetOrZero(v, 4 * g), SextetOrZero(v, 4 * g + 1), SextetOrZero(v, 4 * g + 2), SextetOrZero(v, 4 * g + 3));
    ByteLengths(|v|, g);
    ListedByte(v, 3 * g);
    ListedByte(v, 3 * g + 1);
    ListedByte(v, 3 * g + 2);
  }

  /** Exactly the canonical sextets come from bytes. */
  lemma SextetsOfBytes(v: seq<Sextet>)
    ensures Canonical(v) <==> Sextets(Bytes(v)) == v
  {
    hide ByteAt, SextetAt;
    var w := Sextets(Bytes(v));
    if |v| % 4 != 1 {
      assert |w| == |v|;
      forall k | 0 <= k < |v| && (Canonical(v) || k < |v| - 1) ensures w[k] == v[k] {
        SextetBack(v, k / 4);
      }
      if v != [] {
        SextetBack(v, (|v| - 1) / 4);
      }
    }
  }

  // ---- The same, bit by bit ----

  function Halved(x: nat, n: nat): nat { if n == 0 then x else Halved(x, n - 1) / 2 }

  /** Bit j of a byte, the most significant first. */
  function BitOfByte(x: Byte, j: nat): int { if j < 8 then Halved(x, 7 - j) % 2 else 0 }

  function BitOfSextet(v: Sextet, j: nat): int { if j < 6 then Halved(v, 5 - j) % 2 else 0 }

  lemma HalvedOnce(x: nat, n: nat)
    ensures Halved(x, n) == 2 * Halved(x, n + 1) + Halved(x, n) % 2
  {
  }

  function Power2(n: nat): nat { if n == 0 then 1 else 2 * Power2(n - 1) }

  lemma {:induction false} HalvedFits(x: nat, n: nat, m: nat)
    requires x < m * Power2(n)
    ensures Halved(x, n) < m
  {
    if n == 0 {
    } else {
      HalvedFits(x, n - 1, 2 * m);
    }
  }

  lemma ByteInBits(x: Byte)
    ensures x == 128 * BitOfByte(x, 0) + 64 * BitOfByte(x, 1) + 32 * BitOfByte(x, 2) + 16 * BitOfByte(x, 3)
               + 8 * BitOfByte(x, 4) + 4 * BitOfByte(x, 5) + 2 * BitOfByte(x, 6) + BitOfByte(x, 7)
    ensures forall j :: 0 <= j < 8 ==> 0 <= BitOfByte(x, j) <= 1
  {
    assert Halved(x, 0) == x;
    assert Power2(4) == 16 && Power2(8) == 256;
    HalvedFits(x, 8, 1);
    hide Halved, Power2;
    HalvedOnce(x, 0);
    HalvedOnce(x, 1);
    HalvedOnce(x, 2);
    HalvedOnce(x, 3);
    HalvedOnce(x, 4);
    HalvedOnce(x, 5);
    HalvedOnce(x, 6);
    HalvedOnce(x, 7);
  }

  lemma SextetInBits(v: Sextet)
    ensures v == 32 * BitOfSextet(v, 0) + 16 * BitOfSextet(v, 1) + 8 * BitOfSextet(v, 2) + 4 * BitOfSextet(v, 3)
               + 2 * BitOfSextet(v, 4) + BitOfSextet(v, 5)
    ensures forall j :: 0 <= j < 6 ==> 0 <= BitOfSextet(v, j) <= 1
  {
    assert Halved(v, 0) == v;
    assert Power2(3) == 8 && Power2(6) == 64;
    HalvedFits(v, 6, 1);
    hide Halved, Power2;
    HalvedOnce(v, 0);
    HalvedOnce(v, 1);
    HalvedOnce(v, 2);
    HalvedOnce(v, 3);
    HalvedOnce(v, 4);
    HalvedOnce(v, 5);
  }

  lemma SextetOfBits(v: Sextet, a: int, b: int, c: int, d: int, e: int, f: int)
    requires 0 <= a <= 1 && 0 <= b <= 1 && 0 <= c <= 1 && 0 <= d <= 1 && 0 <= e <= 1 && 0 <= f <= 1
    requires v == 32 * a + 16 * b + 8 * c + 4 * d + 2 * e + f
    ensures BitOfSextet(v, 0) == a && BitOfSextet(v, 1) == b && BitOfSextet(v, 2) == c
    ensures BitOfSextet(v, 3) == d && BitOfSextet(v, 4) == e && BitOfSextet(v, 5) == f
  {
    hide BitOfSextet;
    SextetInBits(v);
  }

  /** The quotients and remainders of a group, from the bits a to h of one byte. */
  lemma Parts(x: Byte, a: int, b: int, c: int, d: int, e: int, f: int, g: int, h: int)
    requires 0 <= a <= 1 && 0 <= b <= 1 && 0 <= c <= 1 && 0 <= d <= 1
    requires 0 <= e <= 1 && 0 <= f <= 1 && 0 <= g <= 1 && 0 <= h <= 1
    requires x == 128 * a + 64 * b + 32 * c + 16 * d + 8 * e + 4 * f + 2 * g + h
    ensures x / 4 == 32 * a + 16 * b + 8 * c + 4 * d + 2 * e + f && x % 4 == 2 * g + h
    ensures x / 16 == 8 * a + 4 * b + 2 * c + d && x % 16 == 8 * e + 4 * f + 2 * g + h
    ensures x / 64 == 2 * a + b && x % 64 == 32 * c + 16 * d + 8 * e + 4 * f + 2 * g + h
  {
  }

  lemma PartsOf(x: Byte)
    ensures x / 4 == 32 * BitOfByte(x, 0) + 16 * BitOfByte(x, 1) + 8 * BitOfByte(x, 2) + 4 * BitOfByte(x, 3)
                     + 2 * BitOfByte(x, 4) + BitOfByte(x, 5)
    ensures x % 4 == 2 * BitOfByte(x, 6) + BitOfByte(x, 7)
    ensures x / 16 == 8 * BitOfByte(x, 0) + 4 * BitOfByte(x, 1) + 2 * BitOfByte(x, 2) + BitOfByte(x, 3)
    ensures x % 16 == 8 * BitOfByte(x, 4) + 4 * BitOfByte(x, 5) + 2 * BitOfByte(x, 6) + BitOfByte(x, 7)
    ensures x / 64 == 2 * BitOfByte(x, 0) + BitOfByte(x, 1)
    ensures x % 64 == 32 * BitOfByte(x, 2) + 16 * BitOfByte(x, 3) + 8 * BitOfByte(x, 4) + 4 * BitOfByte(x, 5)
                      + 2 * BitOfByte(x, 6) + BitOfByte(x, 7)
    ensures forall j :: 0 <= j < 8 ==> 0 <= BitOfByte(x, j) <= 1
  {
    hide BitOfByte;
    ByteInBits(x);
    Parts(x, BitOfByte(x, 0), BitOfByte(x, 1), BitOfByte(x, 2), BitOfByte(x, 3),
          BitOfByte(x, 4), BitOfByte(x, 5), BitOfByte(x, 6), BitOfByte(x, 7));
  }

  lemma GroupBits(x: Byte, y: Byte, z: Byte, j: nat)
    requires j < 6
    ensures BitOfSextet(First(x), j) == BitOfByte(x, j)
    ensures BitOfSextet(Second(x, y), j) == if j < 2 then BitOfByte(x, j + 6) else BitOfByte(y, j - 2)
    ensures BitOfSextet(Third(y, z), j) == if j < 4 then BitOfByte(y, j + 4) else BitOfByte(z, j - 4)
    ensures BitOfSextet(Fourth(z), j) == BitOfByte(z, j + 2)
  {
    hide BitOfByte, BitOfSextet;
    PartsOf(x);
    PartsOf(y);
    PartsOf(z);
    SextetOfBits(First(x), BitOfByte(x, 0), BitOfByte(x, 1), BitOfByte(x, 2), BitOfByte(x, 3), BitOfByte(x, 4), BitOfByte(x, 5));
    SextetOfBits(Second(x, y), BitOfByte(x, 6), BitOfByte(x, 7), BitOfByte(y, 0), BitOfByte(y, 1), BitOfByte(y, 2), BitOfByte(y, 3));
    SextetOfBits(Third(y, z), BitOfByte(y, 4), BitOfByte(y, 5), BitOfByte(y, 6), BitOfByte(y, 7), BitOfByte(z, 0), BitOfByte(z, 1));
    SextetOfBits(Fourth(z), BitOfByte(z, 2), BitOfByte(z, 3), BitOfByte(z, 4), BitOfByte(z, 5), BitOfByte(z, 6), BitOfByte(z, 7));
  }

  lemma BitsOfGroup(b: seq<Byte>, g: nat, j: nat)
    requires j < 6
    ensures BitOfSextet(SextetAt(b, 4 * g), j) == BitOfByte(ByteOrZero(b, 3 * g), j)
    ensures BitOfSextet(SextetAt(b, 4 * g + 1), j)
         == if j < 2 then BitOfByte(ByteOrZero(b, 3 * g), j + 6) else BitOfByte(ByteOrZero(b, 3 * g + 1), j - 2)
    ensures BitOfSextet(SextetAt(b, 4 * g + 2), j)
         == if j < 4 then BitOfByte(ByteOrZero(b, 3 * g + 1), j + 4) else BitOfByte(ByteOrZero(b, 3 * g + 2), j - 4)
    ensures BitOfSextet(SextetAt(b, 4 * g + 3), j) == BitOfByte(ByteOrZero(b, 3 * g + 2), j + 2)
  {
    hide BitOfByte, BitOfSextet, First, Second, Third, Fourth, SextetAt, ByteOrZero;
    SextetsOfGroup(b, g);
    GroupBits(ByteOrZero(b, 3 * g), ByteOrZero(b, 3 * g + 1), ByteOrZero(b, 3 * g + 2), j);
  }

  /** Bit i of the bytes, and zero behind their end. */
  function BitAt(b: seq<Byte>, i: nat): int { BitOfByte(ByteOrZero(b, i / 8), i % 8) }

  lemma BitIn(b: seq<Byte>, j: nat, k: nat)
    requires k < 8
    ensures BitAt(b, 8 * j + k) == BitOfByte(ByteOrZero(b, j), k)
  {
    hide BitOfByte, ByteOrZero;
  }

  /** RFC 4648 section 4: bit j of the k-th sextet is bit 6k + j of the bytes, and zeros fill the last sextet. */
  lemma SextetsKeepBits(b: seq<Byte>, k: nat, j: nat)
    requires k < |Sextets(b)| && j < 6
    ensures BitOfSextet(Sextets(b)[k], j) == BitAt(b, 6 * k + j)
  {
    hide BitOfSextet, BitAt, SextetAt, BitOfByte, ByteOrZero;
    var g := k / 4;
    BitsOfGroup(b, g, j);
    if k == 4 * g {
      BitIn(b, 3 * g, j);
    } else if k == 4 * g + 1 {
      BitIn(b, 3 * g + (if j < 2 then 0 else 1), if j < 2 then j + 6 else j - 2);
    } else if k == 4 * g + 2 {
      BitIn(b, 3 * g + (if j < 4 then 1 else 2), if j < 4 then j + 4 else j - 4);
    } else {
      assert k == 4 * g + 3;
      BitIn(b, 3 * g + 2, j + 2);
    }
  }

  // ---- The raw form ----

  function UrlChars(v: seq<Sextet>): string { seq(|v|, k requires 0 <= k < |v| => UrlChar(v[k])) }

  /** Go's RawURLEncoding.EncodeToString. */
  function Raw(b: seq<Byte>): string { UrlChars(Sextets(b)) }

  function UrlValues(s: string): Option<seq<Sextet>> {
    if forall k :: 0 <= k < |s| ==> UrlValue(s[k]).Some?
    then Some(seq(|s|, k requires 0 <= k < |s| && UrlValue(s[k]).Some? => UrlValue(s[k]).value))
    else None
  }

  function WithoutBreaks(s: string): string {
    if s == "" then ""
    else WithoutBreaks(s[..|s| - 1]) + (if s[|s| - 1] == '\r' || s[|s| - 1] == '\n' then "" else [s[|s| - 1]])
  }

  /** Go's RawURLEncoding.DecodeString, which skips line breaks. */
  function ReadRaw(s: string): Option<seq<Byte>> {
    var v := UrlValues(WithoutBreaks(s));
    if v.None? || |v.value| % 4 == 1 then None else Some(Bytes(v.value))
  }

  lemma {:induction false} NoBreaks(s: string)
    requires forall k :: 0 <= k < |s| ==> s[k] != '\r' && s[k] != '\n'
    ensures WithoutBreaks(s) == s
  {
    if s == "" {
    } else {
      NoBreaks(s[..|s| - 1]);
    }
  }

  lemma {:induction false} BreakIsSkipped(a: string, c: char, b: string)
    requires c == '\r' || c == '\n'
    ensures WithoutBreaks(a + [c] + b) == WithoutBreaks(a + b)
  {
    var t, u := a + [c] + b, a + b;
    if b == "" {
      assert t[..|t| - 1] == a && u == a;
    } else {
      BreakIsSkipped(a, c, b[..|b| - 1]);
      assert t[..|t| - 1] == a + [c] + b[..|b| - 1] && u[..|u| - 1] == a + b[..|b| - 1];
    }
  }

  /** Go's decoder ignores a line break wherever it stands. */
  lemma ReadRawSkipsBreaks(a: string, c: char, b: string)
    requires c == '\r' || c == '\n'
    ensures ReadRaw(a + [c] + b) == ReadRaw(a + b)
  {
    hide WithoutBreaks, UrlValues;
    BreakIsSkipped(a, c, b);
  }

  lemma UrlValueBack(v: Sextet)
    ensures UrlValue(UrlChar(v)) == Some(v) && UrlChar(v) != '\r' && UrlChar(v) != '\n'
    ensures IsPlain(UrlChar(v)) && !IsSpace(UrlChar(v))
  {
  }

  /** The encoded form has no '+', '/' or '=', and no white space. */
  lemma RawIsPlain(b: seq<Byte>)
    ensures forall k :: 0 <= k < |Raw(b)| ==> IsPlain(Raw(b)[k]) && !IsSpace(Raw(b)[k])
  {
    hide SextetAt, UrlChar, IsPlain, IsSpace;
    var s, v := Raw(b), Sextets(b);
    forall k | 0 <= k < |s| ensures IsPlain(s[k]) && !IsSpace(s[k]) {
      UrlValueBack(v[k]);
    }
  }

  /** Go reads any string of the URL alphabet, unless one character is left over. */
  lemma ReadUrlChars(v: seq<Sextet>)
    ensures ReadRaw(UrlChars(v)) == if |v| % 4 == 1 then None else Some(Bytes(v))
  {
    hide UrlChar, UrlValue, IsPlain, IsSpace, Bytes;
    var s := UrlChars(v);
    forall k | 0 <= k < |s| ensures UrlValue(s[k]) == Some(v[k]) && s[k] != '\r' && s[k] != '\n' {
      UrlValueBack(v[k]);
    }
    NoBreaks(s);
    assert UrlValues(s).value == v;
  }

  /** The stored form reads back as the bytes. */
  lemma ReadRawIsInverse(b: seq<Byte>)
    ensures ReadRaw(Raw(b)) == Some(b)
    ensures |Raw(b)| % 4 != 1
  {
    hide SextetAt, ReadRaw;
    ReadUrlChars(Sextets(b));
    BytesOfSextets(b);
  }

  // ---- The browser's btoa and atob ----

  /** btoa takes characters that stand for one byte each. */
  predicate IsBinary(s: string) { forall i :: 0 <= i < |s| ==> s[i] as int < 256 }

  function Codes(s: string): seq<Byte>
    requires IsBinary(s)
  {
    seq(|s|, i requires 0 <= i < |s| => s[i] as int)
  }

  function Binary(b: seq<Byte>): (s: string)
    ensures IsBinary(s)
  {
    seq(|b|, i requires 0 <= i < |b| => b[i] as char)
  }

  function Equals(n: nat): string { seq(n, _ => '=') }

  function StdChars(v: seq<Sextet>): string { seq(|v|, k requires 0 <= k < |v| => StdChar(v[k])) }

  /** RFC 4648 section 4: padded to a multiple of four. */
  function Btoa(binary: string): string
    requires IsBinary(binary)
  {
    StdChars(Sextets(Codes(binary))) + Equals((3 - |binary| % 3) % 3)
  }

  function WithoutSpaces(s: string): string {
    if s == "" then ""
    else WithoutSpaces(s[..|s| - 1]) + (if IsSpace(s[|s| - 1]) then "" else [s[|s| - 1]])
  }

  /** Drops one or two '=' at the end of a string whose length is a multiple of four. */
  function WithoutPadding(s: string): string {
    if |s| % 4 != 0 || s == "" || s[|s| - 1] != '=' then s
    else if s[|s| - 2] == '=' then s[..|s| - 2]
    else s[..|s| - 1]
  }

  function StdValues(s: string): Option<seq<Sextet>> {
    if forall k :: 0 <= k < |s| ==> StdValue(s[k]).Some?
    then Some(seq(|s|, k requires 0 <= k < |s| && StdValue(s[k]).Some? => StdValue(s[k]).value))
    else None
  }

  /** The forgiving decoder of the web platform; None is the exception it throws. */
  function Atob(s: string): Option<string> {
    var data := WithoutPadding(WithoutSpaces(s));
    var v := StdValues(data);
    if v.None? || |data| % 4 == 1 then None else Some(Binary(Bytes(v.value)))
  }

  // ---- The browser helpers ----

  function Replaced(s: string, from: char, to: char): string {
    seq(|s|, i requires 0 <= i < |s| => if s[i] == from then to else s[i])
  }

  function WithoutTail(s: string): string {
    if s != "" && s[|s| - 1] == '=' then WithoutTail(s[..|s| - 1]) else s
  }

  function JsEncode(b: seq<Byte>): string {
    WithoutTail(Replaced(Replaced(Btoa(Binary(b)), '+', '-'), '/', '_'))
  }

  function Padded(s: string): string { s + Equals((4 - |s| % 4) % 4) }

  function JsDecode(s: string): Option<seq<Byte>> {
    match Atob(Padded(Replaced(Replaced(s, '-', '+'), '_', '/')))
    case None => None
    case Some(binary) => if IsBinary(binary) then Some(Codes(binary)) else None
  }

  lemma BinaryCodes(b: seq<Byte>)
    ensures Codes(Binary(b)) == b
  {
  }

  lemma {:induction false} TailIsPadding(s: string, n: nat)
    requires s == "" || s[|s| - 1] != '='
    ensures WithoutTail(s + Equals(n)) == s
  {
    if n == 0 {
      assert s + Equals(0) == s;
    } else {
      TailIsPadding(s, n - 1);
      var t := s + Equals(n);
      assert t[..|t| - 1] == s + Equals(n - 1);
    }
  }

  lemma ToUrlAlphabet(v: seq<Sextet>, n: nat)
    ensures var s := Replaced(Replaced(StdChars(v) + Equals(n), '+', '-'), '/', '_');
            s == UrlChars(v) + Equals(n)
  {
  }

  /** The browser and the server write the same characters for the same bytes. */
  lemma EncodersAgree(b: seq<Byte>)
    ensures JsEncode(b) == Raw(b)
  {
    BinaryCodes(b);
    var v, n := Sextets(b), (3 - |b| % 3) % 3;
    ToUrlAlphabet(v, n);
    if Raw(b) != "" {
      UrlValueBack(v[|v| - 1]);
    }
    hide SextetAt;
    TailIsPadding(Raw(b), n);
  }

  lemma {:induction false} NoSpaces(s: string)
    requires forall k :: 0 <= k < |s| ==> !IsSpace(s[k])
    ensures WithoutSpaces(s) == s
  {
    if s == "" {
    } else {
      NoSpaces(s[..|s| - 1]);
    }
  }

  lemma ToStdAlphabet(v: seq<Sextet>)
    ensures Replaced(Replaced(UrlChars(v), '-', '+'), '_', '/') == StdChars(v)
  {
  }

  lemma StdValueBack(v: Sextet)
    ensures StdValue(StdChar(v)) == Some(v)
    ensures StdChar(v) != '=' && !IsSpace(StdChar(v))
  {
  }

  lemma StdValuesBack(v: seq<Sextet>)
    ensures StdValues(StdChars(v)) == Some(v)
    ensures forall k :: 0 <= k < |v| ==> StdChars(v)[k] != '=' && !IsSpace(StdChars(v)[k])
  {
    var s := StdChars(v);
    forall k | 0 <= k < |v| ensures StdValue(s[k]) == Some(v[k]) && s[k] != '=' && !IsSpace(s[k]) {
      StdValueBack(v[k]);
    }
    assert StdValues(s).value == v;
  }

  lemma EqualsIsNoSpace()
    ensures !IsSpace('=')
  {
  }

  lemma PaddedHasNoSpaces(v: seq<Sextet>)
    ensures WithoutSpaces(Padded(StdChars(v))) == Padded(StdChars(v))
  {
    hide StdChars, IsSpace;
    StdValuesBack(v);
    var s := StdChars(v);
    var p := Padded(s);
    assert !IsSpace('=') by { EqualsIsNoSpace(); }
    forall k | 0 <= k < |p| ensures !IsSpace(p[k]) {
      if k < |s| {
        assert p[k] == s[k];
      }
    }
    NoSpaces(p);
  }

  lemma PaddingDropped(s: string)
    requires |s| % 4 != 1 && (s == "" || s[|s| - 1] != '=')
    ensures WithoutPadding(Padded(s)) == s
  {
  }

  lemma AtobOfPadded(v: seq<Sextet>)
    requires |v| % 4 != 1
    ensures Atob(Padded(StdChars(v))) == Some(Binary(Bytes(v)))
  {
    hide Padded, Bytes, WithoutSpaces, WithoutPadding, StdValues, IsSpace;
    StdValuesBack(v);
    PaddedHasNoSpaces(v);
    PaddingDropped(StdChars(v));
  }

  lemma BtoaIsPadded(binary: string)
    requires IsBinary(binary)
    ensures Btoa(binary) == Padded(StdChars(Sextets(Codes(binary)))) && |Btoa(binary)| % 4 == 0
    ensures |Sextets(Codes(binary))| % 4 != 1
  {
    hide SextetAt, StdChar;
  }

  /** What atob decodes btoa has written, padded to a multiple of four. */
  lemma AtobOfBtoa(binary: string)
    requires IsBinary(binary)
    ensures Atob(Btoa(binary)) == Some(binary)
    ensures |Btoa(binary)| % 4 == 0
  {
    hide Btoa, Padded, StdChars, Atob, Bytes, Sextets;
    var b := Codes(binary);
    BtoaIsPadded(binary);
    AtobOfPadded(Sextets(b));
    BytesOfSextets(b);
    assert Binary(b) == binary;
  }

  /** atob takes strings without padding too, unless one character is left over. */
  lemma AtobOfUnpadded(v: seq<Sextet>)
    ensures Atob(StdChars(v)) == if |v| % 4 == 1 then None else Some(Binary(Bytes(v)))
  {
    hide Bytes, StdValues, IsSpace;
    StdValuesBack(v);
    NoSpaces(StdChars(v));
  }

  lemma {:induction false} SpaceIsSkipped(a: string, c: char, b: string)
    requires IsSpace(c)
    ensures WithoutSpaces(a + [c] + b) == WithoutSpaces(a + b)
  {
    hide IsSpace;
    var t, u := a + [c] + b, a + b;
    if b == "" {
      assert t[..|t| - 1] == a && u == a;
    } else {
      SpaceIsSkipped(a, c, b[..|b| - 1]);
      assert t[..|t| - 1] == a + [c] + b[..|b| - 1] && u[..|u| - 1] == a + b[..|b| - 1];
    }
  }

  /** atob ignores a tab, a line feed, a form feed, a carriage return or a space wherever it stands. */
  lemma AtobSkipsSpaces(a: string, c: char, b: string)
    requires c as int in {9, 10, 12, 13, 32}
    ensures Atob(a + [c] + b) == Atob(a + b)
  {
    SpaceIsSkipped(a, c, b);
    hide WithoutSpaces, WithoutPadding, StdValues;
  }

  /** For every byte sequence the browser's decoder inverts its encoder. */
  lemma JsRoundTrip(b: seq<Byte>)
    ensures JsDecode(JsEncode(b)) == Some(b)
  {
    EncodersAgree(b);
    ReadRawIsInverse(b);
    var v := Sextets(b);
    ToStdAlphabet(v);
    AtobOfPadded(v);
    BytesOfSextets(b);
    BinaryCodes(b);
  }

  lemma JsReadsRaw(b: seq<Byte>)
    ensures |Raw(b)| % 4 != 1 && JsDecode(Raw(b)) == Some(b)
  {
    EncodersAgree(b);
    JsRoundTrip(b);
    ReadRawIsInverse(b);
  }

  lemma SameChars(v: seq<Sextet>, w: seq<Sextet>)
    ensures UrlChars(v) == UrlChars(w)
       <==> v == w
  {
    var s, t := UrlChars(v), UrlChars(w);
    if s == t {
      assert |v| == |s| == |t| == |w|;
      forall k | 0 <= k < |v| ensures v[k] == w[k] {
        assert s[k] == UrlChar(v[k]) && t[k] == UrlChar(w[k]);
        UrlValueBack(v[k]);
        UrlValueBack(w[k]);
      }
    }
  }

  /** One character left over is padded with three '=', of which atob drops two. */
  lemma OneLeftOver(v: seq<Sextet>)
    requires |v| % 4 == 1
    ensures Atob(Padded(StdChars(v))) == None
  {
    hide WithoutSpaces, IsSpace, Bytes;
    PaddedHasNoSpaces(v);
    var s := StdChars(v);
    var data := WithoutPadding(Padded(s));
    assert data[|s|] == '=';
  }

  lemma RawIsUrlChars(b: seq<Byte>)
    ensures Raw(b) == UrlChars(Sextets(b))
  {
  }

  /**
   On strings of the URL alphabet the browser and the server decode alike, failures included, and
   encoding gives the string back exactly when it is canonical.
   */
  lemma JsReadsWhatGoReads(v: seq<Sextet>)
    ensures var s := UrlChars(v);
            && JsDecode(s) == ReadRaw(s)
            && (JsDecode(s).Some? <==> |v| % 4 != 1)
            && (JsDecode(s).Some? && JsEncode(JsDecode(s).value) == s <==> Canonical(v))
  {
    hide ReadRaw, Raw, Atob, JsEncode;
    ReadUrlChars(v);
    ToStdAlphabet(v);
    if |v| % 4 == 1 {
      OneLeftOver(v);
    } else {
      AtobOfPadded(v);
      BinaryCodes(Bytes(v));
      EncodersAgree(Bytes(v));
      SextetsOfBytes(v);
      SameChars(v, Sextets(Bytes(v)));
      assert Raw(Bytes(v)) == UrlChars(Sextets(Bytes(v))) by { RawIsUrlChars(Bytes(v)); }
    }
  }

  // ---- The loops ----

  method ArrayBufferToBase64url(bytes: array<Byte>) returns (s: string)
    ensures s == Raw(bytes[..])
  {
    var binary := "";
    var i := 0;
    while i < bytes.Length
      invariant 0 <= i <= bytes.Length
      invariant binary == Binary(bytes[..i])
    {
      binary := binary + [bytes[i] as char];
      i := i + 1;
    }
    assert bytes[..i] == bytes[..];
    s := WithoutTail(Replaced(Replaced(Btoa(binary), '+', '-'), '/', '_'));
    EncodersAgree(bytes[..]);
  }

  /** The padding loop adds at most two characters to what an encoder wrote, and at most three to anything. */
  method Base64urlToArrayBuffer(base64url: string) returns (bytes: Option<array<Byte>>, pads: nat)
    ensures bytes.Some? <==> JsDecode(base64url).Some?
    ensures bytes.Some? ==> bytes.value[..] == JsDecode(base64url).value
    ensures pads == (4 - |base64url| % 4) % 4
    ensures forall b :: base64url == Raw(b) ==> pads <= 2 && bytes.Some? && bytes.value[..] == b
  {
    hide Raw, Atob;
    var base64 := Replaced(Replaced(base64url, '-', '+'), '_', '/');
    ghost var start := base64;
    pads := 0;
    while |base64| % 4 != 0
      invariant pads <= (4 - |start| % 4) % 4
      invariant base64 == start + Equals(pads)
      decreases (4 - |base64| % 4) % 4
    {
      base64 := base64 + "=";
      pads := pads + 1;
    }
    forall b | base64url == Raw(b) ensures |base64url| % 4 != 1 && JsDecode(base64url) == Some(b) {
      JsReadsRaw(b);
    }
    var binary := Atob(base64);
    if binary.None? || !IsBinary(binary.value) {
      return None, pads;
    }
    var a := new Byte[|binary.value|];
    var i := 0;
    while i < |binary.value|
      invariant 0 <= i <= |binary.value| == a.Length
      invariant a[..i] == Codes(binary.value)[..i]
    {
      a[i] := binary.value[i] as int;
      i := i + 1;
    }
    assert a[..] == Codes(binary.value);
    return Some(a), pads;
  }
}
