/** Bytes, and the encodings the filter applies to literals before hashing or encrypting them. */
module Bytes {

  type byte = x: int | 0 <= x < 256

  type ByteString = seq<byte>

  /** The bytes of chunks, one after the other. */
  function Flatten(chunks: seq<ByteString>): ByteString {
    if chunks == [] then [] else chunks[0] + Flatten(chunks[1..])
  }

  /** Bounds of the 64-bit integers the SQL parser stores in a literal. */
  predicate IsInt64(n: int) { -0x8000_0000_0000_0000 <= n < 0x8000_0000_0000_0000 }

  // --- hexadecimal text: "\x" followed by two lower-case digits a byte ---

  const BACKSLASH: byte := 92
  const LOWER_X: byte := 120
  const MINUS: byte := 45
  const HEX_PREFIX: ByteString := [BACKSLASH, LOWER_X]

  function HexDigit(d: int): byte
    requires 0 <= d < 16
  {
    if d < 10 then 48 + d else 87 + d
  }

  /** The value of a hexadecimal digit of either case; 0 for any other character. */
  function HexValue(c: byte): (d: int)
    ensures 0 <= d < 16
  {
    if 48 <= c <= 57 then c - 48
    else if 97 <= c <= 102 then c - 87
    else if 65 <= c <= 70 then c - 55
    else 0
  }

  function HexEncode(b: ByteString): ByteString {
    if b == [] then [] else [HexDigit(b[0] / 16), HexDigit(b[0] % 16)] + HexEncode(b[1..])
  }

  /** Two characters a byte; an odd last character is dropped. */
  function HexDecode(t: ByteString): ByteString {
    if |t| < 2 then [] else [16 * HexValue(t[0]) + HexValue(t[1])] + HexDecode(t[2..])
  }

  lemma {:induction false} HexRoundTrip(b: ByteString)
    ensures HexDecode(HexEncode(b)) == b
  {
    if b != [] {
      var t := HexEncode(b);
      assert t[2..] == HexEncode(b[1..]);
      HexRoundTrip(b[1..]);
    }
  }

  /** The literal text the mutators put into the query for binary data. */
  function ByteaText(b: ByteString): ByteString { HEX_PREFIX + HexEncode(b) }

  /** Drops the two prefix characters and decodes the rest. */
  function ByteaValue(t: ByteString): ByteString
    requires |t| >= 2
  {
    HexDecode(t[2..])
  }

  lemma ByteaRoundTrip(b: ByteString)
    ensures |ByteaText(b)| >= 2 && ByteaValue(ByteaText(b)) == b
  {
    HexRoundTrip(b);
    assert ByteaText(b)[2..] == HexEncode(b);
  }

  // --- decimal text of an integer ---

  function Digits(n: nat): ByteString {
    if n < 10 then [48 + n] else Digits(n / 10) + [48 + n % 10]
  }

  function Decimal(n: int): ByteString {
    if n < 0 then [MINUS] + Digits(-n) else Digits(n)
  }

  /** The number a string of decimal digits denotes. */
  function DigitsValue(t: ByteString): int {
    if t == [] then 0 else 10 * DigitsValue(t[..|t| - 1]) + (t[|t| - 1] as int - 48)
  }

  lemma {:induction false} DigitsRoundTrip(n: nat)
    ensures Digits(n) != [] && 48 <= Digits(n)[0] <= 57
    ensures DigitsValue(Digits(n)) == n
  {
    var t := Digits(n);
    if n < 10 {
      assert t[..|t| - 1] == [];
    } else {
      DigitsRoundTrip(n / 10);
      assert t[..|t| - 1] == Digits(n / 10);
    }
  }

  lemma DecimalInjective(m: int, n: int)
    requires Decimal(m) == Decimal(n)
    ensures m == n
  {
    DigitsRoundTrip(if m < 0 then -m else m);
    DigitsRoundTrip(if n < 0 then -n else n);
    if m < 0 && n < 0 {
      assert Decimal(m)[1..] == Digits(-m) && Decimal(n)[1..] == Digits(-n);
    }
  }

  // --- the eight raw bytes of a 64-bit integer, least significant first ---

  function Power256(k: nat): (p: int)
    ensures p > 0
  {
    if k == 0 then 1 else 256 * Power256(k - 1)
  }

  function LittleEndian(n: nat, k: nat): (b: ByteString)
    ensures |b| == k
  {
    if k == 0 then [] else [n % 256] + LittleEndian(n / 256, k - 1)
  }

  const TWO_64: int := 0x1_0000_0000_0000_0000

  /** Two's complement, as the compiler stores it. */
  function RawInt64(n: int): ByteString { LittleEndian(n % TWO_64, 8) }

  lemma {:induction false} LittleEndianInjective(m: nat, n: nat, k: nat)
    requires m < Power256(k) && n < Power256(k)
    requires LittleEndian(m, k) == LittleEndian(n, k)
    ensures m == n
  {
    if k > 0 {
      var a, b := LittleEndian(m, k), LittleEndian(n, k);
      assert a[0] == b[0] && a[1..] == LittleEndian(m / 256, k - 1) && b[1..] == LittleEndian(n / 256, k - 1);
      LittleEndianInjective(m / 256, n / 256, k - 1);
    }
  }

  lemma Power256Of8()
    ensures Power256(8) == TWO_64
  {
    assert Power256(4) == 256 * (256 * (256 * (256 * Power256(0))));
    assert Power256(8) == 256 * (256 * (256 * (256 * Power256(4))));
  }

  lemma WrapInjective(m: int, n: int)
    requires IsInt64(m) && IsInt64(n) && m % TWO_64 == n % TWO_64
    ensures m == n
  {
    var q := m / TWO_64 - n / TWO_64;
    assert m - n == TWO_64 * q;
  }

  lemma RawInt64Injective(m: int, n: int)
    requires IsInt64(m) && IsInt64(n)
    requires RawInt64(m) == RawInt64(n)
    ensures m == n
  {
    Power256Of8();
    LittleEndianInjective(m % TWO_64, n % TWO_64, 8);
    WrapInjective(m, n);
  }
}
