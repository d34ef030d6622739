/** Bytes and the numbers they stand for, and four-byte big-endian and little-endian forms. */
module Bytes {
  import opened Crc32

  const LIMIT := 0x1_0000_0000

  /** The low `k` binary digits of `n`, lowest first. */
  function BitsOf(n: nat, k: nat): (s: seq<bool>)
    ensures |s| == k
  {
    if k == 0 then [] else [n % 2 == 1] + BitsOf(n / 2, k - 1)
  }

  function NumberOf(bits: seq<bool>): nat {
    if |bits| == 0 then 0 else 2 * NumberOf(bits[1..]) + (if bits[0] then 1 else 0)
  }

  function Power2(k: nat): nat { if k == 0 then 1 else 2 * Power2(k - 1) }

  lemma {:induction false} NumberOfBits(n: nat, k: nat)
    requires n < Power2(k)
    ensures NumberOf(BitsOf(n, k)) == n
    decreases k
  {
    if k != 0 { NumberOfBits(n / 2, k - 1); }
  }

  lemma {:induction false} BitsOfNumber(bits: seq<bool>)
    ensures BitsOf(NumberOf(bits), |bits|) == bits && NumberOf(bits) < Power2(|bits|)
  {
    if |bits| != 0 {
      BitsOfNumber(bits[1..]);
      assert bits == [bits[0]] + bits[1..];
    }
  }

  lemma EightBits()
    ensures Power2(8) == 256
  {
    assert Power2(4) == 16;
    assert Power2(6) == 64;
  }

  function Choose(b: bool, x: byte): byte { if b then x else 0 }

  function FromBits(s: seq<bool>): byte
    requires |s| == 8
  {
    Choose(s[7], 128) | Choose(s[6], 64) | Choose(s[5], 32) | Choose(s[4], 16) |
    Choose(s[3], 8) | Choose(s[2], 4) | Choose(s[1], 2) | Choose(s[0], 1)
  }

  function ToBits(b: byte): seq<bool> {
    [b & 1 != 0, b & 2 != 0, b & 4 != 0, b & 8 != 0, b & 16 != 0, b & 32 != 0, b & 64 != 0, b & 128 != 0]
  }

  /** The byte with a given value. */
  function Digit(d: nat): byte
    requires d < 256
  {
    FromBits(BitsOf(d, 8))
  }

  /** The value of a byte. */
  function Value(b: byte): (n: nat)
    ensures n < 256
  {
    BitsOfNumber(ToBits(b));
    EightBits();
    NumberOf(ToBits(b))
  }

  lemma BitsOfByte(s: seq<bool>)
    requires |s| == 8
    ensures ToBits(FromBits(s)) == s
  {
  }

  lemma ByteOfBits(b: byte)
    ensures FromBits(ToBits(b)) == b
  {
  }

  lemma ValueOfDigit(d: nat)
    requires d < 256
    ensures Value(Digit(d)) == d
  {
    hide FromBits, ToBits, NumberOf;
    EightBits();
    BitsOfByte(BitsOf(d, 8));
    NumberOfBits(d, 8);
  }

  lemma DigitOfValue(b: byte)
    ensures Digit(Value(b)) == b
  {
    assert |ToBits(b)| == 8;
    hide FromBits, ToBits, NumberOf;
    BitsOfNumber(ToBits(b));
    ByteOfBits(b);
  }

  function Weight(on: bool, w: nat): nat { if on then w else 0 }

  lemma FourWeights(s: seq<bool>)
    requires |s| == 4
    ensures NumberOf(s) == Weight(s[0], 1) + Weight(s[1], 2) + Weight(s[2], 4) + Weight(s[3], 8)
  {
    assert NumberOf(s[1..][1..]) == 2 * NumberOf(s[1..][1..][1..]) + Weight(s[2], 1);
    assert s[1..][1..][1..][1..] == [];
  }

  lemma EightWeights(s: seq<bool>)
    requires |s| == 8
    ensures NumberOf(s) == Weight(s[0], 1) + Weight(s[1], 2) + Weight(s[2], 4) + Weight(s[3], 8) +
      Weight(s[4], 16) + Weight(s[5], 32) + Weight(s[6], 64) + Weight(s[7], 128)
  {
    FourWeights(s[4..]);
    assert s[1..][1..][1..][1..] == s[4..];
    assert NumberOf(s[1..][1..]) == 2 * NumberOf(s[1..][1..][1..]) + Weight(s[2], 1);
  }

  lemma ByteWeights(b: byte)
    ensures b as nat == Weight(b & 1 != 0, 1) + Weight(b & 2 != 0, 2) + Weight(b & 4 != 0, 4) + Weight(b & 8 != 0, 8) +
      Weight(b & 16 != 0, 16) + Weight(b & 32 != 0, 32) + Weight(b & 64 != 0, 64) + Weight(b & 128 != 0, 128)
  {
  }

  /** The value of a byte is the number it is. */
  lemma ValueIsTheNumber(b: byte)
    ensures Value(b) == b as nat
  {
    EightWeights(ToBits(b));
    ByteWeights(b);
  }

  lemma DigitIsTheNumber(d: nat)
    requires d < 256
    ensures Digit(d) as nat == d
  {
    ValueIsTheNumber(Digit(d));
    ValueOfDigit(d);
  }

  // ------------------------------------------------------------------ numbers of several bytes

  /** writeUInt32BE. */
  function BigEndian(n: nat): (s: seq<byte>)
    requires n < LIMIT
    ensures |s| == 4
  {
    [Digit(n / 0x100_0000), Digit(n / 0x1_0000 % 256), Digit(n / 256 % 256), Digit(n % 256)]
  }

  function FromBigEndian(s: seq<byte>): (n: nat)
    requires |s| == 4
    ensures n < LIMIT
  {
    ((Value(s[0]) * 256 + Value(s[1])) * 256 + Value(s[2])) * 256 + Value(s[3])
  }

  lemma Digits(n: nat)
    requires n < LIMIT
    ensures n == ((n / 0x100_0000 * 256 + n / 0x1_0000 % 256) * 256 + n / 256 % 256) * 256 + n % 256
    ensures n / 0x100_0000 < 256
  {
    assert n / 256 / 256 == n / 0x1_0000 && n / 0x1_0000 / 256 == n / 0x100_0000;
  }

  lemma BigEndianRoundTrip(n: nat)
    requires n < LIMIT
    ensures |BigEndian(n)| == 4 && FromBigEndian(BigEndian(n)) == n
  {
    hide Value, Digit;
    Digits(n);
    ValueOfDigit(n / 0x100_0000);
    ValueOfDigit(n / 0x1_0000 % 256);
    ValueOfDigit(n / 256 % 256);
    ValueOfDigit(n % 256);
  }

  /** What four bytes weigh, the most significant first. */
  ghost function BigWeight(s: seq<byte>): nat
    requires |s| == 4
  {
    0x100_0000 * s[0] as nat + 0x1_0000 * s[1] as nat + 0x100 * s[2] as nat + s[3] as nat
  }

  /** The same as a word: the sum cannot wrap around, since each byte fills its own eight bits. */
  ghost function WordWeight(s: seq<byte>): bv32
    requires |s| == 4
  {
    0x100_0000 * s[0] as bv32 + 0x1_0000 * s[1] as bv32 + 0x100 * s[2] as bv32 + s[3] as bv32
  }

  /** What four bytes weigh, the least significant first. */
  ghost function LittleWeight(s: seq<byte>): nat
    requires |s| == 4
  {
    s[0] as nat + 0x100 * s[1] as nat + 0x1_0000 * s[2] as nat + 0x100_0000 * s[3] as nat
  }

  lemma BigEndianWeighs(n: nat)
    requires n < LIMIT
    ensures BigWeight(BigEndian(n)) == n
  {
    hide Digit;
    Digits(n);
    DigitIsTheNumber(n / 0x100_0000);
    DigitIsTheNumber(n / 0x1_0000 % 256);
    DigitIsTheNumber(n / 256 % 256);
    DigitIsTheNumber(n % 256);
  }

  lemma DigitsAreUnique(a: nat, b: nat, c: nat, d: nat)
    requires a < 256 && b < 256 && c < 256 && d < 256
    ensures var n := ((a * 256 + b) * 256 + c) * 256 + d;
      n / 0x100_0000 == a && n / 0x1_0000 % 256 == b && n / 256 % 256 == c && n % 256 == d
  {
    var n := ((a * 256 + b) * 256 + c) * 256 + d;
    assert n / 256 == (a * 256 + b) * 256 + c;
    assert n / 0x1_0000 == a * 256 + b;
  }

  lemma BigEndianIsOnto(s: seq<byte>)
    requires |s| == 4
    ensures BigEndian(FromBigEndian(s)) == s
  {
    hide Value, Digit;
    DigitsAreUnique(Value(s[0]), Value(s[1]), Value(s[2]), Value(s[3]));
    DigitOfValue(s[0]);
    DigitOfValue(s[1]);
    DigitOfValue(s[2]);
    DigitOfValue(s[3]);
  }

  /** writeUInt32BE of a 32-bit word. */
  function WordBytes(x: bv32): (s: seq<byte>)
    ensures |s| == 4
  {
    [((x >> 24) & 0xff) as byte, ((x >> 16) & 0xff) as byte, ((x >> 8) & 0xff) as byte, (x & 0xff) as byte]
  }

  lemma WordBytesWeigh(x: bv32)
    ensures WordWeight(WordBytes(x)) == x
  {
  }

  lemma WordFromBytes(x: bv32)
    ensures x == (((((x >> 24) & 0xff) as byte) as bv32) << 24) | (((((x >> 16) & 0xff) as byte) as bv32) << 16)
      | (((((x >> 8) & 0xff) as byte) as bv32) << 8) | (((x & 0xff) as byte) as bv32)
  {
  }

  lemma WordBytesInjective(x: bv32, y: bv32)
    requires WordBytes(x) == WordBytes(y)
    ensures x == y
  {
    WordFromBytes(x);
    WordFromBytes(y);
    assert WordBytes(x)[0] == WordBytes(y)[0] && WordBytes(x)[1] == WordBytes(y)[1];
    assert WordBytes(x)[2] == WordBytes(y)[2] && WordBytes(x)[3] == WordBytes(y)[3];
  }

  /** The little-endian form of a four-byte number. */
  function LittleEndian(n: nat): (s: seq<byte>)
    requires n < LIMIT
    ensures |s| == 4
  {
    [Digit(n % 256), Digit(n / 256 % 256), Digit(n / 0x1_0000 % 256), Digit(n / 0x100_0000)]
  }

  function FromLittleEndian(s: seq<byte>): (n: nat)
    requires |s| == 4
    ensures n < LIMIT
  {
    FromBigEndian([s[3], s[2], s[1], s[0]])
  }

  lemma LittleEndianRoundTrip(n: nat)
    requires n < LIMIT
    ensures |LittleEndian(n)| == 4 && FromLittleEndian(LittleEndian(n)) == n
  {
    hide Value, Digit, FromBigEndian;
    Digits(n);
    BigEndianRoundTrip(n);
    var s := LittleEndian(n);
    assert [s[3], s[2], s[1], s[0]] == BigEndian(n);
  }

  lemma LittleEndianWeighs(n: nat)
    requires n < LIMIT
    ensures LittleWeight(LittleEndian(n)) == n
  {
    hide Digit;
    Digits(n);
    DigitIsTheNumber(n / 0x100_0000);
    DigitIsTheNumber(n / 0x1_0000 % 256);
    DigitIsTheNumber(n / 256 % 256);
    DigitIsTheNumber(n % 256);
  }
}
