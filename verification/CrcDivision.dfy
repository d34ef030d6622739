/**
 What the checksum means, with no register and no table: the message bits, least significant bit of
 each byte first, are the coefficients of a polynomial over GF(2), and the checksum is the remainder
 of dividing it (shifted up by 32, its first 32 coefficients inverted) by the generator polynomial.
 */
module CrcDivision {
  import opened Crc32

  // ------------------------------------------------------------------ bits

  function LowBit(b: bool): bv32 { if b then 1 else 0 }

  /** The register driven by one message bit at a time. */
  function FeedBits(c: bv32, bits: seq<bool>): bv32 {
    if |bits| == 0 then c else Shift(Xor(FeedBits(c, bits[..|bits| - 1]), LowBit(bits[|bits| - 1])))
  }

  /** The low `n` bits of `x`, lowest first. */
  function LowBits(x: bv32, n: nat): seq<bool> {
    if n == 0 then [] else [Odd(x)] + LowBits(Half(x), n - 1)
  }

  function MessageBits(bytes: seq<byte>): seq<bool> {
    if |bytes| == 0 then [] else MessageBits(bytes[..|bytes| - 1]) + LowBits(bytes[|bytes| - 1] as bv32, 8)
  }

  lemma {:induction false} FeedBitsConcat(c: bv32, a: seq<bool>, b: seq<bool>)
    ensures FeedBits(c, a + b) == FeedBits(FeedBits(c, a), b)
  {
    hide Shift, Xor;
    if |b| == 0 {
      assert a + b == a;
    } else {
      assert (a + b)[..|a + b| - 1] == a + b[..|b| - 1];
      FeedBitsConcat(c, a, b[..|b| - 1]);
    }
  }

  /** `x` without its lowest bit. */
  function Even(x: bv32): bv32 { x & 0xfffffffe }

  lemma PeelLowBit(c: bv32, x: bv32)
    ensures Xor(c, x) == Xor(Xor(c, LowBit(Odd(x))), Even(x))
    ensures !Odd(Even(x)) && Half(Even(x)) == Half(x)
  {
  }

  /** Only the low `n` bits of `x` can be set. */
  predicate Fits(x: bv32, n: nat) {
    if n == 0 then x == 0 else Fits(Half(x), n - 1)
  }

  lemma FedOne(c: bv32, bit: bool)
    ensures FeedBits(c, [bit]) == Shift(Xor(c, LowBit(bit)))
  {
    assert [bit][..0] == [];
  }

  /** Adding `n` bits at once and shifting `n` times is feeding them one at a time. */
  lemma {:induction false} ShiftsAreFedBits(c: bv32, x: bv32, n: nat)
    requires Fits(x, n)
    ensures Shifts(Xor(c, x), n) == FeedBits(c, LowBits(x, n))
    decreases n
  {
    if n == 0 {
      assert Xor(c, 0) == c;
    } else {
      PeelLowBit(c, x);
      var c1, high := Xor(c, LowBit(Odd(x))), Even(x);
      assert Shift(high) == Half(x);
      hide Shift, Xor, Odd, Half, Even;
      ShiftIsLinear(c1, high);
      ShiftsAreFedBits(Shift(c1), Half(x), n - 1);
      ShiftsAdd(Xor(c, x), 1, n - 1);
      assert Shifts(Xor(c, x), 1) == Shift(Shifts(Xor(c, x), 0));
      FedOne(c, Odd(x));
      FeedBitsConcat(c, [Odd(x)], LowBits(Half(x), n - 1));
    }
  }

  lemma EightHalves(x: bv32)
    ensures Half(Half(Half(Half(Half(Half(Half(Half(x)))))))) == x >> 8
  {
  }

  lemma ByteFits(b: byte)
    ensures Fits(b as bv32, 8)
  {
    var x := b as bv32;
    EightHalves(x);
    assert x >> 8 == 0;
    hide Half;
    var x1, x2, x3 := Half(x), Half(Half(x)), Half(Half(Half(x)));
    var x4, x5, x6 := Half(x3), Half(Half(x3)), Half(Half(Half(x3)));
    assert Fits(Half(Half(x6)), 0);
    assert Fits(Half(x6), 1) && Fits(x6, 2);
    assert Fits(x5, 3) && Fits(x4, 4);
    assert Fits(x3, 5) && Fits(x2, 6);
    assert Fits(x1, 7);
  }

  /** The table-driven register is the bit-serial register. */
  lemma {:induction false} FeedIsBitSerial(c: bv32, bytes: seq<byte>)
    ensures Feed(c, bytes) == FeedBits(c, MessageBits(bytes))
  {
    hide Update, Shifts, Xor;
    if |bytes| != 0 {
      var before, last := bytes[..|bytes| - 1], bytes[|bytes| - 1];
      FeedIsBitSerial(c, before);
      UpdateIsEightShifts(Feed(c, before), last);
      ByteFits(last);
      ShiftsAreFedBits(Feed(c, before), last as bv32, 8);
      FeedBitsConcat(c, MessageBits(before), LowBits(last as bv32, 8));
    }
  }

  // ------------------------------------------------------------------ polynomials

  /** A polynomial over GF(2): the exponents whose coefficient is 1. */
  type Polynomial = set<nat>

  function Add(p: Polynomial, q: Polynomial): Polynomial { (p - q) + (q - p) }

  function TimesX(p: Polynomial): Polynomial { set e | e in p :: e + 1 }

  /** The generator of section 3.4 of RFC 2083. */
  const GENERATOR: Polynomial := {32, 26, 23, 22, 16, 12, 11, 10, 8, 7, 5, 4, 2, 1, 0}

  function If(b: bool, p: Polynomial): Polynomial { if b then p else {} }

  /** The multiple of the generator by the polynomial whose coefficients, highest first, are `q`. */
  function Multiple(q: seq<bool>): Polynomial {
    if |q| == 0 then {} else Add(TimesX(Multiple(q[..|q| - 1])), If(q[|q| - 1], GENERATOR))
  }

  function Bit(c: bv32, k: nat): bool { if k == 0 then Odd(c) else Bit(Half(c), k - 1) }

  /** The register as a polynomial: bit 31 is the constant term, bit 0 the coefficient of x^31. */
  function Remainder(c: bv32): Polynomial { set e | 0 <= e < 32 && Coefficient(c, e) }

  predicate Coefficient(c: bv32, e: nat) { e < 32 && Bit(c, 31 - e) }

  /**
   The polynomial that is divided: the bits in order, highest coefficient first, times x^32, plus the
   start register times x^|bits|.
   */
  function Dividend(c: bv32, bits: seq<bool>): Polynomial {
    if |bits| == 0 then Remainder(c)
    else Add(TimesX(Dividend(c, bits[..|bits| - 1])), If(bits[|bits| - 1], {32}))
  }

  lemma AddLaws(p: Polynomial, q: Polynomial, r: Polynomial)
    ensures Add(p, q) == Add(q, p)
    ensures Add(Add(p, q), r) == Add(p, Add(q, r))
    ensures Add(p, p) == {} && Add(p, {}) == p
  {
  }

  lemma TimesXMember(p: Polynomial, e: nat)
    ensures e in TimesX(p) <==> e > 0 && e - 1 in p
  {
  }

  lemma TimesXAdd(p: Polynomial, q: Polynomial)
    ensures TimesX(Add(p, q)) == Add(TimesX(p), TimesX(q))
  {
    forall e: nat ensures e in TimesX(Add(p, q)) <==> e in Add(TimesX(p), TimesX(q)) {
      TimesXMember(Add(p, q), e);
      TimesXMember(p, e);
      TimesXMember(q, e);
    }
  }

  lemma {:induction false} BitOfXor(c: bv32, d: bv32, k: nat)
    ensures Bit(Xor(c, d), k) <==> Bit(c, k) != Bit(d, k)
    decreases k
  {
    hide Xor, Half, Odd;
    HalfOfXor(c, d);
    OddXor(c, d);
    if k != 0 { BitOfXor(Half(c), Half(d), k - 1); }
  }

  function Nibble(c: bv32): bv32 { c >> 4 }

  lemma FourHalves(c: bv32)
    ensures Half(Half(Half(Half(c)))) == Nibble(c)
  {
  }

  lemma BitFourUp(c: bv32, k: nat)
    ensures Bit(c, k + 4) == Bit(Nibble(c), k)
  {
    FourHalves(c);
    hide Half, Odd, Nibble;
    assert Bit(c, k + 4) == Bit(Half(c), k + 3);
    assert Bit(Half(c), k + 3) == Bit(Half(Half(c)), k + 2);
    assert Bit(Half(Half(c)), k + 2) == Bit(Half(Half(Half(c))), k + 1);
  }

  lemma EightNibbles(c: bv32)
    ensures Nibble(Nibble(Nibble(Nibble(Nibble(Nibble(Nibble(Nibble(c)))))))) == 0
  {
  }

  lemma NoHighBits(c: bv32)
    ensures !Bit(c, 32)
  {
    EightNibbles(c);
    assert !Bit(0, 0);
    hide Nibble, Bit;
    var c2 := Nibble(Nibble(c));
    var c4 := Nibble(Nibble(c2));
    var c6 := Nibble(Nibble(c4));
    BitFourUp(c, 28); BitFourUp(Nibble(c), 24);
    BitFourUp(c2, 20); BitFourUp(Nibble(c2), 16);
    BitFourUp(c4, 12); BitFourUp(Nibble(c4), 8);
    BitFourUp(c6, 4); BitFourUp(Nibble(c6), 0);
  }

  lemma FewHalves(c: bv32)
    ensures Odd(c) <==> c & 1 != 0
    ensures Odd(Half(c)) <==> c & 2 != 0
    ensures Odd(Half(Half(c))) <==> c & 4 != 0
    ensures Odd(Half(Half(Half(c)))) <==> c & 8 != 0
  {
  }

  lemma NibbleBits(c: bv32)
    ensures (Bit(c, 0) <==> c & 1 != 0) && (Bit(c, 1) <==> c & 2 != 0)
    ensures (Bit(c, 2) <==> c & 4 != 0) && (Bit(c, 3) <==> c & 8 != 0)
  {
    FewHalves(c);
    hide Odd, Half;
    var c1, c2, c3 := Half(c), Half(Half(c)), Half(Half(Half(c)));
    assert Bit(c, 1) == Bit(c1, 0);
    assert Bit(c, 2) == Bit(c1, 1) == Bit(c2, 0);
    assert Bit(c, 3) == Bit(c1, 2) == Bit(c2, 1) == Bit(c3, 0);
  }

  /** The constant of the program with its last `i` hexadecimal digits dropped. */
  function Dropped(i: nat): bv32 {
    match i
    case 0 => POLYNOMIAL case 1 => 0xedb8832 case 2 => 0xedb883 case 3 => 0xedb88
    case 4 => 0xedb8 case 5 => 0xedb case 6 => 0xed case 7 => 0xe case _ => 0
  }

  lemma DropOne(i: nat)
    ensures Nibble(Dropped(i)) == Dropped(i + 1)
  {
  }

  lemma {:induction false} BitOfConstant(i: nat, k: nat)
    ensures Bit(Dropped(i), k) == Bit(Dropped(i + k / 4), k % 4)
    decreases k
  {
    if k >= 4 {
      DropOne(i);
      hide Dropped, Bit, Nibble;
      BitFourUp(Dropped(i), k - 4);
      BitOfConstant(i + 1, k - 4);
    }
  }

  /** The constant of the program is the generator below x^32, lowest exponent in the highest bit. */
  lemma PolynomialIsGenerator(e: nat)
    requires e < 32
    ensures Bit(POLYNOMIAL, 31 - e) <==> e in GENERATOR
  {
    var k := 31 - e;
    BitOfConstant(0, k);
    NibbleBits(Dropped(k / 4));
    hide Bit;
  }

  // ------------------------------------------------------------------ division

  /** One shift of the register divides once: x * R(d) = (d odd ? G : 0) + R(Shift(d)). */
  lemma ShiftDivides(d: bv32)
    ensures TimesX(Remainder(d)) == Add(If(Odd(d), GENERATOR), Remainder(Shift(d)))
  {
    forall e: nat ensures e in TimesX(Remainder(d)) <==> e in Add(If(Odd(d), GENERATOR), Remainder(Shift(d))) {
      TimesXMember(Remainder(d), e);
      ShiftDividesAt(d, e);
    }
  }

  lemma ShiftDividesAt(d: bv32, e: nat)
    ensures (e > 0 && e - 1 in Remainder(d)) <==> e in Add(If(Odd(d), GENERATOR), Remainder(Shift(d)))
  {
    if e < 32 {
      BitOfShift(d, 31 - e);
      PolynomialIsGenerator(e);
      if e == 0 { NoHighBits(d); }
    }
    hide Bit, Shift;
    assert e > 32 ==> e !in GENERATOR;
  }

  lemma BitOfShift(d: bv32, k: nat)
    ensures Bit(Shift(d), k) <==> Bit(d, k + 1) != (Odd(d) && Bit(POLYNOMIAL, k))
  {
    hide Xor, Half, Odd;
    BitOfXor(POLYNOMIAL, Half(d), k);
  }

  lemma RemainderAdds(c: bv32, d: bv32)
    ensures Remainder(Xor(c, d)) == Add(Remainder(c), Remainder(d))
  {
    hide Bit, Xor;
    forall e: nat | e < 32
      ensures e in Remainder(Xor(c, d)) <==> e in Add(Remainder(c), Remainder(d))
    {
      BitOfXor(c, d, 31 - e);
    }
  }

  lemma {:induction false} ZeroHasNoBits(k: nat)
    ensures !Bit(0, k)
  {
    if k != 0 { ZeroHasNoBits(k - 1); }
  }

  lemma RemainderOfBit(b: bool)
    ensures Remainder(LowBit(b)) == If(b, {31})
  {
    forall e: nat | e < 32 ensures Coefficient(LowBit(b), e) <==> b && e == 31 {
      assert Half(LowBit(b)) == 0;
      if e < 31 { ZeroHasNoBits(30 - e); } else { assert Bit(LowBit(b), 0) == b; }
    }
    hide Bit, LowBit, Coefficient;
  }

  /** What each coefficient of the divided polynomial is. */
  lemma {:induction false} DividendCoefficient(c: bv32, bits: seq<bool>, e: nat)
    ensures e in Dividend(c, bits) <==>
      ((32 <= e < 32 + |bits| && bits[|bits| - 1 - (e - 32)]) != (e >= |bits| && e - |bits| in Remainder(c)))
  {
    if |bits| != 0 {
      var before := bits[..|bits| - 1];
      TimesXMember(Dividend(c, before), e);
      if e > 0 { DividendCoefficient(c, before, e - 1); }
    }
  }

  lemma AddFour(m: Polynomial, r: Polynomial, b: Polynomial, g: Polynomial, s: Polynomial)
    requires Add(r, b) == Add(g, s)
    ensures Add(Add(m, r), b) == Add(Add(m, g), s)
  {
    AddLaws(m, r, b);
    AddLaws(m, g, s);
  }

  /** One message bit: the register with the bit added in, shifted, is one step of long division. */
  lemma DivideOne(f: bv32, b: bool)
    ensures var d := Xor(f, LowBit(b));
      Add(TimesX(Remainder(f)), If(b, {32})) == Add(If(Odd(d), GENERATOR), Remainder(Shift(d)))
  {
    var d := Xor(f, LowBit(b));
    ShiftDivides(d);
    RemainderAdds(f, LowBit(b));
    RemainderOfBit(b);
    TimesXAdd(Remainder(f), If(b, {31}));
    assert TimesX(If(b, {31})) == If(b, {32}) by {
      forall e: nat ensures e in TimesX(If(b, {31})) <==> e in If(b, {32}) { TimesXMember(If(b, {31}), e); }
    }
  }

  /** Long division: the register left by the bits is the remainder, for some quotient. */
  lemma {:induction false} FeedDivides(c: bv32, bits: seq<bool>) returns (q: seq<bool>)
    ensures |q| == |bits|
    ensures Dividend(c, bits) == Add(Multiple(q), Remainder(FeedBits(c, bits)))
  {
    if |bits| == 0 {
      q := [];
    } else {
      var before, b := bits[..|bits| - 1], bits[|bits| - 1];
      var q0 := FeedDivides(c, before);
      var f := FeedBits(c, before);
      var d := Xor(f, LowBit(b));
      q := q0 + [Odd(d)];
      assert q[..|q| - 1] == q0;
      hide Remainder, Add, TimesX, Xor, Shift, Odd;
      DivideOne(f, b);
      TimesXAdd(Multiple(q0), Remainder(f));
      AddFour(TimesX(Multiple(q0)), TimesX(Remainder(f)), If(b, {32}), If(Odd(d), GENERATOR), Remainder(Shift(d)));
    }
  }

  predicate SomeTrue(q: seq<bool>) { exists i :: 0 <= i < |q| && q[i] }

  /** A multiple of the generator by anything but 0 has degree at least 32. */
  lemma {:induction false} MultiplesAreHigh(q: seq<bool>) returns (e: nat)
    requires SomeTrue(q)
    ensures e >= 32 && e in Multiple(q)
  {
    var before, last := q[..|q| - 1], q[|q| - 1];
    if SomeTrue(before) {
      var e0 := MultiplesAreHigh(before);
      e := e0 + 1;
      assert e !in GENERATOR && e in TimesX(Multiple(before));
    } else {
      NoMultiple(before);
      assert last;
      e := 32;
      assert e in GENERATOR && TimesX(Multiple(before)) == {};
    }
  }

  lemma {:induction false} NoMultiple(q: seq<bool>)
    requires !SomeTrue(q)
    ensures Multiple(q) == {}
  {
    if |q| != 0 {
      NoMultiple(q[..|q| - 1]);
      assert !q[|q| - 1];
    }
  }

  function Differences(p: seq<bool>, q: seq<bool>): seq<bool>
    requires |p| == |q|
  {
    seq(|p|, i requires 0 <= i < |p| => p[i] != q[i])
  }

  lemma {:induction false} MultiplesAdd(p: seq<bool>, q: seq<bool>)
    requires |p| == |q|
    ensures Multiple(Differences(p, q)) == Add(Multiple(p), Multiple(q))
  {
    if |p| != 0 {
      var n := |p| - 1;
      assert Differences(p, q)[..n] == Differences(p[..n], q[..n]);
      MultiplesAdd(p[..n], q[..n]);
      TimesXAdd(Multiple(p[..n]), Multiple(q[..n]));
    }
  }

  /** Two remainders of degree below 32 for the same dividend are equal. */
  lemma RemainderIsUnique(p: seq<bool>, q: seq<bool>, r: Polynomial, s: Polynomial)
    requires |p| == |q| && Add(Multiple(p), r) == Add(Multiple(q), s)
    requires forall e :: e in r || e in s ==> e < 32
    ensures r == s
  {
    MultiplesAdd(p, q);
    var d := Differences(p, q);
    assert Multiple(d) == Add(r, s) by {
      AddSolve(Multiple(p), r, Multiple(q), s);
    }
    if SomeTrue(d) {
      var e := MultiplesAreHigh(d);
      assert false;
    } else {
      NoMultiple(d);
      forall e: nat ensures e in r <==> e in s { assert e !in Add(r, s); }
    }
  }

  lemma AddSolve(m: Polynomial, r: Polynomial, n: Polynomial, s: Polynomial)
    requires Add(m, r) == Add(n, s)
    ensures Add(m, n) == Add(r, s)
  {
    forall e: nat ensures e in Add(m, n) <==> e in Add(r, s) {
      assert e in Add(m, r) <==> e in Add(n, s);
    }
  }

  /**
   The table-driven register after a byte string is the one polynomial of degree below 32 that
   differs from the dividend by a multiple of the generator.
   */
  lemma ChecksumIsRemainder(bytes: seq<byte>) returns (q: seq<bool>)
    ensures var bits := MessageBits(bytes);
      && |q| == |bits|
      && Dividend(ONES, bits) == Add(Multiple(q), Remainder(Xor(Checksum(bytes), ONES)))
      && forall p: seq<bool>, r: Polynomial | |p| == |bits| && (forall e :: e in r ==> e < 32) ::
           Dividend(ONES, bits) == Add(Multiple(p), r) ==> r == Remainder(Xor(Checksum(bytes), ONES))
  {
    var bits := MessageBits(bytes);
    FeedIsBitSerial(ONES, bytes);
    assert Xor(Checksum(bytes), ONES) == Feed(ONES, bytes) by {
      XorTwice(ONES, Feed(ONES, bytes));
      XorCommutes(ONES, Feed(ONES, bytes));
      XorCommutes(Checksum(bytes), ONES);
    }
    q := FeedDivides(ONES, bits);
    var rest := Remainder(FeedBits(ONES, bits));
    assert forall e :: e in rest ==> e < 32;
    forall p: seq<bool>, r: Polynomial | |p| == |bits| && (forall e :: e in r ==> e < 32)
      ensures Dividend(ONES, bits) == Add(Multiple(p), r) ==> r == rest
    {
      if Dividend(ONES, bits) == Add(Multiple(p), r) { RemainderIsUnique(p, q, r, rest); }
    }
  }
}
