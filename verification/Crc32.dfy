/**
 The CRC-32 of PNG chunks. Three definitions are related: the table-driven loop of the program, the
 same register driven one message bit at a time (the circuit of section 3.4 of RFC 2083), and long
 division of the message polynomial by the generator over GF(2).
 */
module Crc32 {

  type byte = bv8

  const POLYNOMIAL: bv32 := 0xedb88320
  const ONES: bv32 := 0xffffffff

  // ------------------------------------------------------------------ register

  function Xor(c: bv32, d: bv32): bv32 { c ^ d }

  function Half(c: bv32): bv32 { c >> 1 }

  predicate Odd(c: bv32) { c & 1 == 1 }

  /** One shift of the reflected register. */
  function Shift(c: bv32): bv32 {
    if Odd(c) then Xor(POLYNOMIAL, Half(c)) else Half(c)
  }

  /** `n` shifts. */
  function Shifts(c: bv32, n: nat): bv32 {
    if n == 0 then c else Shift(Shifts(c, n - 1))
  }

  function Entry(n: byte): bv32 { Shifts(n as bv32, 8) }

  /** One byte through the table. */
  function Update(c: bv32, b: byte): bv32 {
    Xor(Entry((Xor(c, b as bv32) & 0xff) as byte), c >> 8)
  }

  /** The register after a byte string, from the start value `c`. */
  function Feed(c: bv32, bytes: seq<byte>): bv32 {
    if |bytes| == 0 then c else Update(Feed(c, bytes[..|bytes| - 1]), bytes[|bytes| - 1])
  }

  function Checksum(bytes: seq<byte>): bv32 { Xor(Feed(ONES, bytes), ONES) }

  // ------------------------------------------------------------------ facts about one shift

  lemma ShiftIsInjective(c: bv32, d: bv32)
    requires Shift(c) == Shift(d)
    ensures c == d
  {
  }

  lemma HalfOfXor(c: bv32, d: bv32)
    ensures Half(Xor(c, d)) == Xor(Half(c), Half(d))
  {
  }

  lemma OddXor(c: bv32, d: bv32)
    ensures Odd(Xor(c, d)) <==> Odd(c) != Odd(d)
  {
  }

  lemma XorCommutes(a: bv32, b: bv32)
    ensures Xor(a, b) == Xor(b, a)
  {
  }

  lemma XorAssociates(a: bv32, b: bv32, c: bv32)
    ensures Xor(Xor(a, b), c) == Xor(a, Xor(b, c))
  {
  }

  lemma XorTwice(a: bv32, b: bv32)
    ensures Xor(a, Xor(a, b)) == b
  {
  }

  lemma XorLaws(a: bv32, b: bv32, c: bv32)
    ensures Xor(Xor(a, b), c) == Xor(a, Xor(b, c))
    ensures Xor(Xor(a, b), Xor(a, c)) == Xor(b, c)
    ensures Xor(b, Xor(a, c)) == Xor(a, Xor(b, c))
  {
    hide Xor;
    XorAssociates(a, b, c);
    XorAssociates(b, a, c);
    XorCommutes(a, b);
    XorAssociates(b, a, Xor(a, c));
    XorTwice(a, c);
  }

  lemma ShiftIsLinear(c: bv32, d: bv32)
    ensures Shift(Xor(c, d)) == Xor(Shift(c), Shift(d))
  {
    hide Xor, Half, Odd;
    HalfOfXor(c, d);
    OddXor(c, d);
    XorLaws(POLYNOMIAL, Half(c), Half(d));
  }

  lemma {:induction false} ShiftsAreInjective(c: bv32, d: bv32, n: nat)
    requires Shifts(c, n) == Shifts(d, n)
    ensures c == d
  {
    hide Shift;
    if n != 0 {
      ShiftIsInjective(Shifts(c, n - 1), Shifts(d, n - 1));
      ShiftsAreInjective(c, d, n - 1);
    }
  }

  lemma {:induction false} ShiftsAreLinear(c: bv32, d: bv32, n: nat)
    ensures Shifts(Xor(c, d), n) == Xor(Shifts(c, n), Shifts(d, n))
  {
    hide Shift, Xor;
    if n != 0 {
      ShiftsAreLinear(c, d, n - 1);
      ShiftIsLinear(Shifts(c, n - 1), Shifts(d, n - 1));
    }
  }

  lemma {:induction false} ShiftsAdd(c: bv32, m: nat, n: nat)
    ensures Shifts(c, m + n) == Shifts(Shifts(c, m), n)
  {
    if n != 0 { ShiftsAdd(c, m, n - 1); }
  }

  lemma EightShifts(c: bv32)
    ensures Shifts(c, 8) == Shift(Shift(Shift(Shift(Shift(Shift(Shift(Shift(c))))))))
  {
    hide Shift;
    assert Shifts(c, 1) == Shift(Shifts(c, 0));
    assert Shifts(c, 2) == Shift(Shifts(c, 1));
    assert Shifts(c, 3) == Shift(Shifts(c, 2));
    assert Shifts(c, 4) == Shift(Shifts(c, 3));
    assert Shifts(c, 5) == Shift(Shifts(c, 4));
    assert Shifts(c, 6) == Shift(Shifts(c, 5));
    assert Shifts(c, 7) == Shift(Shifts(c, 6));
  }

  /** Eight shifts of a register whose low byte is zero only move it down. */
  lemma EightShiftsOfHighBits(c: bv32)
    requires c & 0xff == 0
    ensures Shifts(c, 8) == c >> 8
  {
    EightShifts(c);
  }

  lemma LowAndHigh(c: bv32)
    ensures Xor(c & 0xff, c & 0xffffff00) == c
    ensures (c & 0xffffff00) & 0xff == 0 && (c & 0xffffff00) >> 8 == c >> 8
    ensures ((c & 0xff) as byte) as bv32 == c & 0xff
  {
  }

  lemma ByteIsLow(c: bv32, b: byte)
    ensures Xor(c, b as bv32) >> 8 == c >> 8
  {
  }

  /** The table step is eight shifts of the register with the byte added in. */
  lemma UpdateIsEightShifts(c: bv32, b: byte)
    ensures Update(c, b) == Shifts(Xor(c, b as bv32), 8)
  {
    hide Shifts, Xor;
    var x := Xor(c, b as bv32);
    LowAndHigh(x);
    ShiftsAreLinear(x & 0xff, x & 0xffffff00, 8);
    EightShiftsOfHighBits(x & 0xffffff00);
    ByteIsLow(c, b);
  }

  // ------------------------------------------------------------------ what the checksum detects

  lemma XorCancels(x: bv32, c: bv32, d: bv32)
    requires Xor(c, x) == Xor(d, x)
    ensures c == d
  {
  }

  lemma {:induction false} FeedConcat(c: bv32, a: seq<byte>, b: seq<byte>)
    ensures Feed(c, a + b) == Feed(Feed(c, a), b)
  {
    hide Update;
    if |b| == 0 {
      assert a + b == a;
    } else {
      assert (a + b)[..|a + b| - 1] == a + b[..|b| - 1];
      FeedConcat(c, a, b[..|b| - 1]);
    }
  }

  /** Equal input keeps different registers different. */
  lemma {:induction false} FeedIsInjective(c: bv32, d: bv32, s: seq<byte>)
    requires Feed(c, s) == Feed(d, s)
    ensures c == d
  {
    hide Update, Shifts, Xor;
    if |s| != 0 {
      var before, last := s[..|s| - 1], s[|s| - 1];
      UpdateIsEightShifts(Feed(c, before), last);
      UpdateIsEightShifts(Feed(d, before), last);
      ShiftsAreInjective(Xor(Feed(c, before), last as bv32), Xor(Feed(d, before), last as bv32), 8);
      XorCancels(last as bv32, Feed(c, before), Feed(d, before));
      FeedIsInjective(c, d, before);
    }
  }

  /** Four bytes as the register sees them, first byte lowest. */
  function Word(b0: byte, b1: byte, b2: byte, b3: byte): bv32 {
    Xor(Xor(Xor(b0 as bv32, (b1 as bv32) << 8), (b2 as bv32) << 16), (b3 as bv32) << 24)
  }

  lemma WordIsInjective(a0: byte, a1: byte, a2: byte, a3: byte, b0: byte, b1: byte, b2: byte, b3: byte)
    requires Word(a0, a1, a2, a3) == Word(b0, b1, b2, b3)
    ensures a0 == b0 && a1 == b1 && a2 == b2 && a3 == b3
  {
  }

  lemma XorFour(c: bv32, x0: bv32, x1: bv32, x2: bv32, x3: bv32)
    ensures Xor(Xor(Xor(Xor(c, x0), x1), x2), x3) == Xor(c, Xor(Xor(Xor(x0, x1), x2), x3))
  {
  }

  lemma XorCancelsLeft(c: bv32, x: bv32, y: bv32)
    requires Xor(c, x) == Xor(c, y)
    ensures x == y
  {
  }

  /** A byte waiting `8 * k` places up reaches the low end after `8 * k` shifts. */
  lemma WaitingByte(b: byte)
    ensures Shifts((b as bv32) << 8, 8) == b as bv32
    ensures Shifts((b as bv32) << 16, 16) == b as bv32
    ensures Shifts((b as bv32) << 24, 24) == b as bv32
  {
    hide Shifts;
    var x := b as bv32;
    HighByte(b);
    EightShiftsOfHighBits(x << 8);
    EightShiftsOfHighBits(x << 16);
    EightShiftsOfHighBits(x << 24);
    ShiftsAdd(x << 16, 8, 8);
    ShiftsAdd(x << 24, 8, 16);
  }

  lemma HighByte(b: byte)
    ensures var x := b as bv32;
      && (x << 8) & 0xff == 0 && (x << 8) >> 8 == x
      && (x << 16) & 0xff == 0 && (x << 16) >> 8 == x << 8
      && (x << 24) & 0xff == 0 && (x << 24) >> 8 == x << 16
  {
  }

  /** Adding a byte after `n` shifts is adding it `n` places up before them. */
  lemma AddEarlier(c: bv32, high: bv32, x: bv32, n: nat)
    requires Shifts(high, n) == x
    ensures Shifts(Xor(Shifts(c, n), x), 8) == Shifts(Xor(c, high), n + 8)
  {
    hide Shifts, Xor;
    ShiftsAreLinear(c, high, n);
    ShiftsAdd(Xor(c, high), n, 8);
  }

  lemma FeedFour(c: bv32, b0: byte, b1: byte, b2: byte, b3: byte)
    ensures Feed(c, [b0, b1, b2, b3]) == Shifts(Xor(c, Word(b0, b1, b2, b3)), 32)
  {
    hide Shifts, Xor, Update;
    FeedConcat(c, [b0, b1, b2], [b3]);
    FeedConcat(c, [b0, b1], [b2]);
    FeedConcat(c, [b0], [b1]);
    assert [b0, b1, b2, b3] == [b0, b1, b2] + [b3] && [b0, b1, b2] == [b0, b1] + [b2] && [b0, b1] == [b0] + [b1];
    FeedOne(c, b0);
    var c1 := Xor(c, b0 as bv32);
    FeedOne(Shifts(c1, 8), b1);
    WaitingByte(b1);
    AddEarlier(c1, (b1 as bv32) << 8, b1 as bv32, 8);
    var c2 := Xor(c1, (b1 as bv32) << 8);
    FeedOne(Shifts(c2, 16), b2);
    WaitingByte(b2);
    AddEarlier(c2, (b2 as bv32) << 16, b2 as bv32, 16);
    var c3 := Xor(c2, (b2 as bv32) << 16);
    FeedOne(Shifts(c3, 24), b3);
    WaitingByte(b3);
    AddEarlier(c3, (b3 as bv32) << 24, b3 as bv32, 24);
    XorFour(c, b0 as bv32, (b1 as bv32) << 8, (b2 as bv32) << 16, (b3 as bv32) << 24);
  }

  lemma FeedOne(c: bv32, b: byte)
    ensures Feed(c, [b]) == Shifts(Xor(c, b as bv32), 8)
  {
    hide Shifts, Xor, Update;
    UpdateIsEightShifts(c, b);
    assert [b][..0] == [];
  }

  lemma {:induction false} WindowIsDetermined(c: bv32, u: seq<byte>, v: seq<byte>)
    requires |u| == |v| <= 4 && Feed(c, u) == Feed(c, v)
    ensures u == v
    decreases 4 - |u|
  {
    hide Feed, Update, Shifts, Xor, Word;
    if |u| < 4 {
      FeedConcat(c, u, [0]);
      FeedConcat(c, v, [0]);
      WindowIsDetermined(c, u + [0], v + [0]);
      assert u == (u + [0])[..|u|] && v == (v + [0])[..|v|];
    } else {
      assert u == [u[0], u[1], u[2], u[3]] && v == [v[0], v[1], v[2], v[3]];
      FeedFour(c, u[0], u[1], u[2], u[3]);
      FeedFour(c, v[0], v[1], v[2], v[3]);
      var x, y := Word(u[0], u[1], u[2], u[3]), Word(v[0], v[1], v[2], v[3]);
      ShiftsAreInjective(Xor(c, x), Xor(c, y), 32);
      XorCancelsLeft(c, x, y);
      WordIsInjective(u[0], u[1], u[2], u[3], v[0], v[1], v[2], v[3]);
    }
  }

  /** Any damage confined to four consecutive bytes changes the checksum; one byte is a special case. */
  lemma BurstIsDetected(before: seq<byte>, u: seq<byte>, v: seq<byte>, after: seq<byte>)
    requires |u| == |v| <= 4 && u != v
    ensures Checksum(before + u + after) != Checksum(before + v + after)
  {
    hide Feed, Update;
    FeedConcat(ONES, before + u, after);
    FeedConcat(ONES, before + v, after);
    FeedConcat(ONES, before, u);
    FeedConcat(ONES, before, v);
    if Checksum(before + u + after) == Checksum(before + v + after) {
      XorCancels(ONES, Feed(ONES, before + u + after), Feed(ONES, before + v + after));
      FeedIsInjective(Feed(ONES, before + u), Feed(ONES, before + v), after);
      WindowIsDetermined(Feed(ONES, before), u, v);
    }
  }

  /** Equal-length byte strings that differ in exactly one byte have different checksums. */
  lemma OneByteIsDetected(a: seq<byte>, b: seq<byte>, i: nat)
    requires |a| == |b| && i < |a| && a[i] != b[i]
    requires forall j :: 0 <= j < |a| && j != i ==> a[j] == b[j]
    ensures Checksum(a) != Checksum(b)
  {
    assert a == a[..i] + [a[i]] + a[i + 1..];
    assert b == a[..i] + [b[i]] + a[i + 1..];
    BurstIsDetected(a[..i], [a[i]], [b[i]], a[i + 1..]);
  }
}
