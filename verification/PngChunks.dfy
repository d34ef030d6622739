/**
 PNG chunk framing (section 3.2 of RFC 2083) and the ICO wrapper: a reader inverts the writer, in
 both directions, and the checksum in every chunk catches damage confined to four consecutive bytes.
 */
module PngChunks {
  import opened Common
  import opened Crc32
  import opened Bytes

  const SIGNATURE: seq<byte> := [0x89, 0x50, 0x4e, 0x47, 0x0d, 0x0a, 0x1a, 0x0a]

  type Kind = k: seq<byte> | |k| == 4 witness [0, 0, 0, 0]

  datatype Chunk = Chunk(kind: Kind, data: seq<byte>)

  // ------------------------------------------------------------------ table

  /** The module-level table, built on first use. */
  class CrcTable {
    var table: array?<bv32>

    ghost predicate Valid()
      reads this, table
    {
      table != null ==> table.Length == 256 && forall n :: 0 <= n < 256 ==> table[n] == Entry(Digit(n))
    }

    constructor ()
      ensures Valid() && table == null
    {
      table := null;
    }

    method Make()
      requires Valid()
      modifies this
      ensures Valid() && table != null && fresh(table)
    {
      var t := new bv32[256];
      for n := 0 to 256
        invariant forall m :: 0 <= m < n ==> t[m] == Entry(Digit(m))
      {
        var c := Digit(n) as bv32;
        for k := 0 to 8
          invariant c == Shifts(Digit(n) as bv32, k)
        {
          c := if Odd(c) then Xor(POLYNOMIAL, Half(c)) else Half(c);
        }
        t[n] := c;
      }
      table := t;
    }

    /** The table-driven loop; its result is `Checksum`, whose meaning is proved in CrcDivision. */
    method Compute(buffer: seq<byte>) returns (r: bv32)
      requires Valid()
      modifies this
      ensures Valid() && r == Checksum(buffer)
    {
      if table == null { Make(); }
      var crc := ONES;
      for i := 0 to |buffer|
        invariant table == old(table) || fresh(table)
        invariant table != null && Valid()
        invariant crc == Feed(ONES, buffer[..i])
      {
        var b := buffer[i];
        assert buffer[..i + 1] == buffer[..i] + [b];
        FeedSnoc(ONES, buffer[..i], b);
        crc := Lookup(crc, b);
      }
      assert buffer[..|buffer|] == buffer;
      r := Xor(crc, 0xffffffff);
    }

    method Lookup(crc: bv32, b: byte) returns (r: bv32)
      requires Valid() && table != null
      ensures r == Update(crc, b)
    {
      var low := (Xor(crc, b as bv32) & 0xff) as byte;
      DigitOfValue(low);
      r := Xor(table[Value(low)], crc >> 8);
    }
  }

  lemma FeedSnoc(c: bv32, s: seq<byte>, b: byte)
    ensures Feed(c, s + [b]) == Update(Feed(c, s), b)
  {
    hide Update;
    assert (s + [b])[..|s|] == s;
  }

  // ------------------------------------------------------------------ chunks

  function ChunkBytes(c: Chunk): seq<byte>
    requires |c.data| < LIMIT
  {
    BigEndian(|c.data|) + c.kind + c.data + WordBytes(Checksum(c.kind + c.data))
  }

  function Stream(cs: seq<Chunk>): seq<byte>
    requires forall i :: 0 <= i < |cs| ==> |cs[i].data| < LIMIT
  {
    if |cs| == 0 then [] else ChunkBytes(cs[0]) + Stream(cs[1..])
  }

  /** Reads one chunk: length, type, data, checked CRC. */
  function ReadChunk(s: seq<byte>): (r: Option<(Chunk, seq<byte>)>)
    ensures r.Some? ==> |r.value.1| < |s|
  {
    if |s| < 12 then None else
    var n := FromBigEndian(s[..4]);
    if |s| < 12 + n then None else
    var kind, data := s[4..8], s[8..8 + n];
    if s[8 + n..12 + n] != WordBytes(Checksum(kind + data)) then None
    else Some((Chunk(kind, data), s[12 + n..]))
  }

  function ReadStream(s: seq<byte>): Option<seq<Chunk>>
    decreases |s|
  {
    if |s| == 0 then Some([]) else
    match ReadChunk(s)
    case None => None
    case Some((c, rest)) =>
      match ReadStream(rest)
      case None => None
      case Some(cs) => Some([c] + cs)
  }

  function ReadPng(s: seq<byte>): Option<seq<Chunk>> {
    if |s| < 8 || s[..8] != SIGNATURE then None else ReadStream(s[8..])
  }

  /** The four fields of a chunk, found again by their positions. */
  lemma Fields<T>(a: seq<T>, b: seq<T>, c: seq<T>, d: seq<T>, rest: seq<T>)
    requires |a| == |b| == |d| == 4
    ensures var s, n := a + b + c + d + rest, |c|;
      && |s| == 12 + n + |rest| && s[..4] == a && s[4..8] == b && s[8..8 + n] == c
      && s[8 + n..12 + n] == d && s[12 + n..] == rest
  {
  }

  lemma FieldsOf<T>(s: seq<T>, n: nat)
    requires |s| >= 12 + n
    ensures s == s[..4] + s[4..8] + s[8..8 + n] + s[8 + n..12 + n] + s[12 + n..]
  {
  }

  /** What the reader makes of framed bytes whose length field is right. */
  lemma ReadFramed(length: seq<byte>, kind: Kind, data: seq<byte>, crc: seq<byte>, rest: seq<byte>)
    requires |length| == |crc| == 4 && FromBigEndian(length) == |data|
    ensures ReadChunk(length + kind + data + crc + rest) ==
      if crc == WordBytes(Checksum(kind + data)) then Some((Chunk(kind, data), rest)) else None
  {
    hide FromBigEndian, WordBytes, Checksum;
    Fields(length, kind, data, crc, rest);
  }

  lemma ReadWritten(c: Chunk, rest: seq<byte>)
    requires |c.data| < LIMIT
    ensures ReadChunk(ChunkBytes(c) + rest) == Some((c, rest))
  {
    BigEndianRoundTrip(|c.data|);
    hide BigEndian, FromBigEndian, WordBytes, Checksum, ReadChunk;
    ReadFramed(BigEndian(|c.data|), c.kind, c.data, WordBytes(Checksum(c.kind + c.data)), rest);
  }

  lemma ReadIsWritten(s: seq<byte>)
    requires ReadChunk(s).Some?
    ensures var (c, rest) := ReadChunk(s).value; |c.data| < LIMIT && s == ChunkBytes(c) + rest
  {
    var n := FromBigEndian(s[..4]);
    BigEndianIsOnto(s[..4]);
    hide BigEndian, FromBigEndian, WordBytes, Checksum;
    FieldsOf(s, n);
  }

  lemma LongChunk(c: Chunk)
    requires |c.data| < LIMIT
    ensures |ChunkBytes(c)| == 12 + |c.data|
  {
  }

  /** The reader inverts the writer, for every list of chunks. */
  lemma {:induction false} StreamRoundTrip(cs: seq<Chunk>)
    requires forall i :: 0 <= i < |cs| ==> |cs[i].data| < LIMIT
    ensures ReadStream(Stream(cs)) == Some(cs)
  {
    hide ReadChunk, ChunkBytes;
    if |cs| != 0 {
      assert |ChunkBytes(cs[0]) + Stream(cs[1..])| > 0 by { LongChunk(cs[0]); }
      ReadWritten(cs[0], Stream(cs[1..]));
      StreamRoundTrip(cs[1..]);
      assert cs == [cs[0]] + cs[1..];
    }
  }

  /** Whatever the reader accepts is exactly what the writer writes for the chunks it returns. */
  lemma {:induction false} AcceptedIsWritten(s: seq<byte>)
    requires ReadStream(s).Some?
    ensures var cs := ReadStream(s).value;
      (forall i :: 0 <= i < |cs| ==> |cs[i].data| < LIMIT) && s == Stream(cs)
    decreases |s|
  {
    if |s| != 0 {
      var (c, rest) := ReadChunk(s).value;
      ReadIsWritten(s);
      hide ReadChunk, ChunkBytes;
      AcceptedIsWritten(rest);
      var cs := ReadStream(rest).value;
      assert ([c] + cs)[1..] == cs;
    }
  }

  function PngFile(cs: seq<Chunk>): seq<byte>
    requires forall i :: 0 <= i < |cs| ==> |cs[i].data| < LIMIT
  {
    SIGNATURE + Stream(cs)
  }

  /** A byte string reads as the chunks `cs` exactly when it is the file written for them. */
  lemma PngRoundTrip(s: seq<byte>, cs: seq<Chunk>)
    requires forall i :: 0 <= i < |cs| ==> |cs[i].data| < LIMIT
    ensures ReadPng(s) == Some(cs) <==> s == PngFile(cs)
  {
    if s == PngFile(cs) {
      StreamRoundTrip(cs);
      assert s[..8] == SIGNATURE && s[8..] == Stream(cs);
    }
    if ReadPng(s) == Some(cs) {
      AcceptedIsWritten(s[8..]);
      assert s == s[..8] + s[8..];
    }
  }

  /** A framed chunk is accepted exactly with its own checksum: whatever else the four bytes of the CRC field were
      turned into, it is rejected. */
  lemma OnlyTheChecksumIsAccepted(c: Chunk, crc: seq<byte>, rest: seq<byte>)
    requires |c.data| < LIMIT && |crc| == 4
    ensures ReadChunk(BigEndian(|c.data|) + c.kind + c.data + crc + rest) ==
      if crc == WordBytes(Checksum(c.kind + c.data)) then Some((c, rest)) else None
  {
    BigEndianRoundTrip(|c.data|);
    hide BigEndian, FromBigEndian, WordBytes, Checksum, ReadChunk;
    ReadFramed(BigEndian(|c.data|), c.kind, c.data, crc, rest);
  }

  /** A chunk whose type and data are damaged within four consecutive bytes is never accepted. */
  lemma DamageIsRejected(c: Chunk, d: Chunk, rest: seq<byte>, before: seq<byte>, u: seq<byte>, v: seq<byte>,
                         after: seq<byte>)
    requires |c.data| == |d.data| < LIMIT && |u| == |v| <= 4 && u != v
    requires c.kind + c.data == before + u + after && d.kind + d.data == before + v + after
    ensures ReadChunk(BigEndian(|d.data|) + d.kind + d.data + WordBytes(Checksum(c.kind + c.data)) + rest) == None
  {
    var crc := WordBytes(Checksum(c.kind + c.data));
    BurstIsDetected(before, u, v, after);
    BigEndianRoundTrip(|d.data|);
    hide BigEndian, FromBigEndian, Checksum, WordBytes, ReadChunk;
    ReadFramed(BigEndian(|d.data|), d.kind, d.data, crc, rest);
    if crc == WordBytes(Checksum(d.kind + d.data)) {
      WordBytesInjective(Checksum(c.kind + c.data), Checksum(d.kind + d.data));
      assert false;
    }
  }

  /** Where everything stands in a written chunk: the first four bytes weigh the length, then come type and data, and
      the last four bytes weigh the checksum of what stands between. */
  lemma ChunkLayout(c: Chunk)
    requires |c.data| < LIMIT
    ensures var s, n := ChunkBytes(c), |c.data|;
      && |s| == 12 + n && BigWeight(s[..4]) == n && s[4..8] == c.kind && s[8..8 + n] == c.data
      && WordWeight(s[8 + n..12 + n]) == Checksum(s[4..8 + n])
  {
    BigEndianWeighs(|c.data|);
    WordBytesWeigh(Checksum(c.kind + c.data));
    hide BigEndian, WordBytes, Checksum, BigWeight, WordWeight;
    Frame(BigEndian(|c.data|), c.kind, c.data, WordBytes(Checksum(c.kind + c.data)));
  }

  lemma Frame<T>(a: seq<T>, b: seq<T>, c: seq<T>, d: seq<T>)
    requires |a| == |b| == |d| == 4
    ensures var s, n := a + b + c + d, |c|;
      && |s| == 12 + n && s[..4] == a && s[4..8] == b && s[8..8 + n] == c && s[4..8 + n] == b + c
      && s[8 + n..12 + n] == d
  {
  }

  lemma TwoShifts(c: bv32, n: nat)
    ensures Shifts(c, n + 2) == Shift(Shift(Shifts(c, n)))
  {
  }

  lemma EntryIs(n: byte)
    ensures Entry(n) == Shift(Shift(Shift(Shift(Shift(Shift(Shift(Shift(n as bv32))))))))
  {
    hide Shift;
    TwoShifts(n as bv32, 0);
    TwoShifts(n as bv32, 2);
    TwoShifts(n as bv32, 4);
    TwoShifts(n as bv32, 6);
  }

  lemma IendEntries()
    ensures Entry(0xb6) == 0x220216b9 && Entry(0x03) == 0x990951ba
    ensures Entry(0x1d) == 0x63066cd9 && Entry(0x31) == 0x51de003a
  {
    EntryIs(0xb6);
    EntryIs(0x03);
    EntryIs(0x1d);
    EntryIs(0x31);
  }

  lemma IendChecksum()
    ensures Checksum([0x49, 0x45, 0x4e, 0x44]) == 0xae426082
  {
    IendEntries();
    hide Entry;
    var s: seq<byte> := [0x49, 0x45, 0x4e, 0x44];
    assert s[..0] + [s[0]] == s[..1] && s[..1] + [s[1]] == s[..2];
    assert s[..2] + [s[2]] == s[..3] && s[..3] + [s[3]] == s;
    FeedSnoc(ONES, s[..0], s[0]);
    FeedSnoc(ONES, s[..1], s[1]);
    FeedSnoc(ONES, s[..2], s[2]);
    FeedSnoc(ONES, s[..3], s[3]);
    assert Feed(ONES, s[..0]) == ONES;
    hide Feed;
  }

  /** The last chunk of every PNG, byte by byte. */
  lemma IendBytes()
    ensures ChunkBytes(Chunk([0x49, 0x45, 0x4e, 0x44], [])) ==
      [0, 0, 0, 0, 0x49, 0x45, 0x4e, 0x44, 0xae, 0x42, 0x60, 0x82]
  {
    IendChecksum();
    hide Checksum;
    ZeroBytes();
    hide BigEndian;
    var kind: seq<byte> := [0x49, 0x45, 0x4e, 0x44];
    assert kind + [] == kind;
    IendChecksumBytes();
    hide WordBytes;
  }

  lemma IendChecksumBytes()
    ensures WordBytes(0xae426082) == [0xae, 0x42, 0x60, 0x82]
  {
  }

  lemma ZeroBytes()
    ensures BigEndian(0) == [0, 0, 0, 0]
  {
    DigitIsTheNumber(0);
    ByteOfZero(Digit(0));
    hide Digit;
  }

  lemma ByteOfZero(b: byte)
    requires b as nat == 0
    ensures b == 0
  {
  }

  /** pngChunk: the bytes of one chunk, or nothing when the length does not fit four bytes. */
  method PngChunk(table: CrcTable, kind: Kind, data: seq<byte>) returns (r: Option<seq<byte>>)
    requires table.Valid()
    modifies table
    ensures table.Valid()
    ensures r == if |data| < LIMIT then Some(ChunkBytes(Chunk(kind, data))) else None
  {
    if |data| >= LIMIT { return None; }
    var length := BigEndian(|data|);
    var sum := table.Compute(kind + data);
    r := Some(length + kind + data + WordBytes(sum));
  }

  // ------------------------------------------------------------------ ICO

  /** The width or height byte of an icon entry: 0 stands for 256 and more. */
  function SizeByte(size: nat): byte { if size >= 256 then 0 else Digit(size) }

  function IcoMagic(): seq<byte> { [0, 0, 1, 0, 1, 0] }

  function IcoStart(size: nat): seq<byte> {
    [0, 0, 1, 0, 1, 0, SizeByte(size), SizeByte(size), 0, 0, 1, 0, 32, 0]
  }

  /** The header and the one directory entry of createIcoFromPng. */
  function IcoHeader(length: nat, size: nat): seq<byte>
    requires length < LIMIT
  {
    IcoStart(size) + LittleEndian(length) + LittleEndian(22)
  }

  /** Reads the images an ICO file lists, by the offset and length of its one entry. */
  function ReadIco(s: seq<byte>): Option<seq<byte>> {
    if |s| < 22 || s[..6] != IcoMagic() then None else
    var length, offset := FromLittleEndian(s[14..18]), FromLittleEndian(s[18..22]);
    if offset + length > |s| then None else Some(s[offset..offset + length])
  }

  /** createIcoFromPng, or nothing when the length does not fit four bytes. */
  method CreateIcoFromPng(png: seq<byte>, size: nat) returns (r: Option<seq<byte>>)
    ensures |png| < LIMIT ==> r == Some(IcoHeader(|png|, size) + png)
    ensures |png| >= LIMIT ==> r == None
    ensures r.Some? ==> ReadIco(r.value) == Some(png)
  {
    if |png| >= LIMIT { return None; }
    r := Some(IcoHeader(|png|, size) + png);
    IcoRoundTrip(png, size);
  }

  /** The entry of the icon file points at the whole PNG. */
  lemma IcoRoundTrip(png: seq<byte>, size: nat)
    requires |png| < LIMIT
    ensures ReadIco(IcoHeader(|png|, size) + png) == Some(png)
  {
    LittleEndianRoundTrip(|png|);
    LittleEndianRoundTrip(22);
    IcoStartIs(size);
    hide IcoMagic, IcoStart, LittleEndian, FromLittleEndian;
    IcoFields(IcoStart(size), LittleEndian(|png|), LittleEndian(22), png);
  }

  lemma IcoStartIs(size: nat)
    ensures |IcoStart(size)| == 14 && IcoStart(size)[..6] == IcoMagic()
  {
  }

  lemma IcoFields<T>(a: seq<T>, b: seq<T>, c: seq<T>, rest: seq<T>)
    requires |a| == 14 && |b| == |c| == 4
    ensures var s := a + b + c + rest;
      && |s| == 22 + |rest| && s[..6] == a[..6] && s[14..18] == b && s[18..22] == c && s[22..22 + |rest|] == rest
  {
  }

  /** Where everything stands in an icon file: the type and count words, the square size with 0 for 256 and more, one
      plane of 32 bits, the weights of the image's length and offset, and the image. */
  lemma IcoLayout(png: seq<byte>, size: nat)
    requires |png| < LIMIT
    ensures var s := IcoHeader(|png|, size) + png;
      && |s| == 22 + |png| && s[22..] == png
      && s[..6] == [0, 0, 1, 0, 1, 0] && s[8..14] == [0, 0, 1, 0, 32, 0]
      && s[6] as nat == s[7] as nat == (if size >= 256 then 0 else size)
      && LittleWeight(s[14..18]) == |png| && LittleWeight(s[18..22]) == 22
  {
    LittleEndianWeighs(|png|);
    LittleEndianWeighs(22);
    IcoStartFields(size);
    hide LittleEndian, LittleWeight, IcoStart;
    var a := IcoStart(size);
    IcoFields(a, LittleEndian(|png|), LittleEndian(22), png);
    var s := IcoHeader(|png|, size) + png;
    assert s[6] == a[6] && s[7] == a[7] && s[8..14] == a[8..14];
  }

  lemma IcoStartFields(size: nat)
    ensures var a := IcoStart(size);
      && |a| == 14 && a[..6] == [0, 0, 1, 0, 1, 0] && a[8..14] == [0, 0, 1, 0, 32, 0]
      && a[6] as nat == a[7] as nat == (if size >= 256 then 0 else size)
  {
    if size < 256 { DigitIsTheNumber(size); }
    hide Digit;
  }
}
