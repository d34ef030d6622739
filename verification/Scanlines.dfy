/**
 The raster and the file as a PNG decoder takes them apart: scanline by scanline and pixel by pixel from the left
 (section 2.3 of RFC 2083), and byte by byte from the signature to the end chunk.
 */
module Scanlines {
  import opened Common
  import opened Crc32
  import opened Bytes
  import opened Raster
  import opened PngChunks
  import opened DesktopIcon

  // ------------------------------------------------------------------ the raster

  /** Cuts a buffer into pieces of `n` bytes; what is left over is dropped. */
  ghost function Pieces(s: seq<byte>, n: nat): seq<seq<byte>>
    requires n > 0
    decreases |s|
  {
    if |s| < n then [] else [s[..n]] + Pieces(s[n..], n)
  }

  lemma {:induction false} PieceAt(s: seq<byte>, n: nat, k: nat)
    requires n > 0 && k * n + n <= |s|
    ensures k < |Pieces(s, n)| && Pieces(s, n)[k] == s[k * n..k * n + n]
    decreases k
  {
    if k > 0 {
      OneLess(k, n);
      PieceAt(s[n..], n, k - 1);
      assert s[n..][(k - 1) * n..(k - 1) * n + n] == s[k * n..k * n + n];
    } else {
      assert 0 * n == 0;
    }
  }

  lemma OneLess(k: nat, n: nat)
    requires k > 0
    ensures k * n == (k - 1) * n + n
  {
  }

  /** The pixels of a scanline after its filter byte: red, green, blue and alpha, from the left. */
  ghost function LinePixels(line: seq<byte>): seq<seq<byte>>
    requires |line| > 0
  {
    Pieces(line[1..], 4)
  }

  lemma LineAt(s: seq<byte>, size: nat, y: nat)
    requires IsRaster(s, size) && y < size
    ensures RowStart(size, y) + 4 * size + 1 <= |s| && y < |Pieces(s, 4 * size + 1)|
    ensures Pieces(s, 4 * size + 1)[y] == s[RowStart(size, y)..RowStart(size, y) + 4 * size + 1]
  {
    RowsApart(size, y, size);
    assert Stride(size) == 4 * size + 1;
    hide Stride, Pieces;
    PieceAt(s, Stride(size), y);
  }

  lemma PixelInLine(s: seq<byte>, at: nat, size: nat, x: nat)
    requires at + 4 * size + 1 <= |s| && x < size
    ensures var pixels, o := LinePixels(s[at..at + 4 * size + 1]), at + 1 + 4 * x;
      x < |pixels| && pixels[x] == [s[o], s[o + 1], s[o + 2], s[o + 3]]
  {
    var line := s[at..at + 4 * size + 1];
    PieceAt(line[1..], 4, x);
    hide Pieces;
    var o := at + 1 + 4 * x;
    assert line[1..][x * 4..x * 4 + 4] == s[o..o + 4] == [s[o], s[o + 1], s[o + 2], s[o + 3]];
  }

  /** A decoder that walks the scanlines from the top finds every pixel where the drawing calls put it, and every filter
      byte in front of its line. */
  lemma DecoderFindsPixels(s: seq<byte>, size: nat, x: nat, y: nat)
    requires IsRaster(s, size) && x < size && y < size
    ensures var lines := Pieces(s, 4 * size + 1);
      && y < |lines| && |lines[y]| == 4 * size + 1 && lines[y][0] == FilterByte(s, size, y)
      && x < |LinePixels(lines[y])|
      && var c := PixelAt(s, size, x, y);
         LinePixels(lines[y])[x] == [c.r, c.g, c.b, c.a]
  {
    LineAt(s, size, y);
    PixelInLine(s, RowStart(size, y), size, x);
    PixelInside(size, x, y);
    assert Offset(size, x, y) == RowStart(size, y) + 1 + 4 * x;
    hide Offset, RowStart, Pieces, LinePixels, Stride;
  }

  /** A rectangle is its pixels: one of side 1 is one pixel, and wider or higher ones are tiled by smaller ones. */
  lemma RectanglesTile(x: int, y: int, width: nat, height: nat, more: nat, px: int, py: int)
    ensures Rect(x, y, 1, 1)(px, py) <==> px == x && py == y
    ensures Rect(x, y, 0, height)(px, py) == Rect(x, y, width, 0)(px, py) == false
    ensures Rect(x, y, width + more, height)(px, py) ==
      (Rect(x, y, width, height)(px, py) != Rect(x + width, y, more, height)(px, py))
    ensures Rect(x, y, width, height + more)(px, py) ==
      (Rect(x, y, width, height)(px, py) != Rect(x, y + height, width, more)(px, py))
  {
  }

  // ------------------------------------------------------------------ the file

  lemma SizeBytes(size: nat)
    requires size < LIMIT
    ensures var d := HeaderData(size);
      && |d| == 13 && BigWeight(d[..4]) == BigWeight(d[4..8]) == size && d[8..] == [8, 6, 0, 0, 0]
  {
    BigEndianWeighs(size);
    hide BigEndian, BigWeight;
    var a, rest: seq<byte> := BigEndian(size), [8, 6, 0, 0, 0];
    var d := a + a + rest;
    assert d[..4] == a && d[4..8] == a && d[8..] == rest;
  }

  /** The icon's file: the signature; the header chunk, whose data give width and height, 8 bits per sample, color with
      alpha and the default methods; the image data; and the end chunk. `ChunkLayout` says where the bytes of each
      chunk stand. */
  lemma FileLayout(size: nat, packed: seq<byte>)
    requires size < LIMIT && |packed| < LIMIT
    ensures PngFile([Chunk(IHDR, HeaderData(size)), Chunk(IDAT, packed), Chunk(IEND, [])]) ==
      [137, 80, 78, 71, 13, 10, 26, 10] + ChunkBytes(Chunk([73, 72, 68, 82], HeaderData(size))) +
        ChunkBytes(Chunk([73, 68, 65, 84], packed)) + [0, 0, 0, 0, 73, 69, 78, 68, 174, 66, 96, 130]
    ensures var d := HeaderData(size);
      && |d| == 13 && BigWeight(d[..4]) == BigWeight(d[4..8]) == size && d[8..] == [8, 6, 0, 0, 0]
  {
    SizeBytes(size);
    IendBytes();
    hide ChunkBytes, PngFile, HeaderData, BigWeight;
    ThreeChunks(Chunk(IHDR, HeaderData(size)), Chunk(IDAT, packed), Chunk(IEND, []));
  }
}
