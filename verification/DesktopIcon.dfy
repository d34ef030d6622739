/** createDesktopIconPng: eleven drawing calls on a blank canvas, framed as a PNG file. */
module DesktopIcon {
  import opened Common
  import opened Crc32
  import opened Bytes
  import opened Raster
  import opened PngChunks

  /** One drawing call: the region it covers and its color. */
  datatype Layer = Layer(region: (int, int) -> bool, color: Color)

  /** The eleven calls of the program, in order. */
  function IconLayers(): seq<Layer> {
    [ Layer(Rounded(13, 13, 230, 230, 46), Color(15, 23, 42, 255)),
      Layer(Rounded(25, 25, 206, 206, 36), Color(30, 41, 59, 255)),
      Layer(Rect(46, 70, 24, 102), Color(45, 212, 191, 255)),
      Layer(Rect(84, 54, 24, 118), Color(96, 165, 250, 255)),
      Layer(Rect(122, 84, 24, 88), Color(163, 230, 53, 255)),
      Layer(Rect(160, 62, 24, 110), Color(251, 191, 36, 255)),
      Layer(Rounded(42, 180, 152, 14, 7), Color(148, 163, 184, 255)),
      Layer(Line(75.0, 142.0, 110.0, 176.0, 17.0), Color(8, 13, 28, 180)),
      Layer(Line(108.0, 176.0, 190.0, 84.0, 17.0), Color(8, 13, 28, 180)),
      Layer(Line(75.0, 138.0, 110.0, 172.0, 11.0), Color(248, 250, 252, 255)),
      Layer(Line(108.0, 172.0, 190.0, 80.0, 11.0), Color(248, 250, 252, 255)) ]
  }

  const BLANK := Color(0, 0, 0, 0)

  /** The color of the last layer that covers a pixel; a pixel no layer covers stays transparent. */
  function TopColor(layers: seq<Layer>, x: int, y: int): Color {
    if |layers| == 0 then BLANK
    else if layers[|layers| - 1].region(x, y) then layers[|layers| - 1].color
    else TopColor(layers[..|layers| - 1], x, y)
  }

  /** A raster whose filter bytes are all 0 and whose pixels are the layers seen from the top. */
  ghost predicate Shows(s: seq<byte>, size: nat, layers: seq<Layer>) {
    && IsRaster(s, size)
    && (forall row: nat :: row < size ==> FilterByte(s, size, row) == 0)
    && (forall x, y :: InCanvas(size, x, y) ==> PixelAt(s, size, x, y) == TopColor(layers, x, y))
  }

  lemma AddLayer(s: seq<byte>, t: seq<byte>, size: nat, layers: seq<Layer>, layer: Layer)
    requires Shows(s, size, layers) && Painted(s, t, size, layer.region, layer.color)
    ensures Shows(t, size, layers + [layer])
  {
    hide PixelAt, FilterByte;
    assert (layers + [layer])[..|layers|] == layers;
  }

  lemma BlankShows(s: seq<byte>, size: nat)
    requires IsRaster(s, size) && forall i :: 0 <= i < |s| ==> s[i] == 0
    ensures Shows(s, size, [])
  {
    forall x, y | InCanvas(size, x, y) ensures PixelAt(s, size, x, y) == BLANK { PixelInside(size, x, y); }
    forall row: nat | row < size ensures FilterByte(s, size, row) == 0 { RowsApart(size, row, size); }
  }

  const IHDR: seq<byte> := [0x49, 0x48, 0x44, 0x52]
  const IDAT: seq<byte> := [0x49, 0x44, 0x41, 0x54]
  const IEND: seq<byte> := [0x49, 0x45, 0x4e, 0x44]

  /** Width, height, then 8 bits per sample, color with alpha, and the default methods. */
  function HeaderData(size: nat): seq<byte>
    requires size < LIMIT
  {
    BigEndian(size) + BigEndian(size) + [8, 6, 0, 0, 0]
  }

  lemma {:induction false} TopIs(layers: seq<Layer>, n: nat, x: int, y: int)
    requires n < |layers| && layers[n].region(x, y)
    requires forall i :: n < i < |layers| ==> !layers[i].region(x, y)
    ensures TopColor(layers, x, y) == layers[n].color
  {
    if n < |layers| - 1 { TopIs(layers[..|layers| - 1], n, x, y); }
  }

  lemma {:induction false} NothingOnTop(layers: seq<Layer>, x: int, y: int)
    requires forall i :: 0 <= i < |layers| ==> !layers[i].region(x, y)
    ensures TopColor(layers, x, y) == BLANK
  {
    if |layers| > 0 { NothingOnTop(layers[..|layers| - 1], x, y); }
  }

  lemma StrokeCovers(x1: real, y1: real, x2: real, y2: real, thickness: real, t: real, px: int, py: int)
    requires LengthSquared(x1, y1, x2, y2) != 0.0 && thickness > -2.0 / 3.0 && OnSegment(t)
    requires DistanceSquared(x1, y1, x2, y2, t, px as real, py as real) <= SqR(thickness / 2.0)
    ensures Line(x1, y1, x2, y2, thickness)(px, py)
  {
    LineIsStroke(x1, y1, x2, y2, thickness, px, py);
  }

  /** Some pixels of the icon: the transparent corner, frame and panel, three of the bars and the base line. */
  lemma IconSamples()
    ensures TopColor(IconLayers(), 0, 0) == Color(0, 0, 0, 0)
    ensures TopColor(IconLayers(), 20, 128) == Color(15, 23, 42, 255)
    ensures TopColor(IconLayers(), 30, 128) == Color(30, 41, 59, 255)
    ensures TopColor(IconLayers(), 50, 100) == Color(45, 212, 191, 255)
    ensures TopColor(IconLayers(), 90, 60) == Color(96, 165, 250, 255)
    ensures TopColor(IconLayers(), 165, 64) == Color(251, 191, 36, 255)
    ensures TopColor(IconLayers(), 50, 187) == Color(148, 163, 184, 255)
  {
    NothingOnTop(IconLayers(), 0, 0);
    TopIs(IconLayers(), 0, 20, 128);
    TopIs(IconLayers(), 1, 30, 128);
    TopIs(IconLayers(), 2, 50, 100);
    TopIs(IconLayers(), 3, 90, 60);
    TopIs(IconLayers(), 5, 165, 64);
    TopIs(IconLayers(), 6, 50, 187);
  }

  lemma StrokeStarts()
    ensures Line(75.0, 138.0, 110.0, 172.0, 11.0)(75, 138)
  {
    hide Line;
    StrokeCovers(75.0, 138.0, 110.0, 172.0, 11.0, 0.0, 75, 138);
  }

  lemma StrokeTurns()
    ensures Line(108.0, 172.0, 190.0, 80.0, 11.0)(108, 172)
  {
    hide Line;
    StrokeCovers(108.0, 172.0, 190.0, 80.0, 11.0, 0.0, 108, 172);
  }

  lemma ShadowTurns()
    ensures Line(108.0, 176.0, 190.0, 84.0, 17.0)(110, 184)
  {
    hide Line;
    StrokeCovers(108.0, 176.0, 190.0, 84.0, 17.0, 0.0, 110, 184);
  }

  /** And of the stroke: where it starts and turns, and the turn of its shadow. */
  lemma StrokeSamples()
    ensures TopColor(IconLayers(), 75, 138) == TopColor(IconLayers(), 108, 172) == Color(248, 250, 252, 255)
    ensures TopColor(IconLayers(), 110, 184) == Color(8, 13, 28, 180)
  {
    hide LineTest, RoundedTest;
    StrokeStarts();
    StrokeTurns();
    ShadowTurns();
    TopIs(IconLayers(), 9, 75, 138);
    TopIs(IconLayers(), 10, 108, 172);
    TopIs(IconLayers(), 8, 110, 184);
  }

  method BlankImage(size: nat) returns (image: array<byte>)
    ensures fresh(image) && Shows(image[..], size, [])
  {
    image := new byte[(size * 4 + 1) * size](_ => 0);
    for y := 0 to size
      invariant forall i :: 0 <= i < image.Length ==> image[i] == 0
    {
      RowsApart(size, y, size);
      image[y * (size * 4 + 1)] := 0;
    }
    BlankShows(image[..], size);
  }

  /** Drawing: the finished raster shows the eleven layers on a canvas of any size. */
  method DrawIcon(size: nat) returns (image: array<byte>)
    ensures fresh(image) && Shows(image[..], size, IconLayers())
  {
    hide *;
    image := BlankImage(size);
    ghost var done: seq<Layer> := [];
    done := DrawRounded(image, size, 13, 13, 230, 230, 46, Color(15, 23, 42, 255), done);
    done := DrawRounded(image, size, 25, 25, 206, 206, 36, Color(30, 41, 59, 255), done);
    done := DrawRect(image, size, 46, 70, 24, 102, Color(45, 212, 191, 255), done);
    done := DrawRect(image, size, 84, 54, 24, 118, Color(96, 165, 250, 255), done);
    done := DrawRect(image, size, 122, 84, 24, 88, Color(163, 230, 53, 255), done);
    done := DrawRect(image, size, 160, 62, 24, 110, Color(251, 191, 36, 255), done);
    done := DrawRounded(image, size, 42, 180, 152, 14, 7, Color(148, 163, 184, 255), done);
    done := DrawLine(image, size, 75.0, 142.0, 110.0, 176.0, 17.0, Color(8, 13, 28, 180), done);
    done := DrawLine(image, size, 108.0, 176.0, 190.0, 84.0, 17.0, Color(8, 13, 28, 180), done);
    done := DrawLine(image, size, 75.0, 138.0, 110.0, 172.0, 11.0, Color(248, 250, 252, 255), done);
    done := DrawLine(image, size, 108.0, 172.0, 190.0, 80.0, 11.0, Color(248, 250, 252, 255), done);
    LayersAre(done);
  }

  lemma LayersAre(done: seq<Layer>)
    requires done ==
      [ Layer(Rounded(13, 13, 230, 230, 46), Color(15, 23, 42, 255)) ]
      + [ Layer(Rounded(25, 25, 206, 206, 36), Color(30, 41, 59, 255)) ]
      + [ Layer(Rect(46, 70, 24, 102), Color(45, 212, 191, 255)) ]
      + [ Layer(Rect(84, 54, 24, 118), Color(96, 165, 250, 255)) ]
      + [ Layer(Rect(122, 84, 24, 88), Color(163, 230, 53, 255)) ]
      + [ Layer(Rect(160, 62, 24, 110), Color(251, 191, 36, 255)) ]
      + [ Layer(Rounded(42, 180, 152, 14, 7), Color(148, 163, 184, 255)) ]
      + [ Layer(Line(75.0, 142.0, 110.0, 176.0, 17.0), Color(8, 13, 28, 180)) ]
      + [ Layer(Line(108.0, 176.0, 190.0, 84.0, 17.0), Color(8, 13, 28, 180)) ]
      + [ Layer(Line(75.0, 138.0, 110.0, 172.0, 11.0), Color(248, 250, 252, 255)) ]
      + [ Layer(Line(108.0, 172.0, 190.0, 80.0, 11.0), Color(248, 250, 252, 255)) ]
    ensures done == IconLayers()
  {
  }

  method DrawRect(image: array<byte>, size: nat, x: int, y: int, width: int, height: int, c: Color,
                  ghost under: seq<Layer>)
    returns (ghost layers: seq<Layer>)
    requires Shows(image[..], size, under)
    modifies image
    ensures Shows(image[..], size, layers) && layers == under + [Layer(Rect(x, y, width, height), c)]
  {
    ghost var before := image[..];
    FillRect(image, size, x, y, width, height, c);
    layers := under + [Layer(Rect(x, y, width, height), c)];
    AddLayer(before, image[..], size, under, Layer(Rect(x, y, width, height), c));
  }

  method DrawRounded(image: array<byte>, size: nat, x: int, y: int, width: int, height: int, radius: int, c: Color,
                     ghost under: seq<Layer>)
    returns (ghost layers: seq<Layer>)
    requires Shows(image[..], size, under)
    modifies image
    ensures Shows(image[..], size, layers) && layers == under + [Layer(Rounded(x, y, width, height, radius), c)]
  {
    ghost var before := image[..];
    FillRoundedRect(image, size, x, y, width, height, radius, c);
    layers := under + [Layer(Rounded(x, y, width, height, radius), c)];
    AddLayer(before, image[..], size, under, Layer(Rounded(x, y, width, height, radius), c));
  }

  method DrawLine(image: array<byte>, size: nat, x1: real, y1: real, x2: real, y2: real, thickness: real, c: Color,
                  ghost under: seq<Layer>)
    returns (ghost layers: seq<Layer>)
    requires Shows(image[..], size, under)
    modifies image
    ensures Shows(image[..], size, layers) && layers == under + [Layer(Line(x1, y1, x2, y2, thickness), c)]
  {
    ghost var before := image[..];
    DrawThickLine(image, size, x1, y1, x2, y2, thickness, c);
    layers := under + [Layer(Line(x1, y1, x2, y2, thickness), c)];
    AddLayer(before, image[..], size, under, Layer(Line(x1, y1, x2, y2, thickness), c));
  }

  /** A drawing call with its arguments. */
  datatype Call =
    | FillsRect(x: int, y: int, width: int, height: int, color: Color)
    | FillsRounded(x: int, y: int, width: int, height: int, radius: int, color: Color)
    | DrawsLine(x1: real, y1: real, x2: real, y2: real, thickness: real, color: Color)

  function LayerOf(call: Call): Layer {
    match call
    case FillsRect(x, y, width, height, c) => Layer(Rect(x, y, width, height), c)
    case FillsRounded(x, y, width, height, radius, c) => Layer(Rounded(x, y, width, height, radius), c)
    case DrawsLine(x1, y1, x2, y2, thickness, c) => Layer(Line(x1, y1, x2, y2, thickness), c)
  }

  function LayersOf(calls: seq<Call>): seq<Layer> {
    if |calls| == 0 then [] else LayersOf(calls[..|calls| - 1]) + [LayerOf(calls[|calls| - 1])]
  }

  /** Any sequence of drawing calls, whatever their coordinates: filter bytes stay 0 and each pixel shows the last call
      that covers it. */
  method DrawAll(image: array<byte>, size: nat, calls: seq<Call>, ghost under: seq<Layer>)
    requires Shows(image[..], size, under)
    modifies image
    ensures Shows(image[..], size, under + LayersOf(calls))
  {
    hide Shows, Rect, Rounded, Line;
    ghost var layers := under;
    assert under + LayersOf(calls[..0]) == under;
    for i := 0 to |calls|
      invariant layers == under + LayersOf(calls[..i]) && Shows(image[..], size, layers)
    {
      assert calls[..i + 1][..i] == calls[..i];
      match calls[i] {
        case FillsRect(x, y, width, height, c) => layers := DrawRect(image, size, x, y, width, height, c, layers);
        case FillsRounded(x, y, width, height, radius, c) =>
          layers := DrawRounded(image, size, x, y, width, height, radius, c, layers);
        case DrawsLine(x1, y1, x2, y2, thickness, c) =>
          layers := DrawLine(image, size, x1, y1, x2, y2, thickness, c, layers);
      }
    }
    assert calls[..|calls|] == calls;
  }

  /** The same of any sequence of buffers, each the one before it with one layer painted. */
  lemma {:induction false} AnySequenceShows(buffers: seq<seq<byte>>, size: nat, under: seq<Layer>, layers: seq<Layer>)
    requires |buffers| == |layers| + 1 && Shows(buffers[0], size, under)
    requires forall i :: 0 <= i < |layers| ==>
      Painted(buffers[i], buffers[i + 1], size, layers[i].region, layers[i].color)
    ensures Shows(buffers[|layers|], size, under + layers)
  {
    if |layers| == 0 {
      assert under + layers == under;
    } else {
      hide Shows, Painted;
      var n := |layers| - 1;
      AnySequenceShows(buffers[..n + 1], size, under, layers[..n]);
      AddLayer(buffers[n], buffers[n + 1], size, under + layers[..n], layers[n]);
      assert under + layers[..n] + [layers[n]] == under + layers;
    }
  }

  /**
   The whole file: a reader finds exactly the header, the compressed raster and the end chunk. `deflate`
   stands for the zlib call; nothing is returned when a length does not fit four bytes.
   */
  method CreateDesktopIconPng(size: nat, deflate: seq<byte> -> seq<byte>, table: CrcTable)
    returns (r: Option<seq<byte>>, ghost raster: seq<byte>)
    requires table.Valid()
    modifies table
    ensures table.Valid() && Shows(raster, size, IconLayers())
    ensures r.Some? <==> size < LIMIT && |deflate(raster)| < LIMIT
    ensures r.Some? ==>
      ReadPng(r.value) == Some([Chunk(IHDR, HeaderData(size)), Chunk(IDAT, deflate(raster)), Chunk(IEND, [])])
  {
    hide Shows, IconLayers, ChunkBytes, ReadPng, PngFile, BigEndian, FromBigEndian;
    r := None;
    var image := DrawIcon(size);
    raster := image[..];
    if size >= LIMIT { return; }
    HeaderLength(size);
    hide HeaderData;
    var packed := deflate(image[..]);
    var header := PngChunk(table, IHDR, HeaderData(size));
    var body := PngChunk(table, IDAT, packed);
    var end := PngChunk(table, IEND, []);
    if body == None { return; }
    var chunks := [Chunk(IHDR, HeaderData(size)), Chunk(IDAT, packed), Chunk(IEND, [])];
    r := Some(SIGNATURE + header.value + body.value + end.value);
    ThreeChunks(chunks[0], chunks[1], chunks[2]);
    PngRoundTrip(r.value, chunks);
  }

  lemma HeaderLength(size: nat)
    requires size < LIMIT
    ensures |HeaderData(size)| == 13
  {
  }

  lemma ThreeChunks(a: Chunk, b: Chunk, c: Chunk)
    requires |a.data| < LIMIT && |b.data| < LIMIT && |c.data| < LIMIT
    ensures PngFile([a, b, c]) == SIGNATURE + ChunkBytes(a) + ChunkBytes(b) + ChunkBytes(c)
  {
    hide ChunkBytes;
    assert [a, b, c][1..] == [b, c] && [b, c][1..] == [c] && [c][1..] == [];
    assert Stream([c]) == ChunkBytes(c);
    assert Stream([b, c]) == ChunkBytes(b) + ChunkBytes(c);
    assert Stream([a, b, c]) == ChunkBytes(a) + (ChunkBytes(b) + ChunkBytes(c));
  }
}
