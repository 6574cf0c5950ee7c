/** The pixels of a decoded texture, read off its bytes (tools/tim_tool.py). */
module TimPixels {
  import opened Options
  import opened Bytes
  import opened Tim

  // ---- Colours, bit by bit ----

  /** The eight-bit level nearest to v thirty-firsts of full intensity. */
  predicate Near(c: byte, v: nat) { -15 <= 31 * c - 255 * v <= 15 }

  /** The pixel shows the colour word at this address: three five-bit fields from the lowest bit up, and the top bit. */
  predicate ShowsAt(data: seq<byte>, at: nat, p: Pixel) {
    && at + 2 <= |data|
    && Near(p.red, data[at] % 32) && Near(p.green, data[at] / 32 + 8 * (data[at + 1] % 4)) && Near(p.blue, data[at + 1] / 4 % 32)
    && p.alpha == if data[at] == 0 && data[at + 1] == 0 then 0 else if data[at + 1] >= 128 then 128 else 255
  }

  lemma {:induction false} LevelNear(v: nat)
    requires v < 32
    ensures Near(Level(v), v)
  {}

  lemma {:induction false} Fields(low: byte, high: byte)
    ensures var w: half := low + 256 * high;
      && Red(w) == low % 32 && Green(w) == low / 32 + 8 * (high % 4) && Blue(w) == high / 4 % 32
      && (w >= 0x8000 <==> high >= 128)
  {
    var w: half := low + 256 * high;
    assert w / 32 == low / 32 + 8 * high;
    assert w / 1024 == high / 4;
  }

  lemma {:induction false} ColorShows(data: seq<byte>, at: nat)
    requires at + 2 <= |data|
    ensures ShowsAt(data, at, Color(Half(data, at)))
  {
    Fields(data[at], data[at + 1]);
    LevelNear(data[at] % 32);
    LevelNear(data[at] / 32 + 8 * (data[at + 1] % 4));
    LevelNear(data[at + 1] / 4 % 32);
  }

  // ---- Rows ----

  /** Two pixels to a byte, low half first. */
  lemma {:induction false} NibblesAt(p: Palette, row: seq<byte>, x: nat)
    requires Usable(0, p) && x < |DecodeCells(0, p, row)|
    ensures x / 2 < |row| && DecodeCells(0, p, row)[x] == p[if x % 2 == 0 then row[x / 2] % 16 else row[x / 2] / 16]
    decreases |row|
  {
    if x >= 2 { NibblesAt(p, row[1..], x - 2); }
  }

  lemma {:induction false} BytesAt(p: Palette, row: seq<byte>, x: nat)
    requires Usable(1, p) && x < |DecodeCells(1, p, row)|
    ensures x < |row| && DecodeCells(1, p, row)[x] == p[row[x]]
    decreases |row|
  {
    if x >= 1 { BytesAt(p, row[1..], x - 1); }
  }

  lemma {:induction false} WordsAt(p: Palette, row: seq<byte>, x: nat)
    requires Usable(2, p) && x < |DecodeCells(2, p, row)|
    ensures 2 * x + 2 <= |row| && DecodeCells(2, p, row)[x] == Color(Half(row, 2 * x))
    decreases |row|
  {
    if x >= 1 { WordsAt(p, row[2..], x - 1); }
  }

  lemma {:induction false} TriplesAt(p: Palette, row: seq<byte>, x: nat)
    requires Usable(3, p) && x < |DecodeCells(3, p, row)|
    ensures 3 * x + 3 <= |row| && DecodeCells(3, p, row)[x] == Pixel(row[3 * x], row[3 * x + 1], row[3 * x + 2], 255)
    decreases |row|
  {
    if x >= 1 { TriplesAt(p, row[3..], x - 1); }
  }

  /** Row r of the image begins here. */
  function ImageRow(t: Image, r: nat): nat { t.image.offset + 12 + r * (2 * t.image.widthWords) }

  lemma {:induction false} RowByte(data: seq<byte>, t: Image, r: nat, i: nat)
    requires Parsed(data, t) && r < t.image.height && i < 2 * t.image.widthWords
    ensures ImageRow(t, r) + i < |data| && Row(data, t, r)[i] == data[ImageRow(t, r) + i]
  {
    RowAtIs(t, r);
    RowInside(t, r);
  }

  /** Entry i of palette number index lies here: sixteen or 256 halfwords to a palette. */
  function EntryAt(t: Image, index: nat, i: nat): nat
    requires t.clut.Some?
  {
    t.clut.value.offset + 12 + index * (if t.mode == 0 then 32 else 512) + 2 * i
  }

  lemma {:induction false} EntryShows(data: seq<byte>, t: Image, index: nat, i: nat)
    requires Parsed(data, t) && t.clut.Some? && index < t.paletteCount && i < Colors(t.mode)
    ensures ShowsAt(data, EntryAt(t, index, i), PaletteAt(data, t, index)[i])
  {
    PaletteInside(t, index);
    assert EntryAt(t, index, i) == DataAt(t.clut.value) + index * Colors(t.mode) * 2 + i * 2;
    ColorShows(data, EntryAt(t, index, i));
  }

  /** Pixel x of row r under palette number index, as the bytes of the texture give it. */
  ghost predicate IsPixel(data: seq<byte>, t: Image, index: nat, r: nat, x: nat, p: Pixel) {
    var at := ImageRow(t, r);
    if t.mode == 0 then
      at + x / 2 < |data| && t.clut.Some? && ShowsAt(data, EntryAt(t, index, if x % 2 == 0 then data[at + x / 2] % 16 else data[at + x / 2] / 16), p)
    else if t.mode == 1 then at + x < |data| && t.clut.Some? && ShowsAt(data, EntryAt(t, index, data[at + x]), p)
    else if t.mode == 2 then ShowsAt(data, at + 2 * x, p)
    else at + 3 * x + 3 <= |data| && p == Pixel(data[at + 3 * x], data[at + 3 * x + 1], data[at + 3 * x + 2], 255)
  }

  lemma {:induction false} IndexedPixel(data: seq<byte>, t: Image, index: nat, r: nat, x: nat)
    requires Parsed(data, t) && t.mode < 2 && index < t.paletteCount && r < t.image.height
    requires x < |DecodeCells(t.mode, PaletteAt(data, t, index), Row(data, t, r))|
    ensures IsPixel(data, t, index, r, x, DecodeCells(t.mode, PaletteAt(data, t, index), Row(data, t, r))[x])
  {
    var p, row := PaletteAt(data, t, index), Row(data, t, r);
    if t.mode == 0 { NibblesAt(p, row, x); } else { BytesAt(p, row, x); }
    var k := if t.mode == 0 then x / 2 else x;
    RowByte(data, t, r, k);
    EntryShows(data, t, index, if t.mode == 1 then row[k] else if x % 2 == 0 then row[k] % 16 else row[k] / 16);
  }

  lemma {:induction false} WordPixel(data: seq<byte>, t: Image, r: nat, x: nat)
    requires Parsed(data, t) && t.mode == 2 && r < t.image.height && x < |DecodeCells(2, [], Row(data, t, r))|
    ensures IsPixel(data, t, 0, r, x, DecodeCells(2, [], Row(data, t, r))[x])
  {
    WordsAt([], Row(data, t, r), x);
    RowByte(data, t, r, 2 * x);
    RowByte(data, t, r, 2 * x + 1);
    ColorShows(data, ImageRow(t, r) + 2 * x);
  }

  lemma {:induction false} TriplePixel(data: seq<byte>, t: Image, r: nat, x: nat)
    requires Parsed(data, t) && t.mode == 3 && r < t.image.height && x < |DecodeCells(3, [], Row(data, t, r))|
    ensures IsPixel(data, t, 0, r, x, DecodeCells(3, [], Row(data, t, r))[x])
  {
    TriplesAt([], Row(data, t, r), x);
    RowByte(data, t, r, 3 * x);
    RowByte(data, t, r, 3 * x + 1);
    RowByte(data, t, r, 3 * x + 2);
  }

  function PaletteFor(data: seq<byte>, t: Image, index: nat): (p: Palette)
    requires Parsed(data, t) && (t.mode < 2 ==> index < t.paletteCount)
    ensures Usable(t.mode, p)
  {
    if t.mode < 2 then PaletteAt(data, t, index) else []
  }

  lemma {:induction false} RowPixel(data: seq<byte>, t: Image, index: nat, r: nat, x: nat)
    requires Parsed(data, t) && (if t.mode < 2 then index < t.paletteCount else index == 0) && r < t.image.height
    requires x < |DecodeCells(t.mode, PaletteFor(data, t, index), Row(data, t, r))|
    ensures IsPixel(data, t, index, r, x, DecodeCells(t.mode, PaletteFor(data, t, index), Row(data, t, r))[x])
  {
    if t.mode < 2 { IndexedPixel(data, t, index, r, x); } else if t.mode == 2 { WordPixel(data, t, r, x); } else { TriplePixel(data, t, r, x); }
  }

  lemma {:induction false} DecodedRow(data: seq<byte>, t: Image, index: nat, r: nat)
    requires Parsed(data, t) && Decoded(data, t, index).Some? && r < t.image.height
    ensures if t.mode < 2 then index < t.paletteCount else index == 0
    ensures |Decoded(data, t, index).value| == t.image.height
    ensures Decoded(data, t, index).value[r] == DecodeCells(t.mode, PaletteFor(data, t, index), Row(data, t, r))
  {}

  /** In all four modes and under every palette each decoded pixel is the one the bytes of the texture give. */
  lemma {:induction false} PixelAt(data: seq<byte>, t: Image, index: nat, r: nat, x: nat)
    requires Parsed(data, t) && Decoded(data, t, index).Some? && r < t.image.height && x < t.pixelWidth
    ensures |Decoded(data, t, index).value| == t.image.height && |Decoded(data, t, index).value[r]| == t.pixelWidth
    ensures IsPixel(data, t, index, r, x, Decoded(data, t, index).value[r][x])
  {
    DecodedSize(data, t, index);
    DecodedRow(data, t, index, r);
    RowPixel(data, t, index, r, x);
  }

  // ---- The sections ----

  /** A section header at this address: size, position and extent, all inside the file and the video memory. */
  predicate IsSection(data: seq<byte>, b: Block) {
    var at := b.offset;
    && at + 12 <= |data|
    && b.size == Word(data, at) && b.x == Half(data, at + 4) && b.y == Half(data, at + 6)
    && b.widthWords == Half(data, at + 8) && b.height == Half(data, at + 10)
    && b.widthWords > 0 && b.height > 0 && b.size == 12 + b.widthWords * b.height * 2 && at + b.size <= |data|
    && b.x + b.widthWords <= 1024 && b.y + b.height <= 512
  }

  /** A texture at this address: its mode, the colour table of the indexed modes right behind the header, the image behind it. */
  predicate IsTexture(data: seq<byte>, offset: nat, t: Image) {
    && offset + 8 <= |data| && data[offset] == 0x10 && data[offset + 1] == data[offset + 2] == data[offset + 3] == 0
    && t.offset == offset && t.flags == Word(data, offset + 4) && t.size == t.image.offset + t.image.size - offset
    && IsSection(data, t.image)
    && (match t.clut
        case None => (t.flags == 2 || t.flags == 3) && t.mode == t.flags && t.paletteCount == 0 && t.image.offset == offset + 8
        case Some(clut) =>
          && (t.flags == 8 || t.flags == 9) && t.mode == t.flags - 8 && IsSection(data, clut)
          && clut.offset == offset + 8 && t.image.offset == clut.offset + clut.size
          && t.paletteCount >= 1 && clut.widthWords * clut.height == t.paletteCount * (if t.mode == 0 then 16 else 256))
    && IsWide(t)
  }

  /** The pixels of a row of halfwords; what is left over of whole 24-bit pixels is padding. */
  predicate IsWide(t: Image) {
    if t.mode == 3 then t.pixelWidth >= 1 && t.rowPadding < 3 && 2 * t.image.widthWords == 3 * t.pixelWidth + t.rowPadding
    else t.rowPadding == 0 && t.pixelWidth == t.image.widthWords * (if t.mode == 0 then 4 else if t.mode == 1 then 2 else 1)
  }

  lemma {:induction false} SectionIff(data: seq<byte>, offset: nat, b: Block)
    ensures ParseBlock(data, offset) == Some(b) <==> b.offset == offset && IsSection(data, b)
  {}

  lemma {:induction false} MagicIff(data: seq<byte>, offset: nat)
    requires offset + 4 <= |data|
    ensures Word(data, offset) == 0x10 <==> data[offset] == 0x10 && data[offset + 1] == data[offset + 2] == data[offset + 3] == 0
  {}

  lemma {:induction false} WholePalette(area: nat, colors: nat, count: nat)
    requires colors == 16 || colors == 256
    ensures area >= colors && area % colors == 0 && count == area / colors <==> count >= 1 && area == count * colors
  {
    if colors == 16 {} else {}
  }

  lemma {:induction false} ClutIff(data: seq<byte>, offset: nat, mode: nat, clut: Block, count: nat)
    requires mode < 2
    ensures ParseClut(data, offset, mode) == Some(clut) && count == Palettes(clut, mode)
       <==> clut.offset == offset && IsSection(data, clut) && count >= 1 && clut.widthWords * clut.height == count * (if mode == 0 then 16 else 256)
  {
    SectionIff(data, offset, clut);
    WholePalette(Area(clut), Colors(mode), count);
  }

  lemma {:induction false} ImageIff(data: seq<byte>, offset: nat, flags: nat, clut: Option<Block>, position: nat, t: Image)
    requires offset + 8 <= position && flags % 8 <= 3
    ensures ParseImage(data, offset, flags, clut, position) == Some(t) <==>
      && t.offset == offset && t.flags == flags && t.mode == flags % 8 && t.clut == clut && t.image.offset == position && IsSection(data, t.image)
      && t.size == t.image.offset + t.image.size - offset && IsWide(t)
      && t.paletteCount == (if clut.None? then 0 else Palettes(clut.value, t.mode))
  {
    SectionIff(data, position, t.image);
  }

  /** The parser accepts exactly the textures. */
  lemma {:induction false} TextureIff(data: seq<byte>, offset: nat, t: Image)
    ensures Parse(data, offset) == Some(t) <==> IsTexture(data, offset, t)
  {
    if offset + 8 <= |data| {
      MagicIff(data, offset);
      var flags := Word(data, offset + 4);
      if Word(data, offset) == 0x10 && (flags == 8 || flags == 9) {
        IndexedIff(data, offset, t);
      } else if flags == 2 || flags == 3 {
        ImageIff(data, offset, flags, None, offset + 8, t);
      }
    }
  }

  lemma {:induction false} IndexedIff(data: seq<byte>, offset: nat, t: Image)
    requires offset + 8 <= |data| && (Word(data, offset + 4) == 8 || Word(data, offset + 4) == 9) && Word(data, offset) == 0x10
    ensures Parse(data, offset) == Some(t) <==> IsTexture(data, offset, t)
  {
    if Parse(data, offset) == Some(t) { IndexedTexture(data, offset, t); }
    if IsTexture(data, offset, t) { TextureIndexed(data, offset, t); }
  }

  lemma {:induction false} IndexedTexture(data: seq<byte>, offset: nat, t: Image)
    requires offset + 8 <= |data| && (Word(data, offset + 4) == 8 || Word(data, offset + 4) == 9) && Parse(data, offset) == Some(t)
    ensures IsTexture(data, offset, t)
  {
    var flags := Word(data, offset + 4);
    MagicIff(data, offset);
    var clut := ParseClut(data, offset + 8, flags - 8).value;
    ImageIff(data, offset, flags, Some(clut), EndOf(clut), t);
    ClutIff(data, offset + 8, flags - 8, clut, t.paletteCount);
  }

  lemma {:induction false} TextureIndexed(data: seq<byte>, offset: nat, t: Image)
    requires IsTexture(data, offset, t) && t.flags >= 8
    ensures Parse(data, offset) == Some(t)
  {
    TextureClut(data, offset, t);
    TextureImage(data, offset, t);
  }

  lemma {:induction false} TextureImage(data: seq<byte>, offset: nat, t: Image)
    requires IsTexture(data, offset, t) && t.flags >= 8
    ensures offset + 8 <= |data| && Word(data, offset) == 0x10 && Word(data, offset + 4) == t.flags
    ensures t.clut.Some? && offset + 8 <= EndOf(t.clut.value) && ParseImage(data, offset, t.flags, t.clut, EndOf(t.clut.value)) == Some(t)
  {
    MagicIff(data, offset);
    TextureClut(data, offset, t);
    ImageIff(data, offset, t.flags, t.clut, EndOf(t.clut.value), t);
  }

  lemma {:induction false} TextureClut(data: seq<byte>, offset: nat, t: Image)
    requires IsTexture(data, offset, t) && t.flags >= 8
    ensures offset + 8 <= |data| && t.flags <= 9 && t.clut.Some? && ParseClut(data, offset + 8, t.flags - 8) == t.clut
    ensures t.paletteCount == Palettes(t.clut.value, t.mode) && EndOf(t.clut.value) == t.image.offset && t.mode == t.flags % 8
  {
    ClutIff(data, offset + 8, t.flags - 8, t.clut.value, t.paletteCount);
  }
}
