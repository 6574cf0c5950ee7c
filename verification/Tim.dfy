/** Console textures: parsing and decoding (tools/tim_tool.py). Images are rows of pixels, top to bottom. */
module Tim {
  import opened Options
  import opened Bytes

  datatype Pixel = Pixel(red: byte, green: byte, blue: byte, alpha: byte)

  // ---- Colours ----

  /** A five-bit channel expanded to eight bits. */
  function Level(v: nat): (c: byte)
    requires v < 32
  {
    (v * 255 + 15) / 31
  }

  function Red(w: half): nat { w % 32 }

  function Green(w: half): nat { w / 32 % 32 }

  function Blue(w: half): nat { w / 1024 % 32 }

  /** Zero is transparent; the top bit is shown as half transparency. */
  function Color(w: half): Pixel {
    Pixel(Level(Red(w)), Level(Green(w)), Level(Blue(w)), if w == 0 then 0 else if w >= 0x8000 then 128 else 255)
  }

  // ---- Sections ----

  datatype Block = Block(offset: nat, size: nat, x: nat, y: nat, widthWords: nat, height: nat)

  function DataAt(b: Block): nat { b.offset + 12 }

  function EndOf(b: Block): nat { b.offset + b.size }

  /** Halfwords a section covers. */
  function Area(b: Block): nat { b.widthWords * b.height }

  function ParseBlock(data: seq<byte>, offset: nat): (r: Option<Block>)
    ensures r.Some? ==> r.value.offset == offset && EndOf(r.value) <= |data| && r.value.widthWords > 0 && r.value.height > 0
    ensures r.Some? ==> r.value.size == 12 + 2 * Area(r.value)
  {
    if offset + 12 > |data| then None
    else
      var b := Block(offset, Word(data, offset), Half(data, offset + 4), Half(data, offset + 6), Half(data, offset + 8), Half(data, offset + 10));
      if b.widthWords == 0 || b.height == 0 || b.size != 12 + 2 * Area(b) || b.size > |data| - offset
         || b.x + b.widthWords > 1024 || b.y + b.height > 512 then None
      else Some(b)
  }

  datatype Image = Image(offset: nat, size: nat, flags: nat, mode: nat, clut: Option<Block>, image: Block,
                         pixelWidth: nat, rowPadding: nat, paletteCount: nat)

  function Colors(mode: nat): nat { if mode == 0 then 16 else 256 }

  function RowBytes(b: Block): nat { b.widthWords * 2 }

  function Palettes(b: Block, mode: nat): nat { Area(b) / Colors(mode) }

  /** The colour table of an indexed texture holds whole palettes. */
  function ParseClut(data: seq<byte>, offset: nat, mode: nat): (r: Option<Block>)
    ensures r.Some? ==> r.value.offset == offset && EndOf(r.value) <= |data| && r.value.size == 12 + 2 * Area(r.value) && Area(r.value) >= Colors(mode)
  {
    match ParseBlock(data, offset)
    case None => None
    case Some(b) => if Area(b) < Colors(mode) || Area(b) % Colors(mode) != 0 then None else Some(b)
  }

  function PixelWidth(mode: nat, widthWords: nat): nat {
    if mode == 0 then widthWords * 4 else if mode == 1 then widthWords * 2 else if mode == 2 then widthWords else widthWords * 2 / 3
  }

  function ParseImage(data: seq<byte>, offset: nat, flags: nat, clut: Option<Block>, position: nat): (r: Option<Image>)
    requires offset + 8 <= position
    ensures r.Some? ==> var t := r.value;
                        && t.offset == offset && t.clut == clut && t.flags == flags && t.mode == flags % 8 && t.image.offset == position
                        && EndOf(t.image) <= |data| && t.image.widthWords > 0 && t.image.height > 0 && t.image.size == 12 + 2 * Area(t.image)
                        && t.pixelWidth == PixelWidth(t.mode, t.image.widthWords) && (t.mode == 3 ==> t.pixelWidth > 0)
                        && (clut.Some? ==> t.paletteCount == Palettes(clut.value, t.mode)) && t.size == EndOf(t.image) - offset
  {
    var mode := flags % 8;
    match ParseBlock(data, position)
    case None => None
    case Some(b) =>
      if mode == 3 && RowBytes(b) / 3 == 0 then None
      else Some(Image(offset, EndOf(b) - offset, flags, mode, clut, b, PixelWidth(mode, b.widthWords), if mode == 3 then RowBytes(b) % 3 else 0,
                      if clut.None? then 0 else Palettes(clut.value, mode)))
  }

  function Parse(data: seq<byte>, offset: nat): Option<Image> {
    if offset + 8 > |data| || Word(data, offset) != 0x10 then None
    else
      var flags := Word(data, offset + 4);
      if flags == 0x08 || flags == 0x09 then
        match ParseClut(data, offset + 8, flags - 8)
        case None => None
        case Some(clut) => ParseImage(data, offset, flags, Some(clut), EndOf(clut))
      else if flags == 0x02 || flags == 0x03 then ParseImage(data, offset, flags, None, offset + 8)
      else None
  }

  /** What every parsed texture satisfies. */
  ghost predicate Parsed(data: seq<byte>, t: Image) {
    && t.mode <= 3 && EndOf(t.image) <= |data| && t.image.widthWords > 0 && t.image.height > 0
    && t.image.size == 12 + 2 * Area(t.image)
    && (t.clut.Some? <==> t.mode < 2)
    && (t.clut.Some? ==> EndOf(t.clut.value) <= t.image.offset && t.clut.value.size == 12 + 2 * Area(t.clut.value)
                         && Area(t.clut.value) >= Colors(t.mode) && t.paletteCount == Palettes(t.clut.value, t.mode))
    && t.pixelWidth == PixelWidth(t.mode, t.image.widthWords) && (t.mode == 3 ==> t.pixelWidth > 0)
  }

  lemma {:induction false} ImageParsed(data: seq<byte>, offset: nat, flags: nat, clut: Option<Block>, position: nat)
    requires flags == 8 || flags == 9 || flags == 2 || flags == 3
    requires clut.Some? <==> flags >= 8
    requires clut.Some? ==> clut.value.size == 12 + 2 * Area(clut.value) && EndOf(clut.value) == position && Area(clut.value) >= Colors(flags % 8)
    requires offset + 8 <= position && ParseImage(data, offset, flags, clut, position).Some?
    ensures Parsed(data, ParseImage(data, offset, flags, clut, position).value)
  {}

  lemma {:induction false} ClutParsed(data: seq<byte>, offset: nat, flags: nat)
    requires (flags == 8 || flags == 9) && ParseClut(data, offset + 8, flags - 8).Some?
    ensures var clut := ParseClut(data, offset + 8, flags - 8); var t := ParseImage(data, offset, flags, clut, EndOf(clut.value));
            t.Some? ==> Parsed(data, t.value)
  {
    var clut := ParseClut(data, offset + 8, flags - 8);
    if ParseImage(data, offset, flags, clut, EndOf(clut.value)).Some? { ImageParsed(data, offset, flags, clut, EndOf(clut.value)); }
  }

  lemma {:induction false} ParsedOf(data: seq<byte>, offset: nat)
    ensures Parse(data, offset).Some? ==> Parsed(data, Parse(data, offset).value) && Parse(data, offset).value.offset == offset
  {
    if Parse(data, offset).Some? {
      var flags := Word(data, offset + 4);
      if flags >= 8 {
        ClutParsed(data, offset, flags);
      } else {
        ImageParsed(data, offset, flags, None, offset + 8);
      }
    }
  }

  /** The bytes of one image row. */
  function Row(data: seq<byte>, t: Image, r: nat): (b: seq<byte>)
    requires Parsed(data, t) && r < t.image.height
    ensures |b| == RowBytes(t.image)
  {
    RowInside(t, r);
    data[RowAt(t, r)..RowAt(t, r) + RowBytes(t.image)]
  }

  /** Where row r starts: each row follows the one before. */
  function RowAt(t: Image, r: nat): nat
    decreases r
  {
    if r == 0 then DataAt(t.image) else RowAt(t, r - 1) + RowBytes(t.image)
  }

  lemma {:induction false} RowAtIs(t: Image, r: nat)
    ensures RowAt(t, r) == DataAt(t.image) + r * RowBytes(t.image)
    decreases r
  {
    if r > 0 {
      RowAtIs(t, r - 1);
      assert r * RowBytes(t.image) == (r - 1) * RowBytes(t.image) + RowBytes(t.image);
    }
  }

  lemma {:induction false} Rows(width: nat, height: nat, r: nat)
    requires r < height
    ensures r * (width * 2) + width * 2 <= 2 * (width * height)
  {
    assert (r + 1) * width <= height * width;
    assert (r + 1) * width == r * width + width;
  }

  lemma {:induction false} RowInside(t: Image, r: nat)
    requires r < t.image.height && t.image.size == 12 + 2 * Area(t.image)
    ensures DataAt(t.image) <= RowAt(t, r) && RowAt(t, r) + RowBytes(t.image) <= EndOf(t.image)
  {
    RowAtIs(t, r);
    Rows(t.image.widthWords, t.image.height, r);
  }

  lemma {:induction false} RowsApart(t: Image, r: nat, r': nat)
    requires r < r'
    ensures RowAt(t, r) + RowBytes(t.image) <= RowAt(t, r')
    decreases r'
  {
    if r < r' - 1 { RowsApart(t, r, r' - 1); }
  }

  // ---- Decoding ----

  type Palette = seq<Pixel>

  function PaletteAt(data: seq<byte>, t: Image, index: nat): (p: Palette)
    requires Parsed(data, t) && t.clut.Some? && index < t.paletteCount
    ensures |p| == Colors(t.mode)
  {
    PaletteInside(t, index);
    seq(Colors(t.mode), i requires 0 <= i < Colors(t.mode) => Color(Half(data, DataAt(t.clut.value) + index * Colors(t.mode) * 2 + i * 2)))
  }

  lemma {:induction false} PaletteInside(t: Image, index: nat)
    requires t.clut.Some? && index < t.paletteCount == Palettes(t.clut.value, t.mode)
    requires t.clut.value.size == 12 + 2 * Area(t.clut.value)
    ensures DataAt(t.clut.value) + index * Colors(t.mode) * 2 + Colors(t.mode) * 2 <= EndOf(t.clut.value)
  {
    WholePalettes(Area(t.clut.value), Colors(t.mode), index);
  }

  lemma {:induction false} WholePalettes(area: nat, colors: nat, index: nat)
    requires colors > 0 && index < area / colors
    ensures index * colors + colors <= area
  {
    assert (index + 1) * colors <= area / colors * colors;
    assert (index + 1) * colors == index * colors + colors;
  }

  /** The bytes that hold one or two pixels, and how many. */
  function CellSize(mode: nat): (n: nat) ensures 1 <= n <= 3 { if mode < 2 then 1 else if mode == 2 then 2 else 3 }

  function CellPixels(mode: nat): (n: nat) ensures 1 <= n <= 2 { if mode == 0 then 2 else 1 }

  predicate Usable(mode: nat, p: Palette) { mode <= 3 && (mode < 2 ==> |p| == Colors(mode)) }

  function DecodeCell(mode: nat, p: Palette, cell: seq<byte>): (px: seq<Pixel>)
    requires Usable(mode, p) && |cell| == CellSize(mode)
    ensures |px| == CellPixels(mode)
  {
    if mode == 0 then [p[cell[0] % 16], p[cell[0] / 16]]
    else if mode == 1 then [p[cell[0]]]
    else if mode == 2 then [Color(Half(cell, 0))]
    else [Pixel(cell[0], cell[1], cell[2], 255)]
  }

  /** Cell after cell; what is left over of a row makes no pixel. */
  function DecodeCells(mode: nat, p: Palette, row: seq<byte>): seq<Pixel>
    requires Usable(mode, p)
    decreases |row|
  {
    if |row| < CellSize(mode) then []
    else DecodeCell(mode, p, row[..CellSize(mode)]) + DecodeCells(mode, p, row[CellSize(mode)..])
  }

  /** The pixels of a texture under one of its palettes; none if there is no such palette. */
  function Decoded(data: seq<byte>, t: Image, index: nat): Option<seq<seq<Pixel>>>
    requires Parsed(data, t)
  {
    if t.mode < 2 && index >= t.paletteCount then None
    else if t.mode >= 2 && index != 0 then None
    else
      var p := if t.mode < 2 then PaletteAt(data, t, index) else [];
      Some(PixelRows(data, t, p))
  }

  function PixelRows(data: seq<byte>, t: Image, p: Palette): (rows: seq<seq<Pixel>>)
    requires Parsed(data, t) && Usable(t.mode, p)
    ensures |rows| == t.image.height
  {
    seq(t.image.height, r requires 0 <= r < t.image.height => DecodeCells(t.mode, p, Row(data, t, r)))
  }

  method DecodeRows(data: seq<byte>, t: Image, p: Palette) returns (rows: seq<seq<Pixel>>)
    requires Parsed(data, t) && Usable(t.mode, p)
    ensures rows == PixelRows(data, t, p)
  {
    rows := [];
    for i := 0 to t.image.height
      invariant |rows| == i && forall k | 0 <= k < i :: rows[k] == PixelRows(data, t, p)[k]
    {
      var row := DecodeRow(t.mode, p, Row(data, t, i));
      rows := rows + [row];
    }
  }

  method DecodeRow(mode: nat, p: Palette, row: seq<byte>) returns (px: seq<Pixel>)
    requires Usable(mode, p)
    ensures px == DecodeCells(mode, p, row)
  {
    px := [];
    var at := 0;
    assert row[0..] == row;
    while at + CellSize(mode) <= |row|
      invariant at <= |row| && px + DecodeCells(mode, p, row[at..]) == DecodeCells(mode, p, row)
      decreases |row| - at
    {
      var next := DecodeCell(mode, p, row[at..at + CellSize(mode)]);
      CellOff(mode, p, row, at);
      assert px + (next + DecodeCells(mode, p, row[at + CellSize(mode)..])) == (px + next) + DecodeCells(mode, p, row[at + CellSize(mode)..]);
      px := px + next;
      at := at + CellSize(mode);
    }
  }

  lemma {:induction false} CellOff(mode: nat, p: Palette, row: seq<byte>, at: nat)
    requires Usable(mode, p) && at + CellSize(mode) <= |row|
    ensures DecodeCells(mode, p, row[at..]) == DecodeCell(mode, p, row[at..at + CellSize(mode)]) + DecodeCells(mode, p, row[at + CellSize(mode)..])
  {
    assert row[at..][..CellSize(mode)] == row[at..at + CellSize(mode)] && row[at..][CellSize(mode)..] == row[at + CellSize(mode)..];
  }

  method Decode(data: seq<byte>, t: Image, index: nat) returns (r: Option<seq<seq<Pixel>>>)
    requires Parsed(data, t)
    ensures r == Decoded(data, t, index)
  {
    if (t.mode < 2 && index >= t.paletteCount) || (t.mode >= 2 && index != 0) {
      return None;
    }
    var p := if t.mode < 2 then PaletteAt(data, t, index) else [];
    var rows := DecodeRows(data, t, p);
    return Some(rows);
  }

  /** A row decodes to the pixel width of its texture. */
  lemma {:induction false} RowLength(mode: nat, p: Palette, row: seq<byte>)
    requires Usable(mode, p)
    ensures |DecodeCells(mode, p, row)| == |row| / CellSize(mode) * CellPixels(mode)
    decreases |row|
  {
    if |row| >= CellSize(mode) {
      RowLength(mode, p, row[CellSize(mode)..]);
      assert |row| / CellSize(mode) == (|row| - CellSize(mode)) / CellSize(mode) + 1;
    }
  }

  lemma {:induction false} DecodedSize(data: seq<byte>, t: Image, index: nat)
    requires Parsed(data, t) && Decoded(data, t, index).Some?
    ensures var px := Decoded(data, t, index).value;
            |px| == t.image.height && forall r | 0 <= r < |px| :: |px[r]| == t.pixelWidth
  {
    var p := if t.mode < 2 then PaletteAt(data, t, index) else [];
    forall r | 0 <= r < t.image.height ensures |DecodeCells(t.mode, p, Row(data, t, r))| == t.pixelWidth {
      RowLength(t.mode, p, Row(data, t, r));
    }
  }

  // ---- Scanning ----

  predicate SignatureAt(data: seq<byte>, at: nat) {
    at + 4 <= |data| && data[at] == 0x10 && data[at + 1] == 0 && data[at + 2] == 0 && data[at + 3] == 0
  }

  method FindSignature(data: seq<byte>, from: nat) returns (at: nat)
    ensures from <= at && forall k: nat | from <= k < at :: !SignatureAt(data, k)
    ensures at + 4 <= |data| ==> SignatureAt(data, at)
  {
    at := from;
    while at + 4 <= |data| && !SignatureAt(data, at)
      invariant from <= at && forall k: nat | from <= k < at :: !SignatureAt(data, k)
      decreases |data| - at
    {
      at := at + 1;
    }
  }

  lemma {:induction false} ParseNeedsSignature(data: seq<byte>, at: nat)
    ensures Parse(data, at).Some? ==> SignatureAt(data, at)
  {}

  function Parser(data: seq<byte>): nat -> Option<Image> { (at: nat) => Parse(data, at) }

  /** The textures found so far end before position, and cover every parseable start before it. */
  ghost predicate Scanned(parse: nat -> Option<Image>, ts: seq<Image>, position: nat) {
    && (forall k | 0 <= k < |ts| :: parse(ts[k].offset) == Some(ts[k]) && ts[k].offset < EndOf(ts[k].image) <= position)
    && (forall j, k | 0 <= j < k < |ts| :: EndOf(ts[j].image) <= ts[k].offset)
    && forall c: nat | c < position && parse(c).Some? :: Covered(ts, c)
  }

  ghost predicate Covered(ts: seq<Image>, c: nat) {
    exists k :: 0 <= k < |ts| && ts[k].offset <= c < EndOf(ts[k].image)
  }

  lemma {:induction false} CoveredStill(ts: seq<Image>, t: Image, c: nat)
    requires Covered(ts, c)
    ensures Covered(ts + [t], c)
  {
    var k :| 0 <= k < |ts| && ts[k].offset <= c < EndOf(ts[k].image);
    assert (ts + [t])[k] == ts[k];
  }

  lemma {:induction false} CoveredLast(ts: seq<Image>, t: Image, c: nat)
    requires t.offset <= c < EndOf(t.image)
    ensures Covered(ts + [t], c)
  {
    assert (ts + [t])[|ts|] == t;
  }

  lemma {:induction false} FoundNext(parse: nat -> Option<Image>, ts: seq<Image>, at: nat)
    requires Scanned(parse, ts, at) && parse(at).Some? && parse(at).value.offset == at < EndOf(parse(at).value.image)
    ensures Scanned(parse, ts + [parse(at).value], EndOf(parse(at).value.image))
  {
    var t := parse(at).value;
    forall c: nat | c < EndOf(t.image) && parse(c).Some? ensures Covered(ts + [t], c) {
      if c < at { CoveredStill(ts, t, c); } else { CoveredLast(ts, t, c); }
    }
  }

  lemma {:induction false} NothingBetween(data: seq<byte>, ts: seq<Image>, from: nat, at: nat)
    requires Scanned(Parser(data), ts, from) && from <= at && forall k: nat | from <= k < at :: !SignatureAt(data, k)
    ensures Scanned(Parser(data), ts, at)
  {
    forall c: nat | from <= c < at ensures Parser(data)(c).None? { ParseNeedsSignature(data, c); }
  }

  lemma {:induction false} NoSignatureAtEnd(data: seq<byte>, from: nat, candidate: nat)
    requires |data| < candidate + 4 && forall k: nat | from <= k < candidate :: !SignatureAt(data, k)
    ensures forall k: nat | from <= k < |data| :: !SignatureAt(data, k)
  {}

  /** Finds disjoint textures in ascending order; a texture that is not found starts inside one that is. */
  method Scan(data: seq<byte>) returns (ts: seq<Image>)
    ensures Scanned(Parser(data), ts, |data|)
  {
    ts := [];
    var position := 0;
    ghost var parse := Parser(data);
    while true
      invariant Scanned(parse, ts, position) && position <= |data| && parse == Parser(data)
      decreases |data| - position
    {
      var candidate := FindSignature(data, position);
      if candidate + 4 > |data| {
        NoSignatureAtEnd(data, position, candidate);
        NothingBetween(data, ts, position, |data|);
        return;
      }
      NothingBetween(data, ts, position, candidate);
      ts, position := ScanAt(data, ts, candidate);
    }
  }

  method ScanAt(data: seq<byte>, ts0: seq<Image>, candidate: nat) returns (ts: seq<Image>, position: nat)
    requires Scanned(Parser(data), ts0, candidate) && candidate < |data|
    ensures Scanned(Parser(data), ts, position) && candidate < position <= |data|
  {
    var t := Parse(data, candidate);
    if t.None? {
      return ts0, candidate + 1;
    }
    ParsedOf(data, candidate);
    ImageBehind(data, candidate);
    FoundNext(Parser(data), ts0, candidate);
    return ts0 + [t.value], EndOf(t.value.image);
  }

  lemma {:induction false} ImageBehind(data: seq<byte>, offset: nat)
    requires Parse(data, offset).Some?
    ensures offset < EndOf(Parse(data, offset).value.image) <= |data|
  {}
}
