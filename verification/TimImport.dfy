/** Re-encoding a texture's pixels in place (tools/tim_import.py). */
module TimImport {
  import opened Options
  import opened Bytes
  import opened Tim

  /** Which approximations the caller allows. */
  datatype Policy = Policy(nearestPalette: bool, quantize: bool)

  const EXACT := Policy(false, false)

  predicate ValidAlpha(p: Pixel) {
    (p.alpha == 0 || p.alpha == 128 || p.alpha == 255) && (p.alpha == 0 ==> p.red == 0 && p.green == 0 && p.blue == 0)
  }

  // ---- Palette indices ----

  function FirstIndex(p: Palette, color: Pixel): (i: nat)
    requires color in p
    ensures i < |p| && p[i] == color && forall k | 0 <= k < i :: p[k] != color
  {
    if p[0] == color then 0 else FirstIndex(p[1..], color) + 1
  }

  function Square(x: int): nat
  {
    var y := if x < 0 then -x else x;
    y * y
  }

  function Distance(p: Pixel, q: Pixel): nat {
    Square(p.red as int - q.red as int) + Square(p.green as int - q.green as int) + Square(p.blue as int - q.blue as int)
  }

  /** No other entry of the same transparency is nearer, and none as near comes first. */
  ghost predicate IsNearest(p: Palette, color: Pixel, i: nat) {
    && i < |p| && p[i].alpha == color.alpha
    && forall k | 0 <= k < |p| && p[k].alpha == color.alpha ::
         Distance(color, p[i]) < Distance(color, p[k]) || (Distance(color, p[i]) == Distance(color, p[k]) && i <= k)
  }

  /** The nearest among the first n entries. */
  function NearestOf(p: Palette, color: Pixel, n: nat): (r: Option<nat>)
    requires n <= |p|
    ensures r.Some? ==> r.value < n && IsNearest(p[..n], color, r.value)
    ensures r.None? ==> forall k | 0 <= k < n :: p[k].alpha != color.alpha
    decreases n
  {
    if n == 0 then None
    else
      var before := NearestOf(p, color, n - 1);
      assert forall k | 0 <= k < n - 1 :: p[..n][k] == p[..n - 1][k];
      if p[n - 1].alpha == color.alpha && (before.None? || Distance(color, p[n - 1]) < Distance(color, p[before.value])) then Some(n - 1)
      else before
  }

  /** The index a pixel gets: the one it has if that shows the colour, else the first that does, else by policy the nearest. */
  function Selected(p: Palette, was: nat, pixel: Pixel, policy: Policy): (r: Option<nat>)
    requires was < |p|
    ensures r.Some? ==> r.value < |p|
  {
    if !ValidAlpha(pixel) then None
    else if p[was] == pixel then Some(was)
    else if pixel in p then Some(FirstIndex(p, pixel))
    else if policy.nearestPalette then NearestOf(p, pixel, |p|)
    else None
  }

  // ---- Direct colours ----

  function FindLevel(c: byte, v: nat): (r: Option<nat>)
    requires v <= 32
    ensures r.Some? ==> r.value < 32 && Level(r.value) == c
    ensures r.None? ==> forall k | v <= k < 32 :: Level(k) != c
    decreases 32 - v, c
  {
    if v == 32 then None else if Level(v) == c then Some(v) else FindLevel(c, v + 1)
  }

  function Rounded(c: byte): nat { (c * 31 + 127) / 255 }

  function Channel(c: byte, quantize: bool): (r: Option<nat>)
    ensures r.Some? ==> r.value < 32
    ensures !quantize && r.Some? ==> Level(r.value) == c
  {
    match FindLevel(c, 0)
    case Some(v) => Some(v)
    case None => if quantize then Some(Rounded(c)) else None
  }

  function Packed(r: nat, g: nat, b: nat, stp: bool): half
    requires r < 32 && g < 32 && b < 32
  {
    r + 32 * g + 1024 * b + if stp then 0x8000 else 0
  }

  function ColorWord(p: Pixel, quantize: bool): Option<half> {
    if !ValidAlpha(p) then None
    else if p.alpha == 0 then Some(0)
    else
      var r, g, b := Channel(p.red, quantize), Channel(p.green, quantize), Channel(p.blue, quantize);
      if r.None? || g.None? || b.None? then None
      else
        var word := Packed(r.value, g.value, b.value, p.alpha == 128);
        if word == 0 then None else Some(word)
  }

  /** The word a pixel gets: the one it has if that shows the colour. */
  function WordFor(was: half, pixel: Pixel, policy: Policy): Option<half> {
    if Color(was) == pixel then Some(was) else ColorWord(pixel, policy.quantize)
  }

  lemma {:induction false} Digits(x: nat, m: nat, low: nat, high: nat)
    requires x == low + m * high && low < m && (m == 16 || m == 32)
    ensures x % m == low && x / m == high
  {}

  lemma {:induction false} PackedFields(r: nat, g: nat, b: nat, stp: bool)
    requires r < 32 && g < 32 && b < 32
    ensures var w := Packed(r, g, b, stp); Red(w) == r && Green(w) == g && Blue(w) == b && (w >= 0x8000 <==> stp)
  {
    var w: nat, top := Packed(r, g, b, stp), if stp then 1 else 0;
    var high := b + 32 * top;
    Digits(w, 32, r, g + 32 * high);
    Digits(g + 32 * high, 32, g, high);
    Digits(high, 32, b, top);
    assert w / 1024 == w / 32 / 32;
  }

  /** An exactly encoded colour is shown exactly. */
  lemma {:induction false} ColorWordExact(p: Pixel)
    requires ColorWord(p, false).Some?
    ensures Color(ColorWord(p, false).value) == p
  {
    if p.alpha != 0 {
      PackedFields(Channel(p.red, false).value, Channel(p.green, false).value, Channel(p.blue, false).value, p.alpha == 128);
    } else {
      assert Level(0) == 0;
    }
  }

  /** Every colour a word shows passes the transparency rules. */
  lemma {:induction false} ColorsValid(w: half)
    ensures ValidAlpha(Color(w))
  {}

  lemma {:induction false} LevelBounds(v: nat)
    requires v < 32
    ensures -15 <= 31 * Level(v) - 255 * v <= 15
  {}

  lemma {:induction false} RoundedBounds(c: byte)
    ensures Rounded(c) < 32 && -127 <= 31 * c as int - 255 * Rounded(c) <= 127
  {}

  function Apart(x: nat, y: nat): nat { if x < y then y - x else x - y }

  /** Rounding picks the nearest of the thirty-two levels. */
  lemma {:induction false} RoundedNearest(c: byte, k: nat)
    requires k < 32
    ensures Rounded(c) < 32 && Apart(c, Level(Rounded(c))) <= Apart(c, Level(k))
  {
    var q := Rounded(c);
    RoundedBounds(c);
    LevelBounds(q);
    LevelBounds(k);
    var x: int, l: int, m: int := c, Level(q), Level(k);
    assert -142 <= 31 * x - 31 * l <= 142;
    assert -4 <= x - l <= 4;
    if q > k {
      assert 31 * x - 31 * m >= 113;
    } else if q < k {
      assert 31 * x - 31 * m <= -113;
    }
  }

  // ---- Cells ----

  function EncodeCell(mode: nat, p: Palette, policy: Policy, cell: seq<byte>, px: seq<Pixel>): (r: Option<seq<byte>>)
    requires Usable(mode, p) && |cell| == CellSize(mode) && |px| == CellPixels(mode)
    ensures r.Some? ==> |r.value| == |cell|
  {
    if mode == 0 then
      var low, high := Selected(p, cell[0] % 16, px[0], policy), Selected(p, cell[0] / 16, px[1], policy);
      if low.None? || high.None? then None else Some([low.value + 16 * high.value])
    else if mode == 1 then
      match Selected(p, cell[0], px[0], policy) case None => None case Some(i) => Some([i])
    else if mode == 2 then
      match WordFor(Half(cell, 0), px[0], policy) case None => None case Some(w) => Some(PackHalf(w))
    else if px[0].alpha != 255 then None
    else Some([px[0].red, px[0].green, px[0].blue])
  }

  /** A cell re-encoded from its own pixels stays as it is, under any policy. */
  lemma {:induction false} CellGetPut(mode: nat, p: Palette, policy: Policy, cell: seq<byte>)
    requires Usable(mode, p) && |cell| == CellSize(mode) && forall k | 0 <= k < |p| :: ValidAlpha(p[k])
    ensures EncodeCell(mode, p, policy, cell, DecodeCell(mode, p, cell)) == Some(cell)
  {
    if mode == 0 {
      assert cell[0] % 16 + 16 * (cell[0] / 16) == cell[0] && cell == [cell[0]];
    } else if mode == 1 {
      assert cell == [cell[0]];
    } else if mode == 2 {
      PackedHalf(cell);
    } else {
      assert cell == [cell[0], cell[1], cell[2]];
    }
  }

  lemma {:induction false} PackedHalf(cell: seq<byte>)
    requires |cell| == 2
    ensures PackHalf(Half(cell, 0)) == cell
  {}

  lemma {:induction false} SelectedShows(p: Palette, was: nat, pixel: Pixel)
    requires was < |p| && Selected(p, was, pixel, EXACT).Some?
    ensures p[Selected(p, was, pixel, EXACT).value] == pixel
  {}

  lemma {:induction false} WordShows(was: half, pixel: Pixel)
    requires WordFor(was, pixel, EXACT).Some?
    ensures Color(WordFor(was, pixel, EXACT).value) == pixel
  {
    if Color(was) != pixel { ColorWordExact(pixel); }
  }

  lemma {:induction false} PairShows(p: Palette, cell: byte, px: seq<Pixel>)
    requires |p| == 16 && |px| == 2 && Selected(p, cell % 16, px[0], EXACT).Some? && Selected(p, cell / 16, px[1], EXACT).Some?
    ensures var v := Selected(p, cell % 16, px[0], EXACT).value + 16 * Selected(p, cell / 16, px[1], EXACT).value;
            v < 256 && p[v % 16] == px[0] && p[v / 16] == px[1]
  {
    var low, high := Selected(p, cell % 16, px[0], EXACT).value, Selected(p, cell / 16, px[1], EXACT).value;
    SelectedShows(p, cell % 16, px[0]);
    SelectedShows(p, cell / 16, px[1]);
    Digits(low + 16 * high, 16, low, high);
  }

  /** A cell encoded exactly shows exactly the pixels it was given. */
  lemma {:induction false} CellPutGet(mode: nat, p: Palette, cell: seq<byte>, px: seq<Pixel>)
    requires Usable(mode, p) && |cell| == CellSize(mode) && |px| == CellPixels(mode)
    requires EncodeCell(mode, p, EXACT, cell, px).Some?
    ensures DecodeCell(mode, p, EncodeCell(mode, p, EXACT, cell, px).value) == px
  {
    if mode == 0 {
      PairShows(p, cell[0], px);
    } else if mode == 1 {
      SelectedShows(p, cell[0], px[0]);
    } else if mode == 2 {
      WordShows(Half(cell, 0), px[0]);
    }
  }

  // ---- Rows ----

  function EncodeCells(mode: nat, p: Palette, policy: Policy, row: seq<byte>, px: seq<Pixel>): (r: Option<seq<byte>>)
    requires Usable(mode, p)
    ensures r.Some? ==> |r.value| == |row|
    decreases |row|
  {
    var n, m := CellSize(mode), CellPixels(mode);
    if |row| < n then (if px == [] then Some(row) else None)
    else if |px| < m then None
    else
      var first, rest := EncodeCell(mode, p, policy, row[..n], px[..m]), EncodeCells(mode, p, policy, row[n..], px[m..]);
      if first.None? || rest.None? then None else Some(first.value + rest.value)
  }

  lemma {:induction false} RowGetPut(mode: nat, p: Palette, policy: Policy, row: seq<byte>)
    requires Usable(mode, p) && forall k | 0 <= k < |p| :: ValidAlpha(p[k])
    ensures EncodeCells(mode, p, policy, row, DecodeCells(mode, p, row)) == Some(row)
    decreases |row|
  {
    var n, m := CellSize(mode), CellPixels(mode);
    if |row| >= n {
      var px := DecodeCells(mode, p, row);
      assert px[..m] == DecodeCell(mode, p, row[..n]) && px[m..] == DecodeCells(mode, p, row[n..]);
      CellGetPut(mode, p, policy, row[..n]);
      RowGetPut(mode, p, policy, row[n..]);
      assert row[..n] + row[n..] == row;
    }
  }

  lemma {:induction false} RowPutGet(mode: nat, p: Palette, row: seq<byte>, px: seq<Pixel>)
    requires Usable(mode, p) && EncodeCells(mode, p, EXACT, row, px).Some?
    ensures DecodeCells(mode, p, EncodeCells(mode, p, EXACT, row, px).value) == px
    decreases |row|
  {
    var n, m := CellSize(mode), CellPixels(mode);
    if |row| >= n {
      var first, rest := EncodeCell(mode, p, EXACT, row[..n], px[..m]).value, EncodeCells(mode, p, EXACT, row[n..], px[m..]).value;
      CellPutGet(mode, p, row[..n], px[..m]);
      RowPutGet(mode, p, row[n..], px[m..]);
      assert (first + rest)[..n] == first && (first + rest)[n..] == rest;
      assert px[..m] + px[m..] == px;
    }
  }

  /** The bytes of a row that hold whole pixels. */
  function WholeBytes(mode: nat, n: nat): (w: nat)
    ensures w <= n
  {
    if mode < 2 then n else if mode == 2 then n - n % 2 else n - n % 3
  }

  lemma {:induction false} WholeNext(mode: nat, n: nat)
    requires n >= CellSize(mode)
    ensures WholeBytes(mode, n) == WholeBytes(mode, n - CellSize(mode)) + CellSize(mode)
  {
    if mode < 2 {} else if mode == 2 {} else {}
  }

  lemma {:induction false} TailOf(first: seq<byte>, rest: seq<byte>, w: nat)
    requires w <= |rest|
    ensures (first + rest)[w + |first|..] == rest[w..]
  {}

  /** What a row is too long by to hold another pixel is kept. */
  lemma {:induction false} RowPaddingKept(mode: nat, p: Palette, policy: Policy, row: seq<byte>, px: seq<Pixel>)
    requires Usable(mode, p) && EncodeCells(mode, p, policy, row, px).Some?
    ensures EncodeCells(mode, p, policy, row, px).value[WholeBytes(mode, |row|)..] == row[WholeBytes(mode, |row|)..]
    decreases |row|
  {
    var n, m := CellSize(mode), CellPixels(mode);
    if |row| >= n {
      RowPaddingKept(mode, p, policy, row[n..], px[m..]);
      var first, rest := EncodeCell(mode, p, policy, row[..n], px[..m]).value, EncodeCells(mode, p, policy, row[n..], px[m..]).value;
      WholeNext(mode, |row|);
      TailOf(first, rest, WholeBytes(mode, |row| - n));
      TailOf(row[..n], row[n..], WholeBytes(mode, |row| - n));
      assert row[..n] + row[n..] == row;
    }
  }

  // ---- When an exact encoding exists ----

  /** Without approximation a palette pixel is accepted exactly if the palette shows it. */
  lemma {:induction false} SelectedIff(p: Palette, was: nat, pixel: Pixel)
    requires was < |p|
    ensures Selected(p, was, pixel, EXACT).Some? <==> ValidAlpha(pixel) && pixel in p
  {}

  /** With approximation it is accepted exactly if the palette has its transparency at all, and gets the nearest such colour. */
  lemma {:induction false} NearestSelected(p: Palette, was: nat, pixel: Pixel)
    requires was < |p|
    ensures var r := Selected(p, was, pixel, Policy(true, false));
            && (r.Some? <==> ValidAlpha(pixel) && exists k :: 0 <= k < |p| && p[k].alpha == pixel.alpha)
            && (r.Some? ==> p[r.value] == pixel || IsNearest(p, pixel, r.value))
  {
    assert p[..|p|] == p;
    if pixel in p {
      var k :| 0 <= k < |p| && p[k] == pixel;
      assert p[k].alpha == pixel.alpha;
    }
  }

  lemma {:induction false} LevelInjective(v: nat, w: nat)
    requires v < 32 && w < 32 && Level(v) == Level(w)
    ensures v == w
  {
    LevelBounds(v);
    LevelBounds(w);
  }

  lemma {:induction false} ChannelFound(v: nat)
    requires v < 32
    ensures Channel(Level(v), false) == Some(v)
  {
    var r := FindLevel(Level(v), 0);
    if r.Some? { LevelInjective(r.value, v); }
  }

  lemma {:induction false} FieldsPack(w: half)
    ensures Packed(Red(w), Green(w), Blue(w), w >= 0x8000) == w
  {
    assert w / 1024 == w / 32 / 32 && w / 1024 / 32 == w / 0x8000;
  }

  /** Without approximation a direct pixel is accepted exactly if some word shows it. */
  lemma {:induction false} WordIff(was: half, pixel: Pixel)
    ensures WordFor(was, pixel, EXACT).Some? <==> exists w: half :: Color(w) == pixel
  {
    if WordFor(was, pixel, EXACT).Some? {
      WordShows(was, pixel);
      assert Color(WordFor(was, pixel, EXACT).value) == pixel;
    }
    forall w: half | Color(w) == pixel ensures WordFor(was, pixel, EXACT).Some? {
      ColorsValid(w);
      ChannelFound(Red(w));
      ChannelFound(Green(w));
      ChannelFound(Blue(w));
      FieldsPack(w);
    }
  }

  lemma {:induction false} SelectedWhen(p: Palette, was: nat, pixel: Pixel, policy: Policy)
    requires was < |p|
    ensures Selected(p, was, pixel, policy).Some? <==>
            ValidAlpha(pixel) && (pixel in p || (policy.nearestPalette && exists k :: 0 <= k < |p| && p[k].alpha == pixel.alpha))
  {
    assert p[..|p|] == p;
  }

  lemma {:induction false} QuantizedChannel(c: byte)
    ensures Channel(c, true).Some? && (Channel(c, true).value == 0 <==> c <= 4)
  {
    var r := FindLevel(c, 0);
    assert Level(0) == 0;
    if r.Some? { LevelBounds(r.value); }
  }

  lemma {:induction false} ShownIsBright(w: half)
    requires Color(w).alpha == 255
    ensures Color(w).red > 4 || Color(w).green > 4 || Color(w).blue > 4
  {
    FieldsPack(w);
    LevelBounds(Red(w));
    LevelBounds(Green(w));
    LevelBounds(Blue(w));
  }

  /** With rounding a direct pixel is accepted exactly if its transparency is valid and it is not an opaque near-black. */
  lemma {:induction false} QuantizedIff(was: half, pixel: Pixel, policy: Policy)
    requires policy.quantize
    ensures WordFor(was, pixel, policy).Some? <==>
            ValidAlpha(pixel) && (pixel.alpha == 255 ==> pixel.red > 4 || pixel.green > 4 || pixel.blue > 4)
  {
    QuantizedChannel(pixel.red);
    QuantizedChannel(pixel.green);
    QuantizedChannel(pixel.blue);
    if Color(was) == pixel {
      ColorsValid(was);
      if pixel.alpha == 255 { ShownIsBright(was); }
    }
  }

  /** Whether a pixel can be written at all, wherever it stands and whatever stood there. */
  ghost predicate Encodable(mode: nat, p: Palette, policy: Policy, pixel: Pixel) {
    if mode < 2 then ValidAlpha(pixel) && (pixel in p || (policy.nearestPalette && exists k :: 0 <= k < |p| && p[k].alpha == pixel.alpha))
    else if mode == 2 then
      if policy.quantize then ValidAlpha(pixel) && (pixel.alpha == 255 ==> pixel.red > 4 || pixel.green > 4 || pixel.blue > 4)
      else exists w: half :: Color(w) == pixel
    else pixel.alpha == 255
  }

  ghost predicate AllEncodable(mode: nat, p: Palette, policy: Policy, px: seq<Pixel>) {
    forall k | 0 <= k < |px| :: Encodable(mode, p, policy, px[k])
  }

  lemma {:induction false} CellIff(mode: nat, p: Palette, policy: Policy, cell: seq<byte>, px: seq<Pixel>)
    requires Usable(mode, p) && |cell| == CellSize(mode) && |px| == CellPixels(mode)
    ensures EncodeCell(mode, p, policy, cell, px).Some? <==> AllEncodable(mode, p, policy, px)
  {
    if mode == 0 {
      SelectedWhen(p, cell[0] % 16, px[0], policy);
      SelectedWhen(p, cell[0] / 16, px[1], policy);
    } else if mode == 1 {
      SelectedWhen(p, cell[0], px[0], policy);
    } else if mode == 2 {
      if policy.quantize { QuantizedIff(Half(cell, 0), px[0], policy); } else { WordIff(Half(cell, 0), px[0]); }
    }
  }

  lemma {:induction false} AllEncodableJoin(mode: nat, p: Palette, policy: Policy, a: seq<Pixel>, b: seq<Pixel>)
    ensures AllEncodable(mode, p, policy, a + b) <==> AllEncodable(mode, p, policy, a) && AllEncodable(mode, p, policy, b)
  {
    if AllEncodable(mode, p, policy, a + b) {
      forall k | 0 <= k < |a| ensures Encodable(mode, p, policy, a[k]) { assert (a + b)[k] == a[k]; }
      forall k | 0 <= k < |b| ensures Encodable(mode, p, policy, b[k]) { assert (a + b)[|a| + k] == b[k]; }
    }
  }

  /** A row can be written exactly if it has the right length and every pixel of it can. */
  lemma {:induction false} RowIff(mode: nat, p: Palette, policy: Policy, row: seq<byte>, px: seq<Pixel>)
    requires Usable(mode, p) && |px| == |row| / CellSize(mode) * CellPixels(mode)
    ensures EncodeCells(mode, p, policy, row, px).Some? <==> AllEncodable(mode, p, policy, px)
    decreases |row|
  {
    var n, m := CellSize(mode), CellPixels(mode);
    if |row| >= n {
      assert |row| / n == (|row| - n) / n + 1;
      CellIff(mode, p, policy, row[..n], px[..m]);
      RowIff(mode, p, policy, row[n..], px[m..]);
      AllEncodableJoin(mode, p, policy, px[..m], px[m..]);
      assert px[..m] + px[m..] == px;
    } else {
      assert |row| / n == 0 && px == [];
    }
  }

  // ---- Images ----

  /** The new bytes of each row, where they exist. */
  function RowEncoder(data: seq<byte>, t: Image, p: Palette, policy: Policy, img: seq<seq<Pixel>>): nat -> Option<seq<byte>>
    requires Parsed(data, t) && Usable(t.mode, p) && |img| == t.image.height
  {
    (r: nat) => if r < t.image.height then EncodeCells(t.mode, p, policy, Row(data, t, r), img[r]) else None
  }

  ghost predicate Fits(t: Image, rows: nat -> Option<seq<byte>>) {
    forall r: nat :: rows(r).Some? ==> r < t.image.height && |rows(r).value| == RowBytes(t.image)
  }

  /** The data after the first n rows are replaced. */
  function RowsWritten(data: seq<byte>, t: Image, rows: nat -> Option<seq<byte>>, n: nat): (r: Option<seq<byte>>)
    requires Parsed(data, t)
    ensures r.Some? ==> |r.value| == |data|
    decreases n
  {
    if n == 0 then Some(data)
    else
      var before, row := RowsWritten(data, t, rows, n - 1), rows(n - 1);
      if before.None? || row.None? || RowAt(t, n - 1) + |row.value| > |data| then None
      else Some(Patched(before.value, RowAt(t, n - 1), row.value))
  }

  predicate HasSize(img: seq<seq<Pixel>>, width: nat, height: nat) {
    |img| == height && forall r | 0 <= r < |img| :: |img[r]| == width
  }

  /** What is asked of the texture and the picture before any pixel is looked at. */
  predicate Accepts(data: seq<byte>, t: Image, img: seq<seq<Pixel>>, policy: Policy) {
    && t.offset == 0 && t.size == |data| && HasSize(img, t.pixelWidth, t.image.height)
    && (policy.nearestPalette ==> t.mode < 2) && (policy.quantize ==> t.mode == 2)
    && (t.mode < 2 ==> t.paletteCount == 1)
  }

  function PaletteOf(data: seq<byte>, t: Image): (p: Palette)
    requires Parsed(data, t) && (t.mode < 2 ==> t.paletteCount == 1)
    ensures Usable(t.mode, p)
  {
    if t.mode < 2 then PaletteAt(data, t, 0) else []
  }

  function Reencoded(data: seq<byte>, img: seq<seq<Pixel>>, policy: Policy): Option<seq<byte>> {
    ParsedOf(data, 0);
    match Parse(data, 0)
    case None => None
    case Some(t) =>
      if !Accepts(data, t, img, policy) then None
      else RowsWritten(data, t, RowEncoder(data, t, PaletteOf(data, t), policy, img), t.image.height)
  }

  // ---- What stays and what changes ----

  /** The rows done hold their new bytes, and nothing else changed. */
  ghost predicate Rewritten(data: seq<byte>, out: seq<byte>, t: Image, rows: nat -> Option<seq<byte>>, n: nat)
    requires Parsed(data, t) && n <= t.image.height
  {
    && |out| == |data|
    && (forall b: nat | b < |data| && !(DataAt(t.image) <= b < EndOf(t.image)) :: out[b] == data[b])
    && forall r: nat | r < t.image.height ::
         if r < n then rows(r) == Some(Row(out, t, r)) else Row(out, t, r) == Row(data, t, r)
  }

  lemma {:induction false} RowPatched(out: seq<byte>, t: Image, r: nat, row: seq<byte>, r': nat)
    requires Parsed(out, t) && r < t.image.height && r' < t.image.height && |row| == RowBytes(t.image) && RowAt(t, r) + |row| <= |out|
    ensures Parsed(Patched(out, RowAt(t, r), row), t)
    ensures Row(Patched(out, RowAt(t, r), row), t, r') == if r' == r then row else Row(out, t, r')
  {
    RowInside(t, r);
    RowInside(t, r');
    if r < r' { RowsApart(t, r, r'); } else if r' < r { RowsApart(t, r', r); }
  }

  lemma {:induction false} RewrittenNext(data: seq<byte>, out: seq<byte>, t: Image, rows: nat -> Option<seq<byte>>, n: nat)
    requires Parsed(data, t) && n < t.image.height && Fits(t, rows) && Rewritten(data, out, t, rows, n)
    requires rows(n).Some? && RowAt(t, n) + RowBytes(t.image) <= |out|
    ensures Rewritten(data, Patched(out, RowAt(t, n), rows(n).value), t, rows, n + 1)
  {
    var row := rows(n).value;
    RowInside(t, n);
    forall r: nat | r < t.image.height ensures Row(Patched(out, RowAt(t, n), row), t, r) == if r == n then row else Row(out, t, r) {
      RowPatched(out, t, n, row, r);
    }
  }

  /** Writing fails only for want of a row, and leaves exactly the rows replaced. */
  lemma {:induction false} RowsRewritten(data: seq<byte>, t: Image, rows: nat -> Option<seq<byte>>, n: nat)
    requires Parsed(data, t) && n <= t.image.height && Fits(t, rows)
    ensures RowsWritten(data, t, rows, n).Some? <==> forall r: nat | r < n :: rows(r).Some?
    ensures RowsWritten(data, t, rows, n).Some? ==> Rewritten(data, RowsWritten(data, t, rows, n).value, t, rows, n)
    decreases n
  {
    if n > 0 {
      RowsRewritten(data, t, rows, n - 1);
      RowInside(t, n - 1);
      if RowsWritten(data, t, rows, n).Some? {
        RewrittenNext(data, RowsWritten(data, t, rows, n - 1).value, t, rows, n - 1);
      }
    }
  }

  lemma {:induction false} EncoderFits(data: seq<byte>, t: Image, p: Palette, policy: Policy, img: seq<seq<Pixel>>)
    requires Parsed(data, t) && Usable(t.mode, p) && |img| == t.image.height
    ensures Fits(t, RowEncoder(data, t, p, policy, img))
  {}

  lemma {:induction false} RowsEncode(data: seq<byte>, img: seq<seq<Pixel>>, policy: Policy, t: Image)
    requires Parse(data, 0) == Some(t) && Accepts(data, t, img, policy) && Parsed(data, t)
    ensures Reencoded(data, img, policy).Some? <==>
            forall r: nat | r < t.image.height :: EncodeCells(t.mode, PaletteOf(data, t), policy, Row(data, t, r), img[r]).Some?
  {
    EncoderFits(data, t, PaletteOf(data, t), policy, img);
    RowsRewritten(data, t, RowEncoder(data, t, PaletteOf(data, t), policy, img), t.image.height);
  }

  lemma {:induction false} RowOfPicture(data: seq<byte>, t: Image, p: Palette, policy: Policy, r: nat, px: seq<Pixel>)
    requires Parsed(data, t) && Usable(t.mode, p) && r < t.image.height && |px| == t.pixelWidth
    ensures EncodeCells(t.mode, p, policy, Row(data, t, r), px).Some? <==> AllEncodable(t.mode, p, policy, px)
  {
    RowLength(t.mode, p, Row(data, t, r));
    RowIff(t.mode, p, policy, Row(data, t, r), px);
  }

  /**
   * Under every policy re-encoding succeeds exactly if the texture and the picture fit together and every pixel can be
   * written: it is valid and in the palette (or has a colour of its transparency there), some word shows it (or it
   * rounds to one), or it is opaque.
   */
  lemma {:induction false} ReencodesIff(data: seq<byte>, img: seq<seq<Pixel>>, policy: Policy)
    ensures Reencoded(data, img, policy).Some? <==>
            Parse(data, 0).Some? && var t := Parse(data, 0).value;
            && Accepts(data, t, img, policy) && Parsed(data, t)
            && forall r: nat | r < t.image.height :: AllEncodable(t.mode, PaletteOf(data, t), policy, img[r])
  {
    ParsedOf(data, 0);
    if Parse(data, 0).Some? && Accepts(data, Parse(data, 0).value, img, policy) {
      var t := Parse(data, 0).value;
      var p := PaletteOf(data, t);
      RowsEncode(data, img, policy, t);
      forall r: nat | r < t.image.height
        ensures EncodeCells(t.mode, p, policy, Row(data, t, r), img[r]).Some? <==> AllEncodable(t.mode, p, policy, img[r])
      {
        RowOfPicture(data, t, p, policy, r, img[r]);
      }
    }
  }

  lemma {:induction false} SameBlock(data: seq<byte>, out: seq<byte>, offset: nat)
    requires |data| == |out| && (offset + 12 <= |data| ==> Agree(data, out, offset, offset + 12))
    ensures ParseBlock(data, offset) == ParseBlock(out, offset)
  {}

  /** Parsing looks at nothing behind the image header. */
  lemma {:induction false} SameLayout(data: seq<byte>, out: seq<byte>)
    requires |data| == |out| && Parse(data, 0).Some? && Agree(data, out, 0, DataAt(Parse(data, 0).value.image))
    ensures Parse(out, 0) == Parse(data, 0)
  {
    var t := Parse(data, 0).value;
    SameBlock(data, out, 8);
    SameBlock(data, out, t.image.offset);
  }

  lemma {:induction false} SamePalette(data: seq<byte>, out: seq<byte>, t: Image)
    requires Parsed(data, t) && Parsed(out, t) && (t.mode < 2 ==> t.paletteCount == 1) && Agree(data, out, 0, DataAt(t.image))
    ensures PaletteOf(data, t) == PaletteOf(out, t)
  {
    if t.mode < 2 { PaletteInside(t, 0); }
  }

  // ---- The lens laws ----

  lemma {:induction false} PaletteValid(data: seq<byte>, t: Image)
    requires Parsed(data, t) && (t.mode < 2 ==> t.paletteCount == 1)
    ensures forall k | 0 <= k < |PaletteOf(data, t)| :: ValidAlpha(PaletteOf(data, t)[k])
  {
    if t.mode < 2 {
      PaletteInside(t, 0);
      forall k | 0 <= k < Colors(t.mode) ensures ValidAlpha(PaletteOf(data, t)[k]) {
        ColorsValid(Half(data, DataAt(t.clut.value) + 0 * Colors(t.mode) * 2 + k * 2));
      }
    }
  }

  lemma {:induction false} PatchOwn(data: seq<byte>, at: nat, n: nat)
    requires at + n <= |data|
    ensures Patched(data, at, data[at..at + n]) == data
  {}

  lemma {:induction false} KeptRows(data: seq<byte>, t: Image, rows: nat -> Option<seq<byte>>, n: nat)
    requires Parsed(data, t) && n <= t.image.height && forall r: nat | r < t.image.height :: rows(r) == Some(Row(data, t, r))
    ensures RowsWritten(data, t, rows, n) == Some(data)
    decreases n
  {
    if n > 0 {
      KeptRows(data, t, rows, n - 1);
      RowInside(t, n - 1);
      PatchOwn(data, RowAt(t, n - 1), RowBytes(t.image));
    }
  }

  lemma {:induction false} OwnRows(data: seq<byte>, t: Image, p: Palette, policy: Policy)
    requires Parsed(data, t) && Usable(t.mode, p) && forall k | 0 <= k < |p| :: ValidAlpha(p[k])
    ensures RowsWritten(data, t, RowEncoder(data, t, p, policy, PixelRows(data, t, p)), t.image.height) == Some(data)
  {
    var rows := RowEncoder(data, t, p, policy, PixelRows(data, t, p));
    forall r: nat | r < t.image.height ensures rows(r) == Some(Row(data, t, r)) {
      RowGetPut(t.mode, p, policy, Row(data, t, r));
    }
    KeptRows(data, t, rows, t.image.height);
  }

  /** Re-encoding a texture's own decoded pixels gives back the identical bytes. */
  lemma {:induction false} GetPut(data: seq<byte>, t: Image)
    requires Parse(data, 0) == Some(t) && t.size == |data|
    ensures Parsed(data, t)
    ensures (t.mode < 2 ==> t.paletteCount == 1) ==>
              Decoded(data, t, 0).Some? && Reencoded(data, Decoded(data, t, 0).value, EXACT) == Some(data)
  {
    ParsedOf(data, 0);
    if t.mode < 2 ==> t.paletteCount == 1 {
      PaletteValid(data, t);
      DecodedSize(data, t, 0);
      OwnRows(data, t, PaletteOf(data, t), EXACT);
      assert Decoded(data, t, 0) == Some(PixelRows(data, t, PaletteOf(data, t)));
    }
  }

  /** A successful exact re-encoding has the same layout and shows exactly the given pixels. */
  lemma {:induction false} PutGet(data: seq<byte>, img: seq<seq<Pixel>>)
    requires Reencoded(data, img, EXACT).Some?
    ensures var out, t := Reencoded(data, img, EXACT).value, Parse(data, 0).value;
            Parse(out, 0) == Some(t) && Parsed(out, t) && Decoded(out, t, 0) == Some(img)
  {
    var t, out := Parse(data, 0).value, Reencoded(data, img, EXACT).value;
    ParsedOf(data, 0);
    var p := PaletteOf(data, t);
    EncoderFits(data, t, p, EXACT, img);
    RowsRewritten(data, t, RowEncoder(data, t, p, EXACT, img), t.image.height);
    LayoutKept(data, img, EXACT);
    RowsShow(data, out, t, p, img);
  }

  lemma {:induction false} RowsShow(data: seq<byte>, out: seq<byte>, t: Image, p: Palette, img: seq<seq<Pixel>>)
    requires Parsed(data, t) && Parsed(out, t) && Usable(t.mode, p) && |img| == t.image.height
    requires Rewritten(data, out, t, RowEncoder(data, t, p, EXACT, img), t.image.height)
    ensures PixelRows(out, t, p) == img
  {
    forall r: nat | r < t.image.height ensures PixelRows(out, t, p)[r] == img[r] {
      assert RowEncoder(data, t, p, EXACT, img)(r) == Some(Row(out, t, r));
      RowPutGet(t.mode, p, Row(data, t, r), img[r]);
    }
  }

  lemma {:induction false} RewrittenKeeps(data: seq<byte>, out: seq<byte>, t: Image, rows: nat -> Option<seq<byte>>)
    requires Parse(data, 0) == Some(t) && Parsed(data, t) && Rewritten(data, out, t, rows, t.image.height)
    ensures |out| == |data| && Parse(out, 0) == Some(t) && Parsed(out, t)
    ensures (t.mode < 2 ==> t.paletteCount == 1) ==> PaletteOf(out, t) == PaletteOf(data, t)
  {
    SameLayout(data, out);
    ParsedOf(out, 0);
    if t.mode < 2 ==> t.paletteCount == 1 { SamePalette(data, out, t); }
  }

  /** Under any policy: same size, same layout, same palette, and no byte outside the image section changes. */
  lemma {:induction false} LayoutKept(data: seq<byte>, img: seq<seq<Pixel>>, policy: Policy)
    requires Reencoded(data, img, policy).Some?
    ensures var out, t := Reencoded(data, img, policy).value, Parse(data, 0).value;
            && |out| == |data| && Parse(out, 0) == Some(t) && Parsed(data, t) && Parsed(out, t)
            && (t.mode < 2 ==> t.paletteCount == 1) && PaletteOf(out, t) == PaletteOf(data, t)
            && forall b: nat | b < |data| && !(DataAt(t.image) <= b < EndOf(t.image)) :: out[b] == data[b]
  {
    var t, out := Parse(data, 0).value, Reencoded(data, img, policy).value;
    ParsedOf(data, 0);
    EncoderFits(data, t, PaletteOf(data, t), policy, img);
    RowsRewritten(data, t, RowEncoder(data, t, PaletteOf(data, t), policy, img), t.image.height);
    RewrittenKeeps(data, out, t, RowEncoder(data, t, PaletteOf(data, t), policy, img));
  }

  /** Of each row the bytes that hold no whole pixel stay as they are. */
  lemma {:induction false} RowTailsKept(data: seq<byte>, img: seq<seq<Pixel>>, policy: Policy, r: nat)
    requires Reencoded(data, img, policy).Some? && r < Parse(data, 0).value.image.height
    ensures var out, t := Reencoded(data, img, policy).value, Parse(data, 0).value;
            && Parsed(data, t) && Parsed(out, t)
            && Row(out, t, r)[WholeBytes(t.mode, RowBytes(t.image))..] == Row(data, t, r)[WholeBytes(t.mode, RowBytes(t.image))..]
  {
    var t, out := Parse(data, 0).value, Reencoded(data, img, policy).value;
    LayoutKept(data, img, policy);
    EncoderFits(data, t, PaletteOf(data, t), policy, img);
    RowsRewritten(data, t, RowEncoder(data, t, PaletteOf(data, t), policy, img), t.image.height);
    RowPaddingKept(t.mode, PaletteOf(data, t), policy, Row(data, t, r), img[r]);
  }

  // ---- In place ----

  method NearestIndex(p: Palette, color: Pixel) returns (r: Option<nat>)
    ensures r == NearestOf(p, color, |p|)
  {
    r := None;
    for i := 0 to |p|
      invariant r == NearestOf(p, color, i)
    {
      if p[i].alpha == color.alpha && (r.None? || Distance(color, p[i]) < Distance(color, p[r.value])) { r := Some(i); }
    }
  }

  method MapIndex(p: Palette, was: nat, pixel: Pixel, policy: Policy) returns (r: Option<nat>)
    requires was < |p|
    ensures r == Selected(p, was, pixel, policy)
  {
    if !ValidAlpha(pixel) {
      return None;
    }
    if p[was] == pixel {
      return Some(was);
    }
    if pixel in p {
      return Some(FirstIndex(p, pixel));
    }
    if policy.nearestPalette {
      r := NearestIndex(p, pixel);
      return;
    }
    return None;
  }

  method MapCell(mode: nat, p: Palette, policy: Policy, cell: seq<byte>, px: seq<Pixel>) returns (r: Option<seq<byte>>)
    requires Usable(mode, p) && |cell| == CellSize(mode) && |px| == CellPixels(mode)
    ensures r == EncodeCell(mode, p, policy, cell, px)
  {
    if mode == 0 {
      var low := MapIndex(p, cell[0] % 16, px[0], policy);
      var high := MapIndex(p, cell[0] / 16, px[1], policy);
      return if low.None? || high.None? then None else Some([low.value + 16 * high.value]);
    }
    if mode == 1 {
      var i := MapIndex(p, cell[0], px[0], policy);
      return if i.None? then None else Some([i.value]);
    }
    return EncodeCell(mode, p, policy, cell, px);
  }

  lemma {:induction false} FinishedStep(mode: nat, p: Palette, policy: Policy, row: seq<byte>, px: seq<Pixel>, done: seq<byte>)
    requires Usable(mode, p) && |row| >= CellSize(mode) && |px| >= CellPixels(mode)
    ensures var n, m := CellSize(mode), CellPixels(mode);
            var cell := EncodeCell(mode, p, policy, row[..n], px[..m]);
            Joined(Some(done), EncodeCells(mode, p, policy, row, px)) ==
            if cell.None? then None else Joined(Some(done + cell.value), EncodeCells(mode, p, policy, row[n..], px[m..]))
  {
    var n, m := CellSize(mode), CellPixels(mode);
    var cell, rest := EncodeCell(mode, p, policy, row[..n], px[..m]), EncodeCells(mode, p, policy, row[n..], px[m..]);
    if cell.Some? && rest.Some? { assert done + (cell.value + rest.value) == (done + cell.value) + rest.value; }
  }

  method MapRow(mode: nat, p: Palette, policy: Policy, row: seq<byte>, px: seq<Pixel>) returns (r: Option<seq<byte>>)
    requires Usable(mode, p)
    ensures r == EncodeCells(mode, p, policy, row, px)
  {
    var n, m := CellSize(mode), CellPixels(mode);
    var done: seq<byte>, left, pixels := [], row, px;
    JoinedEmpty(EncodeCells(mode, p, policy, row, px));
    while |left| >= n
      invariant EncodeCells(mode, p, policy, row, px) == Joined(Some(done), EncodeCells(mode, p, policy, left, pixels))
      decreases |left|
    {
      if |pixels| < m {
        return None;
      }
      FinishedStep(mode, p, policy, left, pixels, done);
      var cell := MapCell(mode, p, policy, left[..n], pixels[..m]);
      if cell.None? {
        return None;
      }
      done, left, pixels := done + cell.value, left[n..], pixels[m..];
    }
    if pixels != [] {
      return None;
    }
    return Some(done + left);
  }

  method WriteBytes(output: array<byte>, at: nat, bytes: seq<byte>)
    requires at + |bytes| <= output.Length
    modifies output
    ensures output[..] == Patched(old(output[..]), at, bytes)
  {
    for j := 0 to |bytes|
      invariant forall b | 0 <= b < output.Length :: output[b] == if at <= b < at + j then bytes[b - at] else old(output[b])
    {
      output[at + j] := bytes[j];
    }
  }

  method WriteRow(output: array<byte>, data: seq<byte>, t: Image, row: seq<byte>, r: nat, ghost rows: nat -> Option<seq<byte>>)
    requires Parsed(data, t) && r < t.image.height && rows(r) == Some(row) && |row| == RowBytes(t.image)
    requires RowsWritten(data, t, rows, r) == Some(output[..])
    modifies output
    ensures RowsWritten(data, t, rows, r + 1) == Some(output[..])
  {
    RowInside(t, r);
    WriteBytes(output, RowAt(t, r), row);
  }

  /** Maps every row before any is written. */
  method MapRows(data: seq<byte>, t: Image, p: Palette, policy: Policy, img: seq<seq<Pixel>>) returns (r: Option<seq<seq<byte>>>)
    requires Parsed(data, t) && Usable(t.mode, p) && |img| == t.image.height
    ensures r.Some? ==> |r.value| == t.image.height && forall k: nat | k < t.image.height :: RowEncoder(data, t, p, policy, img)(k) == Some(r.value[k])
    ensures r.None? ==> exists k: nat :: k < t.image.height && RowEncoder(data, t, p, policy, img)(k).None?
  {
    ghost var encoder := RowEncoder(data, t, p, policy, img);
    var done: seq<seq<byte>> := [];
    for k := 0 to t.image.height
      invariant |done| == k && forall j: nat | j < k :: encoder(j) == Some(done[j])
    {
      var row := MapRow(t.mode, p, policy, Row(data, t, k), img[k]);
      assert encoder(k) == row;
      if row.None? {
        return None;
      }
      done := done + [row.value];
    }
    return Some(done);
  }

  method WriteRows(output: array<byte>, data: seq<byte>, t: Image, list: seq<seq<byte>>, ghost rows: nat -> Option<seq<byte>>)
    requires Parsed(data, t) && |list| == t.image.height && output[..] == data && Fits(t, rows)
    requires forall k: nat | k < |list| :: rows(k) == Some(list[k])
    modifies output
    ensures RowsWritten(data, t, rows, t.image.height) == Some(output[..])
  {
    for r := 0 to |list|
      invariant RowsWritten(data, t, rows, r) == Some(output[..])
    {
      assert rows(r) == Some(list[r]);
      WriteRow(output, data, t, list[r], r, rows);
    }
  }

  /** The internal check of the finished texture never fails. */
  method Reencode(data: seq<byte>, img: seq<seq<Pixel>>, policy: Policy) returns (r: Option<seq<byte>>)
    ensures r == Reencoded(data, img, policy)
  {
    var t := Parse(data, 0);
    ParsedOf(data, 0);
    if t.None? || !Accepts(data, t.value, img, policy) {
      return None;
    }
    var output := new byte[|data|](i requires 0 <= i < |data| => data[i]);
    assert output[..] == data;
    var p := PaletteOf(data, t.value);
    EncoderFits(data, t.value, p, policy, img);
    RowsRewritten(data, t.value, RowEncoder(data, t.value, p, policy, img), t.value.image.height);
    var list := MapRows(data, t.value, p, policy, img);
    if list.None? {
      return None;
    }
    WriteRows(output, data, t.value, list.value, RowEncoder(data, t.value, p, policy, img));
    LayoutKept(data, img, policy);
    var check := Parse(output[..], 0);
    if check != t {
      return None;
    }
    return Some(output[..]);
  }
}
