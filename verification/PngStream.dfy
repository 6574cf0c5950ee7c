/** PNG files: chunks, their order, and the rows they carry (tools/tim_import.py, tools/tim_tool.py). */
module PngStream {
  import opened Options
  import opened Bytes
  import opened Png

  const CAP := 256 * 1024 * 1024

  /** The check sum and the compressor, of which only their being inverse to each other is used. */
  datatype Codec = Codec(crc: seq<byte> -> word, deflate: seq<byte> -> seq<byte>, inflate: seq<byte> -> Option<seq<byte>>)

  ghost predicate Inverse(z: Codec) {
    forall raw :: z.inflate(z.deflate(raw)) == Some(raw)
  }

  // ---- Big-endian words ----

  function Big(p: seq<byte>, at: nat): word
    requires at + 4 <= |p|
  {
    p[at] as int * 0x1000000 + p[at + 1] as int * 0x10000 + p[at + 2] as int * 0x100 + p[at + 3] as int
  }

  function PackBig(v: word): (p: seq<byte>)
    ensures |p| == 4 && Big(p, 0) == v
  {
    var w := PackWord(v);
    [w[3], w[2], w[1], w[0]]
  }

  lemma {:induction false} BigInPlace(p: seq<byte>, at: nat, v: word)
    requires Holds(p, at, PackBig(v))
    ensures at + 4 <= |p| && Big(p, at) == v
  {
    var q := PackBig(v);
    assert q[0] == p[at + 0] && q[1] == p[at + 1] && q[2] == p[at + 2] && q[3] == p[at + 3];
  }

  lemma {:induction false} BigWritten(p: seq<byte>, at: nat)
    requires at + 4 <= |p|
    ensures Holds(p, at, PackBig(Big(p, at)))
  {
    var w := [p[at + 3], p[at + 2], p[at + 1], p[at]];
    PackOfWord(w, 0);
    assert PackWord(Big(p, at)) == w[0..4] == w;
  }

  // ---- Chunks ----

  datatype Chunk = Chunk(kind: seq<byte>, body: seq<byte>)

  predicate IsLetter(b: byte) { 65 <= b <= 90 || 97 <= b <= 122 }

  /** Four letters, the third of them a capital. */
  predicate ValidKind(kind: seq<byte>) {
    |kind| == 4 && IsLetter(kind[0]) && IsLetter(kind[1]) && IsLetter(kind[2]) && IsLetter(kind[3]) && kind[2] / 32 % 2 == 0
  }

  predicate ValidChunk(c: Chunk) { ValidKind(c.kind) && |c.body| < 0x1_0000_0000 }

  function ChunkBytes(z: Codec, c: Chunk): (b: seq<byte>)
    requires ValidChunk(c)
    ensures |b| == 12 + |c.body|
  {
    PackBig(|c.body|) + (c.kind + (c.body + PackBig(z.crc(c.kind + c.body))))
  }

  function ParseChunk(z: Codec, data: seq<byte>, pos: nat): (r: Option<Chunk>)
    ensures r.Some? ==> ValidChunk(r.value) && pos + 12 + |r.value.body| <= |data|
  {
    if pos + 12 > |data| then None
    else
      var length := Big(data, pos);
      if pos + 12 + length > |data| then None
      else
        var c := Chunk(data[pos + 4..pos + 8], data[pos + 8..pos + 8 + length]);
        if !ValidKind(c.kind) || Big(data, pos + 8 + length) != z.crc(c.kind + c.body) then None else Some(c)
  }

  lemma {:induction false} ChunkRead(z: Codec, data: seq<byte>, pos: nat, c: Chunk)
    requires ValidChunk(c) && Holds(data, pos, ChunkBytes(z, c))
    ensures ParseChunk(z, data, pos) == Some(c)
  {
    var sum := PackBig(z.crc(c.kind + c.body));
    HoldsPart(data, pos, PackBig(|c.body|), c.kind + (c.body + sum));
    HoldsPart(data, pos + 4, c.kind, c.body + sum);
    HoldsPart(data, pos + 8, c.body, sum);
    BigInPlace(data, pos, |c.body|);
    BigInPlace(data, pos + 8 + |c.body|, z.crc(c.kind + c.body));
    HoldsSlice(data, pos + 4, c.kind);
    HoldsSlice(data, pos + 8, c.body);
  }

  lemma {:induction false} ChunkWritten(z: Codec, data: seq<byte>, pos: nat)
    requires ParseChunk(z, data, pos).Some?
    ensures Holds(data, pos, ChunkBytes(z, ParseChunk(z, data, pos).value))
  {
    var c := ParseChunk(z, data, pos).value;
    var sum := PackBig(z.crc(c.kind + c.body));
    BigWritten(data, pos);
    HoldsSlice(data, pos + 4, c.kind);
    HoldsSlice(data, pos + 8, c.body);
    BigWritten(data, pos + 8 + |c.body|);
    HoldsJoined(data, pos + 8, c.body, sum);
    HoldsJoined(data, pos + 4, c.kind, c.body + sum);
    HoldsJoined(data, pos, PackBig(|c.body|), c.kind + (c.body + sum));
  }

  const IHDR: seq<byte> := [73, 72, 68, 82]
  const IDAT: seq<byte> := [73, 68, 65, 84]
  const IEND: seq<byte> := [73, 69, 78, 68]
  const ANIMATION: seq<seq<byte>> := [[97, 99, 84, 76], [102, 99, 84, 76], [102, 100, 65, 84]]
  const SIGNATURE: seq<byte> := [0x89, 80, 78, 71, 13, 10, 26, 10]

  ghost predicate ValidChunks(cs: seq<Chunk>) { forall k | 0 <= k < |cs| :: ValidChunk(cs[k]) }

  function ChunksBytes(z: Codec, cs: seq<Chunk>): seq<byte>
    requires ValidChunks(cs)
  {
    if cs == [] then [] else ChunkBytes(z, cs[0]) + ChunksBytes(z, cs[1..])
  }

  function Parser(z: Codec, data: seq<byte>): nat -> Option<Chunk> { (pos: nat) => ParseChunk(z, data, pos) }

  /** The chunks up to the end marker, behind which nothing may follow. */
  function ParseChunks(parse: nat -> Option<Chunk>, size: nat, pos: nat): Option<seq<Chunk>>
    decreases size - pos
  {
    match parse(pos)
    case None => None
    case Some(c) =>
      var next := pos + 12 + |c.body|;
      if next > size then None
      else if c.kind == IEND then (if next == size then Some([c]) else None)
      else match ParseChunks(parse, size, next)
        case None => None
        case Some(rest) => Some([c] + rest)
  }

  /** Only the last chunk is an end marker. */
  predicate Ended(cs: seq<Chunk>) {
    cs != [] && cs[|cs| - 1].kind == IEND && forall k | 0 <= k < |cs| - 1 :: cs[k].kind != IEND
  }

  lemma {:induction false} FirstChunk(z: Codec, data: seq<byte>, pos: nat, cs: seq<Chunk>)
    requires ValidChunks(cs) && cs != [] && Holds(data, pos, ChunksBytes(z, cs))
    ensures ParseChunk(z, data, pos) == Some(cs[0]) && Holds(data, pos + 12 + |cs[0].body|, ChunksBytes(z, cs[1..]))
    ensures |ChunksBytes(z, cs)| == 12 + |cs[0].body| + |ChunksBytes(z, cs[1..])|
  {
    HoldsPart(data, pos, ChunkBytes(z, cs[0]), ChunksBytes(z, cs[1..]));
    ChunkRead(z, data, pos, cs[0]);
  }

  lemma {:induction false} EndedRest(cs: seq<Chunk>)
    requires Ended(cs)
    ensures if |cs| == 1 then cs[0].kind == IEND && cs == [cs[0]] && cs[1..] == [] else cs[0].kind != IEND && Ended(cs[1..]) && cs == [cs[0]] + cs[1..]
  {}

  /** The parser meets the chunks one behind the other from pos to the end. */
  ghost predicate Meets(parse: nat -> Option<Chunk>, size: nat, pos: nat, cs: seq<Chunk>)
    decreases |cs|
  {
    if cs == [] then pos == size
    else parse(pos) == Some(cs[0]) && pos + 12 + |cs[0].body| <= size && Meets(parse, size, pos + 12 + |cs[0].body|, cs[1..])
  }

  lemma {:induction false} ChunksMet(z: Codec, data: seq<byte>, pos: nat, cs: seq<Chunk>)
    requires ValidChunks(cs) && Holds(data, pos, ChunksBytes(z, cs)) && pos + |ChunksBytes(z, cs)| == |data|
    ensures Meets(Parser(z, data), |data|, pos, cs)
    decreases |cs|
  {
    if cs != [] {
      FirstChunk(z, data, pos, cs);
      ChunksMet(z, data, pos + 12 + |cs[0].body|, cs[1..]);
    }
  }

  lemma {:induction false} MetParsed(parse: nat -> Option<Chunk>, size: nat, pos: nat, cs: seq<Chunk>)
    requires Ended(cs) && Meets(parse, size, pos, cs)
    ensures ParseChunks(parse, size, pos) == Some(cs)
    decreases |cs|
  {
    EndedRest(cs);
    if |cs| > 1 { MetParsed(parse, size, pos + 12 + |cs[0].body|, cs[1..]); }
  }

  lemma {:induction false} ChunksRead(z: Codec, data: seq<byte>, pos: nat, cs: seq<Chunk>)
    requires ValidChunks(cs) && Ended(cs) && Holds(data, pos, ChunksBytes(z, cs)) && pos + |ChunksBytes(z, cs)| == |data|
    ensures ParseChunks(Parser(z, data), |data|, pos) == Some(cs)
  {
    ChunksMet(z, data, pos, cs);
    MetParsed(Parser(z, data), |data|, pos, cs);
  }

  lemma {:induction false} ParsedMet(parse: nat -> Option<Chunk>, size: nat, pos: nat)
    requires ParseChunks(parse, size, pos).Some?
    ensures Ended(ParseChunks(parse, size, pos).value) && Meets(parse, size, pos, ParseChunks(parse, size, pos).value)
    decreases size - pos
  {
    var c := parse(pos).value;
    if c.kind == IEND {
      assert [c][1..] == [];
    } else {
      ParsedMet(parse, size, pos + 12 + |c.body|);
      var rest := ParseChunks(parse, size, pos + 12 + |c.body|).value;
      EndedMore(c, rest);
    }
  }

  lemma {:induction false} EndedMore(c: Chunk, cs: seq<Chunk>)
    requires Ended(cs) && c.kind != IEND
    ensures Ended([c] + cs) && ([c] + cs)[1..] == cs
  {
    var all := [c] + cs;
    forall k | 0 <= k < |all| - 1 ensures all[k].kind != IEND { if k > 0 { assert all[k] == cs[k - 1]; } }
  }

  lemma {:induction false} FirstWritten(z: Codec, data: seq<byte>, pos: nat, c: Chunk)
    requires Parser(z, data)(pos) == Some(c)
    ensures ValidChunk(c) && Holds(data, pos, ChunkBytes(z, c))
  {
    ChunkWritten(z, data, pos);
  }

  lemma {:induction false} MetWritten(z: Codec, data: seq<byte>, pos: nat, cs: seq<Chunk>)
    requires Meets(Parser(z, data), |data|, pos, cs)
    ensures ValidChunks(cs) && Holds(data, pos, ChunksBytes(z, cs)) && pos + |ChunksBytes(z, cs)| == |data|
    decreases |cs|
  {
    if cs != [] {
      MetWritten(z, data, pos + 12 + |cs[0].body|, cs[1..]);
      FirstWritten(z, data, pos, cs[0]);
      ChunksJoined(z, data, pos, cs[0], cs[1..]);
      assert [cs[0]] + cs[1..] == cs;
    }
  }

  lemma {:induction false} ChunksWritten(z: Codec, data: seq<byte>, pos: nat)
    requires ParseChunks(Parser(z, data), |data|, pos).Some?
    ensures var cs := ParseChunks(Parser(z, data), |data|, pos).value;
            ValidChunks(cs) && Ended(cs) && Holds(data, pos, ChunksBytes(z, cs)) && pos + |ChunksBytes(z, cs)| == |data|
  {
    ParsedMet(Parser(z, data), |data|, pos);
    MetWritten(z, data, pos, ParseChunks(Parser(z, data), |data|, pos).value);
  }

  lemma {:induction false} ChunksJoined(z: Codec, data: seq<byte>, pos: nat, c: Chunk, cs: seq<Chunk>)
    requires ValidChunk(c) && ValidChunks(cs)
    requires Holds(data, pos, ChunkBytes(z, c)) && Holds(data, pos + 12 + |c.body|, ChunksBytes(z, cs))
    requires pos + 12 + |c.body| + |ChunksBytes(z, cs)| == |data|
    ensures ValidChunks([c] + cs) && Holds(data, pos, ChunksBytes(z, [c] + cs))
    ensures pos + |ChunksBytes(z, [c] + cs)| == |data|
  {
    assert ([c] + cs)[1..] == cs;
    HoldsJoined(data, pos, ChunkBytes(z, c), ChunksBytes(z, cs));
  }

  // ---- The order of chunks ----

  datatype Size = Size(width: nat, height: nat)

  /** What the caller expects of the dimensions, if anything. */
  datatype Expected = Expected(width: Option<nat>, height: Option<nat>)

  function HeaderBody(width: word, height: word): (b: seq<byte>)
    ensures |b| == 13
  {
    PackBig(width) + (PackBig(height) + [8, 6, 0, 0, 0])
  }

  predicate Fits(size: Size) {
    size.width * size.height * 4 <= CAP && size.height * (size.width * 4 + 1) <= CAP
  }

  predicate AsExpected(size: Size, e: Expected) {
    (e.width.Some? ==> e.width.value == size.width) && (e.height.Some? ==> e.height.value == size.height)
  }

  /** A header for eight-bit RGBA without interlace, of the expected and a manageable size. */
  function ReadHeader(body: seq<byte>, e: Expected): Option<Size> {
    if |body| != 13 then None
    else
      var size := Size(Big(body, 0), Big(body, 4));
      if size.width == 0 || size.height == 0 || body[8..] != [8, 6, 0, 0, 0] || !AsExpected(size, e) || !Fits(size) then None
      else Some(size)
  }

  predicate IsCritical(kind: seq<byte>) { kind != [] && kind[0] / 32 % 2 == 0 }

  /** A chunk a decoder may skip. */
  predicate IsExtra(c: Chunk) {
    c.kind != IHDR && c.kind != IDAT && c.kind != IEND && c.kind !in ANIMATION && !IsCritical(c.kind)
  }

  datatype State = State(size: Option<Size>, seenData: bool, endedData: bool, compressed: seq<byte>)

  const START := State(None, false, false, [])

  function Next(s: State, c: Chunk, e: Expected): Option<State> {
    if s.size.None? && c.kind != IHDR then None
    else if c.kind == IHDR then
      if s.size.Some? then None
      else match ReadHeader(c.body, e)
        case None => None
        case Some(size) => Some(s.(size := Some(size)))
    else if c.kind == IDAT then
      if s.endedData then None else Some(s.(seenData := true, compressed := s.compressed + c.body))
    else if c.kind == IEND then
      if c.body != [] || !s.seenData then None else Some(s)
    else if c.kind in ANIMATION || IsCritical(c.kind) then None
    else Some(s.(endedData := s.endedData || s.seenData))
  }

  function Fold(s: State, cs: seq<Chunk>, e: Expected): Option<State>
    decreases |cs|
  {
    if cs == [] then Some(s)
    else match Next(s, cs[0], e)
      case None => None
      case Some(next) => Fold(next, cs[1..], e)
  }

  function Bodies(cs: seq<Chunk>): seq<byte> { if cs == [] then [] else cs[0].body + Bodies(cs[1..]) }

  predicate AllExtra(cs: seq<Chunk>) { forall k | 0 <= k < |cs| :: IsExtra(cs[k]) }

  predicate AllData(cs: seq<Chunk>) { forall k | 0 <= k < |cs| :: cs[k].kind == IDAT }

  /** Header, extras, data, extras, end: the only order there is. */
  datatype Layout = Layout(header: Chunk, before: seq<Chunk>, data: seq<Chunk>, after: seq<Chunk>, end: Chunk)

  function ChunksOf(l: Layout): seq<Chunk> { [l.header] + (l.before + (l.data + (l.after + [l.end]))) }

  predicate InOrder(l: Layout, e: Expected, size: Size) {
    && l.header.kind == IHDR && ReadHeader(l.header.body, e) == Some(size)
    && AllExtra(l.before) && l.data != [] && AllData(l.data) && AllExtra(l.after)
    && l.end.kind == IEND && l.end.body == []
  }

  lemma {:induction false} FoldJoined(s: State, a: seq<Chunk>, b: seq<Chunk>, e: Expected)
    ensures Fold(s, a + b, e) == if Fold(s, a, e).None? then None else Fold(Fold(s, a, e).value, b, e)
    decreases |a|
  {
    if a == [] {
      assert a + b == b;
    } else {
      assert (a + b)[1..] == a[1..] + b;
      match Next(s, a[0], e)
      case None =>
      case Some(next) => FoldJoined(next, a[1..], b, e);
    }
  }

  lemma {:induction false} FoldExtras(s: State, cs: seq<Chunk>, e: Expected)
    requires s.size.Some? && AllExtra(cs)
    ensures Fold(s, cs, e) == Some(if cs == [] then s else s.(endedData := s.endedData || s.seenData))
    decreases |cs|
  {
    if cs != [] { FoldExtras(s.(endedData := s.endedData || s.seenData), cs[1..], e); }
  }

  lemma {:induction false} FoldData(s: State, cs: seq<Chunk>, e: Expected)
    requires s.size.Some? && !s.endedData && AllData(cs)
    ensures Fold(s, cs, e) == Some(if cs == [] then s else s.(seenData := true, compressed := s.compressed + Bodies(cs)))
    decreases |cs|
  {
    if cs != [] {
      var next := s.(seenData := true, compressed := s.compressed + cs[0].body);
      FoldData(next, cs[1..], e);
      assert next.compressed + Bodies(cs[1..]) == s.compressed + Bodies(cs);
      if cs[1..] == [] { assert next.compressed + [] == next.compressed; }
    }
  }

  /** Chunks in order fold to the size and all the data. */
  lemma {:induction false} OrderedFold(l: Layout, e: Expected, size: Size)
    requires InOrder(l, e, size)
    ensures Fold(START, ChunksOf(l), e).Some?
    ensures var s := Fold(START, ChunksOf(l), e).value; s.size == Some(size) && s.compressed == Bodies(l.data)
  {
    var s0 := START.(size := Some(size));
    assert ChunksOf(l)[1..] == l.before + (l.data + (l.after + [l.end]));
    FoldJoined(s0, l.before, l.data + (l.after + [l.end]), e);
    FoldExtras(s0, l.before, e);
    FoldJoined(s0, l.data, l.after + [l.end], e);
    FoldData(s0, l.data, e);
    var s1 := s0.(seenData := true, compressed := [] + Bodies(l.data));
    FoldJoined(s1, l.after, [l.end], e);
    FoldExtras(s1, l.after, e);
    assert [l.end][1..] == [];
  }

  lemma {:induction false} NextBefore(s: State, c: Chunk, e: Expected)
    requires s.size.Some? && !s.seenData && !s.endedData && Next(s, c, e).Some? && c.kind != IDAT
    ensures IsExtra(c) && Next(s, c, e) == Some(s)
  {}

  lemma {:induction false} ExtraMore(c: Chunk, cs: seq<Chunk>)
    requires IsExtra(c) && AllExtra(cs)
    ensures AllExtra([c] + cs)
  {}

  /** Before any data only extras can come. */
  lemma {:induction false} SplitBefore(s: State, cs: seq<Chunk>, e: Expected) returns (before: seq<Chunk>, rest: seq<Chunk>)
    requires s.size.Some? && !s.seenData && !s.endedData && Ended(cs) && Fold(s, cs, e).Some?
    ensures cs == before + rest && AllExtra(before) && Ended(rest) && rest[0].kind == IDAT && Fold(s, rest, e) == Fold(s, cs, e)
    decreases |cs|
  {
    if cs[0].kind == IDAT {
      before, rest := [], cs;
    } else {
      NextBefore(s, cs[0], e);
      EndedRest(cs);
      var b, r := SplitBefore(s, cs[1..], e);
      ExtraMore(cs[0], b);
      before, rest := [cs[0]] + b, r;
    }
  }

  lemma {:induction false} SplitData(s: State, cs: seq<Chunk>, e: Expected) returns (data: seq<Chunk>, rest: seq<Chunk>, next: State)
    requires s.size.Some? && !s.endedData && Ended(cs) && Fold(s, cs, e).Some?
    ensures cs == data + rest && AllData(data) && Ended(rest) && rest[0].kind != IDAT && Fold(next, rest, e) == Fold(s, cs, e)
    ensures next == s.(seenData := s.seenData || data != [], compressed := s.compressed + Bodies(data))
    decreases |cs|
  {
    if cs[0].kind != IDAT {
      data, rest, next := [], cs, s;
      assert s.compressed + [] == s.compressed;
    } else {
      EndedRest(cs);
      var d, r, n := SplitData(s.(seenData := true, compressed := s.compressed + cs[0].body), cs[1..], e);
      data, rest, next := [cs[0]] + d, r, n;
      BodiesBehind(s.compressed, cs[0], d);
    }
  }

  lemma {:induction false} BodiesBehind(compressed: seq<byte>, c: Chunk, d: seq<Chunk>)
    ensures compressed + c.body + Bodies(d) == compressed + Bodies([c] + d)
  {
    assert ([c] + d)[1..] == d;
    assert compressed + (c.body + Bodies(d)) == compressed + c.body + Bodies(d);
  }

  lemma {:induction false} SplitAfter(s: State, cs: seq<Chunk>, e: Expected) returns (after: seq<Chunk>, end: Chunk)
    requires s.size.Some? && s.seenData && Ended(cs) && (s.endedData || cs[0].kind != IDAT) && Fold(s, cs, e).Some?
    ensures cs == after + [end] && AllExtra(after) && end.kind == IEND && end.body == []
    ensures Fold(s, cs, e).value.compressed == s.compressed && Fold(s, cs, e).value.size == s.size
    decreases |cs|
  {
    EndedRest(cs);
    if cs[0].kind == IEND {
      after, end := [], cs[0];
    } else {
      var a, n := SplitAfter(s.(endedData := true), cs[1..], e);
      after, end := [cs[0]] + a, n;
    }
  }

  /** Whatever folds is in order. */
  lemma {:induction false} FoldOrdered(cs: seq<Chunk>, e: Expected) returns (l: Layout, size: Size)
    requires Ended(cs) && Fold(START, cs, e).Some?
    ensures cs == ChunksOf(l) && InOrder(l, e, size)
    ensures var s := Fold(START, cs, e).value; s.size == Some(size) && s.compressed == Bodies(l.data)
  {
    EndedRest(cs);
    size := ReadHeader(cs[0].body, e).value;
    var s := START.(size := Some(size));
    var before, rest := SplitBefore(s, cs[1..], e);
    var data, rest', next := SplitData(s, rest, e);
    assert data != [] && [] + Bodies(data) == Bodies(data);
    var after, end := SplitAfter(next, rest', e);
    l := Layout(cs[0], before, data, after, end);
    assert rest == data + (after + [end]) && cs == [cs[0]] + (before + rest);
  }

  // ---- Rows ----

  /** The filters of rows with four bytes a pixel: kind, row, previous row. */
  datatype RowCode = RowCode(filter: (nat, seq<byte>, seq<byte>) -> seq<byte>, unfilter: (nat, seq<byte>, seq<byte>) -> seq<byte>)

  function Filters(): RowCode {
    RowCode((kind: nat, row: seq<byte>, previous: seq<byte>) => Filtered(kind, row, previous, 4),
            (kind: nat, f: seq<byte>, previous: seq<byte>) => Unfiltered(kind, f, previous, 4))
  }

  ghost predicate Invertible(c: RowCode) {
    && (forall kind: nat, row: seq<byte>, previous: seq<byte> ::
          |c.filter(kind, row, previous)| == |row| && c.unfilter(kind, c.filter(kind, row, previous), previous) == row)
    && (forall kind: nat, f: seq<byte>, previous: seq<byte> ::
          |c.unfilter(kind, f, previous)| == |f| && c.filter(kind, c.unfilter(kind, f, previous), previous) == f)
  }

  lemma {:induction false} FiltersInvertible()
    ensures Invertible(Filters())
  {
    var c := Filters();
    forall kind: nat, row: seq<byte>, previous: seq<byte>
      ensures |c.filter(kind, row, previous)| == |row| && c.unfilter(kind, c.filter(kind, row, previous), previous) == row
    {
      UnfilterInverts(kind, row, previous, 4);
    }
    forall kind: nat, f: seq<byte>, previous: seq<byte>
      ensures |c.unfilter(kind, f, previous)| == |f| && c.filter(kind, c.unfilter(kind, f, previous), previous) == f
    {
      FilterInverts(kind, f, previous, 4);
    }
  }

  predicate AllLong(rows: seq<seq<byte>>, stride: nat) { forall k | 0 <= k < |rows| :: |rows[k]| == stride }

  predicate AllKinds(kinds: seq<nat>) { forall k | 0 <= k < |kinds| :: kinds[k] < 5 }

  /** Filter byte and filtered bytes of each row. */
  function RowsBytes(c: RowCode, kinds: seq<nat>, rows: seq<seq<byte>>, previous: seq<byte>): seq<byte>
    requires |kinds| == |rows| && AllKinds(kinds)
    decreases |rows|
  {
    if rows == [] then []
    else ([kinds[0]] + c.filter(kinds[0], rows[0], previous)) + RowsBytes(c, kinds[1..], rows[1..], rows[0])
  }

  function RowsFrom(c: RowCode, raw: seq<byte>, stride: nat, at: nat, n: nat, previous: seq<byte>): (r: Option<seq<seq<byte>>>)
    decreases n
  {
    if n == 0 then Some([])
    else if at + 1 + stride > |raw| || raw[at] >= 5 then None
    else
      var row := c.unfilter(raw[at], raw[at + 1..at + 1 + stride], previous);
      match RowsFrom(c, raw, stride, at + 1 + stride, n - 1, row)
      case None => None
      case Some(rows) => Some([row] + rows)
  }

  lemma {:induction false} RowsLength(c: RowCode, kinds: seq<nat>, rows: seq<seq<byte>>, previous: seq<byte>, stride: nat)
    requires Invertible(c) && |kinds| == |rows| && AllKinds(kinds) && AllLong(rows, stride)
    ensures |RowsBytes(c, kinds, rows, previous)| == |rows| * (stride + 1)
    decreases |rows|
  {
    if rows != [] {
      RowsLength(c, kinds[1..], rows[1..], rows[0], stride);
      assert |rows| * (stride + 1) == stride + 1 + (|rows| - 1) * (stride + 1);
    }
  }

  lemma {:induction false} FirstRow(c: RowCode, raw: seq<byte>, stride: nat, at: nat, kinds: seq<nat>, rows: seq<seq<byte>>, previous: seq<byte>)
    requires Invertible(c) && |kinds| == |rows| > 0 && AllKinds(kinds) && |rows[0]| == stride
    requires Holds(raw, at, RowsBytes(c, kinds, rows, previous))
    ensures at + 1 + stride <= |raw| && raw[at] == kinds[0] && c.unfilter(raw[at], raw[at + 1..at + 1 + stride], previous) == rows[0]
    ensures Holds(raw, at + 1 + stride, RowsBytes(c, kinds[1..], rows[1..], rows[0]))
  {
    var f := c.filter(kinds[0], rows[0], previous);
    HoldsPart(raw, at, [kinds[0]] + f, RowsBytes(c, kinds[1..], rows[1..], rows[0]));
    HoldsPart(raw, at, [kinds[0]], f);
    assert [kinds[0]][0] == raw[at];
    HoldsSlice(raw, at + 1, f);
  }

  /** Rows written with any filters are read back. */
  lemma {:induction false} RowsRead(c: RowCode, raw: seq<byte>, stride: nat, at: nat, kinds: seq<nat>, rows: seq<seq<byte>>, previous: seq<byte>)
    requires Invertible(c) && |kinds| == |rows| && AllKinds(kinds) && AllLong(rows, stride)
    requires Holds(raw, at, RowsBytes(c, kinds, rows, previous))
    ensures RowsFrom(c, raw, stride, at, |rows|, previous) == Some(rows)
    decreases |rows|
  {
    if rows != [] {
      FirstRow(c, raw, stride, at, kinds, rows, previous);
      RowsRead(c, raw, stride, at + 1 + stride, kinds[1..], rows[1..], rows[0]);
      assert [rows[0]] + rows[1..] == rows;
    }
  }

  lemma {:induction false} RowJoined(c: RowCode, raw: seq<byte>, at: nat, row: seq<byte>, kinds: seq<nat>, rows: seq<seq<byte>>, previous: seq<byte>)
    requires Invertible(c) && AllKinds(kinds) && |kinds| == |rows| && at < |raw| && raw[at] < 5
    requires Holds(raw, at + 1, c.filter(raw[at], row, previous)) && Holds(raw, at + 1 + |row|, RowsBytes(c, kinds, rows, row))
    ensures AllKinds([raw[at]] + kinds) && Holds(raw, at, RowsBytes(c, [raw[at]] + kinds, [row] + rows, previous))
  {
    var f := c.filter(raw[at], row, previous);
    assert ([raw[at]] + kinds)[1..] == kinds && ([row] + rows)[1..] == rows;
    HoldsJoined(raw, at, [raw[at]], f);
    HoldsJoined(raw, at, [raw[at]] + f, RowsBytes(c, kinds, rows, row));
  }

  lemma {:induction false} LongMore(row: seq<byte>, rows: seq<seq<byte>>, stride: nat)
    requires |row| == stride && AllLong(rows, stride)
    ensures AllLong([row] + rows, stride)
  {}

  /** Whatever is read was written with some filters. */
  lemma {:induction false} RowsWritten(c: RowCode, raw: seq<byte>, stride: nat, at: nat, n: nat, previous: seq<byte>, rows: seq<seq<byte>>) returns (kinds: seq<nat>)
    requires Invertible(c) && at <= |raw| && RowsFrom(c, raw, stride, at, n, previous) == Some(rows)
    ensures |kinds| == |rows| == n && AllKinds(kinds) && AllLong(rows, stride) && Holds(raw, at, RowsBytes(c, kinds, rows, previous))
    decreases n
  {
    if n == 0 {
      kinds := [];
    } else {
      var f := raw[at + 1..at + 1 + stride];
      var row := c.unfilter(raw[at], f, previous);
      var behind := RowsFrom(c, raw, stride, at + 1 + stride, n - 1, row).value;
      var rest := RowsWritten(c, raw, stride, at + 1 + stride, n - 1, row, behind);
      kinds := [raw[at]] + rest;
      HoldsSlice(raw, at + 1, f);
      RowJoined(c, raw, at, row, rest, behind, previous);
      LongMore(row, behind, stride);
    }
  }

  // ---- Files ----

  /** Rows of four bytes a pixel. */
  datatype Picture = Picture(width: nat, height: nat, rows: seq<seq<byte>>)

  function RawSize(size: Size): nat { size.height * (size.width * 4 + 1) }

  function DecodedRows(z: Codec, size: Size, compressed: seq<byte>): Option<Picture> {
    match z.inflate(compressed)
    case None => None
    case Some(raw) =>
      if |raw| != RawSize(size) then None
      else match RowsFrom(Filters(), raw, size.width * 4, 0, size.height, [])
        case None => None
        case Some(rows) => Some(Picture(size.width, size.height, rows))
  }

  function DecodedChunks(z: Codec, chunks: Option<seq<Chunk>>, s: State, e: Expected): Option<Picture> {
    if chunks.None? then None
    else match Fold(s, chunks.value, e)
      case None => None
      case Some(last) => if last.size.None? then None else DecodedRows(z, last.size.value, last.compressed)
  }

  function Decoded(z: Codec, payload: seq<byte>, e: Expected): Option<Picture> {
    if |payload| < 8 || payload[..8] != SIGNATURE then None
    else DecodedChunks(z, ParseChunks(Parser(z, payload), |payload|, 8), START, e)
  }

  /** The file holds the picture: chunks in order, data in any number of pieces, rows under any filters. */
  ghost predicate Carries(z: Codec, payload: seq<byte>, e: Expected, pic: Picture, l: Layout, kinds: seq<nat>) {
    && ValidChunks(ChunksOf(l)) && payload == SIGNATURE + ChunksBytes(z, ChunksOf(l)) && InOrder(l, e, Size(pic.width, pic.height))
    && |kinds| == |pic.rows| == pic.height && AllKinds(kinds) && AllLong(pic.rows, pic.width * 4)
    && z.inflate(Bodies(l.data)) == Some(RowsBytes(Filters(), kinds, pic.rows, []))
  }

  lemma {:induction false} OrderedEnded(l: Layout, e: Expected, size: Size)
    requires InOrder(l, e, size)
    ensures Ended(ChunksOf(l))
  {
    var cs := ChunksOf(l);
    assert cs[|cs| - 1] == l.end;
    forall k | 0 <= k < |cs| - 1 ensures cs[k].kind != IEND {
      var b, d, a := |l.before|, |l.data|, |l.after|;
      if 1 <= k < 1 + b { assert cs[k] == l.before[k - 1]; }
      else if 1 + b <= k < 1 + b + d { assert cs[k] == l.data[k - 1 - b]; }
      else if 1 + b + d <= k { assert cs[k] == l.after[k - 1 - b - d]; }
    }
  }

  lemma {:induction false} RowsDecoded(z: Codec, pic: Picture, compressed: seq<byte>, kinds: seq<nat>)
    requires |kinds| == |pic.rows| == pic.height && AllKinds(kinds) && AllLong(pic.rows, pic.width * 4)
    requires z.inflate(compressed) == Some(RowsBytes(Filters(), kinds, pic.rows, []))
    ensures DecodedRows(z, Size(pic.width, pic.height), compressed) == Some(pic)
  {
    var raw := RowsBytes(Filters(), kinds, pic.rows, []);
    FiltersInvertible();
    RowsLength(Filters(), kinds, pic.rows, [], pic.width * 4);
    HoldsSlice(raw, 0, raw);
    RowsRead(Filters(), raw, pic.width * 4, 0, kinds, pic.rows, []);
  }

  lemma {:induction false} CarriedDecodes(z: Codec, payload: seq<byte>, e: Expected, pic: Picture, l: Layout, kinds: seq<nat>)
    requires Carries(z, payload, e, pic, l, kinds)
    ensures Decoded(z, payload, e) == Some(pic)
  {
    var cs := ChunksOf(l);
    assert payload[..8] == SIGNATURE;
    HoldsSlice(payload, 8, ChunksBytes(z, cs));
    OrderedEnded(l, e, Size(pic.width, pic.height));
    ChunksRead(z, payload, 8, cs);
    OrderedFold(l, e, Size(pic.width, pic.height));
    RowsDecoded(z, pic, Bodies(l.data), kinds);
  }

  lemma {:induction false} ChunksOfFile(z: Codec, payload: seq<byte>) returns (cs: seq<Chunk>)
    requires |payload| >= 8 && payload[..8] == SIGNATURE && ParseChunks(Parser(z, payload), |payload|, 8).Some?
    ensures cs == ParseChunks(Parser(z, payload), |payload|, 8).value && ValidChunks(cs) && Ended(cs)
    ensures payload == SIGNATURE + ChunksBytes(z, cs)
  {
    ChunksWritten(z, payload, 8);
    cs := ParseChunks(Parser(z, payload), |payload|, 8).value;
    HoldsSlice(payload, 8, ChunksBytes(z, cs));
    assert payload == payload[..8] + payload[8..];
  }

  lemma {:induction false} DecodedCarries(z: Codec, payload: seq<byte>, e: Expected) returns (l: Layout, kinds: seq<nat>)
    requires Decoded(z, payload, e).Some?
    ensures Carries(z, payload, e, Decoded(z, payload, e).value, l, kinds)
  {
    var pic := Decoded(z, payload, e).value;
    var cs := ChunksOfFile(z, payload);
    var size;
    l, size := FoldOrdered(cs, e);
    kinds := RowsDecodedFrom(z, pic, size, Bodies(l.data));
  }

  lemma {:induction false} RowsDecodedFrom(z: Codec, pic: Picture, size: Size, compressed: seq<byte>) returns (kinds: seq<nat>)
    requires DecodedRows(z, size, compressed) == Some(pic)
    ensures size == Size(pic.width, pic.height) && |kinds| == |pic.rows| == pic.height && AllKinds(kinds) && AllLong(pic.rows, pic.width * 4)
    ensures z.inflate(compressed) == Some(RowsBytes(Filters(), kinds, pic.rows, []))
  {
    var raw := z.inflate(compressed).value;
    FiltersInvertible();
    kinds := RowsWritten(Filters(), raw, size.width * 4, 0, size.height, [], pic.rows);
    RowsLength(Filters(), kinds, pic.rows, [], pic.width * 4);
    HoldsSlice(raw, 0, RowsBytes(Filters(), kinds, pic.rows, []));
    assert raw[0..|raw|] == raw;
  }

  /** Where row k of the inflated data begins: its filter type, then its filtered bytes. */
  function ScanAt(at: nat, stride: nat, k: nat): nat
    decreases k
  {
    if k == 0 then at else ScanAt(at + stride + 1, stride, k - 1)
  }

  lemma {:induction false} ScanAtIs(at: nat, stride: nat, k: nat)
    ensures ScanAt(at, stride, k) == at + k * (stride + 1)
    decreases k
  {
    if k > 0 {
      ScanAtIs(at + stride + 1, stride, k - 1);
      assert k * (stride + 1) == (k - 1) * (stride + 1) + (stride + 1);
    }
  }

  /** The inflated bytes from here on are this row, under the filter type they begin with. */
  ghost predicate Scans(raw: seq<byte>, from: nat, row: seq<byte>, previous: seq<byte>) {
    from + 1 + |row| <= |raw| && RowDiffers(raw[from], row, raw[from + 1..from + 1 + |row|], previous, 4)
  }

  /** The filters mean what they should. */
  ghost predicate Meaningful(c: RowCode) {
    forall kind: nat, f: seq<byte>, previous: seq<byte> | kind < 5 && (previous == [] || |previous| == |f|) ::
      RowDiffers(kind, c.unfilter(kind, f, previous), f, previous, 4)
  }

  lemma {:induction false} FiltersMeaningful()
    ensures Meaningful(Filters())
  {
    var c := Filters();
    forall kind: nat, f: seq<byte>, previous: seq<byte> | kind < 5 && (previous == [] || |previous| == |f|)
      ensures RowDiffers(kind, c.unfilter(kind, f, previous), f, previous, 4)
    {
      UnfilteredDiffers(kind, f, previous, 4);
    }
  }

  lemma {:induction false} FirstScans(c: RowCode, raw: seq<byte>, stride: nat, at: nat, n: nat, previous: seq<byte>, rows: seq<seq<byte>>)
    requires Meaningful(c) && RowsFrom(c, raw, stride, at, n, previous) == Some(rows) && n > 0 && (previous == [] || |previous| == stride)
    ensures rows != [] && |rows[0]| == stride && Scans(raw, at, rows[0], previous)
    ensures RowsFrom(c, raw, stride, at + 1 + stride, n - 1, rows[0]) == Some(rows[1..])
  {
    var f := raw[at + 1..at + 1 + stride];
    assert RowDiffers(raw[at], c.unfilter(raw[at], f, previous), f, previous, 4);
  }

  lemma {:induction false} RowsScan(c: RowCode, raw: seq<byte>, stride: nat, at: nat, n: nat, previous: seq<byte>, rows: seq<seq<byte>>, k: nat)
    requires Meaningful(c) && RowsFrom(c, raw, stride, at, n, previous) == Some(rows) && k < n && (previous == [] || |previous| == stride)
    ensures k < |rows| && |rows[k]| == stride && Scans(raw, ScanAt(at, stride, k), rows[k], if k == 0 then previous else rows[k - 1])
    decreases k
  {
    FirstScans(c, raw, stride, at, n, previous, rows);
    if k > 0 {
      RowsScan(c, raw, stride, at + 1 + stride, n - 1, rows[0], rows[1..], k - 1);
    }
  }

  /** For every row its filter type and as many filtered bytes as the row has, one row behind the other. */
  ghost predicate AllScan(raw: seq<byte>, stride: nat, rows: seq<seq<byte>>) {
    forall k: nat | k < |rows| :: |rows[k]| == stride && Scans(raw, ScanAt(0, stride, k), rows[k], if k == 0 then [] else rows[k - 1])
  }

  lemma {:induction false} RowsMean(c: RowCode, raw: seq<byte>, stride: nat, n: nat, rows: seq<seq<byte>>)
    requires Meaningful(c) && RowsFrom(c, raw, stride, 0, n, []) == Some(rows) && |rows| == n
    ensures AllScan(raw, stride, rows)
  {
    forall k: nat | k < |rows| ensures |rows[k]| == stride && Scans(raw, ScanAt(0, stride, k), rows[k], if k == 0 then [] else rows[k - 1]) {
      RowsScan(c, raw, stride, 0, n, [], rows, k);
    }
  }

  lemma {:induction false} DecodedMeans(z: Codec, pic: Picture, size: Size, compressed: seq<byte>)
    requires DecodedRows(z, size, compressed) == Some(pic)
    ensures z.inflate(compressed).Some? && |z.inflate(compressed).value| == RawSize(Size(pic.width, pic.height))
    ensures AllScan(z.inflate(compressed).value, pic.width * 4, pic.rows) && |pic.rows| == pic.height
  {
    var kinds := RowsDecodedFrom(z, pic, size, compressed);
    FiltersMeaningful();
    RowsMean(Filters(), z.inflate(compressed).value, pic.width * 4, pic.height, pic.rows);
  }

  /** Every row of a decoded picture stands to the inflated data of the file as its filter type says. */
  lemma {:induction false} PictureScans(z: Codec, payload: seq<byte>, e: Expected) returns (l: Layout, kinds: seq<nat>)
    requires Decoded(z, payload, e).Some?
    ensures var pic := Decoded(z, payload, e).value;
            && Carries(z, payload, e, pic, l, kinds) && z.inflate(Bodies(l.data)).Some?
            && |z.inflate(Bodies(l.data)).value| == RawSize(Size(pic.width, pic.height)) && |pic.rows| == pic.height
            && AllScan(z.inflate(Bodies(l.data)).value, pic.width * 4, pic.rows)
  {
    l, kinds := DecodedCarries(z, payload, e);
    var pic := Decoded(z, payload, e).value;
    RowsDecoded(z, pic, Bodies(l.data), kinds);
    DecodedMeans(z, pic, Size(pic.width, pic.height), Bodies(l.data));
  }

  /** Four bytes, the most significant first. */
  predicate Spells(p: seq<byte>, at: nat, v: nat) {
    at + 4 <= |p| && v == ((p[at] as int * 256 + p[at + 1]) * 256 + p[at + 2]) * 256 + p[at + 3]
  }

  lemma {:induction false} HeaderSpelled(z: Codec, p: seq<byte>, c: Chunk, e: Expected, size: Size)
    requires ParseChunk(z, p, 8) == Some(c) && c.kind == IHDR && ReadHeader(c.body, e) == Some(size)
    ensures 33 <= |p| && p[8..16] == [0, 0, 0, 13, 73, 72, 68, 82] && p[24..29] == [8, 6, 0, 0, 0]
    ensures Spells(p, 16, size.width) && Spells(p, 20, size.height) && Spells(p, 29, z.crc(p[12..29]))
  {
    assert |c.body| == 13 && c.body == p[16..29];
    assert p[8] == 0 && p[9] == 0 && p[10] == 0 && p[11] == 13;
    assert p[8..16] == p[8..12] + p[12..16];
    assert p[24..29] == c.body[8..];
    assert forall k | 0 <= k < 8 :: c.body[k] == p[16 + k];
    assert p[12..29] == p[12..16] + p[16..29];
  }

  /** A decoded file begins with the signature and a header that spells the picture's width and height. */
  lemma {:induction false} HeaderPlaced(z: Codec, payload: seq<byte>, e: Expected)
    requires Decoded(z, payload, e).Some?
    ensures 33 <= |payload| && payload[..8] == [0x89, 80, 78, 71, 13, 10, 26, 10]
    ensures payload[8..16] == [0, 0, 0, 13, 73, 72, 68, 82] && payload[24..29] == [8, 6, 0, 0, 0]
    ensures var pic := Decoded(z, payload, e).value;
            Spells(payload, 16, pic.width) && Spells(payload, 20, pic.height) && Spells(payload, 29, z.crc(payload[12..29]))
  {
    var l, kinds := DecodedCarries(z, payload, e);
    var pic := Decoded(z, payload, e).value;
    HoldsSlice(payload, 8, ChunksBytes(z, ChunksOf(l)));
    FirstChunk(z, payload, 8, ChunksOf(l));
    HeaderSpelled(z, payload, l.header, e, Size(pic.width, pic.height));
  }

  /** The decoder accepts exactly the files that carry a picture, and returns it. */
  lemma {:induction false} DecodesIff(z: Codec, payload: seq<byte>, e: Expected, pic: Picture)
    ensures Decoded(z, payload, e) == Some(pic) <==> exists l, kinds :: Carries(z, payload, e, pic, l, kinds)
  {
    if Decoded(z, payload, e) == Some(pic) {
      var l, kinds := DecodedCarries(z, payload, e);
    }
    forall l, kinds | Carries(z, payload, e, pic, l, kinds) ensures Decoded(z, payload, e) == Some(pic) {
      CarriedDecodes(z, payload, e, pic, l, kinds);
    }
  }

  // ---- The decoder's loops ----

  /** What is left to fold of a file. */
  function Remaining(chunks: Option<seq<Chunk>>, s: State, e: Expected): Option<State> {
    if chunks.None? then None else Fold(s, chunks.value, e)
  }

  lemma {:induction false} OneChunk(parse: nat -> Option<Chunk>, size: nat, pos: nat, s: State, e: Expected)
    requires parse(pos).Some? && pos + 12 + |parse(pos).value.body| <= size
    ensures var c := parse(pos).value;
            var next, at := Next(s, c, e), pos + 12 + |c.body|;
            Remaining(ParseChunks(parse, size, pos), s, e) ==
            if c.kind == IEND then (if at == size then next else None)
            else if next.None? then None
            else Remaining(ParseChunks(parse, size, at), next.value, e)
  {
    var c := parse(pos).value;
    FoldFirst(s, c, [], e);
    assert [c] + [] == [c];
    if c.kind != IEND && ParseChunks(parse, size, pos + 12 + |c.body|).Some? {
      FoldFirst(s, c, ParseChunks(parse, size, pos + 12 + |c.body|).value, e);
    }
  }

  lemma {:induction false} FoldFirst(s: State, c: Chunk, cs: seq<Chunk>, e: Expected)
    ensures Fold(s, [c] + cs, e) == if Next(s, c, e).None? then None else Fold(Next(s, c, e).value, cs, e)
  {
    assert ([c] + cs)[1..] == cs;
  }

  /** Takes account of one chunk; done after the end marker. */
  method Advance(c: Chunk, size: nat, pos: nat, s: State, e: Expected, ghost parse: nat -> Option<Chunk>) returns (next: Option<State>, done: bool)
    requires parse(pos) == Some(c) && pos + 12 + |c.body| <= size
    ensures next.None? || done ==> Remaining(ParseChunks(parse, size, pos), s, e) == next
    ensures next.Some? && !done ==> Remaining(ParseChunks(parse, size, pos), s, e) == Remaining(ParseChunks(parse, size, pos + 12 + |c.body|), next.value, e)
  {
    OneChunk(parse, size, pos, s, e);
    next, done := Next(s, c, e), c.kind == IEND;
    if done && pos + 12 + |c.body| != size { next := None; }
  }

  ghost predicate StaysInside(parse: nat -> Option<Chunk>, size: nat) {
    forall pos: nat :: parse(pos).Some? ==> pos + 12 + |parse(pos).value.body| <= size
  }

  method ReadChunks(parse: nat -> Option<Chunk>, size: nat, e: Expected) returns (r: Option<State>)
    requires 8 <= size && StaysInside(parse, size)
    ensures r == Remaining(ParseChunks(parse, size, 8), START, e)
  {
    var pos, s := 8, START;
    while pos < size
      invariant pos <= size && Remaining(ParseChunks(parse, size, 8), START, e) == Remaining(ParseChunks(parse, size, pos), s, e)
      decreases size - pos
    {
      var c := parse(pos);
      if c.None? {
        return None;
      }
      var next, done := Advance(c.value, size, pos, s, e, parse);
      if next.None? || done {
        return next;
      }
      pos, s := pos + 12 + |c.value.body|, next.value;
    }
    assert parse(size).None?;
    return None;
  }

  lemma {:induction false} RowStep(c: RowCode, raw: seq<byte>, stride: nat, at: nat, n: nat, previous: seq<byte>, done: seq<seq<byte>>)
    requires at + 1 + stride <= |raw| && n > 0
    ensures raw[at] >= 5 ==> RowsFrom(c, raw, stride, at, n, previous) == None
    ensures raw[at] < 5 ==>
              var row := c.unfilter(raw[at], raw[at + 1..at + 1 + stride], previous);
              Joined(Some(done), RowsFrom(c, raw, stride, at, n, previous)) == Joined(Some(done + [row]), RowsFrom(c, raw, stride, at + 1 + stride, n - 1, row))
  {
    if raw[at] < 5 {
      var row := c.unfilter(raw[at], raw[at + 1..at + 1 + stride], previous);
      JoinedStep(done, [row], RowsFrom(c, raw, stride, at + 1 + stride, n - 1, row));
    }
  }

  /** The size of the raw data guarantees that no row is cut short. */
  method ReadRows(raw: seq<byte>, stride: nat, height: nat, c: RowCode) returns (r: Option<seq<seq<byte>>>)
    ensures r == RowsFrom(c, raw, stride, 0, height, [])
  {
    var rows: seq<seq<byte>>, previous: seq<byte>, source: nat := [], [], 0;
    JoinedEmpty(RowsFrom(c, raw, stride, 0, height, []));
    for k := 0 to height
      invariant RowsFrom(c, raw, stride, 0, height, []) == Joined(Some(rows), RowsFrom(c, raw, stride, source, height - k, previous))
    {
      if source + 1 + stride > |raw| {
        return None;
      }
      RowStep(c, raw, stride, source, height - k, previous, rows);
      if raw[source] >= 5 {
        return None;
      }
      previous := c.unfilter(raw[source], raw[source + 1..source + 1 + stride], previous);
      rows, source := rows + [previous], source + 1 + stride;
    }
    assert rows + [] == rows;
    return Some(rows);
  }

  method Decode(z: Codec, payload: seq<byte>, e: Expected) returns (r: Option<Picture>)
    ensures r == Decoded(z, payload, e)
  {
    if |payload| < 8 || payload[..8] != SIGNATURE {
      return None;
    }
    var s := ReadChunks(Parser(z, payload), |payload|, e);
    if s.None? || s.value.size.None? {
      return None;
    }
    var size, raw := s.value.size.value, z.inflate(s.value.compressed);
    if raw.None? || |raw.value| != RawSize(size) {
      return None;
    }
    var rows := ReadRows(raw.value, size.width * 4, size.height, Filters());
    return if rows.None? then None else Some(Picture(size.width, size.height, rows.value));
  }

  // ---- The encoder ----

  function Scanlines(rows: seq<seq<byte>>): seq<byte> { if rows == [] then [] else ([0] + rows[0]) + Scanlines(rows[1..]) }

  predicate Encodable(z: Codec, pic: Picture) {
    && 0 < pic.width < 0x1_0000_0000 && 0 < pic.height < 0x1_0000_0000
    && |pic.rows| == pic.height && AllLong(pic.rows, pic.width * 4) && |z.deflate(Scanlines(pic.rows))| < 0x1_0000_0000
  }

  function EncodedLayout(z: Codec, pic: Picture): Layout
    requires Encodable(z, pic)
  {
    Layout(Chunk(IHDR, HeaderBody(pic.width, pic.height)), [], [Chunk(IDAT, z.deflate(Scanlines(pic.rows)))], [], Chunk(IEND, []))
  }

  lemma {:induction false} EncodedValid(z: Codec, pic: Picture)
    requires Encodable(z, pic)
    ensures ValidChunks(ChunksOf(EncodedLayout(z, pic)))
  {
    var l := EncodedLayout(z, pic);
    assert ChunksOf(l) == [l.header, l.data[0], l.end];
  }

  method JoinScanlines(rows: seq<seq<byte>>) returns (b: seq<byte>)
    ensures b == Scanlines(rows)
  {
    b := [];
    assert rows[0..] == rows;
    for k := 0 to |rows|
      invariant b + Scanlines(rows[k..]) == Scanlines(rows)
    {
      assert rows[k..][1..] == rows[k + 1..];
      assert b + (([0] + rows[k]) + Scanlines(rows[k + 1..])) == (b + ([0] + rows[k])) + Scanlines(rows[k + 1..]);
      b := b + ([0] + rows[k]);
    }
  }

  method Encode(z: Codec, pic: Picture) returns (r: Option<seq<byte>>)
    ensures r.Some? <==> Encodable(z, pic)
    ensures r.Some? ==> ValidChunks(ChunksOf(EncodedLayout(z, pic))) && r.value == SIGNATURE + ChunksBytes(z, ChunksOf(EncodedLayout(z, pic)))
  {
    if pic.width == 0 || pic.height == 0 || |pic.rows| != pic.height || !AllLong(pic.rows, pic.width * 4)
       || pic.width >= 0x1_0000_0000 || pic.height >= 0x1_0000_0000 {
      return None;
    }
    var scanlines := JoinScanlines(pic.rows);
    var compressed := z.deflate(scanlines);
    if |compressed| >= 0x1_0000_0000 {
      return None;
    }
    EncodedValid(z, pic);
    var header, data, end := Chunk(IHDR, HeaderBody(pic.width, pic.height)), Chunk(IDAT, compressed), Chunk(IEND, []);
    ThreeChunks(z, header, data, end);
    assert ChunksOf(EncodedLayout(z, pic)) == [header, data, end];
    return Some(SIGNATURE + (ChunkBytes(z, header) + ChunkBytes(z, data) + ChunkBytes(z, end)));
  }

  lemma {:induction false} ThreeChunks(z: Codec, a: Chunk, b: Chunk, c: Chunk)
    requires ValidChunk(a) && ValidChunk(b) && ValidChunk(c)
    ensures ValidChunks([a, b, c]) && ChunksBytes(z, [a, b, c]) == ChunkBytes(z, a) + ChunkBytes(z, b) + ChunkBytes(z, c)
  {
    assert [a, b, c][1..] == [b, c] && [b, c][1..] == [c] && [c][1..] == [];
    assert ChunksBytes(z, [c]) == ChunkBytes(z, c);
    assert ChunksBytes(z, [b, c]) == ChunkBytes(z, b) + ChunkBytes(z, c);
    assert ChunksBytes(z, [a, b, c]) == ChunkBytes(z, a) + ChunksBytes(z, [b, c]);
  }

  function Zeros(n: nat): (z: seq<nat>)
    ensures |z| == n && AllKinds(z)
  {
    seq(n, _ => 0)
  }

  lemma {:induction false} ScanlinesUnfiltered(rows: seq<seq<byte>>, previous: seq<byte>)
    ensures Scanlines(rows) == RowsBytes(Filters(), Zeros(|rows|), rows, previous)
    decreases |rows|
  {
    if rows != [] {
      ScanlinesUnfiltered(rows[1..], rows[0]);
      assert Zeros(|rows|)[1..] == Zeros(|rows[1..]|) && Zeros(|rows|)[0] == 0;
      assert Filtered(0, rows[0], previous, 4) == rows[0];
    }
  }

  lemma {:induction false} TwoNumbers(body: seq<byte>, v: word, w: word, tail: seq<byte>)
    requires body == PackBig(v) + (PackBig(w) + tail)
    ensures Big(body, 0) == v && Big(body, 4) == w && body[8..] == tail
  {
    HoldsSlice(body, 0, body);
    HoldsPart(body, 0, PackBig(v), PackBig(w) + tail);
    HoldsPart(body, 4, PackBig(w), tail);
    BigInPlace(body, 0, v);
    BigInPlace(body, 4, w);
    HoldsSlice(body, 8, tail);
  }

  lemma {:induction false} HeaderParts(width: word, height: word)
    ensures var body := HeaderBody(width, height);
            Big(body, 0) == width && Big(body, 4) == height && body[8..] == [8, 6, 0, 0, 0]
  {
    TwoNumbers(HeaderBody(width, height), width, height, [8, 6, 0, 0, 0]);
  }

  lemma {:induction false} HeaderRead(width: word, height: word, e: Expected)
    ensures ReadHeader(HeaderBody(width, height), e)
         == if width == 0 || height == 0 || !AsExpected(Size(width, height), e) || !Fits(Size(width, height)) then None else Some(Size(width, height))
  {
    HeaderParts(width, height);
  }

  /** Decoding an encoded picture returns it, exactly up to the size limit. */
  lemma {:induction false} RoundTrip(z: Codec, pic: Picture)
    requires Inverse(z) && Encodable(z, pic)
    ensures ValidChunks(ChunksOf(EncodedLayout(z, pic)))
    ensures var payload := SIGNATURE + ChunksBytes(z, ChunksOf(EncodedLayout(z, pic)));
            Decoded(z, payload, Expected(None, None)) == if Fits(Size(pic.width, pic.height)) then Some(pic) else None
  {
    var l, e := EncodedLayout(z, pic), Expected(None, None);
    EncodedValid(z, pic);
    HeaderRead(pic.width, pic.height, e);
    var payload := SIGNATURE + ChunksBytes(z, ChunksOf(l));
    if Fits(Size(pic.width, pic.height)) {
      EncodedCarries(z, pic);
      CarriedDecodes(z, payload, e, pic, l, Zeros(pic.height));
    } else {
      TooLarge(z, pic);
    }
  }

  lemma {:induction false} EncodedCarries(z: Codec, pic: Picture)
    requires Inverse(z) && Encodable(z, pic) && Fits(Size(pic.width, pic.height)) && ValidChunks(ChunksOf(EncodedLayout(z, pic)))
    ensures Carries(z, SIGNATURE + ChunksBytes(z, ChunksOf(EncodedLayout(z, pic))), Expected(None, None), pic, EncodedLayout(z, pic), Zeros(pic.height))
  {
    var l := EncodedLayout(z, pic);
    HeaderRead(pic.width, pic.height, Expected(None, None));
    ScanlinesUnfiltered(pic.rows, []);
    assert l.data[1..] == [] && Bodies(l.data) == z.deflate(Scanlines(pic.rows));
  }

  lemma {:induction false} TooLarge(z: Codec, pic: Picture)
    requires Encodable(z, pic) && !Fits(Size(pic.width, pic.height)) && ValidChunks(ChunksOf(EncodedLayout(z, pic)))
    ensures Decoded(z, SIGNATURE + ChunksBytes(z, ChunksOf(EncodedLayout(z, pic))), Expected(None, None)).None?
  {
    var l := EncodedLayout(z, pic);
    var cs, payload := ChunksOf(l), SIGNATURE + ChunksBytes(z, ChunksOf(l));
    HeaderRead(pic.width, pic.height, Expected(None, None));
    HoldsSlice(payload, 8, ChunksBytes(z, cs));
    assert cs == [l.header, l.data[0], l.end];
    ChunksRead(z, payload, 8, cs);
  }
}
