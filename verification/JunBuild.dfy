/** The pack writer (tools/convert_jun_moves.py): pieces are appended while earlier records are patched in place. */
module JunBuild {
  import opened Options
  import opened Bytes
  import opened JunSource
  import opened JunConvert
  import opened JunLayout
  import opened JunSize
  import JunPack
  import JunAgree
  import Motion

  // ---- What appending and patching keep ----

  lemma {:induction false} PieceKept(p: seq<byte>, q: seq<byte>, at: nat, bytes: seq<byte>, n: nat, limit: nat, limit': nat)
    requires Piece(p, at, bytes, n, limit) && limit <= limit' && Agree(p, q, BaseOf(n), limit)
    ensures Piece(q, at, bytes, n, limit')
  {
    HoldsKept(p, q, at, bytes);
  }

  lemma {:induction false} PiecesKept(p: seq<byte>, q: seq<byte>, s: Source, i: nat, l: Layout, limit: nat, limit': nat)
    requires WellTyped(s) && i < |s.addresses| && PiecesPlaced(p, s, i, l, limit)
    requires limit <= limit' && Agree(p, q, BaseOf(|s.addresses|), limit)
    ensures PiecesPlaced(q, s, i, l, limit')
  {
    var n, v := |s.addresses|, s.raw[i];
    PieceKept(p, q, l.clip, ClipBytes(s.bank, v[0]).value, n, limit, limit');
    PieceKept(p, q, l.cancels, CellsBytes(l.cells), n, limit, limit');
    PieceKept(p, q, l.sounds, SoundBytes(Sounds(s.ram, v[7]).value), n, limit, limit');
    PieceKept(p, q, l.props, PropertyBytes(Properties(s.ram, v[8]).value), n, limit, limit');
  }

  /** Record i survives any change outside its metadata, its fields and the pieces written so far. */
  lemma {:induction false} PlacedKept(p: seq<byte>, q: seq<byte>, s: Source, i: nat, l: Layout, limit: nat, limit': nat)
    requires WellTyped(s) && i < |s.addresses| && Placed(p, s, i, l, limit)
    requires limit <= limit' && Agree(p, q, BaseOf(|s.addresses|), limit)
    requires Agree(p, q, MetaAt(i), MetaAt(i) + 16) && Agree(p, q, RecordAt(|s.addresses|, i), RecordAt(|s.addresses|, i) + 56)
    ensures Placed(q, s, i, l, limit')
  {
    var n, v := |s.addresses|, s.raw[i];
    PiecesKept(p, q, s, i, l, limit, limit');
    HoldsKept(p, q, MetaAt(i), PackWords([v[0], s.addresses[i], RecordAt(n, i), |l.cells|]));
    HoldsKept(p, q, RecordAt(n, i), PackWords(Fields(v, s.native[i], Link(s, LowHalf(v[4])).value, s.bank[v[0]], l)));
  }

  // ---- The loops that produce the pieces ----

  /** Pads to a word boundary and appends. */
  method Append(blob: seq<byte>, data: seq<byte>) returns (out: seq<byte>, offset: nat)
    ensures offset == Aligned(|blob|) && |out| == offset + |data|
    ensures blob <= out && Holds(out, offset, data)
  {
    var pad := (4 - |blob| % 4) % 4;
    offset := |blob| + pad;
    out := blob + seq(pad, _ => 0) + data;
    HoldsSlice(out, offset, data);
  }

  method EncodePose(bank: seq<byte>, source: word, f: nat) returns (r: Option<seq<byte>>)
    ensures r == PosesOf(bank, source)(f)
  {
    var pose := Motion.Decode(bank, source, f, 57);
    return if pose.None? then None else Some(PackHalves(pose.value));
  }

  method EncodeClip(bank: seq<byte>, source: word) returns (r: Option<seq<byte>>)
    ensures r == ClipBytes(bank, source)
  {
    if source >= |bank| {
      return None;
    }
    var count := bank[source];
    var frames: seq<byte> := [];
    ghost var poses := PosesOf(bank, source);
    JoinedEmpty(PosesFrom(poses, 0, count));
    for f := 0 to count
      invariant PosesFrom(poses, 0, count) == Joined(Some(frames), PosesFrom(poses, f, count))
    {
      var pose := EncodePose(bank, source, f);
      if pose.None? {
        return None;
      }
      JoinedStep(frames, pose.value, PosesFrom(poses, f + 1, count));
      frames := frames + pose.value;
    }
    assert frames + [] == frames;
    return Some(PackWords([JunPack.CLIP_TAG + count, 57]) + frames);
  }

  method ConvertCancels(s: Source, i: nat, patterns: seq<Pattern>) returns (c: Conversion)
    requires WellTyped(s) && i < |s.addresses|
    ensures c == RecordRows(s, i, patterns)
  {
    var rows := Flatten(s.ram, s.raw[i][3], []);
    if rows.None? {
      return Failed;
    }
    c := Cancels(s, rows.value, patterns);
    if c.Failed? || (c.cells != [] && c.cells[|c.cells| - 1].cmd == JunPack.TERMINATOR) {
      return;
    }
    var link := Link(s, s.raw[i][4] % 0x10000);
    if link.None? {
      return Failed;
    }
    c := c.(cells := c.cells + [Cell(JunPack.TERMINATOR, 0, 0, link.value, 6, 0, 0, 0)]);
  }

  method EncodeSequences(patterns: seq<Pattern>) returns (data: seq<byte>)
    requires Filable(patterns)
    ensures data == SequencesBytes(patterns, 0)
  {
    data := [];
    for i := 0 to |patterns|
      invariant data + SequencesBytes(patterns, i) == SequencesBytes(patterns, 0)
    {
      var next := SequenceBytes(i, patterns[i].words);
      assert data + (next + SequencesBytes(patterns, i + 1)) == (data + next) + SequencesBytes(patterns, i + 1);
      data := data + next;
    }
  }

  method EncodeProperties(ps: seq<Property>) returns (data: seq<byte>)
    ensures data == PropertyBytes(ps)
  {
    var halves: seq<half> := [];
    for i := 0 to |ps|
      invariant halves + Flattened(ps[i..]) == Flattened(ps)
    {
      assert halves + ([ps[i].frame, ps[i].op] + Flattened(ps[i..][1..])) == (halves + [ps[i].frame, ps[i].op]) + Flattened(ps[i + 1..]);
      halves := halves + [ps[i].frame, ps[i].op];
    }
    assert halves == Flattened(ps);
    return PackHalves(halves + [0, 0]);
  }

  /** Offsets and sizes are packed as words. */
  const LIMIT := 0x1_0000_0000

  // ---- The pieces of one record ----

  /** The shape of record i once it is converted. */
  ghost function ShapeFor(s: Source, i: nat, cells: seq<Cell>): Shape
    requires WellTyped(s) && i < |s.addresses| && Convertible(s, i)
  {
    var v := s.raw[i];
    Shape(v[0], |ClipBytes(s.bank, v[0]).value|, |cells|, |Sounds(s.ram, v[7]).value|, |Properties(s.ram, v[8]).value|)
  }

  lemma {:induction false} ShapeOfRows(s: Source, i: nat, cells: seq<Cell>, filed: seq<Pattern>)
    requires WellTyped(s) && i < |s.addresses| && Convertible(s, i) && CleanRows(s, i, FiledBefore(s, i), cells, filed)
    ensures ShapesOf(s)[i] == ShapeFor(s, i, cells) && CleanAt(s, i) && FiledBefore(s, i + 1) == filed
  {}

  lemma {:induction false} CleanConverts(s: Source, i: nat)
    requires WellTyped(s) && i < |s.addresses| && CleanAt(s, i)
    ensures var c := RecordRows(s, i, FiledBefore(s, i));
            c.Converted? && c.clean && Convertible(s, i) && ShapesOf(s)[i] == ShapeFor(s, i, c.cells)
  {}

  ghost predicate PosesHold(p: seq<byte>, bank: seq<byte>, poses: map<word, word>, n: nat) {
    forall source: word | source in poses ::
      ClipBytes(bank, source).Some? && Piece(p, poses[source], ClipBytes(bank, source).value, n, |p|)
  }

  lemma {:induction false} PosesKept(p: seq<byte>, q: seq<byte>, bank: seq<byte>, poses: map<word, word>, n: nat)
    requires PosesHold(p, bank, poses, n) && |p| <= |q| && Agree(p, q, BaseOf(n), |p|)
    ensures PosesHold(q, bank, poses, n)
  {
    forall source: word | source in poses ensures Piece(q, poses[source], ClipBytes(bank, source).value, n, |q|) {
      PieceKept(p, q, poses[source], ClipBytes(bank, source).value, n, |p|, |q|);
    }
  }

  /** Clips are shared: a source is encoded only the first time it is met. */
  method PlaceClip(bank: seq<byte>, source: word, blob0: seq<byte>, poses0: map<word, word>, ghost n: nat)
    returns (ok: bool, blob: seq<byte>, poses: map<word, word>, at: word)
    requires BaseOf(n) <= |blob0| && PosesHold(blob0, bank, poses0, n)
    ensures ok ==> ClipBytes(bank, source).Some? && blob0 <= blob
    ensures ok ==> |blob| == ClipEnd(|blob0|, source in poses0, |ClipBytes(bank, source).value|) && poses.Keys == poses0.Keys + {source}
    ensures ok ==> PosesHold(blob, bank, poses, n) && Piece(blob, at, ClipBytes(bank, source).value, n, |blob|)
    ensures !ok && ClipBytes(bank, source).Some? ==> ClipEnd(|blob0|, source in poses0, |ClipBytes(bank, source).value|) >= LIMIT
  {
    blob, poses, at := blob0, poses0, 0;
    if source in poses {
      return true, blob, poses, poses[source];
    }
    var data := EncodeClip(bank, source);
    if data.None? {
      return false, blob, poses, at;
    }
    var offset: nat;
    blob, offset := Append(blob0, data.value);
    if offset >= LIMIT {
      return false, blob, poses, at;
    }
    PosesKept(blob0, blob, bank, poses0, n);
    return true, blob, poses[source := offset], offset;
  }

  method PlaceLists(blob0: seq<byte>, cells: seq<Cell>, events: seq<half>, timed: seq<Property>, ghost n: nat)
    returns (ok: bool, blob: seq<byte>, cancels: word, sounds: word, props: word)
    requires BaseOf(n) <= |blob0|
    ensures ok ==> blob0 <= blob && |blob| == ListsEnd(|blob0|, |cells|, |events|, |timed|)
    ensures ok ==> Piece(blob, cancels, CellsBytes(cells), n, |blob|) && Piece(blob, sounds, SoundBytes(events), n, |blob|)
    ensures ok ==> Piece(blob, props, PropertyBytes(timed), n, |blob|) && |cells| < LIMIT
    ensures !ok ==> ListsEnd(|blob0|, |cells|, |events|, |timed|) >= LIMIT
  {
    cancels, sounds, props := 0, 0, 0;
    var cp, sp, pp: nat;
    var blob1, blob2;
    blob1, cp := Append(blob0, CellsBytes(cells));
    blob2, sp := Append(blob1, SoundBytes(events));
    var propBytes := EncodeProperties(timed);
    blob, pp := Append(blob2, propBytes);
    if cp >= LIMIT || sp >= LIMIT || pp >= LIMIT || |cells| >= LIMIT {
      return false, blob, cancels, sounds, props;
    }
    PieceKept(blob1, blob, cp, CellsBytes(cells), n, |blob1|, |blob|);
    PieceKept(blob2, blob, sp, SoundBytes(events), n, |blob2|, |blob|);
    return true, blob, cp, sp, pp;
  }

  /** The lists of a record that are translated entry by entry, and its link. */
  ghost predicate ListsConvert(s: Source, i: nat)
    requires WellTyped(s) && i < |s.addresses|
  {
    var v := s.raw[i];
    Link(s, LowHalf(v[4])).Some? && Sounds(s.ram, v[7]).Some? && Properties(s.ram, v[8]).Some?
  }

  /** A row left untranslated fails the whole conversion in the end, so the writer may as well stop here. */
  method ConvertRecord(s: Source, i: nat, patterns: seq<Pattern>)
    returns (ok: bool, cells: seq<Cell>, filed: seq<Pattern>, events: seq<half>, timed: seq<Property>)
    requires WellTyped(s) && i < |s.addresses|
    ensures ok <==> ListsConvert(s, i) && RecordRows(s, i, patterns).Converted? && RecordRows(s, i, patterns).clean
    ensures ok ==> RecordRows(s, i, patterns) == Converted(cells, filed, true)
    ensures ok ==> events == Sounds(s.ram, s.raw[i][7]).value && timed == Properties(s.ram, s.raw[i][8]).value
  {
    var v := s.raw[i];
    var c := ConvertCancels(s, i, patterns);
    var sounds := SoundEvents(s.ram, v[7]);
    var props := TimedProperties(s.ram, v[8]);
    if c.Failed? || !c.clean || sounds.None? || props.None? || props.value.1 != [] || Link(s, LowHalf(v[4])).None? {
      return false, [], patterns, [], [];
    }
    return true, c.cells, c.patterns, sounds.value.0, props.value.0;
  }

  lemma {:induction false} AllPlaced(blob: seq<byte>, out: seq<byte>, s: Source, i: nat, l: Layout)
    requires WellTyped(s) && i < |s.addresses| && Convertible(s, i) && blob <= out
    requires Piece(blob, l.clip, ClipBytes(s.bank, s.raw[i][0]).value, |s.addresses|, |blob|)
    requires Piece(out, l.cancels, CellsBytes(l.cells), |s.addresses|, |out|)
    requires Piece(out, l.sounds, SoundBytes(Sounds(s.ram, s.raw[i][7]).value), |s.addresses|, |out|)
    requires Piece(out, l.props, PropertyBytes(Properties(s.ram, s.raw[i][8]).value), |s.addresses|, |out|)
    ensures PiecesPlaced(out, s, i, l, |out|)
  {
    PieceKept(blob, out, l.clip, ClipBytes(s.bank, s.raw[i][0]).value, |s.addresses|, |blob|, |out|);
  }

  method PlacePieces(s: Source, i: nat, blob0: seq<byte>, poses0: map<word, word>, patterns: seq<Pattern>)
    returns (ok: bool, blob: seq<byte>, poses: map<word, word>, l: Layout)
    requires WellTyped(s) && i < |s.addresses| && BaseOf(|s.addresses|) <= |blob0| && PosesHold(blob0, s.bank, poses0, |s.addresses|)
    ensures ok ==> blob0 <= blob && PosesHold(blob, s.bank, poses, |s.addresses|)
    ensures ok ==> CleanRows(s, i, patterns, l.cells, l.filed) && PiecesPlaced(blob, s, i, l, |blob|) && |l.cells| < LIMIT
    ensures ok ==> |blob| == RecordEnd(ShapeFor(s, i, l.cells), s.raw[i][0] in poses0, |blob0|) && poses.Keys == poses0.Keys + {s.raw[i][0]}
    ensures var c := RecordRows(s, i, patterns);
            !ok && c.Converted? && c.clean && Convertible(s, i) ==> RecordEnd(ShapeFor(s, i, c.cells), s.raw[i][0] in poses0, |blob0|) >= LIMIT
  {
    var n := |s.addresses|;
    l := Layout(0, 0, 0, 0, [], []);
    var clip, cells, filed, events, timed;
    ok, cells, filed, events, timed := ConvertRecord(s, i, patterns);
    if !ok { return false, blob0, poses0, l; }
    ok, blob, poses, clip := PlaceClip(s.bank, s.raw[i][0], blob0, poses0, n);
    if !ok { return; }
    var out, cancels, sounds, props;
    ok, out, cancels, sounds, props := PlaceLists(blob, cells, events, timed, n);
    if !ok { return; }
    PosesKept(blob, out, s.bank, poses, n);
    l := Layout(clip, cancels, sounds, props, cells, filed);
    AllPlaced(blob, out, s, i, l);
    blob := out;
  }

  // ---- One record ----

  /** Only record i changed below the pieces, and the pieces only grew. */
  ghost predicate OthersKept(p: seq<byte>, q: seq<byte>, n: nat, i: nat) {
    && BaseOf(n) <= |p| && Agree(p, q, BaseOf(n), |p|)
    && forall k: nat | k < n && k != i ::
         Agree(p, q, MetaAt(k), MetaAt(k) + 16) && Agree(p, q, RecordAt(n, k), RecordAt(n, k) + 56)
  }

  lemma {:induction false} PatchesKeepOthers(p: seq<byte>, q: seq<byte>, n: nat, i: nat, fields: seq<byte>, meta: seq<byte>)
    requires i < n && BaseOf(n) <= |p| && p <= q && |fields| == 56 && |meta| == 16
    ensures OthersKept(p, Patched(Patched(q, RecordAt(n, i), fields), MetaAt(i), meta), n, i)
  {
    var q1 := Patched(q, RecordAt(n, i), fields);
    PatchKeeps(q, RecordAt(n, i), fields, BaseOf(n), |p|);
    PatchKeeps(q1, MetaAt(i), meta, BaseOf(n), |p|);
    forall k: nat | k < n && k != i
      ensures Agree(p, Patched(q1, MetaAt(i), meta), MetaAt(k), MetaAt(k) + 16)
      ensures Agree(p, Patched(q1, MetaAt(i), meta), RecordAt(n, k), RecordAt(n, k) + 56)
    {
      PatchKeeps(q, RecordAt(n, i), fields, MetaAt(k), MetaAt(k) + 16);
      PatchKeeps(q, RecordAt(n, i), fields, RecordAt(n, k), RecordAt(n, k) + 56);
      PatchKeeps(q1, MetaAt(i), meta, MetaAt(k), MetaAt(k) + 16);
      PatchKeeps(q1, MetaAt(i), meta, RecordAt(n, k), RecordAt(n, k) + 56);
    }
  }

  method WriteRecord(s: Source, i: nat, blob0: seq<byte>, l: Layout) returns (blob: seq<byte>)
    requires WellTyped(s) && i < |s.addresses| && BaseOf(|s.addresses|) <= |blob0|
    requires PiecesPlaced(blob0, s, i, l, |blob0|) && |l.cells| < LIMIT
    ensures |blob| == |blob0| && Placed(blob, s, i, l, |blob|)
    ensures Agree(blob0, blob, BaseOf(|s.addresses|), |blob0|)
    ensures forall p: seq<byte> | p <= blob0 && BaseOf(|s.addresses|) <= |p| :: OthersKept(p, blob, |s.addresses|, i)
  {
    var n, v := |s.addresses|, s.raw[i];
    var fields := PackWords(Fields(v, s.native[i], Link(s, LowHalf(v[4])).value, s.bank[v[0]], l));
    var meta := PackWords([v[0], s.addresses[i], RecordAt(n, i), |l.cells|]);
    var blob1 := Patched(blob0, RecordAt(n, i), fields);
    blob := Patched(blob1, MetaAt(i), meta);
    PatchHolds(blob0, RecordAt(n, i), fields);
    PatchHolds(blob1, MetaAt(i), meta);
    PatchKeeps(blob0, RecordAt(n, i), fields, BaseOf(n), |blob0|);
    PatchKeeps(blob1, MetaAt(i), meta, BaseOf(n), |blob0|);
    PatchKeeps(blob1, MetaAt(i), meta, RecordAt(n, i), RecordAt(n, i) + 56);
    HoldsKept(blob1, blob, RecordAt(n, i), fields);
    PiecesKept(blob0, blob, s, i, l, |blob0|, |blob|);
    forall p: seq<byte> | p <= blob0 && BaseOf(n) <= |p| ensures OthersKept(p, blob, n, i) {
      PatchesKeepOthers(p, blob0, n, i, fields, meta);
    }
  }

  // ---- The whole pack ----

  /** Record k is in place and carries its converted rows. */
  ghost predicate WrittenAt(blob: seq<byte>, s: Source, layouts: seq<Layout>, k: nat)
    requires WellTyped(s) && k < |layouts| <= |s.addresses|
  {
    Placed(blob, s, k, layouts[k], |blob|) && RowsConverted(s, layouts, k)
  }

  /** Everything written so far is in place. */
  ghost predicate Written(blob: seq<byte>, s: Source, layouts: seq<Layout>)
    requires WellTyped(s)
  {
    && |layouts| <= |s.addresses| && BaseOf(|s.addresses|) <= |blob|
    && forall k: nat | k < |layouts| :: WrittenAt(blob, s, layouts, k)
  }

  lemma {:induction false} WrittenBefore(p: seq<byte>, q: seq<byte>, s: Source, layouts: seq<Layout>, l: Layout, k: nat)
    requires WellTyped(s) && k < |layouts| < |s.addresses| && WrittenAt(p, s, layouts, k)
    requires OthersKept(p, q, |s.addresses|, |layouts|) && |p| <= |q|
    ensures WrittenAt(q, s, layouts + [l], k)
  {
    PlacedKept(p, q, s, k, layouts[k], |p|, |q|);
    assert Before(layouts + [l], k) == Before(layouts, k);
  }

  lemma {:induction false} WrittenLast(q: seq<byte>, s: Source, layouts: seq<Layout>, l: Layout)
    requires WellTyped(s) && |layouts| < |s.addresses| && Placed(q, s, |layouts|, l, |q|)
    requires CleanRows(s, |layouts|, Before(layouts, |layouts|), l.cells, l.filed)
    ensures WrittenAt(q, s, layouts + [l], |layouts|)
  {
    assert Before(layouts + [l], |layouts|) == Before(layouts, |layouts|);
  }

  lemma {:induction false} WrittenStep(p: seq<byte>, q: seq<byte>, s: Source, layouts: seq<Layout>, l: Layout)
    requires WellTyped(s) && Written(p, s, layouts) && |layouts| < |s.addresses| && |p| <= |q|
    requires OthersKept(p, q, |s.addresses|, |layouts|) && WrittenAt(q, s, layouts + [l], |layouts|)
    ensures Written(q, s, layouts + [l])
  {
    forall k: nat | k < |layouts| ensures WrittenAt(q, s, layouts + [l], k) {
      WrittenBefore(p, q, s, layouts, l, k);
    }
  }

  /** What grows while the records are converted one after the other. */
  datatype Draft = Draft(blob: seq<byte>, poses: map<word, word>, patterns: seq<Pattern>, relocs: seq<int>)

  /** The sizes of the draft after i records. */
  ghost predicate Sized(shapes: seq<Shape>, d: Draft, i: nat) {
    && i <= |shapes| && d.relocs == RelocationsOf(|shapes|, i) && |d.blob| == SizeUpTo(shapes, i)
    && forall source :: source in d.poses <==> MetBefore(shapes, i, source)
  }

  /** The draft as the source accounts for it. */
  ghost predicate Counted(s: Source, d: Draft, i: nat)
    requires WellTyped(s) && i <= |s.addresses|
  {
    d.patterns == FiledBefore(s, i) && CleanTo(s, i) && Sized(ShapesOf(s), d, i)
  }

  /** The draft as its bytes hold it. */
  ghost predicate Recorded(s: Source, d: Draft, layouts: seq<Layout>)
    requires WellTyped(s)
  {
    && Written(d.blob, s, layouts) && PosesHold(d.blob, s.bank, d.poses, |s.addresses|)
    && d.patterns == Before(layouts, |layouts|)
  }

  ghost predicate Progress(s: Source, d: Draft, layouts: seq<Layout>)
    requires WellTyped(s)
  {
    Recorded(s, d, layouts) && Counted(s, d, |layouts|)
  }

  method PlaceRecord(s: Source, i: nat, blob0: seq<byte>, poses0: map<word, word>, patterns: seq<Pattern>)
    returns (ok: bool, blob: seq<byte>, poses: map<word, word>, l: Layout)
    requires WellTyped(s) && i < |s.addresses| && BaseOf(|s.addresses|) <= |blob0| && PosesHold(blob0, s.bank, poses0, |s.addresses|)
    ensures ok ==> |blob0| <= |blob| && OthersKept(blob0, blob, |s.addresses|, i) && PosesHold(blob, s.bank, poses, |s.addresses|)
    ensures ok ==> CleanRows(s, i, patterns, l.cells, l.filed) && Placed(blob, s, i, l, |blob|)
    ensures ok ==> |blob| == RecordEnd(ShapeFor(s, i, l.cells), s.raw[i][0] in poses0, |blob0|) && poses.Keys == poses0.Keys + {s.raw[i][0]}
    ensures var c := RecordRows(s, i, patterns);
            !ok && c.Converted? && c.clean && Convertible(s, i) ==> RecordEnd(ShapeFor(s, i, c.cells), s.raw[i][0] in poses0, |blob0|) >= LIMIT
  {
    var pieces;
    ok, pieces, poses, l := PlacePieces(s, i, blob0, poses0, patterns);
    blob := pieces;
    if !ok { return; }
    blob := WriteRecord(s, i, pieces, l);
    PosesKept(pieces, blob, s.bank, poses, |s.addresses|);
    assert OthersKept(blob0, blob, |s.addresses|, i);
  }

  lemma {:induction false} SizedStep(shapes: seq<Shape>, d: Draft, d': Draft, i: nat)
    requires i < |shapes| && Sized(shapes, d, i) && d'.relocs == d.relocs + RelocationsAt(RecordAt(|shapes|, i))
    requires |d'.blob| == RecordEnd(shapes[i], shapes[i].source in d.poses, |d.blob|) && d'.poses.Keys == d.poses.Keys + {shapes[i].source}
    ensures Sized(shapes, d', i + 1)
  {}

  lemma {:induction false} RecordedStep(s: Source, d: Draft, d': Draft, layouts: seq<Layout>, l: Layout)
    requires WellTyped(s) && |layouts| < |s.addresses| && Recorded(s, d, layouts) && |d.blob| <= |d'.blob|
    requires OthersKept(d.blob, d'.blob, |s.addresses|, |layouts|) && PosesHold(d'.blob, s.bank, d'.poses, |s.addresses|)
    requires CleanRows(s, |layouts|, d.patterns, l.cells, l.filed) && Placed(d'.blob, s, |layouts|, l, |d'.blob|)
    requires d'.patterns == l.filed
    ensures Recorded(s, d', layouts + [l])
  {
    WrittenLast(d'.blob, s, layouts, l);
    WrittenStep(d.blob, d'.blob, s, layouts, l);
  }

  lemma {:induction false} CleanNext(s: Source, i: nat)
    requires WellTyped(s) && i < |s.addresses| && CleanTo(s, i) && CleanAt(s, i)
    ensures CleanTo(s, i + 1)
  {}

  lemma {:induction false} CountedStep(s: Source, d: Draft, d': Draft, i: nat, l: Layout)
    requires WellTyped(s) && i < |s.addresses| && Counted(s, d, i) && Convertible(s, i)
    requires ShapesOf(s)[i] == ShapeFor(s, i, l.cells) && CleanAt(s, i) && FiledBefore(s, i + 1) == d'.patterns
    requires d'.relocs == d.relocs + RelocationsAt(RecordAt(|s.addresses|, i))
    requires |d'.blob| == RecordEnd(ShapeFor(s, i, l.cells), s.raw[i][0] in d.poses, |d.blob|)
    requires d'.poses.Keys == d.poses.Keys + {s.raw[i][0]}
    ensures Counted(s, d', i + 1)
  {
    CleanNext(s, i);
    SizedStep(ShapesOf(s), d, d', i);
  }

  /** A record that cannot be placed does not convert cleanly, or its pieces do not fit. */
  lemma {:induction false} Stuck(s: Source, d: Draft, i: nat)
    requires WellTyped(s) && i < |s.addresses| && d.patterns == FiledBefore(s, i) && Sized(ShapesOf(s), d, i) && CleanAt(s, i)
    requires var c := RecordRows(s, i, d.patterns);
             c.Converted? && c.clean && Convertible(s, i) ==> RecordEnd(ShapeFor(s, i, c.cells), s.raw[i][0] in d.poses, |d.blob|) >= LIMIT
    ensures SizeUpTo(ShapesOf(s), i + 1) >= LIMIT
  {
    CleanConverts(s, i);
  }

  method Advance(s: Source, i: nat, d: Draft, ghost layouts: seq<Layout>) returns (ok: bool, d': Draft, ghost layouts': seq<Layout>)
    requires WellTyped(s) && i == |layouts| < |s.addresses| && Progress(s, d, layouts)
    ensures ok ==> |layouts'| == i + 1 && Progress(s, d', layouts')
    ensures !ok ==> !CleanAt(s, i) || SizeUpTo(ShapesOf(s), i + 1) >= LIMIT
  {
    var blob, poses, l;
    ok, blob, poses, l := PlaceRecord(s, i, d.blob, d.poses, d.patterns);
    d', layouts' := Draft(blob, poses, l.filed, d.relocs + RelocationsAt(RecordAt(|s.addresses|, i))), layouts + [l];
    if ok {
      RecordedStep(s, d, d', layouts, l);
      ShapeOfRows(s, i, l.cells, l.filed);
      CountedStep(s, d, d', i, l);
    } else if CleanAt(s, i) {
      Stuck(s, d, i);
    }
  }

  lemma {:induction false} RelocationsAreWords(n: nat, i: nat)
    requires i <= n && BaseOf(n) < LIMIT
    ensures AreWords(RelocationsOf(n, i))
    decreases i
  {
    if i > 0 {
      RelocationsAreWords(n, i - 1);
      assert RecordAt(n, i - 1) + 32 < BaseOf(n);
    }
  }

  lemma {:induction false} WrittenFilable(s: Source, blob: seq<byte>, layouts: seq<Layout>)
    requires WellTyped(s) && Written(blob, s, layouts) && |layouts| == |s.addresses|
    ensures Filable(Before(layouts, |layouts|))
  {
    forall k: nat | k < |layouts| ensures RowsConverted(s, layouts, k) { assert WrittenAt(blob, s, layouts, k); }
    JunAgree.FiledAreInputs(s, layouts, |layouts|);
    JunAgree.InputsFilable(s, Before(layouts, |layouts|));
  }

  /** Relocations, input sequences and the header complete the pack. */
  method Complete(blob: seq<byte>, relocs: seq<int>, patterns: seq<Pattern>, n: nat, neutral: word)
    returns (r: Option<seq<byte>>, ro: nat)
    requires n > 0 && BaseOf(n) <= |blob| < LIMIT && relocs == RelocationsOf(n, n) && Filable(patterns)
    ensures |blob| <= ro
    ensures r.Some? ==> ro < LIMIT && HeaderHolds(r.value, n, neutral, ro) && TailHolds(r.value, n, patterns, ro)
    ensures r.Some? ==> Agree(blob, r.value, 32, |blob|)
    ensures var size := Aligned(|blob|) + 16 * n + 4 + |SequencesBytes(patterns, 0)|;
            (r.Some? <==> size < LIMIT) && (r.Some? ==> |r.value| == size)
  {
    RelocationsAreWords(n, n);
    var table := PackWords(AsWords(relocs));
    var out;
    out, ro := Append(blob, table);
    var data := EncodeSequences(patterns);
    var tail := PackWord(|patterns|) + data;
    var whole := out + tail;
    if |whole| >= LIMIT {
      return None, ro;
    }
    var header := PackWords([JunPack.MAGIC, 4, |whole|, n, neutral, ro, 4 * n, 32 + 16 * n]);
    var p := Patched(whole, 0, header);
    PatchHolds(whole, 0, header);
    PatchKeeps(whole, 0, header, 32, |whole|);
    HoldsKept(whole, p, ro, table);
    HoldsKept(whole, p, ro + 16 * n, tail);
    return Some(p), ro;
  }

  lemma {:induction false} CompletedHolds(blob: seq<byte>, p: seq<byte>, s: Source, layouts: seq<Layout>, ro: word)
    requires WellTyped(s) && Written(blob, s, layouts) && |layouts| == |s.addresses| > 0
    requires |blob| <= ro && Agree(blob, p, 32, |blob|)
    requires 56 < |s.aliases| && s.aliases[56] in s.addresses && IndexOf(s.addresses, s.aliases[56]) < LIMIT
    requires HeaderHolds(p, |layouts|, IndexOf(s.addresses, s.aliases[56]), ro) && TailHolds(p, |layouts|, Before(layouts, |layouts|), ro)
    ensures PackHolds(p, s, layouts, ro)
  {
    forall k: nat | k < |layouts| ensures Placed(p, s, k, layouts[k], ro) && RowsConverted(s, layouts, k) {
      assert WrittenAt(blob, s, layouts, k);
      PlacedKept(blob, p, s, k, layouts[k], |blob|, ro);
    }
  }

  lemma {:induction false} SizeOfDraft(s: Source, d: Draft)
    requires WellTyped(s) && Counted(s, d, |s.addresses|) && Filable(d.patterns)
    ensures PackSize(s) == Aligned(|d.blob|) + 16 * |s.addresses| + 4 + |SequencesBytes(d.patterns, 0)|
  {
    SequencesSized(d.patterns, 0);
  }

  method CompletePack(s: Source, d: Draft, ghost layouts: seq<Layout>) returns (r: Option<seq<byte>>, ghost ro: nat)
    requires WellTyped(s) && HasNeutral(s) && |layouts| == |s.addresses| && Progress(s, d, layouts) && |d.blob| < LIMIT
    ensures r.Some? ==> ro < LIMIT && PackHolds(r.value, s, layouts, ro)
    ensures r.Some? <==> PackSize(s) < LIMIT
    ensures r.Some? ==> |r.value| == PackSize(s)
  {
    WrittenFilable(s, d.blob, layouts);
    SizeOfDraft(s, d);
    var at;
    r, at := Complete(d.blob, d.relocs, d.patterns, |s.addresses|, IndexOf(s.addresses, s.aliases[56]));
    ro := at;
    if r.Some? { CompletedHolds(d.blob, r.value, s, layouts, at); }
  }

  method PlaceRecords(s: Source) returns (ok: bool, d: Draft, ghost layouts: seq<Layout>)
    requires WellTyped(s)
    ensures ok ==> |layouts| == |s.addresses| && Progress(s, d, layouts)
    ensures !ok && CleanTo(s, |s.addresses|) ==> SizeUpTo(ShapesOf(s), |s.addresses|) >= LIMIT
  {
    d := Draft(seq(BaseOf(|s.addresses|), _ => 0), map[], [], []);
    ok, layouts := true, [];
    for i := 0 to |s.addresses|
      invariant ok && |layouts| == i && Progress(s, d, layouts)
    {
      ok, d, layouts := Advance(s, i, d, layouts);
      if !ok {
        SizeGrows(ShapesOf(s), i + 1, |s.addresses|);
        return;
      }
    }
  }

  /** A source makes a pack exactly if it converts cleanly and the pack stays below four gigabytes. */
  method Build(s: Source) returns (r: Option<seq<byte>>, ghost layouts: seq<Layout>, ghost ro: nat)
    requires WellTyped(s)
    ensures r.Some? <==> Clean(s) && PackSize(s) < LIMIT
    ensures r.Some? ==> |r.value| == PackSize(s) && ro < LIMIT && PackHolds(r.value, s, layouts, ro)
    ensures r.Some? ==> (JunPack.IsPack(r.value) <==> JunAgree.WithinLimits(s))
  {
    layouts, ro := [], 0;
    if !HasNeutral(s) {
      return None, layouts, ro;
    }
    var ok, d;
    ok, d, layouts := PlaceRecords(s);
    if !ok || |d.blob| >= LIMIT {
      return None, layouts, ro;
    }
    r, ro := CompletePack(s, d, layouts);
    if r.Some? { JunAgree.AcceptedExactlyWithinLimits(r.value, s, layouts, ro); }
  }

  // ---- A source whose pack is refused ----

  /** One record, the neutral one, with a clip of no frames, no cancel rows and no events. */
  function EmptyClip(): Source {
    var v: seq<word> := [0, 0, 0, 0, 56, 0, 0, 0, 0, 0, 0, 0, 0];
    Source([0x0e, 0x80, 0, 0, 0, 0, 0, 0, 0, 0, 0, 0, 0, 0], [0], seq(57, _ => 0x80010000), [0x80010000], [v], {}, [[0, 0, 0, 0]])
  }

  lemma {:induction false} EmptyClipRows(patterns: seq<Pattern>)
    ensures WellTyped(EmptyClip()) && RecordRows(EmptyClip(), 0, patterns) == Converted([Cell(JunPack.TERMINATOR, 0, 0, 3, 6, 0, 0, 0)], patterns, true)
  {
    var s := EmptyClip();
    assert Half(s.ram, 0) == 0x800e;
    assert CancelRows(s.ram, 0, []) == Some([]);
    assert ConvertRows(s, [], 0, patterns) == Converted([], patterns, true);
    assert Link(s, 56) == Some(3);
    assert [] + [Cell(JunPack.TERMINATOR, 0, 0, 3, 6, 0, 0, 0)] == [Cell(JunPack.TERMINATOR, 0, 0, 3, 6, 0, 0, 0)];
  }

  lemma {:induction false} EmptyClipConverts()
    ensures WellTyped(EmptyClip()) && Clean(EmptyClip()) && FiledBefore(EmptyClip(), |EmptyClip().addresses|) == []
    ensures ShapesOf(EmptyClip()) == [Shape(0, 8, 1, 0, 0)]
  {
    var s := EmptyClip();
    EmptyClipRows([]);
    assert RowsOf(s, 0) == RecordRows(s, 0, []);
    assert PosesFrom(PosesOf(s.bank, 0), 0, 0) == Some([]);
    assert FramesBytes(s.bank, 0) == Some([]);
    assert |ClipBytes(s.bank, 0).value| == 8;
  }

  lemma {:induction false} OneSmallRecord(shapes: seq<Shape>)
    requires shapes == [Shape(0, 8, 1, 0, 0)]
    ensures TotalSize(shapes, []) == 152
  {
    assert SizeUpTo(shapes, 0) == 104;
    assert SizeUpTo(shapes, 1) == 132;
  }

  lemma {:induction false} NoFrames(s: Source, i: nat, rows: Conversion)
    requires WellTyped(s) && i < |s.addresses| && s.raw[i][0] < |s.bank| && s.bank[s.raw[i][0]] == 0
    ensures !JunAgree.WithinLimitsAs(s, i, rows)
  {}

  lemma {:induction false} NoLimits(s: Source, i: nat)
    requires WellTyped(s) && i < |s.addresses| && !JunAgree.RecordWithinLimits(s, i)
    ensures !JunAgree.WithinLimits(s)
  {}

  /** Build writes a pack for this source, and the validator refuses it. */
  lemma {:induction false} RefusedSource()
    ensures WellTyped(EmptyClip()) && Clean(EmptyClip()) && PackSize(EmptyClip()) == 152 && !JunAgree.WithinLimits(EmptyClip())
  {
    var s := EmptyClip();
    EmptyClipConverts();
    OneSmallRecord(ShapesOf(s));
    NoFrames(s, 0, RowsOf(s, 0));
    assert PackSize(s) == TotalSize(ShapesOf(s), []);
    NoLimits(s, 0);
  }
}
