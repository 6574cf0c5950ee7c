/** Laying converted records out as a pack (tools/convert_jun_moves.py), stated as what the finished bytes hold where. */
module JunLayout {
  import opened Options
  import opened Bytes
  import opened JunSource
  import opened JunConvert
  import JunPack
  import Motion

  // ---- The pieces a record points at ----

  function PoseBytes(bank: seq<byte>, source: word, f: nat): (r: Option<seq<byte>>)
    ensures r.Some? ==> |r.value| == 114
  {
    match Motion.Frame(bank, source, f, 57)
    case None => None
    case Some(pose) =>
      Motion.FrameLength(bank, source, f, 57);
      Some(PackHalves(pose))
  }

  function PosesOf(bank: seq<byte>, source: word): (poses: nat -> Option<seq<byte>>)
  {
    (f: nat) => PoseBytes(bank, source, f)
  }

  /** Poses f up to count, one behind the other. */
  function PosesFrom(poses: nat -> Option<seq<byte>>, f: nat, count: nat): Option<seq<byte>>
    decreases count - f
  {
    if f >= count then Some([]) else Joined(poses(f), PosesFrom(poses, f + 1, count))
  }

  ghost predicate PosesSized(poses: nat -> Option<seq<byte>>) {
    forall f: nat :: poses(f).Some? ==> |poses(f).value| == 114
  }

  /** The frames of a clip, each as 57 halfwords. */
  function FramesBytes(bank: seq<byte>, source: word): Option<seq<byte>>
    requires source < |bank|
  {
    PosesFrom(PosesOf(bank, source), 0, bank[source])
  }

  function ClipBytes(bank: seq<byte>, source: word): Option<seq<byte>> {
    if source >= |bank| then None
    else Joined(Some(PackWords([JunPack.CLIP_TAG + bank[source], 57])), FramesBytes(bank, source))
  }

  function Flattened(ps: seq<Property>): (hs: seq<half>)
    ensures |hs| == 2 * |ps|
  {
    if ps == [] then [] else [ps[0].frame, ps[0].op] + Flattened(ps[1..])
  }

  function SoundBytes(sounds: seq<half>): seq<byte> { PackHalves(sounds + [0xffff]) }

  function PropertyBytes(ps: seq<Property>): seq<byte> { PackHalves(Flattened(ps) + [0, 0]) }

  /** Where the pieces of one record went, the cancel rows that went there, and the input sequences filed by then. */
  datatype Layout = Layout(clip: word, cancels: word, sounds: word, props: word, cells: seq<Cell>, filed: seq<Pattern>)

  function LowHalf(v: word): half { v % 0x10000 }

  /** The recovery link, under the facing half of the original. */
  function Relinked(v: word, link: half): (r: word)
    ensures LowHalf(r) == link
  {
    v / 0x10000 * 0x10000 + link
  }

  function WithCount(v: word, count: byte): word { v / 0x100 * 0x100 + count }

  /** The active frames, one byte further up. */
  function ActiveFrames(v: word): word { v % 0x10000 * 0x100 + v / 0x10000 % 0x100 }

  /** The fourteen words of the converted record. */
  function Fields(v: seq<word>, n: seq<word>, link: half, count: byte, l: Layout): (t: seq<word>)
    requires |v| == 13 && |n| == 4
    ensures |t| == 14
  {
    [l.clip, v[1], v[2], l.cancels,
     Relinked(v[4], link),
     n[0], WithCount(v[6], count), l.sounds, l.props,
     n[1], v[10], ActiveFrames(v[11]), n[2], n[3]]
  }

  function MetaAt(i: nat): nat { 32 + 16 * i }

  function RecordAt(n: nat, i: nat): nat { 32 + 16 * n + 56 * i }

  function BaseOf(n: nat): nat { 32 + 72 * n }

  /** A piece lies aligned behind the record table and inside the limit. */
  ghost predicate Piece(p: seq<byte>, at: nat, bytes: seq<byte>, n: nat, limit: nat) {
    BaseOf(n) <= at && at % 4 == 0 && at + |bytes| <= limit && Holds(p, at, bytes)
  }

  ghost predicate Convertible(s: Source, i: nat)
    requires WellTyped(s) && i < |s.addresses|
  {
    var v := s.raw[i];
    && ClipBytes(s.bank, v[0]).Some? && Link(s, LowHalf(v[4])).Some?
    && Sounds(s.ram, v[7]).Some? && Properties(s.ram, v[8]).Some?
  }

  /** Everything the fields of record i point at lies in place. */
  ghost predicate PiecesPlaced(p: seq<byte>, s: Source, i: nat, l: Layout, limit: nat)
    requires WellTyped(s) && i < |s.addresses|
  {
    var n, v := |s.addresses|, s.raw[i];
    && Convertible(s, i)
    && Piece(p, l.clip, ClipBytes(s.bank, v[0]).value, n, limit)
    && Piece(p, l.cancels, CellsBytes(l.cells), n, limit)
    && Piece(p, l.sounds, SoundBytes(Sounds(s.ram, v[7]).value), n, limit)
    && Piece(p, l.props, PropertyBytes(Properties(s.ram, v[8]).value), n, limit)
  }

  /** Record i is placed: its metadata, its fields, and every piece its fields point at. */
  ghost predicate Placed(p: seq<byte>, s: Source, i: nat, l: Layout, limit: nat)
    requires WellTyped(s) && i < |s.addresses|
  {
    var n, v := |s.addresses|, s.raw[i];
    && PiecesPlaced(p, s, i, l, limit) && RecordAt(n, i) < 0x1_0000_0000 && |l.cells| < 0x1_0000_0000
    && Holds(p, MetaAt(i), PackWords([v[0], s.addresses[i], RecordAt(n, i), |l.cells|]))
    && Holds(p, RecordAt(n, i), PackWords(Fields(v, s.native[i], Link(s, LowHalf(v[4])).value, s.bank[v[0]], l)))
  }

  // ---- Conversions in table order ----

  /** The rows of record i, converted with the input sequences filed so far. */
  ghost function RecordRows(s: Source, i: nat, patterns: seq<Pattern>): Conversion
    requires WellTyped(s) && i < |s.addresses|
  {
    match CancelRows(s.ram, s.raw[i][3], [])
    case None => Failed
    case Some(rows) => Closed(s, s.raw[i][4], ConvertRows(s, rows, 0, patterns))
  }

  /** The input sequences filed before record i is converted. */
  function Before(layouts: seq<Layout>, i: nat): seq<Pattern>
    requires i <= |layouts|
  {
    if i == 0 then [] else layouts[i - 1].filed
  }

  /** The conversion of record i succeeds with these rows and sequences, and leaves no row untranslated. */
  ghost predicate CleanRows(s: Source, i: nat, patterns: seq<Pattern>, cells: seq<Cell>, filed: seq<Pattern>)
    requires WellTyped(s) && i < |s.addresses|
  {
    RecordRows(s, i, patterns) == Converted(cells, filed, true)
  }

  /** The layouts carry exactly the converted rows, record by record, and no row was dropped for want of a translation. */
  ghost predicate RowsConverted(s: Source, layouts: seq<Layout>, i: nat)
    requires WellTyped(s) && i < |layouts| && i < |s.addresses|
  {
    CleanRows(s, i, Before(layouts, i), layouts[i].cells, layouts[i].filed)
  }

  // ---- The end of the pack ----

  /** The pointer fields of one record. */
  function RelocationsAt(rp: nat): seq<int> { [rp, rp + 12, rp + 28, rp + 32] }

  function RelocationsOf(n: nat, i: nat): (r: seq<int>)
    ensures |r| == 4 * i
  {
    if i == 0 then [] else RelocationsOf(n, i - 1) + RelocationsAt(RecordAt(n, i - 1))
  }

  predicate AreWords(vs: seq<int>) { forall k | 0 <= k < |vs| :: 0 <= vs[k] < 0x1_0000_0000 }

  function AsWords(vs: seq<int>): (ws: seq<word>)
    requires AreWords(vs)
    ensures |ws| == |vs| && forall k | 0 <= k < |vs| :: ws[k] == vs[k]
  {
    seq(|vs|, k requires 0 <= k < |vs| => vs[k])
  }

  function SequenceBytes(i: nat, words: seq<half>): (r: seq<byte>)
    requires JunPack.PATTERN_BASE + i < 0x10000 && |words| < 0x10000
    ensures |r| == 4 + 2 * |words|
  {
    PackHalves([JunPack.PATTERN_BASE + i, |words|] + words)
  }

  predicate Filable(patterns: seq<Pattern>) {
    JunPack.PATTERN_BASE + |patterns| <= 0x10000 && forall k | 0 <= k < |patterns| :: |patterns[k].words| < 0x10000
  }

  function SequencesBytes(patterns: seq<Pattern>, i: nat): seq<byte>
    requires i <= |patterns| && Filable(patterns)
    decreases |patterns| - i
  {
    if i == |patterns| then [] else SequenceBytes(i, patterns[i].words) + SequencesBytes(patterns, i + 1)
  }

  ghost predicate HeaderHolds(p: seq<byte>, n: nat, neutral: word, ro: word) {
    && |p| < 0x1_0000_0000 && BaseOf(n) < 0x1_0000_0000
    && Holds(p, 0, PackWords([JunPack.MAGIC, 4, |p|, n, neutral, ro, 4 * n, 32 + 16 * n]))
  }

  /** Relocations, then the input sequences, to the very end. */
  ghost predicate TailHolds(p: seq<byte>, n: nat, patterns: seq<Pattern>, ro: nat) {
    && Filable(patterns) && AreWords(RelocationsOf(n, n)) && Holds(p, ro, PackWords(AsWords(RelocationsOf(n, n))))
    && Holds(p, ro + 16 * n, PackWord(|patterns|) + SequencesBytes(patterns, 0))
    && |p| == ro + 16 * n + 4 + |SequencesBytes(patterns, 0)|
  }

  /** The whole pack, as the source determines it and the layouts locate it. */
  ghost predicate PackHolds(p: seq<byte>, s: Source, layouts: seq<Layout>, ro: word)
    requires WellTyped(s)
  {
    var n := |s.addresses|;
    && |layouts| == n > 0 && BaseOf(n) <= ro
    && (forall i: nat | i < n :: Placed(p, s, i, layouts[i], ro) && RowsConverted(s, layouts, i))
    && 56 < |s.aliases| && s.aliases[56] in s.addresses
    && IndexOf(s.addresses, s.aliases[56]) < 0x1_0000_0000 && HeaderHolds(p, n, IndexOf(s.addresses, s.aliases[56]), ro)
    && TailHolds(p, n, Before(layouts, n), ro)
  }
}
