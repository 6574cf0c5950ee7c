/** What a source converts to and how large its pack is, before anything is written (tools/convert_jun_moves.py). */
module JunSize {
  import opened Options
  import opened Bytes
  import opened JunSource
  import opened JunConvert
  import opened JunLayout

  // ---- The conversion of every record ----

  /** The input sequences filed before record i is converted. */
  ghost function FiledBefore(s: Source, i: nat): seq<Pattern>
    requires WellTyped(s) && i <= |s.addresses|
    decreases i, 0
  {
    if i == 0 then []
    else match RowsOf(s, i - 1)
      case Failed => []
      case Converted(_, patterns, _) => patterns
  }

  ghost function RowsOf(s: Source, i: nat): Conversion
    requires WellTyped(s) && i < |s.addresses|
    decreases i, 1
  {
    RecordRows(s, i, FiledBefore(s, i))
  }

  /** Record i converts, and no row of it is left without a translation. */
  ghost predicate CleanAt(s: Source, i: nat)
    requires WellTyped(s) && i < |s.addresses|
  {
    RowsOf(s, i).Converted? && RowsOf(s, i).clean && Convertible(s, i)
  }

  ghost predicate CleanTo(s: Source, i: nat)
    requires WellTyped(s) && i <= |s.addresses|
  {
    forall k: nat | k < i :: CleanAt(s, k)
  }

  predicate HasNeutral(s: Source) {
    56 < |s.aliases| && s.aliases[56] in s.addresses
  }

  /** Everything converts, and the neutral move is among the records. */
  ghost predicate Clean(s: Source)
    requires WellTyped(s)
  {
    HasNeutral(s) && CleanTo(s, |s.addresses|)
  }

  /** Layouts that carry the converted rows carry those of the source. */
  lemma {:induction false} LayoutsOfSource(s: Source, layouts: seq<Layout>, i: nat)
    requires WellTyped(s) && i <= |layouts| <= |s.addresses| && forall k: nat | k < |layouts| :: RowsConverted(s, layouts, k)
    ensures Before(layouts, i) == FiledBefore(s, i)
    ensures i < |layouts| ==> RowsOf(s, i) == Converted(layouts[i].cells, layouts[i].filed, true)
    decreases i
  {
    if i > 0 { LayoutsOfSource(s, layouts, i - 1); }
    if i < |layouts| { assert RowsConverted(s, layouts, i); }
  }

  // ---- Its size ----

  /** The next word boundary. */
  function Aligned(n: nat): (m: nat)
    ensures n <= m < n + 4 && m % 4 == 0
  {
    (n + 3) / 4 * 4
  }

  /** What one record adds to a pack: the source of its clip and the clip's bytes, and the entries of its three lists. */
  datatype Shape = Shape(source: word, clip: nat, cells: nat, sounds: nat, props: nat)

  ghost function ShapeAt(s: Source, i: nat): Shape
    requires WellTyped(s) && i < |s.addresses|
  {
    var v, rows := s.raw[i], RowsOf(s, i);
    var clip, sounds, props := ClipBytes(s.bank, v[0]), Sounds(s.ram, v[7]), Properties(s.ram, v[8]);
    Shape(v[0], if clip.Some? then |clip.value| else 0, if rows.Converted? then |rows.cells| else 0,
          if sounds.Some? then |sounds.value| else 0, if props.Some? then |props.value| else 0)
  }

  ghost function ShapesOf(s: Source): (shapes: seq<Shape>)
    requires WellTyped(s)
    ensures |shapes| == |s.addresses| && forall i | 0 <= i < |shapes| :: shapes[i] == ShapeAt(s, i)
  {
    seq(|s.addresses|, i requires 0 <= i < |s.addresses| && WellTyped(s) => ShapeAt(s, i))
  }

  /** A source is encoded as a clip only by the first record that uses it. */
  ghost predicate MetBefore(shapes: seq<Shape>, i: nat, source: word)
    requires i <= |shapes|
  {
    exists k: nat :: k < i && shapes[k].source == source
  }

  function ClipEnd(at: nat, met: bool, size: nat): nat {
    if met then at else Aligned(at) + size
  }

  /** Cancel rows, sound events and timed properties, each list with its end. */
  function ListsEnd(at: nat, cells: nat, sounds: nat, props: nat): nat {
    Aligned(Aligned(Aligned(at) + 12 * cells) + 2 * sounds + 2) + 4 * props + 4
  }

  /** Where the pieces of a record end that are written from the given offset on. */
  function RecordEnd(shape: Shape, met: bool, at: nat): (end: nat)
    ensures at <= end
  {
    ListsEnd(ClipEnd(at, met, shape.clip), shape.cells, shape.sounds, shape.props)
  }

  /** The size of header, tables and the pieces of the first i records. */
  ghost function SizeUpTo(shapes: seq<Shape>, i: nat): nat
    requires i <= |shapes|
  {
    if i == 0 then BaseOf(|shapes|)
    else RecordEnd(shapes[i - 1], MetBefore(shapes, i - 1, shapes[i - 1].source), SizeUpTo(shapes, i - 1))
  }

  function SequencesSize(patterns: seq<Pattern>, i: nat): nat
    requires i <= |patterns|
    decreases |patterns| - i
  {
    if i == |patterns| then 0 else 4 + 2 * |patterns[i].words| + SequencesSize(patterns, i + 1)
  }

  ghost function TotalSize(shapes: seq<Shape>, patterns: seq<Pattern>): nat {
    Aligned(SizeUpTo(shapes, |shapes|)) + 16 * |shapes| + 4 + SequencesSize(patterns, 0)
  }

  /** The exact size of the pack: the pieces, the relocations and the input sequences. */
  ghost function PackSize(s: Source): nat
    requires WellTyped(s)
  {
    TotalSize(ShapesOf(s), FiledBefore(s, |s.addresses|))
  }

  lemma {:induction false} SizeGrows(shapes: seq<Shape>, i: nat, j: nat)
    requires i <= j <= |shapes|
    ensures SizeUpTo(shapes, i) <= SizeUpTo(shapes, j)
    decreases j - i
  {
    if i < j { SizeGrows(shapes, i, j - 1); }
  }

  lemma {:induction false} SequencesSized(patterns: seq<Pattern>, i: nat)
    requires Filable(patterns) && i <= |patterns|
    ensures |SequencesBytes(patterns, i)| == SequencesSize(patterns, i)
    decreases |patterns| - i
  {
    if i < |patterns| { SequencesSized(patterns, i + 1); }
  }
}
