/** The writer and the validator agree: when exactly a finished pack is accepted. */
module JunAgree {
  import opened Options
  import opened Bytes
  import opened JunSource
  import opened JunConvert
  import opened JunLayout
  import opened JunSize
  import opened JunPack
  import Motion

  // ---- Converted rows are what the validator wants ----

  predicate CellOk(c: Cell, n: nat, patterns: nat) {
    IsTarget(c.dest, n) && c.condition < 83 && CommandOk(c.cmd, patterns)
  }

  /** The filed sequences are input sequences, and few enough for the halfword that names them. */
  ghost predicate AllInputs(s: Source, patterns: seq<Pattern>) {
    PATTERN_BASE + |patterns| <= 0x10000 && forall k | 0 <= k < |patterns| :: IsInput(s.ram, patterns[k].cmd, patterns[k].words)
  }

  lemma {:induction false} FiledInRange(patterns: seq<Pattern>, cmd: half)
    ensures Filed(patterns, cmd).Some? ==> Filed(patterns, cmd).value < |patterns|
  {
    if patterns != [] { FiledInRange(patterns[1..], cmd); }
  }

  lemma {:induction false} InputIsInput(ram: seq<byte>, cmd: half)
    ensures Input(ram, cmd).Some? ==> IsInput(ram, cmd, Input(ram, cmd).value)
  {}

  lemma {:induction false} EmittedOk(s: Source, patterns: seq<Pattern>, row: Row)
    requires ConvertRow(s, patterns, row).Emit? && AllInputs(s, patterns)
    ensures var o := ConvertRow(s, patterns, row);
            && patterns <= o.patterns && AllInputs(s, o.patterns)
            && CellOk(o.cell, |s.addresses|, |o.patterns|) && o.cell.cmd != TERMINATOR
  {
    FiledInRange(patterns, row.cmd);
    InputIsInput(s.ram, row.cmd);
  }

  lemma {:induction false} RecoveryOk(s: Source, row: Row, patterns: nat)
    requires Recovery(s, row).Last?
    ensures CellOk(Recovery(s, row).cell, |s.addresses|, patterns) && Recovery(s, row).cell.cmd == TERMINATOR
  {}

  /** Every converted row is acceptable once its input sequences are filed, and only the last may end the list. */
  lemma {:induction false} ConvertedOk(s: Source, rows: seq<Row>, i: nat, patterns: seq<Pattern>)
    requires AllInputs(s, patterns) && ConvertRows(s, rows, i, patterns).Converted?
    ensures var c := ConvertRows(s, rows, i, patterns);
            && patterns <= c.patterns && AllInputs(s, c.patterns)
            && (forall k | 0 <= k < |c.cells| :: CellOk(c.cells[k], |s.addresses|, |c.patterns|))
            && (forall k | 0 <= k < |c.cells| - 1 :: c.cells[k].cmd != TERMINATOR)
    decreases |rows| - i
  {
    if i < |rows| {
      var o := ConvertRow(s, patterns, rows[i]);
      match o
      case Emit(cell, filed) =>
        EmittedOk(s, patterns, rows[i]);
        ConvertedOk(s, rows, i + 1, filed);
        CellsGrow(cell, |s.addresses|, |filed|, |ConvertRows(s, rows, i + 1, filed).patterns|);
      case Last(cell) => RecoveryOk(s, rows[i], |patterns|);
      case Skip(_) => ConvertedOk(s, rows, i + 1, patterns);
      case Fail =>
    }
  }

  lemma {:induction false} CellsGrow(c: Cell, n: nat, few: nat, many: nat)
    requires CellOk(c, n, few) && few <= many
    ensures CellOk(c, n, many)
  {}

  /** The rows of a record are in order once all input sequences are filed. */
  ghost predicate CellsOk(cells: seq<Cell>, n: nat, patterns: nat) {
    && cells != [] && cells[|cells| - 1].cmd == TERMINATOR
    && forall k | 0 <= k < |cells| :: CellOk(cells[k], n, patterns)
  }

  lemma {:induction false} RecordRowsOk(s: Source, i: nat, patterns: seq<Pattern>)
    requires WellTyped(s) && i < |s.addresses| && AllInputs(s, patterns) && RecordRows(s, i, patterns).Converted?
    ensures var c := RecordRows(s, i, patterns);
            && patterns <= c.patterns && AllInputs(s, c.patterns) && CellsOk(c.cells, |s.addresses|, |c.patterns|)
  {
    var v := s.raw[i];
    ConvertedOk(s, CancelRows(s.ram, v[3], []).value, 0, patterns);
  }

  ghost predicate AllConverted(s: Source, layouts: seq<Layout>)
    requires WellTyped(s)
  {
    |s.addresses| == |layouts| && forall k: nat | k < |layouts| :: RowsConverted(s, layouts, k)
  }

  lemma {:induction false} FiledAreInputs(s: Source, layouts: seq<Layout>, i: nat)
    requires WellTyped(s) && i <= |layouts| && AllConverted(s, layouts)
    ensures AllInputs(s, Before(layouts, i))
    decreases i
  {
    if i > 0 {
      FiledAreInputs(s, layouts, i - 1);
      assert RowsConverted(s, layouts, i - 1);
      RecordRowsOk(s, i - 1, Before(layouts, i - 1));
    }
  }

  /** Sequences once filed stay filed under their number. */
  lemma {:induction false} FiledGrow(s: Source, layouts: seq<Layout>, i: nat, j: nat)
    requires WellTyped(s) && i <= j <= |layouts| && AllConverted(s, layouts)
    ensures Before(layouts, i) <= Before(layouts, j)
    decreases j - i
  {
    if i < j {
      FiledAreInputs(s, layouts, i);
      assert RowsConverted(s, layouts, i);
      RecordRowsOk(s, i, Before(layouts, i));
      FiledGrow(s, layouts, i + 1, j);
    }
  }

  // ---- Reading the pieces back ----

  lemma {:induction false} CellInPlace(p: seq<byte>, at: nat, cells: seq<Cell>, k: nat)
    requires Holds(p, at, CellsBytes(cells)) && k < |cells|
    ensures Holds(p, at + 12 * k, CellBytes(cells[k]))
    decreases k
  {
    HoldsPart(p, at, CellBytes(cells[0]), CellsBytes(cells[1..]));
    if k > 0 { CellInPlace(p, at + 12, cells[1..], k - 1); }
  }

  lemma {:induction false} CellFields(p: seq<byte>, at: nat, c: Cell, n: nat, patterns: nat)
    requires Holds(p, at, CellBytes(c))
    ensures at + 12 <= |p| && Half(p, at) == c.cmd
    ensures CancelOk(p, at, n, patterns) <==> CellOk(c, n, patterns)
  {
    var hs: seq<half> := [c.cmd, c.condition * 256, c.param, c.dest];
    HoldsPart(p, at, PackHalves(hs), [c.transition, c.delay, c.first, c.last]);
    HalfInPlace(p, at, hs, 0);
    HalfInPlace(p, at, hs, 1);
    HalfInPlace(p, at, hs, 3);
  }

  /** The cancel list of a record is accepted exactly when it is not too long. */
  lemma {:induction false} CancelsAgree(p: seq<byte>, at: nat, cells: seq<Cell>, limit: nat, n: nat, patterns: nat)
    requires Piece(p, at, CellsBytes(cells), n, limit) && limit <= |p| && CellsOk(cells, n, patterns)
    ensures CancelsOk(p, at, |cells|, BaseOf(n), limit, n, patterns) <==> |cells| <= 4096
  {
    forall j: nat | j < |cells| ensures CancelOk(p, at + 12 * j, n, patterns) {
      CellInPlace(p, at, cells, j);
      CellFields(p, at + 12 * j, cells[j], n, patterns);
    }
    CellInPlace(p, at, cells, |cells| - 1);
    CellFields(p, at + 12 * (|cells| - 1), cells[|cells| - 1], n, patterns);
  }

  lemma {:induction false} PosesLength(poses: nat -> Option<seq<byte>>, f: nat, count: nat)
    requires f <= count && PosesSized(poses) && PosesFrom(poses, f, count).Some?
    ensures |PosesFrom(poses, f, count).value| == 114 * (count - f)
    decreases count - f
  {
    if f < count { PosesLength(poses, f + 1, count); }
  }

  /** A clip is accepted exactly when it has a frame. */
  lemma {:induction false} ClipAgrees(p: seq<byte>, at: nat, bank: seq<byte>, source: word, n: nat, limit: nat)
    requires ClipBytes(bank, source).Some? && Piece(p, at, ClipBytes(bank, source).value, n, limit) && limit <= |p|
    ensures ClipOk(p, at, BaseOf(n), limit) <==> bank[source] != 0
  {
    var head: seq<word> := [CLIP_TAG + bank[source], 57];
    HoldsPart(p, at, PackWords(head), FramesBytes(bank, source).value);
    WordInPlace(p, at, head, 0);
    WordInPlace(p, at, head, 1);
    PosesLength(PosesOf(bank, source), 0, bank[source]);
    LowByteOfTag(p, at, bank[source]);
  }

  lemma {:induction false} LowByteOfTag(p: seq<byte>, at: nat, count: byte)
    requires at + 4 <= |p| && Word(p, at) == CLIP_TAG + count
    ensures p[at] == count
  {}

  lemma {:induction false} SoundsAgree(p: seq<byte>, at: nat, ram: seq<byte>, pointer: word, n: nat, limit: nat)
    requires Sounds(ram, pointer).Some? && Piece(p, at, SoundBytes(Sounds(ram, pointer).value), n, limit) && limit <= |p|
    ensures SoundsOk(p, at, BaseOf(n), limit)
  {
    var sounds := Sounds(ram, pointer).value;
    SoundsShape(ram, pointer);
    HalfInPlace(p, at, sounds + [0xffff], |sounds|);
    assert SoundsEnd(p, at, limit, |sounds|);
  }

  lemma {:induction false} PropertiesAgree(p: seq<byte>, at: nat, ram: seq<byte>, pointer: word, n: nat, limit: nat)
    requires Properties(ram, pointer).Some? && Piece(p, at, PropertyBytes(Properties(ram, pointer).value), n, limit) && limit <= |p|
    ensures PropertiesOk(p, at, BaseOf(n), limit)
  {
    var ps := Properties(ram, pointer).value;
    PropertiesShape(ram, pointer);
    HalfInPlace(p, at, Flattened(ps) + [0, 0], 2 * |ps|);
    assert PropertiesEnd(p, at, limit, |ps|);
  }

  lemma {:induction false} FourInPlace(p: seq<byte>, at: nat, ws: seq<word>, k: nat)
    requires Holds(p, at, PackWords(ws)) && k + 4 <= |ws|
    ensures at + 4 * k + 16 <= |p| && Word(p, at + 4 * k) == ws[k] && Word(p, at + 4 * k + 4) == ws[k + 1]
    ensures Word(p, at + 4 * k + 8) == ws[k + 2] && Word(p, at + 4 * k + 12) == ws[k + 3]
  {
    WordInPlace(p, at, ws, k);
    WordInPlace(p, at, ws, k + 1);
    WordInPlace(p, at, ws, k + 2);
    WordInPlace(p, at, ws, k + 3);
  }

  // ---- The whole pack ----

  ghost predicate LimbsFit(v: word) {
    forall k | 0 <= k < 4 :: PackWord(v)[k] < 18
  }

  /** The limits the source data must respect: none of them is checked while a pack is written. */
  ghost predicate RecordWithinLimits(s: Source, i: nat)
    requires WellTyped(s) && i < |s.addresses|
  {
    WithinLimitsAs(s, i, RowsOf(s, i))
  }

  ghost predicate WithinLimitsAs(s: Source, i: nat, rows: Conversion)
    requires WellTyped(s) && i < |s.addresses|
  {
    var v := s.raw[i];
    && 0x80010000 <= s.addresses[i] < 0x80400000
    && v[0] < |s.bank| && s.bank[v[0]] != 0 && LimbsFit(v[10])
    && rows.Converted? && |rows.cells| <= 4096
  }

  ghost predicate RecordsWithinLimits(s: Source)
    requires WellTyped(s)
  {
    && |FiledBefore(s, |s.addresses|)| <= 1024
    && forall i: nat | i < |s.addresses| :: RecordWithinLimits(s, i)
  }

  /** All six limits, on the source alone. */
  ghost predicate WithinLimits(s: Source)
    requires WellTyped(s)
  {
    PackSize(s) <= MAX_SIZE && |s.addresses| <= 1024 && RecordsWithinLimits(s)
  }

  /** The header words read back, whatever else the pack holds. */
  ghost predicate HeaderRead(p: seq<byte>, n: nat, neutral: word, ro: word) {
    && 32 <= |p| && Word(p, 0) == MAGIC && Word(p, 4) == 4 && Word(p, 8) == |p| && Count(p) == n
    && Neutral(p) == neutral && Relocations(p) == ro && Word(p, 24) == 4 * n && Records(p) == 32 + 16 * n
  }

  lemma {:induction false} HeaderFields(p: seq<byte>, n: nat, neutral: word, ro: word)
    requires HeaderHolds(p, n, neutral, ro)
    ensures HeaderRead(p, n, neutral, ro)
  {
    var h: seq<word> := [MAGIC, 4, |p|, n, neutral, ro, 4 * n, 32 + 16 * n];
    FourInPlace(p, 0, h, 0);
    FourInPlace(p, 0, h, 4);
  }

  lemma {:induction false} RelocationFields(n: nat, i: nat, k: nat)
    requires k < i
    ensures RelocationsOf(n, i)[4 * k] == JunLayout.RecordAt(n, k) && RelocationsOf(n, i)[4 * k + 1] == JunLayout.RecordAt(n, k) + 12
    ensures RelocationsOf(n, i)[4 * k + 2] == JunLayout.RecordAt(n, k) + 28 && RelocationsOf(n, i)[4 * k + 3] == JunLayout.RecordAt(n, k) + 32
    decreases i
  {
    if k < i - 1 { RelocationFields(n, i - 1, k); }
  }

  /** The i-th four relocations name the pointer fields of record i. */
  ghost predicate Relocated(p: seq<byte>, ro: nat, rp: nat, i: nat) {
    && ro + 16 * i + 16 <= |p|
    && Word(p, ro + 16 * i) == rp && Word(p, ro + 16 * i + 4) == rp + 12
    && Word(p, ro + 16 * i + 8) == rp + 28 && Word(p, ro + 16 * i + 12) == rp + 32
  }

  lemma {:induction false} RelocationsInPlace(p: seq<byte>, ro: nat, n: nat, i: nat)
    requires AreWords(RelocationsOf(n, n)) && Holds(p, ro, PackWords(AsWords(RelocationsOf(n, n)))) && i < n
    ensures Relocated(p, ro, JunLayout.RecordAt(n, i), i)
  {
    RelocationFields(n, n, i);
    FourInPlace(p, ro, AsWords(RelocationsOf(n, n)), 4 * i);
  }

  ghost predicate Located(p: seq<byte>, n: nat, ro: word) {
    HeaderOk(p) && Count(p) == n && Relocations(p) == ro && Records(p) == 32 + 16 * n
  }

  /** The metadata words of record i lie in place. */
  ghost predicate Described(p: seq<byte>, i: nat, provenance: word, rp: nat, rows: word) {
    32 + 16 * i + 16 <= |p| && Word(p, 32 + 16 * i + 4) == provenance && Word(p, 32 + 16 * i + 8) == rp && Word(p, 32 + 16 * i + 12) == rows
  }

  lemma {:induction false} MetaInPlace(p: seq<byte>, i: nat, m: seq<word>)
    requires |m| == 4 && Holds(p, MetaAt(i), PackWords(m))
    ensures Described(p, i, m[1], m[2], m[3])
  {
    FourInPlace(p, MetaAt(i), m, 0);
  }

  /** The links of a record are accepted exactly when its source address lies in the expected range. */
  lemma {:induction false} LinksAgree(p: seq<byte>, n: nat, ro: word, i: nat, provenance: word, rows: word)
    requires i < n && Located(p, n, ro)
    requires Described(p, i, provenance, JunLayout.RecordAt(n, i), rows) && Relocated(p, ro, JunLayout.RecordAt(n, i), i)
    ensures Rows(p, i) == rows
    ensures LinksOk(p, i) <==> 0x80010000 <= provenance < 0x80400000
  {}

  lemma {:induction false} TargetIsTarget(s: Source, alias: nat)
    ensures Link(s, alias).Some? ==> IsTarget(Link(s, alias).value, |s.addresses|)
  {}

  lemma {:induction false} HalfOfWord(p: seq<byte>, at: nat)
    requires at + 4 <= |p|
    ensures Half(p, at) == Word(p, at) % 0x10000
  {}

  lemma {:induction false} LimbsAgree(p: seq<byte>, at: nat)
    requires at + 4 <= |p|
    ensures LimbsOk(p, at) <==> LimbsFit(Word(p, at))
  {
    PackOfWord(p, at);
    assert forall k | at <= k < at + 4 :: p[k] == p[at..at + 4][k - at];
    assert forall k | 0 <= k < 4 :: PackWord(Word(p, at))[k] == p[at + k];
  }

  /** The fields the validator reads from a record are the ones the writer packed. */
  lemma {:induction false} RecordFields(p: seq<byte>, s: Source, i: nat, l: Layout, limit: nat)
    requires WellTyped(s) && i < |s.addresses| && Placed(p, s, i, l, limit)
    ensures var rp := JunLayout.RecordAt(|s.addresses|, i);
            && rp + 56 <= |p| && Word(p, rp) == l.clip && Word(p, rp + 12) == l.cancels
            && Word(p, rp + 28) == l.sounds && Word(p, rp + 32) == l.props
            && Word(p, rp + 40) == s.raw[i][10]
            && IsTarget(Half(p, rp + 16), |s.addresses|)
  {
    var rp := JunLayout.RecordAt(|s.addresses|, i);
    var v := s.raw[i];
    var t := Fields(v, s.native[i], Link(s, LowHalf(v[4])).value, s.bank[v[0]], l);
    WordInPlace(p, rp, t, 0);
    WordInPlace(p, rp, t, 3);
    WordInPlace(p, rp, t, 4);
    WordInPlace(p, rp, t, 7);
    WordInPlace(p, rp, t, 8);
    WordInPlace(p, rp, t, 10);
    HalfOfWord(p, rp + 16);
    TargetIsTarget(s, LowHalf(v[4]));
  }

  lemma {:induction false} ListsAgree(p: seq<byte>, ram: seq<byte>, v: seq<word>, l: Layout, n: nat, ro: word, i: nat)
    requires i < n && Located(p, n, ro) && |v| == 13 && Sounds(ram, v[7]).Some? && Properties(ram, v[8]).Some?
    requires var rp := JunLayout.RecordAt(n, i);
             rp + 56 <= |p| && Word(p, rp + 28) == l.sounds && Word(p, rp + 32) == l.props && Word(p, rp + 40) == v[10]
    requires Piece(p, l.sounds, SoundBytes(Sounds(ram, v[7]).value), n, ro)
    requires Piece(p, l.props, PropertyBytes(Properties(ram, v[8]).value), n, ro)
    ensures ListsOk(p, i) <==> LimbsFit(v[10])
  {
    SoundsAgree(p, l.sounds, ram, v[7], n, ro);
    PropertiesAgree(p, l.props, ram, v[8], n, ro);
    LimbsAgree(p, JunPack.RecordAt(p, i) + 40);
  }

  lemma {:induction false} RowsOk(s: Source, layouts: seq<Layout>, i: nat)
    requires WellTyped(s) && i < |layouts| && AllConverted(s, layouts)
    ensures CellsOk(layouts[i].cells, |layouts|, |Before(layouts, |layouts|)|)
  {
    FiledAreInputs(s, layouts, i);
    assert RowsConverted(s, layouts, i);
    RecordRowsOk(s, i, Before(layouts, i));
    FiledGrow(s, layouts, i + 1, |layouts|);
    CellsStayOk(layouts[i].cells, |layouts|, |layouts[i].filed|, |Before(layouts, |layouts|)|);
  }

  lemma {:induction false} CellsStayOk(cells: seq<Cell>, n: nat, few: nat, many: nat)
    requires CellsOk(cells, n, few) && few <= many
    ensures CellsOk(cells, n, many)
  {
    forall k | 0 <= k < |cells| ensures CellOk(cells[k], n, many) { CellsGrow(cells[k], n, few, many); }
  }

  lemma {:induction false} MotionAgrees(p: seq<byte>, bank: seq<byte>, source: word, l: Layout, n: nat, ro: word, i: nat)
    requires i < n && Located(p, n, ro) && ClipBytes(bank, source).Some?
    requires var rp := JunLayout.RecordAt(n, i);
             rp + 56 <= |p| && Word(p, rp) == l.clip && Word(p, rp + 12) == l.cancels && IsTarget(Half(p, rp + 16), n)
    requires Piece(p, l.clip, ClipBytes(bank, source).value, n, ro) && Piece(p, l.cancels, CellsBytes(l.cells), n, ro)
    requires Rows(p, i) == |l.cells| && CellsOk(l.cells, n, PatternCount(p))
    ensures MotionOk(p, i) <==> bank[source] != 0 && |l.cells| <= 4096
  {
    ClipAgrees(p, l.clip, bank, source, n, ro);
    CancelsAgree(p, l.cancels, l.cells, ro, n, PatternCount(p));
  }

  // ---- The input sequences ----

  lemma {:induction false} SequenceAgrees(p: seq<byte>, at: nat, ram: seq<byte>, i: nat, pattern: Pattern)
    requires IsInput(ram, pattern.cmd, pattern.words) && PATTERN_BASE + i < 0x10000
    requires Holds(p, at, SequenceBytes(i, pattern.words))
    ensures PatternOk(p, at, i) && Half(p, at + 2) == |pattern.words|
  {
    var w := pattern.words;
    var hs := [PATTERN_BASE + i, |w|] + w;
    HalfInPlace(p, at, hs, 0);
    HalfInPlace(p, at, hs, 1);
    HalfInPlace(p, at, hs, 2);
    HalfInPlace(p, at, hs, |w| + 1);
  }

  lemma {:induction false} SequencesAgree(p: seq<byte>, at: nat, s: Source, patterns: seq<Pattern>, i: nat)
    requires AllInputs(s, patterns) && Filable(patterns) && i <= |patterns|
    requires Holds(p, at, SequencesBytes(patterns, i)) && at + |SequencesBytes(patterns, i)| == |p|
    ensures PatternsOk(p, at, i, |patterns|)
    decreases |patterns| - i
  {
    if i < |patterns| {
      var first := SequenceBytes(i, patterns[i].words);
      HoldsPart(p, at, first, SequencesBytes(patterns, i + 1));
      SequenceAgrees(p, at, s.ram, i, patterns[i]);
      SequencesAgree(p, at + |first|, s, patterns, i + 1);
    }
  }

  lemma {:induction false} InputsFilable(s: Source, patterns: seq<Pattern>)
    requires AllInputs(s, patterns)
    ensures Filable(patterns)
  {
    forall k | 0 <= k < |patterns| ensures |patterns[k].words| < 0x10000 { assert IsInput(s.ram, patterns[k].cmd, patterns[k].words); }
  }

  lemma {:induction false} PatternTableAgrees(p: seq<byte>, s: Source, patterns: seq<Pattern>, n: nat, ro: word)
    requires Located(p, n, ro) && TailHolds(p, n, patterns, ro) && AllInputs(s, patterns)
    ensures PatternCount(p) == |patterns| && PatternsOk(p, PatternTable(p) + 4, 0, |patterns|)
  {
    var at := ro + 16 * n;
    HoldsPart(p, at, PackWord(|patterns|), SequencesBytes(patterns, 0));
    WordOfSlice(p, at, PackWord(|patterns|), 0);
    SequencesAgree(p, at + 4, s, patterns, 0);
  }

  lemma {:induction false} RecordAgrees(p: seq<byte>, s: Source, l: Layout, ro: word, i: nat, rows: Conversion)
    requires WellTyped(s) && i < |s.addresses| && Located(p, |s.addresses|, ro) && Placed(p, s, i, l, ro)
    requires Relocated(p, ro, JunLayout.RecordAt(|s.addresses|, i), i) && CellsOk(l.cells, |s.addresses|, PatternCount(p))
    requires rows.Converted? && rows.cells == l.cells
    ensures RecordOk(p, i) <==> WithinLimitsAs(s, i, rows)
  {
    LinksOfRecord(p, s, l, ro, i);
    RecordFields(p, s, i, l, ro);
    PartsAgree(p, s, l, ro, i);
  }

  lemma {:induction false} PartsAgree(p: seq<byte>, s: Source, l: Layout, ro: word, i: nat)
    requires WellTyped(s) && i < |s.addresses| && Located(p, |s.addresses|, ro) && PiecesPlaced(p, s, i, l, ro)
    requires var rp := JunLayout.RecordAt(|s.addresses|, i);
             && rp + 56 <= |p| && Word(p, rp) == l.clip && Word(p, rp + 12) == l.cancels && IsTarget(Half(p, rp + 16), |s.addresses|)
             && Word(p, rp + 28) == l.sounds && Word(p, rp + 32) == l.props && Word(p, rp + 40) == s.raw[i][10]
    requires Rows(p, i) == |l.cells| && CellsOk(l.cells, |s.addresses|, PatternCount(p))
    ensures MotionOk(p, i) <==> s.bank[s.raw[i][0]] != 0 && |l.cells| <= 4096
    ensures ListsOk(p, i) <==> LimbsFit(s.raw[i][10])
  {
    MotionAgrees(p, s.bank, s.raw[i][0], l, |s.addresses|, ro, i);
    ListsAgree(p, s.ram, s.raw[i], l, |s.addresses|, ro, i);
  }

  lemma {:induction false} LinksOfRecord(p: seq<byte>, s: Source, l: Layout, ro: word, i: nat)
    requires WellTyped(s) && i < |s.addresses| && Located(p, |s.addresses|, ro) && Placed(p, s, i, l, ro)
    requires Relocated(p, ro, JunLayout.RecordAt(|s.addresses|, i), i)
    ensures Rows(p, i) == |l.cells| && (LinksOk(p, i) <==> 0x80010000 <= s.addresses[i] < 0x80400000)
  {
    var n := |s.addresses|;
    MetaInPlace(p, i, [s.raw[i][0], s.addresses[i], JunLayout.RecordAt(n, i), |l.cells|]);
    LinksAgree(p, n, ro, i, s.addresses[i], |l.cells|);
  }

  lemma {:induction false} RecordsAgree(p: seq<byte>, s: Source, layouts: seq<Layout>, ro: word, i: nat)
    requires WellTyped(s) && AllConverted(s, layouts) && Located(p, |layouts|, ro) && i < |layouts|
    requires Placed(p, s, i, layouts[i], ro) && Relocated(p, ro, JunLayout.RecordAt(|layouts|, i), i)
    requires PatternCount(p) == |Before(layouts, |layouts|)|
    ensures RecordOk(p, i) <==> RecordWithinLimits(s, i)
  {
    RowsOk(s, layouts, i);
    LayoutsOfSource(s, layouts, i);
    RecordAgrees(p, s, layouts[i], ro, i, RowsOf(s, i));
  }

  lemma {:induction false} HeaderAgrees(p: seq<byte>, n: nat, neutral: word, ro: word)
    requires HeaderHolds(p, n, neutral, ro) && neutral < n && BaseOf(n) <= ro && ro + 16 * n + 4 <= |p|
    ensures HeaderOk(p) <==> |p| <= MAX_SIZE && n <= 1024
    ensures HeaderOk(p) ==> Located(p, n, ro)
  {
    HeaderFields(p, n, neutral, ro);
  }

  ghost predicate Matching(p: seq<byte>, s: Source)
    requires WellTyped(s) && HeaderOk(p) && Count(p) == |s.addresses|
  {
    forall i: nat | i < |s.addresses| :: RecordOk(p, i) <==> RecordWithinLimits(s, i)
  }

  lemma {:induction false} TablesAgree(p: seq<byte>, s: Source, layouts: seq<Layout>, ro: word)
    requires WellTyped(s) && PackHolds(p, s, layouts, ro) && Located(p, |layouts|, ro)
    ensures PatternCount(p) == |FiledBefore(s, |s.addresses|)| && PatternsOk(p, PatternTable(p) + 4, 0, PatternCount(p))
    ensures Matching(p, s)
  {
    FiledAreInputs(s, layouts, |layouts|);
    LayoutsOfSource(s, layouts, |layouts|);
    PatternTableAgrees(p, s, Before(layouts, |layouts|), |layouts|, ro);
    forall i: nat | i < |layouts| ensures RecordOk(p, i) <==> RecordWithinLimits(s, i) {
      RelocationsInPlace(p, ro, |layouts|, i);
      RecordsAgree(p, s, layouts, ro, i);
    }
  }

  lemma {:induction false} MatchingDecides(p: seq<byte>, s: Source)
    requires WellTyped(s) && HeaderOk(p) && Count(p) == |s.addresses| && Matching(p, s)
    requires PatternCount(p) == |FiledBefore(s, |s.addresses|)| && PatternsOk(p, PatternTable(p) + 4, 0, PatternCount(p))
    ensures IsPack(p) <==> RecordsWithinLimits(s)
  {}

  /** A finished pack is accepted exactly when it is small enough and its source respects the limits. */
  lemma {:induction false} AcceptedExactlyWithinLimits(p: seq<byte>, s: Source, layouts: seq<Layout>, ro: word)
    requires WellTyped(s) && PackHolds(p, s, layouts, ro)
    ensures IsPack(p) <==> |p| <= MAX_SIZE && |s.addresses| <= 1024 && RecordsWithinLimits(s)
  {
    HeaderAgrees(p, |layouts|, IndexOf(s.addresses, s.aliases[56]), ro);
    if HeaderOk(p) {
      TablesAgree(p, s, layouts, ro);
      MatchingDecides(p, s);
    }
  }
}
