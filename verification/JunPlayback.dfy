/** From arcade source to guest memory: what the converter writes, the loader serves. */
module JunPlayback {
  import opened Options
  import opened Bytes
  import opened JunSource
  import opened JunConvert
  import opened JunLayout
  import JunPack
  import JunAgree
  import JunRows
  import JunLists
  import JunArena
  import JunCombat
  import Motion

  // ---- Reading packed clips back ----

  lemma {:induction false} PoseInPlace(p: seq<byte>, at: nat, poses: nat -> Option<seq<byte>>, f0: nat, f: nat, count: nat)
    requires f0 <= f < count && PosesSized(poses) && PosesFrom(poses, f0, count).Some?
    requires Holds(p, at, PosesFrom(poses, f0, count).value)
    ensures poses(f).Some? && Holds(p, at + 114 * (f - f0), poses(f).value)
    decreases f - f0
  {
    HoldsPart(p, at, poses(f0).value, PosesFrom(poses, f0 + 1, count).value);
    if f0 < f { PoseInPlace(p, at + 114, poses, f0 + 1, f, count); }
  }

  lemma {:induction false} PoseRead(p: seq<byte>, clip: nat, bank: seq<byte>, source: word, f: nat)
    requires PoseBytes(bank, source, f).Some? && Holds(p, clip + 8 + 114 * f, PoseBytes(bank, source, f).value)
    ensures Motion.Frame(bank, source, f, 57) == Some(JunCombat.PoseAt(p, clip, f))
  {
    Motion.FrameLength(bank, source, f, 57);
    var pose := Motion.Frame(bank, source, f, 57).value;
    forall c | 0 <= c < 57 ensures Half(p, clip + 8 + 114 * f + 2 * c) == pose[c] {
      HalfInPlace(p, clip + 8 + 114 * f, pose, c);
    }
    assert pose == JunCombat.PoseAt(p, clip, f);
  }

  /** A clip in a pack serves exactly the frames of the arcade decoder. */
  lemma {:induction false} ClipServes(p: seq<byte>, clip: nat, bank: seq<byte>, source: word, f: nat)
    requires ClipBytes(bank, source).Some? && Holds(p, clip, ClipBytes(bank, source).value) && f < bank[source]
    ensures clip + 8 + 114 * f + 114 <= |p| && p[clip] == bank[source]
    ensures Motion.Frame(bank, source, f, 57) == Some(JunCombat.PoseAt(p, clip, f))
  {
    var head: seq<word> := [JunPack.CLIP_TAG + bank[source], 57];
    HoldsPart(p, clip, PackWords(head), FramesBytes(bank, source).value);
    PoseInPlace(p, clip + 8, PosesOf(bank, source), 0, f, bank[source]);
    PoseRead(p, clip, bank, source, f);
    WordInPlace(p, clip, head, 0);
    JunAgree.LowByteOfTag(p, clip, bank[source]);
  }

  lemma {:induction false} RecordRead(p: seq<byte>, s: Source, layouts: seq<Layout>, ro: word, i: nat)
    requires WellTyped(s) && PackHolds(p, s, layouts, ro) && JunPack.IsPack(p) && i < |layouts|
    ensures JunPack.Count(p) == |layouts| && JunPack.Rows(p, i) == |layouts[i].cells| && Placed(p, s, i, layouts[i], ro)
    ensures JunArena.Clip(p, i) == layouts[i].clip && JunArena.Cancels(p, i) == layouts[i].cancels
    ensures JunArena.Sounds(p, i) == layouts[i].sounds && JunArena.Properties(p, i) == layouts[i].props
  {
    JunAgree.HeaderFields(p, |layouts|, IndexOf(s.addresses, s.aliases[56]), ro);
    assert Placed(p, s, i, layouts[i], ro);
    RecordPointers(p, s, layouts[i], ro, i);
  }

  lemma {:induction false} RecordPointers(p: seq<byte>, s: Source, l: Layout, ro: word, i: nat)
    requires WellTyped(s) && i < |s.addresses| && JunAgree.Located(p, |s.addresses|, ro) && Placed(p, s, i, l, ro)
    ensures JunPack.Rows(p, i) == |l.cells|
    ensures JunArena.Clip(p, i) == l.clip && JunArena.Cancels(p, i) == l.cancels
    ensures JunArena.Sounds(p, i) == l.sounds && JunArena.Properties(p, i) == l.props
  {
    JunAgree.MetaInPlace(p, i, [s.raw[i][0], s.addresses[i], JunLayout.RecordAt(|s.addresses|, i), |l.cells|]);
    JunAgree.RecordFields(p, s, i, l, ro);
  }

  /** Every frame of every record plays back as the arcade decoder gives it. */
  lemma {:induction false} PosesSurvive(p: seq<byte>, s: Source, layouts: seq<Layout>, ro: word, i: nat, f: nat)
    requires WellTyped(s) && PackHolds(p, s, layouts, ro) && JunPack.IsPack(p) && i < |layouts|
    requires s.raw[i][0] < |s.bank| && f < s.bank[s.raw[i][0]]
    ensures JunPack.Count(p) == |layouts| && JunCombat.ServesInside(p, i)
    ensures Motion.Frame(s.bank, s.raw[i][0], f, 57) == Some(JunCombat.Served(p, i, f))
  {
    RecordRead(p, s, layouts, ro, i);
    assert JunPack.RecordOk(p, i);
    ClipServes(p, layouts[i].clip, s.bank, s.raw[i][0], f);
  }

  // ---- Cancel rows, sounds and properties in guest memory ----

  /** The events a guest sound list plays: everything before the first 0xffff. */
  ghost predicate Plays(a: seq<byte>, at: nat, events: seq<half>) {
    && at + 2 * |events| + 2 <= |a| && Half(a, at + 2 * |events|) == 0xffff
    && forall k | 0 <= k < |events| :: events[k] == Half(a, at + 2 * k) != 0xffff
  }

  lemma {:induction false} SoundsCopied(a: seq<byte>, at: nat, p: seq<byte>, from: nat, events: seq<half>)
    requires |events| <= 3 && 0xffff !in events && Holds(p, from, SoundBytes(events)) && from + 6 <= |p|
    requires Holds(a, at, p[from..from + 6] + [255, 255])
    ensures Plays(a, at, events)
  {
    var copy := p[from..from + 6] + [255, 255];
    forall k: nat | k <= |events| ensures Half(a, at + 2 * k) == (events + [0xffff])[k] {
      HalfOfSlice(a, at, copy, 2 * k);
      HalfInPlace(p, from, events + [0xffff], k);
      if k < 3 { assert copy[2 * k] == p[from + 2 * k] && copy[2 * k + 1] == p[from + 2 * k + 1]; }
    }
    assert (events + [0xffff])[|events|] == 0xffff;
    forall k | 0 <= k < |events| ensures events[k] == Half(a, at + 2 * k) != 0xffff {
      assert events[k] in events && events[k] == (events + [0xffff])[k];
    }
  }

  lemma {:induction false} RowsOfList(p: seq<byte>, at: nat, ps: seq<Property>, j: nat)
    requires Holds(p, at, PropertyBytes(ps)) && j <= |ps| && forall k | 0 <= k < |ps| :: ps[k].frame != 0
    ensures JunArena.PropRows(p, at, j) == |ps| + 1
    decreases |ps| - j
  {
    HalfInPlace(p, at, Flattened(ps) + [0, 0], 2 * j);
    if j < |ps| {
      JunLists.FlattenedAt(ps, j);
      RowsOfList(p, at, ps, j + 1);
    }
  }

  lemma {:induction false} PropertiesCopied(a: seq<byte>, at: nat, p: seq<byte>, from: nat, ram: seq<byte>, pointer: word)
    requires Properties(ram, pointer).Some? && Holds(p, from, PropertyBytes(Properties(ram, pointer).value))
    requires from + 4 * JunArena.PropRows(p, from, 0) <= |p| && Holds(a, at, p[from..from + 4 * JunArena.PropRows(p, from, 0)])
    ensures Holds(a, at, PropertyBytes(Properties(ram, pointer).value))
  {
    PropertiesShape(ram, pointer);
    var ps := Properties(ram, pointer).value;
    RowsOfList(p, from, ps, 0);
    HoldsSlice(p, from, PropertyBytes(ps));
  }

  /** What the guest finds behind the pointers of record i: the converted rows, the events and the timed properties. */
  ghost predicate GuestHolds(a: seq<byte>, to: Places, s: Source, l: Layout, i: nat)
    requires WellTyped(s) && i < |s.addresses| && Convertible(s, i)
  {
    && Holds(a, to.cancels, CellsBytes(l.cells))
    && Plays(a, to.sounds, Sounds(s.ram, s.raw[i][7]).value)
    && Holds(a, to.props, PropertyBytes(Properties(s.ram, s.raw[i][8]).value))
  }

  /** Where the three lists of a record lie, and how many cancel rows there are. */
  datatype Places = Places(cancels: nat, rows: nat, sounds: nat, props: nat)

  ghost predicate Copied(a: seq<byte>, to: Places, p: seq<byte>, from: Places) {
    && from.cancels + 12 * from.rows <= |p| && from.sounds + 6 <= |p| && from.props + 4 * JunArena.PropRows(p, from.props, 0) <= |p|
    && Holds(a, to.cancels, p[from.cancels..from.cancels + 12 * from.rows])
    && Holds(a, to.sounds, p[from.sounds..from.sounds + 6] + [255, 255])
    && Holds(a, to.props, p[from.props..from.props + 4 * JunArena.PropRows(p, from.props, 0)])
  }

  function InPack(p: seq<byte>, i: nat): Places
    requires JunPack.HeaderOk(p) && i < JunPack.Count(p)
  {
    Places(JunArena.Cancels(p, i), JunPack.Rows(p, i), JunArena.Sounds(p, i), JunArena.Properties(p, i))
  }

  function InArena(p: seq<byte>, i: nat): Places
    requires JunPack.HeaderOk(p) && i < JunPack.Count(p)
  {
    Places(JunArena.PieceAt(p, i, 1), JunPack.Rows(p, i), JunArena.PieceAt(p, i, 2), JunArena.PieceAt(p, i, 3))
  }

  lemma {:induction false} CellsCopied(a: seq<byte>, at: nat, p: seq<byte>, from: nat, cells: seq<Cell>)
    requires Holds(p, from, CellsBytes(cells)) && Holds(a, at, p[from..from + 12 * |cells|])
    ensures Holds(a, at, CellsBytes(cells))
  {
    HoldsSlice(p, from, CellsBytes(cells));
  }

  lemma {:induction false} EventsCopied(a: seq<byte>, at: nat, p: seq<byte>, from: nat, ram: seq<byte>, pointer: word)
    requires Sounds(ram, pointer).Some? && Holds(p, from, SoundBytes(Sounds(ram, pointer).value)) && from + 6 <= |p|
    requires Holds(a, at, p[from..from + 6] + [255, 255])
    ensures Plays(a, at, Sounds(ram, pointer).value)
  {
    SoundsShape(ram, pointer);
    SoundsCopied(a, at, p, from, Sounds(ram, pointer).value);
  }

  lemma {:induction false} CopiedHolds(a: seq<byte>, to: Places, p: seq<byte>, s: Source, l: Layout, limit: nat, i: nat)
    requires WellTyped(s) && i < |s.addresses| && PiecesPlaced(p, s, i, l, limit)
    requires Copied(a, to, p, Places(l.cancels, |l.cells|, l.sounds, l.props))
    ensures GuestHolds(a, to, s, l, i)
  {
    CellsCopied(a, to.cancels, p, l.cancels, l.cells);
    EventsCopied(a, to.sounds, p, l.sounds, s.ram, s.raw[i][7]);
    PropertiesCopied(a, to.props, p, l.props, s.ram, s.raw[i][8]);
  }

  lemma {:induction false} PieceCopied(a: seq<byte>, p: seq<byte>, guest: nat, i: nat, k: nat)
    requires JunPack.HeaderOk(p) && JunArena.AllReadable(p) && JunArena.Progress(a, p, guest, JunPack.Count(p), 0) && i < JunPack.Count(p) && k < 4
    ensures JunArena.Readable(p, i) && Holds(a, JunArena.PieceAt(p, i, k), JunArena.PieceBytes(p, i, k))
  {
    assert JunArena.Readable(p, i);
    assert JunArena.PieceFilled(a, p, guest, i, k);
  }

  lemma {:induction false} CopiedFrom(a: seq<byte>, to: Places, p: seq<byte>, from: Places, cancels: seq<byte>, sounds: seq<byte>, props: seq<byte>)
    requires from.cancels + 12 * from.rows <= |p| && from.sounds + 6 <= |p| && from.props + 4 * JunArena.PropRows(p, from.props, 0) <= |p|
    requires cancels == p[from.cancels..from.cancels + 12 * from.rows] && sounds == p[from.sounds..from.sounds + 6] + [255, 255]
    requires props == p[from.props..from.props + 4 * JunArena.PropRows(p, from.props, 0)]
    requires Holds(a, to.cancels, cancels) && Holds(a, to.sounds, sounds) && Holds(a, to.props, props)
    ensures Copied(a, to, p, from)
  {}

  lemma {:induction false} RecordCopied(a: seq<byte>, p: seq<byte>, guest: nat, i: nat)
    requires JunPack.HeaderOk(p) && JunArena.AllReadable(p) && JunArena.Progress(a, p, guest, JunPack.Count(p), 0) && i < JunPack.Count(p)
    ensures Copied(a, InArena(p, i), p, InPack(p, i))
  {
    PieceCopied(a, p, guest, i, 1);
    PieceCopied(a, p, guest, i, 2);
    PieceCopied(a, p, guest, i, 3);
    CopiedFrom(a, InArena(p, i), p, InPack(p, i), JunArena.PieceBytes(p, i, 1), JunArena.PieceBytes(p, i, 2), JunArena.PieceBytes(p, i, 3));
  }

  /** A loaded pack that was written from a source holds, behind every record's pointers, what the source converts to. */
  lemma {:induction false} SourceSurvives(a: seq<byte>, p: seq<byte>, s: Source, layouts: seq<Layout>, ro: word, guest: nat, i: nat)
    requires WellTyped(s) && PackHolds(p, s, layouts, ro) && JunPack.IsPack(p) && i < |layouts|
    requires JunArena.AllReadable(p) && JunArena.Progress(a, p, guest, JunPack.Count(p), 0)
    ensures JunPack.Count(p) == |layouts| && Convertible(s, i) && GuestHolds(a, InArena(p, i), s, layouts[i], i)
  {
    RecordRead(p, s, layouts, ro, i);
    RecordCopied(a, p, guest, i);
    CopiedHolds(a, InArena(p, i), p, s, layouts[i], ro, i);
  }

  lemma {:induction false} RowsOfLayout(s: Source, layouts: seq<Layout>, i: nat) returns (picked: seq<nat>)
    requires WellTyped(s) && i < |layouts| && JunAgree.AllConverted(s, layouts)
    ensures JunRows.ListCarried(s, i, picked, layouts[i].cells, layouts[i].filed) && layouts[i].cells != []
    ensures layouts[i].filed <= Before(layouts, |layouts|)
  {
    assert RowsConverted(s, layouts, i);
    picked := JunRows.RecordCarried(s, i, Before(layouts, i), layouts[i].cells, layouts[i].filed);
    JunAgree.RowsOk(s, layouts, i);
    JunAgree.FiledGrow(s, layouts, i + 1, |layouts|);
  }

  /** Byte for byte, the cancel rows in guest memory are the record's rows in the arcade's memory, converted. */
  lemma {:induction false} RowsSurvive(a: seq<byte>, p: seq<byte>, s: Source, layouts: seq<Layout>, ro: word, guest: nat, i: nat)
    returns (picked: seq<nat>)
    requires WellTyped(s) && PackHolds(p, s, layouts, ro) && JunPack.IsPack(p) && i < |layouts|
    requires JunArena.AllReadable(p) && JunArena.Progress(a, p, guest, JunPack.Count(p), 0)
    ensures JunPack.Count(p) == |layouts|
    ensures JunRows.RowsHeld(a, JunArena.PieceAt(p, i, 1), JunPack.Rows(p, i), s, i, picked, Before(layouts, |layouts|))
  {
    SourceSurvives(a, p, s, layouts, ro, guest, i);
    RecordRead(p, s, layouts, ro, i);
    picked := RowsOfLayout(s, layouts, i);
    JunRows.CarriedHeld(a, JunArena.PieceAt(p, i, 1), s, i, picked, layouts[i].cells, layouts[i].filed, Before(layouts, |layouts|));
  }
}
