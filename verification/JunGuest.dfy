/** What a loaded record holds in guest memory, against the arcade's memory byte for byte (src/tekken3_jun_combat.c). */
module JunGuest {
  import opened Options
  import opened Bytes
  import opened JunSource
  import opened JunConvert
  import opened JunLayout
  import JunPack
  import JunAgree
  import JunArena
  import JunRows
  import JunLists
  import JunPlayback

  // ---- Words as bytes ----

  lemma {:induction false} WordBytesAt(p: seq<byte>, at: nat, ws: seq<word>, k: nat)
    requires Holds(p, at, PackWords(ws)) && k < |ws|
    ensures at + 4 * k + 4 <= |p| && p[at + 4 * k..at + 4 * k + 4] == PackWord(ws[k]) && Word(p, at + 4 * k) == ws[k]
  {
    WordInPlace(p, at, ws, k);
    PackOfWord(p, at + 4 * k);
  }

  lemma {:induction false} LowHalfReplaced(v: word, link: half)
    ensures var w, was := PackWord(Relinked(v, link)), PackWord(v); w[2] == was[2] && w[3] == was[3] && w[0] as int + 256 * w[1] as int == link
  {
    var high := v / 0x10000;
    assert Relinked(v, link) / 0x100 == high * 0x100 + link / 0x100;
    assert Relinked(v, link) / 0x100 / 0x100 == high;
    assert v / 0x100 / 0x100 == high;
  }

  lemma {:induction false} LowByteReplaced(v: word, count: byte)
    ensures var w, was := PackWord(WithCount(v, count)), PackWord(v); w[0] == count && w[1] == was[1] && w[2] == was[2] && w[3] == was[3]
  {
    assert WithCount(v, count) / 0x100 == v / 0x100;
  }

  lemma {:induction false} FramesMoved(v: word)
    ensures var w, was := PackWord(ActiveFrames(v)), PackWord(v); w == [was[2], was[0], was[1], 0]
  {
    var was := PackWord(v);
    var moved := [was[2], was[0], was[1], 0];
    assert v == Word(was, 0);
    FramesOfBytes(was[0], was[1], was[2], was[3]);
    assert ActiveFrames(v) == Word(moved, 0);
    PackOfWord(moved, 0);
    assert moved[0..4] == moved;
  }

  lemma {:induction false} FramesOfBytes(b0: byte, b1: byte, b2: byte, b3: byte)
    ensures ActiveFrames(b0 as int + 0x100 * b1 as int + 0x10000 * b2 as int + 0x1000000 * b3 as int)
            == b2 as int + 0x100 * b0 as int + 0x10000 * b1 as int
  {
    var low, top := b0 as int + 0x100 * b1 as int, b2 as int + 0x100 * b3 as int;
    var v := low + 0x10000 * top;
    assert v % 0x10000 == low && v / 0x10000 == top;
    LowByte(b2, b3);
  }

  // ---- The record ----

  /**
   * A record in guest memory against its original: the words that are kept, the recovery link with the facing half above
   * it, the number of frames under the rest of its word, the active frames one byte further up, and the translated words.
   */
  ghost predicate RecordHeld(a: seq<byte>, rp: nat, s: Source, i: nat)
    requires WellTyped(s) && i < |s.addresses|
  {
    var at, source, native := s.addresses[i] % 0x400000, s.raw[i][0], s.native[i];
    && at + 52 <= |s.ram| && rp + 56 <= |a| && source == Word(s.ram, at) < |s.bank|
    && a[rp + 4..rp + 8] == s.ram[at + 4..at + 8] && a[rp + 8..rp + 12] == s.ram[at + 8..at + 12] && a[rp + 40..rp + 44] == s.ram[at + 40..at + 44]
    && JunRows.Leads(s, Half(s.ram, at + 16), Half(a, rp + 16)) && a[rp + 18..rp + 20] == s.ram[at + 18..at + 20]
    && a[rp + 24] == s.bank[source] && a[rp + 25..rp + 28] == s.ram[at + 25..at + 28]
    && a[rp + 44] == s.ram[at + 46] && a[rp + 45..rp + 47] == s.ram[at + 44..at + 46] && a[rp + 47] == 0
    && Word(a, rp + 20) == native[0] && Word(a, rp + 36) == native[1] && Word(a, rp + 48) == native[2] && Word(a, rp + 52) == native[3]
  }

  /** The record's metadata: the source of its clip, where it came from, where it lies, and how many cancel rows it has. */
  ghost predicate MetadataHeld(a: seq<byte>, s: Source, i: nat, rp: nat, rows: nat)
    requires WellTyped(s) && i < |s.addresses|
  {
    var m := 32 + 16 * i;
    m + 16 <= |a| && Word(a, m) == s.raw[i][0] && Word(a, m + 4) == s.addresses[i] && Word(a, m + 8) == rp && Word(a, m + 12) == rows
  }

  lemma {:induction false} RawBytes(s: Source, i: nat, k: nat)
    requires WellTyped(s) && i < |s.addresses| && Record(s.ram, s.addresses[i]) == Some(s.raw[i]) && k < 13
    ensures var at := s.addresses[i] % 0x400000;
            at + 52 <= |s.ram| && s.raw[i][k] == Word(s.ram, at + 4 * k) && PackWord(s.raw[i][k]) == s.ram[at + 4 * k..at + 4 * k + 4]
  {
    PackOfWord(s.ram, s.addresses[i] % 0x400000 + 4 * k);
  }

  /** The bytes of a table word that holds a given value, in a copy of the table. */
  ghost predicate Spells(a: seq<byte>, at: nat, w: word) {
    at + 4 <= |a| && a[at..at + 4] == PackWord(w) && Word(a, at) == w
  }

  /** The fields of a record spell what the writer packs. */
  ghost predicate FieldsSpelled(a: seq<byte>, rp: nat, t: seq<word>) {
    && |t| == 14 && rp + 56 <= |a|
    && forall k | 0 <= k < 14 && k != 0 && k != 3 && k != 7 && k != 8 :: Spells(a, rp + 4 * k, t[k])
  }

  lemma {:induction false} KeptWord(a: seq<byte>, rp: nat, t: seq<word>, s: Source, i: nat, k: nat)
    requires WellTyped(s) && i < |s.addresses| && Record(s.ram, s.addresses[i]) == Some(s.raw[i]) && k < 13
    requires FieldsSpelled(a, rp, t) && k != 0 && k != 3 && k != 7 && k != 8 && t[k] == s.raw[i][k]
    ensures var at := s.addresses[i] % 0x400000; at + 52 <= |s.ram| && a[rp + 4 * k..rp + 4 * k + 4] == s.ram[at + 4 * k..at + 4 * k + 4]
  {
    assert Spells(a, rp + 4 * k, t[k]);
    RawBytes(s, i, k);
  }

  lemma {:induction false} LinkWord(a: seq<byte>, rp: nat, t: seq<word>, s: Source, i: nat, link: half)
    requires WellTyped(s) && i < |s.addresses| && Record(s.ram, s.addresses[i]) == Some(s.raw[i])
    requires FieldsSpelled(a, rp, t) && t[4] == Relinked(s.raw[i][4], link) && Link(s, LowHalf(s.raw[i][4])) == Some(link)
    ensures var at := s.addresses[i] % 0x400000;
            at + 52 <= |s.ram| && JunRows.Leads(s, Half(s.ram, at + 16), Half(a, rp + 16)) && a[rp + 18..rp + 20] == s.ram[at + 18..at + 20]
  {
    var at := s.addresses[i] % 0x400000;
    assert Spells(a, rp + 4 * 4, t[4]);
    RawBytes(s, i, 4);
    LowHalfReplaced(s.raw[i][4], link);
    JunAgree.HalfOfWord(s.ram, at + 16);
    JunRows.TargetLeads(s, LowHalf(s.raw[i][4]), link);
    assert a[rp + 16..rp + 20][0] == a[rp + 16] && a[rp + 16..rp + 20][1] == a[rp + 17];
    assert a[rp + 16..rp + 20][2] == a[rp + 18] && a[rp + 16..rp + 20][3] == a[rp + 19];
    assert s.ram[at + 16..at + 20][2] == s.ram[at + 18] && s.ram[at + 16..at + 20][3] == s.ram[at + 19];
  }

  lemma {:induction false} FourBytes(p: seq<byte>, at: nat)
    requires at + 4 <= |p|
    ensures p[at..at + 4] == [p[at], p[at + 1], p[at + 2], p[at + 3]]
  {}

  lemma {:induction false} CountWord(a: seq<byte>, rp: nat, t: seq<word>, s: Source, i: nat, count: byte)
    requires WellTyped(s) && i < |s.addresses| && Record(s.ram, s.addresses[i]) == Some(s.raw[i])
    requires FieldsSpelled(a, rp, t) && t[6] == WithCount(s.raw[i][6], count)
    ensures var at := s.addresses[i] % 0x400000; at + 52 <= |s.ram| && a[rp + 24] == count && a[rp + 25..rp + 28] == s.ram[at + 25..at + 28]
  {
    var at := s.addresses[i] % 0x400000;
    assert Spells(a, rp + 4 * 6, t[6]);
    RawBytes(s, i, 6);
    LowByteReplaced(s.raw[i][6], count);
    FourBytes(a, rp + 24);
    FourBytes(s.ram, at + 24);
  }

  lemma {:induction false} FramesWord(a: seq<byte>, rp: nat, t: seq<word>, s: Source, i: nat)
    requires WellTyped(s) && i < |s.addresses| && Record(s.ram, s.addresses[i]) == Some(s.raw[i])
    requires FieldsSpelled(a, rp, t) && t[11] == ActiveFrames(s.raw[i][11])
    ensures var at := s.addresses[i] % 0x400000;
            at + 52 <= |s.ram| && a[rp + 44] == s.ram[at + 46] && a[rp + 45..rp + 47] == s.ram[at + 44..at + 46] && a[rp + 47] == 0
  {
    var at := s.addresses[i] % 0x400000;
    assert Spells(a, rp + 4 * 11, t[11]);
    RawBytes(s, i, 11);
    FramesMoved(s.raw[i][11]);
    FourBytes(a, rp + 44);
    FourBytes(s.ram, at + 44);
  }

  /** The words that are kept, the relinked word, the counted word and the moved frames. */
  ghost predicate WordsKept(a: seq<byte>, rp: nat, s: Source, i: nat)
    requires WellTyped(s) && i < |s.addresses|
  {
    var at := s.addresses[i] % 0x400000;
    && at + 52 <= |s.ram| && rp + 56 <= |a|
    && a[rp + 4..rp + 8] == s.ram[at + 4..at + 8] && a[rp + 8..rp + 12] == s.ram[at + 8..at + 12] && a[rp + 40..rp + 44] == s.ram[at + 40..at + 44]
  }

  lemma {:induction false} SpelledKept(a: seq<byte>, rp: nat, s: Source, i: nat, t: seq<word>)
    requires WellTyped(s) && i < |s.addresses| && Record(s.ram, s.addresses[i]) == Some(s.raw[i]) && FieldsSpelled(a, rp, t)
    requires t[1] == s.raw[i][1] && t[2] == s.raw[i][2] && t[10] == s.raw[i][10]
    ensures WordsKept(a, rp, s, i)
  {
    KeptWord(a, rp, t, s, i, 1);
    KeptWord(a, rp, t, s, i, 2);
    KeptWord(a, rp, t, s, i, 10);
  }

  lemma {:induction false} TranslatedSpelled(a: seq<byte>, rp: nat, t: seq<word>)
    requires FieldsSpelled(a, rp, t)
    ensures Word(a, rp + 20) == t[5] && Word(a, rp + 36) == t[9] && Word(a, rp + 48) == t[12] && Word(a, rp + 52) == t[13]
  {
    assert Spells(a, rp + 4 * 5, t[5]) && Spells(a, rp + 4 * 9, t[9]) && Spells(a, rp + 4 * 12, t[12]) && Spells(a, rp + 4 * 13, t[13]);
  }

  /** Each of the fourteen words but the four pointers, against the words of the record it is made from. */
  predicate FieldsOf(t: seq<word>, v: seq<word>, native: seq<word>, link: half, count: byte) {
    && |t| == 14 && |v| == 13 && |native| == 4
    && t[1] == v[1] && t[2] == v[2] && t[10] == v[10] && t[4] == Relinked(v[4], link) && t[6] == WithCount(v[6], count)
    && t[11] == ActiveFrames(v[11]) && t[5] == native[0] && t[9] == native[1] && t[12] == native[2] && t[13] == native[3]
  }

  lemma {:induction false} SpelledHeld(a: seq<byte>, rp: nat, s: Source, i: nat, t: seq<word>, link: half)
    requires WellTyped(s) && i < |s.addresses| && Record(s.ram, s.addresses[i]) == Some(s.raw[i])
    requires Link(s, LowHalf(s.raw[i][4])) == Some(link) && s.raw[i][0] < |s.bank|
    requires FieldsSpelled(a, rp, t) && FieldsOf(t, s.raw[i], s.native[i], link, s.bank[s.raw[i][0]])
    ensures RecordHeld(a, rp, s, i)
  {
    RawBytes(s, i, 0);
    SpelledKept(a, rp, s, i, t);
    LinkWord(a, rp, t, s, i, link);
    CountWord(a, rp, t, s, i, s.bank[s.raw[i][0]]);
    FramesWord(a, rp, t, s, i);
    TranslatedSpelled(a, rp, t);
  }

  // ---- Through the loader ----

  lemma {:induction false} NotPointer(p: seq<byte>, i: nat, off: nat)
    requires JunPack.HeaderOk(p) && i < JunPack.Count(p) && off < 56 && (4 <= off < 12 || 16 <= off < 28 || 36 <= off)
    ensures JunPack.RecordAt(p, i) + off < JunPack.Base(p) && !JunArena.IsPointerByte(p, JunPack.RecordAt(p, i) + off)
  {
    JunArena.InRecord(56 * i + off, i);
  }

  ghost predicate Loaded(a: seq<byte>, p: seq<byte>, guest: nat) {
    JunPack.HeaderOk(p) && JunArena.AllReadable(p) && JunArena.Progress(a, p, guest, JunPack.Count(p), 0)
  }

  lemma {:induction false} ByteCopied(a: seq<byte>, p: seq<byte>, guest: nat, i: nat, off: nat)
    requires Loaded(a, p, guest) && i < JunPack.Count(p) && off < 56 && (4 <= off < 12 || 16 <= off < 28 || 36 <= off)
    ensures var at := JunPack.RecordAt(p, i) + off; at < |a| && at < |p| && a[at] == p[at]
  {
    NotPointer(p, i, off);
  }

  lemma {:induction false} FourSame(a: seq<byte>, p: seq<byte>, at: nat)
    requires at + 4 <= |a| && at + 4 <= |p| && a[at] == p[at] && a[at + 1] == p[at + 1] && a[at + 2] == p[at + 2] && a[at + 3] == p[at + 3]
    ensures a[at..at + 4] == p[at..at + 4] && Word(a, at) == Word(p, at)
  {
    assert a[at..at + 4] == [a[at], a[at + 1], a[at + 2], a[at + 3]];
    assert p[at..at + 4] == [p[at], p[at + 1], p[at + 2], p[at + 3]];
  }

  lemma {:induction false} WordCopied(a: seq<byte>, p: seq<byte>, guest: nat, i: nat, off: nat)
    requires Loaded(a, p, guest) && i < JunPack.Count(p) && IsKept(off)
    ensures var at := JunPack.RecordAt(p, i) + off; at + 4 <= |a| && at + 4 <= |p| && a[at..at + 4] == p[at..at + 4]
  {
    ByteCopied(a, p, guest, i, off);
    ByteCopied(a, p, guest, i, off + 1);
    ByteCopied(a, p, guest, i, off + 2);
    ByteCopied(a, p, guest, i, off + 3);
    FourSame(a, p, JunPack.RecordAt(p, i) + off);
  }

  lemma {:induction false} SpelledSame(a: seq<byte>, p: seq<byte>, at: nat, w: word)
    requires Spells(p, at, w) && at + 4 <= |a| && a[at..at + 4] == p[at..at + 4]
    ensures Spells(a, at, w)
  {
    assert a[at..at + 4][0] == a[at] && a[at..at + 4][1] == a[at + 1] && a[at..at + 4][2] == a[at + 2] && a[at..at + 4][3] == a[at + 3];
  }

  lemma {:induction false} FieldCopied(a: seq<byte>, p: seq<byte>, guest: nat, i: nat, t: seq<word>, k: nat)
    requires Loaded(a, p, guest) && i < JunPack.Count(p) && |t| == 14 && Holds(p, JunPack.RecordAt(p, i), PackWords(t))
    requires 1 <= k < 14 && k != 3 && k != 7 && k != 8
    ensures Spells(a, JunPack.RecordAt(p, i) + 4 * k, t[k])
  {
    WordBytesAt(p, JunPack.RecordAt(p, i), t, k);
    FieldSame(a, p, guest, i, k, t[k]);
  }

  lemma {:induction false} FieldSame(a: seq<byte>, p: seq<byte>, guest: nat, i: nat, k: nat, w: word)
    requires Loaded(a, p, guest) && i < JunPack.Count(p) && 1 <= k < 14 && k != 3 && k != 7 && k != 8
    requires Spells(p, JunPack.RecordAt(p, i) + 4 * k, w)
    ensures Spells(a, JunPack.RecordAt(p, i) + 4 * k, w)
  {
    var off := 4 * k;
    KeptOffset(k);
    WordKept(a, p, guest, i, off, w);
  }

  /** The fields that are no pointers. */
  predicate IsKept(off: nat) { off + 3 < 56 && (4 <= off < 9 || 16 <= off < 25 || 36 <= off) }

  lemma {:induction false} KeptOffset(k: nat)
    requires 1 <= k < 14 && k != 3 && k != 7 && k != 8
    ensures IsKept(4 * k)
  {}

  lemma {:induction false} WordKept(a: seq<byte>, p: seq<byte>, guest: nat, i: nat, off: nat, w: word)
    requires Loaded(a, p, guest) && i < JunPack.Count(p) && IsKept(off) && Spells(p, JunPack.RecordAt(p, i) + off, w)
    ensures Spells(a, JunPack.RecordAt(p, i) + off, w)
  {
    WordCopied(a, p, guest, i, off);
    SpelledSame(a, p, JunPack.RecordAt(p, i) + off, w);
  }

  lemma {:induction false} FieldsCopied(a: seq<byte>, p: seq<byte>, guest: nat, i: nat, t: seq<word>)
    requires Loaded(a, p, guest) && i < JunPack.Count(p) && |t| == 14 && Holds(p, JunPack.RecordAt(p, i), PackWords(t))
    ensures FieldsSpelled(a, JunPack.RecordAt(p, i), t)
  {
    var rp := JunPack.RecordAt(p, i);
    forall k | 0 <= k < 14 && k != 0 && k != 3 && k != 7 && k != 8 ensures Spells(a, rp + 4 * k, t[k]) {
      FieldCopied(a, p, guest, i, t, k);
    }
    assert Spells(a, rp + 4 * 13, t[13]);
  }

  lemma {:induction false} PlacedRecord(a: seq<byte>, p: seq<byte>, s: Source, l: Layout, ro: word, guest: nat, i: nat)
    requires WellTyped(s) && i < |s.addresses| && Placed(p, s, i, l, ro) && Loaded(a, p, guest) && i < JunPack.Count(p)
    requires JunPack.RecordAt(p, i) == JunLayout.RecordAt(|s.addresses|, i) && Record(s.ram, s.addresses[i]) == Some(s.raw[i])
    ensures RecordHeld(a, JunPack.RecordAt(p, i), s, i)
  {
    var v := s.raw[i];
    var link, count := Link(s, LowHalf(v[4])).value, s.bank[v[0]];
    var t := Fields(v, s.native[i], link, count, l);
    FieldsCopied(a, p, guest, i, t);
    SpelledHeld(a, JunPack.RecordAt(p, i), s, i, t, link);
  }

  /** Byte for byte, a loaded record is the arcade's record, converted. */
  lemma {:induction false} RecordSurvives(a: seq<byte>, p: seq<byte>, s: Source, layouts: seq<Layout>, ro: word, guest: nat, i: nat)
    requires WellTyped(s) && PackHolds(p, s, layouts, ro) && JunPack.IsPack(p) && i < |layouts|
    requires Loaded(a, p, guest) && Record(s.ram, s.addresses[i]) == Some(s.raw[i])
    ensures JunPack.Count(p) == |layouts| && RecordHeld(a, JunPack.RecordAt(p, i), s, i)
  {
    JunPlayback.RecordRead(p, s, layouts, ro, i);
    PlacedRecord(a, p, s, layouts[i], ro, guest, i);
  }

  lemma {:induction false} TableWord(a: seq<byte>, p: seq<byte>, guest: nat, at: nat)
    requires Loaded(a, p, guest) && at + 4 <= JunPack.Records(p)
    ensures at + 4 <= |a| && at + 4 <= |p| && Word(a, at) == Word(p, at)
  {
    forall b: nat | b < at + 4 ensures b < |a| && b < |p| && a[b] == p[b] { assert !JunArena.IsPointerByte(p, b); }
  }

  lemma {:induction false} MetadataCopied(a: seq<byte>, p: seq<byte>, guest: nat, i: nat, m: seq<word>)
    requires Loaded(a, p, guest) && i < JunPack.Count(p) && |m| == 4 && Holds(p, MetaAt(i), PackWords(m))
    ensures var at := MetaAt(i);
            at + 16 <= |a| && Word(a, at) == m[0] && Word(a, at + 4) == m[1] && Word(a, at + 8) == m[2] && Word(a, at + 12) == m[3]
  {
    var at := MetaAt(i);
    JunAgree.FourInPlace(p, at, m, 0);
    TableWord(a, p, guest, at);
    TableWord(a, p, guest, at + 4);
    TableWord(a, p, guest, at + 8);
    TableWord(a, p, guest, at + 12);
  }

  lemma {:induction false} PlacedMetadata(a: seq<byte>, p: seq<byte>, s: Source, l: Layout, ro: word, guest: nat, i: nat)
    requires WellTyped(s) && i < |s.addresses| && Placed(p, s, i, l, ro) && Loaded(a, p, guest) && i < JunPack.Count(p)
    ensures MetadataHeld(a, s, i, JunLayout.RecordAt(|s.addresses|, i), |l.cells|)
  {
    MetadataCopied(a, p, guest, i, [s.raw[i][0], s.addresses[i], JunLayout.RecordAt(|s.addresses|, i), |l.cells|]);
  }

  /** The metadata of a loaded record name the arcade clip and record it comes from, and its own place and rows. */
  lemma {:induction false} MetadataSurvives(a: seq<byte>, p: seq<byte>, s: Source, layouts: seq<Layout>, ro: word, guest: nat, i: nat)
    requires WellTyped(s) && PackHolds(p, s, layouts, ro) && JunPack.IsPack(p) && i < |layouts| && Loaded(a, p, guest)
    ensures JunPack.Count(p) == |layouts| && MetadataHeld(a, s, i, JunPack.RecordAt(p, i), JunPack.Rows(p, i))
  {
    JunPlayback.RecordRead(p, s, layouts, ro, i);
    PlacedMetadata(a, p, s, layouts[i], ro, guest, i);
  }

  // ---- The lists behind the pointers ----

  lemma {:induction false} HeldLists(a: seq<byte>, to: JunPlayback.Places, s: Source, l: Layout, i: nat) returns (n: nat, picked: seq<nat>, end: nat)
    requires WellTyped(s) && i < |s.addresses| && Convertible(s, i) && JunPlayback.GuestHolds(a, to, s, l, i)
    ensures JunLists.SoundsHeld(a, to.sounds, s.ram, s.raw[i][7], n) && JunLists.PropertiesHeld(a, to.props, s.ram, s.raw[i][8], picked, end)
  {
    n := |Sounds(s.ram, s.raw[i][7]).value|;
    JunLists.SoundsCarried(a, to.sounds, s.ram, s.raw[i][7]);
    picked, end := JunLists.PropertiesCarried(a, to.props, s.ram, s.raw[i][8]);
  }

  /** Halfword for halfword, the sounds and timed properties in guest memory are those in the arcade's memory, converted. */
  lemma {:induction false} ListsSurvive(a: seq<byte>, p: seq<byte>, s: Source, layouts: seq<Layout>, ro: word, guest: nat, i: nat)
    returns (n: nat, picked: seq<nat>, end: nat)
    requires WellTyped(s) && PackHolds(p, s, layouts, ro) && JunPack.IsPack(p) && i < |layouts| && Loaded(a, p, guest)
    ensures JunPack.Count(p) == |layouts| && JunLists.SoundsHeld(a, JunArena.PieceAt(p, i, 2), s.ram, s.raw[i][7], n)
    ensures JunLists.PropertiesHeld(a, JunArena.PieceAt(p, i, 3), s.ram, s.raw[i][8], picked, end)
  {
    JunPlayback.SourceSurvives(a, p, s, layouts, ro, guest, i);
    n, picked, end := HeldLists(a, JunPlayback.InArena(p, i), s, layouts[i], i);
  }
}
