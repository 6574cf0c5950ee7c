/** Copying an accepted pack into guest memory: a size pass, then a fill pass (load_combat in src/tekken3_jun_combat.c). */
module JunArena {
  import opened Bytes
  import opened JunPack

  // ---- What each record takes ----

  /** Property rows from row j up to and including the first with frame zero. */
  function PropRows(p: seq<byte>, at: nat, j: nat): nat
    decreases |p| - at - 4 * j
  {
    if at + 4 * j + 4 > |p| then j
    else if Half(p, at + 4 * j) == 0 then j + 1
    else PropRows(p, at, j + 1)
  }

  lemma {:induction false} PropRowsEnd(p: seq<byte>, at: nat, limit: nat, j: nat, e: nat)
    requires PropertiesEnd(p, at, limit, e) && j <= e
    ensures var r := PropRows(p, at, j);
            && j < r <= e + 1 && at + 4 * r <= limit && Half(p, at + 4 * (r - 1)) == 0
            && forall k: nat | j <= k < r - 1 :: Half(p, at + 4 * k) != 0
    decreases e - j
  {
    if Half(p, at + 4 * j) != 0 { PropRowsEnd(p, at, limit, j + 1, e); }
  }

  /** The pointer fields of a record: clip, cancel rows, sounds and properties, in the order they are filled. */
  function Clip(p: seq<byte>, i: nat): word requires HeaderOk(p) && i < Count(p) { Word(p, RecordAt(p, i)) }

  function Cancels(p: seq<byte>, i: nat): word requires HeaderOk(p) && i < Count(p) { Word(p, RecordAt(p, i) + 12) }

  function Sounds(p: seq<byte>, i: nat): word requires HeaderOk(p) && i < Count(p) { Word(p, RecordAt(p, i) + 28) }

  function Properties(p: seq<byte>, i: nat): word requires HeaderOk(p) && i < Count(p) { Word(p, RecordAt(p, i) + 32) }

  function PieceSize(p: seq<byte>, i: nat, k: nat): nat
    requires HeaderOk(p) && i < Count(p) && k < 4
  {
    match k
    case 0 => 8
    case 1 => 12 * Rows(p, i)
    case 2 => 8
    case 3 => 4 * PropRows(p, Properties(p, i), 0)
  }

  function RecordSize(p: seq<byte>, i: nat): nat
    requires HeaderOk(p) && i < Count(p)
  {
    PieceSize(p, i, 0) + PieceSize(p, i, 1) + PieceSize(p, i, 2) + PieceSize(p, i, 3)
  }

  function SpanAt(p: seq<byte>, i: nat): nat
    requires HeaderOk(p) && i <= Count(p)
    decreases i
  {
    if i == 0 then Base(p) else SpanAt(p, i - 1) + RecordSize(p, i - 1)
  }

  function CompactSize(p: seq<byte>): nat requires HeaderOk(p) { SpanAt(p, Count(p)) }

  function PieceAt(p: seq<byte>, i: nat, k: nat): nat
    requires HeaderOk(p) && i < Count(p) && k < 4
  {
    SpanAt(p, i) + (if k == 0 then 0 else if k == 1 then 8 else if k == 2 then 8 + 12 * Rows(p, i) else 16 + 12 * Rows(p, i))
  }

  lemma {:induction false} SpansOrdered(p: seq<byte>, i: nat, j: nat)
    requires HeaderOk(p) && i <= j <= Count(p)
    ensures SpanAt(p, i) <= SpanAt(p, j)
    decreases j
  {
    if i < j { SpansOrdered(p, i, j - 1); }
  }

  lemma {:induction false} PieceInside(p: seq<byte>, i: nat, k: nat)
    requires HeaderOk(p) && i < Count(p) && k < 4
    ensures Base(p) <= PieceAt(p, i, k) && PieceAt(p, i, k) + PieceSize(p, i, k) <= CompactSize(p)
  {
    PieceInSpan(p, i, k);
    SpansOrdered(p, 0, i);
    SpansOrdered(p, i + 1, Count(p));
  }

  /** No two pieces of any two records overlap, and all lie between the record table and the computed size. */
  lemma {:induction false} PiecesApart(p: seq<byte>, i: nat, k: nat, i': nat, k': nat)
    requires HeaderOk(p) && i < Count(p) && i' < Count(p) && k < 4 && k' < 4 && (i < i' || (i == i' && k < k'))
    ensures Base(p) <= PieceAt(p, i, k) && PieceAt(p, i, k) + PieceSize(p, i, k) <= PieceAt(p, i', k')
    ensures PieceAt(p, i', k') + PieceSize(p, i', k') <= CompactSize(p)
  {
    PieceInside(p, i, k);
    PieceInside(p, i', k');
    if i == i' { PiecesOrdered(p, i, k, k'); } else { SpansApart(p, i, k, i', k'); }
  }

  lemma {:induction false} SpansApart(p: seq<byte>, i: nat, k: nat, i': nat, k': nat)
    requires HeaderOk(p) && i < i' < Count(p) && k < 4 && k' < 4
    ensures PieceAt(p, i, k) + PieceSize(p, i, k) <= PieceAt(p, i', k')
  {
    PieceInSpan(p, i, k);
    SpansOrdered(p, i + 1, i');
    PieceInSpan(p, i', k');
  }

  lemma {:induction false} PieceInSpan(p: seq<byte>, i: nat, k: nat)
    requires HeaderOk(p) && i < Count(p) && k < 4
    ensures SpanAt(p, i) <= PieceAt(p, i, k) && PieceAt(p, i, k) + PieceSize(p, i, k) <= SpanAt(p, i + 1)
  {
    PiecesOrdered(p, i, 0, k);
    PiecesOrdered(p, i, k, 3);
  }

  lemma {:induction false} PiecesOrdered(p: seq<byte>, i: nat, k: nat, k': nat)
    requires HeaderOk(p) && i < Count(p) && k <= k' < 4
    ensures PieceAt(p, i, k) <= PieceAt(p, i, k')
    ensures k < k' ==> PieceAt(p, i, k) + PieceSize(p, i, k) <= PieceAt(p, i, k')
    ensures PieceAt(p, i, 3) + PieceSize(p, i, 3) == SpanAt(p, i + 1)
  {}

  // ---- What the pieces hold ----

  /** The list ends inside the pack. */
  ghost predicate Ends(p: seq<byte>, at: nat) {
    var rows := PropRows(p, at, 0);
    rows > 0 && at + 4 * rows <= |p| && Half(p, at + 4 * (rows - 1)) == 0
  }

  ghost predicate Readable(p: seq<byte>, i: nat)
    requires HeaderOk(p) && i < Count(p)
  {
    && Clip(p, i) + 8 <= |p| && Cancels(p, i) + 12 * Rows(p, i) <= |p|
    && Sounds(p, i) + 6 <= |p| && Ends(p, Properties(p, i))
  }

  /** Nothing the fill pass reads lies outside an accepted pack. */
  lemma {:induction false} AcceptedReadable(p: seq<byte>, i: nat)
    requires HeaderOk(p) && i < Count(p) && RecordOk(p, i)
    ensures Readable(p, i)
  {
    var e: nat :| e < 256 && PropertiesEnd(p, Properties(p, i), Relocations(p), e);
    PropRowsEnd(p, Properties(p, i), Relocations(p), 0, e);
  }

  function PieceBytes(p: seq<byte>, i: nat, k: nat): (b: seq<byte>)
    requires HeaderOk(p) && i < Count(p) && k < 4 && Readable(p, i)
    ensures |b| == PieceSize(p, i, k)
  {
    match k
    case 0 => p[Clip(p, i)..Clip(p, i) + 8]
    case 1 => p[Cancels(p, i)..Cancels(p, i) + 12 * Rows(p, i)]
    case 2 => p[Sounds(p, i)..Sounds(p, i) + 6] + [255, 255]
    case 3 => p[Properties(p, i)..Properties(p, i) + 4 * PropRows(p, Properties(p, i), 0)]
  }

  function Field(k: nat): nat requires k < 4 { if k == 0 then 0 else if k == 1 then 12 else if k == 2 then 28 else 32 }

  function FieldAt(p: seq<byte>, i: nat, k: nat): nat
    requires HeaderOk(p) && i < Count(p) && k < 4
  {
    RecordAt(p, i) + Field(k)
  }

  /** Piece k of record i is copied, and the record's pointer names the copy. */
  ghost predicate PieceFilled(a: seq<byte>, p: seq<byte>, guest: nat, i: nat, k: nat)
    requires HeaderOk(p) && i < Count(p) && k < 4 && Readable(p, i)
  {
    && guest + PieceAt(p, i, k) < 0x1_0000_0000
    && Holds(a, FieldAt(p, i, k), PackWord(guest + PieceAt(p, i, k)))
    && Holds(a, PieceAt(p, i, k), PieceBytes(p, i, k))
  }

  predicate IsPointerByte(p: seq<byte>, b: nat)
    requires HeaderOk(p)
  {
    b >= Records(p) && ((b - Records(p)) % 56 < 4 || 12 <= (b - Records(p)) % 56 < 16 || 28 <= (b - Records(p)) % 56 < 36)
  }

  ghost predicate AllReadable(p: seq<byte>)
    requires HeaderOk(p)
  {
    forall i: nat | i < Count(p) :: Readable(p, i)
  }

  /** All pieces up to, but not including, piece k of record i are filled; the rest of the table is as in the pack. */
  ghost predicate Progress(a: seq<byte>, p: seq<byte>, guest: nat, i: nat, k: nat)
    requires HeaderOk(p) && AllReadable(p)
  {
    && |a| == CompactSize(p) && Base(p) <= |a|
    && (forall b: nat | b < Base(p) && !IsPointerByte(p, b) :: a[b] == p[b])
    && forall i': nat, k': nat | i' < Count(p) && k' < 4 && (i' < i || (i' == i && k' < k)) :: PieceFilled(a, p, guest, i', k')
  }

  function Stored(a: seq<byte>, p: seq<byte>, guest: nat, i: nat, k: nat): (a': seq<byte>)
    requires HeaderOk(p) && i < Count(p) && k < 4 && Readable(p, i)
    requires guest + PieceAt(p, i, k) < 0x1_0000_0000 && FieldAt(p, i, k) + 4 <= |a| && PieceAt(p, i, k) + PieceSize(p, i, k) <= |a|
  {
    Patched(Patched(a, FieldAt(p, i, k), PackWord(guest + PieceAt(p, i, k))), PieceAt(p, i, k), PieceBytes(p, i, k))
  }

  lemma {:induction false} PatchedAt(a: seq<byte>, at: nat, field: seq<byte>, b: nat)
    requires at + |field| <= |a| && b < |a|
    ensures Patched(a, at, field)[b] == if at <= b < at + |field| then field[b - at] else a[b]
  {}

  lemma {:induction false} FieldInTable(p: seq<byte>, i: nat, k: nat)
    requires HeaderOk(p) && i < Count(p) && k < 4
    ensures Records(p) <= FieldAt(p, i, k) && FieldAt(p, i, k) + 4 <= Base(p)
    ensures forall b | FieldAt(p, i, k) <= b < FieldAt(p, i, k) + 4 :: IsPointerByte(p, b)
  {
    forall b | FieldAt(p, i, k) <= b < FieldAt(p, i, k) + 4 ensures IsPointerByte(p, b) {
      InRecord(b - Records(p), i);
    }
  }

  lemma {:induction false} InRecord(x: nat, i: nat)
    requires 56 * i <= x < 56 * i + 56
    ensures x % 56 == x - 56 * i
  {}

  lemma {:induction false} FieldsApart(p: seq<byte>, i: nat, k: nat, i': nat, k': nat)
    requires HeaderOk(p) && i < Count(p) && k < 4 && i' < Count(p) && k' < 4 && (i != i' || k != k')
    ensures FieldAt(p, i, k) + 4 <= FieldAt(p, i', k') || FieldAt(p, i', k') + 4 <= FieldAt(p, i, k)
  {
  }

  // ---- Storing one piece ----

  ghost predicate Storable(a: seq<byte>, p: seq<byte>, guest: nat, i: nat, k: nat)
    requires HeaderOk(p) && i < Count(p) && k < 4
  {
    Readable(p, i) && |a| == CompactSize(p) && guest + CompactSize(p) < 0x1_0000_0000
  }

  lemma {:induction false} PieceFits(a: seq<byte>, p: seq<byte>, guest: nat, i: nat, k: nat)
    requires HeaderOk(p) && i < Count(p) && k < 4 && Storable(a, p, guest, i, k)
    ensures Base(p) <= PieceAt(p, i, k) && PieceAt(p, i, k) + PieceSize(p, i, k) <= |a|
    ensures FieldAt(p, i, k) + 4 <= Base(p) && guest + PieceAt(p, i, k) < 0x1_0000_0000
  {
    PieceInside(p, i, k);
    FieldInTable(p, i, k);
  }

  /** The range touches neither the copy of piece k of record i nor the pointer to it. */
  ghost predicate Clear(at: nat, n: nat, p: seq<byte>, i: nat, k: nat)
    requires HeaderOk(p) && i < Count(p) && k < 4
  {
    && (at + n <= FieldAt(p, i, k) || FieldAt(p, i, k) + 4 <= at)
    && (at + n <= PieceAt(p, i, k) || PieceAt(p, i, k) + PieceSize(p, i, k) <= at)
  }

  lemma {:induction false} FieldClear(p: seq<byte>, i: nat, k: nat, i': nat, k': nat)
    requires HeaderOk(p) && i < Count(p) && k < 4 && i' < Count(p) && k' < 4 && (i != i' || k != k')
    ensures Clear(FieldAt(p, i, k), 4, p, i', k')
  {
    FieldInTable(p, i, k);
    FieldsApart(p, i, k, i', k');
    SpansOrdered(p, 0, i');
    PieceInSpan(p, i', k');
  }

  lemma {:induction false} PieceClear(p: seq<byte>, i: nat, k: nat, i': nat, k': nat)
    requires HeaderOk(p) && i < Count(p) && k < 4 && i' < Count(p) && k' < 4 && (i' < i || (i' == i && k' < k))
    ensures Clear(PieceAt(p, i, k), PieceSize(p, i, k), p, i', k')
  {
    FieldInTable(p, i', k');
    PiecesApart(p, i', k', i, k);
  }

  lemma {:induction false} StoredOther(a: seq<byte>, p: seq<byte>, guest: nat, i: nat, k: nat, i': nat, k': nat)
    requires HeaderOk(p) && i < Count(p) && k < 4 && i' < Count(p) && k' < 4 && (i' < i || (i' == i && k' < k))
    requires Readable(p, i) && Readable(p, i') && PieceFilled(a, p, guest, i', k')
    requires guest + PieceAt(p, i, k) < 0x1_0000_0000 && FieldAt(p, i, k) + 4 <= |a| && PieceAt(p, i, k) + PieceSize(p, i, k) <= |a|
    ensures PieceFilled(Stored(a, p, guest, i, k), p, guest, i', k')
  {
    var pointer, bytes := PackWord(guest + PieceAt(p, i, k)), PieceBytes(p, i, k);
    FieldClear(p, i, k, i', k');
    PieceClear(p, i, k, i', k');
    PatchesHoldOther(a, FieldAt(p, i, k), pointer, PieceAt(p, i, k), bytes, FieldAt(p, i', k'), PackWord(guest + PieceAt(p, i', k')));
    PatchesHoldOther(a, FieldAt(p, i, k), pointer, PieceAt(p, i, k), bytes, PieceAt(p, i', k'), PieceBytes(p, i', k'));
  }

  lemma {:induction false} StoredSelf(a: seq<byte>, p: seq<byte>, guest: nat, i: nat, k: nat)
    requires HeaderOk(p) && i < Count(p) && k < 4 && Storable(a, p, guest, i, k)
    requires guest + PieceAt(p, i, k) < 0x1_0000_0000 && FieldAt(p, i, k) + 4 <= |a| && PieceAt(p, i, k) + PieceSize(p, i, k) <= |a|
    ensures PieceFilled(Stored(a, p, guest, i, k), p, guest, i, k)
  {
    PieceFits(a, p, guest, i, k);
    var pointer := PackWord(guest + PieceAt(p, i, k));
    var a1 := Patched(a, FieldAt(p, i, k), pointer);
    PatchHolds(a, FieldAt(p, i, k), pointer);
    PatchHoldsOther(a1, PieceAt(p, i, k), PieceBytes(p, i, k), FieldAt(p, i, k), pointer);
    PatchHolds(a1, PieceAt(p, i, k), PieceBytes(p, i, k));
  }

  lemma {:induction false} StoredTable(a: seq<byte>, p: seq<byte>, guest: nat, i: nat, k: nat, b: nat)
    requires HeaderOk(p) && i < Count(p) && k < 4 && Storable(a, p, guest, i, k) && b < Base(p) <= |a| && !IsPointerByte(p, b)
    requires guest + PieceAt(p, i, k) < 0x1_0000_0000 && FieldAt(p, i, k) + 4 <= |a| && PieceAt(p, i, k) + PieceSize(p, i, k) <= |a|
    ensures Stored(a, p, guest, i, k)[b] == a[b]
  {
    PieceFits(a, p, guest, i, k);
    FieldInTable(p, i, k);
    var a1 := Patched(a, FieldAt(p, i, k), PackWord(guest + PieceAt(p, i, k)));
    PatchedAt(a, FieldAt(p, i, k), PackWord(guest + PieceAt(p, i, k)), b);
    PatchedAt(a1, PieceAt(p, i, k), PieceBytes(p, i, k), b);
  }

  lemma {:induction false} ProgressStep(a: seq<byte>, p: seq<byte>, guest: nat, i: nat, k: nat)
    requires HeaderOk(p) && AllReadable(p) && i < Count(p) && k < 4 && Progress(a, p, guest, i, k)
    requires Storable(a, p, guest, i, k)
    requires guest + PieceAt(p, i, k) < 0x1_0000_0000 && FieldAt(p, i, k) + 4 <= |a| && PieceAt(p, i, k) + PieceSize(p, i, k) <= |a|
    ensures Progress(Stored(a, p, guest, i, k), p, guest, i, k + 1)
  {
    var a' := Stored(a, p, guest, i, k);
    forall b: nat | b < Base(p) && !IsPointerByte(p, b) ensures a'[b] == p[b] { StoredTable(a, p, guest, i, k, b); }
    forall i': nat, k': nat | i' < Count(p) && k' < 4 && (i' < i || (i' == i && k' < k + 1)) ensures PieceFilled(a', p, guest, i', k') {
      if i' == i && k' == k { StoredSelf(a, p, guest, i, k); } else { StoredOther(a, p, guest, i, k, i', k'); }
    }
  }

  lemma {:induction false} ProgressNext(a: seq<byte>, p: seq<byte>, guest: nat, i: nat)
    requires HeaderOk(p) && AllReadable(p) && i < Count(p) && Progress(a, p, guest, i, 4)
    ensures Progress(a, p, guest, i + 1, 0)
  {}

  // ---- The passes ----

  /** Only the last row of a list has frame zero. */
  lemma {:induction false} LastRow(p: seq<byte>, at: nat, j: nat, k: nat)
    requires j <= k < PropRows(p, at, j) && at + 4 * PropRows(p, at, j) <= |p|
    requires Half(p, at + 4 * (PropRows(p, at, j) - 1)) == 0
    ensures at + 4 * k + 4 <= |p| && (Half(p, at + 4 * k) == 0 <==> k + 1 == PropRows(p, at, j))
    decreases k - j
  {
    if j < k { LastRow(p, at, j + 1, k); }
  }

  /** The rows of a property list, terminator included, counted in bytes. */
  method PropertiesSize(p: seq<byte>, props: nat) returns (bytes: nat)
    requires Ends(p, props)
    ensures bytes == 4 * PropRows(p, props, 0)
  {
    var j := 0;
    bytes := 4;
    LastRow(p, props, 0, 0);
    while Half(p, props + 4 * j) != 0
      invariant j < PropRows(p, props, 0) && props + 4 * j + 4 <= |p| && bytes == 4 * (j + 1)
      invariant Half(p, props + 4 * j) == 0 <==> j + 1 == PropRows(p, props, 0)
      decreases PropRows(p, props, 0) - j
    {
      LastRow(p, props, 0, j + 1);
      j, bytes := j + 1, bytes + 4;
    }
  }

  method SizePass(p: seq<byte>) returns (compact: nat)
    requires HeaderOk(p) && AllReadable(p)
    ensures compact == CompactSize(p)
  {
    compact := Base(p);
    for i := 0 to Count(p)
      invariant compact == SpanAt(p, i)
    {
      assert Readable(p, i);
      var props := PropertiesSize(p, Properties(p, i));
      compact := compact + 8 + Rows(p, i) * 12 + 8 + props;
    }
  }

  method CopyBytes(arena: array<byte>, at: nat, bytes: seq<byte>)
    requires at + |bytes| <= arena.Length
    modifies arena
    ensures arena[..] == Patched(old(arena[..]), at, bytes)
  {
    for j := 0 to |bytes|
      invariant arena[..] == Patched(old(arena[..]), at, bytes[..j])
    {
      PatchedByte(old(arena[..]), at, bytes, j);
      arena[at + j] := bytes[j];
    }
  }

  lemma {:induction false} PatchedByte(a: seq<byte>, at: nat, bytes: seq<byte>, j: nat)
    requires at + |bytes| <= |a| && j < |bytes|
    ensures Patched(a, at, bytes[..j + 1]) == Patched(a, at, bytes[..j])[at + j := bytes[j]]
  {}

  lemma {:induction false} PatchedTwice(a: seq<byte>, at: nat, x: seq<byte>, y: seq<byte>)
    requires at + |x| + |y| <= |a|
    ensures Patched(Patched(a, at, x), at + |x|, y) == Patched(a, at, x + y)
  {}

  lemma {:induction false} RowCopied(a: seq<byte>, at: nat, p: seq<byte>, props: nat, j: nat)
    requires at + 4 * j + 4 <= |a| && props + 4 * j + 4 <= |p|
    ensures Patched(Patched(a, at, p[props..props + 4 * j]), at + 4 * j, p[props + 4 * j..props + 4 * j + 4])
         == Patched(a, at, p[props..props + 4 * j + 4])
  {
    PatchedTwice(a, at, p[props..props + 4 * j], p[props + 4 * j..props + 4 * j + 4]);
    assert p[props..props + 4 * j] + p[props + 4 * j..props + 4 * j + 4] == p[props..props + 4 * j + 4];
  }

  method CopyRow(arena: array<byte>, at: nat, p: seq<byte>, props: nat, j: nat, ghost a: seq<byte>)
    requires at + 4 * j + 4 <= |a| == arena.Length && props + 4 * j + 4 <= |p|
    requires arena[..] == Patched(a, at, p[props..props + 4 * j])
    modifies arena
    ensures arena[..] == Patched(a, at, p[props..props + 4 * j + 4])
  {
    CopyBytes(arena, at + 4 * j, p[props + 4 * j..props + 4 * j + 4]);
    RowCopied(a, at, p, props, j);
  }

  method CopyProperties(arena: array<byte>, at: nat, p: seq<byte>, props: nat) returns (next: nat)
    requires Ends(p, props) && at + 4 * PropRows(p, props, 0) <= arena.Length
    modifies arena
    ensures next == at + 4 * PropRows(p, props, 0)
    ensures arena[..] == Patched(old(arena[..]), at, p[props..props + 4 * PropRows(p, props, 0)])
  {
    ghost var rows := PropRows(p, props, 0);
    var j, done := 0, false;
    while !done
      invariant j <= rows && (done <==> j == rows)
      invariant arena[..] == Patched(old(arena[..]), at, p[props..props + 4 * j])
      decreases rows - j
    {
      LastRow(p, props, 0, j);
      CopyRow(arena, at, p, props, j, old(arena[..]));
      done := Half(p, props + 4 * j) == 0;
      j := j + 1;
    }
    return at + 4 * j;
  }

  /** The last piece is copied row by row, the others in one run. */
  method CopyPiece(arena: array<byte>, p: seq<byte>, i: nat, k: nat, cursor: nat) returns (next: nat)
    requires HeaderOk(p) && i < Count(p) && Readable(p, i) && k < 4 && cursor + PieceSize(p, i, k) <= arena.Length
    modifies arena
    ensures next == cursor + PieceSize(p, i, k) && arena[..] == Patched(old(arena[..]), cursor, PieceBytes(p, i, k))
  {
    if k == 3 {
      next := CopyProperties(arena, cursor, p, Properties(p, i));
    } else {
      CopyBytes(arena, cursor, PieceBytes(p, i, k));
      next := cursor + PieceSize(p, i, k);
    }
  }

  method FillPiece(arena: array<byte>, p: seq<byte>, i: nat, k: nat, guest: nat, cursor: nat) returns (next: nat)
    requires HeaderOk(p) && AllReadable(p) && i < Count(p) && k < 4 && cursor == PieceAt(p, i, k)
    requires guest + CompactSize(p) < 0x1_0000_0000 && Progress(arena[..], p, guest, i, k)
    modifies arena
    ensures Progress(arena[..], p, guest, i, k + 1) && next == PieceAt(p, i, k) + PieceSize(p, i, k)
  {
    ghost var a := arena[..];
    PieceFits(a, p, guest, i, k);
    CopyBytes(arena, FieldAt(p, i, k), PackWord(guest + cursor));
    next := CopyPiece(arena, p, i, k, cursor);
    ProgressStep(a, p, guest, i, k);
  }

  /** Clip header, cancel rows, sounds and properties of one record, and the four pointers to them. */
  method FillRecord(arena: array<byte>, p: seq<byte>, i: nat, guest: nat, cursor: nat) returns (next: nat)
    requires HeaderOk(p) && AllReadable(p) && i < Count(p) && cursor == SpanAt(p, i)
    requires guest + CompactSize(p) < 0x1_0000_0000 && Progress(arena[..], p, guest, i, 0)
    modifies arena
    ensures Progress(arena[..], p, guest, i + 1, 0) && next == SpanAt(p, i + 1)
  {
    next := FillPiece(arena, p, i, 0, guest, cursor);
    next := FillPiece(arena, p, i, 1, guest, next);
    next := FillPiece(arena, p, i, 2, guest, next);
    next := FillPiece(arena, p, i, 3, guest, next);
    ProgressNext(arena[..], p, guest, i);
    PiecesOrdered(p, i, 3, 3);
  }

  ghost predicate ClipsKnown(p: seq<byte>, guest: nat, i: nat, addresses: seq<nat>, offsets: seq<word>)
    requires HeaderOk(p) && i <= Count(p)
  {
    |addresses| == |offsets| == i && forall k: nat | k < i :: addresses[k] == guest + SpanAt(p, k) && offsets[k] == Clip(p, k)
  }

  lemma {:induction false} TablesCopied(a: seq<byte>, p: seq<byte>, guest: nat)
    requires HeaderOk(p) && AllReadable(p) && |a| == CompactSize(p)
    ensures Base(p) <= |a| && Progress(Patched(a, 0, p[..Base(p)]), p, guest, 0, 0)
  {
    SpansOrdered(p, 0, Count(p));
  }

  method CopyTables(arena: array<byte>, p: seq<byte>, ghost guest: nat)
    requires HeaderOk(p) && AllReadable(p) && arena.Length == CompactSize(p)
    modifies arena
    ensures Progress(arena[..], p, guest, 0, 0)
  {
    TablesCopied(arena[..], p, guest);
    CopyBytes(arena, 0, p[..Base(p)]);
  }

  method RegisterClip(p: seq<byte>, guest: nat, i: nat, cursor: nat, addresses: seq<nat>, offsets: seq<word>)
    returns (addresses': seq<nat>, offsets': seq<word>)
    requires HeaderOk(p) && i < Count(p) && cursor == SpanAt(p, i) && ClipsKnown(p, guest, i, addresses, offsets)
    ensures ClipsKnown(p, guest, i + 1, addresses', offsets')
  {
    return addresses + [guest + cursor], offsets + [Clip(p, i)];
  }

  /** Copies the tables and fills the pieces; the cursor ends exactly at the size the first pass computed. */
  method FillPass(arena: array<byte>, p: seq<byte>, guest: nat) returns (cursor: nat, clipAddresses: seq<nat>, clipOffsets: seq<word>)
    requires HeaderOk(p) && AllReadable(p)
    requires arena.Length == CompactSize(p) && guest + CompactSize(p) < 0x1_0000_0000
    modifies arena
    ensures Progress(arena[..], p, guest, Count(p), 0) && cursor == CompactSize(p)
    ensures ClipsKnown(p, guest, Count(p), clipAddresses, clipOffsets)
  {
    CopyTables(arena, p, guest);
    cursor, clipAddresses, clipOffsets := Base(p), [], [];
    for i := 0 to Count(p)
      invariant Progress(arena[..], p, guest, i, 0) && cursor == SpanAt(p, i)
      invariant ClipsKnown(p, guest, i, clipAddresses, clipOffsets)
    {
      clipAddresses, clipOffsets := RegisterClip(p, guest, i, cursor, clipAddresses, clipOffsets);
      cursor := FillRecord(arena, p, i, guest, cursor);
    }
  }
}