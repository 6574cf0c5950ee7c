/** The loaded combat data and the poses it serves (src/tekken3_jun_combat.c). */
module JunCombat {
  import opened Options
  import opened Bytes
  import opened JunPack
  import opened JunArena

  // ---- Checks made before the validator runs ----

  predicate HeaderPlausible(p: seq<byte>) {
    && 32 <= |p| && Word(p, 0) == MAGIC && Word(p, 4) == 4 && Word(p, 8) == |p| <= MAX_SIZE
    && 1 <= Count(p) <= 1024 && Neutral(p) < Count(p) && Records(p) == 32 + 16 * Count(p)
    && Records(p) + 56 * Count(p) <= |p| && Relocations(p) <= |p| && Word(p, 24) <= (|p| - Relocations(p)) / 4
  }

  /** Relocation j names an aligned word of the pack, and that word an offset into it. */
  predicate RelocationSound(p: seq<byte>, j: nat)
    requires HeaderPlausible(p) && j < Word(p, 24)
  {
    var r := Word(p, Relocations(p) + 4 * j);
    r <= |p| - 4 && r % 4 == 0 && Word(p, r) < |p|
  }

  lemma {:induction false} RelocationNames(p: seq<byte>, i: nat, k: nat)
    requires HeaderOk(p) && i < Count(p) && k < 4 && LinksOk(p, i)
    ensures Relocations(p) + 16 * i + 4 * k + 4 <= |p| && Word(p, Relocations(p) + 16 * i + 4 * k) == FieldAt(p, i, k)
  {}

  lemma {:induction false} PointersInside(p: seq<byte>, i: nat)
    requires HeaderOk(p) && i < Count(p) && RecordOk(p, i)
    ensures Clip(p, i) < |p| && Cancels(p, i) < |p| && Sounds(p, i) < |p| && Properties(p, i) < |p|
  {}

  lemma {:induction false} FieldAligned(records: nat, n: nat, i: nat, k: nat)
    requires records == 32 + 16 * n && k < 4
    ensures (records + 56 * i + Field(k)) % 4 == 0
  {
    var quarter := if k == 0 then 0 else if k == 1 then 3 else if k == 2 then 7 else 8;
    assert Field(k) == 4 * quarter;
    assert records + 56 * i + Field(k) == 4 * (8 + 4 * n + 14 * i + quarter);
  }

  lemma {:induction false} RecordRelocationSound(p: seq<byte>, i: nat, k: nat)
    requires HeaderOk(p) && i < Count(p) && k < 4 && RecordOk(p, i)
    ensures HeaderPlausible(p) && RelocationSound(p, 4 * i + k)
  {
    RelocationNames(p, i, k);
    FieldAligned(Records(p), Count(p), i, k);
    PointersInside(p, i);
  }

  lemma {:induction false} NumberSound(p: seq<byte>, i: nat, k: nat, j: nat)
    requires HeaderOk(p) && i < Count(p) && k < 4 && RecordOk(p, i) && j == 4 * i + k
    ensures HeaderPlausible(p) && j < Word(p, 24) && RelocationSound(p, j)
  {
    RecordRelocationSound(p, i, k);
  }

  /** The loader's own look at the relocations never rejects what the validator accepts. */
  lemma {:induction false} RelocationsSound(p: seq<byte>, j: nat)
    requires IsPack(p) && j < Word(p, 24)
    ensures HeaderPlausible(p) && RelocationSound(p, j)
  {
    assert RecordOk(p, j / 4);
    NumberSound(p, j / 4, j % 4, j);
  }

  // ---- Poses ----

  function FrameCount(p: seq<byte>, i: nat): nat
    requires HeaderOk(p) && i < Count(p) && Clip(p, i) < |p|
  {
    p[Clip(p, i)]
  }

  function Clamped(frame: int, n: nat): (f: nat)
    requires n > 0
    ensures f < n && (frame < 0 ==> f == 0) && (0 <= frame < n ==> f == frame) && (frame >= n ==> f == n - 1)
  {
    if frame < 0 then 0 else if frame >= n then n - 1 else frame
  }

  /** The 57 halfwords of one frame of a clip. */
  function PoseAt(p: seq<byte>, clip: nat, f: nat): (r: seq<half>)
    requires clip + 8 + 114 * f + 114 <= |p|
    ensures |r| == 57
  {
    seq(57, c requires 0 <= c < 57 => Half(p, clip + 8 + 114 * f + 2 * c))
  }

  /** The pose served for the clip of record i. */
  function Served(p: seq<byte>, i: nat, frame: int): (r: seq<half>)
    requires HeaderOk(p) && i < Count(p) && Clip(p, i) < |p| && FrameCount(p, i) > 0
    requires Clip(p, i) + 8 + 114 * FrameCount(p, i) <= |p|
  {
    PoseAt(p, Clip(p, i), Clamped(frame, FrameCount(p, i)))
  }

  class Combat {
    var attempted: bool
    var loaded: bool
    var data: seq<byte>
    var guest: nat
    var arena: array?<byte>
    var clipAddresses: seq<nat>
    var clipOffsets: seq<word>

    ghost predicate Valid()
      reads this, arena
    {
      && (loaded ==> attempted)
      && (loaded ==> arena != null && Filled(data, arena[..], guest, clipAddresses, clipOffsets))
    }

    constructor ()
      ensures Valid() && !attempted && !loaded
    {
      attempted, loaded, data, guest, arena, clipAddresses, clipOffsets := false, false, [], 0, null, [], [];
    }

    /**
      * The first call decides for good. The allocator and the tables file are outside: base is where the arena goes and 0
      * when there is no room, room says which input sequences get memory, tables whether the tables file loads.
      */
    method Load(p: seq<byte>, base: nat, room: nat -> bool, tables: bool) returns (ok: bool)
      requires Valid() && (IsPack(p) ==> base + CompactSize(p) < 0x1_0000_0000)
      modifies this
      ensures Valid() && attempted && ok == loaded
      ensures old(attempted) ==> loaded == old(loaded) && data == old(data) && guest == old(guest) && arena == old(arena)
      ensures !old(attempted) ==> (loaded <==> IsPack(p) && base != 0 && AllPlaced(p, room) && tables)
      ensures !old(attempted) && loaded ==> data == p && guest == base && fresh(arena)
    {
      if attempted {
        return loaded;
      }
      attempted, loaded := true, false;
      ok := false;
      var memory, addresses, offsets := Prepare(p, base);
      if memory == null {
        return;
      }
      arena, data, guest, clipAddresses, clipOffsets := memory, p, base, addresses, offsets;
      var placed := PlaceSequences(p, room);
      if !placed || !tables {
        return;
      }
      loaded, ok := true, true;
    }

    /** Looks a guest clip address up and serves the nearest existing frame. */
    method Pose(clip: nat, frame: int) returns (r: Option<seq<half>>)
      requires Valid()
      ensures r.Some? <==> loaded && exists i: nat :: i < Count(data) && clip == guest + SpanAt(data, i)
      ensures forall i: nat | loaded && i < Count(data) && clip == guest + SpanAt(data, i) ::
                ServesInside(data, i) && r == Some(Served(data, i, frame))
    {
      if !loaded {
        return None;
      }
      r := LookUp(data, guest, clip, frame, clipAddresses, clipOffsets);
    }
  }

  /** Every input sequence of the pack gets memory. */
  ghost predicate AllPlaced(p: seq<byte>, room: nat -> bool) {
    IsPack(p) && forall i: nat | i < PatternCount(p) :: room(i)
  }

  /** The loader checks the sequences once more while it copies them; only a lack of memory can fail. */
  method PlaceSequences(p: seq<byte>, room: nat -> bool) returns (ok: bool)
    requires IsPack(p)
    ensures ok <==> AllPlaced(p, room)
  {
    var po: nat := Relocations(p) + Word(p, 24) * 4;
    if po > |p| - 4 {
      return false;
    }
    var patterns := Word(p, po);
    po := po + 4;
    if patterns > 1024 {
      return false;
    }
    for i := 0 to patterns
      invariant PatternsOk(p, po, i, patterns)
      invariant forall k: nat | k < i :: room(k)
    {
      assert PatternOk(p, po, i);
      if po > |p| - 4 {
        return false;
      }
      var command, words := Half(p, po), Half(p, po + 2);
      po := po + 4;
      if command != PATTERN_BASE + i || words < 3 || words > 65 || words * 2 > |p| - po || !room(i) {
        return false;
      }
      po := po + words * 2;
    }
    return true;
  }

  method LookUp(p: seq<byte>, guest: nat, clip: nat, frame: int, addresses: seq<nat>, offsets: seq<word>) returns (r: Option<seq<half>>)
    requires IsPack(p) && ClipsKnown(p, guest, Count(p), addresses, offsets)
    ensures r.Some? <==> exists i: nat :: i < Count(p) && clip == guest + SpanAt(p, i)
    ensures forall i: nat | i < Count(p) && clip == guest + SpanAt(p, i) :: ServesInside(p, i) && r == Some(Served(p, i, frame))
  {
    if clip < guest {
      BelowArena(p, guest, clip);
      return None;
    }
    var index := FindClip(p, guest, clip, addresses, offsets);
    if index == Count(p) {
      return None;
    }
    assert RecordOk(p, index);
    r := ReadPose(p, index, offsets[index], frame);
    ClipsDistinct(p, guest, index);
  }

  ghost predicate Filled(p: seq<byte>, a: seq<byte>, base: nat, addresses: seq<nat>, offsets: seq<word>) {
    && IsPack(p) && AllReadable(p) && base + CompactSize(p) < 0x1_0000_0000
    && Progress(a, p, base, Count(p), 0) && ClipsKnown(p, base, Count(p), addresses, offsets)
  }

  method Prepare(p: seq<byte>, base: nat) returns (memory: array?<byte>, addresses: seq<nat>, offsets: seq<word>)
    requires IsPack(p) ==> base + CompactSize(p) < 0x1_0000_0000
    ensures memory != null <==> IsPack(p) && base != 0
    ensures memory != null ==> fresh(memory) && Filled(p, memory[..], base, addresses, offsets)
  {
    memory, addresses, offsets := null, [], [];
    var ok := Acceptable(p);
    if !ok { return; }
    forall i: nat | i < Count(p) ensures Readable(p, i) { AcceptedReadable(p, i); }
    var compact := SizePass(p);
    if base == 0 { return; }
    memory := new byte[compact];
    var cursor;
    cursor, addresses, offsets := FillPass(memory, p, base);
  }

  method FindClip(p: seq<byte>, guest: nat, clip: nat, addresses: seq<nat>, ghost offsets: seq<word>) returns (index: nat)
    requires HeaderOk(p) && ClipsKnown(p, guest, Count(p), addresses, offsets)
    ensures index <= Count(p) && (index < Count(p) ==> clip == guest + SpanAt(p, index))
    ensures forall k: nat | k < index :: clip != guest + SpanAt(p, k)
  {
    index := 0;
    while index < Count(p) && addresses[index] != clip
      invariant index <= Count(p) && forall k: nat | k < index :: clip != guest + SpanAt(p, k)
    {
      index := index + 1;
    }
  }

  method ReadPose(p: seq<byte>, ghost i: nat, offset: nat, frame: int) returns (r: Option<seq<half>>)
    requires HeaderOk(p) && i < Count(p) && offset == Clip(p, i) && ClipOk(p, offset, Base(p), Relocations(p))
    ensures ServesInside(p, i) && r == Some(Served(p, i, frame))
  {
    var n: nat := p[offset];
    if Word(p, offset) - n != CLIP_TAG || Word(p, offset + 4) != 57 || n == 0 || offset + 8 + n * 114 > |p| {
      return None;
    }
    return Some(PoseAt(p, offset, Clamped(frame, n)));
  }

  ghost predicate ServesInside(p: seq<byte>, i: nat)
    requires HeaderOk(p) && i < Count(p)
  {
    Clip(p, i) < |p| && FrameCount(p, i) > 0 && Clip(p, i) + 8 + 114 * FrameCount(p, i) <= |p|
  }

  lemma {:induction false} BelowArena(p: seq<byte>, guest: nat, clip: nat)
    requires HeaderOk(p) && clip < guest
    ensures forall i: nat | i < Count(p) :: clip != guest + SpanAt(p, i)
  {}

  /** A clip address names one record only. */
  lemma {:induction false} ClipsDistinct(p: seq<byte>, guest: nat, i: nat)
    requires HeaderOk(p) && i < Count(p)
    ensures forall k: nat | k < Count(p) && guest + SpanAt(p, k) == guest + SpanAt(p, i) :: k == i
  {
    forall k: nat | k < Count(p) && k != i ensures SpanAt(p, k) != SpanAt(p, i) {
      if k < i { SpansOrdered(p, k + 1, i); } else { SpansOrdered(p, i + 1, k); }
    }
  }

  /** Header, relocations, then the full validator: together they accept exactly the packs. */
  method Acceptable(p: seq<byte>) returns (ok: bool)
    ensures ok <==> IsPack(p)
  {
    if !HeaderPlausible(p) {
      return false;
    }
    for j := 0 to Word(p, 24) {
      if !RelocationSound(p, j) {
        if IsPack(p) { RelocationsSound(p, j); }
        return false;
      }
    }
    ok := Validate(p);
  }
}