/** What a version 4 combat pack is, and its validator (src/tekken3_jun_pack.h). */
module JunPack {
  import opened Bytes

  const MAGIC := 0x314d554a
  const CLIP_TAG := 0x4a554e00
  const MAX_SIZE := 16 * 1024 * 1024
  const TERMINATOR := 0xc000
  const PATTERN_BASE := 0xe000

  predicate IsTarget(id: int, count: int) {
    id == 3 || (8192 <= id && id - 8192 < count)
  }

  // ---- The header fields ----

  function Count(p: seq<byte>): word requires 32 <= |p| { Word(p, 12) }

  function Neutral(p: seq<byte>): word requires 32 <= |p| { Word(p, 16) }

  function Relocations(p: seq<byte>): word requires 32 <= |p| { Word(p, 20) }

  function Records(p: seq<byte>): word requires 32 <= |p| { Word(p, 28) }

  predicate HeaderOk(p: seq<byte>) {
    && 32 <= |p| <= MAX_SIZE
    && Word(p, 0) == MAGIC && Word(p, 4) == 4 && Word(p, 8) == |p|
    && 1 <= Count(p) <= 1024 && Neutral(p) < Count(p)
    && Records(p) == 32 + 16 * Count(p)
    && Records(p) + 56 * Count(p) <= |p|
    && Records(p) + 56 * Count(p) <= Relocations(p) <= |p|
    && Word(p, 24) == 4 * Count(p)
    && 16 * Count(p) + 4 <= |p| - Relocations(p)
  }

  // ---- The input sequences behind the relocations ----

  predicate PatternOk(p: seq<byte>, at: nat, i: nat) {
    && at + 4 <= |p|
    && Half(p, at) == PATTERN_BASE + i
    && 3 <= Half(p, at + 2) <= 65
    && at + 4 + 2 * Half(p, at + 2) <= |p|
    && 1 <= Half(p, at + 4) <= 60
    && Half(p, at + 4 + 2 * (Half(p, at + 2) - 1)) == 0
  }

  /** Sequences i to count - 1 lie one behind the other from at to the end of the pack. */
  predicate PatternsOk(p: seq<byte>, at: nat, i: nat, count: nat)
    requires i <= count
    decreases count - i
  {
    if i == count then at == |p|
    else PatternOk(p, at, i) && PatternsOk(p, at + 4 + 2 * Half(p, at + 2), i + 1, count)
  }

  function PatternTable(p: seq<byte>): nat requires HeaderOk(p) { Relocations(p) + 16 * Count(p) }

  function PatternCount(p: seq<byte>): word requires HeaderOk(p) { Word(p, PatternTable(p)) }

  // ---- One record ----

  predicate SoundsEnd(p: seq<byte>, at: nat, limit: nat, j: nat) {
    limit <= |p| && at + 2 * j + 2 <= limit && Half(p, at + 2 * j) == 0xffff
  }

  predicate PropertiesEnd(p: seq<byte>, at: nat, limit: nat, j: nat) {
    limit <= |p| && at + 4 * j + 4 <= limit && Half(p, at + 4 * j) == 0
  }

  predicate CommandOk(cmd: int, patterns: int) {
    cmd < 0x8000 || cmd == 0xc000 || cmd == 0xc001 || cmd == 0xc002 || (PATTERN_BASE <= cmd && cmd - PATTERN_BASE < patterns)
  }

  predicate CancelOk(p: seq<byte>, at: nat, n: int, patterns: int)
    requires at + 12 <= |p|
  {
    IsTarget(Half(p, at + 6), n) && p[at + 2] == 0 && p[at + 3] < 83 && CommandOk(Half(p, at), patterns)
  }

  /** A clip header followed by its frames, between base and limit. */
  predicate ClipOk(p: seq<byte>, clip: nat, base: nat, limit: nat) {
    && limit <= |p| && base <= clip && clip + 8 <= limit && clip % 4 == 0
    && Word(p, clip) - p[clip] == CLIP_TAG && Word(p, clip + 4) == 57
    && p[clip] != 0 && p[clip] * 114 <= limit - clip - 8
  }

  predicate SpanOk(p: seq<byte>, at: nat, rows: nat, base: nat, limit: nat) {
    limit <= |p| && base <= at && at % 4 == 0 && 1 <= rows <= 4096 && at + 12 * rows <= limit
  }

  ghost predicate CancelsOk(p: seq<byte>, at: nat, rows: nat, base: nat, limit: nat, n: int, patterns: int) {
    && SpanOk(p, at, rows, base, limit)
    && (forall j: nat | j < rows :: CancelOk(p, at + 12 * j, n, patterns))
    && Half(p, at + 12 * (rows - 1)) == TERMINATOR
  }

  ghost predicate SoundsOk(p: seq<byte>, at: nat, base: nat, limit: nat) {
    base <= at < limit && at % 4 == 0 && exists j: nat :: j < 4 && SoundsEnd(p, at, limit, j)
  }

  ghost predicate PropertiesOk(p: seq<byte>, at: nat, base: nat, limit: nat) {
    base <= at < limit && at % 4 == 0 && exists j: nat :: j < 256 && PropertiesEnd(p, at, limit, j)
  }

  function RecordAt(p: seq<byte>, i: nat): nat requires 32 <= |p| { Records(p) + 56 * i }

  function Rows(p: seq<byte>, i: nat): word requires HeaderOk(p) && i < Count(p) { Word(p, 32 + 16 * i + 12) }

  /** Provenance, and the four relocations that name the record's pointer fields in order. */
  predicate LinksOk(p: seq<byte>, i: nat)
    requires HeaderOk(p) && i < Count(p)
  {
    var rp, ro := RecordAt(p, i), Relocations(p);
    && 0x80010000 <= Word(p, 32 + 16 * i + 4) < 0x80400000
    && Word(p, 32 + 16 * i + 8) == rp
    && Word(p, ro + 16 * i) == rp && Word(p, ro + 16 * i + 4) == rp + 12
    && Word(p, ro + 16 * i + 8) == rp + 28 && Word(p, ro + 16 * i + 12) == rp + 32
  }

  predicate LimbsOk(p: seq<byte>, at: nat)
    requires at + 4 <= |p|
  {
    forall k | at <= k < at + 4 :: p[k] < 18
  }

  function Base(p: seq<byte>): nat requires HeaderOk(p) { Records(p) + 56 * Count(p) }

  ghost predicate MotionOk(p: seq<byte>, i: nat)
    requires HeaderOk(p) && i < Count(p)
  {
    var rp := RecordAt(p, i);
    && ClipOk(p, Word(p, rp), Base(p), Relocations(p))
    && CancelsOk(p, Word(p, rp + 12), Rows(p, i), Base(p), Relocations(p), Count(p), PatternCount(p))
    && IsTarget(Half(p, rp + 16), Count(p))
  }

  ghost predicate ListsOk(p: seq<byte>, i: nat)
    requires HeaderOk(p) && i < Count(p)
  {
    var rp := RecordAt(p, i);
    && SoundsOk(p, Word(p, rp + 28), Base(p), Relocations(p))
    && PropertiesOk(p, Word(p, rp + 32), Base(p), Relocations(p))
    && LimbsOk(p, rp + 40)
  }

  ghost predicate RecordOk(p: seq<byte>, i: nat)
    requires HeaderOk(p) && i < Count(p)
  {
    LinksOk(p, i) && MotionOk(p, i) && ListsOk(p, i)
  }

  ghost predicate IsPack(p: seq<byte>) {
    && HeaderOk(p)
    && PatternCount(p) <= 1024
    && PatternsOk(p, PatternTable(p) + 4, 0, PatternCount(p))
    && forall i: nat | i < Count(p) :: RecordOk(p, i)
  }

  // ---- The validator ----

  method ValidatePattern(p: seq<byte>, at: nat, i: nat) returns (ok: bool, next: nat)
    requires |p| >= 4
    ensures ok <==> PatternOk(p, at, i)
    ensures ok ==> next == at + 4 + 2 * Half(p, at + 2) <= |p|
  {
    next := at;
    if next > |p| - 4 {
      return false, next;
    }
    var cmd, words := Half(p, next), Half(p, next + 2);
    next := next + 4;
    if cmd != PATTERN_BASE + i || words < 3 || words > 65 || words * 2 > |p| - next {
      return false, next;
    }
    if Half(p, next) < 1 || Half(p, next) > 60 || Half(p, next + (words - 1) * 2) != 0 {
      return false, next;
    }
    return true, next + words * 2;
  }

  method ValidatePatterns(p: seq<byte>) returns (ok: bool)
    requires HeaderOk(p)
    ensures ok <==> PatternCount(p) <= 1024 && PatternsOk(p, PatternTable(p) + 4, 0, PatternCount(p))
  {
    var po: nat := Relocations(p) + 16 * Count(p);
    var patterns := Word(p, po);
    po := po + 4;
    if patterns > 1024 {
      return false;
    }
    for i := 0 to patterns
      invariant po <= |p|
      invariant PatternsOk(p, PatternTable(p) + 4, 0, patterns) <==> PatternsOk(p, po, i, patterns)
    {
      ok, po := ValidatePattern(p, po, i);
      if !ok { return; }
    }
    return po == |p|;
  }

  method ValidateSounds(p: seq<byte>, sounds: nat, limit: nat) returns (ok: bool)
    requires 2 <= limit <= |p|
    ensures ok <==> exists j: nat :: j < 4 && SoundsEnd(p, sounds, limit, j)
  {
    var j := 0;
    while j < 4
      invariant 0 <= j <= 4
      invariant forall k: nat | k < j :: !SoundsEnd(p, sounds, limit, k)
    {
      if sounds + j * 2 > limit - 2 {
        forall k: nat | k < 4 ensures !SoundsEnd(p, sounds, limit, k) {}
        return false;
      }
      if Half(p, sounds + j * 2) == 0xffff {
        assert SoundsEnd(p, sounds, limit, j);
        return true;
      }
      j := j + 1;
    }
    return false;
  }

  method ValidateProperties(p: seq<byte>, props: nat, limit: nat) returns (ok: bool)
    requires 4 <= limit <= |p|
    ensures ok <==> exists j: nat :: j < 256 && PropertiesEnd(p, props, limit, j)
  {
    var j := 0;
    while j < 256
      invariant 0 <= j <= 256
      invariant forall k: nat | k < j :: !PropertiesEnd(p, props, limit, k)
    {
      if props + j * 4 > limit - 4 {
        forall k: nat | k < 256 ensures !PropertiesEnd(p, props, limit, k) {}
        return false;
      }
      if Half(p, props + j * 4) == 0 {
        assert PropertiesEnd(p, props, limit, j);
        return true;
      }
      j := j + 1;
    }
    return false;
  }

  method ValidateCancels(p: seq<byte>, cp: nat, rows: nat, n: int, patterns: int) returns (ok: bool)
    requires 1 <= rows && cp + 12 * rows <= |p|
    ensures ok <==> (forall j: nat | j < rows :: CancelOk(p, cp + 12 * j, n, patterns)) && Half(p, cp + 12 * (rows - 1)) == TERMINATOR
  {
    for j := 0 to rows
      invariant forall k: nat | k < j :: CancelOk(p, cp + 12 * k, n, patterns)
    {
      var c := cp + j * 12;
      var cmd := Half(p, c);
      if !IsTarget(Half(p, c + 6), n) || p[c + 2] != 0 || p[c + 3] >= 83 ||
         (cmd >= 0x8000 && cmd != 0xc000 && cmd != 0xc001 && cmd != 0xc002 &&
          !(cmd >= PATTERN_BASE && cmd - PATTERN_BASE < patterns)) {
        assert !CancelOk(p, cp + 12 * j, n, patterns);
        return false;
      }
    }
    return Half(p, cp + (rows - 1) * 12) == TERMINATOR;
  }

  method ValidateClip(p: seq<byte>, clip: nat, base: nat, ro: nat) returns (ok: bool)
    requires 8 <= ro <= |p|
    ensures ok <==> ClipOk(p, clip, base, ro)
  {
    if clip < base || clip > ro - 8 || clip % 4 != 0 {
      return false;
    }
    return Word(p, clip) - p[clip] == CLIP_TAG && Word(p, clip + 4) == 57 && p[clip] != 0 && p[clip] * 114 <= ro - clip - 8;
  }

  method ValidateLinks(p: seq<byte>, i: nat) returns (ok: bool)
    requires HeaderOk(p) && i < Count(p)
    ensures ok <==> LinksOk(p, i)
  {
    var r, ro := Records(p), Relocations(p);
    var rp := r + i * 56;
    var provenance := Word(p, 32 + i * 16 + 4);
    if provenance < 0x80010000 || provenance >= 0x80400000 || Word(p, 32 + i * 16 + 8) != rp {
      return false;
    }
    return Word(p, ro + i * 16) == rp && Word(p, ro + i * 16 + 4) == rp + 12 &&
           Word(p, ro + i * 16 + 8) == rp + 28 && Word(p, ro + i * 16 + 12) == rp + 32;
  }

  method ValidateLists(p: seq<byte>, sounds: nat, props: nat, base: nat, ro: nat) returns (ok: bool)
    requires 4 <= ro <= |p|
    ensures ok <==> SoundsOk(p, sounds, base, ro) && PropertiesOk(p, props, base, ro)
  {
    if sounds < base || sounds >= ro || sounds % 4 != 0 || props < base || props >= ro || props % 4 != 0 {
      return false;
    }
    ok := ValidateSounds(p, sounds, ro);
    if !ok { return; }
    ok := ValidateProperties(p, props, ro);
  }

  method ValidateLimbs(p: seq<byte>, at: nat) returns (ok: bool)
    requires at + 4 <= |p|
    ensures ok <==> LimbsOk(p, at)
  {
    for j := 0 to 4
      invariant forall k | at <= k < at + j :: p[k] < 18
    {
      if p[at + j] >= 18 {
        return false;
      }
    }
    return true;
  }

  method ValidateList(p: seq<byte>, cp: nat, nc: nat, base: nat, ro: nat, n: int, patterns: int) returns (ok: bool)
    requires ro <= |p|
    ensures ok <==> CancelsOk(p, cp, nc, base, ro, n, patterns)
  {
    if cp < base || cp > ro || cp % 4 != 0 || nc == 0 || nc > 4096 || nc * 12 > ro - cp {
      return false;
    }
    ok := ValidateCancels(p, cp, nc, n, patterns);
  }

  method ValidateMotion(p: seq<byte>, i: nat) returns (ok: bool)
    requires HeaderOk(p) && i < Count(p)
    ensures ok <==> MotionOk(p, i)
  {
    var n, ro, base, rp := Count(p), Relocations(p), Base(p), RecordAt(p, i);
    ok := ValidateClip(p, Word(p, rp), base, ro);
    if !ok { return; }
    if !IsTarget(Half(p, rp + 16), n) {
      return false;
    }
    ok := ValidateList(p, Word(p, rp + 12), Rows(p, i), base, ro, n, PatternCount(p));
  }

  method ValidateRecord(p: seq<byte>, i: nat) returns (ok: bool)
    requires HeaderOk(p) && i < Count(p)
    ensures ok <==> RecordOk(p, i)
  {
    var rp := RecordAt(p, i);
    ok := ValidateLinks(p, i);
    if !ok { return; }
    ok := ValidateMotion(p, i);
    if !ok { return; }
    ok := ValidateLists(p, Word(p, rp + 28), Word(p, rp + 32), Base(p), Relocations(p));
    if !ok { return; }
    ok := ValidateLimbs(p, rp + 40);
  }

  method ValidateHeader(p: seq<byte>) returns (ok: bool)
    ensures ok <==> HeaderOk(p)
  {
    if |p| < 32 || |p| > MAX_SIZE || Word(p, 0) != MAGIC || Word(p, 4) != 4 || Word(p, 8) != |p| {
      return false;
    }
    var n, r, ro := Word(p, 12), Word(p, 28), Word(p, 20);
    if n == 0 || n > 1024 || Word(p, 16) >= n || r != 32 + n * 16 || r + n * 56 > |p| || ro < r + n * 56 ||
       ro > |p| || Word(p, 24) != 4 * n || 16 * n + 4 > |p| - ro {
      return false;
    }
    return true;
  }

  /** Decides membership without ever reading outside the buffer. */
  method Validate(p: seq<byte>) returns (ok: bool)
    ensures ok <==> IsPack(p)
  {
    ok := ValidateHeader(p);
    if !ok { return; }
    ok := ValidatePatterns(p);
    if !ok { return; }
    for i := 0 to Count(p)
      invariant forall k: nat | k < i :: RecordOk(p, k)
    {
      ok := ValidateRecord(p, i);
      if !ok { return; }
    }
    return true;
  }
}
