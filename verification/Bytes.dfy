/** Little-endian fields in byte strings, as struct.pack and the C readers see them. */
module Bytes {

  type byte = x: nat | x < 256

  type half = x: nat | x < 0x10000

  type word = x: nat | x < 0x1_0000_0000

  /** The signed value of a number's low sixteen bits. */
  function Int16(x: int): (r: int)
    ensures -0x8000 <= r < 0x8000
  {
    (x + 0x8000) % 0x10000 - 0x8000
  }

  function Half(p: seq<byte>, at: nat): half
    requires at + 2 <= |p|
  {
    p[at] as int + 256 * p[at + 1] as int
  }

  function Word(p: seq<byte>, at: nat): word
    requires at + 4 <= |p|
  {
    p[at] as int + 0x100 * p[at + 1] as int + 0x10000 * p[at + 2] as int + 0x1000000 * p[at + 3] as int
  }

  function PackHalf(v: half): (p: seq<byte>)
    ensures |p| == 2 && Half(p, 0) == v
  {
    [v % 256, v / 256]
  }

  function PackWord(v: word): (p: seq<byte>)
    ensures |p| == 4 && Word(p, 0) == v
  {
    var high := v / 0x100;
    var top := high / 0x100;
    [v % 0x100, high % 0x100, top % 0x100, top / 0x100]
  }

  lemma {:induction false} LowByte(b: byte, high: nat)
    ensures (b + 0x100 * high) % 0x100 == b && (b + 0x100 * high) / 0x100 == high
  {}

  lemma {:induction false} PackOfWord(p: seq<byte>, at: nat)
    requires at + 4 <= |p|
    ensures PackWord(Word(p, at)) == p[at..at + 4]
  {
    var top := p[at + 2] as int + 0x100 * p[at + 3] as int;
    var high := p[at + 1] as int + 0x100 * top;
    assert Word(p, at) == p[at] as int + 0x100 * high;
    LowByte(p[at], high);
    LowByte(p[at + 1], top);
    LowByte(p[at + 2], p[at + 3]);
  }

  /** Two buffers hold the same bytes from lo up to hi. */
  ghost predicate Agree(p: seq<byte>, q: seq<byte>, lo: nat, hi: nat) {
    hi <= |p| && hi <= |q| && forall k | lo <= k < hi :: p[k] == q[k]
  }

  function PackHalves(vs: seq<half>): (p: seq<byte>)
    ensures |p| == 2 * |vs|
  {
    if vs == [] then [] else PackHalf(vs[0]) + PackHalves(vs[1..])
  }

  function PackWords(vs: seq<word>): (p: seq<byte>)
    ensures |p| == 4 * |vs|
  {
    if vs == [] then [] else PackWord(vs[0]) + PackWords(vs[1..])
  }

  lemma {:induction false} HalfOfPacked(vs: seq<half>, k: nat)
    requires k < |vs|
    ensures Half(PackHalves(vs), 2 * k) == vs[k]
  {
    if k > 0 {
      HalfOfPacked(vs[1..], k - 1);
    }
  }

  lemma {:induction false} WordOfPacked(vs: seq<word>, k: nat)
    requires k < |vs|
    ensures Word(PackWords(vs), 4 * k) == vs[k]
  {
    if k > 0 {
      WordOfPacked(vs[1..], k - 1);
    }
  }

  /** struct.pack_into: overwrite a field without moving the rest. */
  function Patched(p: seq<byte>, at: nat, field: seq<byte>): (q: seq<byte>)
    requires at + |field| <= |p|
    ensures |q| == |p|
  {
    seq(|p|, k requires 0 <= k < |p| => if at <= k < at + |field| then field[k - at] else p[k])
  }

  /** The buffer holds the given bytes at the given offset. */
  ghost predicate Holds(p: seq<byte>, at: nat, bytes: seq<byte>) {
    at + |bytes| <= |p| && forall k | 0 <= k < |bytes| :: bytes[k] == p[at + k]
  }

  lemma {:induction false} HoldsSlice(p: seq<byte>, at: nat, bytes: seq<byte>)
    ensures Holds(p, at, bytes) <==> at + |bytes| <= |p| && p[at..at + |bytes|] == bytes
  {
    if at + |bytes| <= |p| && p[at..at + |bytes|] == bytes {
      assert forall k | 0 <= k < |bytes| :: bytes[k] == p[at..at + |bytes|][k];
    }
  }

  lemma {:induction false} HoldsPart(p: seq<byte>, at: nat, a: seq<byte>, b: seq<byte>)
    requires Holds(p, at, a + b)
    ensures Holds(p, at, a) && Holds(p, at + |a|, b)
  {
    forall k | 0 <= k < |a| ensures a[k] == p[at + k] { assert (a + b)[k] == a[k]; }
    forall k | 0 <= k < |b| ensures b[k] == p[at + |a| + k] { assert (a + b)[|a| + k] == b[k]; }
  }

  lemma {:induction false} HoldsJoined(p: seq<byte>, at: nat, a: seq<byte>, b: seq<byte>)
    requires Holds(p, at, a) && Holds(p, at + |a|, b)
    ensures Holds(p, at, a + b)
  {}

  /** The k-th word of a run of packed words, read in place. */
  lemma {:induction false} WordInPlace(p: seq<byte>, at: nat, vs: seq<word>, k: nat)
    requires Holds(p, at, PackWords(vs)) && k < |vs|
    ensures Word(p, at + 4 * k) == vs[k]
  {
    WordOfPacked(vs, k);
    WordOfSlice(p, at, PackWords(vs), 4 * k);
  }

  lemma {:induction false} WordOfSlice(p: seq<byte>, at: nat, q: seq<byte>, i: nat)
    requires Holds(p, at, q) && i + 4 <= |q|
    ensures Word(p, at + i) == Word(q, i)
  {
  }

  lemma {:induction false} HalfOfSlice(p: seq<byte>, at: nat, q: seq<byte>, i: nat)
    requires Holds(p, at, q) && i + 2 <= |q|
    ensures Half(p, at + i) == Half(q, i)
  {
  }

  lemma {:induction false} HalfInPlace(p: seq<byte>, at: nat, vs: seq<half>, k: nat)
    requires Holds(p, at, PackHalves(vs)) && k < |vs|
    ensures Half(p, at + 2 * k) == vs[k]
  {
    HalfOfPacked(vs, k);
    HalfOfSlice(p, at, PackHalves(vs), 2 * k);
  }

  lemma {:induction false} HoldsKept(p: seq<byte>, q: seq<byte>, at: nat, bytes: seq<byte>)
    requires Holds(p, at, bytes) && Agree(p, q, at, at + |bytes|)
    ensures Holds(q, at, bytes)
  {}

  lemma {:induction false} PatchKeeps(p: seq<byte>, at: nat, field: seq<byte>, lo: nat, hi: nat)
    requires at + |field| <= |p| && hi <= |p| && (hi <= at || at + |field| <= lo)
    ensures Agree(p, Patched(p, at, field), lo, hi)
  {}

  lemma {:induction false} PatchHolds(p: seq<byte>, at: nat, field: seq<byte>)
    requires at + |field| <= |p|
    ensures Holds(Patched(p, at, field), at, field)
  {
    HoldsSlice(Patched(p, at, field), at, field);
  }

  lemma {:induction false} PatchHoldsOther(p: seq<byte>, at: nat, field: seq<byte>, lo: nat, bytes: seq<byte>)
    requires at + |field| <= |p| && Holds(p, lo, bytes) && (lo + |bytes| <= at || at + |field| <= lo)
    ensures Holds(Patched(p, at, field), lo, bytes)
  {
    PatchKeeps(p, at, field, lo, lo + |bytes|);
    HoldsKept(p, Patched(p, at, field), lo, bytes);
  }

  /** Bytes that two patches both miss survive them. */
  lemma {:induction false} PatchesHoldOther(p: seq<byte>, at1: nat, f1: seq<byte>, at2: nat, f2: seq<byte>, at: nat, bytes: seq<byte>)
    requires at1 + |f1| <= |p| && at2 + |f2| <= |p| && Holds(p, at, bytes)
    requires (at1 + |f1| <= at || at + |bytes| <= at1) && (at2 + |f2| <= at || at + |bytes| <= at2)
    ensures Holds(Patched(Patched(p, at1, f1), at2, f2), at, bytes)
  {
    PatchHoldsOther(p, at1, f1, at, bytes);
    PatchHoldsOther(Patched(p, at1, f1), at2, f2, at, bytes);
  }
}
