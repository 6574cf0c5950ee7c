/** Archive records: parsing and rebuilding (tools/arc_tool.py). */
module Arc {
  import opened Options
  import opened Bytes

  const LIMIT := 0xffffffff

  // ---- Records and the payloads they hold ----

  function Total(ps: seq<seq<byte>>): nat { if ps == [] then 0 else |ps[0]| + Total(ps[1..]) }

  function Concat(ps: seq<seq<byte>>): (b: seq<byte>)
    ensures |b| == Total(ps)
  {
    if ps == [] then [] else ps[0] + Concat(ps[1..])
  }

  /** The offset and size of every payload, the first at the given offset. */
  function Directory(ps: seq<seq<byte>>, offset: nat): (b: seq<byte>)
    requires offset + Total(ps) <= LIMIT
    ensures |b| == 8 * |ps|
  {
    if ps == [] then [] else PackWord(offset) + PackWord(|ps[0]|) + Directory(ps[1..], offset + |ps[0]|)
  }

  function DataOffset(n: nat, pad: nat): nat { 4 + 8 * n + pad }

  predicate Recordable(ps: seq<seq<byte>>, pad: nat) {
    && 1 <= |ps| <= 255 && pad <= 15 && DataOffset(|ps|, pad) % 4 == 0
    && (forall k | 0 <= k < |ps| :: |ps[k]| % 4 == 0)
    && DataOffset(|ps|, pad) + Total(ps) <= LIMIT
  }

  function Padding(pad: nat): (b: seq<byte>)
    ensures |b| == pad
  {
    seq(pad, _ => 255)
  }

  function Encode(ps: seq<seq<byte>>, pad: nat): (b: seq<byte>)
    requires Recordable(ps, pad)
    ensures |b| == DataOffset(|ps|, pad) + Total(ps)
  {
    PackWord(|ps|) + (Directory(ps, DataOffset(|ps|, pad)) + (Padding(pad) + Concat(ps)))
  }

  /** Where payload k lies behind the data offset. */
  function Before(ps: seq<seq<byte>>, k: nat): nat
    requires k <= |ps|
    decreases k, |ps|
  {
    if k == 0 then 0 else |ps[0]| + Before(ps[1..], k - 1)
  }

  // ---- Reading a directory ----

  lemma {:induction false} DirectoryAt(data: seq<byte>, at: nat, ps: seq<seq<byte>>, offset: nat, k: nat)
    requires offset + Total(ps) <= LIMIT && Holds(data, at, Directory(ps, offset)) && k < |ps|
    ensures at + 8 * k + 8 <= |data| && Word(data, at + 8 * k) == offset + Before(ps, k) && Word(data, at + 8 * k + 4) == |ps[k]|
    decreases k
  {
    var entry, rest := PackWord(offset) + PackWord(|ps[0]|), Directory(ps[1..], offset + |ps[0]|);
    HoldsPart(data, at, entry, rest);
    if k == 0 {
      HoldsPart(data, at, PackWord(offset), PackWord(|ps[0]|));
      WordOfSlice(data, at, PackWord(offset), 0);
      WordOfSlice(data, at + 4, PackWord(|ps[0]|), 0);
    } else {
      DirectoryAt(data, at + 8, ps[1..], offset + |ps[0]|, k - 1);
    }
  }

  lemma {:induction false} WordWritten(data: seq<byte>, at: nat, w: word)
    requires at + 4 <= |data| && Word(data, at) == w
    ensures Holds(data, at, PackWord(w))
  {
    PackOfWord(data, at);
    HoldsSlice(data, at, PackWord(w));
  }

  lemma {:induction false} EntryWritten(data: seq<byte>, at: nat, offset: word, size: word)
    requires at + 8 <= |data| && Word(data, at) == offset && Word(data, at + 4) == size
    ensures Holds(data, at, PackWord(offset) + PackWord(size))
  {
    WordWritten(data, at, offset);
    WordWritten(data, at + 4, size);
    HoldsJoined(data, at, PackWord(offset), PackWord(size));
  }

  lemma {:induction false} DirectoryWritten(data: seq<byte>, at: nat, ps: seq<seq<byte>>, offset: nat)
    requires offset + Total(ps) <= LIMIT && at + 8 * |ps| <= |data|
    requires forall k: nat | k < |ps| :: Word(data, at + 8 * k) == offset + Before(ps, k) && Word(data, at + 8 * k + 4) == |ps[k]|
    ensures Holds(data, at, Directory(ps, offset))
    decreases |ps|
  {
    if ps != [] {
      assert Before(ps, 0) == 0;
      EntryWritten(data, at, offset, |ps[0]|);
      forall k: nat | k < |ps[1..]|
        ensures Word(data, at + 8 + 8 * k) == offset + |ps[0]| + Before(ps[1..], k) && Word(data, at + 8 + 8 * k + 4) == |ps[1..][k]|
      {
        EntryBehind(data, at, ps, offset, k);
      }
      DirectoryWritten(data, at + 8, ps[1..], offset + |ps[0]|);
      HoldsJoined(data, at, PackWord(offset) + PackWord(|ps[0]|), Directory(ps[1..], offset + |ps[0]|));
    }
  }

  lemma {:induction false} EntryBehind(data: seq<byte>, at: nat, ps: seq<seq<byte>>, offset: nat, k: nat)
    requires k + 1 < |ps| && at + 8 * |ps| <= |data|
    requires Word(data, at + 8 * (k + 1)) == offset + Before(ps, k + 1) && Word(data, at + 8 * (k + 1) + 4) == |ps[k + 1]|
    ensures Word(data, at + 8 + 8 * k) == offset + |ps[0]| + Before(ps[1..], k) && Word(data, at + 8 + 8 * k + 4) == |ps[1..][k]|
  {}

  // ---- Payloads in place ----

  lemma {:induction false} ConcatAt(data: seq<byte>, at: nat, ps: seq<seq<byte>>, k: nat)
    requires Holds(data, at, Concat(ps)) && k < |ps|
    ensures Holds(data, at + Before(ps, k), ps[k])
    decreases k
  {
    HoldsPart(data, at, ps[0], Concat(ps[1..]));
    if k > 0 { ConcatAt(data, at + |ps[0]|, ps[1..], k - 1); }
  }

  lemma {:induction false} BeforeTotal(ps: seq<seq<byte>>)
    ensures Before(ps, |ps|) == Total(ps)
  {
    if ps != [] { BeforeTotal(ps[1..]); }
  }

  lemma {:induction false} BeforeNext(ps: seq<seq<byte>>, k: nat)
    requires k < |ps|
    ensures Before(ps, k + 1) == Before(ps, k) + |ps[k]|
    decreases k
  {
    if k > 0 { BeforeNext(ps[1..], k - 1); }
  }

  lemma {:induction false} BeforeOrdered(ps: seq<seq<byte>>, j: nat, k: nat)
    requires j <= k <= |ps|
    ensures Before(ps, j) <= Before(ps, k)
    decreases k - j
  {
    if j < k {
      BeforeNext(ps, j);
      BeforeOrdered(ps, j + 1, k);
    }
  }

  // ---- The parser ----

  datatype Member = Member(id: nat, offset: nat, size: nat)

  datatype Archive = Archive(data: seq<byte>, members: seq<Member>, directorySize: nat, dataOffset: nat, padding: seq<byte>)

  function PayloadOf(a: Archive, m: Member): seq<byte>
    requires m.offset + m.size <= |a.data|
  {
    a.data[m.offset..m.offset + m.size]
  }

  /** The members of a record with these payloads. */
  function MembersOf(ps: seq<seq<byte>>, pad: nat): (ms: seq<Member>)
    ensures |ms| == |ps|
  {
    seq(|ps|, k requires 0 <= k < |ps| => Member(k, DataOffset(|ps|, pad) + Before(ps, k), |ps[k]|))
  }

  /** The archive a record with these payloads parses to. */
  ghost predicate ArchiveOf(a: Archive, ps: seq<seq<byte>>, pad: nat) {
    && Recordable(ps, pad) && a.data == Encode(ps, pad) && a.members == MembersOf(ps, pad)
    && a.directorySize == 4 + 8 * |ps| && a.dataOffset == DataOffset(|ps|, pad) && a.padding == Padding(pad)
  }

  method ReadMembers(data: seq<byte>, n: nat) returns (members: seq<Member>)
    requires 4 + 8 * n <= |data|
    ensures |members| == n
    ensures forall k: nat | k < n :: members[k] == Member(k, Word(data, 4 + 8 * k), Word(data, 8 + 8 * k))
  {
    members := [];
    for id := 0 to n
      invariant |members| == id
      invariant forall k: nat | k < id :: members[k] == Member(k, Word(data, 4 + 8 * k), Word(data, 8 + 8 * k))
    {
      members := members + [Member(id, Word(data, 4 + 8 * id), Word(data, 8 + 8 * id))];
    }
  }

  /** The members lie back to back from the given offset to the end, in whole words. */
  predicate Contiguous(members: seq<Member>, k: nat, expected: nat, size: nat)
    requires k <= |members|
    decreases |members| - k
  {
    if k == |members| then expected == size
    else
      var m := members[k];
      m.offset == expected && m.offset % 4 == 0 && m.size % 4 == 0 && m.offset + m.size <= size && Contiguous(members, k + 1, m.offset + m.size, size)
  }

  method CheckMembers(members: seq<Member>, start: nat, size: nat) returns (ok: bool)
    requires start <= size
    ensures ok <==> Contiguous(members, 0, start, size)
  {
    var expected: nat := start;
    for k := 0 to |members|
      invariant expected <= size && (Contiguous(members, 0, start, size) <==> Contiguous(members, k, expected, size))
    {
      var m := members[k];
      if m.offset != expected || m.offset % 4 != 0 || m.size % 4 != 0 || m.size > size - m.offset {
        return false;
      }
      expected := m.offset + m.size;
    }
    return expected == size;
  }

  predicate AllOnes(b: seq<byte>) { forall k | 0 <= k < |b| :: b[k] == 255 }

  /** What the parser checks, in terms of the bytes. */
  ghost predicate WellFormed(data: seq<byte>) {
    && 12 <= |data| <= LIMIT
    && var n := Word(data, 0);
    && 1 <= n <= 255 && 4 + 8 * n <= |data|
    && var first := Word(data, 4);
    && 4 + 8 * n <= first <= 4 + 8 * n + 15 && first % 4 == 0 && first <= |data|
    && AllOnes(data[4 + 8 * n..first])
    && Contiguous(DirectoryOf(data, n), 0, first, |data|)
  }

  function DirectoryOf(data: seq<byte>, n: nat): (ms: seq<Member>)
    requires 4 + 8 * n <= |data|
    ensures |ms| == n
  {
    seq(n, k requires 0 <= k < n => Member(k, Word(data, 4 + 8 * k), Word(data, 8 + 8 * k)))
  }

  method Parse(data: seq<byte>) returns (r: Option<Archive>)
    ensures r.Some? <==> WellFormed(data)
    ensures r.Some? ==> var n := Word(data, 0);
                        r.value == Archive(data, DirectoryOf(data, n), 4 + 8 * n, Word(data, 4), data[4 + 8 * n..Word(data, 4)])
    ensures r.Some? ==> exists ps, pad :: ArchiveOf(r.value, ps, pad)
  {
    if |data| < 12 || |data| > LIMIT {
      return None;
    }
    var n := Word(data, 0);
    if !(1 <= n <= 255) {
      return None;
    }
    var directorySize := 4 + n * 8;
    if directorySize > |data| {
      return None;
    }
    var members := ReadMembers(data, n);
    assert members == DirectoryOf(data, n);
    var dataOffset := members[0].offset;
    if dataOffset < directorySize || dataOffset - directorySize > 15 || dataOffset % 4 != 0 || dataOffset > |data| {
      return None;
    }
    var padding := data[directorySize..dataOffset];
    if !AllOnes(padding) {
      return None;
    }
    var ok := CheckMembers(members, dataOffset, |data|);
    if !ok {
      return None;
    }
    ghost var ps, pad := WellFormedEncoded(data);
    EncodedWellFormed(ps, pad);
    EncodedParts(ps, pad);
    ParsedArchive(Archive(data, members, directorySize, dataOffset, padding), ps, pad);
    return Some(Archive(data, members, directorySize, dataOffset, padding));
  }

  // ---- The parser accepts exactly the encoded records ----

  lemma {:induction false} EncodedParts(ps: seq<seq<byte>>, pad: nat)
    requires Recordable(ps, pad)
    ensures var data, first := Encode(ps, pad), DataOffset(|ps|, pad);
            && Word(data, 0) == |ps| && Holds(data, 4, Directory(ps, first))
            && data[4 + 8 * |ps|..first] == Padding(pad) && Holds(data, first, Concat(ps))
  {
    var data, first := Encode(ps, pad), DataOffset(|ps|, pad);
    var head, directory, tail := PackWord(|ps|), Directory(ps, first), Padding(pad) + Concat(ps);
    HoldsSlice(data, 0, data);
    HoldsPart(data, 0, head, directory + tail);
    WordOfSlice(data, 0, head, 0);
    HoldsPart(data, 4, directory, tail);
    HoldsPart(data, 4 + 8 * |ps|, Padding(pad), Concat(ps));
    HoldsSlice(data, 4 + 8 * |ps|, Padding(pad));
  }

  lemma {:induction false} DirectoryReads(data: seq<byte>, ps: seq<seq<byte>>, pad: nat)
    requires Recordable(ps, pad) && Holds(data, 4, Directory(ps, DataOffset(|ps|, pad)))
    ensures DirectoryOf(data, |ps|) == MembersOf(ps, pad)
  {
    forall k | 0 <= k < |ps| ensures DirectoryOf(data, |ps|)[k] == MembersOf(ps, pad)[k] {
      DirectoryAt(data, 4, ps, DataOffset(|ps|, pad), k);
    }
  }

  lemma {:induction false} EncodedDirectory(ps: seq<seq<byte>>, pad: nat)
    requires Recordable(ps, pad)
    ensures DirectoryOf(Encode(ps, pad), |ps|) == MembersOf(ps, pad)
  {
    EncodedParts(ps, pad);
    DirectoryReads(Encode(ps, pad), ps, pad);
  }

  lemma {:induction false} EncodedContiguous(ps: seq<seq<byte>>, pad: nat, k: nat)
    requires Recordable(ps, pad) && k <= |ps| && (DataOffset(|ps|, pad) + Before(ps, k)) % 4 == 0
    ensures Contiguous(MembersOf(ps, pad), k, DataOffset(|ps|, pad) + Before(ps, k), DataOffset(|ps|, pad) + Total(ps))
    decreases |ps| - k
  {
    BeforeTotal(ps);
    if k < |ps| {
      BeforeNext(ps, k);
      BeforeOrdered(ps, k + 1, |ps|);
      EncodedContiguous(ps, pad, k + 1);
    }
  }

  /** Every encoded record is well formed, and parses to its own payloads. */
  lemma {:induction false} EncodedWellFormed(ps: seq<seq<byte>>, pad: nat)
    requires Recordable(ps, pad)
    ensures WellFormed(Encode(ps, pad)) && DirectoryOf(Encode(ps, pad), Word(Encode(ps, pad), 0)) == MembersOf(ps, pad)
    ensures Word(Encode(ps, pad), 4) == DataOffset(|ps|, pad)
  {
    EncodedParts(ps, pad);
    EncodedDirectory(ps, pad);
    EncodedContiguous(ps, pad, 0);
    assert MembersOf(ps, pad)[0].offset == DataOffset(|ps|, pad);
    assert DirectoryOf(Encode(ps, pad), |ps|)[0].offset == Word(Encode(ps, pad), 4);
  }

  function PayloadsFrom(data: seq<byte>, members: seq<Member>, k: nat): (ps: seq<seq<byte>>)
    requires k <= |members| && forall j | k <= j < |members| :: members[j].offset + members[j].size <= |data|
    ensures |ps| == |members| - k && forall j | 0 <= j < |ps| :: ps[j] == data[members[k + j].offset..members[k + j].offset + members[k + j].size]
  {
    seq(|members| - k, j requires 0 <= j < |members| - k => data[members[k + j].offset..members[k + j].offset + members[k + j].size])
  }

  lemma {:induction false} ContiguousInside(members: seq<Member>, k: nat, expected: nat, size: nat)
    requires k <= |members| && Contiguous(members, k, expected, size)
    ensures forall j | k <= j < |members| :: members[j].offset + members[j].size <= size && members[j].size % 4 == 0
    decreases |members| - k
  {
    if k < |members| { ContiguousInside(members, k + 1, members[k].offset + members[k].size, size); }
  }

  lemma {:induction false} ContiguousPayloads(data: seq<byte>, members: seq<Member>, k: nat, expected: nat)
    requires k <= |members| && expected <= |data| && Contiguous(members, k, expected, |data|)
    requires forall j | k <= j < |members| :: members[j].offset + members[j].size <= |data|
    ensures var ps := PayloadsFrom(data, members, k);
            && Holds(data, expected, Concat(ps)) && expected + Total(ps) == |data|
            && forall j | 0 <= j < |ps| :: members[k + j].offset == expected + Before(ps, j) && members[k + j].size == |ps[j]|
    decreases |members| - k
  {
    var ps := PayloadsFrom(data, members, k);
    if k < |members| {
      var m := members[k];
      ContiguousPayloads(data, members, k + 1, m.offset + m.size);
      var rest := PayloadsFrom(data, members, k + 1);
      assert ps[1..] == rest;
      HoldsSlice(data, expected, ps[0]);
      HoldsJoined(data, expected, ps[0], Concat(rest));
      forall j | 0 <= j < |ps| ensures members[k + j].offset == expected + Before(ps, j) {
        if j > 0 { assert members[k + 1 + (j - 1)].offset == m.offset + m.size + Before(rest, j - 1); }
      }
    }
  }

  lemma {:induction false} AllOnesIsPadding(b: seq<byte>)
    requires AllOnes(b)
    ensures b == Padding(|b|)
  {}

  /** Every well-formed record is the encoding of the payloads its directory names. */
  lemma {:induction false} WellFormedEncoded(data: seq<byte>) returns (ps: seq<seq<byte>>, pad: nat)
    requires WellFormed(data)
    ensures Recordable(ps, pad) && data == Encode(ps, pad)
  {
    var n, first := Word(data, 0), Word(data, 4);
    var members := DirectoryOf(data, n);
    ContiguousInside(members, 0, first, |data|);
    ContiguousPayloads(data, members, 0, first);
    ps, pad := PayloadsFrom(data, members, 0), first - 4 - 8 * n;
    PayloadsEncoded(data, ps, pad, members);
  }

  lemma {:induction false} PayloadsEncoded(data: seq<byte>, ps: seq<seq<byte>>, pad: nat, members: seq<Member>)
    requires WellFormed(data) && |ps| == Word(data, 0) && members == DirectoryOf(data, |ps|) && DataOffset(|ps|, pad) == Word(data, 4)
    requires Holds(data, Word(data, 4), Concat(ps)) && Word(data, 4) + Total(ps) == |data|
    requires forall j | 0 <= j < |ps| :: members[j].offset == Word(data, 4) + Before(ps, j) && members[j].size == |ps[j]|
    ensures Recordable(ps, pad) && data == Encode(ps, pad)
  {
    var n, first := |ps|, Word(data, 4);
    ContiguousInside(members, 0, first, |data|);
    forall k | 0 <= k < n ensures |ps[k]| % 4 == 0 { assert members[k].size % 4 == 0; }
    DirectoryHeld(data, ps, first, members);
    WordWritten(data, 0, n);
    AllOnesIsPadding(data[4 + 8 * n..first]);
    HoldsSlice(data, 4 + 8 * n, Padding(pad));
    PartsEncoded(data, ps, pad);
  }

  lemma {:induction false} DirectoryHeld(data: seq<byte>, ps: seq<seq<byte>>, first: nat, members: seq<Member>)
    requires 4 + 8 * |ps| <= |data| && members == DirectoryOf(data, |ps|) && first + Total(ps) <= LIMIT
    requires forall j | 0 <= j < |ps| :: members[j].offset == first + Before(ps, j) && members[j].size == |ps[j]|
    ensures Holds(data, 4, Directory(ps, first))
  {
    forall k: nat | k < |ps| ensures Word(data, 4 + 8 * k) == first + Before(ps, k) && Word(data, 4 + 8 * k + 4) == |ps[k]| {
      assert members[k].offset == first + Before(ps, k) && members[k].size == |ps[k]|;
    }
    DirectoryWritten(data, 4, ps, first);
  }

  lemma {:induction false} PartsEncoded(data: seq<byte>, ps: seq<seq<byte>>, pad: nat)
    requires Recordable(ps, pad) && |data| == DataOffset(|ps|, pad) + Total(ps)
    requires Holds(data, 0, PackWord(|ps|)) && Holds(data, 4, Directory(ps, DataOffset(|ps|, pad)))
    requires Holds(data, 4 + 8 * |ps|, Padding(pad)) && Holds(data, DataOffset(|ps|, pad), Concat(ps))
    ensures data == Encode(ps, pad)
  {
    HoldsJoined(data, 4 + 8 * |ps|, Padding(pad), Concat(ps));
    HoldsJoined(data, 4, Directory(ps, DataOffset(|ps|, pad)), Padding(pad) + Concat(ps));
    HoldsJoined(data, 0, PackWord(|ps|), Directory(ps, DataOffset(|ps|, pad)) + (Padding(pad) + Concat(ps)));
    HoldsSlice(data, 0, Encode(ps, pad));
  }

  /** The parser accepts exactly the records that encode payloads. */
  lemma {:induction false} WellFormedIff(data: seq<byte>)
    ensures WellFormed(data) <==> exists ps, pad :: Recordable(ps, pad) && Encode(ps, pad) == data
  {
    if WellFormed(data) {
      var ps, pad := WellFormedEncoded(data);
    }
    forall ps, pad | Recordable(ps, pad) && Encode(ps, pad) == data ensures WellFormed(data) { EncodedWellFormed(ps, pad); }
  }

  /** The payloads and the padding are determined by the record. */
  lemma {:induction false} EncodeInjective(ps: seq<seq<byte>>, pad: nat, ps': seq<seq<byte>>, pad': nat)
    requires Recordable(ps, pad) && Recordable(ps', pad') && Encode(ps, pad) == Encode(ps', pad')
    ensures ps == ps' && pad == pad'
  {
    EncodedWellFormed(ps, pad);
    EncodedWellFormed(ps', pad');
    EncodedParts(ps, pad);
    EncodedParts(ps', pad');
    var data, first := Encode(ps, pad), DataOffset(|ps|, pad);
    forall k | 0 <= k < |ps| ensures ps[k] == ps'[k] {
      assert MembersOf(ps, pad)[k] == MembersOf(ps', pad')[k];
      ConcatAt(data, first, ps, k);
      ConcatAt(data, first, ps', k);
      HoldsSlice(data, first + Before(ps, k), ps[k]);
      HoldsSlice(data, first + Before(ps', k), ps'[k]);
    }
  }

  // ---- Rebuilding ----

  datatype Replacement = Replacement(id: int, payload: seq<byte>)

  function Replaced(ps: seq<seq<byte>>, rs: seq<Replacement>): (qs: seq<seq<byte>>)
    requires forall k | 0 <= k < |rs| :: 0 <= rs[k].id < |ps|
    ensures |qs| == |ps|
    decreases |rs|
  {
    if rs == [] then ps else Replaced(ps, rs[..|rs| - 1])[rs[|rs| - 1].id := rs[|rs| - 1].payload]
  }

  /** What a rebuild demands of one replacement: a member there is, its exact size unless resizing is allowed, whole words. */
  predicate Suits(ps: seq<seq<byte>>, r: Replacement, allowResize: bool) {
    0 <= r.id < |ps| && (allowResize || |r.payload| == |ps[r.id]|) && |r.payload| % 4 == 0 && |r.payload| <= LIMIT
  }

  predicate Replaceable(ps: seq<seq<byte>>, rs: seq<Replacement>, allowResize: bool) {
    && (forall k | 0 <= k < |rs| :: Suits(ps, rs[k], allowResize))
    && (forall j, k | 0 <= j < k < |rs| :: rs[j].id != rs[k].id)
  }

  lemma {:induction false} ReplacedAt(ps: seq<seq<byte>>, rs: seq<Replacement>, id: nat)
    requires (forall k | 0 <= k < |rs| :: 0 <= rs[k].id < |ps|) && (forall j, k | 0 <= j < k < |rs| :: rs[j].id != rs[k].id) && id < |ps|
    ensures (forall k | 0 <= k < |rs| :: rs[k].id == id ==> Replaced(ps, rs)[id] == rs[k].payload)
    ensures (forall k | 0 <= k < |rs| :: rs[k].id != id) ==> Replaced(ps, rs)[id] == ps[id]
    decreases |rs|
  {
    if rs != [] {
      var n := |rs| - 1;
      ReplacedAt(ps, rs[..n], id);
      forall k | 0 <= k < |rs| && rs[k].id == id ensures Replaced(ps, rs)[id] == rs[k].payload {
        if k < n { assert rs[..n][k] == rs[k]; }
      }
      if forall k | 0 <= k < |rs| :: rs[k].id != id {
        assert forall k | 0 <= k < n :: rs[..n][k].id != id;
        assert rs[n].id != id;
      }
    }
  }

  method CheckReplacements(members: seq<Member>, rs: seq<Replacement>, allowResize: bool, ghost ps: seq<seq<byte>>)
    returns (ok: bool, byId: map<int, seq<byte>>)
    requires |members| == |ps| && forall k | 0 <= k < |ps| :: members[k].size == |ps[k]|
    ensures ok <==> Replaceable(ps, rs, allowResize)
    ensures ok ==> forall id :: id in byId <==> exists k :: 0 <= k < |rs| && rs[k].id == id
    ensures ok ==> forall k | 0 <= k < |rs| :: rs[k].id in byId && byId[rs[k].id] == rs[k].payload
  {
    byId := map[];
    for i := 0 to |rs|
      invariant forall k | 0 <= k < i :: Suits(ps, rs[k], allowResize)
      invariant forall j, k | 0 <= j < k < i :: rs[j].id != rs[k].id
      invariant forall id :: id in byId <==> exists k :: 0 <= k < i && rs[k].id == id
      invariant forall k | 0 <= k < i :: rs[k].id in byId && byId[rs[k].id] == rs[k].payload
    {
      var r := rs[i];
      if r.id in byId {
        return false, byId;
      }
      if !(0 <= r.id < |members|) || (!allowResize && |r.payload| != members[r.id].size) || |r.payload| % 4 != 0 || |r.payload| > LIMIT {
        assert !Suits(ps, rs[i], allowResize);
        return false, byId;
      }
      byId := byId[r.id := r.payload];
    }
    return true, byId;
  }

  /** What is packed, completed by the entries of the remaining payloads, is the whole directory. */
  ghost predicate PacksRest(directory: seq<byte>, ps: seq<seq<byte>>, k: nat, offset: nat, start: nat, head: seq<byte>)
    requires k <= |ps| && start + Total(ps) <= LIMIT
  {
    offset + Total(ps[k..]) == start + Total(ps) && directory + Directory(ps[k..], offset) == head + Directory(ps, start)
  }

  lemma {:induction false} EntryPacked(directory: seq<byte>, ps: seq<seq<byte>>, k: nat, offset: nat, start: nat, head: seq<byte>)
    requires k < |ps| && start + Total(ps) <= LIMIT && PacksRest(directory, ps, k, offset, start, head)
    ensures offset <= LIMIT && |ps[k]| <= LIMIT
    ensures PacksRest(directory + (PackWord(offset) + PackWord(|ps[k]|)), ps, k + 1, offset + |ps[k]|, start, head)
  {
    assert ps[k..][1..] == ps[k + 1..];
    var entry, rest := PackWord(offset) + PackWord(|ps[k]|), Directory(ps[k + 1..], offset + |ps[k]|);
    assert directory + (entry + rest) == (directory + entry) + rest;
  }

  method PackDirectory(ps: seq<seq<byte>>, start: nat) returns (directory: seq<byte>)
    requires start + Total(ps) <= LIMIT && |ps| <= LIMIT
    ensures directory == PackWord(|ps|) + Directory(ps, start)
  {
    directory := PackWord(|ps|);
    var offset: nat := start;
    assert ps[0..] == ps;
    for k := 0 to |ps|
      invariant PacksRest(directory, ps, k, offset, start, PackWord(|ps|))
    {
      EntryPacked(directory, ps, k, offset, start, PackWord(|ps|));
      directory := directory + (PackWord(offset) + PackWord(|ps[k]|));
      offset := offset + |ps[k]|;
    }
  }

  method CollectPayloads(a: Archive, byId: map<int, seq<byte>>) returns (payloads: seq<seq<byte>>)
    requires forall k | 0 <= k < |a.members| :: a.members[k].offset + a.members[k].size <= |a.data|
    ensures |payloads| == |a.members|
    ensures forall k | 0 <= k < |a.members| :: payloads[k] == if k in byId then byId[k] else PayloadOf(a, a.members[k])
  {
    payloads := [];
    for k := 0 to |a.members|
      invariant |payloads| == k
      invariant forall j | 0 <= j < k :: payloads[j] == if j in byId then byId[j] else PayloadOf(a, a.members[j])
    {
      payloads := payloads + [if k in byId then byId[k] else PayloadOf(a, a.members[k])];
    }
  }

  lemma {:induction false} PayloadAt(data: seq<byte>, first: nat, ps: seq<seq<byte>>, k: nat)
    requires Holds(data, first, Concat(ps)) && k < |ps|
    ensures first + Before(ps, k) + |ps[k]| <= |data| && data[first + Before(ps, k)..first + Before(ps, k) + |ps[k]|] == ps[k]
  {
    ConcatAt(data, first, ps, k);
    HoldsSlice(data, first + Before(ps, k), ps[k]);
  }

  lemma {:induction false} ArchivePayload(a: Archive, ps: seq<seq<byte>>, pad: nat, k: nat)
    requires ArchiveOf(a, ps, pad) && k < |ps| && Holds(a.data, DataOffset(|ps|, pad), Concat(ps))
    ensures a.members[k].offset + a.members[k].size <= |a.data| && PayloadOf(a, a.members[k]) == ps[k]
  {
    PayloadAt(a.data, DataOffset(|ps|, pad), ps, k);
  }

  lemma {:induction false} ArchivePayloads(a: Archive, ps: seq<seq<byte>>, pad: nat)
    requires ArchiveOf(a, ps, pad)
    ensures |a.members| == |ps|
    ensures forall k | 0 <= k < |ps| :: a.members[k].offset + a.members[k].size <= |a.data| && PayloadOf(a, a.members[k]) == ps[k]
  {
    EncodedParts(ps, pad);
    forall k | 0 <= k < |ps| ensures a.members[k].offset + a.members[k].size <= |a.data| && PayloadOf(a, a.members[k]) == ps[k] {
      ArchivePayload(a, ps, pad, k);
    }
  }

  lemma {:induction false} CollectedReplaced(ps: seq<seq<byte>>, rs: seq<Replacement>, byId: map<int, seq<byte>>, payloads: seq<seq<byte>>)
    requires (forall k | 0 <= k < |rs| :: 0 <= rs[k].id < |ps|) && (forall j, k | 0 <= j < k < |rs| :: rs[j].id != rs[k].id)
    requires forall id :: id in byId <==> exists k :: 0 <= k < |rs| && rs[k].id == id
    requires forall k | 0 <= k < |rs| :: rs[k].id in byId && byId[rs[k].id] == rs[k].payload
    requires |payloads| == |ps| && forall k | 0 <= k < |ps| :: payloads[k] == if k in byId then byId[k] else ps[k]
    ensures payloads == Replaced(ps, rs)
  {
    forall id: nat | id < |ps| ensures payloads[id] == Replaced(ps, rs)[id] { ReplacedAt(ps, rs, id); }
  }

  method JoinPayloads(ps: seq<seq<byte>>) returns (b: seq<byte>)
    ensures b == Concat(ps)
  {
    b := [];
    assert ps[0..] == ps;
    for k := 0 to |ps|
      invariant b + Concat(ps[k..]) == Concat(ps)
    {
      assert ps[k..][1..] == ps[k + 1..] && b + (ps[k] + Concat(ps[k + 1..])) == (b + ps[k]) + Concat(ps[k + 1..]);
      b := b + ps[k];
    }
  }

  /** Succeeds exactly if the replacements are in order and the result is not too large; the check of its own output never fails. */
  method Rebuild(a: Archive, rs: seq<Replacement>, allowResize: bool, ghost ps: seq<seq<byte>>, ghost pad: nat) returns (r: Option<seq<byte>>)
    requires ArchiveOf(a, ps, pad)
    ensures r.Some? <==> Replaceable(ps, rs, allowResize) && DataOffset(|ps|, pad) + Total(Replaced(ps, rs)) <= LIMIT
    ensures r.Some? ==> Recordable(Replaced(ps, rs), pad) && r.value == Encode(Replaced(ps, rs), pad)
  {
    ArchivePayloads(a, ps, pad);
    var ok, byId := CheckReplacements(a.members, rs, allowResize, ps);
    if !ok {
      return None;
    }
    var payloads := CollectPayloads(a, byId);
    CollectedReplaced(ps, rs, byId, payloads);
    if a.dataOffset + Total(payloads) > LIMIT {
      return None;
    }
    ReplacedAligned(ps, rs, allowResize);
    var rebuilt := Assemble(payloads, a.dataOffset, a.padding, pad);
    var sound := Reparses(rebuilt);
    return if sound then Some(rebuilt) else None;
  }

  method Assemble(payloads: seq<seq<byte>>, dataOffset: nat, padding: seq<byte>, ghost pad: nat) returns (rebuilt: seq<byte>)
    requires Recordable(payloads, pad) && dataOffset == DataOffset(|payloads|, pad) && padding == Padding(pad)
    ensures rebuilt == Encode(payloads, pad) && WellFormed(rebuilt)
  {
    var directory := PackDirectory(payloads, dataOffset);
    var joined := JoinPayloads(payloads);
    rebuilt := directory + padding + joined;
    assert rebuilt == Encode(payloads, pad);
    EncodedWellFormed(payloads, pad);
  }

  method Reparses(rebuilt: seq<byte>) returns (sound: bool)
    ensures sound <==> WellFormed(rebuilt)
  {
    var parsed := Parse(rebuilt);
    return parsed.Some?;
  }

  lemma {:induction false} ReplacedAligned(ps: seq<seq<byte>>, rs: seq<Replacement>, allowResize: bool)
    requires Replaceable(ps, rs, allowResize) && forall k | 0 <= k < |ps| :: |ps[k]| % 4 == 0
    ensures forall k | 0 <= k < |ps| :: |Replaced(ps, rs)[k]| % 4 == 0
  {
    forall id: nat | id < |ps| ensures |Replaced(ps, rs)[id]| % 4 == 0 {
      ReplacedAt(ps, rs, id);
      if k :| 0 <= k < |rs| && rs[k].id == id { assert |rs[k].payload| % 4 == 0; }
    }
  }

  /** What the parser returns for a record it accepts. */
  lemma {:induction false} ParsedArchive(a: Archive, ps: seq<seq<byte>>, pad: nat)
    requires Recordable(ps, pad) && a.data == Encode(ps, pad)
    requires a == Archive(a.data, DirectoryOf(a.data, |ps|), 4 + 8 * |ps|, DataOffset(|ps|, pad), a.data[4 + 8 * |ps|..DataOffset(|ps|, pad)])
    ensures ArchiveOf(a, ps, pad)
  {
    EncodedDirectory(ps, pad);
    EncodedParts(ps, pad);
  }

  /** Rebuilding with no replacement reproduces the record byte for byte. */
  lemma {:induction false} RebuildNothing(ps: seq<seq<byte>>, pad: nat)
    requires Recordable(ps, pad)
    ensures Replaceable(ps, [], false) && DataOffset(|ps|, pad) + Total(Replaced(ps, [])) <= LIMIT
    ensures Recordable(Replaced(ps, []), pad) && Encode(Replaced(ps, []), pad) == Encode(ps, pad)
  {}

  /** Parsing a rebuild finds the old members, with only the replaced payloads changed. */
  lemma {:induction false} ParseRebuilt(a: Archive, ps: seq<seq<byte>>, rs: seq<Replacement>, pad: nat, allowResize: bool, id: nat)
    requires Replaceable(ps, rs, allowResize) && Recordable(Replaced(ps, rs), pad) && ArchiveOf(a, Replaced(ps, rs), pad) && id < |ps|
    ensures |a.members| == |ps| && a.members[id].offset + a.members[id].size <= |a.data|
    ensures (forall k | 0 <= k < |rs| :: rs[k].id != id) ==> PayloadOf(a, a.members[id]) == ps[id]
    ensures forall k | 0 <= k < |rs| && rs[k].id == id :: PayloadOf(a, a.members[id]) == rs[k].payload
  {
    ArchivePayloads(a, Replaced(ps, rs), pad);
    ReplacedAt(ps, rs, id);
  }
}
