/** Overlay packages: where replacements go on the disc, and that they never meet (tools/bns_mod.py, tools/bns_tool.py). */
module Overlays {
  import opened Options
  import opened Bytes
  import Arc

  const SECTOR := 2048

  // ---- The record table ----

  datatype Entry = Entry(id: nat, sector: nat, size: nat)

  function Sectors(size: nat): nat { (size + SECTOR - 1) / SECTOR }

  /** What the table validator checks: each record against the next. */
  predicate ValidTable(es: seq<Entry>) {
    && (forall k | 0 <= k < |es| :: es[k].id == k)
    && forall k | 0 <= k < |es| - 1 :: es[k].sector + Sectors(es[k].size) <= es[k + 1].sector
  }

  method ValidateTable(es: seq<Entry>, count: nat) returns (ok: bool)
    ensures ok <==> |es| == count && ValidTable(es)
  {
    if |es| != count {
      return false;
    }
    for k := 0 to |es|
      invariant forall j | 0 <= j < k :: es[j].id == j
    {
      if es[k].id != k {
        return false;
      }
    }
    if |es| > 0 {
      for k := 1 to |es|
        invariant forall j | 0 <= j < k - 1 :: es[j].sector + Sectors(es[j].size) <= es[j + 1].sector
      {
        if es[k].sector < es[k - 1].sector + Sectors(es[k - 1].size) {
          assert es[k - 1].sector + Sectors(es[k - 1].size) > es[k - 1 + 1].sector;
          return false;
        }
      }
    }
    return true;
  }

  lemma {:induction false} SectorsCover(size: nat)
    ensures size <= SECTOR * Sectors(size)
  {}

  /** Adjacent pairs are enough: any two records of a valid table are disjoint, sector by sector. */
  lemma {:induction false} RecordsApart(es: seq<Entry>, i: nat, j: nat)
    requires ValidTable(es) && i < j < |es|
    ensures es[i].sector + Sectors(es[i].size) <= es[j].sector
    decreases j - i
  {
    assert es[j - 1].sector + Sectors(es[j - 1].size) <= es[j - 1 + 1].sector;
    if i < j - 1 { RecordsApart(es, i, j - 1); }
  }

  function RecordAt(lba: nat, e: Entry): nat { (lba + e.sector) * SECTOR }

  lemma {:induction false} BytesApart(lba: nat, es: seq<Entry>, i: nat, j: nat)
    requires ValidTable(es) && i < j < |es|
    ensures RecordAt(lba, es[i]) == 2048 * lba + 2048 * es[i].sector
    ensures RecordAt(lba, es[i]) + es[i].size <= RecordAt(lba, es[j])
  {
    RecordsApart(es, i, j);
    SectorsCover(es[i].size);
  }

  // ---- Overlays ----

  datatype Overlay = Overlay(id: nat, member: Option<nat>, at: nat, payload: seq<byte>)

  predicate Apart(a: Overlay, b: Overlay) {
    a.at + |a.payload| <= b.at || b.at + |b.payload| <= a.at
  }

  ghost predicate PairwiseApart(os: seq<Overlay>) {
    forall i, j | 0 <= i < j < |os| :: Apart(os[i], os[j])
  }

  predicate Inside(os: seq<Overlay>, n: nat) { forall k | 0 <= k < |os| :: os[k].at + |os[k].payload| <= n }

  /** The disc after the overlays are written one after the other. */
  function Written(disc: seq<byte>, os: seq<Overlay>): (r: seq<byte>)
    requires Inside(os, |disc|)
    ensures |r| == |disc|
    decreases |os|
  {
    if os == [] then disc
    else Patched(Written(disc, os[..|os| - 1]), os[|os| - 1].at, os[|os| - 1].payload)
  }

  predicate Covers(o: Overlay, b: nat) { o.at <= b < o.at + |o.payload| }

  /** What the overlays make of one byte. */
  ghost predicate Decides(disc: seq<byte>, os: seq<Overlay>, b: nat, v: byte)
    requires b < |disc|
  {
    && (forall k | 0 <= k < |os| && Covers(os[k], b) :: v == os[k].payload[b - os[k].at])
    && ((forall k | 0 <= k < |os| :: !Covers(os[k], b)) ==> v == disc[b])
  }

  lemma {:induction false} DecidesLast(disc: seq<byte>, os: seq<Overlay>, o: Overlay, b: nat, v: byte)
    requires b < |disc| && Decides(disc, os, b, v) && forall k | 0 <= k < |os| :: Apart(os[k], o)
    ensures Decides(disc, os + [o], b, if Covers(o, b) then o.payload[b - o.at] else v)
  {
    var all := os + [o];
    if forall k | 0 <= k < |all| :: !Covers(all[k], b) {
      assert !Covers(all[|os|], b);
      forall k | 0 <= k < |os| ensures !Covers(os[k], b) { assert !Covers(all[k], b); }
    }
    forall k | 0 <= k < |all| && Covers(all[k], b) ensures (if Covers(o, b) then o.payload[b - o.at] else v) == all[k].payload[b - all[k].at] {
      if k < |os| { assert Apart(os[k], o); }
    }
  }

  lemma {:induction false} WrittenAt(disc: seq<byte>, os: seq<Overlay>, b: nat)
    requires Inside(os, |disc|) && PairwiseApart(os) && b < |disc|
    ensures Decides(disc, os, b, Written(disc, os)[b])
    decreases |os|
  {
    if os != [] {
      var n := |os| - 1;
      WrittenAt(disc, os[..n], b);
      DecidesLast(disc, os[..n], os[n], b, Written(disc, os[..n])[b]);
      assert os[..n] + [os[n]] == os;
    }
  }

  /** Disjoint overlays may be written in any order: only which ones there are matters. */
  lemma {:induction false} OrderIrrelevant(disc: seq<byte>, os: seq<Overlay>, os': seq<Overlay>)
    requires Inside(os, |disc|) && PairwiseApart(os) && Inside(os', |disc|) && PairwiseApart(os')
    requires forall o :: o in os <==> o in os'
    ensures Written(disc, os) == Written(disc, os')
  {
    forall b: nat | b < |disc| ensures Written(disc, os)[b] == Written(disc, os')[b] {
      WrittenAt(disc, os, b);
      WrittenAt(disc, os', b);
      if k :| 0 <= k < |os| && Covers(os[k], b) {
        assert os[k] in os';
        var k' :| 0 <= k' < |os'| && os'[k'] == os[k];
      } else {
        forall k' | 0 <= k' < |os'| ensures !Covers(os'[k'], b) {
          assert os'[k'] in os;
          var k :| 0 <= k < |os| && os[k] == os'[k'];
        }
      }
    }
  }

  // ---- Members of one archive ----

  /** The overlays that replace members of an archive: the record with this number, lying at the given place. */
  function MemberOverlays(id: nat, at: nat, ps: seq<seq<byte>>, pad: nat, rs: seq<Arc.Replacement>): (os: seq<Overlay>)
    requires forall k | 0 <= k < |rs| :: 0 <= rs[k].id < |ps|
    ensures |os| == |rs|
  {
    seq(|rs|, k requires 0 <= k < |rs| =>
      Overlay(id, Some(rs[k].id), at + Arc.DataOffset(|ps|, pad) + Arc.Before(ps, rs[k].id), rs[k].payload))
  }

  ghost predicate SameSizes(ps: seq<seq<byte>>, qs: seq<seq<byte>>) {
    |ps| == |qs| && forall k | 0 <= k < |ps| :: |ps[k]| == |qs[k]|
  }

  /** The directory and the offsets depend on the sizes only. */
  lemma {:induction false} SameLayout(ps: seq<seq<byte>>, qs: seq<seq<byte>>, offset: nat, k: nat)
    requires SameSizes(ps, qs) && offset + Arc.Total(ps) <= Arc.LIMIT && k <= |ps|
    ensures Arc.Total(ps) == Arc.Total(qs) && Arc.Before(ps, k) == Arc.Before(qs, k)
    ensures Arc.Directory(ps, offset) == Arc.Directory(qs, offset)
    decreases |ps|
  {
    if ps != [] { SameLayout(ps[1..], qs[1..], offset + |ps[0]|, if k == 0 then 0 else k - 1); }
  }

  lemma {:induction false} PatchedTail(a: seq<byte>, b: seq<byte>, at: nat, field: seq<byte>)
    requires at + |field| <= |b|
    ensures Patched(a + b, |a| + at, field) == a + Patched(b, at, field)
  {}

  lemma {:induction false} PatchedHead(a: seq<byte>, b: seq<byte>, field: seq<byte>)
    requires |field| == |a|
    ensures Patched(a + b, 0, field) == field + b
  {}

  lemma {:induction false} ConcatPatched(ps: seq<seq<byte>>, id: nat, payload: seq<byte>)
    requires id < |ps| && |payload| == |ps[id]|
    ensures Arc.Before(ps, id) + |payload| <= Arc.Total(ps)
    ensures Arc.Concat(ps[id := payload]) == Patched(Arc.Concat(ps), Arc.Before(ps, id), payload)
    decreases id
  {
    var qs := ps[id := payload];
    if id == 0 {
      assert qs[1..] == ps[1..];
      PatchedHead(ps[0], Arc.Concat(ps[1..]), payload);
    } else {
      assert qs[1..] == ps[1..][id - 1 := payload];
      ConcatPatched(ps[1..], id - 1, payload);
      PatchedTail(ps[0], Arc.Concat(ps[1..]), Arc.Before(ps[1..], id - 1), payload);
    }
  }

  /** Overwriting a member in the record is rebuilding the record with it. */
  lemma {:induction false} EncodePatched(ps: seq<seq<byte>>, pad: nat, id: nat, payload: seq<byte>)
    requires Arc.Recordable(ps, pad) && id < |ps| && |payload| == |ps[id]|
    ensures Arc.Recordable(ps[id := payload], pad) && Arc.DataOffset(|ps|, pad) + Arc.Before(ps, id) + |payload| <= |Arc.Encode(ps, pad)|
    ensures Arc.Encode(ps[id := payload], pad) == Patched(Arc.Encode(ps, pad), Arc.DataOffset(|ps|, pad) + Arc.Before(ps, id), payload)
  {
    var qs, first := ps[id := payload], Arc.DataOffset(|ps|, pad);
    SameLayout(ps, qs, first, id);
    ConcatPatched(ps, id, payload);
    var head := PackWord(|ps|) + Arc.Directory(ps, first) + Arc.Padding(pad);
    PatchedTail(head, Arc.Concat(ps), Arc.Before(ps, id), payload);
    assert Arc.Encode(ps, pad) == head + Arc.Concat(ps);
    assert Arc.Encode(qs, pad) == head + Arc.Concat(qs);
  }

  lemma {:induction false} PatchInside(disc: seq<byte>, at: nat, record: seq<byte>, offset: nat, field: seq<byte>)
    requires at + |record| <= |disc| && offset + |field| <= |record|
    ensures Patched(Patched(disc, at, record), at + offset, field) == Patched(disc, at, Patched(record, offset, field))
  {}

  lemma {:induction false} ReplacedSizes(ps: seq<seq<byte>>, rs: seq<Arc.Replacement>)
    requires Arc.Replaceable(ps, rs, false)
    ensures SameSizes(ps, Arc.Replaced(ps, rs))
    decreases |rs|
  {
    if rs != [] { ReplacedSizes(ps, rs[..|rs| - 1]); }
  }

  lemma {:induction false} SpliceStep(disc: seq<byte>, at: nat, ps: seq<seq<byte>>, qs: seq<seq<byte>>, pad: nat, id: nat, payload: seq<byte>)
    requires Arc.Recordable(ps, pad) && Arc.Recordable(qs, pad) && SameSizes(ps, qs) && id < |ps| && |payload| == |ps[id]|
    requires at + |Arc.Encode(qs, pad)| <= |disc|
    ensures var offset, next := Arc.DataOffset(|ps|, pad) + Arc.Before(ps, id), qs[id := payload];
            && offset + |payload| <= |Arc.Encode(qs, pad)| && Arc.Recordable(next, pad) && |Arc.Encode(next, pad)| == |Arc.Encode(qs, pad)|
            && Patched(Patched(disc, at, Arc.Encode(qs, pad)), at + offset, payload) == Patched(disc, at, Arc.Encode(next, pad))
  {
    SameLayout(ps, qs, Arc.DataOffset(|ps|, pad), id);
    EncodePatched(qs, pad, id, payload);
    PatchInside(disc, at, Arc.Encode(qs, pad), Arc.DataOffset(|ps|, pad) + Arc.Before(ps, id), payload);
  }

  lemma {:induction false} LastOverlay(disc: seq<byte>, os: seq<Overlay>)
    requires os != [] && Inside(os[..|os| - 1], |disc|) && os[|os| - 1].at + |os[|os| - 1].payload| <= |disc|
    ensures Inside(os, |disc|) && Written(disc, os) == Patched(Written(disc, os[..|os| - 1]), os[|os| - 1].at, os[|os| - 1].payload)
  {
    forall k | 0 <= k < |os| ensures os[k].at + |os[k].payload| <= |disc| {
      if k < |os| - 1 { assert os[..|os| - 1][k] == os[k]; }
    }
  }

  lemma {:induction false} FrontReplaceable(ps: seq<seq<byte>>, rs: seq<Arc.Replacement>)
    requires rs != [] && Arc.Replaceable(ps, rs, false)
    ensures Arc.Replaceable(ps, rs[..|rs| - 1], false)
  {}

  /** The record at the given place has been written back rebuilt. */
  ghost predicate Spliced(disc: seq<byte>, at: nat, qs: seq<seq<byte>>, pad: nat, os: seq<Overlay>) {
    && Inside(os, |disc|) && Arc.Recordable(qs, pad) && at + |Arc.Encode(qs, pad)| <= |disc|
    && Written(disc, os) == Patched(disc, at, Arc.Encode(qs, pad))
  }

  lemma {:induction false} SplicedNext(disc: seq<byte>, at: nat, ps: seq<seq<byte>>, qs: seq<seq<byte>>, pad: nat, os: seq<Overlay>, id: nat, payload: seq<byte>)
    requires Arc.Recordable(ps, pad) && SameSizes(ps, qs) && id < |ps| && |payload| == |ps[id]|
    requires os != [] && Spliced(disc, at, qs, pad, os[..|os| - 1])
    requires os[|os| - 1].at == at + Arc.DataOffset(|ps|, pad) + Arc.Before(ps, id) && os[|os| - 1].payload == payload
    ensures Spliced(disc, at, qs[id := payload], pad, os)
  {
    SpliceStep(disc, at, ps, qs, pad, id, payload);
    LastOverlay(disc, os);
  }

  lemma {:induction false} OverlaysLast(id: nat, at: nat, ps: seq<seq<byte>>, pad: nat, rs: seq<Arc.Replacement>)
    requires rs != [] && forall k | 0 <= k < |rs| :: 0 <= rs[k].id < |ps|
    ensures var os, n := MemberOverlays(id, at, ps, pad, rs), |rs| - 1;
            && os[..n] == MemberOverlays(id, at, ps, pad, rs[..n]) && os[n].payload == rs[n].payload
            && os[n].at == at + Arc.DataOffset(|ps|, pad) + Arc.Before(ps, rs[n].id)
  {}

  /** Writing overlays at the members' disc offsets equals writing back the rebuilt record. */
  lemma {:induction false} SpliceIsRebuild(disc: seq<byte>, id: nat, at: nat, ps: seq<seq<byte>>, pad: nat, rs: seq<Arc.Replacement>)
    requires Arc.Recordable(ps, pad) && Arc.Replaceable(ps, rs, false) && Holds(disc, at, Arc.Encode(ps, pad))
    ensures Spliced(disc, at, Arc.Replaced(ps, rs), pad, MemberOverlays(id, at, ps, pad, rs))
    decreases |rs|
  {
    if rs == [] {
      HoldsSlice(disc, at, Arc.Encode(ps, pad));
      assert Patched(disc, at, Arc.Encode(ps, pad)) == disc;
    } else {
      var n := |rs| - 1;
      FrontReplaceable(ps, rs);
      SpliceIsRebuild(disc, id, at, ps, pad, rs[..n]);
      ReplacedSizes(ps, rs[..n]);
      OverlaysLast(id, at, ps, pad, rs);
      SplicedNext(disc, at, ps, Arc.Replaced(ps, rs[..n]), pad, MemberOverlays(id, at, ps, pad, rs), rs[n].id, rs[n].payload);
    }
  }

  // ---- Packages ----

  datatype Spec = Spec(id: int, payload: seq<byte>)

  datatype ArcSpec = ArcSpec(id: int, member: int, payload: seq<byte>)

  /** The record table, where the container lies, which records the inventory calls archives, and the disc. */
  datatype Source = Source(entries: seq<Entry>, lba: nat, arcs: seq<bool>, disc: seq<byte>)

  ghost predicate Readable(s: Source) {
    && ValidTable(s.entries) && |s.arcs| == |s.entries|
    && forall k | 0 <= k < |s.entries| :: RecordAt(s.lba, s.entries[k]) + s.entries[k].size <= |s.disc|
  }

  function RecordOf(s: Source, id: nat): seq<byte>
    requires id < |s.entries| && RecordAt(s.lba, s.entries[id]) + s.entries[id].size <= |s.disc|
  {
    s.disc[RecordAt(s.lba, s.entries[id])..RecordAt(s.lba, s.entries[id]) + s.entries[id].size]
  }

  /** The overlay for a whole record: it exists, is not empty, and the replacement has its exact size. */
  predicate WholeOverlay(s: Source, spec: Spec, o: Overlay) {
    && 0 <= spec.id < |s.entries|
    && |spec.payload| == s.entries[spec.id].size != 0
    && o == Overlay(spec.id, None, RecordAt(s.lba, s.entries[spec.id]), spec.payload)
  }

  /** The overlay for a member of a strict archive, with the member's exact size. */
  ghost predicate MemberOverlay(s: Source, spec: ArcSpec, o: Overlay)
    requires Readable(s)
  {
    && 0 <= spec.id < |s.entries| && s.arcs[spec.id]
    && var record := RecordOf(s, spec.id);
    && Arc.WellFormed(record) && 0 <= spec.member < Word(record, 0)
    && var m := Arc.DirectoryOf(record, Word(record, 0))[spec.member];
    && |spec.payload| == m.size != 0
    && o == Overlay(spec.id, Some(spec.member), RecordAt(s.lba, s.entries[spec.id]) + m.offset, spec.payload)
  }

  /** No record and no member is replaced twice, and no record both as a whole and in parts. */
  predicate Distinct(specs: seq<Spec>, arcSpecs: seq<ArcSpec>) {
    && (forall i, j | 0 <= i < j < |specs| :: specs[i].id != specs[j].id)
    && (forall i, j | 0 <= i < j < |arcSpecs| :: arcSpecs[i].id != arcSpecs[j].id || arcSpecs[i].member != arcSpecs[j].member)
    && (forall i, j | 0 <= i < |specs| && 0 <= j < |arcSpecs| :: specs[i].id != arcSpecs[j].id)
  }

  method FindRepeats(specs: seq<Spec>, arcSpecs: seq<ArcSpec>) returns (ok: bool)
    ensures ok <==> Distinct(specs, arcSpecs)
  {
    var ids: set<int> := {};
    for i := 0 to |specs|
      invariant ids == set k | 0 <= k < i :: specs[k].id
      invariant forall k, j | 0 <= k < j < i :: specs[k].id != specs[j].id
    {
      if specs[i].id in ids {
        return false;
      }
      ids := ids + {specs[i].id};
    }
    var keys: set<(int, int)> := {};
    for i := 0 to |arcSpecs|
      invariant keys == set k | 0 <= k < i :: (arcSpecs[k].id, arcSpecs[k].member)
      invariant forall k, j | 0 <= k < j < i :: arcSpecs[k].id != arcSpecs[j].id || arcSpecs[k].member != arcSpecs[j].member
      invariant forall k, j | 0 <= k < |specs| && 0 <= j < i :: specs[k].id != arcSpecs[j].id
    {
      if (arcSpecs[i].id, arcSpecs[i].member) in keys || arcSpecs[i].id in ids {
        return false;
      }
      keys := keys + {(arcSpecs[i].id, arcSpecs[i].member)};
    }
    return true;
  }

  method PrepareWhole(s: Source, spec: Spec) returns (o: Option<Overlay>)
    requires Readable(s)
    ensures o.Some? ==> WholeOverlay(s, spec, o.value)
    ensures o.None? ==> forall o' :: !WholeOverlay(s, spec, o')
  {
    if !(0 <= spec.id < |s.entries|) || s.entries[spec.id].size == 0 || |spec.payload| != s.entries[spec.id].size {
      return None;
    }
    return Some(Overlay(spec.id, None, RecordAt(s.lba, s.entries[spec.id]), spec.payload));
  }

  method PrepareMember(s: Source, spec: ArcSpec) returns (o: Option<Overlay>)
    requires Readable(s)
    ensures o.Some? ==> MemberOverlay(s, spec, o.value)
    ensures o.None? ==> forall o' :: !MemberOverlay(s, spec, o')
  {
    if !(0 <= spec.id < |s.entries|) || !s.arcs[spec.id] {
      return None;
    }
    var archive := Arc.Parse(RecordOf(s, spec.id));
    if archive.None? || !(0 <= spec.member < |archive.value.members|) {
      return None;
    }
    var m := archive.value.members[spec.member];
    if m.size == 0 || |spec.payload| != m.size {
      return None;
    }
    return Some(Overlay(spec.id, Some(spec.member), RecordAt(s.lba, s.entries[spec.id]) + m.offset, spec.payload));
  }

  /** The overlays of an accepted package: those for whole records, then those for members. */
  ghost predicate PackageOf(s: Source, specs: seq<Spec>, arcSpecs: seq<ArcSpec>, os: seq<Overlay>)
    requires Readable(s)
  {
    && |os| == |specs| + |arcSpecs|
    && (forall k | 0 <= k < |specs| :: WholeOverlay(s, specs[k], os[k]))
    && forall k | 0 <= k < |arcSpecs| :: MemberOverlay(s, arcSpecs[k], os[|specs| + k])
  }

  method Prepare(s: Source, specs: seq<Spec>, arcSpecs: seq<ArcSpec>) returns (r: Option<seq<Overlay>>)
    requires Readable(s)
    ensures r.Some? ==> |specs| + |arcSpecs| > 0 && Distinct(specs, arcSpecs) && PackageOf(s, specs, arcSpecs, r.value)
    ensures r.None? ==> |specs| + |arcSpecs| == 0 || !Distinct(specs, arcSpecs) || forall os :: !PackageOf(s, specs, arcSpecs, os)
  {
    var distinct := FindRepeats(specs, arcSpecs);
    if |specs| + |arcSpecs| == 0 || !distinct {
      return None;
    }
    var os: seq<Overlay> := [];
    for k := 0 to |specs|
      invariant |os| == k && forall j | 0 <= j < k :: WholeOverlay(s, specs[j], os[j])
    {
      var o := PrepareWhole(s, specs[k]);
      if o.None? {
        forall os' ensures !PackageOf(s, specs, arcSpecs, os') { if |os'| > k { assert !WholeOverlay(s, specs[k], os'[k]); } }
        return None;
      }
      os := os + [o.value];
    }
    for k := 0 to |arcSpecs|
      invariant |os| == |specs| + k && forall j | 0 <= j < |specs| :: WholeOverlay(s, specs[j], os[j])
      invariant forall j | 0 <= j < k :: MemberOverlay(s, arcSpecs[j], os[|specs| + j])
    {
      var o := PrepareMember(s, arcSpecs[k]);
      if o.None? {
        forall os' ensures !PackageOf(s, specs, arcSpecs, os') {
          if |os'| > |specs| + k { assert !MemberOverlay(s, arcSpecs[k], os'[|specs| + k]); }
        }
        return None;
      }
      os := os + [o.value];
    }
    return Some(os);
  }

  // ---- Overlays of a package never meet ----

  /** An overlay stays inside its record. */
  ghost predicate InRecord(s: Source, o: Overlay)
    requires Readable(s)
  {
    && o.id < |s.entries|
    && RecordAt(s.lba, s.entries[o.id]) <= o.at
    && o.at + |o.payload| <= RecordAt(s.lba, s.entries[o.id]) + s.entries[o.id].size
  }

  lemma {:induction false} MemberInRecord(s: Source, spec: ArcSpec, o: Overlay)
    requires Readable(s) && MemberOverlay(s, spec, o)
    ensures InRecord(s, o)
  {
    var record := RecordOf(s, spec.id);
    Arc.ContiguousInside(Arc.DirectoryOf(record, Word(record, 0)), 0, Word(record, 4), |record|);
  }

  lemma {:induction false} DifferentRecords(s: Source, a: Overlay, b: Overlay)
    requires Readable(s) && InRecord(s, a) && InRecord(s, b) && a.id != b.id
    ensures Apart(a, b)
  {
    if a.id < b.id { BytesApart(s.lba, s.entries, a.id, b.id); } else { BytesApart(s.lba, s.entries, b.id, a.id); }
  }

  lemma {:induction false} MembersApart(ms: seq<Arc.Member>, k: nat, expected: nat, size: nat, i: nat, j: nat)
    requires k <= i < j < |ms| && Arc.Contiguous(ms, k, expected, size)
    ensures expected <= ms[i].offset && ms[i].offset + ms[i].size <= ms[j].offset
    decreases |ms| - k
  {
    if k < i {
      MembersApart(ms, k + 1, ms[k].offset + ms[k].size, size, i, j);
    } else {
      FromExpected(ms, k + 1, ms[k].offset + ms[k].size, size, j);
    }
  }

  lemma {:induction false} FromExpected(ms: seq<Arc.Member>, k: nat, expected: nat, size: nat, j: nat)
    requires k <= j < |ms| && Arc.Contiguous(ms, k, expected, size)
    ensures expected <= ms[j].offset
    decreases j - k
  {
    if k < j { FromExpected(ms, k + 1, ms[k].offset + ms[k].size, size, j); }
  }

  lemma {:induction false} SameRecordMembers(s: Source, x: ArcSpec, y: ArcSpec, a: Overlay, b: Overlay)
    requires Readable(s) && MemberOverlay(s, x, a) && MemberOverlay(s, y, b) && x.id == y.id && x.member != y.member
    ensures Apart(a, b)
  {
    var record := RecordOf(s, x.id);
    var ms := Arc.DirectoryOf(record, Word(record, 0));
    if x.member < y.member {
      MembersApart(ms, 0, Word(record, 4), |record|, x.member, y.member);
    } else {
      MembersApart(ms, 0, Word(record, 4), |record|, y.member, x.member);
    }
  }

  lemma {:induction false} PackageInside(s: Source, specs: seq<Spec>, arcSpecs: seq<ArcSpec>, os: seq<Overlay>, i: nat)
    requires Readable(s) && PackageOf(s, specs, arcSpecs, os) && i < |os|
    ensures InRecord(s, os[i])
  {
    if i < |specs| {
      assert WholeOverlay(s, specs[i], os[i]);
    } else {
      assert MemberOverlay(s, arcSpecs[i - |specs|], os[|specs| + (i - |specs|)]);
      MemberInRecord(s, arcSpecs[i - |specs|], os[i]);
    }
  }

  /** All overlays of one accepted package are pairwise disjoint and lie on the disc. */
  lemma {:induction false} PackageApart(s: Source, specs: seq<Spec>, arcSpecs: seq<ArcSpec>, os: seq<Overlay>)
    requires Readable(s) && Distinct(specs, arcSpecs) && PackageOf(s, specs, arcSpecs, os)
    ensures PairwiseApart(os) && Inside(os, |s.disc|)
  {
    forall i | 0 <= i < |os| ensures InRecord(s, os[i]) { PackageInside(s, specs, arcSpecs, os, i); }
    forall i, j | 0 <= i < j < |os| ensures Apart(os[i], os[j]) { TwoApart(s, specs, arcSpecs, os, i, j); }
  }

  lemma {:induction false} PackageId(s: Source, specs: seq<Spec>, arcSpecs: seq<ArcSpec>, os: seq<Overlay>, i: nat)
    requires Readable(s) && PackageOf(s, specs, arcSpecs, os) && i < |os|
    ensures os[i].id == if i < |specs| then specs[i].id else arcSpecs[i - |specs|].id
    ensures i >= |specs| ==> MemberOverlay(s, arcSpecs[i - |specs|], os[i])
  {
    if i < |specs| {
      assert WholeOverlay(s, specs[i], os[i]);
    } else {
      assert MemberOverlay(s, arcSpecs[i - |specs|], os[|specs| + (i - |specs|)]);
    }
  }

  /** Two overlays of one record replace different members of it. */
  lemma {:induction false} BothMembers(s: Source, specs: seq<Spec>, arcSpecs: seq<ArcSpec>, os: seq<Overlay>, i: nat, j: nat)
    requires Readable(s) && Distinct(specs, arcSpecs) && PackageOf(s, specs, arcSpecs, os) && i < j < |os| && os[i].id == os[j].id
    ensures i >= |specs| && arcSpecs[i - |specs|].id == arcSpecs[j - |specs|].id && arcSpecs[i - |specs|].member != arcSpecs[j - |specs|].member
  {
    PackageId(s, specs, arcSpecs, os, i);
    PackageId(s, specs, arcSpecs, os, j);
  }

  lemma {:induction false} TwoApart(s: Source, specs: seq<Spec>, arcSpecs: seq<ArcSpec>, os: seq<Overlay>, i: nat, j: nat)
    requires Readable(s) && Distinct(specs, arcSpecs) && PackageOf(s, specs, arcSpecs, os) && i < j < |os|
    ensures Apart(os[i], os[j])
  {
    if os[i].id != os[j].id {
      PackageInside(s, specs, arcSpecs, os, i);
      PackageInside(s, specs, arcSpecs, os, j);
      DifferentRecords(s, os[i], os[j]);
    } else {
      BothMembers(s, specs, arcSpecs, os, i, j);
      PackageId(s, specs, arcSpecs, os, i);
      PackageId(s, specs, arcSpecs, os, j);
      SameRecordMembers(s, arcSpecs[i - |specs|], arcSpecs[j - |specs|], os[i], os[j]);
    }
  }
}
