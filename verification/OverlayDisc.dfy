/** What the disc holds after the overlays of an accepted package are written (tools/bns_mod.py). */
module OverlayDisc {
  import opened Options
  import opened Bytes
  import opened Overlays
  import Arc

  // ---- One member ----

  /** The overlay of a member, in terms of the payloads its record encodes. */
  lemma {:induction false} MemberPlace(s: Source, spec: ArcSpec, o: Overlay, ps: seq<seq<byte>>, pad: nat)
    requires Readable(s) && MemberOverlay(s, spec, o) && Arc.Recordable(ps, pad) && Arc.Encode(ps, pad) == RecordOf(s, spec.id)
    ensures Arc.Suits(ps, Arc.Replacement(spec.member, spec.payload), false)
    ensures o == Overlay(spec.id, Some(spec.member), RecordAt(s.lba, s.entries[spec.id]) + Arc.DataOffset(|ps|, pad) + Arc.Before(ps, spec.member), spec.payload)
  {
    Arc.EncodedWellFormed(ps, pad);
    Arc.ContiguousInside(Arc.MembersOf(ps, pad), 0, Arc.DataOffset(|ps|, pad), |Arc.Encode(ps, pad)|);
  }

  lemma {:induction false} RecordHeld(s: Source, id: nat)
    requires Readable(s) && id < |s.entries|
    ensures Holds(s.disc, RecordAt(s.lba, s.entries[id]), RecordOf(s, id))
  {
    HoldsSlice(s.disc, RecordAt(s.lba, s.entries[id]), RecordOf(s, id));
  }

  /** Overwriting a member where its record lies on the disc is writing the rebuilt record there. */
  lemma {:induction false} PatchedMember(disc: seq<byte>, at: nat, ps: seq<seq<byte>>, pad: nat, id: nat, payload: seq<byte>)
    requires Arc.Recordable(ps, pad) && Holds(disc, at, Arc.Encode(ps, pad)) && id < |ps| && |payload| == |ps[id]|
    ensures var qs, offset := ps[id := payload], Arc.DataOffset(|ps|, pad) + Arc.Before(ps, id);
            && Arc.Recordable(qs, pad) && |Arc.Encode(qs, pad)| == |Arc.Encode(ps, pad)| && offset + |payload| <= |Arc.Encode(ps, pad)|
            && Patched(disc, at + offset, payload) == Patched(disc, at, Arc.Encode(qs, pad))
  {
    var record := Arc.Encode(ps, pad);
    EncodePatched(ps, pad, id, payload);
    PatchInside(disc, at, record, Arc.DataOffset(|ps|, pad) + Arc.Before(ps, id), payload);
    assert Patched(disc, at, record) == disc;
  }

  /** Writing an accepted member overlay at its disc offset equals writing back the record rebuilt with the member replaced. */
  lemma {:induction false} MemberSplice(s: Source, spec: ArcSpec, o: Overlay) returns (ps: seq<seq<byte>>, pad: nat)
    requires Readable(s) && MemberOverlay(s, spec, o)
    ensures Arc.Recordable(ps, pad) && Arc.Encode(ps, pad) == RecordOf(s, spec.id) && 0 <= spec.member < |ps|
    ensures var qs, at := ps[spec.member := spec.payload], RecordAt(s.lba, s.entries[spec.id]);
            && Arc.Recordable(qs, pad) && |Arc.Encode(qs, pad)| == s.entries[spec.id].size
            && o.at + |o.payload| <= |s.disc| && at + |Arc.Encode(qs, pad)| <= |s.disc|
            && Patched(s.disc, o.at, o.payload) == Patched(s.disc, at, Arc.Encode(qs, pad))
  {
    ps, pad := Arc.WellFormedEncoded(RecordOf(s, spec.id));
    MemberPlace(s, spec, o, ps, pad);
    RecordHeld(s, spec.id);
    PatchedMember(s.disc, RecordAt(s.lba, s.entries[spec.id]), ps, pad, spec.member, spec.payload);
  }

  // ---- All members of one record ----

  /** The replacements a package asks for inside one record, in order. */
  function RepsFor(arcSpecs: seq<ArcSpec>, id: nat): seq<Arc.Replacement> {
    if arcSpecs == [] then []
    else
      var n := |arcSpecs| - 1;
      RepsFor(arcSpecs[..n], id) + if arcSpecs[n].id == id then [Arc.Replacement(arcSpecs[n].member, arcSpecs[n].payload)] else []
  }

  /** Where a replacement comes from. */
  lemma {:induction false} RepSource(arcSpecs: seq<ArcSpec>, id: nat, i: nat) returns (k: nat)
    requires i < |RepsFor(arcSpecs, id)|
    ensures k < |arcSpecs| && arcSpecs[k].id == id && RepsFor(arcSpecs, id)[i] == Arc.Replacement(arcSpecs[k].member, arcSpecs[k].payload)
    decreases |arcSpecs|
  {
    k := |arcSpecs| - 1;
    if i < |RepsFor(arcSpecs[..k], id)| { k := RepSource(arcSpecs[..k], id, i); }
  }

  lemma {:induction false} RepThere(arcSpecs: seq<ArcSpec>, id: nat, k: nat) returns (i: nat)
    requires k < |arcSpecs| && arcSpecs[k].id == id
    ensures i < |RepsFor(arcSpecs, id)| && RepsFor(arcSpecs, id)[i] == Arc.Replacement(arcSpecs[k].member, arcSpecs[k].payload)
    decreases |arcSpecs|
  {
    var n := |arcSpecs| - 1;
    if k < n { i := RepThere(arcSpecs[..n], id, k); } else { i := |RepsFor(arcSpecs[..n], id)|; }
  }

  predicate DistinctMembers(arcSpecs: seq<ArcSpec>) {
    forall i, j | 0 <= i < j < |arcSpecs| :: arcSpecs[i].id != arcSpecs[j].id || arcSpecs[i].member != arcSpecs[j].member
  }

  lemma {:induction false} RepsDistinct(arcSpecs: seq<ArcSpec>, id: nat)
    requires DistinctMembers(arcSpecs)
    ensures forall j, k | 0 <= j < k < |RepsFor(arcSpecs, id)| :: RepsFor(arcSpecs, id)[j].id != RepsFor(arcSpecs, id)[k].id
    decreases |arcSpecs|
  {
    if arcSpecs != [] {
      var n := |arcSpecs| - 1;
      var front := RepsFor(arcSpecs[..n], id);
      RepsDistinct(arcSpecs[..n], id);
      forall j | 0 <= j < |front| && arcSpecs[n].id == id ensures front[j].id != arcSpecs[n].member {
        var k := RepSource(arcSpecs[..n], id, j);
        assert arcSpecs[..n][k] == arcSpecs[k];
      }
    }
  }

  ghost predicate MembersOf(s: Source, arcSpecs: seq<ArcSpec>, os: seq<Overlay>)
    requires Readable(s)
  {
    |os| == |arcSpecs| && forall k | 0 <= k < |arcSpecs| :: MemberOverlay(s, arcSpecs[k], os[k])
  }

  /** The record encodes these payloads. */
  ghost predicate Encodes(s: Source, id: nat, ps: seq<seq<byte>>, pad: nat)
    requires Readable(s)
  {
    id < |s.entries| && Arc.Recordable(ps, pad) && Arc.Encode(ps, pad) == RecordOf(s, id)
  }

  lemma {:induction false} RepsReplaceable(s: Source, arcSpecs: seq<ArcSpec>, os: seq<Overlay>, id: nat, ps: seq<seq<byte>>, pad: nat)
    requires Readable(s) && MembersOf(s, arcSpecs, os) && DistinctMembers(arcSpecs) && Encodes(s, id, ps, pad)
    ensures Arc.Replaceable(ps, RepsFor(arcSpecs, id), false)
  {
    var rs := RepsFor(arcSpecs, id);
    RepsDistinct(arcSpecs, id);
    forall i | 0 <= i < |rs| ensures Arc.Suits(ps, rs[i], false) {
      var k := RepSource(arcSpecs, id, i);
      MemberPlace(s, arcSpecs[k], os[k], ps, pad);
    }
  }

  function PlaceOf(s: Source, id: nat): nat
    requires id < |s.entries|
  {
    RecordAt(s.lba, s.entries[id])
  }

  /** The overlays of a record's replacements. */
  function RecordOverlaysOf(s: Source, arcSpecs: seq<ArcSpec>, id: nat, ps: seq<seq<byte>>, pad: nat): seq<Overlay>
    requires id < |s.entries| && Arc.Replaceable(ps, RepsFor(arcSpecs, id), false)
  {
    MemberOverlays(id, PlaceOf(s, id), ps, pad, RepsFor(arcSpecs, id))
  }

  /** The package's overlays in one record are those of its replacements. */
  lemma {:induction false} OverlayListed(s: Source, arcSpecs: seq<ArcSpec>, os: seq<Overlay>, id: nat, ps: seq<seq<byte>>, pad: nat, k: nat)
    requires Readable(s) && MembersOf(s, arcSpecs, os) && Encodes(s, id, ps, pad)
    requires Arc.Replaceable(ps, RepsFor(arcSpecs, id), false) && k < |os| && os[k].id == id
    ensures os[k] in RecordOverlaysOf(s, arcSpecs, id, ps, pad)
  {
    assert MemberOverlay(s, arcSpecs[k], os[k]);
    MemberPlace(s, arcSpecs[k], os[k], ps, pad);
    var i := RepThere(arcSpecs, id, k);
    assert RecordOverlaysOf(s, arcSpecs, id, ps, pad)[i] == os[k];
  }

  lemma {:induction false} ListedOverlay(s: Source, arcSpecs: seq<ArcSpec>, os: seq<Overlay>, id: nat, ps: seq<seq<byte>>, pad: nat, i: nat)
    requires Readable(s) && MembersOf(s, arcSpecs, os) && Encodes(s, id, ps, pad)
    requires Arc.Replaceable(ps, RepsFor(arcSpecs, id), false) && i < |RepsFor(arcSpecs, id)|
    ensures RecordOverlaysOf(s, arcSpecs, id, ps, pad)[i] in os && RecordOverlaysOf(s, arcSpecs, id, ps, pad)[i].id == id
  {
    var k := RepSource(arcSpecs, id, i);
    MemberPlace(s, arcSpecs[k], os[k], ps, pad);
    assert os[k] == RecordOverlaysOf(s, arcSpecs, id, ps, pad)[i];
  }

  lemma {:induction false} OverlaysInRecord(s: Source, arcSpecs: seq<ArcSpec>, os: seq<Overlay>, id: nat, ps: seq<seq<byte>>, pad: nat, o: Overlay)
    requires Readable(s) && MembersOf(s, arcSpecs, os) && Encodes(s, id, ps, pad)
    requires Arc.Replaceable(ps, RepsFor(arcSpecs, id), false)
    ensures o in os && o.id == id <==> o in RecordOverlaysOf(s, arcSpecs, id, ps, pad)
  {
    var ms := RecordOverlaysOf(s, arcSpecs, id, ps, pad);
    if o in os && o.id == id {
      var k :| 0 <= k < |os| && os[k] == o;
      OverlayListed(s, arcSpecs, os, id, ps, pad, k);
    }
    if o in ms {
      var i :| 0 <= i < |ms| && ms[i] == o;
      ListedOverlay(s, arcSpecs, os, id, ps, pad, i);
    }
  }

  // ---- The whole package ----

  /** The source with another disc. */
  function After(s: Source, os: seq<Overlay>): (t: Source)
    requires Inside(os, |s.disc|)
    ensures |t.disc| == |s.disc|
  {
    s.(disc := Written(s.disc, os))
  }

  ghost predicate Accepted(s: Source, specs: seq<Spec>, arcSpecs: seq<ArcSpec>, os: seq<Overlay>) {
    Readable(s) && Distinct(specs, arcSpecs) && PackageOf(s, specs, arcSpecs, os) && PairwiseApart(os) && Inside(os, |s.disc|)
  }

  /** Only overlays of a record reach its bytes. */
  lemma {:induction false} OwnOverlay(s: Source, specs: seq<Spec>, arcSpecs: seq<ArcSpec>, os: seq<Overlay>, id: nat, b: nat, k: nat)
    requires Accepted(s, specs, arcSpecs, os) && id < |s.entries| && k < |os| && Covers(os[k], b)
    requires PlaceOf(s, id) <= b < PlaceOf(s, id) + s.entries[id].size
    ensures os[k].id == id
  {
    PackageInside(s, specs, arcSpecs, os, k);
    var i := os[k].id;
    if i < id { BytesApart(s.lba, s.entries, i, id); }
    if id < i { BytesApart(s.lba, s.entries, id, i); }
  }

  lemma {:induction false} MembersPart(s: Source, specs: seq<Spec>, arcSpecs: seq<ArcSpec>, os: seq<Overlay>)
    requires Accepted(s, specs, arcSpecs, os)
    ensures MembersOf(s, arcSpecs, os[|specs|..]) && DistinctMembers(arcSpecs)
  {
    forall k | 0 <= k < |arcSpecs| ensures MemberOverlay(s, arcSpecs[k], os[|specs|..][k]) {
      assert MemberOverlay(s, arcSpecs[k], os[|specs| + k]);
    }
  }

  /** A record replaced as a whole reads as its replacement. */
  lemma {:induction false} WholeAfter(s: Source, specs: seq<Spec>, arcSpecs: seq<ArcSpec>, os: seq<Overlay>, k: nat)
    requires Accepted(s, specs, arcSpecs, os) && k < |specs|
    ensures 0 <= specs[k].id < |s.entries| && RecordOf(After(s, os), specs[k].id) == specs[k].payload
  {
    assert WholeOverlay(s, specs[k], os[k]);
    var r := RecordOf(After(s, os), specs[k].id);
    forall i | 0 <= i < |r| ensures r[i] == specs[k].payload[i] {
      var b := os[k].at + i;
      WrittenAt(s.disc, os, b);
      assert Covers(os[k], b);
    }
  }

  /** Two lists of overlays with the same members over one byte decide it alike. */
  lemma {:induction false} SameByte(disc: seq<byte>, os: seq<Overlay>, ms: seq<Overlay>, b: nat)
    requires Inside(os, |disc|) && PairwiseApart(os) && Inside(ms, |disc|) && PairwiseApart(ms) && b < |disc|
    requires forall o: Overlay | Covers(o, b) :: o in os <==> o in ms
    ensures Written(disc, os)[b] == Written(disc, ms)[b]
  {
    WrittenAt(disc, os, b);
    WrittenAt(disc, ms, b);
    if k :| 0 <= k < |os| && Covers(os[k], b) {
      assert os[k] in ms;
      var j :| 0 <= j < |ms| && ms[j] == os[k];
    } else {
      forall j | 0 <= j < |ms| ensures !Covers(ms[j], b) { assert ms[j] in ms; }
    }
  }

  lemma {:induction false} SubsetApart(os: seq<Overlay>, ms: seq<Overlay>, n: nat)
    requires PairwiseApart(os) && Inside(os, n) && (forall o | o in ms :: o in os)
    requires forall i, j | 0 <= i < j < |ms| :: ms[i] != ms[j]
    ensures PairwiseApart(ms) && Inside(ms, n)
  {
    forall i | 0 <= i < |ms| ensures ms[i].at + |ms[i].payload| <= n {
      assert ms[i] in os;
      var k :| 0 <= k < |os| && os[k] == ms[i];
    }
    forall i, j | 0 <= i < j < |ms| ensures Apart(ms[i], ms[j]) {
      assert ms[i] in os && ms[j] in os;
      var k :| 0 <= k < |os| && os[k] == ms[i];
      var l :| 0 <= l < |os| && os[l] == ms[j];
      if k < l { assert Apart(os[k], os[l]); } else { assert Apart(os[l], os[k]); }
    }
  }

  lemma {:induction false} RecordOverlays(s: Source, specs: seq<Spec>, arcSpecs: seq<ArcSpec>, os: seq<Overlay>, id: nat, ps: seq<seq<byte>>, pad: nat)
    requires Accepted(s, specs, arcSpecs, os) && Encodes(s, id, ps, pad) && forall k | 0 <= k < |specs| :: specs[k].id != id
    ensures Arc.Replaceable(ps, RepsFor(arcSpecs, id), false)
    ensures forall o: Overlay :: o in os && o.id == id <==> o in RecordOverlaysOf(s, arcSpecs, id, ps, pad)
  {
    MembersPart(s, specs, arcSpecs, os);
    RepsReplaceable(s, arcSpecs, os[|specs|..], id, ps, pad);
    forall o: Overlay
      ensures o in os && o.id == id <==> o in RecordOverlaysOf(s, arcSpecs, id, ps, pad)
    {
      OverlaysInRecord(s, arcSpecs, os[|specs|..], id, ps, pad, o);
      if o in os && o.id == id {
        var k :| 0 <= k < |os| && os[k] == o;
        PackageId(s, specs, arcSpecs, os, k);
        assert os[|specs|..][k - |specs|] == o;
      }
    }
  }

  lemma {:induction false} RecordBytes(s: Source, specs: seq<Spec>, arcSpecs: seq<ArcSpec>, os: seq<Overlay>, id: nat, ms: seq<Overlay>, b: nat)
    requires Accepted(s, specs, arcSpecs, os) && id < |s.entries| && PairwiseApart(ms) && Inside(ms, |s.disc|)
    requires forall o: Overlay :: o in os && o.id == id <==> o in ms
    requires PlaceOf(s, id) <= b < PlaceOf(s, id) + s.entries[id].size
    ensures Written(s.disc, os)[b] == Written(s.disc, ms)[b]
  {
    forall o: Overlay | Covers(o, b) ensures o in os <==> o in ms {
      if o in os {
        var k :| 0 <= k < |os| && os[k] == o;
        OwnOverlay(s, specs, arcSpecs, os, id, b, k);
      }
    }
    SameByte(s.disc, os, ms, b);
  }

  /** The record's own overlays alone write back its rebuild. */
  lemma {:induction false} RecordSpliced(s: Source, arcSpecs: seq<ArcSpec>, id: nat, ps: seq<seq<byte>>, pad: nat)
    requires Readable(s) && Encodes(s, id, ps, pad) && Arc.Replaceable(ps, RepsFor(arcSpecs, id), false)
    ensures var qs, ms := Arc.Replaced(ps, RepsFor(arcSpecs, id)), RecordOverlaysOf(s, arcSpecs, id, ps, pad);
            Spliced(s.disc, PlaceOf(s, id), qs, pad, ms) && |Arc.Encode(qs, pad)| == s.entries[id].size
  {
    var rs := RepsFor(arcSpecs, id);
    RecordHeld(s, id);
    SpliceIsRebuild(s.disc, id, PlaceOf(s, id), ps, pad, rs);
    ReplacedSizes(ps, rs);
    SameLayout(ps, Arc.Replaced(ps, rs), Arc.DataOffset(|ps|, pad), 0);
  }

  lemma {:induction false} ListedApart(s: Source, arcSpecs: seq<ArcSpec>, os: seq<Overlay>, id: nat, ps: seq<seq<byte>>, pad: nat)
    requires PairwiseApart(os) && Inside(os, |s.disc|) && id < |s.entries| && Arc.Replaceable(ps, RepsFor(arcSpecs, id), false)
    requires forall o: Overlay :: o in os && o.id == id <==> o in RecordOverlaysOf(s, arcSpecs, id, ps, pad)
    ensures PairwiseApart(RecordOverlaysOf(s, arcSpecs, id, ps, pad)) && Inside(RecordOverlaysOf(s, arcSpecs, id, ps, pad), |s.disc|)
  {
    var rs, ms := RepsFor(arcSpecs, id), RecordOverlaysOf(s, arcSpecs, id, ps, pad);
    forall i, j | 0 <= i < j < |ms| ensures ms[i] != ms[j] { assert rs[i].id != rs[j].id; }
    SubsetApart(os, ms, |s.disc|);
  }

  lemma {:induction false} ReadBack(w: seq<byte>, disc: seq<byte>, at: nat, q: seq<byte>)
    requires |w| == |disc| && at + |q| <= |disc| && forall b | at <= b < at + |q| :: w[b] == Patched(disc, at, q)[b]
    ensures w[at..at + |q|] == q
  {}

  /** The record's bytes are what its own overlays alone make of them. */
  lemma {:induction false} OwnBytesOnly(s: Source, specs: seq<Spec>, arcSpecs: seq<ArcSpec>, os: seq<Overlay>, id: nat, ps: seq<seq<byte>>, pad: nat, b: nat)
    requires Accepted(s, specs, arcSpecs, os) && Encodes(s, id, ps, pad) && forall k | 0 <= k < |specs| :: specs[k].id != id
    requires Arc.Replaceable(ps, RepsFor(arcSpecs, id), false) && Inside(RecordOverlaysOf(s, arcSpecs, id, ps, pad), |s.disc|)
    requires PlaceOf(s, id) <= b < PlaceOf(s, id) + s.entries[id].size
    ensures Written(s.disc, os)[b] == Written(s.disc, RecordOverlaysOf(s, arcSpecs, id, ps, pad))[b]
  {
    RecordOverlays(s, specs, arcSpecs, os, id, ps, pad);
    ListedApart(s, arcSpecs, os, id, ps, pad);
    RecordBytes(s, specs, arcSpecs, os, id, RecordOverlaysOf(s, arcSpecs, id, ps, pad), b);
  }

  /** An archive whose record is not replaced as a whole reads as the rebuild with exactly the package's members replaced. */
  lemma {:induction false} RebuiltAfter(s: Source, specs: seq<Spec>, arcSpecs: seq<ArcSpec>, os: seq<Overlay>, id: nat, ps: seq<seq<byte>>, pad: nat)
    requires Accepted(s, specs, arcSpecs, os) && Encodes(s, id, ps, pad) && forall k | 0 <= k < |specs| :: specs[k].id != id
    ensures IsRebuilt(ps, pad, RepsFor(arcSpecs, id), RecordOf(After(s, os), id))
  {
    MembersPart(s, specs, arcSpecs, os);
    RepsReplaceable(s, arcSpecs, os[|specs|..], id, ps, pad);
    RecordSpliced(s, arcSpecs, id, ps, pad);
    var at, q := PlaceOf(s, id), Arc.Encode(Arc.Replaced(ps, RepsFor(arcSpecs, id)), pad);
    forall b | at <= b < at + |q| ensures Written(s.disc, os)[b] == Patched(s.disc, at, q)[b] {
      OwnBytesOnly(s, specs, arcSpecs, os, id, ps, pad, b);
    }
    ReadBack(Written(s.disc, os), s.disc, at, q);
  }

  lemma {:induction false} UntouchedByte(s: Source, specs: seq<Spec>, arcSpecs: seq<ArcSpec>, os: seq<Overlay>, b: nat)
    requires Accepted(s, specs, arcSpecs, os) && b < |s.disc| && forall k | 0 <= k < |os| :: !Covers(os[k], b)
    ensures Written(s.disc, os)[b] == s.disc[b]
  {
    WrittenAt(s.disc, os, b);
  }

  /** A record the package does not name, and everything outside the records, stays as it was. */
  lemma {:induction false} StockAfter(s: Source, specs: seq<Spec>, arcSpecs: seq<ArcSpec>, os: seq<Overlay>, id: nat)
    requires Accepted(s, specs, arcSpecs, os) && id < |s.entries|
    requires (forall k | 0 <= k < |specs| :: specs[k].id != id) && forall k | 0 <= k < |arcSpecs| :: arcSpecs[k].id != id
    ensures RecordOf(After(s, os), id) == RecordOf(s, id)
  {
    var r := RecordOf(After(s, os), id);
    forall i | 0 <= i < |r| ensures r[i] == RecordOf(s, id)[i] {
      var b := PlaceOf(s, id) + i;
      forall k | 0 <= k < |os| ensures !Covers(os[k], b) {
        if Covers(os[k], b) {
          OwnOverlay(s, specs, arcSpecs, os, id, b, k);
          PackageId(s, specs, arcSpecs, os, k);
        }
      }
      UntouchedByte(s, specs, arcSpecs, os, b);
    }
  }

  lemma {:induction false} OutsideAfter(s: Source, specs: seq<Spec>, arcSpecs: seq<ArcSpec>, os: seq<Overlay>, b: nat)
    requires Accepted(s, specs, arcSpecs, os) && b < |s.disc|
    requires forall id | 0 <= id < |s.entries| :: !(PlaceOf(s, id) <= b < PlaceOf(s, id) + s.entries[id].size)
    ensures After(s, os).disc[b] == s.disc[b]
  {
    forall k | 0 <= k < |os| ensures !Covers(os[k], b) { PackageInside(s, specs, arcSpecs, os, k); }
    UntouchedByte(s, specs, arcSpecs, os, b);
  }

  /** What a record reads as after the package: its whole replacement, its archive rebuilt, or what it was. */
  ghost predicate ReadsAs(s: Source, specs: seq<Spec>, arcSpecs: seq<ArcSpec>, id: nat, r: seq<byte>)
    requires Readable(s) && id < |s.entries|
  {
    if exists k :: 0 <= k < |specs| && specs[k].id == id then exists k :: 0 <= k < |specs| && specs[k].id == id && r == specs[k].payload
    else if exists k :: 0 <= k < |arcSpecs| && arcSpecs[k].id == id then
      exists ps, pad :: Encodes(s, id, ps, pad) && IsRebuilt(ps, pad, RepsFor(arcSpecs, id), r)
    else r == RecordOf(s, id)
  }

  ghost predicate IsRebuilt(ps: seq<seq<byte>>, pad: nat, rs: seq<Arc.Replacement>, r: seq<byte>) {
    Arc.Replaceable(ps, rs, false) && Arc.Recordable(Arc.Replaced(ps, rs), pad) && r == Arc.Encode(Arc.Replaced(ps, rs), pad)
  }

  /** The disc of an accepted package, record by record. */
  lemma {:induction false} PackageReads(s: Source, specs: seq<Spec>, arcSpecs: seq<ArcSpec>, os: seq<Overlay>, id: nat)
    requires Readable(s) && Distinct(specs, arcSpecs) && PackageOf(s, specs, arcSpecs, os) && id < |s.entries|
    ensures Inside(os, |s.disc|) && ReadsAs(s, specs, arcSpecs, id, RecordOf(After(s, os), id))
  {
    PackageApart(s, specs, arcSpecs, os);
    if k :| 0 <= k < |specs| && specs[k].id == id {
      WholeAfter(s, specs, arcSpecs, os, k);
    } else if k :| 0 <= k < |arcSpecs| && arcSpecs[k].id == id {
      assert MemberOverlay(s, arcSpecs[k], os[|specs| + k]);
      var ps, pad := Arc.WellFormedEncoded(RecordOf(s, id));
      RebuiltAfter(s, specs, arcSpecs, os, id, ps, pad);
    } else {
      StockAfter(s, specs, arcSpecs, os, id);
    }
  }
}
