/** The checks an authored raw sector must pass before it enters a package (tools/xas_mod.py). */
module SectorEnvelope {
  import opened SectorEcc
  import opened EccDetection
  import Edc
  import opened Options

  datatype Error = Truncated | BadSync | BadBcd(byte: nat) | NotMode2 | SubheaderMismatch | BadEdc | BadEcc

  datatype Result = Accepted(fileNumber: bv8, channel: bv8, submode: bv8, codingInfo: bv8) | Rejected(error: Error)

  const SYNC: seq<bv8> := [0x00, 0xFF, 0xFF, 0xFF, 0xFF, 0xFF, 0xFF, 0xFF, 0xFF, 0xFF, 0xFF, 0x00]

  /** Minute, second and frame limits of the address bytes 12 to 14. */
  const LIMITS: seq<int> := [99, 59, 74]

  predicate ValidBcd(value: bv8, maximum: int) {
    var high, low := (value >> 4) as int, (value & 0x0F) as int;
    high <= 9 && low <= 9 && high * 10 + low <= maximum
  }

  predicate IsForm2(raw: seq<bv8>)
    requires |raw| == SECTOR
  {
    raw[18] & 0x20 != 0
  }

  /** An address byte is the decimal number of its two digits. */
  function Decimal(v: nat): (b: nat)
    requires v < 100
    ensures b < 256
  {
    16 * (v / 10) + v % 10
  }

  lemma {:induction false} DigitsOfByte(b: bv8)
    ensures b as int == 16 * (b >> 4) as int + (b & 0x0F) as int && (b & 0x0F) as int < 16
  {}

  /** The bytes let through are the decimal ones up to the limit. */
  lemma {:induction false} BcdMeans(b: bv8, maximum: int)
    requires maximum < 100
    ensures ValidBcd(b, maximum) <==> exists v: nat :: v <= maximum && b as int == Decimal(v)
  {
    var high, low := (b >> 4) as int, (b & 0x0F) as int;
    DigitsOfByte(b);
    if ValidBcd(b, maximum) {
      var v: nat := high * 10 + low;
      assert v / 10 == high && v % 10 == low;
      assert b as int == Decimal(v);
    }
    forall v: nat | v <= maximum && b as int == Decimal(v) ensures ValidBcd(b, maximum) {
      assert high == v / 10 && low == v % 10;
    }
  }

  /** The form is bit 5 of the submode byte. */
  lemma {:induction false} FormBit(raw: seq<bv8>)
    requires |raw| == SECTOR
    ensures IsForm2(raw) <==> raw[18] as int / 32 % 2 == 1
  {
    var b := raw[18];
    assert b as int == 32 * (b >> 5) as int + (b & 0x1F) as int && (b & 0x1F) as int < 32;
    assert (b >> 5) as int == 2 * (b >> 6) as int + ((b >> 5) & 1) as int && (b & 0x20 != 0 <==> (b >> 5) & 1 == 1);
  }

  /** Where the stored error detection code begins: Form 2 keeps it in the last four bytes. */
  function EdcOffset(raw: seq<bv8>): (offset: nat)
    requires |raw| == SECTOR
    ensures 16 <= offset <= 2348
  {
    if IsForm2(raw) then 2348 else 2072
  }

  ghost predicate EdcHolds(raw: seq<bv8>)
    requires |raw| == SECTOR
  {
    Edc.Word(raw[EdcOffset(raw)..EdcOffset(raw) + 4]) == Edc.Remainder(0, raw[16..EdcOffset(raw)])
  }

  /** The first n of the address bytes are in range. */
  predicate Dated(raw: seq<bv8>, n: nat)
    requires |raw| == SECTOR
  {
    forall k | 0 <= k < 3 && k < n :: ValidBcd(raw[12 + k], LIMITS[k])
  }

  predicate Headed(raw: seq<bv8>) {
    |raw| == SECTOR && raw[..12] == SYNC && Dated(raw, 3) && raw[15] == 2
  }

  predicate CopiesAgree(raw: seq<bv8>)
    requires |raw| == SECTOR
  {
    raw[16..20] == raw[20..24]
  }

  ghost predicate IsAcceptable(raw: seq<bv8>) {
    && Headed(raw)
    && CopiesAgree(raw)
    && EdcHolds(raw)
    && (!IsForm2(raw) ==> EccHolds(raw))
  }

  /** The first address byte out of range. */
  method FirstBadDigit(raw: seq<bv8>) returns (k: nat)
    requires |raw| == SECTOR
    ensures k <= 3 && Dated(raw, k) && (k < 3 ==> !ValidBcd(raw[12 + k], LIMITS[k]))
  {
    for n := 0 to 3
      invariant Dated(raw, n)
    {
      if !ValidBcd(raw[12 + n], LIMITS[n]) {
        return n;
      }
    }
    return 3;
  }

  method CheckEdc(raw: seq<bv8>, edc: seq<bv32>) returns (ok: bool)
    requires |raw| == SECTOR && edc == Edc.EdcTable()
    ensures ok <==> EdcHolds(raw)
  {
    if raw[18] & 0x20 != 0 {
      var calculated := Edc.CalculateEdc(raw[16..2348], edc);
      return calculated == Edc.Word(raw[2348..2352]);
    } else {
      var calculated := Edc.CalculateEdc(raw[16..2072], edc);
      return calculated == Edc.Word(raw[2072..2076]);
    }
  }

  method CheckHeader(raw: seq<bv8>) returns (e: Option<Error>)
    ensures e.None? <==> Headed(raw)
    ensures e == Some(Truncated) <==> |raw| != SECTOR
    ensures e == Some(BadSync) <==> |raw| == SECTOR && raw[..12] != SYNC
    ensures forall k: nat :: e == Some(BadBcd(k)) <==>
      |raw| == SECTOR && raw[..12] == SYNC && Dated(raw, k) && k < 3 && !ValidBcd(raw[12 + k], LIMITS[k])
    ensures e == Some(NotMode2) <==> |raw| == SECTOR && raw[..12] == SYNC && Dated(raw, 3) && raw[15] != 2
    ensures e.Some? ==> e.value.Truncated? || e.value.BadSync? || e.value.BadBcd? || e.value.NotMode2?
  {
    if |raw| != SECTOR {
      return Some(Truncated);
    }
    if raw[..12] != SYNC {
      return Some(BadSync);
    }
    var k := FirstBadDigit(raw);
    if k < 3 {
      return Some(BadBcd(k));
    }
    return if raw[15] != 2 then Some(NotMode2) else None;
  }

  method ValidateSectorEnvelope(raw: seq<bv8>, edc: seq<bv32>, forward: seq<bv8>, backward: seq<bv8>) returns (r: Result)
    requires edc == Edc.EdcTable() && AreTables(forward, backward)
    ensures r.Accepted? <==> IsAcceptable(raw)
    ensures r.Accepted? ==> r == Accepted(raw[16], raw[17], raw[18], raw[19])
    ensures r == Rejected(Truncated) <==> |raw| != SECTOR
    ensures r == Rejected(BadSync) <==> |raw| == SECTOR && raw[..12] != SYNC
    ensures forall k: nat :: r == Rejected(BadBcd(k)) <==>
      |raw| == SECTOR && raw[..12] == SYNC && Dated(raw, k) && k < 3 && !ValidBcd(raw[12 + k], LIMITS[k])
    ensures r == Rejected(NotMode2) <==> |raw| == SECTOR && raw[..12] == SYNC && Dated(raw, 3) && raw[15] != 2
    ensures r == Rejected(SubheaderMismatch) <==> Headed(raw) && !CopiesAgree(raw)
    ensures r == Rejected(BadEdc) <==> Headed(raw) && CopiesAgree(raw) && !EdcHolds(raw)
    ensures r == Rejected(BadEcc) <==> Headed(raw) && CopiesAgree(raw) && EdcHolds(raw) && !IsForm2(raw) && !EccHolds(raw)
  {
    var e := CheckHeader(raw);
    if e.Some? {
      return Rejected(e.value);
    }
    if !CopiesAgree(raw) {
      return Rejected(SubheaderMismatch);
    }
    var submode := raw[18];
    var sound := CheckEdc(raw, edc);
    if !sound {
      return Rejected(BadEdc);
    }
    if submode & 0x20 == 0 {
      var ok := ValidateMode2Form1Ecc(raw, forward, backward);
      if !ok {
        return Rejected(BadEcc);
      }
    }
    return Accepted(raw[16], raw[17], submode, raw[19]);
  }

  // ---- What an accepted sector protects ----

  /** An accepted sector's protected bytes, code included, leave residue zero. */
  lemma {:induction false} ResidueOfAccepted(raw: seq<bv8>)
    requires |raw| == SECTOR
    ensures EdcHolds(raw) <==> Edc.Remainder(0, raw[16..EdcOffset(raw) + 4]) == 0
  {
    var o := EdcOffset(raw);
    assert raw[16..o + 4] == raw[16..o] + raw[o..o + 4];
    Edc.ResidueZero(raw[16..o], raw[o..o + 4]);
  }

  /** The two sectors agree outside the four bytes from i on. */
  ghost predicate AgreeOutside(raw: seq<bv8>, raw': seq<bv8>, i: nat)
    requires |raw| == |raw'| == SECTOR
  {
    forall k | 0 <= k < SECTOR && !(i <= k < i + 4) :: raw[k] == raw'[k]
  }

  lemma {:induction false} ChangedWithin(raw: seq<bv8>, raw': seq<bv8>, i: nat)
    requires |raw| == |raw'| == SECTOR && raw != raw' && 16 <= i
    requires AgreeOutside(raw, raw', i)
    ensures 1 <= |Changed(raw, raw')| <= 8
  {
    var window := {i, i + 1, i + 2, i + 3};
    SubsetSize(Changed(raw, raw'), window);
    var k :| 0 <= k < SECTOR && raw[k] != raw'[k];
    assert k in Changed(raw, raw');
  }

  /** The two subheader copies lie four bytes apart, so a four-byte window cannot change the form unnoticed. */
  lemma {:induction false} FormSurvivesBurst(raw: seq<bv8>, raw': seq<bv8>, i: nat)
    requires |raw| == |raw'| == SECTOR && AgreeOutside(raw, raw', i)
    requires CopiesAgree(raw) && CopiesAgree(raw')
    ensures raw[18] == raw'[18]
  {
    assert raw[16..20][2] == raw[20..24][2] && raw'[16..20][2] == raw'[20..24][2];
  }

  lemma {:induction false} CutInThree(raw: seq<bv8>, i: nat)
    requires |raw| == SECTOR && 16 <= i <= SECTOR - 4
    ensures raw[16..SECTOR] == raw[16..i] + raw[i..i + 4] + raw[i + 4..]
  {
    assert raw[16..SECTOR] == raw[16..i] + raw[i..] && raw[i..] == raw[i..i + 4] + raw[i + 4..];
  }

  lemma {:induction false} BurstChangesResidue(raw: seq<bv8>, raw': seq<bv8>, i: nat)
    requires |raw| == |raw'| == SECTOR && raw != raw' && 16 <= i <= SECTOR - 4 && AgreeOutside(raw, raw', i)
    ensures Edc.Remainder(0, raw[16..SECTOR]) != Edc.Remainder(0, raw'[16..SECTOR])
  {
    var head, tail := raw[16..i], raw[i + 4..];
    CutInThree(raw, i);
    CutInThree(raw', i);
    assert head == raw'[16..i] && tail == raw'[i + 4..];
    var k :| 0 <= k < SECTOR && raw[k] != raw'[k];
    assert raw[i..i + 4][k - i] != raw'[i..i + 4][k - i];
    Edc.BurstDetected(head, raw[i..i + 4], raw'[i..i + 4], tail);
  }

  lemma {:induction false} BurstRejectedForm2(raw: seq<bv8>, raw': seq<bv8>, i: nat)
    requires |raw| == |raw'| == SECTOR && raw != raw' && 16 <= i <= SECTOR - 4
    requires AgreeOutside(raw, raw', i) && IsForm2(raw) && IsForm2(raw') && EdcHolds(raw)
    ensures !EdcHolds(raw')
  {
    ResidueOfAccepted(raw);
    ResidueOfAccepted(raw');
    BurstChangesResidue(raw, raw', i);
  }

  /** In either form, changing an accepted sector inside any four consecutive bytes after the header makes it rejected. */
  lemma {:induction false} BurstRejected(raw: seq<bv8>, raw': seq<bv8>, i: nat)
    requires IsAcceptable(raw) && |raw'| == SECTOR && raw != raw' && 16 <= i <= SECTOR - 4
    requires AgreeOutside(raw, raw', i)
    ensures !IsAcceptable(raw')
  {
    if IsAcceptable(raw') {
      FormSurvivesBurst(raw, raw', i);
      if IsForm2(raw) {
        BurstRejectedForm2(raw, raw', i);
      } else {
        ChangedWithin(raw, raw', i);
        DetectsUpToEight(raw, raw');
      }
    }
  }

  /** The two subheader copies agree and call the sector Form 2, and the Form 2 code in its last four bytes holds. */
  ghost predicate PassesAsForm2(raw: seq<bv8>)
    requires |raw| == SECTOR
  {
    && CopiesAgree(raw)
    && raw[18] & 0x20 != 0 && raw[22] & 0x20 != 0
    && Edc.Word(raw[2348..2352]) == Edc.Remainder(0, raw[16..2348])
  }

  /** Up to eight scattered changes behind the header of a Form 1 sector pass exactly if they turn it into a Form 2 sector. */
  lemma {:induction false} ScatteredChanges(raw: seq<bv8>, raw': seq<bv8>)
    requires IsAcceptable(raw) && !IsForm2(raw) && |raw'| == SECTOR && raw'[..16] == raw[..16]
    requires 1 <= |Changed(raw, raw')| <= 8
    ensures IsAcceptable(raw') <==> PassesAsForm2(raw')
    ensures IsAcceptable(raw') ==> {18, 22} <= Changed(raw, raw')
  {
    DetectsUpToEight(raw, raw');
    assert raw[16..20][2] == raw[18] && raw[20..24][2] == raw[22] && raw'[16..20][2] == raw'[18] && raw'[20..24][2] == raw'[22];
    SameHeader(raw, raw');
  }

  lemma {:induction false} SameHeader(raw: seq<bv8>, raw': seq<bv8>)
    requires |raw| == |raw'| == SECTOR && raw[..16] == raw'[..16]
    ensures Headed(raw) == Headed(raw')
  {
    assert raw[..12] == raw[..16][..12] && raw'[..12] == raw'[..16][..12];
    forall k | 12 <= k < 16 ensures raw[k] == raw'[k] { assert raw[k] == raw[..16][k] && raw'[k] == raw'[..16][k]; }
  }

  function Form2Submode(b: bv8): (s: bv8)
    ensures s & 0x20 != 0
    ensures b & 0x20 == 0 ==> s != b
  {
    b | 0x20
  }

  /** Both submode bytes turned to Form 2, with the code that form keeps in the last four bytes. */
  function Form2Twin(raw: seq<bv8>): (r: seq<bv8>)
    requires |raw| == SECTOR
    ensures |r| == SECTOR && forall k | 0 <= k < 2348 && k != 18 && k != 22 :: r[k] == raw[k]
    ensures r[18] == r[22] == Form2Submode(raw[18])
  {
    var turned := raw[18 := Form2Submode(raw[18])][22 := Form2Submode(raw[18])];
    turned[..2348] + Edc.WordBytes(Edc.Remainder(0, turned[16..2348]))
  }

  lemma {:induction false} TwinCode(raw: seq<bv8>)
    requires |raw| == SECTOR
    ensures EdcHolds(Form2Twin(raw))
  {
    var turned := raw[18 := Form2Submode(raw[18])][22 := Form2Submode(raw[18])];
    assert Form2Twin(raw)[16..2348] == turned[16..2348];
    Edc.WordOfBytes(Edc.Remainder(0, turned[16..2348]));
    assert Form2Twin(raw)[2348..2352] == Edc.WordBytes(Edc.Remainder(0, turned[16..2348]));
    assert IsForm2(Form2Twin(raw));
  }

  lemma {:induction false} TwinCopies(raw: seq<bv8>)
    requires |raw| == SECTOR && CopiesAgree(raw)
    ensures CopiesAgree(Form2Twin(raw))
  {
    var a, b := raw[16..20], raw[20..24];
    assert a[0] == b[0] && a[1] == b[1] && a[3] == b[3];
    assert raw[16] == a[0] && raw[17] == a[1] && raw[19] == a[3] && raw[20] == b[0] && raw[21] == b[1] && raw[23] == b[3];
  }

  lemma {:induction false} TwinChanges(raw: seq<bv8>)
    requires |raw| == SECTOR && raw[18] == raw[22] != Form2Submode(raw[18])
    ensures {18, 22} <= Changed(raw, Form2Twin(raw)) <= {18, 22, 2348, 2349, 2350, 2351}
    ensures Form2Twin(raw)[..16] == raw[..16]
  {
    var r := Form2Twin(raw);
    forall i | i in Changed(raw, r) ensures i in {18, 22, 2348, 2349, 2350, 2351} {
      assert i < 2348 ==> i == 18 || i == 22;
    }
  }

  /** Every accepted Form 1 sector has such a neighbour: at most six changed bytes, and still accepted. */
  lemma {:induction false} Form2TwinPasses(raw: seq<bv8>)
    requires IsAcceptable(raw) && !IsForm2(raw)
    ensures var raw' := Form2Twin(raw);
      && raw'[..16] == raw[..16] && IsAcceptable(raw') && IsForm2(raw')
      && {18, 22} <= Changed(raw, raw') <= {18, 22, 2348, 2349, 2350, 2351}
  {
    TwinCode(raw);
    TwinCopies(raw);
    assert raw[16..20][2] == raw[20..24][2];
    TwinChanges(raw);
    SameHeader(raw, Form2Twin(raw));
  }
}
