/** The ECC validator of a Mode 2 Form 1 sector, and how many changed bytes it is sure to notice. */
module EccDetection {
  import opened RsCode
  import opened SectorEcc

  const SECTOR := 2352

  /** The address counts as zero; then subheader, user data, EDC and P parity. */
  function Covered(raw: seq<bv8>): (c: seq<bv8>)
    requires |raw| == SECTOR
    ensures |c| == 2236
  {
    [0, 0, 0, 0] + raw[16..2248]
  }

  /** Where the k-th byte of diagonal q lies in the 26 rows of 86 covered bytes. */
  function QPosition(q: nat, k: nat): nat {
    86 * ((q / 2 + k) % 26) + 2 * k + q % 2
  }

  /** Column c of the covered bytes: 24 data bytes, then its two P bytes. */
  function PWord(raw: seq<bv8>, c: nat): seq<bv8>
    requires |raw| == SECTOR && c < 86
  {
    seq(26, r requires 0 <= r < 26 => Covered(raw)[c + 86 * r])
  }

  /** Diagonal q of the covered bytes, then its two Q bytes. */
  function QWord(raw: seq<bv8>, q: nat): seq<bv8>
    requires |raw| == SECTOR && q < 52
  {
    seq(45, k requires 0 <= k < 45 => if k < 43 then Covered(raw)[QPosition(q, k)] else raw[2248 + q + 52 * (k - 43)])
  }

  /** Annex A: every column and every diagonal of the sector is a codeword. */
  ghost predicate EccHolds(raw: seq<bv8>)
    requires |raw| == SECTOR
  {
    && (forall c: nat | c < 86 :: IsCodeword(GF(), PWord(raw, c)))
    && (forall q: nat | q < 52 :: IsCodeword(GF(), QWord(raw, q)))
  }

  /** Annex A of ECMA-130 counts in words of two bytes: word 44 M + 43 N modulo 1118 is the M-th of the N-th diagonal. */
  lemma {:induction false} DiagonalsOfAnnexA(m: nat, n: nat, low: nat)
    requires m < 43 && n < 26 && low < 2
    ensures QPosition(2 * n + low, m) == 2 * ((44 * m + 43 * n) % 1118) + low
  {
    var row := if n + m < 26 then n + m else if n + m < 52 then n + m - 26 else n + m - 52;
    RowAround(n + m, row);
    WordAround(44 * m + 43 * n, 43 * row + m);
    assert (2 * n + low) / 2 == n && (2 * n + low) % 2 == low;
  }

  lemma {:induction false} RowAround(k: nat, row: nat)
    requires row < 26 && (k == row || k == row + 26 || k == row + 52)
    ensures k % 26 == row
  {}

  lemma {:induction false} WordAround(k: nat, word: nat)
    requires word < 1118 && (k == word || k == word + 1118 || k == word + 2236)
    ensures k % 1118 == word
  {}

  // ---- The validator ----

  lemma {:induction false} GeometriesAreWellFormed()
    ensures WellFormed(P) && WellFormed(Q)
  {}

  lemma {:induction false} PPosition(c: nat, k: nat)
    requires c < 86 && k < 24
    ensures Position(P, c, k) == c + 86 * k
  {
    assert Start(P, c) == c;
  }

  lemma {:induction false} PColumn(raw: seq<bv8>, prefix: seq<bv8>, c: nat)
    requires |raw| == SECTOR && c < 86 && prefix == [0, 0, 0, 0] + raw[16..2076]
    ensures PWord(raw, c) == Column(prefix, P, c) + [raw[2076 + c], raw[2162 + c]]
  {
    var w := Column(prefix, P, c) + [raw[2076 + c], raw[2162 + c]];
    var covered := Covered(raw);
    assert covered[..2064] == prefix;
    forall r: nat | r < 26 ensures PWord(raw, c)[r] == w[r] {
      if r < 24 {
        PPosition(c, r);
        assert w[r] == prefix[c + 86 * r];
      } else {
        assert covered[c + 86 * r] == raw[c + 86 * r + 12];
      }
    }
  }

  lemma {:induction false} QColumn(raw: seq<bv8>, q: nat)
    requires |raw| == SECTOR && q < 52
    ensures QWord(raw, q) == Column(Covered(raw), Q, q) + [raw[2248 + q], raw[2300 + q]]
  {
    var w := Column(Covered(raw), Q, q) + [raw[2248 + q], raw[2300 + q]];
    forall k: nat | k < 45 ensures QWord(raw, q)[k] == w[k] {
      if k < 43 { QPositionIsPosition(q, k); }
    }
  }

  lemma {:induction false} QPositionIsPosition(q: nat, k: nat)
    requires q < 52 && k < 43
    ensures Position(Q, q, k) == QPosition(q, k) < 2236
  {
    var row := if q / 2 + k < 26 then q / 2 + k else if q / 2 + k < 52 then q / 2 + k - 26 else q / 2 + k - 52;
    RowAround(q / 2 + k, row);
    ByteAround(Start(Q, q) + k * 88, 86 * row + 2 * k + q % 2);
  }

  lemma {:induction false} ByteAround(at: nat, b: nat)
    requires b < 2236 && (at == b || at == b + 2236 || at == b + 4472)
    ensures at % 2236 == b
  {}

  /** What the parity of a block says about stored parity bytes: they agree exactly when all words are codewords. */
  lemma {:induction false} StoredParityAgrees(columns: seq<seq<bv8>>, n: nat, stored: seq<bv8>, parity: seq<bv8>)
    requires |columns| == n && |stored| == |parity| == 2 * n
    requires forall m: nat | m < n :: IsCodeword(GF(), columns[m] + [parity[m], parity[m + n]])
    ensures stored == parity <==> forall m: nat | m < n :: IsCodeword(GF(), columns[m] + [stored[m], stored[m + n]])
  {
    GfIsLawful();
    forall m: nat | m < n
      ensures IsCodeword(GF(), columns[m] + [stored[m], stored[m + n]]) <==> stored[m] == parity[m] && stored[m + n] == parity[m + n]
    {
      ParityIsUnique(GF(), columns[m], stored[m], stored[m + n]);
      ParityIsUnique(GF(), columns[m], parity[m], parity[m + n]);
    }
    if forall m: nat | m < n :: IsCodeword(GF(), columns[m] + [stored[m], stored[m + n]]) {
      forall i: nat | i < 2 * n ensures stored[i] == parity[i] {
        var m := if i < n then i else i - n;
        assert IsCodeword(GF(), columns[m] + [stored[m], stored[m + n]]);
      }
    }
  }

  lemma {:induction false} PParityAgrees(raw: seq<bv8>, prefix: seq<bv8>, parity: seq<bv8>)
    requires |raw| == SECTOR && prefix == [0, 0, 0, 0] + raw[16..2076] && |parity| == 172
    requires forall m: nat | m < 86 :: IsCodeword(GF(), Column(prefix, P, m) + [parity[m], parity[m + 86]])
    ensures raw[2076..2248] == parity <==> forall c: nat | c < 86 :: IsCodeword(GF(), PWord(raw, c))
  {
    var columns := seq(86, m requires 0 <= m < 86 => Column(prefix, P, m));
    var stored := raw[2076..2248];
    forall m: nat | m < 86 ensures IsCodeword(GF(), columns[m] + [parity[m], parity[m + 86]]) {
      assert columns[m] == Column(prefix, P, m);
    }
    StoredParityAgrees(columns, 86, stored, parity);
    forall c: nat | c < 86 ensures PWord(raw, c) == columns[c] + [stored[c], stored[c + 86]] {
      PColumn(raw, prefix, c);
    }
    if stored == parity {
      forall c: nat | c < 86 ensures IsCodeword(GF(), PWord(raw, c)) {
        assert PWord(raw, c) == columns[c] + [stored[c], stored[c + 86]];
      }
    }
    if forall c: nat | c < 86 :: IsCodeword(GF(), PWord(raw, c)) {
      forall m: nat | m < 86 ensures IsCodeword(GF(), columns[m] + [stored[m], stored[m + 86]]) {
        assert IsCodeword(GF(), PWord(raw, m));
      }
    }
  }

  lemma {:induction false} QParityAgrees(raw: seq<bv8>, parity: seq<bv8>)
    requires |raw| == SECTOR && |parity| == 104
    requires forall m: nat | m < 52 :: IsCodeword(GF(), Column(Covered(raw), Q, m) + [parity[m], parity[m + 52]])
    ensures raw[2248..2352] == parity <==> forall q: nat | q < 52 :: IsCodeword(GF(), QWord(raw, q))
  {
    var columns := seq(52, m requires 0 <= m < 52 => Column(Covered(raw), Q, m));
    var stored := raw[2248..2352];
    StoredParityAgrees(columns, 52, stored, parity);
    forall q: nat | q < 52 ensures QWord(raw, q) == columns[q] + [stored[q], stored[q + 52]] {
      QColumn(raw, q);
    }
  }

  method ValidateMode2Form1Ecc(raw: seq<bv8>, forward: seq<bv8>, backward: seq<bv8>) returns (ok: bool)
    requires |raw| == SECTOR && AreTables(forward, backward)
    ensures ok <==> EccHolds(raw)
  {
    GeometriesAreWellFormed();
    var prefix := [0, 0, 0, 0] + raw[16..2076];
    var expectedP := EccBlock(prefix, P, forward, backward);
    PParityAgrees(raw, prefix, expectedP);
    assert EccHolds(raw) ==> raw[2076..2248] == expectedP;
    if raw[2076..2248] != expectedP {
      return false;
    }
    var covered := prefix + expectedP;
    assert covered == Covered(raw);
    var expectedQ := EccBlock(covered, Q, forward, backward);
    QParityAgrees(raw, expectedQ);
    return raw[2248..2352] == expectedQ;
  }

  // ---- Detection ----

  function Changed(raw: seq<bv8>, raw': seq<bv8>): set<nat>
    requires |raw| == |raw'| == SECTOR
  {
    set i: nat | 16 <= i < SECTOR && raw[i] != raw'[i]
  }

  /** The sector offset of the k-th byte of diagonal q. */
  function QOffset(q: nat, k: nat): int {
    if k < 43 then QPosition(q, k) + 12 else 2248 + q + 52 * (k - 43)
  }

  lemma {:induction false} QOffsetInjective(q: nat, k: nat, q': nat, k': nat)
    requires q < 52 && k < 45 && q' < 52 && k' < 45 && QOffset(q, k) == QOffset(q', k')
    ensures q == q' && k == k'
  {
    if k < 43 { QPositionIsPosition(q, k); }
    if k' < 43 { QPositionIsPosition(q', k'); }
    if k < 43 && k' < 43 {
      SplitRow((q / 2 + k) % 26, 2 * k + q % 2, (q' / 2 + k') % 26, 2 * k' + q' % 2);
      ShiftModulo(q / 2, q' / 2, k);
    }
  }

  lemma {:induction false} ShiftModulo(a: nat, b: nat, k: nat)
    requires a < 26 && b < 26 && (a + k) % 26 == (b + k) % 26
    ensures a == b
  {
    var x, y := (a + k) / 26, (b + k) / 26;
    assert a - b == 26 * (x - y);
  }

  lemma {:induction false} SplitRow(a: nat, b: nat, a': nat, b': nat)
    requires 86 * a + b == 86 * a' + b' && b < 86 && b' < 86
    ensures a == a' && b == b'
  {}

  /** The diagonal that passes row r of column c. */
  function DiagonalOf(c: nat, r: nat): (q: nat)
    requires c < 86 && r < 26
    ensures q < 52
  {
    2 * ((r + 52 - c / 2) % 26) + c % 2
  }

  lemma {:induction false} Wrap(a: nat, b: nat, w: nat)
    requires a < 26 && b < 26 && w < 43
    ensures a == (b + 52 - w) % 26 <==> b == (a + w) % 26
  {
    var t := (b + 52 - w) / 26;
    var u := (a + w) / 26;
    assert 0 <= t <= 2 && 0 <= u <= 2;
    if a == (b + 52 - w) % 26 {
      assert a + w == b + 26 * (2 - t);
    }
    if b == (a + w) % 26 {
      assert b + 52 - w == a + 26 * (2 - u);
    }
  }

  lemma {:induction false} DiagonalThrough(c: nat, r: nat)
    requires c < 86 && r < 26
    ensures QPosition(DiagonalOf(c, r), c / 2) == c + 86 * r
  {
    var q := DiagonalOf(c, r);
    assert q / 2 == (r + 52 - c / 2) % 26 && q % 2 == c % 2;
    Wrap(q / 2, r, c / 2);
  }

  lemma {:induction false} DiagonalsOfRows(c: nat, r: nat, r': nat)
    requires c < 86 && r < 26 && r' < 26 && r != r'
    ensures DiagonalOf(c, r) != DiagonalOf(c, r')
  {
    if (r + 52 - c / 2) % 26 == (r' + 52 - c / 2) % 26 { ShiftModulo(r, r', 52 - c / 2); }
  }

  lemma {:induction false} ChangedOnDiagonal(raw: seq<bv8>, raw': seq<bv8>, q: nat, k: nat)
    requires |raw| == |raw'| == SECTOR && q < 52 && k < 45 && QWord(raw, q)[k] != QWord(raw', q)[k]
    ensures QOffset(q, k) in Changed(raw, raw')
  {
    if k < 43 {
      QPositionIsPosition(q, k);
      var p := QPosition(q, k);
      assert Covered(raw)[p] != Covered(raw')[p];
      assert p >= 4 && Covered(raw)[p] == raw[p + 12] && Covered(raw')[p] == raw'[p + 12];
    }
  }

  /** A diagonal that is a codeword in both sectors but not the same one holds three changed bytes. */
  lemma {:induction false} ThreeOnDiagonal(raw: seq<bv8>, raw': seq<bv8>, q: nat) returns (three: set<nat>)
    requires |raw| == |raw'| == SECTOR && EccHolds(raw) && EccHolds(raw')
    requires q < 52 && QWord(raw, q) != QWord(raw', q)
    ensures three <= Changed(raw, raw') && |three| == 3
    ensures forall x | x in three :: exists k: nat :: k < 45 && x == QOffset(q, k)
  {
    GfIsLawful();
    GfMoves();
    var i, j, k := MinimumDistance(GF(), QWord(raw, q), QWord(raw', q));
    ChangedOnDiagonal(raw, raw', q, i);
    ChangedOnDiagonal(raw, raw', q, j);
    ChangedOnDiagonal(raw, raw', q, k);
    if QOffset(q, i) == QOffset(q, j) { QOffsetInjective(q, i, q, j); }
    if QOffset(q, i) == QOffset(q, k) { QOffsetInjective(q, i, q, k); }
    if QOffset(q, j) == QOffset(q, k) { QOffsetInjective(q, j, q, k); }
    three := {QOffset(q, i), QOffset(q, j), QOffset(q, k)};
  }

  lemma {:induction false} DiagonalsApart(q: nat, s: set<nat>, q': nat, s': set<nat>)
    requires q < 52 && q' < 52 && q != q'
    requires forall x | x in s :: exists k: nat :: k < 45 && x == QOffset(q, k)
    requires forall x | x in s' :: exists k: nat :: k < 45 && x == QOffset(q', k)
    ensures s !! s'
  {
    forall x | x in s && x in s' ensures false {
      var k: nat :| k < 45 && x == QOffset(q, k);
      var k': nat :| k' < 45 && x == QOffset(q', k');
      QOffsetInjective(q, k, q', k');
    }
  }

  /** A changed covered byte makes its column hold three changed bytes, and each of their diagonals three more. */
  lemma {:induction false} NineFromColumn(raw: seq<bv8>, raw': seq<bv8>, c: nat)
    requires |raw| == |raw'| == SECTOR && EccHolds(raw) && EccHolds(raw')
    requires c < 86 && PWord(raw, c) != PWord(raw', c)
    ensures |Changed(raw, raw')| >= 9
  {
    GfIsLawful();
    GfMoves();
    var r1, r2, r3 := MinimumDistance(GF(), PWord(raw, c), PWord(raw', c));
    var q1, s1 := ThreeThrough(raw, raw', c, r1);
    var q2, s2 := ThreeThrough(raw, raw', c, r2);
    var q3, s3 := ThreeThrough(raw, raw', c, r3);
    DiagonalsOfRows(c, r1, r2);
    DiagonalsOfRows(c, r1, r3);
    DiagonalsOfRows(c, r2, r3);
    DiagonalsApart(q1, s1, q2, s2);
    DiagonalsApart(q1, s1, q3, s3);
    DiagonalsApart(q2, s2, q3, s3);
    var nine := s1 + s2 + s3;
    assert |nine| == 9;
    SubsetSize(nine, Changed(raw, raw'));
  }

  lemma {:induction false} ThreeThrough(raw: seq<bv8>, raw': seq<bv8>, c: nat, r: nat) returns (q: nat, three: set<nat>)
    requires |raw| == |raw'| == SECTOR && EccHolds(raw) && EccHolds(raw')
    requires c < 86 && r < 26 && PWord(raw, c)[r] != PWord(raw', c)[r]
    ensures q == DiagonalOf(c, r)
    ensures three <= Changed(raw, raw') && |three| == 3
    ensures forall x | x in three :: exists k: nat :: k < 45 && x == QOffset(q, k)
  {
    q := DiagonalOf(c, r);
    DiagonalThrough(c, r);
    assert QWord(raw, q)[c / 2] == PWord(raw, c)[r];
    assert QWord(raw', q)[c / 2] == PWord(raw', c)[r];
    three := ThreeOnDiagonal(raw, raw', q);
  }

  lemma {:induction false} SubsetSize<T>(a: set<T>, b: set<T>)
    requires a <= b
    ensures |a| <= |b|
  {
    if a != {} {
      var x :| x in a;
      SubsetSize(a - {x}, b - {x});
    }
  }

  lemma {:induction false} SameCovered(raw: seq<bv8>, raw': seq<bv8>)
    requires |raw| == |raw'| == SECTOR && EccHolds(raw) && EccHolds(raw')
    requires Covered(raw) == Covered(raw')
    ensures Changed(raw, raw') == {}
  {
    forall i: nat | 16 <= i < SECTOR ensures raw[i] == raw'[i] {
      if i < 2248 {
        assert Covered(raw)[i - 12] == raw[i] && Covered(raw')[i - 12] == raw'[i];
      } else {
        SameDiagonalParity(raw, raw', if i < 2300 then i - 2248 else i - 2300);
      }
    }
  }

  lemma {:induction false} SameDiagonalParity(raw: seq<bv8>, raw': seq<bv8>, q: nat)
    requires |raw| == |raw'| == SECTOR && EccHolds(raw) && EccHolds(raw')
    requires Covered(raw) == Covered(raw') && q < 52
    ensures raw[2248 + q] == raw'[2248 + q] && raw[2300 + q] == raw'[2300 + q]
  {
    GfIsLawful();
    QColumn(raw, q);
    QColumn(raw', q);
    var d := Column(Covered(raw), Q, q);
    ParityIsUnique(GF(), d, raw[2248 + q], raw[2300 + q]);
    ParityIsUnique(GF(), d, raw'[2248 + q], raw'[2300 + q]);
  }

  /** Two accepted sectors agree on bytes 16 to 2351 or differ in at least nine of them. */
  lemma {:induction false} ProductDistance(raw: seq<bv8>, raw': seq<bv8>)
    requires |raw| == |raw'| == SECTOR && EccHolds(raw) && EccHolds(raw')
    ensures Changed(raw, raw') == {} || |Changed(raw, raw')| >= 9
  {
    if Covered(raw) == Covered(raw') {
      SameCovered(raw, raw');
    } else {
      var p :| 0 <= p < 2236 && Covered(raw)[p] != Covered(raw')[p];
      assert p == p % 86 + 86 * (p / 86) && p / 86 < 26;
      assert PWord(raw, p % 86)[p / 86] == Covered(raw)[p];
      assert PWord(raw', p % 86)[p / 86] == Covered(raw')[p];
      NineFromColumn(raw, raw', p % 86);
    }
  }

  /** Changing between one and eight of the bytes 16 to 2351 of an accepted sector makes the validator reject. */
  lemma {:induction false} DetectsUpToEight(raw: seq<bv8>, raw': seq<bv8>)
    requires |raw| == |raw'| == SECTOR && EccHolds(raw)
    requires 1 <= |Changed(raw, raw')| <= 8
    ensures !EccHolds(raw')
  {
    if EccHolds(raw') { ProductDistance(raw, raw'); }
  }

  // ---- Nine is exact ----

  /** The sector with both parities computed afresh from bytes 16 to 2075. */
  function Sealed(raw: seq<bv8>): (r: seq<bv8>)
    requires |raw| == SECTOR
    ensures |r| == SECTOR && r[..2076] == raw[..2076]
  {
    var prefix := [0, 0, 0, 0] + raw[16..2076];
    var p := seq(172, i requires 0 <= i < 172 =>
                   if i < 86 then FirstParity(GF(), Column(prefix, P, i)) else SecondParity(GF(), Column(prefix, P, i - 86)));
    var q := seq(104, i requires 0 <= i < 104 =>
                   if i < 52 then FirstParity(GF(), Column(prefix + p, Q, i)) else SecondParity(GF(), Column(prefix + p, Q, i - 52)));
    raw[..2076] + p + q
  }

  lemma {:induction false} SealedHolds(raw: seq<bv8>)
    requires |raw| == SECTOR
    ensures EccHolds(Sealed(raw))
  {
    var r := Sealed(raw);
    var prefix := [0, 0, 0, 0] + r[16..2076];
    assert prefix == [0, 0, 0, 0] + raw[16..2076];
    assert Covered(r) == prefix + r[2076..2248];
    GfIsLawful();
    forall c: nat | c < 86 ensures IsCodeword(GF(), PWord(r, c)) {
      PColumn(r, prefix, c);
      ParityIsUnique(GF(), Column(prefix, P, c), r[2076 + c], r[2162 + c]);
    }
    forall q: nat | q < 52 ensures IsCodeword(GF(), QWord(r, q)) {
      QColumn(r, q);
      ParityIsUnique(GF(), Column(Covered(r), Q, q), r[2248 + q], r[2300 + q]);
    }
  }

  /** Equal data in a column leave its two P bytes alone. */
  lemma {:induction false} SameColumnParity(raw: seq<bv8>, raw': seq<bv8>, c: nat)
    requires |raw| == |raw'| == SECTOR && EccHolds(raw) && EccHolds(raw') && c < 86
    requires forall r: nat | r < 24 :: Covered(raw)[c + 86 * r] == Covered(raw')[c + 86 * r]
    ensures raw[2076 + c] == raw'[2076 + c] && raw[2162 + c] == raw'[2162 + c]
  {
    if PWord(raw, c) != PWord(raw', c) {
      GfIsLawful();
      GfMoves();
      var i, j, k := MinimumDistance(GF(), PWord(raw, c), PWord(raw', c));
      assert false;
    }
    assert PWord(raw, c)[24] == PWord(raw', c)[24] && PWord(raw, c)[25] == PWord(raw', c)[25];
    assert Covered(raw)[c + 2064] == raw[2076 + c] && Covered(raw)[c + 2150] == raw[2162 + c];
    assert Covered(raw')[c + 2064] == raw'[2076 + c] && Covered(raw')[c + 2150] == raw'[2162 + c];
  }

  /** Equal covered bytes along a diagonal leave its two Q bytes alone. */
  lemma {:induction false} SameQBytes(raw: seq<bv8>, raw': seq<bv8>, q: nat)
    requires |raw| == |raw'| == SECTOR && EccHolds(raw) && EccHolds(raw') && q < 52
    requires forall k: nat | k < 43 :: QWord(raw, q)[k] == QWord(raw', q)[k]
    ensures raw[2248 + q] == raw'[2248 + q] && raw[2300 + q] == raw'[2300 + q]
  {
    if QWord(raw, q) != QWord(raw', q) {
      GfIsLawful();
      GfMoves();
      var i, j, k := MinimumDistance(GF(), QWord(raw, q), QWord(raw', q));
      assert false;
    }
    assert QWord(raw, q)[43] == QWord(raw', q)[43] && QWord(raw, q)[44] == QWord(raw', q)[44];
  }

  /** The bytes that sealing can touch after a change at covered position c + 86 r: one column and three diagonals. */
  function Footprint(c: nat, r: nat): set<nat>
    requires c < 86 && r < 24
  {
    var q, q24, q25 := DiagonalOf(c, r), DiagonalOf(c, 24), DiagonalOf(c, 25);
    {c + 86 * r + 12, 2076 + c, 2162 + c, 2248 + q, 2300 + q, 2248 + q24, 2300 + q24, 2248 + q25, 2300 + q25}
  }

  lemma {:induction false} CellOfDiagonal(q: nat, k: nat)
    requires q < 52 && k < 43
    ensures QPosition(q, k) / 86 < 26 && DiagonalOf(QPosition(q, k) % 86, QPosition(q, k) / 86) == q
  {
    var row, column := (q / 2 + k) % 26, 2 * k + q % 2;
    SplitRow(QPosition(q, k) / 86, QPosition(q, k) % 86, row, column);
    assert column / 2 == k && column % 2 == q % 2;
    Wrap(q / 2, row, k);
  }

  /** Covered bytes can only differ in the changed column, at the changed row and the two P rows. */
  lemma {:induction false} ChangedColumnOnly(raw: seq<bv8>, raw': seq<bv8>, c: nat, r: nat, p: nat)
    requires |raw| == |raw'| == SECTOR && EccHolds(raw) && EccHolds(raw') && c < 86 && r < 24 && p < 2236
    requires forall i | 16 <= i < 2076 && i != c + 86 * r + 12 :: raw[i] == raw'[i]
    requires Covered(raw)[p] != Covered(raw')[p]
    ensures p % 86 == c && (p / 86 == r || p / 86 == 24 || p / 86 == 25)
  {
    if p < 2064 {
      assert p >= 4 && Covered(raw)[p] == raw[p + 12] && Covered(raw')[p] == raw'[p + 12];
    } else {
      var c' := p % 86;
      assert p == c' + 86 * (p / 86);
      if c' != c {
        forall r': nat | r' < 24 ensures Covered(raw)[c' + 86 * r'] == Covered(raw')[c' + 86 * r'] {
          var i := c' + 86 * r';
          if i >= 4 { assert Covered(raw)[i] == raw[i + 12] && Covered(raw')[i] == raw'[i + 12]; }
        }
        assert Covered(raw)[p] == raw[p + 12] && Covered(raw')[p] == raw'[p + 12];
        SameColumnParity(raw, raw', c');
      }
    }
  }

  /** A diagonal's Q bytes can only differ if it passes one of those three covered bytes. */
  lemma {:induction false} ChangedDiagonalOnly(raw: seq<bv8>, raw': seq<bv8>, c: nat, r: nat, q: nat)
    requires |raw| == |raw'| == SECTOR && EccHolds(raw) && EccHolds(raw') && c < 86 && r < 24 && q < 52
    requires forall i | 16 <= i < 2076 && i != c + 86 * r + 12 :: raw[i] == raw'[i]
    requires raw[2248 + q] != raw'[2248 + q] || raw[2300 + q] != raw'[2300 + q]
    ensures q == DiagonalOf(c, r) || q == DiagonalOf(c, 24) || q == DiagonalOf(c, 25)
  {
    if forall k: nat | k < 43 :: QWord(raw, q)[k] == QWord(raw', q)[k] {
      SameQBytes(raw, raw', q);
    } else {
      var k: nat :| k < 43 && QWord(raw, q)[k] != QWord(raw', q)[k];
      QPositionIsPosition(q, k);
      ChangedColumnOnly(raw, raw', c, r, QPosition(q, k));
      CellOfDiagonal(q, k);
    }
  }

  lemma {:induction false} ChangedInFootprint(raw: seq<bv8>, raw': seq<bv8>, c: nat, r: nat)
    requires |raw| == |raw'| == SECTOR && EccHolds(raw) && EccHolds(raw') && c < 86 && r < 24
    requires forall i | 16 <= i < 2076 && i != c + 86 * r + 12 :: raw[i] == raw'[i]
    ensures Changed(raw, raw') <= Footprint(c, r)
  {
    forall i | i in Changed(raw, raw') ensures i in Footprint(c, r) {
      if i < 2248 {
        assert Covered(raw)[i - 12] == raw[i] && Covered(raw')[i - 12] == raw'[i];
        ChangedColumnOnly(raw, raw', c, r, i - 12);
      } else {
        ChangedDiagonalOnly(raw, raw', c, r, if i < 2300 then i - 2248 else i - 2300);
      }
    }
  }

  /** Any single change of a data byte of an accepted sector extends to an accepted sector nine bytes away. */
  lemma {:induction false} NineIsExact(raw: seq<bv8>, i: nat, v: bv8) returns (raw': seq<bv8>)
    requires |raw| == SECTOR && EccHolds(raw) && 16 <= i < 2076 && v != raw[i]
    ensures |raw'| == SECTOR && raw'[..2076] == raw[i := v][..2076]
    ensures EccHolds(raw') && |Changed(raw, raw')| == 9
  {
    raw' := Sealed(raw[i := v]);
    SealedHolds(raw[i := v]);
    assert raw'[i] == raw'[..2076][i] == v;
    forall j | 16 <= j < 2076 && j != i ensures raw[j] == raw'[j] {
      assert raw'[j] == raw'[..2076][j];
    }
    var p := i - 12;
    assert i == p % 86 + 86 * (p / 86) + 12;
    ChangedInFootprint(raw, raw', p % 86, p / 86);
    SubsetSize(Changed(raw, raw'), Footprint(p % 86, p / 86));
    assert i in Changed(raw, raw');
    ProductDistance(raw, raw');
  }
}
