/** RGBA images in PNG files (tools/tim_import.py, tools/tim_tool.py), after the PNG specification. */
module Png {
  import opened Options
  import opened Bytes

  // ---- Filters (section 9) ----

  function Abs(x: int): nat { if x < 0 then -x else x }

  function Paeth(left: byte, above: byte, upperLeft: byte): byte {
    var estimate := left as int + above as int - upperLeft as int;
    if Abs(estimate - left) <= Abs(estimate - above) && Abs(estimate - left) <= Abs(estimate - upperLeft) then left
    else if Abs(estimate - above) <= Abs(estimate - upperLeft) then above
    else upperLeft
  }

  /** The neighbour nearest to the linear estimate; of equally near ones left before above before upper left. */
  lemma {:induction false} PaethNearest(left: byte, above: byte, upperLeft: byte)
    ensures var estimate, r := left as int + above as int - upperLeft as int, Paeth(left, above, upperLeft);
            && (r == left || r == above || r == upperLeft)
            && Abs(estimate - r) <= Abs(estimate - left) && Abs(estimate - r) <= Abs(estimate - above) && Abs(estimate - r) <= Abs(estimate - upperLeft)
            && (r != left ==> Abs(estimate - r) < Abs(estimate - left)) && (r == upperLeft ==> r == left || r == above || Abs(estimate - r) < Abs(estimate - above))
  {}

  function Above(previous: seq<byte>, i: int): byte { if 0 <= i < |previous| then previous[i] else 0 }

  function Left(row: seq<byte>, i: int): byte { if 0 <= i < |row| then row[i] else 0 }

  function Predict(kind: nat, left: byte, above: byte, upperLeft: byte): byte {
    if kind == 0 then 0
    else if kind == 1 then left
    else if kind == 2 then above
    else if kind == 3 then (left as int + above as int) / 2
    else Paeth(left, above, upperLeft)
  }

  /** What a filter predicts for byte i from the bytes before it and the row above; missing bytes count as zero. */
  function Predicted(kind: nat, row: seq<byte>, previous: seq<byte>, i: nat, bpp: nat): byte {
    Predict(kind, Left(row, i - bpp), Above(previous, i), Above(previous, i - bpp))
  }

  function Filtered(kind: nat, row: seq<byte>, previous: seq<byte>, bpp: nat): (f: seq<byte>)
    requires bpp > 0
    ensures |f| == |row|
  {
    seq(|row|, i requires 0 <= i < |row| => (row[i] as int - Predicted(kind, row[..i], previous, i, bpp) as int) % 256)
  }

  /** The first n bytes restored. */
  function Restored(kind: nat, filtered: seq<byte>, previous: seq<byte>, bpp: nat, n: nat): (row: seq<byte>)
    requires bpp > 0 && n <= |filtered|
    ensures |row| == n
    decreases n
  {
    if n == 0 then []
    else
      var before := Restored(kind, filtered, previous, bpp, n - 1);
      before + [(filtered[n - 1] as int + Predicted(kind, before, previous, n - 1, bpp) as int) % 256]
  }

  function Unfiltered(kind: nat, filtered: seq<byte>, previous: seq<byte>, bpp: nat): (row: seq<byte>)
    requires bpp > 0
    ensures |row| == |filtered|
  {
    Restored(kind, filtered, previous, bpp, |filtered|)
  }

  lemma {:induction false} Wraps(x: byte, p: byte)
    ensures ((x as int - p as int) % 256 + p as int) % 256 == x
    ensures ((x as int + p as int) % 256 - p as int) % 256 == x
  {}

  lemma {:induction false} RestoresFiltered(kind: nat, row: seq<byte>, previous: seq<byte>, bpp: nat, n: nat)
    requires bpp > 0 && n <= |row|
    ensures Restored(kind, Filtered(kind, row, previous, bpp), previous, bpp, n) == row[..n]
    decreases n
  {
    if n > 0 {
      RestoresFiltered(kind, row, previous, bpp, n - 1);
      Wraps(row[n - 1], Predicted(kind, row[..n - 1], previous, n - 1, bpp));
      assert row[..n] == row[..n - 1] + [row[n - 1]];
    }
  }

  /** Unfiltering undoes every filter, for every row and previous row. */
  lemma {:induction false} UnfilterInverts(kind: nat, row: seq<byte>, previous: seq<byte>, bpp: nat)
    requires bpp > 0
    ensures Unfiltered(kind, Filtered(kind, row, previous, bpp), previous, bpp) == row
  {
    RestoresFiltered(kind, row, previous, bpp, |row|);
    assert row[..|row|] == row;
  }

  lemma {:induction false} RestoredPrefix(kind: nat, filtered: seq<byte>, previous: seq<byte>, bpp: nat, i: nat, n: nat)
    requires bpp > 0 && i <= n <= |filtered|
    ensures Restored(kind, filtered, previous, bpp, n)[..i] == Restored(kind, filtered, previous, bpp, i)
    decreases n
  {
    if i < n {
      RestoredPrefix(kind, filtered, previous, bpp, i, n - 1);
      assert Restored(kind, filtered, previous, bpp, n)[..i] == Restored(kind, filtered, previous, bpp, n - 1)[..i];
    } else {
      assert Restored(kind, filtered, previous, bpp, n)[..n] == Restored(kind, filtered, previous, bpp, n);
    }
  }

  /** Filtering undoes unfiltering: each filter is a bijection on rows of one length. */
  lemma {:induction false} FilterInverts(kind: nat, filtered: seq<byte>, previous: seq<byte>, bpp: nat)
    requires bpp > 0
    ensures Filtered(kind, Unfiltered(kind, filtered, previous, bpp), previous, bpp) == filtered
  {
    var row := Unfiltered(kind, filtered, previous, bpp);
    forall i | 0 <= i < |filtered| ensures Filtered(kind, row, previous, bpp)[i] == filtered[i] {
      RestoredPrefix(kind, filtered, previous, bpp, i, |filtered|);
      RestoredPrefix(kind, filtered, previous, bpp, i + 1, |filtered|);
      var before := Restored(kind, filtered, previous, bpp, i);
      assert row[i] == row[..i + 1][i] == Restored(kind, filtered, previous, bpp, i + 1)[i];
      Wraps(filtered[i], Predicted(kind, before, previous, i, bpp));
    }
  }

  // ---- What each filter type means ----

  /** The bytes to the left, above and to the upper left of byte i; missing ones count as zero. */
  function LeftOf(row: seq<byte>, i: nat, bpp: nat): byte { if bpp <= i < |row| + bpp then row[i - bpp] else 0 }

  function AboveOf(previous: seq<byte>, i: nat): byte { if i < |previous| then previous[i] else 0 }

  /** The one of three neighbours the Paeth filter singles out, by their distances from the linear estimate. */
  predicate IsPaeth(r: byte, left: byte, above: byte, upperLeft: byte) {
    var fromLeft, fromAbove := Abs(above as int - upperLeft as int), Abs(left as int - upperLeft as int);
    var fromUpperLeft := Abs(left as int + above as int - 2 * upperLeft as int);
    if fromLeft <= fromAbove && fromLeft <= fromUpperLeft then r == left
    else if fromAbove <= fromUpperLeft then r == above
    else r == upperLeft
  }

  /** Section 9: what a byte of a row and its filtered byte differ by, modulo 256. */
  ghost predicate Differs(kind: nat, row: seq<byte>, filtered: seq<byte>, previous: seq<byte>, i: nat, bpp: nat)
    requires |row| == |filtered| && i < |row|
  {
    var d: byte := (row[i] as int - filtered[i] as int) % 256;
    var left, above, upperLeft := LeftOf(row, i, bpp), AboveOf(previous, i), LeftOf(previous, i, bpp);
    && kind < 5
    && (kind == 0 ==> d == 0) && (kind == 1 ==> d == left) && (kind == 2 ==> d == above)
    && (kind == 3 ==> 2 * d as int <= left as int + above as int <= 2 * d as int + 1)
    && (kind == 4 ==> IsPaeth(d, left, above, upperLeft))
  }

  ghost predicate RowDiffers(kind: nat, row: seq<byte>, filtered: seq<byte>, previous: seq<byte>, bpp: nat) {
    |row| == |filtered| && forall i | 0 <= i < |row| :: Differs(kind, row, filtered, previous, i, bpp)
  }

  lemma {:induction false} PaethIs(left: byte, above: byte, upperLeft: byte)
    ensures IsPaeth(Paeth(left, above, upperLeft), left, above, upperLeft)
  {}

  lemma {:induction false} Difference(f: byte, p: byte)
    ensures ((f as int + p as int) % 256 - f as int) % 256 == p
  {}

  lemma {:induction false} PredictsDifference(kind: nat, row: seq<byte>, filtered: seq<byte>, previous: seq<byte>, i: nat, bpp: nat)
    requires |row| == |filtered| && i < |row| && bpp > 0 && kind < 5
    requires row[i] == (filtered[i] as int + Predicted(kind, row[..i], previous, i, bpp) as int) % 256
    ensures Differs(kind, row, filtered, previous, i, bpp)
  {
    var p := Predicted(kind, row[..i], previous, i, bpp);
    Difference(filtered[i], p);
    assert Left(row[..i], i - bpp) == LeftOf(row, i, bpp);
    PaethIs(LeftOf(row, i, bpp), AboveOf(previous, i), LeftOf(previous, i, bpp));
  }

  /** The restored row and its filtered bytes differ by what the filter type says, byte for byte. */
  lemma {:induction false} UnfilteredDiffers(kind: nat, filtered: seq<byte>, previous: seq<byte>, bpp: nat)
    requires bpp > 0 && kind < 5
    requires previous == [] || |previous| == |filtered|
    ensures RowDiffers(kind, Unfiltered(kind, filtered, previous, bpp), filtered, previous, bpp)
  {
    var row := Unfiltered(kind, filtered, previous, bpp);
    forall i | 0 <= i < |row| ensures Differs(kind, row, filtered, previous, i, bpp) {
      RestoredPrefix(kind, filtered, previous, bpp, i, |filtered|);
      RestoredPrefix(kind, filtered, previous, bpp, i + 1, |filtered|);
      assert row[i] == row[..i + 1][i];
      PredictsDifference(kind, row, filtered, previous, i, bpp);
    }
  }

  method Unfilter(filtered: seq<byte>, previous: seq<byte>, kind: nat, bpp: nat) returns (r: Option<seq<byte>>)
    requires bpp > 0 && (previous == [] || |previous| == |filtered|)
    ensures r == if kind < 5 then Some(Unfiltered(kind, filtered, previous, bpp)) else None
    ensures kind < 5 ==> RowDiffers(kind, r.value, filtered, previous, bpp)
  {
    if kind >= 5 {
      return None;
    }
    var output := new byte[|filtered|];
    for i := 0 to |filtered|
      invariant output[..i] == Restored(kind, filtered, previous, bpp, i)
    {
      var left := if i >= bpp then output[i - bpp] else 0;
      var above := if previous != [] then previous[i] else 0;
      var upperLeft := if previous != [] && i >= bpp then previous[i - bpp] else 0;
      ghost var before := output[..i];
      var predictor := Predict(kind, left, above, upperLeft);
      assert left == Left(before, i - bpp) && above == Above(previous, i) && upperLeft == Above(previous, i - bpp);
      output[i] := (filtered[i] as int + predictor as int) % 256;
      assert output[..i + 1] == before + [output[i]];
    }
    assert output[..] == output[..|filtered|];
    UnfilteredDiffers(kind, filtered, previous, bpp);
    return Some(output[..]);
  }
}
