/** Changing joint matrices between the console's and the arcade's bone axes (src/tekken3_jun_basis.h). */
module Basis {
  import opened Bytes

  // ---- Matrices ----

  datatype Mat = Mat(a: int, b: int, c: int, d: int, e: int, f: int, g: int, h: int, i: int)

  const ID := Mat(1, 0, 0, 0, 1, 0, 0, 0, 1)

  function Dot(x: int, y: int, z: int, u: int, v: int, w: int): int { x * u + y * v + z * w }

  function Mul(m: Mat, n: Mat): Mat {
    Mat(Dot(m.a, m.b, m.c, n.a, n.d, n.g), Dot(m.a, m.b, m.c, n.b, n.e, n.h), Dot(m.a, m.b, m.c, n.c, n.f, n.i),
        Dot(m.d, m.e, m.f, n.a, n.d, n.g), Dot(m.d, m.e, m.f, n.b, n.e, n.h), Dot(m.d, m.e, m.f, n.c, n.f, n.i),
        Dot(m.g, m.h, m.i, n.a, n.d, n.g), Dot(m.g, m.h, m.i, n.b, n.e, n.h), Dot(m.g, m.h, m.i, n.c, n.f, n.i))
  }

  function Transposed(m: Mat): Mat { Mat(m.a, m.d, m.g, m.b, m.e, m.h, m.c, m.f, m.i) }

  lemma {:induction false} Times(x: int, y: int, z: int)
    ensures (x * y) * z == x * (y * z)
  {}

  lemma {:induction false} Spread(x: int, y: int, z: int, k: int)
    ensures (x + y + z) * k == x * k + y * k + z * k && k * (x + y + z) == k * x + k * y + k * z
  {}

  /** One entry of a triple product, associated either way. */
  lemma {:induction false} DotAssociative(x: int, y: int, z: int, n: Mat, u: int, v: int, w: int)
    ensures Dot(Dot(x, y, z, n.a, n.d, n.g), Dot(x, y, z, n.b, n.e, n.h), Dot(x, y, z, n.c, n.f, n.i), u, v, w)
         == Dot(x, y, z, Dot(n.a, n.b, n.c, u, v, w), Dot(n.d, n.e, n.f, u, v, w), Dot(n.g, n.h, n.i, u, v, w))
  {
    Spread(x * n.a, y * n.d, z * n.g, u);
    Spread(x * n.b, y * n.e, z * n.h, v);
    Spread(x * n.c, y * n.f, z * n.i, w);
    Spread(n.a * u, n.b * v, n.c * w, x);
    Spread(n.d * u, n.e * v, n.f * w, y);
    Spread(n.g * u, n.h * v, n.i * w, z);
    Times(x, n.a, u); Times(x, n.b, v); Times(x, n.c, w);
    Times(y, n.d, u); Times(y, n.e, v); Times(y, n.f, w);
    Times(z, n.g, u); Times(z, n.h, v); Times(z, n.i, w);
  }

  lemma {:induction false} Associative(m: Mat, n: Mat, k: Mat)
    ensures Mul(Mul(m, n), k) == Mul(m, Mul(n, k))
  {
    DotAssociative(m.a, m.b, m.c, n, k.a, k.d, k.g);
    DotAssociative(m.a, m.b, m.c, n, k.b, k.e, k.h);
    DotAssociative(m.a, m.b, m.c, n, k.c, k.f, k.i);
    DotAssociative(m.d, m.e, m.f, n, k.a, k.d, k.g);
    DotAssociative(m.d, m.e, m.f, n, k.b, k.e, k.h);
    DotAssociative(m.d, m.e, m.f, n, k.c, k.f, k.i);
    DotAssociative(m.g, m.h, m.i, n, k.a, k.d, k.g);
    DotAssociative(m.g, m.h, m.i, n, k.b, k.e, k.h);
    DotAssociative(m.g, m.h, m.i, n, k.c, k.f, k.i);
  }

  lemma {:induction false} Identity(m: Mat)
    ensures Mul(ID, m) == m && Mul(m, ID) == m
  {}

  // ---- The tables ----

  const PARENT: seq<nat> := [18, 0, 1, 1, 3, 4, 5, 1, 7, 8, 9, 0, 11, 12, 13, 11, 15, 16]

  const BASIS: seq<nat> := [1, 0, 0, 1, 0, 0, 2, 1, 0, 0, 2, 0, 0, 0, 3, 0, 0, 3, 0]

  function Matrix(kind: nat): Mat
    requires kind < 4
  {
    if kind == 0 then ID
    else if kind == 1 then Mat(1, 0, 0, 0, -1, 0, 0, 0, -1)
    else if kind == 2 then Mat(1, 0, 0, 0, 0, 1, 0, -1, 0)
    else Mat(-1, 0, 0, 0, -1, 0, 0, 0, 1)
  }

  lemma {:induction false} TablesInRange(bone: nat)
    requires bone < 19
    ensures |PARENT| == 18 && |BASIS| == 19 && BASIS[bone] < 4
    ensures bone < 18 ==> PARENT[bone] < 19
  {
    assert forall k | 0 <= k < 19 :: BASIS[k] < 4;
    assert forall k | 0 <= k < 18 :: PARENT[k] < 19;
  }

  /** The axes of a bone; number 18 stands for the parent of the root. */
  function Axes(bone: nat): Mat
    requires bone < 19
  {
    TablesInRange(bone);
    Matrix(BASIS[bone])
  }

  function Parent(bone: nat): (p: nat)
    requires bone < 18
    ensures p < 19
  {
    TablesInRange(bone);
    PARENT[bone]
  }

  const SHOULDERS := {3, 7}

  const WRISTS := {6, 10}

  const ANKLES := {14, 17}

  /** Which joints differ in their axes, and how. */
  lemma {:induction false} AxesAre(bone: nat)
    requires bone < 19
    ensures Axes(bone) == if bone == 0 || bone in SHOULDERS then Matrix(1) else if bone in WRISTS then Matrix(2) else if bone in ANKLES then Matrix(3) else ID
  {
    assert Matrix(0) == ID;
  }

  /** The other side of the body: the arms are bones 3 to 10, the legs below the hip 12 to 17. */
  function Mirrored(bone: nat): (other: nat)
    ensures bone < 19 ==> other < 19
    ensures bone < 18 ==> other < 18
  {
    if 3 <= bone < 7 then bone + 4 else if 7 <= bone < 11 then bone - 4
    else if 12 <= bone < 15 then bone + 3 else if 15 <= bone < 18 then bone - 3 else bone
  }

  /** Both sides hang together alike and have the same axes, and every bone hangs on an earlier one. */
  lemma {:induction false} SkeletonMirrors(bone: nat)
    requires bone < 18
    ensures Mirrored(Mirrored(bone)) == bone && Parent(Mirrored(bone)) == Mirrored(Parent(bone)) && Axes(Mirrored(bone)) == Axes(bone)
    ensures if bone == 0 then Parent(bone) == 18 else Parent(bone) < bone
  {}

  predicate Signed(m: Mat) {
    m.b == m.c == m.d == m.f == m.g == m.h == 0 && m.a * m.a == 1 && m.e * m.e == 1 && m.i * m.i == 1
  }

  predicate Swapped(m: Mat) {
    m.b == m.c == m.d == m.e == m.g == m.i == 0 && m.a * m.a == 1 && m.f * m.f == 1 && m.h * m.h == 1
  }

  lemma {:induction false} MatrixShape(kind: nat)
    requires kind < 4
    ensures Signed(Matrix(kind)) || Swapped(Matrix(kind))
  {}

  lemma {:induction false} SignedOrthogonal(m: Mat)
    requires Signed(m)
    ensures Mul(m, Transposed(m)) == ID && Mul(Transposed(m), m) == ID
  {}

  lemma {:induction false} SwappedOrthogonal(m: Mat)
    requires Swapped(m)
    ensures Mul(m, Transposed(m)) == ID && Mul(Transposed(m), m) == ID
  {}

  lemma {:induction false} ShapeOrthogonal(m: Mat)
    requires Signed(m) || Swapped(m)
    ensures Mul(m, Transposed(m)) == ID && Mul(Transposed(m), m) == ID
  {
    if Signed(m) { SignedOrthogonal(m); } else { SwappedOrthogonal(m); }
  }

  /** Every basis is orthogonal. */
  lemma {:induction false} Orthogonal(bone: nat)
    requires bone < 19
    ensures Mul(Axes(bone), Transposed(Axes(bone))) == ID && Mul(Transposed(Axes(bone)), Axes(bone)) == ID
  {
    TablesInRange(bone);
    MatrixShape(BASIS[bone]);
    ShapeOrthogonal(Matrix(BASIS[bone]));
  }

  // ---- The change of basis ----

  /** The basis acting on the rows of a matrix: a quarter turn swaps two of them, half turns negate two. */
  function Turned(kind: nat, m: Mat): Mat
    requires kind < 4
  {
    if kind == 0 then m
    else if kind == 1 then Mat(m.a, m.b, m.c, -m.d, -m.e, -m.f, -m.g, -m.h, -m.i)
    else if kind == 2 then Mat(m.a, m.b, m.c, m.g, m.h, m.i, -m.d, -m.e, -m.f)
    else Mat(-m.a, -m.b, -m.c, -m.d, -m.e, -m.f, m.g, m.h, m.i)
  }

  function Unturned(kind: nat, m: Mat): Mat
    requires kind < 4
  {
    if kind == 2 then Mat(m.a, m.b, m.c, -m.g, -m.h, -m.i, m.d, m.e, m.f) else Turned(kind, m)
  }

  function Kind(bone: nat): (kind: nat)
    requires bone < 19
    ensures kind < 4 && Axes(bone) == Matrix(kind)
  {
    TablesInRange(bone);
    BASIS[bone]
  }

  /** One turn of the rows, forth or back, after which rows and columns change places. */
  function Half(kind: nat, m: Mat, forth: bool): Mat
    requires kind < 4
  {
    Transposed(if forth then Turned(kind, m) else Unturned(kind, m))
  }

  /** The parent's basis turns the rows, the bone's own the columns. */
  function Changed(m: Mat, bone: nat, toArcade: bool): Mat
    requires bone < 18
  {
    Half(Kind(bone), Half(Kind(Parent(bone)), m, toArcade), toArcade)
  }

  lemma {:induction false} TurnedIsProduct(kind: nat, m: Mat)
    requires kind < 4
    ensures Turned(kind, m) == Mul(Matrix(kind), m) && Unturned(kind, m) == Mul(Transposed(Matrix(kind)), m)
  {
    if kind == 0 {} else if kind == 1 {} else if kind == 2 {} else {}
  }

  lemma {:induction false} TransposedProduct(m: Mat, n: Mat)
    ensures Transposed(Mul(m, n)) == Mul(Transposed(n), Transposed(m))
  {}

  /** Turning rows and columns is multiplying by the two bases, one of them transposed. */
  lemma {:induction false} ChangedIsProduct(m: Mat, bone: nat, toArcade: bool)
    requires bone < 18
    ensures Changed(m, bone, toArcade) ==
      if toArcade then Mul(Mul(Axes(Parent(bone)), m), Transposed(Axes(bone)))
      else Mul(Mul(Transposed(Axes(Parent(bone))), m), Axes(bone))
  {
    var p, j := Kind(Parent(bone)), Kind(bone);
    var half := Half(p, m, toArcade);
    TurnedIsProduct(p, m);
    TurnedIsProduct(j, half);
    TransposedProduct(if toArcade then Matrix(j) else Transposed(Matrix(j)), half);
  }

  // ---- The loops, in place ----

  function Entries(m: Mat): (s: seq<int>)
    ensures |s| == 9
  {
    [m.a, m.b, m.c, m.d, m.e, m.f, m.g, m.h, m.i]
  }

  function FromEntries(s: seq<int>): Mat
    requires |s| == 9
  {
    Mat(s[0], s[1], s[2], s[3], s[4], s[5], s[6], s[7], s[8])
  }

  /** The factor from the parent's and from the bone's own basis. */
  function LeftAt(p: seq<int>, row: nat, a: nat, toArcade: bool): int
    requires |p| == 9 && row < 3 && a < 3
  {
    if toArcade then p[row * 3 + a] else p[a * 3 + row]
  }

  function RightAt(j: seq<int>, c: nat, col: nat, toArcade: bool): int
    requires |j| == 9 && c < 3 && col < 3
  {
    if toArcade then j[col * 3 + c] else j[c * 3 + col]
  }

  function Term(p: seq<int>, m: seq<int>, j: seq<int>, row: nat, col: nat, a: nat, c: nat, toArcade: bool): int
    requires |p| == |m| == |j| == 9 && row < 3 && col < 3 && a < 3 && c < 3
  {
    LeftAt(p, row, a, toArcade) * m[a * 3 + c] * RightAt(j, c, col, toArcade)
  }

  /** The first n terms of one row of the inner sum, and the first n rows. */
  function InnerSum(p: seq<int>, m: seq<int>, j: seq<int>, row: nat, col: nat, a: nat, n: nat, toArcade: bool): int
    requires |p| == |m| == |j| == 9 && row < 3 && col < 3 && a < 3 && n <= 3
    decreases n, |m|
  {
    if n == 0 then 0
    else InnerSum(p, m, j, row, col, a, n - 1, toArcade) + Term(p, m, j, row, col, a, n - 1, toArcade)
  }

  function OuterSum(p: seq<int>, m: seq<int>, j: seq<int>, row: nat, col: nat, n: nat, toArcade: bool): int
    requires |p| == |m| == |j| == 9 && row < 3 && col < 3 && n <= 3
    decreases n, |m|
  {
    if n == 0 then 0 else OuterSum(p, m, j, row, col, n - 1, toArcade) + InnerSum(p, m, j, row, col, n - 1, 3, toArcade)
  }

  method SumEntry(p: seq<int>, m: array<int>, j: seq<int>, row: nat, col: nat, toArcade: bool) returns (sum: int)
    requires |p| == |j| == m.Length == 9 && row < 3 && col < 3
    ensures sum == OuterSum(p, m[..], j, row, col, 3, toArcade)
  {
    sum := 0;
    for a := 0 to 3
      invariant sum == OuterSum(p, m[..], j, row, col, a, toArcade)
    {
      for c := 0 to 3
        invariant sum == OuterSum(p, m[..], j, row, col, a, toArcade) + InnerSum(p, m[..], j, row, col, a, c, toArcade)
      {
        sum := sum + LeftAt(p, row, a, toArcade) * m[a * 3 + c] * RightAt(j, c, col, toArcade);
      }
    }
  }

  /** The matrix the sums make. */
  function Summed(p: seq<int>, m: seq<int>, j: seq<int>, toArcade: bool): (r: seq<int>)
    requires |p| == |m| == |j| == 9
    ensures |r| == 9
  {
    seq(9, k requires 0 <= k < 9 => OuterSum(p, m, j, k / 3, k % 3, 3, toArcade))
  }

  method ChangeBasis(m: array<int>, bone: nat, toArcade: bool)
    requires m.Length == 9 && bone < 18
    modifies m
    ensures FromEntries(m[..]) == Changed(FromEntries(old(m[..])), bone, toArcade)
  {
    var p, j := Entries(Axes(Parent(bone))), Entries(Axes(bone));
    var result := SumAll(p, m, j, toArcade);
    CopyBack(m, result);
    SumsMultiply(Axes(Parent(bone)), FromEntries(old(m[..])), Axes(bone), toArcade);
    ChangedIsProduct(FromEntries(old(m[..])), bone, toArcade);
    assert Entries(FromEntries(old(m[..]))) == old(m[..]);
  }

  method SumAll(p: seq<int>, m: array<int>, j: seq<int>, toArcade: bool) returns (result: array<int>)
    requires |p| == |j| == m.Length == 9
    ensures fresh(result) && result.Length == 9 && result[..] == Summed(p, m[..], j, toArcade)
  {
    result := new int[9];
    for row := 0 to 3
      invariant result[..row * 3] == Summed(p, m[..], j, toArcade)[..row * 3]
    {
      for col := 0 to 3
        invariant result[..row * 3 + col] == Summed(p, m[..], j, toArcade)[..row * 3 + col]
      {
        var sum := SumEntry(p, m, j, row, col, toArcade);
        assert (row * 3 + col) / 3 == row && (row * 3 + col) % 3 == col;
        result[row * 3 + col] := sum;
      }
    }
    assert result[..9] == result[..];
  }

  method CopyBack(m: array<int>, result: array<int>)
    requires m.Length == result.Length && m != result
    modifies m
    ensures m[..] == result[..]
  {
    for n := 0 to m.Length
      invariant m[..n] == result[..n]
    {
      m[n] := result[n];
    }
    assert m[..] == m[..m.Length] && result[..] == result[..m.Length];
  }

  /** The double sum is the product of the three matrices. */
  lemma {:induction false} SumsMultiply(p: Mat, m: Mat, j: Mat, toArcade: bool)
    ensures FromEntries(Summed(Entries(p), Entries(m), Entries(j), toArcade))
         == if toArcade then Mul(Mul(p, m), Transposed(j)) else Mul(Mul(Transposed(p), m), j)
  {
    var q, r := if toArcade then p else Transposed(p), if toArcade then Transposed(j) else j;
    forall k | 0 <= k < 9
      ensures OuterSum(Entries(p), Entries(m), Entries(j), k / 3, k % 3, 3, toArcade)
           == Entries(if toArcade then Mul(Mul(p, m), Transposed(j)) else Mul(Mul(Transposed(p), m), j))[k]
    {
      var row, col := k / 3, k % 3;
      SumUnrolled(Entries(p), Entries(m), Entries(j), row, col, toArcade);
      ThreeIs(Entries(p), m, Entries(j), row, col, toArcade);
      Factors(p, j, row, col, toArcade);
      Regroup(RowOf(q, row), m, ColOf(r, col));
      MulEntry(q, m, row, 0);
      MulEntry(Mul(q, m), r, row, col);
      assert row * 3 + col == k;
    }
  }

  function Three(p: seq<int>, m: seq<int>, j: seq<int>, row: nat, col: nat, a: nat, toArcade: bool): int
    requires |p| == |m| == |j| == 9 && row < 3 && col < 3 && a < 3
  {
    Term(p, m, j, row, col, a, 0, toArcade) + Term(p, m, j, row, col, a, 1, toArcade) + Term(p, m, j, row, col, a, 2, toArcade)
  }

  lemma {:induction false} InnerUnrolled(p: seq<int>, m: seq<int>, j: seq<int>, row: nat, col: nat, a: nat, toArcade: bool)
    requires |p| == |m| == |j| == 9 && row < 3 && col < 3 && a < 3
    ensures InnerSum(p, m, j, row, col, a, 3, toArcade) == Three(p, m, j, row, col, a, toArcade)
  {
    assert InnerSum(p, m, j, row, col, a, 1, toArcade) == Term(p, m, j, row, col, a, 0, toArcade);
    assert InnerSum(p, m, j, row, col, a, 2, toArcade) == InnerSum(p, m, j, row, col, a, 1, toArcade) + Term(p, m, j, row, col, a, 1, toArcade);
  }

  lemma {:induction false} SumUnrolled(p: seq<int>, m: seq<int>, j: seq<int>, row: nat, col: nat, toArcade: bool)
    requires |p| == |m| == |j| == 9 && row < 3 && col < 3
    ensures OuterSum(p, m, j, row, col, 3, toArcade)
         == Three(p, m, j, row, col, 0, toArcade) + Three(p, m, j, row, col, 1, toArcade) + Three(p, m, j, row, col, 2, toArcade)
  {
    InnerUnrolled(p, m, j, row, col, 0, toArcade);
    InnerUnrolled(p, m, j, row, col, 1, toArcade);
    InnerUnrolled(p, m, j, row, col, 2, toArcade);
    assert OuterSum(p, m, j, row, col, 2, toArcade) == OuterSum(p, m, j, row, col, 1, toArcade) + InnerSum(p, m, j, row, col, 1, 3, toArcade);
  }

  datatype Vec = Vec(x: int, y: int, z: int)

  function Along(v: Vec, w: Vec): int { Dot(v.x, v.y, v.z, w.x, w.y, w.z) }

  function RowOf(m: Mat, row: nat): Vec
    requires row < 3
  {
    if row == 0 then Vec(m.a, m.b, m.c) else if row == 1 then Vec(m.d, m.e, m.f) else Vec(m.g, m.h, m.i)
  }

  function ColOf(m: Mat, col: nat): Vec
    requires col < 3
  {
    if col == 0 then Vec(m.a, m.d, m.g) else if col == 1 then Vec(m.b, m.e, m.h) else Vec(m.c, m.f, m.i)
  }

  lemma {:induction false} MulEntry(m: Mat, n: Mat, row: nat, col: nat)
    requires row < 3 && col < 3
    ensures Entries(Mul(m, n))[row * 3 + col] == Along(RowOf(m, row), ColOf(n, col))
    ensures RowOf(Mul(m, n), row) == Vec(Along(RowOf(m, row), ColOf(n, 0)), Along(RowOf(m, row), ColOf(n, 1)), Along(RowOf(m, row), ColOf(n, 2)))
  {
    if row == 0 {} else if row == 1 {} else {}
  }

  /** The nine terms of one entry, row by row of the middle matrix. */
  function Triple(l: Vec, m: Mat, r: Vec): int {
    (l.x * m.a * r.x + l.x * m.b * r.y + l.x * m.c * r.z) + (l.y * m.d * r.x + l.y * m.e * r.y + l.y * m.f * r.z) +
    (l.z * m.g * r.x + l.z * m.h * r.y + l.z * m.i * r.z)
  }

  lemma {:induction false} Regroup(l: Vec, m: Mat, r: Vec)
    ensures Along(Vec(Along(l, ColOf(m, 0)), Along(l, ColOf(m, 1)), Along(l, ColOf(m, 2))), r) == Triple(l, m, r)
  {
    Spread(l.x * m.a, l.y * m.d, l.z * m.g, r.x);
    Spread(l.x * m.b, l.y * m.e, l.z * m.h, r.y);
    Spread(l.x * m.c, l.y * m.f, l.z * m.i, r.z);
  }

  lemma {:induction false} Factors(p: Mat, j: Mat, row: nat, col: nat, toArcade: bool)
    requires row < 3 && col < 3
    ensures var q, r := if toArcade then p else Transposed(p), if toArcade then Transposed(j) else j;
      && RowOf(q, row) == Vec(LeftAt(Entries(p), row, 0, toArcade), LeftAt(Entries(p), row, 1, toArcade), LeftAt(Entries(p), row, 2, toArcade))
      && ColOf(r, col) == Vec(RightAt(Entries(j), 0, col, toArcade), RightAt(Entries(j), 1, col, toArcade), RightAt(Entries(j), 2, col, toArcade))
  {}

  lemma {:induction false} ThreeIs(p: seq<int>, m: Mat, j: seq<int>, row: nat, col: nat, toArcade: bool)
    requires |p| == |j| == 9 && row < 3 && col < 3
    ensures Three(p, Entries(m), j, row, col, 0, toArcade) + Three(p, Entries(m), j, row, col, 1, toArcade) + Three(p, Entries(m), j, row, col, 2, toArcade)
         == Triple(Vec(LeftAt(p, row, 0, toArcade), LeftAt(p, row, 1, toArcade), LeftAt(p, row, 2, toArcade)), m,
                   Vec(RightAt(j, 0, col, toArcade), RightAt(j, 1, col, toArcade), RightAt(j, 2, col, toArcade)))
  {}

  // ---- There and back ----

  lemma {:induction false} HalfBack(kind: nat, m: Mat, forth: bool)
    requires kind < 4
    ensures Half(kind, Transposed(Half(kind, m, forth)), !forth) == Transposed(m)
  {}

  /** Rows and columns turn independently. */
  lemma {:induction false} HalvesCommute(p: nat, j: nat, m: Mat, forth: bool)
    requires p < 4 && j < 4
    ensures Half(p, Half(j, m, forth), !forth) == Transposed(Half(j, Half(p, Transposed(m), !forth), forth))
  {
    if p == 2 {
      if forth {} else {}
    } else if j == 2 {
      if forth {} else {}
    } else {}
  }

  /** There and back, either way round, is the identity. */
  lemma {:induction false} RoundTrip(m: Mat, bone: nat, toArcade: bool)
    requires bone < 18
    ensures Changed(Changed(m, bone, toArcade), bone, !toArcade) == m
  {
    var p, j := Kind(Parent(bone)), Kind(bone);
    HalvesCommute(p, j, Half(p, m, toArcade), toArcade);
    HalfBack(p, m, toArcade);
    HalfBack(j, Transposed(m), toArcade);
  }

  // ---- Sixteen bits ----

  /** Every entry cut to a signed halfword, as guest memory keeps it. */
  function Cut(m: Mat): Mat {
    Mat(Int16(m.a), Int16(m.b), Int16(m.c), Int16(m.d), Int16(m.e), Int16(m.f), Int16(m.g), Int16(m.h), Int16(m.i))
  }

  function Plus(m: Mat, k: Mat): Mat {
    Mat(m.a + 0x10000 * k.a, m.b + 0x10000 * k.b, m.c + 0x10000 * k.c, m.d + 0x10000 * k.d, m.e + 0x10000 * k.e,
        m.f + 0x10000 * k.f, m.g + 0x10000 * k.g, m.h + 0x10000 * k.h, m.i + 0x10000 * k.i)
  }

  function Wraps(x: int): (k: int)
    ensures Int16(x) == x + 0x10000 * k
  {
    -((x + 0x8000) / 0x10000)
  }

  function AllWraps(m: Mat): (k: Mat)
    ensures Cut(m) == Plus(m, k)
  {
    Mat(Wraps(m.a), Wraps(m.b), Wraps(m.c), Wraps(m.d), Wraps(m.e), Wraps(m.f), Wraps(m.g), Wraps(m.h), Wraps(m.i))
  }

  lemma {:induction false} Int16Plus(x: int, k: int)
    ensures Int16(x + 0x10000 * k) == Int16(x)
  {}

  lemma {:induction false} CutPlus(m: Mat, k: Mat)
    ensures Cut(Plus(m, k)) == Cut(m)
  {
    Int16Plus(m.a, k.a); Int16Plus(m.b, k.b); Int16Plus(m.c, k.c);
    Int16Plus(m.d, k.d); Int16Plus(m.e, k.e); Int16Plus(m.f, k.f);
    Int16Plus(m.g, k.g); Int16Plus(m.h, k.h); Int16Plus(m.i, k.i);
  }

  lemma {:induction false} HalfPlus(kind: nat, m: Mat, k: Mat, forth: bool)
    requires kind < 4
    ensures Half(kind, Plus(m, k), forth) == Plus(Half(kind, m, forth), Half(kind, k, forth))
  {}

  lemma {:induction false} ChangedPlus(m: Mat, k: Mat, bone: nat, toArcade: bool)
    requires bone < 18
    ensures Changed(Plus(m, k), bone, toArcade) == Plus(Changed(m, bone, toArcade), Changed(k, bone, toArcade))
  {
    var p, j := Kind(Parent(bone)), Kind(bone);
    HalfPlus(p, m, k, toArcade);
    HalfPlus(j, Half(p, m, toArcade), Half(p, k, toArcade), toArcade);
  }

  /** Cutting the converted matrix to halfwords loses nothing that survives in the original halfwords. */
  lemma {:induction false} RoundTripCut(m: Mat, bone: nat, toArcade: bool)
    requires bone < 18
    ensures Cut(Changed(Cut(Changed(m, bone, toArcade)), bone, !toArcade)) == Cut(m)
  {
    var once := Changed(m, bone, toArcade);
    var k := AllWraps(once);
    ChangedPlus(once, k, bone, !toArcade);
    RoundTrip(m, bone, toArcade);
    CutPlus(m, Changed(k, bone, !toArcade));
  }

  // ---- Along the skeleton ----

  /** Each bone of the chain hangs on the one before it. */
  predicate IsChain(path: seq<nat>) {
    path != [] && (forall k | 0 <= k < |path| :: path[k] < 18) && forall k | 0 < k < |path| :: PARENT[path[k]] == path[k - 1]
  }

  /** The rotation accumulated along a chain. */
  function World(ms: seq<Mat>, path: seq<nat>): Mat
    requires |ms| == 18 && forall k | 0 <= k < |path| :: path[k] < 18
  {
    if path == [] then ID else Mul(World(ms, path[..|path| - 1]), ms[path[|path| - 1]])
  }

  function ChangedAll(ms: seq<Mat>): (r: seq<Mat>)
    requires |ms| == 18
    ensures |r| == 18
  {
    seq(18, bone requires 0 <= bone < 18 => Changed(ms[bone], bone, true))
  }

  /** The inner bases cancel: converting a whole chain amounts to changing the axes above it and those of its last bone. */
  lemma {:induction false} Telescopes(ms: seq<Mat>, path: seq<nat>)
    requires |ms| == 18 && IsChain(path)
    ensures Mul(World(ChangedAll(ms), path), Axes(path[|path| - 1])) == Mul(Axes(Parent(path[0])), World(ms, path))
    decreases |path|
  {
    var last, rest := path[|path| - 1], path[..|path| - 1];
    var m, above, j := ms[last], Parent(last), Axes(last);
    var w, w' := World(ms, rest), World(ChangedAll(ms), rest);
    Orthogonal(last);
    ChangedIsProduct(m, last, true);
    Associative(w', Changed(m, last, true), j);
    Associative(Mul(Axes(above), m), Transposed(j), j);
    Identity(Mul(Axes(above), m));
    if rest == [] {
      Identity(m);
    } else {
      Telescopes(ms, rest);
      assert rest[|rest| - 1] == above;
      Associative(w', Axes(above), m);
      Associative(Axes(Parent(path[0])), w, m);
    }
  }

  /** From the root down, the world rotation changes only by the axes of the end bone. */
  lemma {:induction false} WorldChangesByEndBone(ms: seq<Mat>, path: seq<nat>)
    requires |ms| == 18 && IsChain(path) && path[0] == 0
    ensures World(ChangedAll(ms), path) == Mul(World(ms, path), Transposed(Axes(path[|path| - 1])))
  {
    var b, world := Axes(path[|path| - 1]), World(ChangedAll(ms), path);
    Telescopes(ms, path);
    assert Axes(Parent(0)) == ID;
    Identity(World(ms, path));
    Orthogonal(path[|path| - 1]);
    Associative(world, b, Transposed(b));
    Identity(world);
  }
}
