/** The ECC of a Mode 2 Form 1 sector: tables, block parity and the validator (tools/xas_mod.py). */
module SectorEcc {
  import opened Gf256
  import opened RsCode

  function GF(): Field<bv8> {
    Field(0, Xor, Times2, DivideBy3)
  }

  lemma {:induction false} GfScaled(n: nat, v: bv8)
    ensures RsCode.Scaled(GF(), n, v) == Gf256.Scaled(n, v)
  {
    if n > 0 { GfScaled(n - 1, v); }
  }

  lemma {:induction false} GfIsLawful()
    ensures Lawful(GF())
  {
    var F := GF();
    forall a, b ensures Commutes(F, a, b) { XorLaws(a, b, a); }
    forall a, b, c ensures Associates(F, a, b, c) { XorLaws(a, b, c); }
    forall a ensures SelfInverse(F, a) { XorLaws(a, a, a); }
    forall a, b ensures Distributes(F, a, b) { Times2Linear(a, b); }
    forall a, b ensures Cancels(F, a, b) { if Times2(a) == Times2(b) { Times2Injective(a, b); } }
    forall v, w ensures Divides(F, v, w) {
      DivideBy3Divides(w);
      if Xor(Times2(v), v) == w { NoUnitFactor(v, DivideBy3(w)); }
    }
  }

  lemma {:induction false} GfMoves()
    ensures Moves(GF(), 49)
  {
    forall d: nat, e: bv8 | 0 < d < 49 && RsCode.Scaled(GF(), d, e) == e ensures e == 0 {
      GfScaled(d, e);
      PowersDistinct(d, e);
    }
  }

  // ---- The lookup tables ----

  /** Python's table entry: shift, then reduce by 0x11D when the ninth bit is set. */
  function ForwardEntry(value: bv8): bv8 {
    var shifted := (value as bv16) << 1;
    ((if shifted & 0x100 != 0 then shifted ^ 0x11D else shifted) & 0xFF) as bv8
  }

  lemma {:induction false} ForwardEntryIsTimes2(value: bv8)
    ensures ForwardEntry(value) == Times2(value)
  {}

  function Byte(i: nat): bv8
    requires i < 256
  {
    i as bv8
  }

  lemma {:induction false} ByteOfInt(a: bv8, b: bv8)
    requires a as int == b as int
    ensures a == b
  {
    assert (a as int) as bv8 == (b as int) as bv8;
  }

  /** The entry a value is filed under in the inverse table is the one whose third it is. */
  lemma {:induction false} FiledRight(v: bv8, w: bv8)
    requires w as int == Xor(Times2(v), v) as int
    ensures DivideBy3(w) == v
  {
    ByteOfInt(w, Xor(Times2(v), v));
    DivideBy3Divides(w);
    NoUnitFactor(DivideBy3(w), v);
  }

  lemma {:induction false} FiledThere(value: nat, w: bv8)
    requires value < 256 && DivideBy3(w) as int == value
    ensures w as int == Xor(Times2(Byte(value)), Byte(value)) as int
  {
    assert Byte(DivideBy3(w) as int) == DivideBy3(w);
    DivideBy3Divides(w);
  }

  ghost predicate AreTables(forward: seq<bv8>, backward: seq<bv8>) {
    && |forward| == |backward| == 256
    && (forall v: bv8 :: forward[v as int] == Times2(v))
    && (forall w: bv8 :: backward[w as int] == DivideBy3(w))
  }

  /** The entries of the first n values are in the inverse table. */
  ghost predicate Filed(backward: seq<bv8>, n: nat) {
    |backward| == 256 && forall w: bv8 | DivideBy3(w) as int < n :: backward[w as int] == DivideBy3(w)
  }

  lemma {:induction false} FiledNext(backward: seq<bv8>, value: nat)
    requires value < 256 && Filed(backward, value)
    ensures var v := Byte(value); Filed(backward[Xor(Times2(v), v) as int := v], value + 1)
  {
    var v := Byte(value);
    var at := Xor(Times2(v), v) as int;
    forall w: bv8 | DivideBy3(w) as int < value + 1 ensures backward[at := v][w as int] == DivideBy3(w) {
      if w as int == at { FiledRight(v, w); } else if DivideBy3(w) as int == value { FiledThere(value, w); }
    }
  }

  method EccTables() returns (forward: seq<bv8>, backward: seq<bv8>)
    ensures AreTables(forward, backward)
  {
    forward := [];
    backward := seq(256, _ => 0);
    for value := 0 to 256
      invariant |forward| == value && forall i: nat | i < value :: forward[i] == Times2(Byte(i))
      invariant Filed(backward, value)
    {
      var v := Byte(value);
      var shifted := ForwardEntry(v);
      ForwardEntryIsTimes2(v);
      FiledNext(backward, value);
      forward := forward + [shifted];
      backward := backward[Xor(shifted, v) as int := v];
    }
    TablesComplete(forward, backward);
  }

  lemma {:induction false} TablesComplete(forward: seq<bv8>, backward: seq<bv8>)
    requires |forward| == 256 && forall i: nat | i < 256 :: forward[i] == Times2(Byte(i))
    requires Filed(backward, 256)
    ensures AreTables(forward, backward)
  {
    forall v: bv8 ensures forward[v as int] == Times2(v) {
      assert Byte(v as int) == v;
    }
  }

  // ---- Block parity ----

  /** Which source bytes the columns (or diagonals) of a block visit. */
  datatype Geometry = Geometry(majorCount: nat, minorCount: nat, majorMult: nat, minorInc: nat)

  const P := Geometry(86, 24, 2, 86)
  const Q := Geometry(52, 43, 86, 88)

  ghost predicate WellFormed(g: Geometry) {
    var size := g.majorCount * g.minorCount;
    0 < size && g.minorInc <= size && forall m: nat | m < g.majorCount :: Start(g, m) < size
  }

  function Start(g: Geometry, major: nat): nat {
    major / 2 * g.majorMult + major % 2
  }

  function Position(g: Geometry, major: nat, k: nat): nat
    requires 0 < g.majorCount * g.minorCount
  {
    (Start(g, major) + k * g.minorInc) % (g.majorCount * g.minorCount)
  }

  function Column(source: seq<bv8>, g: Geometry, major: nat): seq<bv8>
    requires 0 < g.majorCount * g.minorCount <= |source|
  {
    seq(g.minorCount, k requires 0 <= k < g.minorCount => source[Position(g, major, k)])
  }

  lemma {:induction false} Scale(k: int, m: int)
    requires 0 < m
    ensures k > 0 ==> k * m >= m
    ensures k < 0 ==> k * m <= -m
  {}

  lemma {:induction false} ModOf(q: int, r: int, m: int)
    requires 0 <= r < m
    ensures (q * m + r) % m == r
  {
    var x := q * m + r;
    var d := x / m - q;
    assert x == x / m * m + x % m;
    assert d * m == x / m * m - q * m;
    Scale(d, m);
  }

  /** The loop's conditional subtraction is reduction modulo the block size. */
  lemma {:induction false} NextPosition(g: Geometry, major: nat, k: nat)
    requires WellFormed(g)
    ensures var size := g.majorCount * g.minorCount;
            var next := Position(g, major, k) + g.minorInc;
            Position(g, major, k + 1) == if next >= size then next - size else next
  {
    var size := g.majorCount * g.minorCount;
    var x := Start(g, major) + k * g.minorInc;
    assert Start(g, major) + (k + 1) * g.minorInc == x + g.minorInc;
    var r := x % size + g.minorInc;
    if r >= size {
      assert x + g.minorInc == (x / size + 1) * size + (r - size);
      if r - size < size { ModOf(x / size + 1, r - size, size); }
    } else {
      assert x + g.minorInc == (x / size) * size + r;
      ModOf(x / size, r, size);
    }
  }

  /** One column: the two running sums, then the two parity bytes. */
  method EccColumn(source: seq<bv8>, g: Geometry, major: nat, forward: seq<bv8>, backward: seq<bv8>)
    returns (first: bv8, second: bv8)
    requires AreTables(forward, backward)
    requires WellFormed(g) && g.majorCount * g.minorCount <= |source| && major < g.majorCount
    ensures IsCodeword(GF(), Column(source, g, major) + [first, second])
  {
    var size := g.majorCount * g.minorCount;
    var index := major / 2 * g.majorMult + major % 2;
    var eccA, eccB := 0, 0;
    ghost var column := Column(source, g, major);
    GfIsLawful();
    ZeroAlpha(GF());
    assert index == Position(g, major, 0) by { ModOf(0, index, size); }
    for k := 0 to g.minorCount
      invariant index == Position(g, major, k)
      invariant eccB == Sum(GF(), column, k)
      invariant eccA == Times2(WeightedSum(GF(), column, k))
    {
      var value := source[index];
      NextPosition(g, major, k);
      index := index + g.minorInc;
      if index >= size {
        index := index - size;
      }
      eccA := Xor(eccA, value);
      eccB := Xor(eccB, value);
      eccA := forward[eccA as int];
    }
    first := backward[Xor(forward[eccA as int], eccB) as int];
    second := Xor(first, eccB);
    ParityIsUnique(GF(), column, first, second);
  }

  method EccBlock(source: seq<bv8>, g: Geometry, forward: seq<bv8>, backward: seq<bv8>) returns (parity: seq<bv8>)
    requires AreTables(forward, backward)
    requires WellFormed(g) && g.majorCount * g.minorCount <= |source|
    ensures |parity| == 2 * g.majorCount
    ensures forall m: nat | m < g.majorCount ::
              IsCodeword(GF(), Column(source, g, m) + [parity[m], parity[m + g.majorCount]])
  {
    var output := new bv8[g.majorCount * 2](_ => 0);
    for major := 0 to g.majorCount
      invariant forall m: nat | m < major ::
                  IsCodeword(GF(), Column(source, g, m) + [output[m], output[m + g.majorCount]])
    {
      var first, second := EccColumn(source, g, major, forward, backward);
      output[major], output[major + g.majorCount] := first, second;
    }
    parity := output[..];
  }
}
