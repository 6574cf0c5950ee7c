/**
  The two parity equations of one RSPC codeword (Annex A of ECMA-130) and what
  they detect, over any field of characteristic two with a chosen generator.
 */
module RsCode {

  /** Addition, multiplication by the generator alpha, and division by 1 + alpha. */
  datatype Field<!G> = Field(zero: G, add: (G, G) -> G, alpha: G -> G, third: G -> G)

  // Each law is a predicate of its own, so that a proof names the instances it uses.

  ghost predicate Commutes<G>(F: Field<G>, a: G, b: G) { F.add(a, b) == F.add(b, a) }

  ghost predicate Associates<G>(F: Field<G>, a: G, b: G, c: G) { F.add(F.add(a, b), c) == F.add(a, F.add(b, c)) }

  ghost predicate SelfInverse<G>(F: Field<G>, a: G) { F.add(a, F.zero) == a && F.add(a, a) == F.zero }

  ghost predicate Distributes<G>(F: Field<G>, a: G, b: G) { F.alpha(F.add(a, b)) == F.add(F.alpha(a), F.alpha(b)) }

  ghost predicate Cancels<G>(F: Field<G>, a: G, b: G) { F.alpha(a) == F.alpha(b) ==> a == b }

  ghost predicate Divides<G>(F: Field<G>, v: G, w: G) { F.add(F.alpha(v), v) == w <==> v == F.third(w) }

  ghost predicate Lawful<G(!new)>(F: Field<G>) {
    && (forall a, b {:trigger Commutes(F, a, b)} :: Commutes(F, a, b))
    && (forall a, b, c {:trigger Associates(F, a, b, c)} :: Associates(F, a, b, c))
    && (forall a {:trigger SelfInverse(F, a)} :: SelfInverse(F, a))
    && (forall a, b {:trigger Distributes(F, a, b)} :: Distributes(F, a, b))
    && (forall a, b {:trigger Cancels(F, a, b)} :: Cancels(F, a, b))
    && (forall v, w {:trigger Divides(F, v, w)} :: Divides(F, v, w))
  }

  /** alpha^n v */
  function Scaled<G>(F: Field<G>, n: nat, v: G): G {
    if n == 0 then v else F.alpha(Scaled(F, n - 1, v))
  }

  /** No nonzero element returns to itself within the given number of multiplications by alpha. */
  ghost predicate Moves<G(!new)>(F: Field<G>, limit: nat) {
    forall d: nat, e {:trigger Scaled(F, d, e)} :: 0 < d < limit && Scaled(F, d, e) == e ==> e == F.zero
  }

  // ---- The two sums over the first n symbols of a word ----

  function Sum<G>(F: Field<G>, c: seq<G>, n: nat): G
    requires n <= |c|
  {
    if n == 0 then F.zero else F.add(Sum(F, c, n - 1), c[n - 1])
  }

  /** The sum weighted with descending powers of alpha, evaluated from the left. */
  function WeightedSum<G>(F: Field<G>, c: seq<G>, n: nat): G
    requires n <= |c|
  {
    if n == 0 then F.zero else F.add(F.alpha(WeightedSum(F, c, n - 1)), c[n - 1])
  }

  ghost predicate IsCodeword<G>(F: Field<G>, c: seq<G>) {
    Sum(F, c, |c|) == F.zero && WeightedSum(F, c, |c|) == F.zero
  }

  lemma {:induction false} SumsOfPrefix<G>(F: Field<G>, c: seq<G>, c': seq<G>, n: nat)
    requires n <= |c| && n <= |c'| && forall k | 0 <= k < n :: c[k] == c'[k]
    ensures Sum(F, c, n) == Sum(F, c', n) && WeightedSum(F, c, n) == WeightedSum(F, c', n)
  {
    if n > 0 { SumsOfPrefix(F, c, c', n - 1); }
  }

  /** The same sum as Annex A writes it: symbol k of n carries alpha^(n-1-k). */
  function PowerSum<G>(F: Field<G>, c: seq<G>): G {
    if c == [] then F.zero else F.add(Scaled(F, |c| - 1, c[0]), PowerSum(F, c[1..]))
  }

  lemma {:induction false} ZeroAlpha<G(!new)>(F: Field<G>)
    requires Lawful(F)
    ensures F.alpha(F.zero) == F.zero
  {
    var z := F.alpha(F.zero);
    assert SelfInverse(F, F.zero);
    assert Distributes(F, F.zero, F.zero);
    assert SelfInverse(F, z);
  }

  lemma {:induction false} PowerSumAppend<G(!new)>(F: Field<G>, c: seq<G>, x: G)
    requires Lawful(F)
    ensures PowerSum(F, c + [x]) == F.add(F.alpha(PowerSum(F, c)), x)
  {
    if c == [] {
      assert (c + [x])[1..] == [];
      ZeroAlpha(F);
      assert Commutes(F, x, F.zero);
    } else {
      var s, w := Scaled(F, |c| - 1, c[0]), PowerSum(F, c[1..]);
      PowerSumAppend(F, c[1..], x);
      assert (c + [x])[1..] == c[1..] + [x];
      assert Distributes(F, s, w);
      assert Associates(F, F.alpha(s), F.alpha(w), x);
    }
  }

  lemma {:induction false} WeightedIsPowerSum<G(!new)>(F: Field<G>, c: seq<G>)
    requires Lawful(F)
    ensures WeightedSum(F, c, |c|) == PowerSum(F, c)
  {
    if c != [] {
      var i := c[..|c| - 1];
      WeightedIsPowerSum(F, i);
      SumsOfPrefix(F, c, i, |i|);
      PowerSumAppend(F, i, c[|c| - 1]);
      assert i + [c[|c| - 1]] == c;
    }
  }

  // ---- The two parity symbols ----

  function FirstParity<G>(F: Field<G>, d: seq<G>): G {
    F.third(F.add(F.alpha(F.alpha(WeightedSum(F, d, |d|))), Sum(F, d, |d|)))
  }

  function SecondParity<G>(F: Field<G>, d: seq<G>): G {
    F.add(FirstParity(F, d), Sum(F, d, |d|))
  }

  lemma {:induction false} ZeroSum<G(!new)>(F: Field<G>, a: G, b: G)
    requires Lawful(F)
    ensures F.add(a, b) == F.zero <==> a == b
  {
    assert SelfInverse(F, a) && SelfInverse(F, b);
    assert Associates(F, a, b, b);
    assert Commutes(F, b, F.zero);
  }

  lemma {:induction false} Exchange<G(!new)>(F: Field<G>, a: G, b: G, c: G, d: G)
    requires Lawful(F)
    ensures F.add(F.add(a, b), F.add(c, d)) == F.add(F.add(a, c), F.add(b, d))
  {
    assert Associates(F, a, b, F.add(c, d)) && Associates(F, a, c, F.add(b, d));
    assert Associates(F, b, c, d) && Associates(F, c, b, d) && Commutes(F, b, c);
  }

  /** The data determine exactly one pair of parity symbols that completes them to a codeword. */
  lemma {:induction false} ParityIsUnique<G(!new)>(F: Field<G>, d: seq<G>, p: G, q: G)
    requires Lawful(F)
    ensures IsCodeword(F, d + [p, q]) <==> p == FirstParity(F, d) && q == SecondParity(F, d)
  {
    var c := d + [p, q];
    SumsOfPrefix(F, c, d, |d|);
    var s, w := Sum(F, d, |d|), WeightedSum(F, d, |d|);
    var t := F.alpha(F.alpha(w));
    assert Sum(F, c, |d| + 1) == F.add(s, p) && WeightedSum(F, c, |d| + 1) == F.add(F.alpha(w), p);
    assert Sum(F, c, |c|) == F.add(F.add(s, p), q);
    assert WeightedSum(F, c, |c|) == F.add(F.alpha(F.add(F.alpha(w), p)), q);
    assert Distributes(F, F.alpha(w), p);
    ZeroSum(F, F.add(s, p), q);
    ZeroSum(F, F.add(t, F.alpha(p)), q);
    assert Commutes(F, s, p);
    ZeroSum(F, F.add(t, F.alpha(p)), F.add(s, p));
    Exchange(F, t, F.alpha(p), s, p);
    ZeroSum(F, F.add(t, s), F.add(F.alpha(p), p));
    assert Divides(F, p, F.add(t, s));
  }

  // ---- Minimum distance three ----

  lemma {:induction false} ScaledAdds<G(!new)>(F: Field<G>, m: nat, n: nat, v: G)
    ensures Scaled(F, m + n, v) == Scaled(F, m, Scaled(F, n, v))
  {
    if m > 0 { ScaledAdds(F, m - 1, n, v); }
  }

  lemma {:induction false} ScaledCancels<G(!new)>(F: Field<G>, n: nat, a: G, b: G)
    requires Lawful(F) && Scaled(F, n, a) == Scaled(F, n, b)
    ensures a == b
  {
    if n > 0 {
      assert Cancels(F, Scaled(F, n - 1, a), Scaled(F, n - 1, b));
      ScaledCancels(F, n - 1, a, b);
    }
  }

  lemma {:induction false} Absorb<G(!new)>(F: Field<G>, x: G, c: G)
    requires Lawful(F)
    ensures F.add(x, F.add(c, c)) == x
    ensures F.add(F.add(c, c), x) == x
  {
    assert SelfInverse(F, c) && SelfInverse(F, x) && Commutes(F, F.zero, x);
  }

  /** How the differences of the sums extend by one symbol. */
  lemma {:induction false} DifferenceStep<G(!new)>(F: Field<G>, c: seq<G>, c': seq<G>, n: nat)
    requires Lawful(F) && n < |c| && n < |c'|
    ensures F.add(Sum(F, c, n + 1), Sum(F, c', n + 1)) == F.add(F.add(Sum(F, c, n), Sum(F, c', n)), F.add(c[n], c'[n]))
    ensures F.add(WeightedSum(F, c, n + 1), WeightedSum(F, c', n + 1))
         == F.add(F.alpha(F.add(WeightedSum(F, c, n), WeightedSum(F, c', n))), F.add(c[n], c'[n]))
  {
    var w, w' := WeightedSum(F, c, n), WeightedSum(F, c', n);
    Exchange(F, Sum(F, c, n), c[n], Sum(F, c', n), c'[n]);
    Exchange(F, F.alpha(w), c[n], F.alpha(w'), c'[n]);
    assert Distributes(F, w, w');
  }

  lemma {:induction false} SharedSymbol<G(!new)>(F: Field<G>, c: seq<G>, c': seq<G>, n: nat, x: G, y: G)
    requires Lawful(F) && n < |c| && n < |c'| && c[n] == c'[n]
    requires F.add(Sum(F, c, n), Sum(F, c', n)) == x
    requires F.add(WeightedSum(F, c, n), WeightedSum(F, c', n)) == y
    ensures F.add(Sum(F, c, n + 1), Sum(F, c', n + 1)) == x
    ensures F.add(WeightedSum(F, c, n + 1), WeightedSum(F, c', n + 1)) == F.alpha(y)
  {
    DifferenceStep(F, c, c', n);
    Absorb(F, x, c[n]);
    Absorb(F, F.alpha(y), c[n]);
  }

  lemma {:induction false} SharedPrefix<G(!new)>(F: Field<G>, c: seq<G>, c': seq<G>, n: nat)
    requires Lawful(F) && n < |c| && n < |c'| && forall k | 0 <= k < n :: c[k] == c'[k]
    ensures F.add(Sum(F, c, n + 1), Sum(F, c', n + 1)) == F.add(c[n], c'[n])
    ensures F.add(WeightedSum(F, c, n + 1), WeightedSum(F, c', n + 1)) == F.add(c[n], c'[n])
  {
    DifferenceStep(F, c, c', n);
    SumsOfPrefix(F, c, c', n);
    var w := WeightedSum(F, c, n);
    assert Distributes(F, w, w);
    Absorb(F, F.add(c[n], c'[n]), Sum(F, c, n));
    Absorb(F, F.add(c[n], c'[n]), F.alpha(w));
  }

  /** Where two words agree outside position j, their sums differ by what the symbols at j differ. */
  lemma {:induction false} OneDifference<G(!new)>(F: Field<G>, c: seq<G>, c': seq<G>, j: nat, n: nat)
    requires Lawful(F) && j < n <= |c| && n <= |c'|
    requires forall k | 0 <= k < n && k != j :: c[k] == c'[k]
    ensures F.add(Sum(F, c, n), Sum(F, c', n)) == F.add(c[j], c'[j])
    ensures F.add(WeightedSum(F, c, n), WeightedSum(F, c', n)) == Scaled(F, n - 1 - j, F.add(c[j], c'[j]))
  {
    var a := F.add(c[j], c'[j]);
    if j == n - 1 {
      SharedPrefix(F, c, c', j);
    } else {
      OneDifference(F, c, c', j, n - 1);
      SharedSymbol(F, c, c', n - 1, a, Scaled(F, n - 2 - j, a));
    }
  }

  lemma {:induction false} TwoDifferencesStart<G(!new)>(F: Field<G>, c: seq<G>, c': seq<G>, i: nat, j: nat)
    requires Lawful(F) && i < j < |c| && j < |c'|
    requires forall k | 0 <= k < j && k != i :: c[k] == c'[k]
    ensures F.add(Sum(F, c, j + 1), Sum(F, c', j + 1)) == F.add(F.add(c[i], c'[i]), F.add(c[j], c'[j]))
    ensures F.add(WeightedSum(F, c, j + 1), WeightedSum(F, c', j + 1))
         == F.add(Scaled(F, j - i, F.add(c[i], c'[i])), F.add(c[j], c'[j]))
  {
    OneDifference(F, c, c', i, j);
    DifferenceStep(F, c, c', j);
  }

  lemma {:induction false} TwoDifferences<G(!new)>(F: Field<G>, c: seq<G>, c': seq<G>, i: nat, j: nat, n: nat)
    requires Lawful(F) && i < j < n <= |c| && n <= |c'|
    requires forall k | 0 <= k < n && k != i && k != j :: c[k] == c'[k]
    ensures F.add(Sum(F, c, n), Sum(F, c', n)) == F.add(F.add(c[i], c'[i]), F.add(c[j], c'[j]))
    ensures F.add(WeightedSum(F, c, n), WeightedSum(F, c', n))
         == F.add(Scaled(F, n - 1 - i, F.add(c[i], c'[i])), Scaled(F, n - 1 - j, F.add(c[j], c'[j])))
  {
    if j == n - 1 {
      TwoDifferencesStart(F, c, c', i, j);
    } else {
      var a, b := F.add(c[i], c'[i]), F.add(c[j], c'[j]);
      var u, v := Scaled(F, n - 2 - i, a), Scaled(F, n - 2 - j, b);
      TwoDifferences(F, c, c', i, j, n - 1);
      SharedSymbol(F, c, c', n - 1, F.add(a, b), F.add(u, v));
      assert Distributes(F, u, v);
    }
  }

  lemma {:induction false} NoTwoDifferences<G(!new)>(F: Field<G>, c: seq<G>, c': seq<G>, i: nat, j: nat)
    requires Lawful(F) && Moves(F, |c|)
    requires |c| == |c'| && i < j < |c|
    requires IsCodeword(F, c) && IsCodeword(F, c')
    requires forall k | 0 <= k < |c| && k != i && k != j :: c[k] == c'[k]
    ensures c == c'
  {
    TwoDifferences(F, c, c', i, j, |c|);
    var a, b, n := F.add(c[i], c'[i]), F.add(c[j], c'[j]), |c| - 1 - j;
    assert SelfInverse(F, F.zero);
    ZeroSum(F, a, b);
    ZeroSum(F, Scaled(F, |c| - 1 - i, a), Scaled(F, n, b));
    ScaledAdds(F, n, j - i, a);
    ScaledCancels(F, n, Scaled(F, j - i, a), a);
    ZeroSum(F, c[i], c'[i]);
    ZeroSum(F, c[j], c'[j]);
  }

  /** Distinct codewords of one length differ in at least three places. */
  lemma {:induction false} MinimumDistance<G(!new)>(F: Field<G>, c: seq<G>, c': seq<G>) returns (i: nat, j: nat, k: nat)
    requires Lawful(F) && Moves(F, |c|)
    requires 2 <= |c| == |c'| && c != c'
    requires IsCodeword(F, c) && IsCodeword(F, c')
    ensures i < |c| && j < |c| && k < |c| && i != j && i != k && j != k
    ensures c[i] != c'[i] && c[j] != c'[j] && c[k] != c'[k]
  {
    i :| 0 <= i < |c| && c[i] != c'[i];
    if forall m | 0 <= m < |c| && m != i :: c[m] == c'[m] {
      if i == 0 { NoTwoDifferences(F, c, c', 0, 1); } else { NoTwoDifferences(F, c, c', 0, i); }
    }
    j :| 0 <= j < |c| && j != i && c[j] != c'[j];
    if forall m | 0 <= m < |c| && m != i && m != j :: c[m] == c'[m] {
      if i < j { NoTwoDifferences(F, c, c', i, j); } else { NoTwoDifferences(F, c, c', j, i); }
    }
    k :| 0 <= k < |c| && k != i && k != j && c[k] != c'[k];
  }
}
