/** The field GF(2^8) generated by 0x11D, as the sector parity code uses it. */
module Gf256 {

  /** Addition of field elements. */
  function Xor(a: bv8, b: bv8): bv8 { a ^ b }

  /** Multiplication by the generator alpha: shift left; the bit that falls out adds 0x1D. */
  function Times2(v: bv8): bv8 {
    var t := v >> 7;
    (v << 1) ^ t ^ (t << 2) ^ (t << 3) ^ (t << 4)
  }

  /** alpha^n v */
  function Scaled(n: nat, v: bv8): bv8 {
    if n == 0 then v else Times2(Scaled(n - 1, v))
  }

  /** Division by 1 + alpha, whose inverse is alpha^7 + alpha^6 + alpha^5 + alpha^4 + alpha^2. */
  function DivideBy3(w: bv8): bv8 {
    Scaled(7, w) ^ Scaled(6, w) ^ Scaled(5, w) ^ Scaled(4, w) ^ Scaled(2, w)
  }

  lemma {:induction false} XorLaws(a: bv8, b: bv8, c: bv8)
    ensures Xor(a, b) == Xor(b, a) && Xor(Xor(a, b), c) == Xor(a, Xor(b, c))
    ensures Xor(a, 0) == a && Xor(a, a) == 0
  {}

  lemma {:induction false} Times2Linear(a: bv8, b: bv8)
    ensures Times2(Xor(a, b)) == Xor(Times2(a), Times2(b))
  {}

  lemma {:induction false} ScaledUp(v: bv8)
    ensures Scaled(1, v) == Times2(v) && Scaled(2, v) == Times2(Scaled(1, v)) && Scaled(3, v) == Times2(Scaled(2, v))
    ensures Scaled(4, v) == Times2(Scaled(3, v)) && Scaled(5, v) == Times2(Scaled(4, v))
    ensures Scaled(6, v) == Times2(Scaled(5, v)) && Scaled(7, v) == Times2(Scaled(6, v))
    ensures Scaled(8, v) == Times2(Scaled(7, v))
  {}

  lemma {:induction false} DivideBy3Divides(w: bv8)
    ensures Xor(Times2(DivideBy3(w)), DivideBy3(w)) == w
  {
    ScaledUp(w);
  }

  lemma {:induction false} NoUnitFactor(v: bv8, w: bv8)
    requires Xor(Times2(v), v) == Xor(Times2(w), w)
    ensures v == w
  {}

  /** Multiplication by alpha^8 in one step, since alpha^8 = alpha^4 + alpha^3 + alpha^2 + 1. */
  function Times256(v: bv8): bv8 {
    var h := (v >> 6) ^ (v >> 5) ^ (v >> 4);
    v ^ (v << 2) ^ (v << 3) ^ (v << 4) ^ h ^ (h << 2) ^ (h << 3) ^ (h << 4)
  }

  function Times16(v: bv8): bv8 {
    var h := v >> 4;
    (v << 4) ^ h ^ (h << 2) ^ (h << 3) ^ (h << 4)
  }

  lemma {:induction false} FourSteps(v: bv8)
    ensures Times2(Times2(Times2(Times2(v)))) == Times16(v)
  {}

  lemma {:induction false} EightSteps(v: bv8)
    ensures Times16(Times16(v)) == Times256(v)
  {}

  lemma {:induction false} JumpIsEightSteps(v: bv8)
    ensures Scaled(8, v) == Times256(v)
  {
    ScaledUp(v);
    FourSteps(v);
    FourSteps(Scaled(4, v));
    EightSteps(v);
  }

  /** The field of Annex A of ECMA-130: alpha^8 = alpha^4 + alpha^3 + alpha^2 + 1, and below that alpha is a shift. */
  lemma {:induction false} FieldPolynomial(v: bv8)
    ensures Scaled(8, v) == Xor(Xor(Scaled(4, v), Scaled(3, v)), Xor(Scaled(2, v), v))
    ensures v as int < 128 ==> Times2(v) as int == 2 * v as int
  {
    JumpIsEightSteps(v);
    ScaledUp(v);
  }

  lemma {:induction false} ScaledAdds(m: nat, n: nat, v: bv8)
    ensures Scaled(m + n, v) == Scaled(m, Scaled(n, v))
  {
    if m > 0 { ScaledAdds(m - 1, n, v); }
  }

  lemma {:induction false} Times2Injective(a: bv8, b: bv8)
    requires Times2(a) == Times2(b)
    ensures a == b
  {}

  /** Times256 applied q times. */
  function Jumped(q: nat, v: bv8): bv8 {
    if q == 0 then v else Times256(Jumped(q - 1, v))
  }

  lemma {:induction false} JumpedIsScaled(q: nat, v: bv8)
    ensures Jumped(q, v) == Scaled(8 * q, v)
  {
    if q > 0 {
      JumpedIsScaled(q - 1, v);
      JumpIsEightSteps(Jumped(q - 1, v));
      ScaledAdds(8, 8 * (q - 1), v);
    }
  }

  /** Some number of steps below eight leads from f to e. */
  predicate Reaches(f: bv8, e: bv8) {
    var f2 := Times2(Times2(f));
    var f4 := Times2(Times2(f2));
    f == e || Times2(f) == e || f2 == e || Times2(f2) == e ||
    f4 == e || Times2(f4) == e || Times2(Times2(f4)) == e || Times2(Times2(Times2(f4))) == e
  }

  lemma {:induction false} ScaledReaches(r: nat, f: bv8)
    requires r < 8
    ensures Reaches(f, Scaled(r, f))
  {
    ScaledUp(f);
  }

  lemma {:induction false} NoReturn0(e: bv8)
    ensures Reaches(Times2(e), e) ==> e == 0
  {}

  lemma {:induction false} NoReturn1(e: bv8)
    ensures Reaches(Times256(Times2(e)), e) ==> e == 0
  {}

  lemma {:induction false} NoReturn2(e: bv8)
    ensures Reaches(Times256(Times256(Times2(e))), e) ==> e == 0
  {}

  lemma {:induction false} NoReturn3(e: bv8)
    ensures Reaches(Times256(Times256(Times256(Times2(e)))), e) ==> e == 0
  {}

  lemma {:induction false} NoReturn4(e: bv8)
    ensures Reaches(Times256(Times256(Times256(Times256(Times2(e))))), e) ==> e == 0
  {}

  lemma {:induction false} NoReturn5(e: bv8)
    ensures Reaches(Times256(Times256(Times256(Times256(Times256(Times2(e)))))), e) ==> e == 0
  {}

  lemma {:induction false} NoReturn(q: nat, e: bv8)
    requires q <= 5 && Reaches(Jumped(q, Times2(e)), e)
    ensures e == 0
  {
    var f := Times2(e);
    assert Jumped(0, f) == f && Jumped(1, f) == Times256(Jumped(0, f));
    assert Jumped(2, f) == Times256(Jumped(1, f)) && Jumped(3, f) == Times256(Jumped(2, f));
    assert Jumped(4, f) == Times256(Jumped(3, f)) && Jumped(5, f) == Times256(Jumped(4, f));
    match q
    case 0 => NoReturn0(e);
    case 1 => NoReturn1(e);
    case 2 => NoReturn2(e);
    case 3 => NoReturn3(e);
    case 4 => NoReturn4(e);
    case _ => NoReturn5(e);
  }

  /** Below distance 49, alpha^d moves every nonzero element. */
  lemma {:induction false} PowersDistinct(d: nat, e: bv8)
    requires 0 < d <= 48
    requires Scaled(d, e) == e
    ensures e == 0
  {
    var q, r := (d - 1) / 8, (d - 1) % 8;
    ScaledAdds(d - 1, 1, e);
    assert Scaled(1, e) == Times2(e) by { ScaledUp(e); }
    ScaledAdds(r, 8 * q, Times2(e));
    JumpedIsScaled(q, Times2(e));
    ScaledReaches(r, Jumped(q, Times2(e)));
    NoReturn(q, e);
  }
}
