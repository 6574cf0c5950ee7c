/** The error detection code of a sector (section 14.3 of ECMA-130): its table, its fold, and what it detects. */
module Edc {

  // Named word operations keep the arguments below algebraic.

  function Xor(a: bv32, b: bv32): bv32 { a ^ b }

  function Half(v: bv32): bv32 { v >> 1 }

  function LowBit(v: bv32): bv32 { v & 1 }

  function UpperBytes(v: bv32): bv32 { v >> 8 }

  function LowByte(v: bv32): bv32 { v & 0xFF }

  function Join(low: bv8, upper: bv32): bv32 { (low as bv32) | (upper << 8) }

  /** One shift of the remainder register, subtracting the reflected generator when a one falls out. */
  function Shift(r: bv32): bv32 {
    if LowBit(r) == 1 then Xor(Half(r), 0xD8018001) else Half(r)
  }

  function Shifts(n: nat, r: bv32): bv32 {
    if n == 0 then r else Shifts(n - 1, Shift(r))
  }

  /** The remainder after one more message bit. */
  function FeedBit(r: bv32, bit: bv32): bv32 {
    Shift(Xor(r, bit))
  }

  /** The remainder after the n low bits of v, least significant bit first. */
  function FeedBits(n: nat, r: bv32, v: bv32): bv32 {
    if n == 0 then r else FeedBits(n - 1, FeedBit(r, LowBit(v)), Half(v))
  }

  function FeedByte(r: bv32, b: bv8): bv32 {
    FeedBits(8, r, b as bv32)
  }

  /** The reference: the bit-serial remainder of the message, continuing from register r. */
  function Remainder(r: bv32, data: seq<bv8>): bv32
    decreases |data|
  {
    if data == [] then r else Remainder(FeedByte(r, data[0]), data[1..])
  }

  // ---- The generator polynomial ----

  /** The product of section 14.3 of ECMA-130, (x^16 + x^15 + x^2 + 1)(x^16 + x^2 + x + 1), without its leading x^32. */
  function GeneratorTail(): bv32 {
    var g: bv32 := (1 << 16) | (1 << 2) | (1 << 1) | 1;
    (g << 16) ^ (g << 15) ^ (g << 2) ^ g
  }

  /** The polynomial a register stands for: its lowest bit is the coefficient of x^31. */
  function Reversed(r: bv32): bv32 {
    var a := ((r >> 1) & 0x55555555) | ((r & 0x55555555) << 1);
    var b := ((a >> 2) & 0x33333333) | ((a & 0x33333333) << 2);
    var c := ((b >> 4) & 0x0F0F0F0F) | ((b & 0x0F0F0F0F) << 4);
    var d := ((c >> 8) & 0x00FF00FF) | ((c & 0x00FF00FF) << 8);
    (d >> 16) | (d << 16)
  }

  /** Multiplication by x; an x^32 is replaced by the generator's tail. */
  function TimesX(p: bv32, tail: bv32): bv32 {
    if p >> 31 == 1 then Xor(p << 1, tail) else p << 1
  }

  lemma {:induction false} ReversedXor(a: bv32, b: bv32)
    ensures Reversed(Xor(a, b)) == Xor(Reversed(a), Reversed(b))
  {}

  lemma {:induction false} ReversedHalf(r: bv32)
    ensures Reversed(Half(r)) == Reversed(r) << 1 && (LowBit(r) == 1 <==> Reversed(r) >> 31 == 1)
  {}

  lemma {:induction false} TailReversed()
    ensures GeneratorTail() == Reversed(0xD8018001)
  {}

  lemma {:induction false} ShiftUnder(p: bv32, half: bv32, sum: bv32, shifted: bv32, r: bv32, tail: bv32)
    requires half == p << 1 && (LowBit(r) == 1 <==> p >> 31 == 1) && sum == Xor(half, tail)
    requires shifted == if LowBit(r) == 1 then sum else half
    ensures shifted == TimesX(p, tail)
  {}

  /** One shift of the register is multiplication by x modulo the generator. */
  lemma {:induction false} ShiftMultiplies(r: bv32)
    ensures Reversed(Shift(r)) == TimesX(Reversed(r), GeneratorTail())
  {
    ReversedHalf(r);
    ReversedXor(Half(r), 0xD8018001);
    TailReversed();
    ShiftUnder(Reversed(r), Reversed(Half(r)), Reversed(Xor(Half(r), 0xD8018001)), Reversed(Shift(r)), r, GeneratorTail());
  }

  // ---- The register is linear and loses nothing ----

  lemma {:induction false} XorRaw(x: bv32, y: bv32, k: bv32)
    ensures (x ^ k) ^ (y ^ k) == x ^ y && (x ^ k) ^ y == (x ^ y) ^ k && x ^ (y ^ k) == (x ^ y) ^ k
    ensures (x ^ y) >> 1 == (x >> 1) ^ (y >> 1) && (x ^ y) >> 8 == (x >> 8) ^ (y >> 8)
  {}

  lemma {:induction false} XorBasics(x: bv32, y: bv32)
    ensures Xor(x, y) == Xor(y, x) && Xor(x, x) == 0 && Xor(x, 0) == x
    ensures Xor(x, y) == 0 ==> x == y
  {}

  lemma {:induction false} XorZero(x: bv32)
    ensures Xor(0, x) == x
  {}

  lemma {:induction false} XorCommutes(x: bv32, y: bv32)
    ensures Xor(x, y) == Xor(y, x)
  {}

  lemma {:induction false} XorSwap(x: bv32, k: bv32, y: bv32)
    ensures Xor(Xor(x, k), y) == Xor(Xor(x, y), k)
  {
    calc { Xor(Xor(x, k), y); Xor(x ^ k, y); (x ^ k) ^ y; { XorRaw(x, y, k); } (x ^ y) ^ k; Xor(x ^ y, k); Xor(Xor(x, y), k); }
  }

  lemma {:induction false} XorAssociates(x: bv32, y: bv32, k: bv32)
    ensures Xor(x, Xor(y, k)) == Xor(Xor(x, y), k)
  {
    calc { Xor(x, Xor(y, k)); Xor(x, y ^ k); x ^ (y ^ k); { XorRaw(x, y, k); } (x ^ y) ^ k; Xor(x ^ y, k); Xor(Xor(x, y), k); }
  }

  lemma {:induction false} XorDrops(x: bv32, y: bv32, k: bv32)
    ensures Xor(Xor(x, k), Xor(y, k)) == Xor(x, y)
  {
    calc { Xor(Xor(x, k), Xor(y, k)); Xor(x ^ k, y ^ k); (x ^ k) ^ (y ^ k); { XorRaw(x, y, k); } x ^ y; Xor(x, y); }
  }

  lemma {:induction false} XorCancels(x: bv32, y: bv32, k: bv32)
    requires Xor(k, x) == Xor(k, y)
    ensures x == y
  {
    XorBasics(k, x);
    XorBasics(k, y);
    XorBasics(Xor(x, k), Xor(y, k));
    XorDrops(x, y, k);
    XorBasics(x, y);
  }

  lemma {:induction false} XorShiftsRight(x: bv32, y: bv32)
    ensures Half(Xor(x, y)) == Xor(Half(x), Half(y)) && UpperBytes(Xor(x, y)) == Xor(UpperBytes(x), UpperBytes(y))
  {
    calc { Half(Xor(x, y)); (x ^ y) >> 1; { XorRaw(x, y, x); } (x >> 1) ^ (y >> 1); Xor(x >> 1, y >> 1); Xor(Half(x), Half(y)); }
    calc { UpperBytes(Xor(x, y)); (x ^ y) >> 8; { XorRaw(x, y, x); } (x >> 8) ^ (y >> 8); Xor(x >> 8, y >> 8); Xor(UpperBytes(x), UpperBytes(y)); }
  }

  lemma {:induction false} LowBitOfXor(x: bv32, y: bv32)
    ensures LowBit(Xor(x, y)) == 1 <==> (LowBit(x) == 1) != (LowBit(y) == 1)
  {}

  lemma {:induction false} ShiftLinear(a: bv32, b: bv32)
    ensures Shift(Xor(a, b)) == Xor(Shift(a), Shift(b))
  {
    XorShiftsRight(a, b);
    LowBitOfXor(a, b);
    XorSwap(Half(a), 0xD8018001, Half(b));
    XorAssociates(Half(a), Half(b), 0xD8018001);
    XorDrops(Half(a), Half(b), 0xD8018001);
  }

  lemma {:induction false} ShiftInjective(a: bv32, b: bv32)
    requires Shift(a) == Shift(b)
    ensures a == b
  {}

  lemma {:induction false} ShiftsLinear(n: nat, a: bv32, b: bv32)
    ensures Shifts(n, Xor(a, b)) == Xor(Shifts(n, a), Shifts(n, b))
  {
    if n > 0 {
      ShiftLinear(a, b);
      ShiftsLinear(n - 1, Shift(a), Shift(b));
    }
  }

  lemma {:induction false} ShiftsInjective(n: nat, a: bv32, b: bv32)
    requires Shifts(n, a) == Shifts(n, b)
    ensures a == b
  {
    if n > 0 {
      ShiftsInjective(n - 1, Shift(a), Shift(b));
      ShiftInjective(a, b);
    }
  }

  lemma {:induction false} ShiftsAdd(m: nat, n: nat, r: bv32)
    ensures Shifts(m + n, r) == Shifts(n, Shifts(m, r))
  {
    if m > 0 { ShiftsAdd(m - 1, n, Shift(r)); }
  }

  // ---- From bits to bytes to words ----

  /** Message bits may be added to the register before the shifts instead of between them. */
  lemma {:induction false} PeelBit(r: bv32, v: bv32)
    ensures Shift(Xor(r, v)) == Xor(FeedBit(r, LowBit(v)), Half(v))
  {
    var rest := v & 0xFFFFFFFE;
    SplitBit(v);
    XorAssociates(r, LowBit(v), rest);
    ShiftLinear(Xor(r, LowBit(v)), rest);
  }

  lemma {:induction false} SplitBit(v: bv32)
    ensures v == Xor(LowBit(v), v & 0xFFFFFFFE) && Shift(v & 0xFFFFFFFE) == Half(v)
  {}

  predicate Fits(n: nat, v: bv32) {
    if n == 0 then v == 0 else Fits(n - 1, Half(v))
  }

  lemma {:induction false} FeedBitsAtOnce(n: nat, r: bv32, v: bv32)
    requires Fits(n, v)
    ensures FeedBits(n, r, v) == Shifts(n, Xor(r, v))
  {
    if n == 0 {
      XorBasics(r, v);
    } else {
      PeelBit(r, v);
      FeedBitsAtOnce(n - 1, FeedBit(r, LowBit(v)), Half(v));
    }
  }

  lemma {:induction false} FitsStep(n: nat, v: bv32)
    requires Fits(n, Half(v))
    ensures Fits(n + 1, v)
  {}

  function Half4(v: bv32): bv32 { v >> 4 }

  lemma {:induction false} FourHalves(v: bv32)
    ensures Half(Half(Half(Half(v)))) == Half4(v)
  {}

  lemma {:induction false} FitsFour(n: nat, v: bv32)
    requires Fits(n, Half4(v))
    ensures Fits(n + 4, v)
  {
    FourHalves(v);
    FitsStep(n, Half(Half(Half(v))));
    FitsStep(n + 1, Half(Half(v)));
    FitsStep(n + 2, Half(v));
    FitsStep(n + 3, v);
  }

  lemma {:induction false} ByteFits(b: bv8)
    ensures Fits(8, b as bv32)
  {
    ByteHalves(b);
    FitsFour(0, Half4(b as bv32));
    FitsFour(4, b as bv32);
  }

  lemma {:induction false} ByteHalves(b: bv8)
    ensures Half4(Half4(b as bv32)) == 0
  {}

  predicate LowZero(n: nat, v: bv32) {
    n == 0 || (LowBit(v) == 0 && LowZero(n - 1, Half(v)))
  }

  function Down(n: nat, v: bv32): bv32 {
    if n == 0 then v else Down(n - 1, Half(v))
  }

  /** Zero low bits leave the register by shifting alone. */
  lemma {:induction false} ShiftsOfHigh(n: nat, v: bv32)
    requires LowZero(n, v)
    ensures Shifts(n, v) == Down(n, v)
  {
    if n > 0 { ShiftsOfHigh(n - 1, Half(v)); }
  }

  lemma {:induction false} LowZeroStep(n: nat, v: bv32)
    requires LowBit(v) == 0 && LowZero(n, Half(v))
    ensures LowZero(n + 1, v) && Down(n + 1, v) == Down(n, Half(v))
  {}

  lemma {:induction false} Nibble(n: nat, v: bv32)
    requires v & 0xF == 0 && LowZero(n, Half4(v))
    ensures LowZero(n + 4, v) && Down(n + 4, v) == Down(n, Half4(v))
  {
    NibbleBits(v);
    FourHalves(v);
    LowZeroStep(n, Half(Half(Half(v))));
    LowZeroStep(n + 1, Half(Half(v)));
    LowZeroStep(n + 2, Half(v));
    LowZeroStep(n + 3, v);
  }

  lemma {:induction false} NibbleBits(v: bv32)
    requires v & 0xF == 0
    ensures LowBit(v) == 0 && LowBit(Half(v)) == 0 && LowBit(Half(Half(v))) == 0 && LowBit(Half(Half(Half(v)))) == 0
  {}

  lemma {:induction false} SplitByte(v: bv32)
    ensures v == Xor(LowByte(v), v & 0xFFFFFF00)
  {}

  lemma {:induction false} UpperHalves(v: bv32)
    ensures (v & 0xFFFFFF00) & 0xF == 0 && Half4(v & 0xFFFFFF00) & 0xF == 0
    ensures Half4(Half4(v & 0xFFFFFF00)) == UpperBytes(v)
  {}

  /** The low byte of a word may be fed alone; the other bytes move down one place. */
  lemma {:induction false} PeelByte(r: bv32, v: bv32)
    ensures Shifts(8, Xor(r, v)) == Xor(Shifts(8, Xor(r, LowByte(v))), UpperBytes(v))
  {
    var low, rest := LowByte(v), v & 0xFFFFFF00;
    SplitByte(v);
    UpperHalves(v);
    XorAssociates(r, low, rest);
    ShiftsLinear(8, Xor(r, low), rest);
    Nibble(0, Half4(rest));
    Nibble(4, rest);
    ShiftsOfHigh(8, rest);
  }

  // ---- The table and the fold ----

  function Entry(index: bv8): bv32 {
    Shifts(8, index as bv32)
  }

  function EdcTable(): (table: seq<bv32>)
    ensures |table| == 256
  {
    seq(256, i requires 0 <= i < 256 => Entry(i as bv8))
  }

  method TableEntry(index: bv8) returns (entry: bv32)
    ensures entry == Entry(index)
  {
    entry := index as bv32;
    for k := 0 to 8
      invariant Shifts(8 - k, entry) == Entry(index)
    {
      entry := Shift(entry);
    }
  }

  method BuildEdcTable() returns (table: seq<bv32>)
    ensures table == EdcTable()
  {
    table := [];
    for value := 0 to 256
      invariant |table| == value
      invariant forall i | 0 <= i < value :: table[i] == EdcTable()[i]
    {
      var entry := TableEntry(value as bv8);
      table := table + [entry];
    }
  }

  function Index(r: bv32, v: bv8): bv8 {
    LowByte(r) as bv8 ^ v
  }

  lemma {:induction false} IndexIsLowByte(r: bv32, v: bv8)
    ensures Index(r, v) as bv32 == LowByte(Xor(r, v as bv32))
    ensures UpperBytes(Xor(r, v as bv32)) == UpperBytes(r)
  {}

  lemma {:induction false} Lookup(index: bv8)
    ensures EdcTable()[index as int] == Entry(index)
  {
    assert (index as int) as bv8 == index;
  }

  lemma {:induction false} PeelFromZero(x: bv32)
    ensures Shifts(8, x) == Xor(UpperBytes(x), Shifts(8, LowByte(x)))
  {
    PeelByte(0, x);
    XorZero(x);
    XorZero(LowByte(x));
    XorCommutes(UpperBytes(x), Shifts(8, LowByte(x)));
  }

  lemma {:induction false} TableStepWord(r: bv32, w: bv32, index: bv8)
    requires Fits(8, w) && index as bv32 == LowByte(Xor(r, w)) && UpperBytes(Xor(r, w)) == UpperBytes(r)
    ensures Xor(UpperBytes(r), Entry(index)) == FeedBits(8, r, w)
  {
    FeedBitsAtOnce(8, r, w);
    PeelFromZero(Xor(r, w));
  }

  lemma {:induction false} TableStep(r: bv32, v: bv8)
    ensures Xor(UpperBytes(r), EdcTable()[Index(r, v) as int]) == FeedByte(r, v)
  {
    ByteFits(v);
    IndexIsLowByte(r, v);
    Lookup(Index(r, v));
    TableStepWord(r, v as bv32, Index(r, v));
  }

  /** The table-driven fold computes the bit-serial remainder of every byte string. */
  method CalculateEdc(data: seq<bv8>, table: seq<bv32>) returns (result: bv32)
    requires table == EdcTable()
    ensures result == Remainder(0, data)
  {
    result := 0;
    for i := 0 to |data|
      invariant Remainder(result, data[i..]) == Remainder(0, data)
    {
      TableStep(result, data[i]);
      assert data[i..][0] == data[i] && data[i..][1..] == data[i + 1..];
      result := Xor(UpperBytes(result), table[Index(result, data[i]) as int]);
    }
  }

  // ---- What the code detects ----

  lemma {:induction false} RemainderAppend(r: bv32, a: seq<bv8>, b: seq<bv8>)
    ensures Remainder(r, a + b) == Remainder(Remainder(r, a), b)
    decreases |a|
  {
    if a == [] {
      assert a + b == b;
    } else {
      assert (a + b)[0] == a[0] && (a + b)[1..] == a[1..] + b;
      RemainderAppend(FeedByte(r, a[0]), a[1..], b);
    }
  }

  function XorBytes(a: seq<bv8>, b: seq<bv8>): (c: seq<bv8>)
    requires |a| == |b|
    ensures |c| == |a|
  {
    seq(|a|, i requires 0 <= i < |a| => XorByte(a[i], b[i]))
  }

  function XorByte(x: bv8, y: bv8): bv8 { x ^ y }

  lemma {:induction false} WidenXor(x: bv8, y: bv8)
    ensures XorByte(x, y) as bv32 == Xor(x as bv32, y as bv32)
  {}

  lemma {:induction false} Exchange(a: bv32, b: bv32, c: bv32, d: bv32)
    ensures Xor(Xor(a, b), Xor(c, d)) == Xor(Xor(a, c), Xor(b, d))
  {
    XorAssociates(Xor(a, b), c, d);
    XorSwap(a, b, c);
    XorAssociates(Xor(a, c), b, d);
  }

  lemma {:induction false} FeedLinear(r: bv32, s: bv32, x: bv8, y: bv8)
    ensures FeedByte(Xor(r, s), XorByte(x, y)) == Xor(FeedByte(r, x), FeedByte(s, y))
  {
    ByteFits(x);
    ByteFits(y);
    ByteFits(XorByte(x, y));
    FeedBitsAtOnce(8, r, x as bv32);
    FeedBitsAtOnce(8, s, y as bv32);
    FeedBitsAtOnce(8, Xor(r, s), XorByte(x, y) as bv32);
    WidenXor(x, y);
    Exchange(r, s, x as bv32, y as bv32);
    ShiftsLinear(8, Xor(r, x as bv32), Xor(s, y as bv32));
  }

  /** On messages of one length the code is linear. */
  lemma {:induction false} Linear(r: bv32, s: bv32, a: seq<bv8>, b: seq<bv8>)
    requires |a| == |b|
    ensures Remainder(Xor(r, s), XorBytes(a, b)) == Xor(Remainder(r, a), Remainder(s, b))
    decreases |a|
  {
    if a != [] {
      FeedLinear(r, s, a[0], b[0]);
      Linear(FeedByte(r, a[0]), FeedByte(s, b[0]), a[1..], b[1..]);
      assert XorBytes(a, b)[1..] == XorBytes(a[1..], b[1..]);
    }
  }

  /** The little-endian value of at most four bytes. */
  function Word(t: seq<bv8>): bv32
    decreases |t|
  {
    if t == [] then 0 else Join(t[0], Word(t[1..]))
  }

  predicate Below(n: nat, w: bv32) {
    if n == 0 then w == 0 else if n == 1 then w >> 8 == 0 else if n == 2 then w >> 16 == 0 else n > 3 || w >> 24 == 0
  }

  lemma {:induction false} JoinParts(b: bv8, w: bv32)
    requires Below(3, w)
    ensures LowByte(Join(b, w)) == b as bv32 && UpperBytes(Join(b, w)) == w
  {}

  lemma {:induction false} JoinGrows(n: nat, b: bv8, w: bv32)
    requires Below(n, w)
    ensures Below(n + 1, Join(b, w))
  {}

  lemma {:induction false} BelowGrows(n: nat, w: bv32)
    requires n <= 3 && Below(n, w)
    ensures Below(3, w)
  {}

  lemma {:induction false} WordRange(t: seq<bv8>)
    ensures Below(|t|, Word(t))
    ensures |t| <= 3 ==> Below(3, Word(t))
    decreases |t|
  {
    if t != [] {
      WordRange(t[1..]);
      JoinGrows(|t| - 1, t[0], Word(t[1..]));
    }
    if |t| <= 3 { BelowGrows(|t|, Word(t)); }
  }

  lemma {:induction false} Narrow(b: bv8, c: bv8)
    requires b as bv32 == c as bv32
    ensures b == c
  {}

  lemma {:induction false} WordInjective(t: seq<bv8>, u: seq<bv8>)
    requires |t| == |u| <= 4 && Word(t) == Word(u)
    ensures t == u
    decreases |t|
  {
    if t != [] {
      WordRange(t[1..]);
      WordRange(u[1..]);
      JoinParts(t[0], Word(t[1..]));
      JoinParts(u[0], Word(u[1..]));
      Narrow(t[0], u[0]);
      WordInjective(t[1..], u[1..]);
    }
  }

  /** The little-endian bytes of a word. */
  function FirstByte(w: bv32): bv8 { LowByte(w) as bv8 }

  function WordBytes(w: bv32): (t: seq<bv8>)
    ensures |t| == 4
  {
    var w1 := UpperBytes(w);
    var w2 := UpperBytes(w1);
    [FirstByte(w), FirstByte(w1), FirstByte(w2), FirstByte(UpperBytes(w2))]
  }

  lemma {:induction false} Rejoined(w: bv32)
    ensures Join(FirstByte(w), UpperBytes(w)) == w
  {}

  lemma {:induction false} FourBytes(w: bv32)
    ensures UpperBytes(UpperBytes(UpperBytes(UpperBytes(w)))) == 0
  {}

  lemma {:induction false} WordOfBytes(w: bv32)
    ensures Word(WordBytes(w)) == w
  {
    var t, w1 := WordBytes(w), UpperBytes(w);
    var w2 := UpperBytes(w1);
    var w3 := UpperBytes(w2);
    FourBytes(w);
    Rejoined(w);
    Rejoined(w1);
    Rejoined(w2);
    Rejoined(w3);
    assert Word(t[3..]) == w3;
    assert Word(t[2..]) == w2;
    assert Word(t[1..]) == w1;
  }

  lemma {:induction false} WordStep(r: bv32, b: bv8, w: bv32, rest: bv32)
    requires LowByte(w) == b as bv32 && UpperBytes(w) == rest
    ensures Shifts(8, Xor(r, w)) == Xor(FeedByte(r, b), rest)
  {
    ByteFits(b);
    FeedBitsAtOnce(8, r, b as bv32);
    PeelByte(r, w);
  }

  lemma {:induction false} FirstByteFed(r: bv32, t: seq<bv8>)
    requires 0 < |t| <= 4
    ensures Shifts(8, Xor(r, Word(t))) == Xor(FeedByte(r, t[0]), Word(t[1..]))
  {
    WordRange(t[1..]);
    JoinParts(t[0], Word(t[1..]));
    WordStep(r, t[0], Word(t), Word(t[1..]));
  }

  /** Up to four bytes act on the register as one addition followed by shifts. */
  lemma {:induction false} RemainderOfWord(r: bv32, t: seq<bv8>)
    requires |t| <= 4
    ensures Remainder(r, t) == Shifts(8 * |t|, Xor(r, Word(t)))
    decreases |t|
  {
    if t == [] {
      XorBasics(r, 0);
    } else {
      FirstByteFed(r, t);
      RemainderOfWord(FeedByte(r, t[0]), t[1..]);
      ShiftsAdd(8, 8 * (|t| - 1), Xor(r, Word(t)));
    }
  }

  lemma {:induction false} ShiftsZero(n: nat)
    ensures Shifts(n, 0) == 0
  {
    if n > 0 { ShiftsZero(n - 1); }
  }

  /** Four check bytes give residue zero exactly when they are the code of the data, low byte first. */
  lemma {:induction false} ResidueZero(data: seq<bv8>, t: seq<bv8>)
    requires |t| == 4
    ensures Remainder(0, data + t) == 0 <==> Word(t) == Remainder(0, data)
  {
    var r := Remainder(0, data);
    RemainderAppend(0, data, t);
    RemainderOfWord(r, t);
    ShiftsZero(32);
    if Shifts(32, Xor(r, Word(t))) == 0 {
      ShiftsInjective(32, Xor(r, Word(t)), 0);
    }
    XorBasics(r, Word(t));
  }

  lemma {:induction false} RemainderInjective(r: bv32, s: bv32, data: seq<bv8>)
    requires Remainder(r, data) == Remainder(s, data)
    ensures r == s
    decreases |data|
  {
    if data != [] {
      var v := data[0] as bv32;
      RemainderInjective(FeedBits(8, r, v), FeedBits(8, s, v), data[1..]);
      ByteFits(data[0]);
      FeedBitsAtOnce(8, r, v);
      FeedBitsAtOnce(8, s, v);
      ShiftsInjective(8, Xor(r, v), Xor(s, v));
      XorBasics(r, v);
      XorBasics(s, v);
      XorCancels(r, s, v);
    }
  }

  /** Messages that differ, but only inside a window of at most four bytes, have different codes. */
  lemma {:induction false} BurstDetected(head: seq<bv8>, t: seq<bv8>, u: seq<bv8>, tail: seq<bv8>)
    requires |t| == |u| <= 4 && t != u
    ensures Remainder(0, head + t + tail) != Remainder(0, head + u + tail)
  {
    var r := Remainder(0, head);
    RemainderAppend(0, head, t);
    RemainderAppend(0, head, u);
    RemainderAppend(0, head + t, tail);
    RemainderAppend(0, head + u, tail);
    if Remainder(0, head + t + tail) == Remainder(0, head + u + tail) {
      RemainderInjective(Remainder(r, t), Remainder(r, u), tail);
      RemainderOfWord(r, t);
      RemainderOfWord(r, u);
      ShiftsInjective(8 * |t|, Xor(r, Word(t)), Xor(r, Word(u)));
      XorCancels(Word(t), Word(u), r);
      WordInjective(t, u);
    }
  }
}
