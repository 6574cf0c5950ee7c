/** An encoder for motion channels, and the proof that the decoder reads it back (tools/ttt1_motion.py). */
module MotionCode {
  import opened Options
  import opened Bytes
  import opened Motion

  // ---- The delta codes ----

  /** A code, the width of its field, and the field. */
  datatype Token = Token(code: nat, width: nat, field: nat)

  /** The token of a delta: six ranges, wide outside and narrow inside, three below zero and three above. */
  function DeltaToken(d: int): Token
    requires -84 <= d <= 84 && d != 0
  {
    if d <= -21 then Token(1, 6, d + 84)
    else if d <= -5 then Token(2, 4, d + 20)
    else if d <= -1 then Token(3, 2, d + 4)
    else if d <= 4 then Token(4, 2, d - 1)
    else if d <= 20 then Token(5, 4, d - 5)
    else Token(6, 6, d - 21)
  }

  /** Units of a channel: quarters of a byte's sixteen for the two distances, sixteenths for everything else. */
  function Scaled(x: int, shift: nat): int { if shift == 2 then 4 * x else 16 * x }

  lemma {:induction false} ShlIsScaled(x: int, shift: nat)
    requires shift == 2 || shift == 4
    ensures Shl(x, shift) == Scaled(x, shift)
  {
    assert Shl(x, 0) == x && Shl(x, 1) == 2 * x && Shl(x, 2) == 4 * x && Shl(x, 3) == 8 * x;
  }

  /** Every field of every delta code stands for one delta. */
  lemma {:induction false} TokensTile(code: nat, field: nat) returns (d: int)
    requires 1 <= code <= 6 && field < (if code == 1 || code == 6 then 64 else if code == 2 || code == 5 then 16 else 4)
    ensures -84 <= d <= 84 && d != 0 && DeltaToken(d).code == code && DeltaToken(d).field == field
    ensures forall e | -84 <= e <= 84 && e != 0 && DeltaToken(e).code == code && DeltaToken(e).field == field :: e == d
    ensures code <= 3 <==> d < 0
  {
    d := if code == 1 then field - 84 else if code == 2 then field - 20 else if code == 3 then field - 4
         else if code == 4 then field + 1 else if code == 5 then field + 5 else field + 21;
  }

  lemma {:induction false} BitsBelow(s: seq<nat>, pos: nat, n: nat)
    requires pos + n <= |s|
    ensures Bits(s, pos, n) < Shl(1, n)
    decreases n
  {
    if n > 0 { BitsBelow(s, pos + 1, n - 1); }
  }

  lemma {:induction false} Powers()
    ensures Shl(1, 2) == 4 && Shl(1, 4) == 16 && Shl(1, 6) == 64 && Shl(1, 12) == 4096
  {
    assert Shl(1, 0) == 1 && Shl(1, 1) == 2 && Shl(1, 3) == 8 && Shl(1, 5) == 32;
    assert Shl(1, 7) == 128 && Shl(1, 8) == 256 && Shl(1, 9) == 512 && Shl(1, 10) == 1024 && Shl(1, 11) == 2048;
  }

  /** Whatever a delta code adds is one of the deltas, under its own token: no other delta can be coded. */
  lemma {:induction false} AppliesDelta(c: Channel) returns (d: int)
    requires 1 <= c.code <= 6 && ApplyCode(c).Some? && (c.shift == 2 || c.shift == 4)
    ensures -84 <= d <= 84 && d != 0
    ensures var token := DeltaToken(d);
            && c.code == token.code && c.pos + token.width <= |c.stream| && Bits(c.stream, c.pos, token.width) == token.field
            && ApplyCode(c) == Some(c.(value := c.value + Scaled(d, c.shift), pos := c.pos + token.width))
  {
    var field := Bits(c.stream, c.pos, Width(c.code));
    BitsBelow(c.stream, c.pos, Width(c.code));
    Powers();
    d := TokensTile(c.code, field);
    ShlIsScaled(d, c.shift);
  }

  // ---- Steps of a channel ----

  /** What one frame does to a channel: nothing, add a delta, or set the value. */
  datatype Act = Keep | Add(d: int) | Set(a: nat)

  predicate ValidAct(act: Act) {
    match act
    case Keep => true
    case Add(d) => -84 <= d <= 84 && d != 0
    case Set(a) => a < 4096
  }

  function TokenOf(act: Act): Token
    requires ValidAct(act)
  {
    match act
    case Keep => Token(0, 0, 0)
    case Add(d) => DeltaToken(d)
    case Set(a) => Token(7, 12, a)
  }

  function Acted(value: int, act: Act, shift: nat): int {
    match act
    case Keep => value
    case Add(d) => value + Scaled(d, shift)
    case Set(a) => Scaled(a, shift)
  }

  lemma {:induction false} TokenApplied(c: Channel, act: Act)
    requires ValidAct(act) && (c.shift == 2 || c.shift == 4) && c.code == TokenOf(act).code
    requires c.pos + TokenOf(act).width <= |c.stream| && Bits(c.stream, c.pos, TokenOf(act).width) == TokenOf(act).field
    ensures ApplyCode(c) == Some(c.(value := Acted(c.value, act, c.shift), pos := c.pos + TokenOf(act).width))
  {
    match act
    case Keep =>
    case Add(d) =>
      var e := AppliesDelta(c);
      assert d == e;
    case Set(a) => ShlIsScaled(a, c.shift);
  }

  // ---- Bits ----

  /** The n low bits of a number, lowest first. */
  function NumberBits(v: nat, n: nat): (s: seq<nat>)
    ensures |s| == n && forall k | 0 <= k < n :: s[k] < 2
    decreases n, v
  {
    if n == 0 then [] else [v % 2] + NumberBits(v / 2, n - 1)
  }

  predicate Has(s: seq<nat>, pos: nat, bits: seq<nat>) {
    pos + |bits| <= |s| && s[pos..pos + |bits|] == bits
  }

  lemma {:induction false} HasPart(s: seq<nat>, pos: nat, a: seq<nat>, b: seq<nat>)
    requires Has(s, pos, a + b)
    ensures Has(s, pos, a) && Has(s, pos + |a|, b)
  {
    assert s[pos..pos + |a|] == s[pos..pos + |a + b|][..|a|];
    assert s[pos + |a|..pos + |a| + |b|] == s[pos..pos + |a + b|][|a|..];
  }

  lemma {:induction false} NumberRead(s: seq<nat>, pos: nat, v: nat, n: nat)
    requires v < Shl(1, n) && Has(s, pos, NumberBits(v, n))
    ensures Bits(s, pos, n) == v
    decreases n
  {
    if n > 0 {
      HasPart(s, pos, [v % 2], NumberBits(v / 2, n - 1));
      assert s[pos..pos + 1][0] == v % 2;
      NumberRead(s, pos + 1, v / 2, n - 1);
    }
  }

  // ---- Groups of one code ----

  predicate ValidGroup(g: seq<Act>) {
    1 <= |g| <= 16 && ValidActs(g) && forall k | 0 <= k < |g| :: TokenOf(g[k]).code == TokenOf(g[0]).code
  }

  function FieldsBits(acts: seq<Act>): seq<nat>
    requires ValidActs(acts)
  {
    if acts == [] then [] else NumberBits(TokenOf(acts[0]).field, TokenOf(acts[0]).width) + FieldsBits(acts[1..])
  }

  /** A code by itself takes four bits; a repeated one says so, and how many more there are. */
  function HeadBits(code: nat, n: nat): seq<nat>
    requires 1 <= n <= 16
  {
    if n == 1 then NumberBits(code, 4) else NumberBits(code + 8, 4) + NumberBits(n - 2, 4)
  }

  function GroupBits(g: seq<Act>): seq<nat>
    requires ValidGroup(g)
  {
    HeadBits(TokenOf(g[0]).code, |g|) + FieldsBits(g)
  }

  function GroupsBits(gs: seq<seq<Act>>): seq<nat>
    requires ValidGroups(gs)
  {
    if gs == [] then [] else GroupBits(gs[0]) + GroupsBits(gs[1..])
  }

  function Flat(gs: seq<seq<Act>>): seq<Act> { if gs == [] then [] else gs[0] + Flat(gs[1..]) }

  predicate ValidActs(acts: seq<Act>) { forall k | 0 <= k < |acts| :: ValidAct(acts[k]) }

  predicate ValidGroups(gs: seq<seq<Act>>) { forall k | 0 <= k < |gs| :: ValidGroup(gs[k]) }

  /** The bits still to come inside a group with these acts left, and these groups behind it. */
  function LeftBits(rest: seq<Act>, gs: seq<seq<Act>>): seq<nat>
    requires ValidActs(rest) && ValidGroups(gs)
  {
    FieldsBits(rest) + GroupsBits(gs)
  }

  /** The bits lie ahead of the channel, inside its span. */
  ghost predicate Lies(c: Channel, bits: seq<nat>) { Has(c.stream, c.pos, bits) && c.pos + |bits| <= 16 * c.span }

  ghost predicate Shaped(c: Channel, rest: seq<Act>, gs: seq<seq<Act>>) {
    && ValidActs(rest) && ValidGroups(gs) && (c.shift == 2 || c.shift == 4)
    && c.repeat == |rest| && (forall k | 0 <= k < |rest| :: TokenOf(rest[k]).code == c.code)
  }

  /** The channel is inside a group with these acts left, and these groups behind it. */
  ghost predicate Ahead(c: Channel, rest: seq<Act>, gs: seq<seq<Act>>) {
    Shaped(c, rest, gs) && Lies(c, LeftBits(rest, gs))
  }

  lemma {:induction false} FirstField(acts: seq<Act>, gs: seq<seq<Act>>)
    requires acts != [] && ValidActs(acts) && ValidGroups(gs)
    ensures LeftBits(acts, gs) == NumberBits(TokenOf(acts[0]).field, TokenOf(acts[0]).width) + LeftBits(acts[1..], gs)
  {}

  lemma {:induction false} FirstGroup(gs: seq<seq<Act>>)
    requires gs != [] && ValidGroups(gs)
    ensures ValidGroup(gs[0]) && LeftBits([], gs) == HeadBits(TokenOf(gs[0][0]).code, |gs[0]|) + LeftBits(gs[0], gs[1..])
  {
    assert ValidGroup(gs[0]);
  }

  lemma {:induction false} TokenRange(act: Act)
    requires ValidAct(act)
    ensures TokenOf(act).code < 8 && TokenOf(act).field < Shl(1, TokenOf(act).width)
  {
    Powers();
    assert Shl(1, 0) == 1;
  }

  lemma {:induction false} LoneHead(c: Channel, code: nat, behind: seq<nat>)
    requires c.repeat == 0 && code < 8 && Has(c.stream, c.pos, NumberBits(code, 4) + behind)
    ensures ReadCode(c) == Some(c.(code := code, pos := c.pos + 4)) && Has(c.stream, c.pos + 4, behind)
  {
    Powers();
    HasPart(c.stream, c.pos, NumberBits(code, 4), behind);
    NumberRead(c.stream, c.pos, code, 4);
  }

  lemma {:induction false} TwoNibbles(s: seq<nat>, pos: nat, v: nat, w: nat, behind: seq<nat>)
    requires v < 16 && w < 16 && Has(s, pos, NumberBits(v, 4) + (NumberBits(w, 4) + behind))
    ensures pos + 8 <= |s| && Bits(s, pos, 4) == v && Bits(s, pos + 4, 4) == w && Has(s, pos + 8, behind)
  {
    Powers();
    HasPart(s, pos, NumberBits(v, 4), NumberBits(w, 4) + behind);
    HasPart(s, pos + 4, NumberBits(w, 4), behind);
    NumberRead(s, pos, v, 4);
    NumberRead(s, pos + 4, w, 4);
  }

  lemma {:induction false} RepeatedHead(c: Channel, code: nat, n: nat, behind: seq<nat>)
    requires c.repeat == 0 && code < 8 && 2 <= n <= 16 && Has(c.stream, c.pos, NumberBits(code + 8, 4) + (NumberBits(n - 2, 4) + behind))
    ensures ReadCode(c) == Some(c.(code := code, repeat := n - 1, pos := c.pos + 8)) && Has(c.stream, c.pos + 8, behind)
  {
    TwoNibbles(c.stream, c.pos, code + 8, n - 2, behind);
  }

  /** The head of a group of n: the code, and n - 1 repeats. */
  lemma {:induction false} HeadRead(c: Channel, code: nat, n: nat, behind: seq<nat>)
    requires c.repeat == 0 && code < 8 && 1 <= n <= 16 && Has(c.stream, c.pos, HeadBits(code, n) + behind)
    ensures ReadCode(c) == Some(c.(code := code, repeat := n - 1, pos := c.pos + |HeadBits(code, n)|))
    ensures Has(c.stream, c.pos + |HeadBits(code, n)|, behind)
  {
    if n == 1 {
      LoneHead(c, code, behind);
    } else {
      var first, second := NumberBits(code + 8, 4), NumberBits(n - 2, 4);
      assert HeadBits(code, n) + behind == first + (second + behind);
      RepeatedHead(c, code, n, behind);
    }
  }

  lemma {:induction false} FieldTaken(c: Channel, act: Act, behind: seq<nat>)
    requires ValidAct(act) && (c.shift == 2 || c.shift == 4) && c.code == TokenOf(act).code
    requires Has(c.stream, c.pos, NumberBits(TokenOf(act).field, TokenOf(act).width) + behind)
    ensures ApplyCode(c) == Some(c.(value := Acted(c.value, act, c.shift), pos := c.pos + TokenOf(act).width))
    ensures Has(c.stream, c.pos + TokenOf(act).width, behind)
  {
    var token := TokenOf(act);
    TokenRange(act);
    HasPart(c.stream, c.pos, NumberBits(token.field, token.width), behind);
    NumberRead(c.stream, c.pos, token.field, token.width);
    TokenApplied(c, act);
  }

  /** With a group entered, a step applies its next act. */
  lemma {:induction false} FieldRead(c: Channel, acts: seq<Act>, gs: seq<seq<Act>>)
    requires acts != [] && Shaped(c.(repeat := |acts|), acts, gs) && Lies(c, LeftBits(acts, gs)) && c.repeat == |acts| - 1
    ensures ApplyCode(c) == Some(c.(value := Acted(c.value, acts[0], c.shift), pos := c.pos + TokenOf(acts[0]).width))
    ensures Ahead(ApplyCode(c).value, acts[1..], gs) && c.pos + TokenOf(acts[0]).width <= 16 * c.span
  {
    FirstField(acts, gs);
    assert TokenOf(acts[0]).code == c.code;
    FieldTaken(c, acts[0], LeftBits(acts[1..], gs));
  }

  /** A step between groups enters the next one. */
  lemma {:induction false} GroupEntered(c: Channel, gs: seq<seq<Act>>)
    requires Ahead(c, [], gs) && gs != []
    ensures ReadCode(c).Some?
    ensures var d := ReadCode(c).value;
            && d.repeat == |gs[0]| - 1 && d.value == c.value && d.shift == c.shift && d.span == c.span
            && Shaped(d.(repeat := |gs[0]|), gs[0], gs[1..]) && Lies(d, LeftBits(gs[0], gs[1..]))
  {
    var g := gs[0];
    FirstGroup(gs);
    TokenRange(g[0]);
    HeadRead(c, TokenOf(g[0]).code, |g|, LeftBits(g, gs[1..]));
  }

  ghost predicate StepsTo(c: Channel, act: Act, rest: seq<Act>, gs: seq<seq<Act>>) {
    Step(c).Some? && Ahead(Step(c).value, rest, gs) && Step(c).value.value == Acted(c.value, act, c.shift) && Step(c).value.shift == c.shift
  }

  lemma {:induction false} InsideStep(c: Channel, rest: seq<Act>, gs: seq<seq<Act>>)
    requires Ahead(c, rest, gs) && rest != []
    ensures StepsTo(c, rest[0], rest[1..], gs)
  {
    FieldRead(c.(repeat := c.repeat - 1), rest, gs);
  }

  lemma {:induction false} EnteringStep(c: Channel, gs: seq<seq<Act>>)
    requires Ahead(c, [], gs) && gs != []
    ensures gs[0] != [] && StepsTo(c, gs[0][0], gs[0][1..], gs[1..])
  {
    GroupEntered(c, gs);
    assert ValidGroup(gs[0]);
    FieldRead(ReadCode(c).value, gs[0], gs[1..]);
  }

  lemma {:induction false} FirstOff(first: seq<Act>, gs: seq<seq<Act>>)
    requires first != []
    ensures (first + Flat(gs))[0] == first[0] && (first + Flat(gs))[1..] == first[1..] + Flat(gs)
  {}

  /** One step applies the next act, whether it continues a group or enters the next. */
  lemma {:induction false} StepAhead(c: Channel, rest: seq<Act>, gs: seq<seq<Act>>) returns (rest': seq<Act>, gs': seq<seq<Act>>)
    requires Ahead(c, rest, gs) && rest + Flat(gs) != []
    ensures StepsTo(c, (rest + Flat(gs))[0], rest', gs') && rest' + Flat(gs') == (rest + Flat(gs))[1..]
  {
    if rest != [] {
      rest', gs' := rest[1..], gs;
      InsideStep(c, rest, gs);
      FirstOff(rest, gs);
    } else {
      rest', gs' := gs[0][1..], gs[1..];
      EnteringStep(c, gs);
      FirstOff(gs[0], gs[1..]);
      assert rest + Flat(gs) == gs[0] + Flat(gs[1..]);
    }
  }

  /** The value after the acts, one after the other. */
  function Run(value: int, acts: seq<Act>, shift: nat): int {
    if acts == [] then value else Acted(Run(value, acts[..|acts| - 1], shift), acts[|acts| - 1], shift)
  }

  /** As many steps as there are acts succeed, and the value follows them. */
  lemma {:induction false} StepsAhead(c: Channel, gs: seq<seq<Act>>, k: nat) returns (rest': seq<Act>, gs': seq<seq<Act>>)
    requires Ahead(c, [], gs) && k <= |Flat(gs)|
    ensures Steps(c, k).Some? && Ahead(Steps(c, k).value, rest', gs') && rest' + Flat(gs') == Flat(gs)[k..]
    ensures Steps(c, k).value.value == Run(c.value, Flat(gs)[..k], c.shift) && Steps(c, k).value.shift == c.shift
    decreases k
  {
    if k == 0 {
      rest', gs' := [], gs;
      assert [] + Flat(gs) == Flat(gs)[0..];
    } else {
      var rest, more := StepsAhead(c, gs, k - 1);
      rest', gs' := StepAhead(Steps(c, k - 1).value, rest, more);
      assert Flat(gs)[..k][..k - 1] == Flat(gs)[..k - 1];
    }
  }
}
