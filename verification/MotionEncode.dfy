/** Encoding lists of channel values, and decoding whole frames from the encoding (tools/ttt1_motion.py). */
module MotionEncode {
  import opened Options
  import opened Bytes
  import opened Motion
  import opened MotionCode

  // ---- From values to acts ----

  function Unit(shift: nat): nat { if shift == 2 then 4 else 16 }

  /** What takes a channel to the next value, given how far that is: nothing, the delta, or the value itself. */
  function ActBy(diff: int, next: half, shift: nat): (act: Option<Act>)
    ensures act.Some? ==> ValidAct(act.value)
  {
    var unit := Unit(shift);
    if diff == 0 then Some(Keep)
    else if diff % unit == 0 && -84 <= diff / unit <= 84 then Some(Add(diff / unit))
    else if next % unit == 0 && next / unit < 4096 then Some(Set(next / unit))
    else None
  }

  /** Modulo 65536, the shorter way round. */
  function ActFor(value: int, next: half, shift: nat): (act: Option<Act>)
    ensures act.Some? ==> ValidAct(act.value)
  {
    ActBy(Int16(next - value), next, shift)
  }

  lemma {:induction false} Congruent(value: int, next: half)
    ensures (value + Int16(next - value)) % 0x10000 == next
  {}

  lemma {:induction false} ActReaches(value: int, next: half, shift: nat)
    requires (shift == 2 || shift == 4) && ActFor(value, next, shift).Some?
    ensures Acted(value, ActFor(value, next, shift).value, shift) % 0x10000 == next
  {
    Congruent(value, next);
    if shift == 2 {} else {}
  }

  lemma {:induction false} DeltaIs(value: int, d: int, next: half)
    requires -0x8000 <= d < 0x8000 && (value + d) % 0x10000 == next
    ensures Int16(next - value) == d
  {
    var k := (value + d) / 0x10000;
    assert next - value == d - k * 0x10000;
  }

  lemma {:induction false} DeltaFound(value: int, d: int, shift: nat)
    requires (shift == 2 || shift == 4) && -84 <= d <= 84
    ensures ActFor(value, (value + Scaled(d, shift)) % 0x10000, shift).Some?
  {
    var next: half := (value + Scaled(d, shift)) % 0x10000;
    DeltaIs(value, Scaled(d, shift), next);
    if shift == 2 { assert Scaled(d, 2) % 4 == 0 && Scaled(d, 2) / 4 == d; } else { assert Scaled(d, 4) % 16 == 0 && Scaled(d, 4) / 16 == d; }
  }

  lemma {:induction false} ValueFound(value: int, a: nat, shift: nat)
    requires (shift == 2 || shift == 4) && a < 4096
    ensures ActFor(value, Scaled(a, shift) % 0x10000, shift).Some?
  {
    if shift == 2 { assert Scaled(a, 2) % 4 == 0 && Scaled(a, 2) / 4 == a; } else { assert Scaled(a, 4) % 16 == 0 && Scaled(a, 4) / 16 == a; }
  }

  /** If any act reaches the next value, one is found. */
  lemma {:induction false} ActFound(value: int, act: Act, shift: nat)
    requires (shift == 2 || shift == 4) && ValidAct(act)
    ensures ActFor(value, Acted(value, act, shift) % 0x10000, shift).Some?
  {
    match act
    case Keep => DeltaFound(value, 0, shift);
    case Add(d) => DeltaFound(value, d, shift);
    case Set(a) => ValueFound(value, a, shift);
  }

  /** The acts that produce the values one after the other, if each is within reach of the one before. */
  function Plan(value: int, values: seq<half>, shift: nat): (acts: Option<seq<Act>>)
    ensures acts.Some? ==> |acts.value| == |values| && ValidActs(acts.value)
    decreases |values|
  {
    if values == [] then Some([])
    else match ActFor(value, values[0], shift)
      case None => None
      case Some(act) =>
        match Plan(Acted(value, act, shift), values[1..], shift)
        case None => None
        case Some(rest) => Some([act] + rest)
  }

  /** The values the acts produce one after the other, modulo 65536. */
  function ValuesAfter(value: int, acts: seq<Act>, shift: nat): (values: seq<half>)
    ensures |values| == |acts|
    decreases |acts|
  {
    if acts == [] then []
    else [Acted(value, acts[0], shift) % 0x10000] + ValuesAfter(Acted(value, acts[0], shift), acts[1..], shift)
  }

  lemma {:induction false} SameTurn(x: int, turns: int)
    ensures Int16(x + turns * 0x10000) == Int16(x)
  {}

  lemma {:induction false} SameAct(value: int, other: int, next: half, shift: nat, turns: int)
    requires value == other + turns * 0x10000
    ensures ActFor(value, next, shift) == ActFor(other, next, shift)
  {
    assert next - other == next - value + turns * 0x10000;
    SameTurn(next - value, turns);
  }

  lemma {:induction false} TurnsBetween(x: int, y: int) returns (turns: int)
    requires x % 0x10000 == y % 0x10000
    ensures x == y + turns * 0x10000
  {
    turns := x / 0x10000 - y / 0x10000;
  }

  /** Whatever values some acts produce, the encoder finds acts that produce them. */
  lemma {:induction false} PlanFound(value: int, other: int, acts: seq<Act>, shift: nat, turns: int)
    requires (shift == 2 || shift == 4) && ValidActs(acts) && value == other + turns * 0x10000
    ensures Plan(other, ValuesAfter(value, acts, shift), shift).Some?
    decreases |acts|
  {
    if acts != [] {
      var reached := Acted(value, acts[0], shift);
      var next: half := reached % 0x10000;
      ActFound(value, acts[0], shift);
      SameAct(value, other, next, shift, turns);
      ActReaches(other, next, shift);
      var reached' := Acted(other, ActFor(other, next, shift).value, shift);
      var turns' := TurnsBetween(reached, reached');
      PlanFound(reached, reached', acts[1..], shift, turns');
    }
  }

  lemma {:induction false} RunFirst(value: int, act: Act, acts: seq<Act>, shift: nat)
    ensures Run(value, [act] + acts, shift) == Run(Acted(value, act, shift), acts, shift)
    decreases |acts|
  {
    if acts == [] {
      assert [act] + acts == [act] && [act][..0] == [];
      assert Run(value, [], shift) == value;
    } else {
      var n := |acts| - 1;
      RunFirst(value, act, acts[..n], shift);
      assert ([act] + acts)[..n + 1] == [act] + acts[..n];
    }
  }

  lemma {:induction false} PlanReaches(value: int, values: seq<half>, shift: nat, k: nat)
    requires (shift == 2 || shift == 4) && Plan(value, values, shift).Some? && 0 < k <= |values|
    ensures Run(value, Plan(value, values, shift).value[..k], shift) % 0x10000 == values[k - 1]
    decreases k
  {
    var acts := Plan(value, values, shift).value;
    var act := acts[0];
    ActReaches(value, values[0], shift);
    assert acts[..k] == [act] + acts[1..][..k - 1];
    RunFirst(value, act, acts[1..][..k - 1], shift);
    if k > 1 {
      PlanReaches(Acted(value, act, shift), values[1..], shift, k - 1);
    } else {
      assert acts[1..][..0] == [];
    }
  }

  // ---- From acts to groups ----

  /** How many acts at the start share a code, at most n. */
  function RunLength(acts: seq<Act>, n: nat): (k: nat)
    requires ValidActs(acts)
    ensures k <= n && k <= |acts| && (n > 0 && acts != [] ==> k > 0)
    ensures forall j | 0 <= j < k :: TokenOf(acts[j]).code == TokenOf(acts[0]).code
    decreases n
  {
    if n == 0 || acts == [] then 0
    else
      var before := RunLength(acts, n - 1);
      if before == n - 1 && before < |acts| && TokenOf(acts[before]).code == TokenOf(acts[0]).code then n else before
  }

  lemma {:induction false} GroupOff(acts: seq<Act>, n: nat, gs: seq<seq<Act>>)
    requires 0 < n <= 16 && n <= |acts| && ValidActs(acts) && (forall j | 0 <= j < n :: TokenOf(acts[j]).code == TokenOf(acts[0]).code)
    requires ValidGroups(gs) && Flat(gs) == acts[n..]
    ensures ValidGroups([acts[..n]] + gs) && Flat([acts[..n]] + gs) == acts
  {
    assert ([acts[..n]] + gs)[1..] == gs && acts[..n] + acts[n..] == acts;
    assert ValidGroup(acts[..n]);
  }

  function Grouped(acts: seq<Act>): (gs: seq<seq<Act>>)
    requires ValidActs(acts)
    ensures ValidGroups(gs) && Flat(gs) == acts
    decreases |acts|
  {
    if acts == [] then []
    else
      var n := RunLength(acts, 16);
      var rest := Grouped(acts[n..]);
      GroupOff(acts, n, rest);
      [acts[..n]] + rest
  }

  // ---- From bits to halfwords ----

  predicate AreBits(s: seq<nat>) { forall k | 0 <= k < |s| :: s[k] < 2 }

  lemma {:induction false} HalfRange(s: seq<nat>, pos: nat)
    requires pos + 16 <= |s|
    ensures Bits(s, pos, 16) < 0x10000
  {
    BitsBelow(s, pos, 16);
    Shl16();
  }

  function HalvesOf(s: seq<nat>): (h: seq<half>)
    requires |s| % 16 == 0
    ensures |h| == |s| / 16
  {
    seq(|s| / 16, i requires 0 <= i < |s| / 16 => HalfAt(s, i))
  }

  function HalfAt(s: seq<nat>, i: nat): half
    requires 16 * i + 16 <= |s|
  {
    HalfRange(s, 16 * i);
    Bits(s, 16 * i, 16)
  }

  lemma {:induction false} SameBits(s: seq<nat>, p: nat, t: seq<nat>, q: nat, n: nat, k: nat)
    requires p + n <= |s| && q + n <= |t| && AreBits(s) && AreBits(t) && k < n && Bits(s, p, n) == Bits(t, q, n)
    ensures s[p + k] == t[q + k]
    decreases n
  {
    SplitBit(s[p], Bits(s, p + 1, n - 1));
    SplitBit(t[q], Bits(t, q + 1, n - 1));
    if k > 0 { SameBits(s, p + 1, t, q + 1, n - 1, k - 1); }
  }

  lemma {:induction false} StreamIsBits(h: seq<half>)
    ensures AreBits(BitStream(h))
  {}

  /** Halfwords written in place give back their bits. */
  lemma {:induction false} StreamHas(bank: seq<byte>, start: nat, bits: seq<nat>)
    requires |bits| % 16 == 0 && AreBits(bits) && Holds(bank, start, PackHalves(HalvesOf(bits)))
    ensures start <= |bank| && Has(BitStream(Halfwords(bank, start)), 0, bits)
  {
    var h := Halfwords(bank, start);
    var s := BitStream(h);
    StreamIsBits(h);
    forall j | 0 <= j < |bits| ensures j < |s| && s[j] == bits[j] {
      var i, k := j / 16, j % 16;
      HalfInPlace(bank, start, HalvesOf(bits), i);
      assert h[i] == HalfAt(bits, i);
      BitsOfHalf(h, i, 0);
      SameBits(s, 16 * i, bits, 16 * i, 16, k);
    }
    assert s[0..|bits|] == bits;
  }

  // ---- One channel ----

  function Zeros(n: nat): (s: seq<nat>)
    ensures |s| == n && AreBits(s)
  {
    seq(n, _ => 0)
  }

  lemma {:induction false} FieldsAreBits(acts: seq<Act>)
    requires ValidActs(acts)
    ensures AreBits(FieldsBits(acts))
  {
    if acts != [] { FieldsAreBits(acts[1..]); }
  }

  lemma {:induction false} GroupsAreBits(gs: seq<seq<Act>>)
    requires ValidGroups(gs)
    ensures AreBits(GroupsBits(gs))
  {
    if gs != [] {
      assert ValidGroup(gs[0]);
      FieldsAreBits(gs[0]);
      GroupsAreBits(gs[1..]);
    }
  }

  /** The halfwords a channel takes: four bits of its own, the groups, and padding. */
  function SpanOf(gs: seq<seq<Act>>): nat
    requires ValidGroups(gs)
  {
    (|GroupsBits(gs)| + 19) / 16
  }

  function ChannelBits(gs: seq<seq<Act>>): (bits: seq<nat>)
    requires ValidGroups(gs)
    ensures |bits| == 16 * SpanOf(gs)
  {
    NumberBits(SpanOf(gs), 4) + (GroupsBits(gs) + Zeros(16 * SpanOf(gs) - 4 - |GroupsBits(gs)|))
  }

  function ShiftOf(i: nat): nat { if i == 1 || i == 2 then 2 else 4 }

  function GroupsBytes(gs: seq<seq<Act>>): (b: seq<byte>)
    requires ValidGroups(gs)
    ensures |b| == 2 * SpanOf(gs)
  {
    PackHalves(HalvesOf(ChannelBits(gs)))
  }

  /** The bytes of a channel's values; none if a value is out of reach of the one before, or they take too much room. */
  function ChannelBytes(first: half, values: seq<half>, i: nat): Option<seq<byte>> {
    match Plan(first, values, ShiftOf(i))
    case None => None
    case Some(acts) => if SpanOf(Grouped(acts)) > 15 then None else Some(GroupsBytes(Grouped(acts)))
  }

  lemma {:induction false} SpanRead(s: seq<nat>, gs: seq<seq<Act>>)
    requires ValidGroups(gs) && SpanOf(gs) <= 15 && Has(s, 0, ChannelBits(gs))
    ensures 16 * SpanOf(gs) <= |s| && Bits(s, 0, 4) == SpanOf(gs) > 0 && Has(s, 4, LeftBits([], gs)) && 4 + |LeftBits([], gs)| <= 16 * SpanOf(gs)
  {
    var span, zeros := SpanOf(gs), Zeros(16 * SpanOf(gs) - 4 - |GroupsBits(gs)|);
    Powers();
    HasPart(s, 0, NumberBits(span, 4), GroupsBits(gs) + zeros);
    NumberRead(s, 0, span, 4);
    HasPart(s, 4, GroupsBits(gs), zeros);
    assert LeftBits([], gs) == GroupsBits(gs);
  }

  lemma {:induction false} ChannelBitsAre(gs: seq<seq<Act>>)
    requires ValidGroups(gs)
    ensures AreBits(ChannelBits(gs))
  {
    GroupsAreBits(gs);
  }

  lemma {:induction false} ChannelAhead(bank: seq<byte>, cursor: nat, i: nat, value: int, gs: seq<seq<Act>>)
    requires ValidGroups(gs) && SpanOf(gs) <= 15 && Holds(bank, cursor, GroupsBytes(gs))
    ensures OpenChannel(bank, cursor, i, value).Some?
    ensures var entry := OpenChannel(bank, cursor, i, value).value;
            entry.1 == cursor + 2 * SpanOf(gs) && entry.0.value == value && entry.0.shift == ShiftOf(i) && Ahead(entry.0, [], gs)
  {
    ChannelBitsAre(gs);
    StreamHas(bank, cursor, ChannelBits(gs));
    SpanRead(BitStream(Halfwords(bank, cursor)), gs);
  }

  lemma {:induction false} GroupsDecode(bank: seq<byte>, cursor: nat, i: nat, value: int, gs: seq<seq<Act>>, k: nat)
    requires ValidGroups(gs) && SpanOf(gs) <= 15 && Holds(bank, cursor, GroupsBytes(gs)) && k <= |Flat(gs)|
    ensures ChannelResult(bank, cursor, i, value, k).Some?
    ensures var r := ChannelResult(bank, cursor, i, value, k).value;
            r.0.value == Run(value, Flat(gs)[..k], ShiftOf(i)) && r.1 == cursor + 2 * SpanOf(gs)
  {
    ChannelAhead(bank, cursor, i, value, gs);
    var rest, more := StepsAhead(OpenChannel(bank, cursor, i, value).value.0, gs, k);
  }

  /** After k steps the channel has its k-th value, and the next channel begins behind it. */
  lemma {:induction false} ChannelDecodes(bank: seq<byte>, cursor: nat, first: half, values: seq<half>, i: nat, k: nat)
    requires ChannelBytes(first, values, i).Some? && Holds(bank, cursor, ChannelBytes(first, values, i).value) && 0 < k <= |values|
    ensures ChannelResult(bank, cursor, i, first, k).Some?
    ensures var r := ChannelResult(bank, cursor, i, first, k).value;
            r.0.value % 0x10000 == values[k - 1] && r.1 == cursor + |ChannelBytes(first, values, i).value|
  {
    var acts := Plan(first, values, ShiftOf(i)).value;
    GroupsDecode(bank, cursor, i, first, Grouped(acts), k);
    PlanReaches(first, values, ShiftOf(i), k);
  }

  // ---- A block of frames ----

  predicate SameWidth(frames: seq<seq<half>>, n: nat) { forall k | 0 <= k < |frames| :: |frames[k]| == n }

  /** What channel i does over the frames. */
  function ChannelValues(frames: seq<seq<half>>, i: nat, n: nat): (values: seq<half>)
    requires SameWidth(frames, n) && i < n
    ensures |values| == |frames|
  {
    seq(|frames|, k requires 0 <= k < |frames| => frames[k][i])
  }

  /** The channels from i on, one behind the other. */
  function BlockBytes(first: seq<half>, frames: seq<seq<half>>, i: nat): Option<seq<byte>>
    requires SameWidth(frames, |first|) && i <= |first|
    decreases |first| - i
  {
    if i == |first| then Some([]) else Joined(ChannelBytes(first[i], ChannelValues(frames, i, |first|), i), BlockBytes(first, frames, i + 1))
  }

  /** Channel i decodes to this value after k steps, and its successor begins here. */
  ghost predicate Gives(bank: seq<byte>, cursor: nat, i: nat, first: half, k: nat, value: half, next: nat) {
    ChannelResult(bank, cursor, i, first, k).Some? &&
    var r := ChannelResult(bank, cursor, i, first, k).value;
    r.0.value % 0x10000 == value && r.1 == next
  }

  lemma {:induction false} FirstDecodes(bank: seq<byte>, cursor: nat, first: seq<half>, frames: seq<seq<half>>, i: nat, k: nat) returns (next: nat)
    requires i < |first| && 0 < k <= |frames| && BlockLies(bank, cursor, first, frames, i)
    ensures Gives(bank, cursor, i, first[i], k, frames[k - 1][i], next) && BlockLies(bank, next, first, frames, i + 1)
  {
    next := FirstLies(bank, cursor, first, frames, i);
    ChannelGives(bank, cursor, first[i], ChannelValues(frames, i, |first|), i, k);
  }

  lemma {:induction false} FirstLies(bank: seq<byte>, cursor: nat, first: seq<half>, frames: seq<seq<half>>, i: nat) returns (next: nat)
    requires i < |first| && BlockLies(bank, cursor, first, frames, i)
    ensures ChannelBytes(first[i], ChannelValues(frames, i, |first|), i).Some?
    ensures var channel := ChannelBytes(first[i], ChannelValues(frames, i, |first|), i).value;
            Holds(bank, cursor, channel) && next == cursor + |channel| && BlockLies(bank, next, first, frames, i + 1)
  {
    var channel := ChannelBytes(first[i], ChannelValues(frames, i, |first|), i);
    PartsLie(bank, cursor, channel, BlockBytes(first, frames, i + 1));
    next := cursor + |channel.value|;
  }

  lemma {:induction false} PartsLie(bank: seq<byte>, cursor: nat, a: Option<seq<byte>>, b: Option<seq<byte>>)
    requires Joined(a, b).Some? && Holds(bank, cursor, Joined(a, b).value)
    ensures a.Some? && b.Some? && Holds(bank, cursor, a.value) && Holds(bank, cursor + |a.value|, b.value)
  {
    HoldsPart(bank, cursor, a.value, b.value);
  }

  lemma {:induction false} ChannelGives(bank: seq<byte>, cursor: nat, first: half, values: seq<half>, i: nat, k: nat)
    requires ChannelBytes(first, values, i).Some? && Holds(bank, cursor, ChannelBytes(first, values, i).value) && 0 < k <= |values|
    ensures Gives(bank, cursor, i, first, k, values[k - 1], cursor + |ChannelBytes(first, values, i).value|)
  {
    ChannelDecodes(bank, cursor, first, values, i, k);
  }

  /** Channels from i on linked one behind the other: channel j begins at cs[j], and the last one ends at cs[n]. */
  ghost predicate Linked(link: (nat, nat, nat) -> bool, cs: seq<nat>, i: nat, n: nat) {
    i <= n && |cs| == n + 1 && forall j | i <= j < n :: link(cs[j], j, cs[j + 1])
  }

  lemma {:induction false} LinkedMore(link: (nat, nat, nat) -> bool, cursor: nat, cs: seq<nat>, i: nat, n: nat)
    requires i < n && Linked(link, cs, i + 1, n) && link(cursor, i, cs[i + 1])
    ensures Linked(link, cs[i := cursor], i, n)
  {}

  ghost function LinkOf(bank: seq<byte>, first: seq<half>, k: nat, values: seq<half>): (nat, nat, nat) -> bool {
    (cursor: nat, i: nat, next: nat) => i < |first| && i < |values| && Gives(bank, cursor, i, first[i], k, values[i], next)
  }

  /** The bytes of the channels from i on lie here. */
  ghost predicate BlockLies(bank: seq<byte>, cursor: nat, first: seq<half>, frames: seq<seq<half>>, i: nat) {
    && SameWidth(frames, |first|) && i <= |first| && BlockBytes(first, frames, i).Some?
    && Holds(bank, cursor, BlockBytes(first, frames, i).value)
  }

  ghost predicate HasNext(link: (nat, nat, nat) -> bool, lies: (nat, nat) -> bool, cursor: nat, i: nat) {
    exists next: nat :: link(cursor, i, next) && lies(next, i + 1)
  }

  /** Where the channels from i on begin, and where the last one ends, if each is followed by the next. */
  lemma {:induction false} ChainOf(link: (nat, nat, nat) -> bool, lies: (nat, nat) -> bool, cursor: nat, i: nat, n: nat) returns (cs: seq<nat>)
    requires i <= n && lies(cursor, i)
    requires forall c: nat, j: nat | lies(c, j) && j < n :: HasNext(link, lies, c, j)
    ensures Linked(link, cs, i, n) && cs[i] == cursor
    decreases n - i
  {
    if i == n {
      cs := seq(n + 1, _ => cursor);
    } else {
      assert HasNext(link, lies, cursor, i);
      var next: nat :| link(cursor, i, next) && lies(next, i + 1);
      var rest := ChainOf(link, lies, next, i + 1, n);
      LinkedMore(link, cursor, rest, i, n);
      cs := rest[i := cursor];
    }
  }

  ghost function LiesOf(bank: seq<byte>, first: seq<half>, frames: seq<seq<half>>): (nat, nat) -> bool {
    (cursor: nat, i: nat) => BlockLies(bank, cursor, first, frames, i)
  }

  lemma {:induction false} NextLies(bank: seq<byte>, first: seq<half>, frames: seq<seq<half>>, k: nat, cursor: nat, i: nat)
    requires 0 < k <= |frames| && LiesOf(bank, first, frames)(cursor, i) && i < |first|
    ensures HasNext(LinkOf(bank, first, k, frames[k - 1]), LiesOf(bank, first, frames), cursor, i)
  {
    var next := FirstDecodes(bank, cursor, first, frames, i, k);
    assert LinkOf(bank, first, k, frames[k - 1])(cursor, i, next) && LiesOf(bank, first, frames)(next, i + 1);
  }

  lemma {:induction false} Cursors(bank: seq<byte>, cursor: nat, first: seq<half>, frames: seq<seq<half>>, k: nat) returns (cs: seq<nat>)
    requires 0 < k <= |frames| && LiesOf(bank, first, frames)(cursor, 0)
    ensures Linked(LinkOf(bank, first, k, frames[k - 1]), cs, 0, |first|) && cs[0] == cursor
  {
    var link, lies := LinkOf(bank, first, k, frames[k - 1]), LiesOf(bank, first, frames);
    forall c: nat, j: nat | lies(c, j) && j < |first| ensures HasNext(link, lies, c, j) {
      NextLies(bank, first, frames, k, c, j);
    }
    cs := ChainOf(link, lies, cursor, 0, |first|);
  }

  lemma {:induction false} TailJoins(bank: seq<byte>, cursor: nat, first: seq<half>, i: nat, k: nat, value: half, next: nat, values: seq<half>)
    requires i < |first| && Gives(bank, cursor, i, first[i], k, value, next)
    requires ValuesOf(Tail(bank, next, first, i + 1, k)) == Some(values)
    ensures ValuesOf(Tail(bank, cursor, first, i, k)) == Some([value] + values)
  {
    var r, cs := ChannelResult(bank, cursor, i, first[i], k).value, Tail(bank, next, first, i + 1, k).value;
    assert FrameValues([r.0] + cs) == [value] + FrameValues(cs);
  }

  /** A channel linked to the next puts its value before what the next ones give. */
  ghost predicate Follows(link: (nat, nat, nat) -> bool, tail: (nat, nat) -> Option<seq<half>>, values: seq<half>) {
    forall cursor: nat, j: nat, next: nat | link(cursor, j, next) && j < |values| && tail(next, j + 1).Some? ::
      tail(cursor, j) == Some([values[j]] + tail(next, j + 1).value)
  }

  /** Whatever a linked chain of channels gives, one value at a time, it gives all together. */
  lemma {:induction false} ChainGives(link: (nat, nat, nat) -> bool, tail: (nat, nat) -> Option<seq<half>>, cs: seq<nat>, i: nat, values: seq<half>)
    requires Linked(link, cs, i, |values|) && (forall cursor: nat :: tail(cursor, |values|) == Some([]))
    requires Follows(link, tail, values)
    ensures tail(cs[i], i) == Some(values[i..])
    decreases |values| - i
  {
    if i < |values| {
      ChainGives(link, tail, cs, i + 1, values);
      assert link(cs[i], i, cs[i + 1]);
      assert values[i..] == [values[i]] + values[i + 1..];
    }
  }

  function TailOf(bank: seq<byte>, first: seq<half>, k: nat): (nat, nat) -> Option<seq<half>> {
    (cursor: nat, i: nat) => ValuesOf(Tail(bank, cursor, first, i, k))
  }

  lemma {:induction false} TailLinks(bank: seq<byte>, first: seq<half>, k: nat, values: seq<half>, cursor: nat, j: nat, next: nat)
    requires LinkOf(bank, first, k, values)(cursor, j, next) && TailOf(bank, first, k)(next, j + 1).Some?
    ensures j < |values| && TailOf(bank, first, k)(cursor, j) == Some([values[j]] + TailOf(bank, first, k)(next, j + 1).value)
  {
    TailJoins(bank, cursor, first, j, k, values[j], next, TailOf(bank, first, k)(next, j + 1).value);
  }

  lemma {:induction false} TailFollows(bank: seq<byte>, first: seq<half>, k: nat, values: seq<half>)
    ensures Follows(LinkOf(bank, first, k, values), TailOf(bank, first, k), values)
  {
    var link, tail := LinkOf(bank, first, k, values), TailOf(bank, first, k);
    forall cursor: nat, j: nat, next: nat | link(cursor, j, next) && j < |values| && tail(next, j + 1).Some?
      ensures tail(cursor, j) == Some([values[j]] + tail(next, j + 1).value)
    {
      TailLinks(bank, first, k, values, cursor, j, next);
    }
  }

  lemma {:induction false} TailGives(bank: seq<byte>, first: seq<half>, k: nat, values: seq<half>, cs: seq<nat>)
    requires |first| == |values| && Linked(LinkOf(bank, first, k, values), cs, 0, |first|)
    ensures TailOf(bank, first, k)(cs[0], 0) == Some(values)
  {
    var tail := TailOf(bank, first, k);
    forall cursor: nat ensures tail(cursor, |values|) == Some([]) { TailEnds(bank, cursor, first, k); }
    TailFollows(bank, first, k, values);
    ChainGives(LinkOf(bank, first, k, values), tail, cs, 0, values);
    assert values[0..] == values;
  }

  lemma {:induction false} TailEnds(bank: seq<byte>, cursor: nat, first: seq<half>, k: nat)
    ensures TailOf(bank, first, k)(cursor, |first|) == Some([])
  {}

  lemma {:induction false} BlockDecodes(bank: seq<byte>, cursor: nat, first: seq<half>, frames: seq<seq<half>>, k: nat)
    requires 0 < k <= |frames| && BlockLies(bank, cursor, first, frames, 0)
    ensures BlockFrame(bank, cursor, first, k) == Some(frames[k - 1])
  {
    var cs := Cursors(bank, cursor, first, frames, k);
    TailGives(bank, first, k, frames[k - 1], cs);
    TailIsFrame(bank, cursor, first, k);
  }

  // ---- A clip ----

  /** The clip at this address has this many frames and these first and last poses. */
  predicate IsClip(bank: seq<byte>, base: nat, count: nat, first: seq<half>, last: seq<half>) {
    && base + 0x130 <= |bank| && bank[base] == count && 1 <= |first| == |last| <= 57
    && (forall c | 0 <= c < |first| :: first[c] == Half(bank, base + 2 + 2 * c) && last[c] == Half(bank, base + 0x74 + 2 * c))
  }

  /** The frames of a block lie encoded where the clip's table says, each block starting from the first pose. */
  ghost predicate IsBlock(bank: seq<byte>, base: nat, block: nat, first: seq<half>, frames: seq<seq<half>>)
    requires base + 0x130 <= |bank| && block < 16
  {
    |frames| <= 16 && BlockLies(bank, base + 2 * Half(bank, base + 0xE6 + 2 * block), first, frames, 0)
  }

  lemma {:induction false} FrameInBlock(bank: seq<byte>, base: nat, count: nat, first: seq<half>, last: seq<half>, block: nat, k: nat)
    requires IsClip(bank, base, count, first, last) && block < 16 && 1 <= k <= 16 && 16 * block + k + 1 < count
    ensures Frame(bank, base, 16 * block + k, |first|) == BlockFrame(bank, base + 2 * Half(bank, base + 0xE6 + 2 * block), first, k)
  {
    assert HalvesAt(bank, base + 2, |first|) == first;
    assert (16 * block + k - 1) / 16 == block && (16 * block + k - 1) % 16 == k - 1;
  }

  lemma {:induction false} MiddleFrame(bank: seq<byte>, base: nat, count: nat, first: seq<half>, last: seq<half>, frames: seq<seq<half>>, block: nat, k: nat)
    requires IsClip(bank, base, count, first, last) && block < 16 && 1 <= k <= |frames| <= 16 && 16 * block + k + 1 < count
    requires BlockFrame(bank, base + 2 * Half(bank, base + 0xE6 + 2 * block), first, k) == Some(frames[k - 1])
    ensures Frame(bank, base, 16 * block + k, |first|) == Some(frames[k - 1])
  {
    FrameInBlock(bank, base, count, first, last, block, k);
  }

  lemma {:induction false} MiddleDecodes(bank: seq<byte>, base: nat, count: nat, first: seq<half>, last: seq<half>, frames: seq<seq<half>>, block: nat, k: nat)
    requires IsClip(bank, base, count, first, last) && block < 16 && 1 <= k <= |frames| && 16 * block + k + 1 < count
    requires IsBlock(bank, base, block, first, frames)
    ensures Frame(bank, base, 16 * block + k, |first|) == Some(frames[k - 1])
  {
    BlockDecodes(bank, base + 2 * Half(bank, base + 0xE6 + 2 * block), first, frames, k);
    MiddleFrame(bank, base, count, first, last, frames, block, k);
  }

  lemma {:induction false} EndFrames(bank: seq<byte>, base: nat, count: nat, first: seq<half>, last: seq<half>, frame: nat)
    requires IsClip(bank, base, count, first, last) && 0 < count && (frame == 0 || frame + 1 >= count)
    ensures Frame(bank, base, frame, |first|) == Some(if frame + 1 >= count then last else first)
  {
    assert HalvesAt(bank, base + 2, |first|) == first && HalvesAt(bank, base + 0x74, |first|) == last;
  }

  /** The decoder returns the stored first and last poses, and in between exactly the encoded values. */
  lemma {:induction false} FramesDecode(bank: seq<byte>, base: nat, count: nat, first: seq<half>, last: seq<half>, frames: seq<seq<half>>, frame: nat)
    requires IsClip(bank, base, count, first, last) && 0 < count
    requires 0 < frame && frame + 1 < count ==> IsBlock(bank, base, (frame - 1) / 16, first, frames) && (frame - 1) % 16 < |frames|
    ensures Frame(bank, base, frame, |first|) ==
            Some(if frame + 1 >= count then last else if frame == 0 then first else frames[(frame - 1) % 16])
  {
    if 0 < frame && frame + 1 < count {
      var block, k := (frame - 1) / 16, (frame - 1) % 16 + 1;
      assert frame == 16 * block + k;
      MiddleDecodes(bank, base, count, first, last, frames, block, k);
    } else {
      EndFrames(bank, base, count, first, last, frame);
    }
  }
}
