/** Decoding one frame of an arcade motion clip (tools/ttt1_motion.py). */
module Motion {
  import opened Options
  import opened Bytes

  // ---- Shifts and masks of unbounded integers ----

  function Shr(v: nat, n: nat): nat {
    if n == 0 then v else Shr(v / 2, n - 1)
  }

  function Shl(v: int, n: nat): int {
    if n == 0 then v else 2 * Shl(v, n - 1)
  }

  /** v & ((1 << n) - 1) */
  function LowBits(v: nat, n: nat): nat {
    if n == 0 then 0 else v % 2 + 2 * LowBits(v / 2, n - 1)
  }

  lemma {:induction false} ShrStep(v: nat, n: nat)
    ensures Shr(v, n + 1) == Shr(v, n) / 2
  {
    if n > 0 { ShrStep(v / 2, n - 1); }
  }

  lemma {:induction false} ShrAll(v: nat, n: nat, bound: nat)
    requires v < bound && bound == Shl(1, n)
    ensures Shr(v, n) == 0
  {
    if n > 0 { ShrAll(v / 2, n - 1, Shl(1, n - 1)); }
  }

  // ---- The bit stream ----

  /** The little-endian halfwords from byte start to the end of the bank. */
  function Halfwords(bank: seq<byte>, start: nat): (s: seq<half>)
    requires start <= |bank|
    ensures |s| == (|bank| - start) / 2
  {
    seq((|bank| - start) / 2, i requires 0 <= i < (|bank| - start) / 2 => Half(bank, start + 2 * i))
  }

  /** The bits of the halfwords, least significant first. */
  function BitStream(h: seq<half>): (s: seq<nat>)
    ensures |s| == 16 * |h|
  {
    seq(16 * |h|, k requires 0 <= k < 16 * |h| => Shr(h[k / 16], k % 16) % 2)
  }

  /** The n bits from position pos as a number, first bit least significant. */
  function Bits(s: seq<nat>, pos: nat, n: nat): nat
    requires pos + n <= |s|
    decreases n, |s|
  {
    if n == 0 then 0 else s[pos] % 2 + 2 * Bits(s, pos + 1, n - 1)
  }

  lemma {:induction false} BitsConcat(s: seq<nat>, pos: nat, m: nat, n: nat)
    requires pos + m + n <= |s|
    ensures Bits(s, pos, m + n) == Bits(s, pos, m) + Shl(Bits(s, pos + m, n), m)
    decreases m
  {
    if m > 0 { BitsConcat(s, pos + 1, m - 1, n); }
  }

  lemma {:induction false} SplitBit(b: nat, rest: nat)
    ensures (b % 2 + 2 * rest) % 2 == b % 2 && (b % 2 + 2 * rest) / 2 == rest
  {}

  lemma {:induction false} BitsSplit(s: seq<nat>, pos: nat, m: nat, n: nat)
    requires pos + m + n <= |s|
    ensures LowBits(Bits(s, pos, m + n), m) == Bits(s, pos, m)
    ensures Shr(Bits(s, pos, m + n), m) == Bits(s, pos + m, n)
    decreases m
  {
    if m > 0 {
      var rest := Bits(s, pos + 1, m - 1 + n);
      BitsSplit(s, pos + 1, m - 1, n);
      SplitBit(s[pos], rest);
      assert Bits(s, pos, m + n) == s[pos] % 2 + 2 * rest;
    }
  }

  /** A whole halfword is its sixteen bits. */
  lemma {:induction false} BitsOfHalf(h: seq<half>, index: nat, k: nat)
    requires index < |h| && k <= 16
    ensures Bits(BitStream(h), 16 * index + k, 16 - k) == Shr(h[index], k)
    decreases 16 - k
  {
    if k < 16 {
      BitsOfHalf(h, index, k + 1);
      BitOfHalf(h, index, k);
      ShrStep(h[index], k);
    } else {
      Shl16();
      ShrAll(h[index], 16, 0x10000);
    }
  }

  lemma {:induction false} BitOfHalf(h: seq<half>, index: nat, k: nat)
    requires index < |h| && k < 16
    ensures BitStream(h)[16 * index + k] == Shr(h[index], k) % 2
  {
    assert (16 * index + k) / 16 == index && (16 * index + k) % 16 == k;
  }

  lemma {:induction false} Shl16()
    ensures Shl(1, 16) == 0x10000
  {
    assert Shl(1, 4) == 0x10 && Shl(1, 8) == 0x100 && Shl(1, 12) == 0x1000;
  }

  /** A run of bits that spells the given halfwords. */
  ghost predicate Spells(h: seq<half>, s: seq<nat>) {
    |s| == 16 * |h| && forall i: nat | i < |h| :: SpellsAt(h, s, i, 16)
  }

  ghost predicate SpellsAt(h: seq<half>, s: seq<nat>, i: nat, n: nat)
    requires i < |h|
  {
    16 * i + n <= |s| && Bits(s, 16 * i, n) == h[i]
  }

  lemma {:induction false} BitStreamSpells(h: seq<half>)
    ensures Spells(h, BitStream(h))
  {
    forall i: nat | i < |h| ensures SpellsAt(h, BitStream(h), i, 16) { BitsOfHalf(h, i, 0); }
  }

  /** Appending the next halfword above the buffered bits extends them by the next sixteen bits of the stream. */
  lemma {:induction false} RefilledBits(s: seq<nat>, x: nat, consumed: nat, remaining: nat, n: nat)
    requires consumed + remaining + n <= |s| && Bits(s, consumed + remaining, n) == x
    ensures Bits(s, consumed, remaining + n) == Bits(s, consumed, remaining) + Shl(x, remaining)
  {
    BitsConcat(s, consumed, remaining, n);
  }

  /** Masking and shifting the buffered bits splits them at n. */
  lemma {:induction false} TakenBits(s: seq<nat>, consumed: nat, remaining: nat, n: nat)
    requires consumed + remaining <= |s| && n <= remaining
    ensures LowBits(Bits(s, consumed, remaining), n) == Bits(s, consumed, n)
    ensures Shr(Bits(s, consumed, remaining), n) == Bits(s, consumed + n, remaining - n)
  {
    BitsSplit(s, consumed, n, remaining - n);
  }

  /** The lazily refilled reader of one channel. */
  class BitReader {
    const bank: seq<byte>
    const start: nat
    var bits: nat
    var remaining: nat
    var cursor: nat
    var consumed: nat
    ghost const halves: seq<half>
    ghost const stream: seq<nat>
    ghost var loaded: nat

    /** The unread part of the buffered halfwords is exactly the next bits of the stream. */
    ghost predicate Valid()
      reads this
    {
      && start <= |bank| && halves == Halfwords(bank, start) && Spells(halves, stream)
      && loaded <= |halves| && cursor == start + 2 * loaded
      && consumed + remaining == 16 * loaded
      && bits == Bits(stream, consumed, remaining)
    }

    constructor (bank: seq<byte>, start: nat)
      requires start <= |bank|
      ensures Valid() && this.bank == bank && this.start == start && consumed == 0
      ensures stream == BitStream(Halfwords(bank, start))
    {
      this.bank := bank;
      this.start := start;
      bits, remaining, cursor, consumed := 0, 0, start, 0;
      halves, stream, loaded := Halfwords(bank, start), BitStream(Halfwords(bank, start)), 0;
      BitStreamSpells(Halfwords(bank, start));
    }

    method Refill()
      requires Valid() && cursor + 2 <= |bank|
      modifies this
      ensures Valid() && consumed == old(consumed) && remaining == old(remaining) + 16
    {
      assert SpellsAt(halves, stream, loaded, 16);
      RefilledBits(stream, halves[loaded], consumed, remaining, 16);
      bits := bits + Shl(Half(bank, cursor), remaining);
      cursor := cursor + 2;
      remaining := remaining + 16;
      loaded := loaded + 1;
    }

    method Fill(n: nat) returns (ok: bool)
      requires Valid()
      modifies this
      ensures Valid() && consumed == old(consumed)
      ensures ok <==> consumed + n <= |stream|
      ensures ok ==> remaining >= n
    {
      while remaining < n
        invariant Valid() && consumed == old(consumed)
      {
        if cursor + 2 > |bank| {
          return false;
        }
        Refill();
      }
      return true;
    }

    /** Takes exactly the next n bits, or fails where the stream ends. */
    method Take(n: nat) returns (r: Option<nat>)
      requires Valid()
      modifies this
      ensures Valid()
      ensures r.Some? <==> old(consumed) + n <= |stream|
      ensures r.Some? ==> r.value == Bits(stream, old(consumed), n) && consumed == old(consumed) + n
    {
      var ok := Fill(n);
      if !ok {
        return None;
      }
      TakenBits(stream, consumed, remaining, n);
      var value := LowBits(bits, n);
      bits := Shr(bits, n);
      remaining := remaining - n;
      consumed := consumed + n;
      return Some(value);
    }
  }

  // ---- One channel of a block ----

  /** A channel in flight: its bits, its declared span in halfwords, and the state one step carries to the next. */
  datatype Channel = Channel(stream: seq<nat>, span: nat, shift: nat, value: int, repeat: nat, code: nat, pos: nat)

  function Width(code: nat): nat {
    if code == 1 || code == 6 then 6 else if code == 2 || code == 5 then 4 else 2
  }

  function Bias(code: nat): int {
    if code == 1 then -84 else if code == 2 then -20 else if code == 3 then -4
    else if code == 4 then 1 else if code == 5 then 5 else 21
  }

  /** A repeated code costs nothing; a fresh one takes four bits, and four more when it carries a repeat count. */
  function ReadCode(c: Channel): Option<Channel> {
    if c.repeat > 0 then Some(c.(repeat := c.repeat - 1))
    else if c.pos + 4 > |c.stream| then None
    else
      var code := Bits(c.stream, c.pos, 4);
      if code < 8 then Some(c.(code := code, pos := c.pos + 4))
      else if c.pos + 8 > |c.stream| then None
      else Some(c.(code := code - 8, repeat := (Bits(c.stream, c.pos + 4, 4) + 1) % 16, pos := c.pos + 8))
  }

  /** Code 7 replaces the value, codes 1 to 6 add a biased delta, code 0 keeps it. */
  function ApplyCode(c: Channel): Option<Channel> {
    if c.code == 0 then Some(c)
    else
      var width := if c.code == 7 then 12 else Width(c.code);
      if c.pos + width > |c.stream| then None
      else
        var field := Bits(c.stream, c.pos, width);
        var value := if c.code == 7 then Shl(field, c.shift) else c.value + Shl(field + Bias(c.code), c.shift);
        Some(c.(value := value, pos := c.pos + width))
  }

  function Step(c: Channel): Option<Channel> {
    match ReadCode(c)
    case None => None
    case Some(c1) =>
      match ApplyCode(c1)
      case None => None
      case Some(c2) => if c2.pos > c2.span * 16 then None else Some(c2)
  }

  // ---- A block: all its channels, frame by frame ----

  /** The channel that starts at a byte offset, and where the next one starts. */
  function OpenChannel(bank: seq<byte>, cursor: nat, i: nat, value: int): Option<(Channel, nat)> {
    if cursor > |bank| then None
    else
      var stream := BitStream(Halfwords(bank, cursor));
      if |stream| < 4 then None
      else
        var span := Bits(stream, 0, 4);
        if span == 0 || cursor + span * 2 > |bank| then None
        else Some((Channel(stream, span, if i == 1 || i == 2 then 2 else 4, value, 0, 0, 4), cursor + span * 2))
  }

  function OpenBlock(bank: seq<byte>, cursor: nat, values: seq<int>, i: nat): Option<seq<Channel>>
    decreases |values| - i
  {
    if i >= |values| then Some([])
    else match OpenChannel(bank, cursor, i, values[i])
      case None => None
      case Some(entry) =>
        match OpenBlock(bank, entry.1, values, i + 1)
        case None => None
        case Some(rest) => Some([entry.0] + rest)
  }

  /** One frame of the stream: every channel takes one step. */
  function NextFrame(cs: seq<Channel>): Option<seq<Channel>> {
    if cs == [] then Some([])
    else match Step(cs[0])
      case None => None
      case Some(c) => Joined(Some([c]), NextFrame(cs[1..]))
  }

  /** The streaming decoder: k frames of all channels in step. */
  function Streamed(cs: seq<Channel>, k: nat): Option<seq<Channel>>
    decreases k, |cs|
  {
    if k == 0 then Some(cs)
    else match Streamed(cs, k - 1)
      case None => None
      case Some(s) => NextFrame(s)
  }

  function FrameValues(cs: seq<Channel>): (vs: seq<half>)
    ensures |vs| == |cs|
  {
    seq(|cs|, i requires 0 <= i < |cs| => cs[i].value % 65536)
  }

  function HalvesAt(bank: seq<byte>, at: nat, n: nat): (vs: seq<half>)
    requires at + 2 * n <= |bank|
    ensures |vs| == n
  {
    seq(n, i requires 0 <= i < n => Half(bank, at + 2 * i))
  }

  /** What a frame of a clip is: the stored first and last poses, and between them a position in a block's stream. */
  function Frame(bank: seq<byte>, base: int, frame: int, channels: int): Option<seq<half>> {
    if frame < 0 || !(1 <= channels <= 57) || base < 0 || base + 0x130 > |bank| || bank[base] == 0 then None
    else if frame + 1 >= bank[base] then Some(HalvesAt(bank, base + 0x74, channels))
    else if frame == 0 then Some(HalvesAt(bank, base + 2, channels))
    else
      BlockFrame(bank, BlockStart(bank, base, (frame - 1) / 16), HalvesAt(bank, base + 2, channels), (frame - 1) % 16 + 1)
  }

  function BlockStart(bank: seq<byte>, base: nat, block: nat): nat
    requires base + 0x130 <= |bank| && block < 16
  {
    base + Half(bank, base + 0xE6 + block * 2) * 2
  }

  /** The poses after k frames of the block that starts at cursor, from the clip's first pose. */
  function BlockFrame(bank: seq<byte>, cursor: nat, first: seq<half>, k: nat): Option<seq<half>> {
    match OpenBlock(bank, cursor, first, 0)
    case None => None
    case Some(cs) =>
      match Streamed(cs, k)
      case None => None
      case Some(s) => Some(FrameValues(s))
  }

  // ---- Channel by channel equals frame by frame ----

  /** The random-access order: one channel takes all its steps before the next channel starts. */
  function Steps(c: Channel, k: nat): Option<Channel>
    decreases k, c.span
  {
    if k == 0 then Some(c)
    else match Steps(c, k - 1)
      case None => None
      case Some(d) => Step(d)
  }

  function ChannelWise(cs: seq<Channel>, k: nat): Option<seq<Channel>>
    decreases |cs|
  {
    if cs == [] then Some([])
    else match Steps(cs[0], k)
      case None => None
      case Some(c) => Joined(Some([c]), ChannelWise(cs[1..], k))
  }

  lemma {:induction false} ChannelWiseStep(cs: seq<Channel>, k: nat)
    ensures ChannelWise(cs, k + 1) ==
            match ChannelWise(cs, k) case None => None case Some(s) => NextFrame(s)
    decreases |cs|
  {
    if cs != [] {
      ChannelWiseStep(cs[1..], k);
      var head, rest := Steps(cs[0], k), ChannelWise(cs[1..], k);
      if head.Some? && rest.Some? {
        var s := [head.value] + rest.value;
        assert s[0] == head.value && s[1..] == rest.value;
        assert ChannelWise(cs, k) == Some(s);
        assert NextFrame(s) == match Step(head.value) case None => None case Some(c) => Joined(Some([c]), NextFrame(rest.value));
      } else {
        assert ChannelWise(cs, k) == None;
      }
    }
  }

  lemma {:induction false} ChannelWiseNone(cs: seq<Channel>)
    ensures ChannelWise(cs, 0) == Some(cs)
    decreases |cs|
  {
    if cs != [] {
      ChannelWiseNone(cs[1..]);
      assert [cs[0]] + cs[1..] == cs;
    }
  }

  lemma {:induction false} Interchange(cs: seq<Channel>, k: nat)
    ensures ChannelWise(cs, k) == Streamed(cs, k)
    decreases k
  {
    if k == 0 {
      ChannelWiseNone(cs);
    } else {
      Interchange(cs, k - 1);
      ChannelWiseStep(cs, k - 1);
    }
  }

  // ---- The decoder ----

  /** What one channel contributes: its value after the given steps, and where the next channel starts. */
  function ChannelResult(bank: seq<byte>, cursor: nat, i: nat, value: int, steps: nat): Option<(Channel, nat)> {
    match OpenChannel(bank, cursor, i, value)
    case None => None
    case Some(entry) =>
      match Steps(entry.0, steps)
      case None => None
      case Some(c) => Some((c, entry.1))
  }

  /** The loop variables of one channel as a channel value. */
  ghost function Snapshot(reader: BitReader, span: nat, shift: nat, value: int, repeat: nat, code: nat): Channel
    reads reader
  {
    Channel(reader.stream, span, shift, value, repeat, code, reader.consumed)
  }

  method TakeCode(reader: BitReader, ghost span: nat, ghost shift: nat, ghost value: int, repeat0: nat, code0: nat)
    returns (ok: bool, repeat: nat, code: nat)
    requires reader.Valid()
    modifies reader
    ensures reader.Valid()
    ensures ok <==> ReadCode(old(Snapshot(reader, span, shift, value, repeat0, code0))).Some?
    ensures ok ==> ReadCode(old(Snapshot(reader, span, shift, value, repeat0, code0))) == Some(Snapshot(reader, span, shift, value, repeat, code))
  {
    repeat, code := repeat0, code0;
    if repeat != 0 {
      repeat := repeat - 1;
      return true, repeat, code;
    }
    var field := reader.Take(4);
    if field.None? {
      return false, repeat, code;
    }
    code := field.value;
    if code >= 8 {
      field := reader.Take(4);
      if field.None? {
        return false, repeat, code;
      }
      repeat := (field.value + 1) % 16;
      code := code - 8;
    }
    return true, repeat, code;
  }

  method TakeDelta(reader: BitReader, ghost span: nat, shift: nat, value0: int, ghost repeat: nat, code: nat)
    returns (ok: bool, value: int)
    requires reader.Valid()
    modifies reader
    ensures reader.Valid()
    ensures ok <==> ApplyCode(old(Snapshot(reader, span, shift, value0, repeat, code))).Some?
    ensures ok ==> ApplyCode(old(Snapshot(reader, span, shift, value0, repeat, code))) == Some(Snapshot(reader, span, shift, value, repeat, code))
  {
    value := value0;
    if code == 7 {
      var field := reader.Take(12);
      if field.None? {
        return false, value;
      }
      value := Shl(field.value, shift);
    } else if code != 0 {
      var field := reader.Take(Width(code));
      if field.None? {
        return false, value;
      }
      value := value + Shl(field.value + Bias(code), shift);
    }
    return true, value;
  }

  method OpenReader(bank: seq<byte>, cursor: nat) returns (reader: BitReader?, span: nat)
    ensures (reader != null) <==> forall i: nat, v: int :: OpenChannel(bank, cursor, i, v).Some?
    ensures (reader == null) <==> forall i: nat, v: int :: OpenChannel(bank, cursor, i, v) == None
    ensures reader != null ==> fresh(reader) && reader.Valid()
    ensures reader != null ==> forall i: nat, v: int ::
              OpenChannel(bank, cursor, i, v) == Some((Snapshot(reader, span, if i == 1 || i == 2 then 2 else 4, v, 0, 0), cursor + span * 2))
  {
    if cursor > |bank| {
      assert OpenChannel(bank, cursor, 0, 0) == None;
      return null, 0;
    }
    reader := new BitReader(bank, cursor);
    var field := reader.Take(4);
    if field.None? || field.value == 0 || cursor + field.value * 2 > |bank| {
      assert OpenChannel(bank, cursor, 0, 0) == None;
      return null, 0;
    }
    span := field.value;
    assert OpenChannel(bank, cursor, 0, 0).Some?;
  }

  method DecodeChannel(bank: seq<byte>, cursor: nat, i: nat, initial: int, steps: nat)
    returns (ok: bool, value: int, next: nat)
    ensures ok <==> ChannelResult(bank, cursor, i, initial, steps).Some?
    ensures ok ==> value == ChannelResult(bank, cursor, i, initial, steps).value.0.value
    ensures ok ==> next == ChannelResult(bank, cursor, i, initial, steps).value.1
  {
    value, next := initial, cursor;
    var reader, span := OpenReader(bank, cursor);
    if reader == null {
      return false, value, next;
    }
    next := cursor + span * 2;
    ok, value := RunChannel(reader, span, if i == 1 || i == 2 then 2 else 4, initial, steps);
  }

  method RunChannel(reader: BitReader, span: nat, shift: nat, initial: int, steps: nat) returns (ok: bool, value: int)
    requires reader.Valid()
    modifies reader
    ensures reader.Valid()
    ensures ok <==> Steps(old(Snapshot(reader, span, shift, initial, 0, 0)), steps).Some?
    ensures ok ==> value == Steps(old(Snapshot(reader, span, shift, initial, 0, 0)), steps).value.value
  {
    value := initial;
    var repeat, code := 0, 0;
    ghost var start := Snapshot(reader, span, shift, value, repeat, code);
    for k := 0 to steps
      invariant reader.Valid()
      invariant Steps(start, k) == Some(Snapshot(reader, span, shift, value, repeat, code))
    {
      ok, value, repeat, code := DecodeStep(reader, span, shift, value, repeat, code);
      if !ok {
        FailsOnwards(start, k + 1, steps);
        return false, value;
      }
    }
    return true, value;
  }

  method DecodeStep(reader: BitReader, span: nat, shift: nat, value0: int, repeat0: nat, code0: nat)
    returns (ok: bool, value: int, repeat: nat, code: nat)
    requires reader.Valid()
    modifies reader
    ensures reader.Valid()
    ensures ok <==> Step(old(Snapshot(reader, span, shift, value0, repeat0, code0))).Some?
    ensures ok ==> Step(old(Snapshot(reader, span, shift, value0, repeat0, code0))) == Some(Snapshot(reader, span, shift, value, repeat, code))
  {
    value := value0;
    ok, repeat, code := TakeCode(reader, span, shift, value, repeat0, code0);
    if !ok { return; }
    ok, value := TakeDelta(reader, span, shift, value, repeat, code);
    if !ok { return; }
    if reader.consumed > span * 16 {
      ok := false;
    }
  }

  lemma {:induction false} FailsOnwards(c: Channel, j: nat, k: nat)
    requires j <= k
    ensures Steps(c, k).Some? ==> Steps(c, j).Some?
    decreases k - j
  {
    if j < k { FailsOnwards(c, j, k - 1); }
  }

  /** The channels from i on, opened one behind the other and each run to the end before the next. */
  function Tail(bank: seq<byte>, cursor: nat, values: seq<int>, i: nat, steps: nat): Option<seq<Channel>>
    decreases |values| - i
  {
    if i >= |values| then Some([])
    else match ChannelResult(bank, cursor, i, values[i], steps)
      case None => None
      case Some(r) => Joined(Some([r.0]), Tail(bank, r.1, values, i + 1, steps))
  }

  lemma {:induction false} TailIsStreamed(bank: seq<byte>, cursor: nat, values: seq<int>, i: nat, steps: nat)
    ensures Tail(bank, cursor, values, i, steps) ==
            match OpenBlock(bank, cursor, values, i) case None => None case Some(cs) => Streamed(cs, steps)
    decreases |values| - i
  {
    if i < |values| {
      match OpenChannel(bank, cursor, i, values[i])
      case None =>
      case Some(entry) =>
        TailIsStreamed(bank, entry.1, values, i + 1, steps);
        match OpenBlock(bank, entry.1, values, i + 1)
        case None =>
        case Some(rest) =>
          var cs := [entry.0] + rest;
          assert cs[0] == entry.0 && cs[1..] == rest;
          Interchange(rest, steps);
          Interchange(cs, steps);
    } else {
      Interchange([], steps);
    }
  }

  lemma {:induction false} TailStep(bank: seq<byte>, cursor: nat, values: seq<int>, i: nat, steps: nat, done: seq<Channel>)
    requires i < |values|
    ensures Joined(Some(done), Tail(bank, cursor, values, i, steps)) ==
            match ChannelResult(bank, cursor, i, values[i], steps)
            case None => None
            case Some(r) => Joined(Some(done + [r.0]), Tail(bank, r.1, values, i + 1, steps))
  {
    var r := ChannelResult(bank, cursor, i, values[i], steps);
    if r.Some? { JoinedStep(done, [r.value.0], Tail(bank, r.value.1, values, i + 1, steps)); }
  }

  /** The words of the channels, where they all decode. */
  function ValuesOf(cs: Option<seq<Channel>>): Option<seq<half>> {
    if cs.None? then None else Some(FrameValues(cs.value))
  }

  lemma {:induction false} TailIsFrame(bank: seq<byte>, first: nat, stored: seq<half>, steps: nat)
    ensures ValuesOf(Tail(bank, first, stored, 0, steps)) == BlockFrame(bank, first, stored, steps)
  {
    TailIsStreamed(bank, first, stored, 0, steps);
  }

  method DecodeChannels(bank: seq<byte>, first: nat, stored: seq<half>, steps: nat) returns (r: Option<seq<half>>)
    ensures r == ValuesOf(Tail(bank, first, stored, 0, steps))
  {
    var cursor: nat := first;
    var values: seq<half> := [];
    ghost var done: seq<Channel> := [];
    JoinedEmpty(Tail(bank, cursor, stored, 0, steps));
    for channel := 0 to |stored|
      invariant |done| == channel && values == FrameValues(done)
      invariant Tail(bank, first, stored, 0, steps) == Joined(Some(done), Tail(bank, cursor, stored, channel, steps))
    {
      TailStep(bank, cursor, stored, channel, steps, done);
      var ok, value, next := DecodeChannel(bank, cursor, channel, stored[channel], steps);
      if !ok {
        return None;
      }
      ghost var c := ChannelResult(bank, cursor, channel, stored[channel], steps).value.0;
      done := done + [c];
      values := values + [value % 65536];
      cursor := next;
    }
    assert done + [] == done;
    return Some(values);
  }

  method DecodeBlock(bank: seq<byte>, first: nat, stored: seq<half>, steps: nat) returns (r: Option<seq<half>>)
    ensures r == BlockFrame(bank, first, stored, steps)
  {
    r := DecodeChannels(bank, first, stored, steps);
    TailIsFrame(bank, first, stored, steps);
  }

  /** Random access: decodes the frame channel by channel, and agrees with the frame-by-frame stream. */
  method Decode(bank: seq<byte>, base: int, frame: int, channels: int) returns (r: Option<seq<half>>)
    ensures r == Frame(bank, base, frame, channels)
  {
    if frame < 0 || !(1 <= channels <= 57) {
      return None;
    }
    if base < 0 || base + 0x130 > |bank| {
      return None;
    }
    var count := bank[base];
    if count == 0 {
      return None;
    }
    if frame + 1 >= count {
      return Some(HalvesAt(bank, base + 0x74, channels));
    }
    var stored := HalvesAt(bank, base + 2, channels);
    if frame == 0 {
      return Some(stored);
    }
    var block, within := (frame - 1) / 16, (frame - 1) % 16;
    r := DecodeBlock(bank, BlockStart(bank, base, block), stored, within + 1);
  }

  // ---- What random access promises ----

  lemma {:induction false} StreamedAdds(cs: seq<Channel>, j: nat, k: nat)
    ensures Streamed(cs, j + k) == match Streamed(cs, j) case None => None case Some(s) => Streamed(s, k)
    decreases k
  {
    if k > 0 { StreamedAdds(cs, j, k - 1); }
  }

  lemma {:induction false} EarlierInBlock(bank: seq<byte>, cursor: nat, first: seq<half>, j: nat, k: nat)
    requires j <= k && BlockFrame(bank, cursor, first, k).Some?
    ensures BlockFrame(bank, cursor, first, j).Some?
    ensures var cs := OpenBlock(bank, cursor, first, 0).value;
            Streamed(cs, j).Some? && Streamed(cs, k) == Streamed(Streamed(cs, j).value, k - j)
  {
    StreamedAdds(OpenBlock(bank, cursor, first, 0).value, j, k - j);
  }

  /** A frame inside a clip that decodes makes every earlier frame of its block decode. */
  lemma {:induction false} EarlierFramesDecode(bank: seq<byte>, base: int, frame: int, earlier: int, channels: int)
    requires 0 < earlier <= frame && (earlier - 1) / 16 == (frame - 1) / 16
    requires Frame(bank, base, frame, channels).Some? && frame + 1 < bank[base]
    ensures Frame(bank, base, earlier, channels).Some?
  {
    EarlierInBlock(bank, BlockStart(bank, base, (frame - 1) / 16), HalvesAt(bank, base + 2, channels),
                   (earlier - 1) % 16 + 1, (frame - 1) % 16 + 1);
  }

  // ---- A frame has a value per channel ----

  lemma {:induction false} FrameLength(bank: seq<byte>, base: int, frame: int, channels: int)
    requires Frame(bank, base, frame, channels).Some?
    ensures channels >= 0 && |Frame(bank, base, frame, channels).value| == channels
  {
    if frame + 1 < bank[base] && frame != 0 {
      var cursor := BlockStart(bank, base, (frame - 1) / 16);
      var first := HalvesAt(bank, base + 2, channels);
      OpenLength(bank, cursor, first, 0);
      StreamedLength(OpenBlock(bank, cursor, first, 0).value, (frame - 1) % 16 + 1);
    }
  }

  lemma {:induction false} OpenLength(bank: seq<byte>, cursor: nat, values: seq<int>, i: nat)
    requires i <= |values|
    ensures OpenBlock(bank, cursor, values, i).Some? ==> |OpenBlock(bank, cursor, values, i).value| == |values| - i
    decreases |values| - i
  {
    if i < |values| {
      match OpenChannel(bank, cursor, i, values[i])
      case None =>
      case Some(entry) => OpenLength(bank, entry.1, values, i + 1);
    }
  }

  lemma {:induction false} NextLength(cs: seq<Channel>)
    ensures NextFrame(cs).Some? ==> |NextFrame(cs).value| == |cs|
    decreases |cs|
  {
    if cs != [] { NextLength(cs[1..]); }
  }

  lemma {:induction false} StreamedLength(cs: seq<Channel>, k: nat)
    ensures Streamed(cs, k).Some? ==> |Streamed(cs, k).value| == |cs|
    decreases k
  {
    if k > 0 {
      StreamedLength(cs, k - 1);
      if Streamed(cs, k - 1).Some? { NextLength(Streamed(cs, k - 1).value); }
    }
  }
}
