/** The bounded LZ decoder for interface images and its literal encoder (tools/prepare_jun_ui.py). */
module Lz {
  import opened Options
  import opened Bytes

  const CAP := 0x200000

  // ---- Tokens and their meaning ----

  datatype Token = Literal(value: byte) | Reference(high: byte, low: byte)

  function Distance(t: Token): (d: nat)
    requires t.Reference?
    ensures 1 <= d <= 2048
  {
    var d := t.high % 8 * 256 + t.low;
    if d == 0 then 2048 else d
  }

  function Length(t: Token): (n: nat)
    requires t.Reference?
    ensures 1 <= n <= 32
  {
    if t.high / 8 == 0 then 32 else t.high / 8
  }

  /** Every distance up to 2048 and length up to 32 has its reference. */
  lemma {:induction false} ReferenceExists(distance: nat, length: nat) returns (t: Token)
    requires 1 <= distance <= 2048 && 1 <= length <= 32
    ensures t.Reference? && Distance(t) == distance && Length(t) == length
  {
    t := Reference(length % 32 * 8 + distance % 2048 / 256, distance % 256);
    assert distance % 2048 / 256 * 256 + distance % 256 == distance % 2048;
  }

  /** The two bytes, high byte first, are the distance in eleven bits and the length in five above, with the full ones as zero. */
  lemma {:induction false} ReferenceBytes(t: Token)
    requires t.Reference?
    ensures 256 * t.high + t.low == Distance(t) % 2048 + 2048 * (Length(t) % 32)
  {
    assert t.high == 8 * (t.high / 8) + t.high % 8;
    ReferenceParts(t.high / 8, t.high % 8, t.low);
  }

  lemma {:induction false} ReferenceParts(top: nat, rest: nat, low: byte)
    requires top < 32 && rest < 8
    ensures var t := Reference(8 * top + rest, low); Distance(t) % 2048 == 256 * rest + low && Length(t) % 32 == top
  {
    assert (8 * top + rest) / 8 == top && (8 * top + rest) % 8 == rest;
  }

  /** No two references mean the same. */
  lemma {:induction false} ReferencesDiffer(t: Token, u: Token)
    requires t.Reference? && u.Reference? && Distance(t) == Distance(u) && Length(t) == Length(u)
    ensures t == u
  {
    ReferenceBytes(t);
    ReferenceBytes(u);
  }

  /** Byte after byte, each a copy of the one distance before it: copies may overlap what they produce. */
  function Extended(out: seq<byte>, distance: nat, n: nat): (r: seq<byte>)
    requires 1 <= distance <= |out|
    ensures |r| == |out| + n && out <= r
    decreases n, |out|
  {
    if n == 0 then out
    else
      var before := Extended(out, distance, n - 1);
      before + [before[|before| - distance]]
  }

  lemma {:induction false} Grows(out: seq<byte>, distance: nat, n: nat, m: nat)
    requires 1 <= distance <= |out| && n <= m
    ensures Extended(out, distance, n) <= Extended(out, distance, m)
    decreases m
  {
    if n < m { Grows(out, distance, n, m - 1); }
  }

  /** The k-th new byte is the one distance before it. */
  lemma {:induction false} CopiedFrom(out: seq<byte>, distance: nat, n: nat, k: nat)
    requires 1 <= distance <= |out| && k < n
    ensures Extended(out, distance, n)[|out| + k] == Extended(out, distance, n)[|out| + k - distance]
  {
    Grows(out, distance, k, n);
    Grows(out, distance, k + 1, n);
    var before, after := Extended(out, distance, k), Extended(out, distance, n);
    assert Extended(out, distance, k + 1) == before + [before[|before| - distance]];
  }

  /** A reference repeats the last distance bytes periodically, however long it is. */
  lemma {:induction false} Periodic(out: seq<byte>, distance: nat, n: nat, k: nat)
    requires 1 <= distance <= |out| && k < n
    ensures Extended(out, distance, n)[|out| + k] == out[|out| - distance + k % distance]
    decreases k
  {
    CopiedFrom(out, distance, n, k);
    if k >= distance {
      Periodic(out, distance, n, k - distance);
      Wraps(k, distance);
    } else {
      InFirst(k, distance);
    }
  }

  lemma {:induction false} InFirst(k: nat, d: nat)
    requires k < d
    ensures k % d == k
  {}

  lemma {:induction false} Wraps(k: nat, d: nat)
    requires 1 <= d <= k
    ensures (k - d) % d == k % d
  {
    var x := (k - d) / d + 1 - k / d;
    assert d * x == d * ((k - d) / d) + d - d * (k / d);
    if x >= 1 {
      NoSmaller(d, x);
    } else if x <= -1 {
      var y: nat := -x;
      assert d * x == -(d * y) && d * y >= d by { NoSmaller(d, y); Negated(d, x); }
    }
  }

  lemma {:induction false} Negated(d: int, x: int)
    ensures d * x == -(d * -x)
  {}

  lemma {:induction false} NoSmaller(d: nat, x: nat)
    requires x >= 1
    ensures d * x >= d
  {
    assert d * x == d + d * (x - 1) && d * (x - 1) >= 0;
  }

  /** Appends what a token stands for; none if it reaches back too far or the image grows beyond the cap. */
  function Applied(out: seq<byte>, t: Token): Option<seq<byte>> {
    if t.Reference? && Distance(t) > |out| then None
    else
      var r := if t.Literal? then out + [t.value] else Extended(out, Distance(t), Length(t));
      if |r| > CAP then None else Some(r)
  }

  function Meaning(ts: seq<Token>, out: seq<byte>): Option<seq<byte>> {
    if ts == [] then Some(out)
    else match Applied(out, ts[0])
      case None => None
      case Some(more) => Meaning(ts[1..], more)
  }

  // ---- The bytes of a stream ----

  function Size(t: Token): nat { if t.Literal? then 1 else 2 }

  function TokenBytes(t: Token): (b: seq<byte>)
    ensures |b| == Size(t)
  {
    if t.Literal? then [t.value] else [t.high, t.low]
  }

  function TokensBytes(ts: seq<Token>): seq<byte> {
    if ts == [] then [] else TokenBytes(ts[0]) + TokensBytes(ts[1..])
  }

  /** One bit per token, lowest first, under a one that ends them. */
  function Flags(ts: seq<Token>): (f: nat)
    ensures f >= 1
  {
    if ts == [] then 1 else (if ts[0].Literal? then 1 else 0) + 2 * Flags(ts[1..])
  }

  lemma {:induction false} FlagsBound(ts: seq<Token>, n: nat)
    requires |ts| <= n
    ensures Flags(ts) < Power(n + 1)
  {
    if ts != [] { FlagsBound(ts[1..], n - 1); } else { PowerPositive(n); }
  }

  function Power(n: nat): nat { if n == 0 then 1 else 2 * Power(n - 1) }

  lemma {:induction false} PowerPositive(n: nat)
    ensures Power(n + 1) > 1
  {
    if n > 0 { PowerPositive(n - 1); }
  }

  lemma {:induction false} FlagsByte(ts: seq<Token>)
    requires |ts| <= 7
    ensures Flags(ts) < 256
  {
    FlagsBound(ts, 7);
    assert Power(8) == 256;
  }

  predicate IsGroup(ts: seq<Token>) { |ts| <= 7 }

  function GroupBytes(ts: seq<Token>): seq<byte>
    requires IsGroup(ts)
  {
    FlagsByte(ts);
    [Flags(ts)] + TokensBytes(ts)
  }

  ghost predicate IsStream(groups: seq<seq<Token>>) { forall k | 0 <= k < |groups| :: IsGroup(groups[k]) }

  function StreamBytes(groups: seq<seq<Token>>): seq<byte>
    requires IsStream(groups)
  {
    if groups == [] then [0] else GroupBytes(groups[0]) + StreamBytes(groups[1..])
  }

  function StreamMeaning(groups: seq<seq<Token>>, out: seq<byte>): Option<seq<byte>> {
    if groups == [] then Some(out)
    else match Meaning(groups[0], out)
      case None => None
      case Some(more) => StreamMeaning(groups[1..], more)
  }

  // ---- The decoder ----

  datatype Reached = Reached(out: seq<byte>, pos: nat)

  function ReadToken(data: seq<byte>, pos: nat, literal: bool): (r: Option<Token>)
    ensures r.Some? ==> r.value.Literal? == literal && pos + Size(r.value) <= |data|
  {
    if literal then
      if pos >= |data| then None else Some(Literal(data[pos]))
    else if pos + 2 > |data| then None
    else Some(Reference(data[pos], data[pos + 1]))
  }

  /** A reference in the stream: the two bytes it is read from are distance and length as one big-endian number. */
  lemma {:induction false} ReferenceRead(data: seq<byte>, pos: nat)
    requires ReadToken(data, pos, false).Some?
    ensures var t := ReadToken(data, pos, false).value;
      t.Reference? && data[pos] as int * 256 + data[pos + 1] == Distance(t) % 2048 + 2048 * (Length(t) % 32)
  {
    ReferenceBytes(ReadToken(data, pos, false).value);
  }

  datatype Parsed<T> = Parsed(items: seq<T>, pos: nat)

  function ParseGroup(data: seq<byte>, pos: nat, flags: nat): (r: Option<Parsed<Token>>)
    ensures r.Some? ==> pos <= r.value.pos
    decreases flags
  {
    if flags < 2 then Some(Parsed([], pos))
    else match ReadToken(data, pos, flags % 2 == 1)
      case None => None
      case Some(t) =>
        match ParseGroup(data, pos + Size(t), flags / 2)
        case None => None
        case Some(rest) => Some(Parsed([t] + rest.items, rest.pos))
  }

  function ParseStream(data: seq<byte>, pos: nat): (r: Option<Parsed<seq<Token>>>)
    ensures r.Some? ==> pos < r.value.pos
    decreases |data| - pos
  {
    if pos >= |data| then None
    else if data[pos] == 0 then Some(Parsed([], pos + 1))
    else match ParseGroup(data, pos + 1, data[pos])
      case None => None
      case Some(group) =>
        match ParseStream(data, group.pos)
        case None => None
        case Some(rest) => Some(Parsed([group.items] + rest.items, rest.pos))
  }

  /** What a stream decodes to: its tokens applied one after the other. */
  function Decoded(stream: Option<Parsed<seq<Token>>>, out: seq<byte>): Option<Reached> {
    if stream.None? then None
    else match StreamMeaning(stream.value.items, out)
      case None => None
      case Some(image) => Some(Reached(image, stream.value.pos))
  }

  function DecodedGroup(group: Option<Parsed<Token>>, out: seq<byte>): Option<Reached> {
    if group.None? then None
    else match Meaning(group.value.items, out)
      case None => None
      case Some(image) => Some(Reached(image, group.value.pos))
  }

  lemma {:induction false} TokenStep(data: seq<byte>, pos: nat, flags: nat, out: seq<byte>)
    requires flags >= 2
    ensures var t := ReadToken(data, pos, flags % 2 == 1);
            DecodedGroup(ParseGroup(data, pos, flags), out) ==
            if t.None? || Applied(out, t.value).None? then None
            else DecodedGroup(ParseGroup(data, pos + Size(t.value), flags / 2), Applied(out, t.value).value)
  {
    var t := ReadToken(data, pos, flags % 2 == 1);
    if t.Some? && ParseGroup(data, pos + Size(t.value), flags / 2).Some? {
      MeaningFirst(t.value, ParseGroup(data, pos + Size(t.value), flags / 2).value.items, out);
    }
  }

  lemma {:induction false} MeaningFirst(t: Token, ts: seq<Token>, out: seq<byte>)
    ensures Meaning([t] + ts, out) == if Applied(out, t).None? then None else Meaning(ts, Applied(out, t).value)
  {
    assert ([t] + ts)[1..] == ts;
  }

  method Copy(out0: seq<byte>, distance: nat, length: nat) returns (out: seq<byte>)
    requires 1 <= distance <= |out0|
    ensures out == Extended(out0, distance, length)
  {
    out := out0;
    for n := 0 to length
      invariant out == Extended(out0, distance, n)
    {
      out := out + [out[|out| - distance]];
    }
  }

  method Group(data: seq<byte>, pos0: nat, flags0: nat, out0: seq<byte>) returns (ok: bool, pos: nat, out: seq<byte>)
    ensures DecodedGroup(ParseGroup(data, pos0, flags0), out0) == if ok then Some(Reached(out, pos)) else None
    ensures ok ==> pos0 <= pos
  {
    pos, out := pos0, out0;
    var flags := flags0;
    while flags >= 2
      invariant pos0 <= pos && DecodedGroup(ParseGroup(data, pos0, flags0), out0) == DecodedGroup(ParseGroup(data, pos, flags), out)
    {
      TokenStep(data, pos, flags, out);
      var token := ReadToken(data, pos, flags % 2 == 1);
      if token.None? {
        return false, pos, out;
      }
      var applied := Apply(out, token.value);
      if applied.None? {
        return false, pos, out;
      }
      out, pos, flags := applied.value, pos + Size(token.value), flags / 2;
    }
    return true, pos, out;
  }

  method Apply(out0: seq<byte>, t: Token) returns (r: Option<seq<byte>>)
    ensures r == Applied(out0, t)
  {
    var out := out0;
    if t.Literal? {
      out := out + [t.value];
    } else {
      if Distance(t) > |out| {
        return None;
      }
      out := Copy(out, Distance(t), Length(t));
    }
    if |out| > CAP {
      return None;
    }
    return Some(out);
  }

  lemma {:induction false} GroupStep(data: seq<byte>, pos: nat, out: seq<byte>)
    requires pos < |data| && data[pos] != 0
    ensures var next := DecodedGroup(ParseGroup(data, pos + 1, data[pos]), out);
            Decoded(ParseStream(data, pos), out) == if next.None? then None else Decoded(ParseStream(data, next.value.pos), next.value.out)
  {
    var group := ParseGroup(data, pos + 1, data[pos]);
    if group.Some? && ParseStream(data, group.value.pos).Some? {
      StreamMeaningFirst(group.value.items, ParseStream(data, group.value.pos).value.items, out);
    }
  }

  lemma {:induction false} StreamMeaningFirst(ts: seq<Token>, groups: seq<seq<Token>>, out: seq<byte>)
    ensures StreamMeaning([ts] + groups, out) == if Meaning(ts, out).None? then None else StreamMeaning(groups, Meaning(ts, out).value)
  {
    assert ([ts] + groups)[1..] == groups;
  }

  method Decompress(data: seq<byte>, start: nat) returns (r: Option<Reached>)
    ensures r == match Decoded(ParseStream(data, start), []) case None => None case Some(whole) => Some(Reached(whole.out, whole.pos - start))
  {
    var out: seq<byte>, pos := [], start;
    while true
      invariant pos >= start && Decoded(ParseStream(data, start), []) == Decoded(ParseStream(data, pos), out)
      decreases |data| - pos
    {
      if pos >= |data| {
        return None;
      }
      var flags := data[pos];
      if flags == 0 {
        return Some(Reached(out, pos + 1 - start));
      }
      GroupStep(data, pos, out);
      var ok;
      ok, pos, out := Group(data, pos + 1, flags, out);
      if !ok {
        return None;
      }
    }
  }

  // ---- The decoder accepts exactly the encoded streams ----

  /** A token is read where its bytes lie, and only there. */
  lemma {:induction false} TokenRead(data: seq<byte>, pos: nat, t: Token)
    ensures ReadToken(data, pos, t.Literal?) == Some(t) <==> Holds(data, pos, TokenBytes(t))
  {
    if Holds(data, pos, TokenBytes(t)) {
      assert TokenBytes(t)[0] == data[pos];
      if t.Reference? { assert TokenBytes(t)[1] == data[pos + 1]; }
    }
  }

  lemma {:induction false} FlagsSplit(ts: seq<Token>)
    requires ts != []
    ensures Flags(ts) >= 2 && (Flags(ts) % 2 == 1) == ts[0].Literal? && Flags(ts) / 2 == Flags(ts[1..])
  {}

  lemma {:induction false} GroupComplete(data: seq<byte>, pos: nat, flags: nat, ts: seq<Token>)
    requires Holds(data, pos, TokensBytes(ts)) && flags == Flags(ts)
    ensures ParseGroup(data, pos, flags) == Some(Parsed(ts, pos + |TokensBytes(ts)|))
    decreases |ts|
  {
    if ts != [] {
      HoldsPart(data, pos, TokenBytes(ts[0]), TokensBytes(ts[1..]));
      TokenRead(data, pos, ts[0]);
      FlagsSplit(ts);
      GroupComplete(data, pos + Size(ts[0]), flags / 2, ts[1..]);
      assert [ts[0]] + ts[1..] == ts;
    }
  }

  lemma {:induction false} GroupSound(data: seq<byte>, pos: nat, flags: nat, n: nat)
    requires 1 <= flags < Power(n + 1) && ParseGroup(data, pos, flags).Some? && pos <= |data|
    ensures var r := ParseGroup(data, pos, flags).value;
            |r.items| <= n && Flags(r.items) == flags && Holds(data, pos, TokensBytes(r.items)) && r.pos == pos + |TokensBytes(r.items)|
    decreases flags
  {
    if flags >= 2 {
      var t := ReadToken(data, pos, flags % 2 == 1).value;
      assert Power(n + 1) == 2 * Power(n) && Power(1) == 2;
      GroupSound(data, pos + Size(t), flags / 2, n - 1);
      TokenRead(data, pos, t);
      GroupJoined(data, pos, t, ParseGroup(data, pos + Size(t), flags / 2).value.items);
    }
  }

  lemma {:induction false} GroupJoined(data: seq<byte>, pos: nat, t: Token, ts: seq<Token>)
    requires Holds(data, pos, TokenBytes(t)) && Holds(data, pos + Size(t), TokensBytes(ts))
    ensures Holds(data, pos, TokensBytes([t] + ts)) && |TokensBytes([t] + ts)| == Size(t) + |TokensBytes(ts)|
    ensures Flags([t] + ts) == (if t.Literal? then 1 else 0) + 2 * Flags(ts)
  {
    assert ([t] + ts)[1..] == ts;
    HoldsJoined(data, pos, TokenBytes(t), TokensBytes(ts));
  }

  lemma {:induction false} FirstGroup(data: seq<byte>, pos: nat, groups: seq<seq<Token>>)
    requires IsStream(groups) && groups != [] && Holds(data, pos, StreamBytes(groups))
    ensures pos < |data| && data[pos] == Flags(groups[0]) && Holds(data, pos + 1, TokensBytes(groups[0]))
    ensures Holds(data, pos + 1 + |TokensBytes(groups[0])|, StreamBytes(groups[1..]))
    ensures |StreamBytes(groups)| == 1 + |TokensBytes(groups[0])| + |StreamBytes(groups[1..])|
  {
    var ts := groups[0];
    FlagsByte(ts);
    HoldsPart(data, pos, GroupBytes(ts), StreamBytes(groups[1..]));
    HoldsPart(data, pos, [Flags(ts)], TokensBytes(ts));
    assert [Flags(ts)][0] == data[pos];
  }

  lemma {:induction false} FirstRead(data: seq<byte>, pos: nat, ts: seq<Token>, groups: seq<seq<Token>>, middle: nat, end: nat)
    requires pos < |data| && data[pos] != 0 && ParseGroup(data, pos + 1, data[pos]) == Some(Parsed(ts, middle))
    requires ParseStream(data, middle) == Some(Parsed(groups, end)) && pos < middle
    ensures ParseStream(data, pos) == Some(Parsed([ts] + groups, end))
  {}

  lemma {:induction false} StepComplete(data: seq<byte>, pos: nat, groups: seq<seq<Token>>, middle: nat, end: nat)
    requires IsStream(groups) && groups != [] && Holds(data, pos, StreamBytes(groups)) && middle == pos + 1 + |TokensBytes(groups[0])|
    requires ParseStream(data, middle) == Some(Parsed(groups[1..], end))
    ensures ParseStream(data, pos) == Some(Parsed(groups, end))
  {
    FirstGroup(data, pos, groups);
    GroupComplete(data, pos + 1, data[pos], groups[0]);
    FirstRead(data, pos, groups[0], groups[1..], middle, end);
    assert [groups[0]] + groups[1..] == groups;
  }

  /** An encoded stream is read back group by group, whatever precedes and follows it. */
  lemma {:induction false} StreamComplete(data: seq<byte>, pos: nat, groups: seq<seq<Token>>, end: nat)
    requires IsStream(groups) && Holds(data, pos, StreamBytes(groups)) && end == pos + |StreamBytes(groups)|
    ensures ParseStream(data, pos) == Some(Parsed(groups, end))
    decreases |groups|
  {
    if groups == [] {
      assert StreamBytes(groups)[0] == data[pos];
    } else {
      FirstGroup(data, pos, groups);
      var middle := pos + 1 + |TokensBytes(groups[0])|;
      StreamComplete(data, middle, groups[1..], end);
      StepComplete(data, pos, groups, middle, end);
    }
  }

  /** Whatever is read is the encoding of the groups that were read. */
  lemma {:induction false} StreamSound(data: seq<byte>, pos: nat)
    requires ParseStream(data, pos).Some?
    ensures var r := ParseStream(data, pos).value;
            IsStream(r.items) && Holds(data, pos, StreamBytes(r.items)) && r.pos == pos + |StreamBytes(r.items)|
    decreases |data| - pos
  {
    if data[pos] != 0 {
      var group := ParseGroup(data, pos + 1, data[pos]).value;
      assert Power(8) == 256;
      GroupSound(data, pos + 1, data[pos], 7);
      StreamSound(data, group.pos);
      StreamJoined(data, pos, group.items, ParseStream(data, group.pos).value.items);
    }
  }

  lemma {:induction false} StreamJoined(data: seq<byte>, pos: nat, ts: seq<Token>, groups: seq<seq<Token>>)
    requires pos < |data| && IsGroup(ts) && data[pos] == Flags(ts) && Holds(data, pos + 1, TokensBytes(ts))
    requires IsStream(groups) && Holds(data, pos + 1 + |TokensBytes(ts)|, StreamBytes(groups))
    ensures IsStream([ts] + groups) && Holds(data, pos, StreamBytes([ts] + groups))
    ensures |StreamBytes([ts] + groups)| == 1 + |TokensBytes(ts)| + |StreamBytes(groups)|
  {
    assert ([ts] + groups)[1..] == groups;
    HoldsJoined(data, pos, [Flags(ts)], TokensBytes(ts));
    HoldsJoined(data, pos, GroupBytes(ts), StreamBytes(groups));
  }

  /** The decoder reaches an image exactly if an encoding of tokens that mean it lies there. */
  lemma {:induction false} DecodesIff(data: seq<byte>, pos: nat, image: seq<byte>, end: nat)
    ensures Decoded(ParseStream(data, pos), []) == Some(Reached(image, end)) <==>
            exists groups :: IsStream(groups) && Holds(data, pos, StreamBytes(groups)) && end == pos + |StreamBytes(groups)|
                             && StreamMeaning(groups, []) == Some(image)
  {
    if Decoded(ParseStream(data, pos), []) == Some(Reached(image, end)) {
      StreamSound(data, pos);
      var groups := ParseStream(data, pos).value.items;
      assert IsStream(groups) && StreamMeaning(groups, []) == Some(image);
    }
    forall groups | IsStream(groups) && Holds(data, pos, StreamBytes(groups)) && end == pos + |StreamBytes(groups)| && StreamMeaning(groups, []) == Some(image)
      ensures Decoded(ParseStream(data, pos), []) == Some(Reached(image, end))
    {
      StreamComplete(data, pos, groups, end);
    }
  }

  // ---- Literal streams ----

  function Literals(d: seq<byte>): (ts: seq<Token>)
    ensures |ts| == |d|
  {
    seq(|d|, k requires 0 <= k < |d| => Literal(d[k]))
  }

  function LiteralGroups(d: seq<byte>): seq<seq<Token>> {
    if d == [] then [] else if |d| <= 7 then [Literals(d)] else [Literals(d[..7])] + LiteralGroups(d[7..])
  }

  lemma {:induction false} LiteralBytes(d: seq<byte>)
    ensures TokensBytes(Literals(d)) == d && Flags(Literals(d)) == Power(|d| + 1) - 1
  {
    if d != [] {
      LiteralBytes(d[1..]);
      assert Literals(d)[1..] == Literals(d[1..]);
    }
  }

  lemma {:induction false} LiteralMeaning(d: seq<byte>, out: seq<byte>)
    requires |out| <= CAP
    ensures Meaning(Literals(d), out) == if |out| + |d| <= CAP then Some(out + d) else None
    decreases |d|
  {
    if d == [] {
      assert out + d == out;
    } else {
      assert Literals(d)[1..] == Literals(d[1..]);
      if |out| < CAP {
        LiteralMeaning(d[1..], out + [d[0]]);
        assert out + [d[0]] + d[1..] == out + d;
      }
    }
  }

  function FirstSize(d: seq<byte>): (n: nat)
    ensures n <= |d| && (d != [] ==> n > 0)
  {
    if |d| <= 7 then |d| else 7
  }

  lemma {:induction false} LiteralFirst(d: seq<byte>)
    requires d != []
    ensures LiteralGroups(d) == [Literals(d[..FirstSize(d)])] + LiteralGroups(d[FirstSize(d)..])
  {
    if |d| <= 7 { assert d[..|d|] == d && d[|d|..] == [] && LiteralGroups([]) == []; }
  }

  lemma {:induction false} LiteralStreamShape(d: seq<byte>)
    ensures IsStream(LiteralGroups(d))
    decreases |d|
  {
    if d != [] {
      LiteralFirst(d);
      LiteralStreamShape(d[FirstSize(d)..]);
    }
  }

  lemma {:induction false} LiteralStreamMeaning(d: seq<byte>, out: seq<byte>)
    requires |out| <= CAP
    ensures StreamMeaning(LiteralGroups(d), out) == if |out| + |d| <= CAP then Some(out + d) else None
    decreases |d|
  {
    if d == [] {
      assert out + d == out;
    } else {
      var n := FirstSize(d);
      var first, rest := d[..n], d[n..];
      LiteralFirst(d);
      LiteralMeaning(first, out);
      StreamMeaningFirst(Literals(first), LiteralGroups(rest), out);
      if |out| + n <= CAP {
        LiteralStreamMeaning(rest, out + first);
        assert out + first + rest == out + d;
      }
    }
  }

  method LiteralStream(data: seq<byte>) returns (out: seq<byte>)
    ensures IsStream(LiteralGroups(data)) && out == StreamBytes(LiteralGroups(data))
  {
    LiteralStreamShape(data);
    out := [];
    var pos := 0;
    assert data[0..] == data;
    while pos < |data|
      invariant pos <= |data| && WritesRest(data, pos, out)
      decreases |data| - pos
    {
      var next := if pos + 7 <= |data| then pos + 7 else |data|;
      ChunkWritten(data, pos, next, out);
      out := out + [Power(next - pos + 1) - 1] + data[pos..next];
      pos := next;
    }
    out := out + [0];
  }

  /** What is written, completed by the stream of the remaining data, is the stream of all data. */
  ghost predicate WritesRest(data: seq<byte>, pos: nat, out: seq<byte>)
    requires pos <= |data|
  {
    IsStream(LiteralGroups(data)) && IsStream(LiteralGroups(data[pos..])) && out + StreamBytes(LiteralGroups(data[pos..])) == StreamBytes(LiteralGroups(data))
  }

  lemma {:induction false} ChunkWritten(data: seq<byte>, pos: nat, next: nat, out: seq<byte>)
    requires pos < |data| && next == (if pos + 7 <= |data| then pos + 7 else |data|) && WritesRest(data, pos, out)
    ensures 0 <= Power(next - pos + 1) - 1 < 256 && WritesRest(data, next, out + [Power(next - pos + 1) - 1] + data[pos..next])
  {
    var d := data[pos..];
    assert d[..FirstSize(d)] == data[pos..next] && d[FirstSize(d)..] == data[next..];
    GroupWritten(d, out);
  }

  lemma {:induction false} GroupWritten(d: seq<byte>, out: seq<byte>)
    requires d != []
    ensures var n := FirstSize(d);
            && 0 <= Power(n + 1) - 1 < 256 && IsStream(LiteralGroups(d)) && IsStream(LiteralGroups(d[n..]))
            && out + StreamBytes(LiteralGroups(d)) == out + [Power(n + 1) - 1] + d[..n] + StreamBytes(LiteralGroups(d[n..]))
  {
    var n := FirstSize(d);
    LiteralStreamShape(d);
    LiteralStreamShape(d[n..]);
    LiteralBytes(d[..n]);
    FlagsByte(Literals(d[..n]));
    LiteralFirst(d);
    assert LiteralGroups(d)[0] == Literals(d[..n]) && LiteralGroups(d)[1..] == LiteralGroups(d[n..]);
  }

  /** A literal stream, followed by anything, gives back the data and its own length: for all data up to the cap, and no larger. */
  lemma {:induction false} LiteralRoundTrip(d: seq<byte>, tail: seq<byte>)
    ensures IsStream(LiteralGroups(d))
    ensures var stream := StreamBytes(LiteralGroups(d));
            Decoded(ParseStream(stream + tail, 0), []) == if |d| <= CAP then Some(Reached(d, |stream|)) else None
  {
    LiteralStreamShape(d);
    LiteralStreamMeaning(d, []);
    assert [] + d == d;
    var stream := StreamBytes(LiteralGroups(d));
    StreamComplete(stream + tail, 0, LiteralGroups(d), |stream|);
  }
}
