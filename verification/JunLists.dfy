/** What converted sound lists, timed properties and input sequences keep, halfword by halfword (tools/jun_solo_semantics.py). */
module JunLists {
  import opened Options
  import opened Bytes
  import opened JunSource
  import opened JunConvert
  import opened JunLayout
  import JunPack
  import JunAgree
  import JunRows

  // ---- Sounds ----

  /** A sound keeps its number; an animation event other than the first moves behind the 1024 native ones. */
  predicate EventBecomes(event: half, sound: half) {
    if 0x8000 < event < 0x9000 then sound == event + 1024 else sound == event
  }

  /** The list at this address: the events before the first 0xffff, at most three, converted, and a terminator. */
  ghost predicate SoundsHeld(a: seq<byte>, to: nat, ram: seq<byte>, pointer: word, n: nat) {
    var at := pointer % 0x400000;
    && n <= 3 && to + 2 * n + 2 <= |a| && Half(a, to + 2 * n) == 0xffff
    && (pointer == 0 ==> n == 0)
    && (forall k | 0 <= k < n :: at + 2 * k + 2 <= |ram| && Half(ram, at + 2 * k) != 0xffff && EventBecomes(Half(ram, at + 2 * k), Half(a, to + 2 * k)))
    && (pointer != 0 && n < 3 ==> at + 2 * n + 2 <= |ram| && Half(ram, at + 2 * n) == 0xffff)
  }

  lemma {:induction false} SoundBecomes(event: half)
    ensures EventBecomes(event, SoundEvent(event))
  {}

  /** Halfword k of a list is this event. */
  predicate IsEvent(ram: seq<byte>, at: nat, k: nat, event: half) {
    at + 2 * k + 2 <= |ram| && event == Half(ram, at + 2 * k) != 0xffff
  }

  predicate Ends(ram: seq<byte>, at: nat, k: nat) { k < 3 ==> at + 2 * k + 2 <= |ram| && Half(ram, at + 2 * k) == 0xffff }

  /** The events of a list are the halfwords before its end. */
  lemma {:induction false} EventsRead(ram: seq<byte>, at: nat, i: nat)
    requires i <= 3 && EventsFrom(ram, at, i).Some?
    ensures var es := EventsFrom(ram, at, i).value;
      |es| <= 3 - i && (forall k | 0 <= k < |es| :: IsEvent(ram, at, i + k, es[k])) && Ends(ram, at, i + |es|)
    decreases 3 - i, |ram|
  {
    if i < 3 && Half(ram, at + 2 * i) != 0xffff {
      EventsRead(ram, at, i + 1);
      var rest := EventsFrom(ram, at, i + 1).value;
      var es := [Half(ram, at + 2 * i)] + rest;
      forall k | 0 <= k < |es| ensures IsEvent(ram, at, i + k, es[k]) {
        if k > 0 { assert IsEvent(ram, at, i + 1 + (k - 1), rest[k - 1]); }
      }
    }
  }

  lemma {:induction false} SoundsCarried(a: seq<byte>, to: nat, ram: seq<byte>, pointer: word)
    requires Sounds(ram, pointer).Some?
    requires var sounds := Sounds(ram, pointer).value;
      to + 2 * |sounds| + 2 <= |a| && Half(a, to + 2 * |sounds|) == 0xffff && forall k | 0 <= k < |sounds| :: sounds[k] == Half(a, to + 2 * k)
    ensures SoundsHeld(a, to, ram, pointer, |Sounds(ram, pointer).value|)
  {
    var events, sounds := Events(ram, pointer).value, Sounds(ram, pointer).value;
    if pointer != 0 {
      EventsRead(ram, Physical(pointer), 0);
      assert Ends(ram, Physical(pointer), 0 + |events|);
    }
    forall k | 0 <= k < |sounds|
      ensures Physical(pointer) + 2 * k + 2 <= |ram| && Half(ram, Physical(pointer) + 2 * k) != 0xffff
      ensures EventBecomes(Half(ram, Physical(pointer) + 2 * k), Half(a, to + 2 * k))
    {
      assert IsEvent(ram, Physical(pointer), 0 + k, events[k]);
      assert sounds[k] == Half(a, to + 2 * k) && sounds[k] == SoundEvent(events[k]);
      SoundBecomes(events[k]);
    }
  }

  // ---- Timed properties ----

  /** The kinds that have a counterpart, and their numbers. */
  predicate Renamed(kind: byte, native: byte) {
    || (kind == 0x26 && native == 0x40)
    || (1 <= kind <= 4 && native == kind)
    || (10 <= kind <= 14 && native == kind - 4)
    || (24 <= kind <= 26 && native == kind - 13)
    || (27 <= kind < 75 && kind != 0x26 && (kind - 27) % 16 < 8 && native == kind - 13)
  }

  lemma {:induction false} KindRenamed(kind: byte, native: byte)
    ensures PropertyKind(kind) == Some(native as nat) <==> Renamed(kind, native)
  {}

  /** The kinds the properties are told apart by stay apart. */
  lemma {:induction false} RenamedApart(kind: byte, other: byte, native: byte)
    requires Renamed(kind, native) && Renamed(other, native)
    ensures kind == other
  {}

  /** Row j of a property list, before its end. */
  predicate IsProperty(ram: seq<byte>, at: nat, j: nat) { at + 4 * j + 4 <= |ram| && Half(ram, at + 4 * j) != 0 }

  /** The frame and the argument are kept and the kind gets its native number. */
  predicate PropertyBecomes(ram: seq<byte>, at: nat, frame: half, op: half) {
    at + 4 <= |ram| && frame == Half(ram, at) && op % 256 == ram[at + 2] && Renamed(ram[at + 3], op / 256)
  }

  /** Every row before the end is picked, in order, but the rows that do nothing. */
  ghost predicate PropertiesPicked(ram: seq<byte>, at: nat, i: nat, picked: seq<nat>, end: nat) {
    && i <= end < 256 && at + 4 * end + 4 <= |ram| && Half(ram, at + 4 * end) == 0
    && (forall j | i <= j < end :: IsProperty(ram, at, j) && (j in picked <==> ram[at + 4 * j + 3] != 5))
    && (forall k | 0 <= k < |picked| :: i <= picked[k] < end) && forall j, k | 0 <= j < k < |picked| :: picked[j] < picked[k]
  }

  ghost predicate RowsFound(ram: seq<byte>, at: nat, rows: seq<Property>, picked: seq<nat>) {
    && |rows| == |picked|
    && forall k | 0 <= k < |rows| :: at + 4 * picked[k] + 4 <= |ram| && rows[k] == Property(Half(ram, at + 4 * picked[k]), Half(ram, at + 4 * picked[k] + 2))
  }

  lemma {:induction false} RowPicked(ram: seq<byte>, at: nat, i: nat, rows: seq<Property>, picked: seq<nat>, end: nat)
    requires IsProperty(ram, at, i) && PropertiesPicked(ram, at, i + 1, picked, end) && RowsFound(ram, at, rows, picked)
    ensures ram[at + 4 * i + 3] == 5 ==> PropertiesPicked(ram, at, i, picked, end)
    ensures ram[at + 4 * i + 3] != 5 ==> PropertiesPicked(ram, at, i, [i] + picked, end)
    ensures RowsFound(ram, at, [Property(Half(ram, at + 4 * i), Half(ram, at + 4 * i + 2))] + rows, [i] + picked)
  {
    assert forall j | i + 1 <= j < end :: j in [i] + picked <==> j in picked;
    assert i in [i] + picked;
  }

  lemma {:induction false} TimedFound(ram: seq<byte>, at: nat, i: nat) returns (picked: seq<nat>, end: nat)
    requires TimedFrom(ram, at, i).Some?
    ensures PropertiesPicked(ram, at, i, picked, end) && RowsFound(ram, at, TimedFrom(ram, at, i).value, picked)
    decreases 256 - i, |ram|
  {
    if Half(ram, at + 4 * i) == 0 {
      picked, end := [], i;
    } else {
      picked, end := TimedFound(ram, at, i + 1);
      JunRows.HalfBytes(ram, at + 4 * i + 2);
      RowPicked(ram, at, i, TimedFrom(ram, at, i + 1).value, picked, end);
      if ram[at + 4 * i + 3] != 5 { picked := [i] + picked; }
    }
  }

  /** The second rows are the translations of the first. */
  ghost predicate Renders(rows: seq<Property>, ps: seq<Property>) {
    |ps| == |rows| && forall k | 0 <= k < |rows| :: Translated(rows[k].frame, rows[k].op) == Some(ps[k])
  }

  lemma {:induction false} RendersMore(rows: seq<Property>, ps: seq<Property>, row: Property, p: Property)
    requires Renders(rows, ps) && Translated(row.frame, row.op) == Some(p)
    ensures Renders(rows + [row], ps + [p])
  {}

  /** Without omissions every row is translated. */
  lemma {:induction false} AllTranslated(rows: seq<Property>)
    requires Omitted(rows) == []
    ensures Renders(rows, Kept(rows))
    decreases |rows|
  {
    if rows != [] {
      var n := |rows| - 1;
      var last := Translated(rows[n].frame, rows[n].op);
      AllTranslated(rows[..n]);
      RendersMore(rows[..n], Kept(rows[..n]), rows[n], last.value);
      assert rows == rows[..n] + [rows[n]];
    }
  }

  lemma {:induction false} TranslatedBecomes(ram: seq<byte>, at: nat, property: Property)
    requires at + 4 <= |ram| && Translated(Half(ram, at), Half(ram, at + 2)) == Some(property)
    ensures PropertyBecomes(ram, at, property.frame, property.op)
  {
    JunRows.HalfBytes(ram, at + 2);
    KindRenamed(ram[at + 3], property.op / 256);
  }

  /** The rows that lie at this address are the rows picked, converted, and a zero frame behind them. */
  ghost predicate PropertiesHeld(a: seq<byte>, to: nat, ram: seq<byte>, pointer: word, picked: seq<nat>, end: nat) {
    var at := pointer % 0x400000;
    && (if pointer == 0 then picked == [] else PropertiesPicked(ram, at, 0, picked, end))
    && to + 4 * |picked| + 4 <= |a| && Half(a, to + 4 * |picked|) == 0
    && forall k | 0 <= k < |picked| :: PropertyBecomes(ram, at + 4 * picked[k], Half(a, to + 4 * k), Half(a, to + 4 * k + 2))
  }

  lemma {:induction false} PropertiesRead(a: seq<byte>, to: nat, ps: seq<Property>, k: nat)
    requires Holds(a, to, PropertyBytes(ps)) && k < |ps|
    ensures to + 4 * k + 4 <= |a| && Half(a, to + 4 * k) == ps[k].frame && Half(a, to + 4 * k + 2) == ps[k].op
  {
    FlattenedAt(ps, k);
    HalfInPlace(a, to, Flattened(ps) + [0, 0], 2 * k);
    HalfInPlace(a, to, Flattened(ps) + [0, 0], 2 * k + 1);
  }

  lemma {:induction false} FlattenedAt(ps: seq<Property>, j: nat)
    requires j < |ps|
    ensures Flattened(ps)[2 * j] == ps[j].frame && Flattened(ps)[2 * j + 1] == ps[j].op
    decreases j
  {
    if j > 0 { FlattenedAt(ps[1..], j - 1); }
  }

  lemma {:induction false} PickedCarried(a: seq<byte>, to: nat, ram: seq<byte>, at: nat, rows: seq<Property>, ps: seq<Property>, picked: seq<nat>)
    requires RowsFound(ram, at, rows, picked) && Renders(rows, ps) && Holds(a, to, PropertyBytes(ps))
    ensures to + 4 * |picked| + 4 <= |a|
    ensures forall k | 0 <= k < |picked| :: PropertyBecomes(ram, at + 4 * picked[k], Half(a, to + 4 * k), Half(a, to + 4 * k + 2))
  {
    forall k | 0 <= k < |picked| ensures PropertyBecomes(ram, at + 4 * picked[k], Half(a, to + 4 * k), Half(a, to + 4 * k + 2)) {
      PropertiesRead(a, to, ps, k);
      TranslatedBecomes(ram, at + 4 * picked[k], ps[k]);
    }
  }

  lemma {:induction false} EndRead(a: seq<byte>, to: nat, ps: seq<Property>)
    requires Holds(a, to, PropertyBytes(ps))
    ensures to + 4 * |ps| + 4 <= |a| && Half(a, to + 4 * |ps|) == 0
  {
    HalfInPlace(a, to, Flattened(ps) + [0, 0], 2 * |ps|);
  }

  lemma {:induction false} RowsHold(a: seq<byte>, to: nat, ram: seq<byte>, pointer: word, ps: seq<Property>) returns (picked: seq<nat>, end: nat)
    requires pointer != 0 && TimedFrom(ram, Physical(pointer), 0).Some? && Renders(TimedFrom(ram, Physical(pointer), 0).value, ps)
    requires Holds(a, to, PropertyBytes(ps))
    ensures PropertiesHeld(a, to, ram, pointer, picked, end)
  {
    EndRead(a, to, ps);
    picked, end := TimedFound(ram, Physical(pointer), 0);
    PickedCarried(a, to, ram, Physical(pointer), TimedFrom(ram, Physical(pointer), 0).value, ps, picked);
  }

  lemma {:induction false} PropertiesCarried(a: seq<byte>, to: nat, ram: seq<byte>, pointer: word) returns (picked: seq<nat>, end: nat)
    requires Properties(ram, pointer).Some? && Holds(a, to, PropertyBytes(Properties(ram, pointer).value))
    ensures PropertiesHeld(a, to, ram, pointer, picked, end)
  {
    if pointer == 0 {
      picked, end := [], 0;
      EndRead(a, to, []);
    } else {
      AllTranslated(Timed(ram, pointer).value);
      picked, end := RowsHold(a, to, ram, pointer, Properties(ram, pointer).value);
    }
  }

  // ---- Input sequences ----

  /** Sequence k of the table: its number, its length, and the halfwords of the command's sequence up to its zero. */
  ghost predicate SequenceHeld(p: seq<byte>, at: nat, ram: seq<byte>, cmd: half, k: nat) {
    && at + 4 <= |p| && Half(p, at) == 0xe000 + k
    && var n := Half(p, at + 2);
    && 3 <= n <= 65 && at + 4 + 2 * n <= |p| && 0x772 + 2 * cmd + 2 * n <= |ram|
    && (forall j | 0 <= j < n :: Half(p, at + 4 + 2 * j) == Half(ram, 0x772 + 2 * cmd + 2 * j))
    && 1 <= Half(ram, 0x772 + 2 * cmd) <= 60
    && forall j | 1 <= j < n :: Half(ram, 0x772 + 2 * cmd + 2 * j) == 0 <==> j == n - 1
  }

  /** The sequences from number k on, one behind the other. */
  ghost predicate SequencesHeld(p: seq<byte>, at: nat, ram: seq<byte>, patterns: seq<Pattern>, k: nat)
    decreases |patterns| - k
  {
    k < |patterns| ==>
      SequenceHeld(p, at, ram, patterns[k].cmd, k) && SequencesHeld(p, at + 4 + 2 * Half(p, at + 2), ram, patterns, k + 1)
  }

  lemma {:induction false} SequenceCarried(p: seq<byte>, at: nat, ram: seq<byte>, i: nat, pattern: Pattern)
    requires IsInput(ram, pattern.cmd, pattern.words) && JunPack.PATTERN_BASE + i < 0x10000
    requires Holds(p, at, SequenceBytes(i, pattern.words))
    ensures SequenceHeld(p, at, ram, pattern.cmd, i) && Half(p, at + 2) == |pattern.words|
  {
    var w := pattern.words;
    var hs := [JunPack.PATTERN_BASE + i, |w|] + w;
    HalfInPlace(p, at, hs, 0);
    HalfInPlace(p, at, hs, 1);
    forall j | 0 <= j < |w| ensures at + 4 + 2 * j + 2 <= |p| && Half(p, at + 4 + 2 * j) == w[j] {
      HalfInPlace(p, at, hs, j + 2);
    }
    WordsHeld(p, at, ram, pattern.cmd, i, w);
  }

  lemma {:induction false} WordsHeld(p: seq<byte>, at: nat, ram: seq<byte>, cmd: half, i: nat, w: seq<half>)
    requires IsInput(ram, cmd, w) && at + 4 + 2 * |w| <= |p| && Half(p, at) == 0xe000 + i && Half(p, at + 2) == |w|
    requires forall j | 0 <= j < |w| :: Half(p, at + 4 + 2 * j) == w[j]
    ensures SequenceHeld(p, at, ram, cmd, i)
  {
    var start, n := SequenceStart(cmd), |w|;
    assert start == 0x772 + 2 * cmd;
    forall j | 0 <= j < n ensures Half(p, at + 4 + 2 * j) == Half(ram, start + 2 * j) { assert w[j] == Half(ram, start + 2 * j); }
    assert w[0] == Half(ram, start);
    forall j | 1 <= j < n ensures Half(ram, start + 2 * j) == 0 <==> j == n - 1 { assert w[j] == Half(ram, start + 2 * j); }
  }

  lemma {:induction false} SequencesStep(p: seq<byte>, at: nat, ram: seq<byte>, patterns: seq<Pattern>, i: nat)
    requires i < |patterns| && SequenceHeld(p, at, ram, patterns[i].cmd, i)
    requires SequencesHeld(p, at + 4 + 2 * Half(p, at + 2), ram, patterns, i + 1)
    ensures SequencesHeld(p, at, ram, patterns, i)
  {}

  lemma {:induction false} FiledCarried(p: seq<byte>, at: nat, s: Source, patterns: seq<Pattern>, i: nat)
    requires JunAgree.AllInputs(s, patterns) && Filable(patterns) && i < |patterns| && Holds(p, at, SequenceBytes(i, patterns[i].words))
    ensures SequenceHeld(p, at, s.ram, patterns[i].cmd, i) && Half(p, at + 2) == |patterns[i].words|
  {
    SequenceCarried(p, at, s.ram, i, patterns[i]);
  }

  lemma {:induction false} SequencesCarried(p: seq<byte>, at: nat, s: Source, patterns: seq<Pattern>, i: nat)
    requires JunAgree.AllInputs(s, patterns) && Filable(patterns) && i <= |patterns|
    requires Holds(p, at, SequencesBytes(patterns, i))
    ensures SequencesHeld(p, at, s.ram, patterns, i)
    decreases |patterns| - i
  {
    if i < |patterns| {
      var first := SequenceBytes(i, patterns[i].words);
      HoldsPart(p, at, first, SequencesBytes(patterns, i + 1));
      FiledCarried(p, at, s, patterns, i);
      SequencesCarried(p, at + |first|, s, patterns, i + 1);
      SequencesStep(p, at, s.ram, patterns, i);
    }
  }

  lemma {:induction false} TailCarried(p: seq<byte>, s: Source, patterns: seq<Pattern>, n: nat, ro: word)
    requires TailHolds(p, n, patterns, ro) && JunAgree.AllInputs(s, patterns)
    ensures ro + 16 * n + 4 <= |p| && Word(p, ro + 16 * n) == |patterns| && SequencesHeld(p, ro + 16 * n + 4, s.ram, patterns, 0)
  {
    var at := ro + 16 * n;
    HoldsPart(p, at, PackWord(|patterns|), SequencesBytes(patterns, 0));
    WordOfSlice(p, at, PackWord(|patterns|), 0);
    SequencesCarried(p, at + 4, s, patterns, 0);
  }

  /** The table of a written pack holds every sequence a packed row refers to, halfword for halfword. */
  lemma {:induction false} TableCarried(p: seq<byte>, s: Source, layouts: seq<Layout>, ro: word)
    requires WellTyped(s) && TailHolds(p, |layouts|, Before(layouts, |layouts|), ro) && JunAgree.AllConverted(s, layouts)
    ensures var n := |layouts|;
      ro + 16 * n + 4 <= |p| && Word(p, ro + 16 * n) == |Before(layouts, n)| && SequencesHeld(p, ro + 16 * n + 4, s.ram, Before(layouts, n), 0)
  {
    JunAgree.FiledAreInputs(s, layouts, |layouts|);
    TailCarried(p, s, Before(layouts, |layouts|), |layouts|, ro);
  }
}
