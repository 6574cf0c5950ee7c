/** Reading the arcade move data and translating its fields (tools/convert_jun_moves.py, tools/jun_solo_semantics.py). */
module JunSource {
  import opened Options
  import opened Bytes

  // ---- Field translations ----

  /** Whether a character rule holds for the donor: surely, surely not, or only against some opponents. */
  function CharacterRequirement(code: nat): Option<bool> {
    if code == 0 || code == 0xed then Some(true)
    else if code == 0xec then Some(false)
    else if 1 <= code < 0x22 then Some(code - 1 == 28)
    else if 0x22 <= code < 0x43 then Some(code - 0x22 != 28)
    else if 0x85 <= code < 0xa7 then Some(code - 0x85 == 30)
    else if 0xc9 <= code < 0xeb then Some(code - 0xc9 != 30)
    else None
  }

  function Condition(i: nat): (r: Option<nat>)
    ensures r.Some? ==> r.value < 83
  {
    if i < 37 then Some(i)
    else if i < 40 then Some(i + 39)
    else if i < 72 && i != 50 then Some(i - 3)
    else if 80 <= i < 88 then Some(79 + (i - 80) % 4)
    else if 0x60 <= i < 0x67 then Some(i - 0x1b)
    else None
  }

  /** One update of the table: the numbers from lo up to hi, moved by an offset; a later update wins. */
  method AddRange(conditions: map<nat, nat>, lo: nat, hi: nat, offset: int) returns (r: map<nat, nat>)
    requires lo <= hi && lo + offset >= 0
    ensures forall i :: i in r <==> i in conditions || lo <= i < hi
    ensures forall i | i in r :: r[i] == if lo <= i < hi then i + offset else conditions[i]
  {
    r := conditions;
    for k := lo to hi
      invariant forall i :: i in r <==> i in conditions || lo <= i < k
      invariant forall i | i in r :: r[i] == if lo <= i < k then i + offset else conditions[i]
    {
      r := r[k := k + offset];
    }
  }

  /** The table of condition numbers is the closed form, and every number is one the combat code knows. */
  method BuildConditions() returns (conditions: map<nat, nat>)
    ensures forall i :: i in conditions <==> Condition(i).Some?
    ensures forall i | i in conditions :: conditions[i] == Condition(i).value < 83
  {
    conditions := AddRange(map[], 0, 37, 0);
    conditions := AddRange(conditions, 40, 50, -3);
    conditions := AddRange(conditions, 51, 72, -3);
    conditions := AddRange(conditions, 70, 72, -3);
    conditions := AddRange(conditions, 0x60, 0x67, -0x1b);
    conditions := AddRange(conditions, 37, 40, 39);
    conditions := AddRange(conditions, 80, 84, -1);
    conditions := AddRange(conditions, 84, 88, -5);
  }

  /** The low seven bits select the transition; bits 14 and 15 move to bits 6 and 7. */
  function Transition(kind: half): (r: Option<nat>)
    ensures r.Some? ==> r.value < 256
  {
    var value, high := kind % 128, kind / 0x4000 * 0x40;
    if value <= 30 then Some(value + high)
    else if value <= 32 then Some(33 + high)
    else if value <= 35 then Some(value + 12 + high)
    else if value <= 46 then Some(value - 2 + high)
    else None
  }

  /** What a transition is told apart by: its low seven bits, 31 and 32 counting as one, and its two high bits. */
  predicate SameTransition(kind: half, other: half) {
    && kind / 0x4000 == other / 0x4000
    && (kind % 128 == other % 128 || (31 <= kind % 128 <= 32 && 31 <= other % 128 <= 32))
  }

  /** No two transitions are confused by their translation. */
  lemma {:induction false} TransitionsDiffer(kind: half, other: half)
    ensures Transition(kind).Some? <==> kind % 128 <= 46
    ensures Transition(kind).Some? && Transition(other).Some? ==> (Transition(kind) == Transition(other) <==> SameTransition(kind, other))
  {
    if Transition(kind).Some? && Transition(other).Some? {
      HighBits(kind);
      HighBits(other);
    }
  }

  lemma {:induction false} HighBits(kind: half)
    requires Transition(kind).Some?
    ensures Transition(kind).value / 0x40 == kind / 0x4000
    ensures var low, r := kind % 128, Transition(kind).value % 0x40;
            r == if low <= 30 then low else if low <= 32 then 33 else if low <= 35 then low + 12 else low - 2
  {}

  function PropertyKind(kind: nat): (r: Option<nat>)
    ensures r.Some? ==> r.value < 256
  {
    if kind == 0x26 then Some(0x40)
    else if 0x1b <= kind < 0x4b then
      if (kind - 0x1b) % 16 < 8 then Some(0xe + (kind - 0x1b) / 16 * 16 + (kind - 0x1b) % 16) else None
    else if 1 <= kind <= 4 then Some(kind)
    else if 10 <= kind <= 14 then Some(kind - 4)
    else if 24 <= kind <= 26 then Some(kind - 13)
    else None
  }

  // ---- Guest reads ----

  function ReadHalf(ram: seq<byte>, at: nat): Option<half> {
    if at + 2 <= |ram| then Some(Half(ram, at)) else None
  }

  function Physical(address: word): nat {
    address % 0x400000
  }

  /** The thirteen words of a move record. */
  function Record(ram: seq<byte>, address: word): (r: Option<seq<word>>)
    ensures r.Some? ==> |r.value| == 13
  {
    var at := Physical(address);
    if at + 52 > |ram| then None
    else Some(seq(13, k requires 0 <= k < 13 => Word(ram, at + 4 * k)))
  }

  // ---- Cancel lists ----

  datatype Row = Row(cmd: half, req: half, param: half, next: half, kind: half, window: half, end: half)

  function ReadRow(ram: seq<byte>, at: nat): Option<Row> {
    if at + 14 > |ram| then None
    else Some(Row(Half(ram, at), Half(ram, at + 2), Half(ram, at + 4), Half(ram, at + 6), Half(ram, at + 8), Half(ram, at + 10), Half(ram, at + 12)))
  }

  /** A cancel list with its subroutines expanded in place; lists may not recurse or nest deeper than nine. */
  function CancelRows(ram: seq<byte>, pointer: word, stack: seq<word>): Option<seq<Row>>
    decreases 10 - |stack|, 2000, |ram|
  {
    if pointer in stack || |stack| > 8 then None else RowsFrom(ram, pointer, stack, 0)
  }

  function RowsFrom(ram: seq<byte>, pointer: word, stack: seq<word>, k: nat): Option<seq<Row>>
    requires |stack| <= 8
    decreases 10 - |stack|, 1024 - k, |ram|
  {
    if k >= 1024 then None
    else match ReadRow(ram, Physical(pointer) + k * 14)
      case None => None
      case Some(row) =>
        if row.cmd == 0x800e then Some([])
        else if row.cmd == 0x800d then
          if 0x801b3740 + row.next * 14 >= 0x1_0000_0000 then None
          else Joined(CancelRows(ram, 0x801b3740 + row.next * 14, stack + [pointer]), RowsFrom(ram, pointer, stack, k + 1))
        else if row.cmd == 0x8000 then Some([row])
        else Joined(Some([row]), RowsFrom(ram, pointer, stack, k + 1))
  }

  // ---- Sounds ----

  /** An animation event keeps its number in a relocated table; a sound is kept as it is. */
  function SoundEvent(event: half): (r: half)
    ensures event != 0xffff ==> r != 0xffff
  {
    if event / 0x1000 == 8 then
      0x8000 + (if event % 0x1000 == 0 then 0 else 1024 + event % 0x1000)
    else event
  }

  /** The events from event i on before the first 0xffff, at most three in all. */
  function EventsFrom(ram: seq<byte>, at: nat, i: nat): Option<seq<half>>
    decreases 3 - i, |ram|
  {
    if i >= 3 then Some([])
    else match ReadHalf(ram, at + i * 2)
      case None => None
      case Some(event) =>
        if event == 0xffff then Some([]) else Joined(Some([event]), EventsFrom(ram, at, i + 1))
  }

  function Events(ram: seq<byte>, pointer: word): Option<seq<half>> {
    if pointer == 0 then Some([]) else EventsFrom(ram, Physical(pointer), 0)
  }

  function SoundsOf(events: seq<half>): (sounds: seq<half>)
    ensures |sounds| == |events|
  {
    seq(|events|, k requires 0 <= k < |events| => SoundEvent(events[k]))
  }

  /** The numbers of the events that are animation events. */
  function AnimationsOf(events: seq<half>): (numbers: seq<half>)
  {
    if events == [] then []
    else
      var n := |events| - 1;
      AnimationsOf(events[..n]) + if events[n] / 0x1000 == 8 then [events[n] % 0x1000] else []
  }

  function Sounds(ram: seq<byte>, pointer: word): Option<seq<half>> {
    match Events(ram, pointer)
    case None => None
    case Some(events) => Some(SoundsOf(events))
  }

  lemma {:induction false} EventsShape(ram: seq<byte>, at: nat, i: nat)
    requires i <= 3 && EventsFrom(ram, at, i).Some?
    ensures |EventsFrom(ram, at, i).value| <= 3 - i && 0xffff !in EventsFrom(ram, at, i).value
    decreases 3 - i, |ram|
  {
    if i < 3 && EventsFrom(ram, at, i).value != [] { EventsShape(ram, at, i + 1); }
  }

  /** At most three translated events, none of which can be mistaken for the terminator. */
  lemma {:induction false} SoundsShape(ram: seq<byte>, pointer: word)
    requires Sounds(ram, pointer).Some?
    ensures |Sounds(ram, pointer).value| <= 3 && 0xffff !in Sounds(ram, pointer).value
  {
    if pointer != 0 { EventsShape(ram, Physical(pointer), 0); }
    var events := Events(ram, pointer).value;
    forall k | 0 <= k < |events| ensures SoundsOf(events)[k] != 0xffff { assert events[k] in events; }
  }

  /** The relocated table has a script for every number a translated animation event refers to. */
  lemma {:induction false} AnimationsReferred(events: seq<half>, k: nat)
    requires k < |events| && events[k] / 0x1000 == 8
    ensures events[k] % 0x1000 in AnimationsOf(events)
    ensures SoundsOf(events)[k] == if events[k] % 0x1000 == 0 then 0x8000 else 0x8000 + 1024 + events[k] % 0x1000
    decreases |events|
  {
    var n := |events| - 1;
    if k < n { AnimationsReferred(events[..n], k); }
  }

  method SoundEvents(ram: seq<byte>, pointer: word) returns (r: Option<(seq<half>, seq<half>)>)
    ensures r.Some? <==> Events(ram, pointer).Some?
    ensures r.Some? ==> Sounds(ram, pointer) == Some(r.value.0) && r.value.1 == AnimationsOf(Events(ram, pointer).value)
  {
    if pointer == 0 {
      return Some(([], []));
    }
    var at := Physical(pointer);
    var out: seq<half>, animations: seq<half> := [], [];
    ghost var events: seq<half> := [];
    JoinedEmpty(EventsFrom(ram, at, 0));
    for i := 0 to 3
      invariant Events(ram, pointer) == Joined(Some(events), EventsFrom(ram, at, i))
      invariant out == SoundsOf(events) && animations == AnimationsOf(events)
    {
      if at + i * 2 + 2 > |ram| {
        return None;
      }
      var event := Half(ram, at + i * 2);
      if event == 0xffff {
        assert events + [] == events;
        return Some((out, animations));
      }
      JoinedStep(events, [event], EventsFrom(ram, at, i + 1));
      assert (events + [event])[..|events|] == events;
      events := events + [event];
      out := out + [SoundEvent(event)];
      if event / 0x1000 == 8 {
        animations := animations + [event % 0x1000];
      }
    }
    assert events + [] == events;
    return Some((out, animations));
  }

  method Flatten(ram: seq<byte>, pointer: word, stack: seq<word>) returns (r: Option<seq<Row>>)
    ensures r == CancelRows(ram, pointer, stack)
    decreases 10 - |stack|
  {
    if pointer in stack || |stack| > 8 {
      return None;
    }
    var rows: seq<Row> := [];
    JoinedEmpty(RowsFrom(ram, pointer, stack, 0));
    for k := 0 to 1024
      invariant RowsFrom(ram, pointer, stack, 0) == Joined(Some(rows), RowsFrom(ram, pointer, stack, k))
    {
      var row := ReadRow(ram, Physical(pointer) + k * 14);
      if row.None? {
        return None;
      }
      if row.value.cmd == 0x800e {
        assert rows + [] == rows;
        return Some(rows);
      }
      if row.value.cmd == 0x800d {
        if 0x801b3740 + row.value.next * 14 >= 0x1_0000_0000 {
          return None;
        }
        var nested := Flatten(ram, 0x801b3740 + row.value.next * 14, stack + [pointer]);
        if nested.None? {
          return None;
        }
        JoinedStep(rows, nested.value, RowsFrom(ram, pointer, stack, k + 1));
        rows := rows + nested.value;
      } else if row.value.cmd == 0x8000 {
        return Some(rows + [row.value]);
      } else {
        JoinedStep(rows, [row.value], RowsFrom(ram, pointer, stack, k + 1));
        rows := rows + [row.value];
      }
    }
    return None;
  }

  // ---- Timed properties ----

  datatype Property = Property(frame: half, op: half)

  function Translated(frame: half, op: half): Option<Property> {
    match PropertyKind(op / 256)
    case None => None
    case Some(kind) => Some(Property(frame, kind * 256 + op % 256))
  }

  /** The rows from row i on up to the zero frame, within 256 rows; operation five does nothing and is left out. */
  function TimedFrom(ram: seq<byte>, at: nat, i: nat): Option<seq<Property>>
    decreases 256 - i, |ram|
  {
    if i >= 256 || at + i * 4 + 4 > |ram| then None
    else
      var frame, op := Half(ram, at + i * 4), Half(ram, at + i * 4 + 2);
      if frame == 0 then Some([])
      else if op / 256 == 5 then TimedFrom(ram, at, i + 1)
      else Joined(Some([Property(frame, op)]), TimedFrom(ram, at, i + 1))
  }

  function Timed(ram: seq<byte>, pointer: word): Option<seq<Property>> {
    if pointer == 0 then Some([]) else TimedFrom(ram, Physical(pointer), 0)
  }

  /** The rows that have a translation, translated, and those that have none. */
  function Kept(rows: seq<Property>): (kept: seq<Property>)
    ensures |kept| <= |rows|
    ensures (forall k | 0 <= k < |rows| :: rows[k].frame != 0) ==> forall k | 0 <= k < |kept| :: kept[k].frame != 0
  {
    if rows == [] then []
    else
      var n := |rows| - 1;
      var last := Translated(rows[n].frame, rows[n].op);
      Kept(rows[..n]) + if last.Some? then [last.value] else []
  }

  function Omitted(rows: seq<Property>): (omitted: seq<Property>) {
    if rows == [] then []
    else
      var n := |rows| - 1;
      Omitted(rows[..n]) + if Translated(rows[n].frame, rows[n].op).None? then [rows[n]] else []
  }

  /** The translated rows; a row without a translation fails the conversion in the end. */
  function Properties(ram: seq<byte>, pointer: word): Option<seq<Property>> {
    match Timed(ram, pointer)
    case None => None
    case Some(rows) => if Omitted(rows) == [] then Some(Kept(rows)) else None
  }

  lemma {:induction false} TimedShape(ram: seq<byte>, at: nat, i: nat)
    requires i <= 256 && TimedFrom(ram, at, i).Some?
    ensures |TimedFrom(ram, at, i).value| <= 255 - i
    ensures forall k | 0 <= k < |TimedFrom(ram, at, i).value| :: TimedFrom(ram, at, i).value[k].frame != 0
    decreases 256 - i, |ram|
  {
    if i < 256 && at + i * 4 + 4 <= |ram| && Half(ram, at + i * 4) != 0 {
      TimedShape(ram, at, i + 1);
    }
  }

  /** At most 255 rows, none with frame zero: the terminator stays recognisable. */
  lemma {:induction false} PropertiesShape(ram: seq<byte>, pointer: word)
    requires Properties(ram, pointer).Some?
    ensures |Properties(ram, pointer).value| <= 255
    ensures forall k | 0 <= k < |Properties(ram, pointer).value| :: Properties(ram, pointer).value[k].frame != 0
  {
    if pointer != 0 { TimedShape(ram, Physical(pointer), 0); }
  }

  method TimedProperties(ram: seq<byte>, pointer: word) returns (r: Option<(seq<Property>, seq<Property>)>)
    ensures r == match Timed(ram, pointer) case None => None case Some(rows) => Some((Kept(rows), Omitted(rows)))
  {
    if pointer == 0 {
      return Some(([], []));
    }
    var at := Physical(pointer);
    var out: seq<Property>, omitted: seq<Property> := [], [];
    ghost var rows: seq<Property> := [];
    JoinedEmpty(TimedFrom(ram, at, 0));
    for i := 0 to 256
      invariant Timed(ram, pointer) == Joined(Some(rows), TimedFrom(ram, at, i))
      invariant out == Kept(rows) && omitted == Omitted(rows)
    {
      if at + i * 4 + 4 > |ram| {
        return None;
      }
      var frame, op := Half(ram, at + i * 4), Half(ram, at + i * 4 + 2);
      if frame == 0 {
        assert rows + [] == rows;
        return Some((out, omitted));
      }
      if op / 256 != 5 {
        JoinedStep(rows, [Property(frame, op)], TimedFrom(ram, at, i + 1));
        var translated := Translated(frame, op);
        if translated.None? {
          omitted := omitted + [Property(frame, op)];
        } else {
          out := out + [translated.value];
        }
        assert (rows + [Property(frame, op)])[..|rows|] == rows;
        rows := rows + [Property(frame, op)];
      }
    }
    return None;
  }

  // ---- Input sequences ----

  function SequenceStart(cmd: half): nat {
    0x772 + cmd * 2
  }

  /** The words of an input sequence: up to and including the first zero after word zero, at most 65. */
  ghost predicate IsSequence(ram: seq<byte>, cmd: half, words: seq<half>) {
    && 2 <= |words| <= 65 && SequenceStart(cmd) + 2 * |words| <= |ram|
    && (forall k | 0 <= k < |words| :: words[k] == Half(ram, SequenceStart(cmd) + 2 * k))
    && (forall k | 0 < k < |words| - 1 :: words[k] != 0) && words[|words| - 1] == 0
  }

  ghost predicate IsInput(ram: seq<byte>, cmd: half, words: seq<half>) {
    IsSequence(ram, cmd, words) && 1 <= words[0] <= 60 && |words| >= 3
  }

  /** The one valid input sequence of a command, where there is one. */
  ghost function Input(ram: seq<byte>, cmd: half): Option<seq<half>> {
    if exists words :: IsInput(ram, cmd, words) then
      var words :| IsInput(ram, cmd, words);
      Some(words)
    else None
  }

  method ReadSequence(ram: seq<byte>, cmd: half) returns (r: Option<seq<half>>)
    ensures r == Input(ram, cmd)
    ensures r.Some? ==> IsInput(ram, cmd, r.value)
  {
    var start := SequenceStart(cmd);
    var words: seq<half> := [];
    for k := 0 to 65
      invariant |words| == k && (k == 0 || start + 2 * k <= |ram|)
      invariant forall j | 0 <= j < k :: words[j] == Half(ram, start + 2 * j)
      invariant forall j | 0 < j < k :: words[j] != 0
    {
      if start + k * 2 + 2 > |ram| {
        forall other ensures !IsInput(ram, cmd, other) { NoOther(ram, cmd, words, other); }
        return None;
      }
      var value := Half(ram, start + k * 2);
      words := words + [value];
      if k != 0 && value == 0 {
        InputOfSequence(ram, cmd, words);
        if 1 <= words[0] <= 60 && |words| >= 3 {
          return Some(words);
        }
        return None;
      }
    }
    forall other ensures !IsInput(ram, cmd, other) { NoOther(ram, cmd, words, other); }
    return None;
  }

  /** A nonzero run to the end of memory, or 65 words long, is no sequence. */
  lemma {:induction false} NoOther(ram: seq<byte>, cmd: half, words: seq<half>, other: seq<half>)
    requires |words| <= 65 && (|words| == 65 || SequenceStart(cmd) + 2 * |words| + 2 > |ram|)
    requires forall j | 0 <= j < |words| :: SequenceStart(cmd) + 2 * j + 2 <= |ram| && words[j] == Half(ram, SequenceStart(cmd) + 2 * j)
    requires forall j | 0 < j < |words| :: words[j] != 0
    ensures !IsSequence(ram, cmd, other)
  {
  }

  lemma {:induction false} SequenceNoLonger(ram: seq<byte>, cmd: half, words: seq<half>, other: seq<half>)
    requires IsSequence(ram, cmd, words) && IsSequence(ram, cmd, other)
    ensures |other| <= |words|
  {
    var last := |words| - 1;
    assert last < |other| ==> other[last] == words[last] == 0;
  }

  lemma {:induction false} SameSequence(ram: seq<byte>, cmd: half, words: seq<half>, other: seq<half>)
    requires IsSequence(ram, cmd, words) && IsSequence(ram, cmd, other)
    ensures other == words
  {
    SequenceNoLonger(ram, cmd, words, other);
    SequenceNoLonger(ram, cmd, other, words);
    assert |other| == |words|;
    assert forall k | 0 <= k < |words| :: other[k] == words[k];
  }

  lemma {:induction false} InputOfSequence(ram: seq<byte>, cmd: half, words: seq<half>)
    requires IsSequence(ram, cmd, words)
    ensures Input(ram, cmd) == if IsInput(ram, cmd, words) then Some(words) else None
  {
    forall other | IsInput(ram, cmd, other) ensures other == words { SameSequence(ram, cmd, words, other); }
  }
}
