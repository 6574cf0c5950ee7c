/** A menu borrowing a palette row that the game keeps writing to (src/tekken3_jun_ui_palette.h). */
module UiPalette {
  import opened Bytes

  const ENTRIES := 256

  type Colors = s: seq<half> | |s| == ENTRIES witness seq(ENTRIES, _ => 0)

  datatype State = State(row: Colors, native: Colors, uploaded: Colors, active: bool)

  /** What the game and the menu may do to the row, in any order. */
  datatype Event = Write(i: nat, color: half) | Upload(colors: Colors) | Release

  function Kept(s: State): Colors {
    seq(ENTRIES, i requires 0 <= i < ENTRIES => if !s.active || s.row[i] != s.uploaded[i] then s.row[i] else s.native[i])
  }

  function Step(s: State, e: Event): State {
    match e
    case Write(i, color) => if i < ENTRIES then s.(row := s.row[i := color]) else s
    case Upload(colors) => State(colors, Kept(s), colors, true)
    case Release => if s.active then s.(row := Kept(s), active := false) else s
  }

  function Run(s: State, events: seq<Event>): State
    decreases |events|
  {
    if events == [] then s else Step(Run(s, events[..|events| - 1]), events[|events| - 1])
  }

  /** What the game's own writes make of the row. */
  function Alone(row: Colors, events: seq<Event>): Colors
    decreases |events|
  {
    if events == [] then row
    else
      var before := Alone(row, events[..|events| - 1]);
      match events[|events| - 1]
      case Write(i, color) => if i < ENTRIES then before[i := color] else before
      case Upload(_) => before
      case Release => before
  }

  // ---- The operations ----

  class JunUiPalette {
    const native: array<half>
    const uploaded: array<half>
    var active: bool

    ghost predicate Valid(row: array<half>)
      reads this
    {
      native.Length == uploaded.Length == row.Length == ENTRIES && native != uploaded && native != row && uploaded != row
    }

    ghost function Abstract(row: array<half>): State
      reads this, native, uploaded, row
      requires Valid(row)
    {
      State(row[..], native[..], uploaded[..], active)
    }

    constructor ()
      ensures !active && fresh(native) && fresh(uploaded) && native != uploaded
      ensures native.Length == uploaded.Length == ENTRIES
    {
      native := new half[ENTRIES](_ => 0);
      uploaded := new half[ENTRIES](_ => 0);
      active := false;
    }

    method Keep(row: array<half>)
      requires Valid(row)
      modifies native
      ensures Valid(row) && native[..] == Kept(old(Abstract(row)))
    {
      for i := 0 to ENTRIES
        invariant forall k | 0 <= k < i :: native[k] == Kept(old(Abstract(row)))[k]
        invariant forall k | i <= k < ENTRIES :: native[k] == old(native[k])
      {
        if !active || row[i] != uploaded[i] { native[i] := row[i]; }
      }
    }

    method Upload(row: array<half>, colors: Colors)
      requires Valid(row)
      modifies this, native, uploaded, row
      ensures Valid(row) && Abstract(row) == Step(old(Abstract(row)), Event.Upload(colors))
    {
      Keep(row);
      Fill(uploaded, colors);
      active := true;
      Fill(row, colors);
    }

    method Release(row: array<half>)
      requires Valid(row)
      modifies this, row
      ensures Valid(row) && Abstract(row) == Step(old(Abstract(row)), Event.Release)
    {
      if !active {
        return;
      }
      for i := 0 to ENTRIES
        invariant forall k | 0 <= k < i :: row[k] == Kept(old(Abstract(row)))[k]
        invariant forall k | i <= k < ENTRIES :: row[k] == old(row[k])
        invariant active && native[..] == old(native[..]) && uploaded[..] == old(uploaded[..])
      {
        if row[i] == uploaded[i] { row[i] := native[i]; }
      }
      active := false;
    }
  }

  method Fill(a: array<half>, colors: Colors)
    requires a.Length == ENTRIES
    modifies a
    ensures a[..] == colors
  {
    for i := 0 to ENTRIES
      invariant a[..i] == colors[..i]
    {
      a[i] := colors[i];
    }
    assert a[..] == a[..ENTRIES] && colors == colors[..ENTRIES];
  }

  // ---- What the game gets back ----

  /** The colour the menu believes to be the game's own. */
  function Believed(s: State, i: nat): half
    requires i < ENTRIES
  {
    Kept(s)[i]
  }

  /** Uploads and releases, however often and in whatever order, change no belief; a write is mistaken only for the menu's own colour. */
  lemma {:induction false} BeliefAfter(s: State, e: Event, i: nat)
    requires i < ENTRIES
    ensures Believed(Step(s, e), i) ==
            if e.Write? && e.i == i && !(s.active && e.color == s.uploaded[i]) then e.color
            else if e.Write? && e.i == i then s.native[i]
            else Believed(s, i)
  {}

  /** The last write to an entry, or the number of events if there is none. */
  function LastWrite(events: seq<Event>, i: nat): (k: nat)
    ensures k <= |events| && (k < |events| ==> events[k].Write? && events[k].i == i)
    decreases |events|
  {
    if events == [] then 0
    else
      var n := |events| - 1;
      if events[n].Write? && events[n].i == i then n
      else if LastWrite(events[..n], i) == n then n + 1
      else LastWrite(events[..n], i)
  }

  /** The write cannot be told from the menu's own colour, and the colour the menu would put back is another one. */
  predicate Mistaken(s: State, events: seq<Event>, i: nat)
    requires i < ENTRIES
  {
    var k := LastWrite(events, i);
    k < |events| &&
    var before := Run(s, events[..k]);
    before.active && events[k].color == before.uploaded[i] && before.native[i] != events[k].color
  }

  lemma {:induction false} BeliefOfRun(s: State, events: seq<Event>, i: nat)
    requires i < ENTRIES && !s.active
    ensures var k := LastWrite(events, i);
            var before := Run(s, events[..k]);
            Believed(Run(s, events), i) ==
            if k == |events| then s.row[i]
            else if before.active && events[k].color == before.uploaded[i] then before.native[i]
            else events[k].color
    ensures Alone(s.row, events)[i] == if LastWrite(events, i) == |events| then s.row[i] else events[LastWrite(events, i)].color
    decreases |events|
  {
    if events != [] {
      var n := |events| - 1;
      BeliefOfRun(s, events[..n], i);
      BeliefAfter(Run(s, events[..n]), events[n], i);
      var k := LastWrite(events[..n], i);
      if k < n { assert events[..n][..k] == events[..k]; }
    }
  }

  /** After a final release the row is what the game's writes alone would have made of it, entry by entry, unless a write was mistaken. */
  lemma {:induction false} ReleasedRow(s: State, events: seq<Event>, i: nat)
    requires i < ENTRIES && !s.active && events != [] && events[|events| - 1] == Release
    ensures !Run(s, events).active
    ensures Run(s, events).row[i] == Alone(s.row, events)[i] <==> !Mistaken(s, events, i)
  {
    BeliefOfRun(s, events, i);
    assert Believed(Run(s, events), i) == Run(s, events).row[i];
  }

  /** A game that never writes a colour the menu is showing gets its whole row back. */
  lemma {:induction false} RowReturned(s: State, events: seq<Event>)
    requires !s.active && events != [] && events[|events| - 1] == Release
    requires forall k | 0 <= k < |events| && events[k].Write? && events[k].i < ENTRIES ::
               var before := Run(s, events[..k]); before.active ==> events[k].color != before.uploaded[events[k].i]
    ensures Run(s, events).row == Alone(s.row, events)
  {
    forall i: nat | i < ENTRIES ensures Run(s, events).row[i] == Alone(s.row, events)[i] {
      ReleasedRow(s, events, i);
    }
  }

  /** The exception is real: one upload, one write of the uploaded colour, one release. */
  lemma {:induction false} WriteLost(s: State, colors: Colors)
    requires !s.active && colors[0] != s.row[0]
    ensures var events := [Upload(colors), Write(0, colors[0]), Release];
            Run(s, events).row[0] == s.row[0] && Alone(s.row, events)[0] == colors[0]
  {
    var events := [Upload(colors), Write(0, colors[0]), Release];
    assert events[..2] == [Upload(colors), Write(0, colors[0])] && events[..2][..1] == [Upload(colors)] && [Upload(colors)][..0] == [];
    assert Run(s, []) == s;
    assert Run(s, [Upload(colors)]) == Step(s, Upload(colors));
    assert Run(s, events[..2]) == Step(Step(s, Upload(colors)), Write(0, colors[0]));
    assert Alone(s.row, [Upload(colors)]) == s.row;
    assert Alone(s.row, events[..2]) == s.row[0 := colors[0]];
  }
}
