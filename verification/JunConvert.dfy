/** Converting the closed move graph into a combat pack (tools/convert_jun_moves.py). */
module JunConvert {
  import opened Options
  import opened Bytes
  import opened JunSource
  import JunPack
  import Motion

  /** Verified inputs and the closed move graph: per address the thirteen words of its record, and native holds
    * the translated damage, flags, reaction and counter words. */
  datatype Source = Source(ram: seq<byte>, bank: seq<byte>, aliases: seq<word>, addresses: seq<word>,
                           raw: seq<seq<word>>, groups: set<half>, native: seq<seq<word>>)

  ghost predicate WellTyped(s: Source) {
    && |s.raw| == |s.native| == |s.addresses|
    && forall i | 0 <= i < |s.addresses| :: |s.raw[i]| == 13 && |s.native[i]| == 4
  }

  // ---- Cancel rows ----

  datatype Cell = Cell(cmd: half, condition: byte, param: half, dest: half, transition: byte, delay: byte, first: byte, last: byte)

  function CellBytes(c: Cell): (b: seq<byte>)
    ensures |b| == 12
  {
    PackHalves([c.cmd, c.condition * 256, c.param, c.dest]) + [c.transition, c.delay, c.first, c.last]
  }

  function CellsBytes(cells: seq<Cell>): (b: seq<byte>)
    ensures |b| == 12 * |cells|
  {
    if cells == [] then [] else CellBytes(cells[0]) + CellsBytes(cells[1..])
  }

  datatype Pattern = Pattern(cmd: half, words: seq<half>)

  function IndexOf<T(==)>(xs: seq<T>, x: T): (i: nat)
    requires x in xs
    ensures i < |xs| && xs[i] == x
  {
    if xs[0] == x then 0 else 1 + IndexOf(xs[1..], x)
  }

  /** The record an alias leads to: the neutral entry 3, or a converted record; none outside the converted graph. */
  function Target(s: Source, alias: nat): Option<nat> {
    if alias == 56 then Some(3)
    else if alias < |s.aliases| && s.aliases[alias] in s.addresses then Some(8192 + IndexOf(s.addresses, s.aliases[alias]))
    else None
  }

  function Filed(patterns: seq<Pattern>, cmd: half): Option<nat> {
    if patterns == [] then None
    else if patterns[0].cmd == cmd then Some(0)
    else match Filed(patterns[1..], cmd)
      case None => None
      case Some(k) => Some(k + 1)
  }

  /** What becomes of one cancel row. A skip that is not resolved fails the whole conversion at its end. */
  datatype Outcome = Emit(cell: Cell, patterns: seq<Pattern>) | Last(cell: Cell) | Skip(resolved: bool) | Fail

  function Recovery(s: Source, row: Row): Outcome {
    match Transition(row.kind)
    case None => Fail
    case Some(transition) =>
      if row.kind / 0x80 % 0x40 != 0 then Fail
      else match Target(s, row.next)
        case None => Fail
        case Some(dest) =>
          if dest >= 0x10000 then Fail
          else Last(Cell(JunPack.TERMINATOR, 0, 0, dest, transition, row.window / 256, row.end % 256, row.end / 256))
  }

  /** The command an emitted row carries, and the input sequences filed so far. */
  ghost function Command(s: Source, patterns: seq<Pattern>, cmd: half): Option<Option<(half, seq<Pattern>)>> {
    if cmd == 0x8001 || cmd == 0x8002 then Some(Some((cmd + 0x4000, patterns)))
    else if cmd >= 0x800f then
      match Filed(patterns, cmd)
      case Some(k) => if JunPack.PATTERN_BASE + k < 0x10000 then Some(Some((JunPack.PATTERN_BASE + k, patterns))) else None
      case None =>
        match Input(s.ram, cmd)
        case None => None
        case Some(words) =>
          if JunPack.PATTERN_BASE + |patterns| < 0x10000
          then Some(Some((JunPack.PATTERN_BASE + |patterns|, patterns + [Pattern(cmd, words)])))
          else None
    else if cmd >= 0x8000 || cmd / 0x4000 % 2 == 1 then Some(None)
    else Some(Some((cmd, patterns)))
  }

  function Parameter(s: Source, condition: nat, param: half): Option<half> {
    if condition == 74 then Some(if param < 0x8000 then param + 0x8000 else param)
    else if condition == 75 then
      if param !in s.groups then None else Some(if param / 0x4000 % 2 == 0 then param + 0x4000 else param)
    else Some(param)
  }

  /** The exclusions a solo fight makes, in the order they are tried. */
  predicate Excluded(row: Row) {
    var rule, condition := row.req % 256, row.req / 256 % 128;
    || CharacterRequirement(rule) == Some(false)
    || (row.cmd < 0x8000 && row.cmd / 0x4000 % 2 == 1)
    || 0x64 <= rule < 0x85 || 0xa7 <= rule < 0xc9 || row.kind / 0x80 % 0x80 != 0 || 88 <= condition <= 92
    || condition == 95
  }

  ghost function ConvertRow(s: Source, patterns: seq<Pattern>, row: Row): Outcome {
    if row.cmd == 0x8000 then Recovery(s, row)
    else if Excluded(row) then Skip(true)
    else
      var condition, dest, transition := Condition(row.req / 256 % 128), Target(s, row.next), Transition(row.kind);
      if CharacterRequirement(row.req % 256).None? || condition.None? || dest.None? || transition.None? then Skip(false)
      else match Command(s, patterns, row.cmd)
        case None => Fail
        case Some(None) => Skip(false)
        case Some(Some(command)) =>
          match Parameter(s, condition.value, row.param)
          case None => Fail
          case Some(param) =>
            if dest.value >= 0x10000 then Fail
            else Emit(Cell(command.0, condition.value, param, dest.value, transition.value,
                           row.window / 256, row.end % 256, row.end / 256), command.1)
  }

  datatype Conversion = Converted(cells: seq<Cell>, patterns: seq<Pattern>, clean: bool) | Failed

  /** The rows of one list up to its first end-of-animation link, from row i on. */
  ghost function ConvertRows(s: Source, rows: seq<Row>, i: nat, patterns: seq<Pattern>): Conversion
    decreases |rows| - i
  {
    if i >= |rows| then Converted([], patterns, true)
    else match ConvertRow(s, patterns, rows[i])
      case Fail => Failed
      case Last(cell) => Converted([cell], patterns, true)
      case Skip(resolved) =>
        (match ConvertRows(s, rows, i + 1, patterns)
         case Failed => Failed
         case Converted(cells, after, clean) => Converted(cells, after, clean && resolved))
      case Emit(cell, filed) =>
        (match ConvertRows(s, rows, i + 1, filed)
         case Failed => Failed
         case Converted(cells, after, clean) => Converted([cell] + cells, after, clean))
  }

  function Link(s: Source, alias: nat): Option<half> {
    match Target(s, alias)
    case None => None
    case Some(dest) => if dest < 0x10000 then Some(dest) else None
  }

  /** A list that ends without a link of its own gets the record's. */
  ghost function Closed(s: Source, v4: word, c: Conversion): Conversion {
    if c.Failed? || (c.cells != [] && c.cells[|c.cells| - 1].cmd == JunPack.TERMINATOR) then c
    else match Link(s, v4 % 0x10000)
      case None => Failed
      case Some(dest) => c.(cells := c.cells + [Cell(JunPack.TERMINATOR, 0, 0, dest, 6, 0, 0, 0)])
  }

  // ---- The converter's loops ----

  method InputPattern(s: Source, cmd: half, patterns: seq<Pattern>) returns (r: Option<(half, seq<Pattern>)>)
    requires cmd >= 0x800f
    ensures Command(s, patterns, cmd) == if r.None? then None else Some(Some(r.value))
  {
    var filed := Filed(patterns, cmd);
    if filed.Some? {
      if JunPack.PATTERN_BASE + filed.value >= 0x10000 {
        return None;
      }
      return Some((JunPack.PATTERN_BASE + filed.value, patterns));
    }
    var words := ReadSequence(s.ram, cmd);
    if words.None? || JunPack.PATTERN_BASE + |patterns| >= 0x10000 {
      return None;
    }
    return Some((JunPack.PATTERN_BASE + |patterns|, patterns + [Pattern(cmd, words.value)]));
  }

  method ConvertOne(s: Source, patterns: seq<Pattern>, row: Row) returns (o: Outcome)
    ensures o == ConvertRow(s, patterns, row)
  {
    var dest := Target(s, row.next);
    if row.cmd == 0x8000 {
      return Recovery(s, row);
    }
    if Excluded(row) {
      return Skip(true);
    }
    var condition := Condition(row.req / 256 % 128);
    if CharacterRequirement(row.req % 256).None? || condition.None? {
      return Skip(false);
    }
    if dest.None? {
      return Skip(false);
    }
    var transition := Transition(row.kind);
    if transition.None? {
      return Skip(false);
    }
    var cmd, filed := row.cmd, patterns;
    if cmd == 0x8001 || cmd == 0x8002 {
      cmd := cmd + 0x4000;
    } else if cmd >= 0x800f {
      var pattern := InputPattern(s, cmd, patterns);
      if pattern.None? {
        return Fail;
      }
      cmd, filed := pattern.value.0, pattern.value.1;
    } else if cmd >= 0x8000 || cmd / 0x4000 % 2 == 1 {
      return Skip(false);
    }
    var param := Parameter(s, condition.value, row.param);
    if param.None? || dest.value >= 0x10000 {
      return Fail;
    }
    return Emit(Cell(cmd, condition.value, param.value, dest.value, transition.value,
                     row.window / 256, row.end % 256, row.end / 256), filed);
  }

  function Extended(cells: seq<Cell>, clean: bool, c: Conversion): Conversion {
    match c
    case Failed => Failed
    case Converted(more, patterns, rest) => Converted(cells + more, patterns, clean && rest)
  }

  method Cancels(s: Source, rows: seq<Row>, patterns0: seq<Pattern>) returns (c: Conversion)
    ensures c == ConvertRows(s, rows, 0, patterns0)
  {
    var cells: seq<Cell>, patterns, clean := [], patterns0, true;
    ghost var goal := ConvertRows(s, rows, 0, patterns0);
    ExtendedEmpty(goal);
    for i := 0 to |rows|
      invariant goal == Extended(cells, clean, ConvertRows(s, rows, i, patterns))
    {
      var o := ConvertOne(s, patterns, rows[i]);
      match o {
        case Fail => return Failed;
        case Last(cell) => return Converted(cells + [cell], patterns, clean);
        case Skip(resolved) => clean := clean && resolved;
        case Emit(cell, filed) =>
          ExtendedStep(cells, clean, cell, ConvertRows(s, rows, i + 1, filed));
          cells, patterns := cells + [cell], filed;
      }
    }
    assert cells + [] == cells;
    return Converted(cells, patterns, clean);
  }

  lemma {:induction false} ExtendedEmpty(c: Conversion)
    ensures Extended([], true, c) == c
  {
    if c.Converted? { assert [] + c.cells == c.cells; }
  }

  lemma {:induction false} ExtendedStep(cells: seq<Cell>, clean: bool, cell: Cell, c: Conversion)
    ensures Extended(cells, clean, Extended([cell], true, c)) == Extended(cells + [cell], clean, c)
  {
    if c.Converted? { assert cells + ([cell] + c.cells) == (cells + [cell]) + c.cells; }
  }
}
