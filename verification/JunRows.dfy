/** What a converted cancel row keeps of its source row, byte for byte (tools/convert_jun_moves.py). */
module JunRows {
  import opened Options
  import opened Bytes
  import opened JunSource
  import opened JunConvert
  import opened JunLayout
  import JunAgree

  // ---- Where the rows of a list lie ----

  /** The row at this address, field by field. */
  predicate IsRow(ram: seq<byte>, at: nat, row: Row) {
    && at + 14 <= |ram|
    && row.cmd == Half(ram, at) && row.req == Half(ram, at + 2) && row.param == Half(ram, at + 4) && row.next == Half(ram, at + 6)
    && row.kind == Half(ram, at + 8) && row.window == Half(ram, at + 10) && row.end == Half(ram, at + 12)
  }

  /** The addresses of a list's rows in the order they are met: fourteen bytes apart, with subroutines in place of their calls. */
  function Places(ram: seq<byte>, pointer: word, stack: seq<word>): Option<seq<nat>>
    decreases 10 - |stack|, 2000, |ram|
  {
    if pointer in stack || |stack| > 8 then None else PlacesFrom(ram, pointer, stack, 0)
  }

  function PlacesFrom(ram: seq<byte>, pointer: word, stack: seq<word>, k: nat): Option<seq<nat>>
    requires |stack| <= 8
    decreases 10 - |stack|, 1024 - k, |ram|
  {
    var at: nat := pointer % 0x400000 + 14 * k;
    if k >= 1024 || at + 14 > |ram| then None
    else if Half(ram, at) == 0x800e then Some([])
    else if Half(ram, at) == 0x8000 then Some([at])
    else if Half(ram, at) != 0x800d then Joined(Some([at]), PlacesFrom(ram, pointer, stack, k + 1))
    else
      var called := 0x801b3740 + 14 * Half(ram, at + 6);
      if called >= 0x1_0000_0000 then None
      else Joined(Places(ram, called, stack + [pointer]), PlacesFrom(ram, pointer, stack, k + 1))
  }

  ghost predicate RowsAt(ram: seq<byte>, rows: seq<Row>, places: seq<nat>) {
    |rows| == |places| && forall k | 0 <= k < |rows| :: IsRow(ram, places[k], rows[k])
  }

  ghost predicate Placed(ram: seq<byte>, rows: Option<seq<Row>>, places: Option<seq<nat>>) {
    (rows.Some? <==> places.Some?) && (rows.Some? ==> RowsAt(ram, rows.value, places.value))
  }

  lemma {:induction false} JoinedPlaced(ram: seq<byte>, a: Option<seq<Row>>, p: Option<seq<nat>>, b: Option<seq<Row>>, q: Option<seq<nat>>)
    requires Placed(ram, a, p) && Placed(ram, b, q)
    ensures Placed(ram, Joined(a, b), Joined(p, q))
  {}

  lemma {:induction false} RowRead(ram: seq<byte>, at: nat)
    ensures ReadRow(ram, at).Some? <==> at + 14 <= |ram|
    ensures ReadRow(ram, at).Some? ==> IsRow(ram, at, ReadRow(ram, at).value)
  {}

  lemma {:induction false} ListPlaced(ram: seq<byte>, pointer: word, stack: seq<word>)
    ensures Placed(ram, CancelRows(ram, pointer, stack), Places(ram, pointer, stack))
    decreases 10 - |stack|, 2000
  {
    if pointer !in stack && |stack| <= 8 { RowsPlaced(ram, pointer, stack, 0); }
  }

  lemma {:induction false} RowsPlaced(ram: seq<byte>, pointer: word, stack: seq<word>, k: nat)
    requires |stack| <= 8
    ensures Placed(ram, RowsFrom(ram, pointer, stack, k), PlacesFrom(ram, pointer, stack, k))
    decreases 10 - |stack|, 1024 - k
  {
    var at := pointer % 0x400000 + 14 * k;
    RowRead(ram, at);
    if k < 1024 && at + 14 <= |ram| {
      var row := ReadRow(ram, at).value;
      if row.cmd == 0x800d {
        var called := 0x801b3740 + 14 * row.next;
        if called < 0x1_0000_0000 {
          ListPlaced(ram, called, stack + [pointer]);
          RowsPlaced(ram, pointer, stack, k + 1);
          JoinedPlaced(ram, CancelRows(ram, called, stack + [pointer]), Places(ram, called, stack + [pointer]),
                       RowsFrom(ram, pointer, stack, k + 1), PlacesFrom(ram, pointer, stack, k + 1));
        }
      } else if row.cmd != 0x800e && row.cmd != 0x8000 {
        RowsPlaced(ram, pointer, stack, k + 1);
        JoinedPlaced(ram, Some([row]), Some([at]), RowsFrom(ram, pointer, stack, k + 1), PlacesFrom(ram, pointer, stack, k + 1));
      }
    }
  }

  // ---- What one packed row holds ----

  /** A destination alias as the packed rows name it: 3 for the neutral move, else the number of the converted record. */
  predicate Leads(s: Source, alias: half, dest: half) {
    if alias == 56 then dest == 3
    else alias < |s.aliases| && 8192 <= dest < 8192 + |s.addresses| && s.addresses[dest - 8192] == s.aliases[alias]
  }

  /** The transition byte: the two high bits are kept, the low seven bits mean another number. */
  predicate Becomes(kind: half, transition: byte) {
    var low, code := kind % 128, transition % 64;
    && transition / 64 == kind / 0x4000
    && (low <= 30 ==> code == low) && (low == 31 || low == 32 ==> code == 33)
    && (33 <= low <= 35 ==> code == low + 12) && (36 <= low ==> low <= 46 && code == low - 2)
  }

  /** A direction or button command is kept; the two ends of an animation move up; an input sequence goes by its number. */
  ghost predicate Commands(patterns: seq<Pattern>, cmd: half, packed: half) {
    || (packed == cmd < 0x4000)
    || (0x8001 <= cmd <= 0x8002 && packed == cmd + 0x4000)
    || (cmd >= 0x800f && packed >= 0xe000 && packed - 0xe000 < |patterns| && patterns[packed - 0xe000].cmd == cmd)
  }

  /** Condition 74 sets bit 15 of the parameter, condition 75 bit 14 of a known contact group; others keep it. */
  predicate Parametrised(s: Source, condition: byte, param: half, packed: half) {
    if condition == 74 then packed >= 0x8000 && packed % 0x8000 == param % 0x8000
    else if condition == 75 then param in s.groups && packed / 0x4000 % 2 == 1 && packed / 0x8000 == param / 0x8000 && packed % 0x4000 == param % 0x4000
    else packed == param
  }

  /** The conditions that have a counterpart, and their numbers. */
  predicate Conditioned(number: nat, condition: nat) {
    || (number <= 36 && condition == number) || (37 <= number <= 39 && condition == number + 39)
    || (40 <= number <= 71 && number != 50 && condition == number - 3) || (80 <= number <= 83 && condition == number - 1)
    || (84 <= number <= 87 && condition == number - 5) || (96 <= number <= 102 && condition == number - 27)
  }

  lemma {:induction false} ConditionIs(number: nat, condition: nat)
    ensures Condition(number) == Some(condition) <==> Conditioned(number, condition)
    ensures Condition(number).Some? ==> Conditioned(number, Condition(number).value)
  {}

  /** The last four bytes of a packed row against the source row: transition, then the three bytes of its time window. */
  predicate Timed(ram: seq<byte>, at: nat, b: seq<byte>)
    requires at + 14 <= |ram| && |b| == 12
  {
    Becomes(Half(ram, at + 8), b[8]) && b[9] == ram[at + 11] && b[10] == ram[at + 12] && b[11] == ram[at + 13]
  }

  /** The twelve bytes are the row at this address, converted. */
  ghost predicate Carries(s: Source, at: nat, b: seq<byte>, patterns: seq<Pattern>) {
    && at + 14 <= |s.ram| && |b| == 12 && Timed(s.ram, at, b) && Leads(s, Half(s.ram, at + 6), Half(b, 6))
    && if Half(s.ram, at) == 0x8000 then Half(b, 0) == 0xc000 && b[2] == b[3] == b[4] == b[5] == 0
       else
         && Commands(patterns, Half(s.ram, at), Half(b, 0))
         && b[2] == 0 && Conditioned(s.ram[at + 3] % 128, b[3])
         && Parametrised(s, b[3], Half(s.ram, at + 4), Half(b, 4))
  }

  /** The row that closes a list without an end of its own: it leads where the record does, with transition six. */
  predicate Closes(s: Source, alias: half, b: seq<byte>) {
    |b| == 12 && Half(b, 0) == 0xc000 && b[2] == b[3] == b[4] == b[5] == 0 && Leads(s, alias, Half(b, 6)) && b[8..] == [6, 0, 0, 0]
  }

  lemma {:induction false} HalfBytes(ram: seq<byte>, at: nat)
    requires at + 2 <= |ram|
    ensures Half(ram, at) % 256 == ram[at] && Half(ram, at) / 256 == ram[at + 1] && Half(ram, at) / 256 % 128 == ram[at + 1] % 128
  {}

  lemma {:induction false} PackedCell(c: Cell)
    ensures var b := CellBytes(c);
      && Half(b, 0) == c.cmd && b[2] == 0 && b[3] == c.condition && Half(b, 4) == c.param && Half(b, 6) == c.dest
      && b[8] == c.transition && b[9] == c.delay && b[10] == c.first && b[11] == c.last
  {
    var b, hs: seq<half> := CellBytes(c), [c.cmd, c.condition * 256, c.param, c.dest];
    HoldsSlice(b, 0, b);
    HoldsPart(b, 0, PackHalves(hs), [c.transition, c.delay, c.first, c.last]);
    HalfInPlace(b, 0, hs, 0);
    HalfInPlace(b, 0, hs, 1);
    HalfInPlace(b, 0, hs, 2);
    HalfInPlace(b, 0, hs, 3);
    HalfBytes(b, 2);
  }

  lemma {:induction false} TargetLeads(s: Source, alias: half, dest: half)
    requires Target(s, alias) == Some(dest as nat)
    ensures Leads(s, alias, dest)
  {}

  lemma {:induction false} TransitionBecomes(kind: half)
    requires Transition(kind).Some?
    ensures Transition(kind).value < 256 && Becomes(kind, Transition(kind).value)
  {
    HighBits(kind);
  }

  lemma {:induction false} FiledThere(patterns: seq<Pattern>, cmd: half)
    requires Filed(patterns, cmd).Some?
    ensures Filed(patterns, cmd).value < |patterns| && patterns[Filed(patterns, cmd).value].cmd == cmd
  {
    if patterns[0].cmd != cmd { FiledThere(patterns[1..], cmd); }
  }

  lemma {:induction false} CommandCarried(s: Source, patterns: seq<Pattern>, cmd: half)
    requires Command(s, patterns, cmd).Some? && Command(s, patterns, cmd).value.Some? && cmd != 0x8000
    ensures var command := Command(s, patterns, cmd).value.value; Commands(command.1, cmd, command.0)
  {
    if cmd >= 0x800f && Filed(patterns, cmd).Some? { FiledThere(patterns, cmd); }
  }

  lemma {:induction false} ParameterCarried(s: Source, condition: byte, param: half)
    requires Parameter(s, condition, param).Some?
    ensures Parametrised(s, condition, param, Parameter(s, condition, param).value)
  {}

  lemma {:induction false} WindowCarried(ram: seq<byte>, at: nat, row: Row, c: Cell)
    requires IsRow(ram, at, row) && Transition(row.kind) == Some(c.transition as nat)
    requires c.delay == row.window / 256 && c.first == row.end % 256 && c.last == row.end / 256
    ensures Timed(ram, at, CellBytes(c))
  {
    PackedCell(c);
    TransitionBecomes(row.kind);
    HalfBytes(ram, at + 10);
    HalfBytes(ram, at + 12);
  }

  lemma {:induction false} EmittedCarries(s: Source, patterns: seq<Pattern>, row: Row, at: nat)
    requires IsRow(s.ram, at, row) && ConvertRow(s, patterns, row).Emit?
    ensures Carries(s, at, CellBytes(ConvertRow(s, patterns, row).cell), ConvertRow(s, patterns, row).patterns)
  {
    var c := ConvertRow(s, patterns, row).cell;
    PackedCell(c);
    WindowCarried(s.ram, at, row, c);
    TargetLeads(s, row.next, c.dest);
    CommandCarried(s, patterns, row.cmd);
    ParameterCarried(s, c.condition, row.param);
    HalfBytes(s.ram, at + 2);
    ConditionIs(s.ram[at + 3] % 128, c.condition);
  }

  lemma {:induction false} LastCarries(s: Source, patterns: seq<Pattern>, row: Row, at: nat)
    requires IsRow(s.ram, at, row) && ConvertRow(s, patterns, row).Last?
    ensures Carries(s, at, CellBytes(ConvertRow(s, patterns, row).cell), patterns) && row.cmd == 0x8000
  {
    var c := ConvertRow(s, patterns, row).cell;
    PackedCell(c);
    WindowCarried(s.ram, at, row, c);
    TargetLeads(s, row.next, c.dest);
    HalfBytes(CellBytes(c), 4);
  }

  // ---- Why a row is left out ----

  /** The character rules the donor never meets, alone or against the opponents they name. */
  predicate NeverMet(rule: byte) {
    || rule == 0xec
    || (1 <= rule <= 33 && rule != 29) || rule == 62
    || (133 <= rule <= 166 && rule != 163) || rule == 231
  }

  /** A row no solo fight can use, by its bytes. */
  predicate Unusable(ram: seq<byte>, at: nat)
    requires at + 14 <= |ram|
  {
    var rule, condition := ram[at + 2], ram[at + 3] % 128;
    || NeverMet(rule) || 100 <= rule <= 132 || 167 <= rule <= 200
    || ram[at + 1] / 64 == 1
    || ram[at + 8] >= 128 || ram[at + 9] % 64 != 0
    || 88 <= condition <= 92 || condition == 95
  }

  lemma {:induction false} RuleNeverMet(rule: byte)
    ensures CharacterRequirement(rule) == Some(false) <==> NeverMet(rule)
  {}

  lemma {:induction false} TopBits(h: half, low: byte, high: byte)
    requires h == low + 256 * high
    ensures (h < 0x8000 && h / 0x4000 % 2 == 1) <==> high / 64 == 1
    ensures h / 0x80 % 0x80 != 0 <==> low >= 128 || high % 64 != 0
  {
    BitsSplit(low / 128, low % 128, high / 64, high % 64);
    assert low == 128 * (low / 128) + low % 128 && high == 64 * (high / 64) + high % 64;
  }

  lemma {:induction false} BitsSplit(b: nat, rest: nat, q: nat, r: nat)
    requires b < 2 && rest < 128 && q < 4 && r < 64
    ensures var h := 128 * b + rest + 256 * (64 * q + r); h / 0x4000 == q && h / 0x80 % 0x80 == b + 2 * r && (h < 0x8000 <==> q < 2)
  {
    var h := 128 * b + rest + 256 * (64 * q + r);
    assert h / 0x80 == b + 2 * r + 128 * q;
  }

  lemma {:induction false} ExcludedUnusable(ram: seq<byte>, at: nat, row: Row)
    requires IsRow(ram, at, row)
    ensures Excluded(row) <==> Unusable(ram, at)
  {
    RuleNeverMet(ram[at + 2]);
    HalfBytes(ram, at + 2);
    TopBits(row.cmd, ram[at], ram[at + 1]);
    TopBits(row.kind, ram[at + 8], ram[at + 9]);
  }

  lemma {:induction false} SkippedUnusable(s: Source, patterns: seq<Pattern>, row: Row, at: nat)
    requires IsRow(s.ram, at, row) && ConvertRow(s, patterns, row) == Skip(true)
    ensures Half(s.ram, at) != 0x8000 && Unusable(s.ram, at)
  {
    ExcludedUnusable(s.ram, at, row);
  }

  // ---- A whole list ----

  ghost predicate InOrder(picked: seq<nat>, lo: nat, hi: nat) {
    (forall k | 0 <= k < |picked| :: lo <= picked[k] < hi) && forall j, k | 0 <= j < k < |picked| :: picked[j] < picked[k]
  }

  lemma {:induction false} OneBefore(picked: seq<nat>, lo: nat, hi: nat)
    requires InOrder(picked, lo + 1, hi) && lo < hi
    ensures InOrder([lo] + picked, lo, hi)
  {}

  /** The packed rows of a list: the rows picked, in their order, with every row passed over unusable. */
  ghost predicate Picks(s: Source, places: seq<nat>, i: nat, picked: seq<nat>, cells: seq<Cell>, patterns: seq<Pattern>) {
    && |picked| == |cells| && InOrder(picked, i, |places|)
    && (forall k | 0 <= k < |picked| :: Carries(s, places[picked[k]], CellBytes(cells[k]), patterns))
    && (forall j | i <= j < |places| && j !in picked && BeforeEnd(s, places, j) :: places[j] + 14 <= |s.ram| && Unusable(s.ram, places[j]))
  }

  /** No row before this one ends the list. */
  ghost predicate BeforeEnd(s: Source, places: seq<nat>, j: nat)
    requires j <= |places|
  {
    forall k | 0 <= k < j :: places[k] + 2 <= |s.ram| && Half(s.ram, places[k]) != 0x8000
  }

  lemma {:induction false} CarriesMore(s: Source, at: nat, b: seq<byte>, few: seq<Pattern>, many: seq<Pattern>)
    requires Carries(s, at, b, few) && few <= many
    ensures Carries(s, at, b, many)
  {}

  lemma {:induction false} FiledPrefix(s: Source, rows: seq<Row>, i: nat, patterns: seq<Pattern>)
    requires ConvertRows(s, rows, i, patterns).Converted?
    ensures patterns <= ConvertRows(s, rows, i, patterns).patterns
    decreases |rows| - i
  {
    if i < |rows| {
      match ConvertRow(s, patterns, rows[i])
      case Emit(cell, filed) => FiledPrefix(s, rows, i + 1, filed);
      case Last(cell) =>
      case Skip(_) => FiledPrefix(s, rows, i + 1, patterns);
      case Fail =>
    }
  }

  lemma {:induction false} PicksFirst(s: Source, places: seq<nat>, i: nat, cell: Cell, picked: seq<nat>, cells: seq<Cell>, patterns: seq<Pattern>)
    requires i < |places| && Picks(s, places, i + 1, picked, cells, patterns) && Carries(s, places[i], CellBytes(cell), patterns)
    ensures Picks(s, places, i, [i] + picked, [cell] + cells, patterns)
  {
    OneBefore(picked, i, |places|);
    forall k | 0 <= k < |picked| + 1 ensures Carries(s, places[([i] + picked)[k]], CellBytes(([cell] + cells)[k]), patterns) {
      if k > 0 { assert Carries(s, places[picked[k - 1]], CellBytes(cells[k - 1]), patterns); }
    }
    forall j | i <= j < |places| && j !in [i] + picked && BeforeEnd(s, places, j) ensures places[j] + 14 <= |s.ram| && Unusable(s.ram, places[j]) {
      assert j !in picked;
    }
  }

  lemma {:induction false} PicksEmitted(s: Source, row: Row, filed: seq<Pattern>, places: seq<nat>, i: nat, picked: seq<nat>, cells: seq<Cell>, patterns: seq<Pattern>)
    requires i < |places| && IsRow(s.ram, places[i], row) && ConvertRow(s, filed, row).Emit? && ConvertRow(s, filed, row).patterns <= patterns
    requires Picks(s, places, i + 1, picked, cells, patterns)
    ensures Picks(s, places, i, [i] + picked, [ConvertRow(s, filed, row).cell] + cells, patterns)
  {
    var c := ConvertRow(s, filed, row);
    EmittedCarries(s, filed, row, places[i]);
    CarriesMore(s, places[i], CellBytes(c.cell), c.patterns, patterns);
    PicksFirst(s, places, i, c.cell, picked, cells, patterns);
  }

  lemma {:induction false} PicksLast(s: Source, places: seq<nat>, i: nat, cell: Cell, patterns: seq<Pattern>)
    requires i < |places| && Carries(s, places[i], CellBytes(cell), patterns) && Half(s.ram, places[i]) == 0x8000
    ensures Picks(s, places, i, [i], [cell], patterns)
  {}

  lemma {:induction false} PicksSkip(s: Source, places: seq<nat>, i: nat, picked: seq<nat>, cells: seq<Cell>, patterns: seq<Pattern>)
    requires i < |places| && Picks(s, places, i + 1, picked, cells, patterns) && places[i] + 14 <= |s.ram| && Unusable(s.ram, places[i])
    ensures Picks(s, places, i, picked, cells, patterns)
  {}

  /** Every packed row of a clean conversion carries a source row, in order; only unusable rows are passed over. */
  lemma {:induction false} RowsPicked(s: Source, rows: seq<Row>, places: seq<nat>, i: nat, patterns: seq<Pattern>) returns (picked: seq<nat>)
    requires RowsAt(s.ram, rows, places) && i <= |rows| && ConvertRows(s, rows, i, patterns).Converted? && ConvertRows(s, rows, i, patterns).clean
    ensures Picks(s, places, i, picked, ConvertRows(s, rows, i, patterns).cells, ConvertRows(s, rows, i, patterns).patterns)
    decreases |rows| - i
  {
    picked := [];
    if i < |rows| {
      assert IsRow(s.ram, places[i], rows[i]);
      var all := ConvertRows(s, rows, i, patterns);
      match ConvertRow(s, patterns, rows[i])
      case Emit(cell, filed) =>
        var rest := RowsPicked(s, rows, places, i + 1, filed);
        FiledPrefix(s, rows, i + 1, filed);
        PicksEmitted(s, rows[i], patterns, places, i, rest, ConvertRows(s, rows, i + 1, filed).cells, all.patterns);
        picked := [i] + rest;
      case Last(cell) =>
        LastCarries(s, patterns, rows[i], places[i]);
        PicksLast(s, places, i, cell, patterns);
        picked := [i];
      case Skip(_) =>
        SkippedUnusable(s, patterns, rows[i], places[i]);
        picked := RowsPicked(s, rows, places, i + 1, patterns);
        PicksSkip(s, places, i, picked, all.cells, all.patterns);
      case Fail =>
    }
  }

  /** The cancel rows of a record: its list converted, with an end of its own or the record's link to close it. */
  ghost predicate ListCarried(s: Source, i: nat, picked: seq<nat>, cells: seq<Cell>, patterns: seq<Pattern>)
    requires WellTyped(s) && i < |s.addresses|
  {
    var v, n := s.raw[i], |cells| - 1;
    Places(s.ram, v[3], []).Some? &&
    var places := Places(s.ram, v[3], []).value;
    || Picks(s, places, 0, picked, cells, patterns)
    || (n >= 0 && Picks(s, places, 0, picked, cells[..n], patterns) && Closes(s, v[4] % 0x10000, CellBytes(cells[n])))
  }

  lemma {:induction false} LinkCloses(s: Source, alias: half, c: Cell)
    requires Link(s, alias).Some? && c == Cell(0xc000, 0, 0, Link(s, alias).value, 6, 0, 0, 0)
    ensures Closes(s, alias, CellBytes(c))
  {
    PackedCell(c);
    TargetLeads(s, alias, c.dest);
    HalfBytes(CellBytes(c), 4);
  }

  /** The rows of a cleanly converted record carry its source rows. */
  lemma {:induction false} RecordCarried(s: Source, i: nat, patterns: seq<Pattern>, cells: seq<Cell>, filed: seq<Pattern>) returns (picked: seq<nat>)
    requires WellTyped(s) && i < |s.addresses| && CleanRows(s, i, patterns, cells, filed)
    ensures ListCarried(s, i, picked, cells, filed)
  {
    var v := s.raw[i];
    ListPlaced(s.ram, v[3], []);
    var rows := CancelRows(s.ram, v[3], []).value;
    var c := ConvertRows(s, rows, 0, patterns);
    picked := RowsPicked(s, rows, Places(s.ram, v[3], []).value, 0, patterns);
    if cells != c.cells {
      LinkCloses(s, v[4] % 0x10000, cells[|cells| - 1]);
      assert cells[..|cells| - 1] == c.cells;
    }
  }

  // ---- Rows in place ----

  /** The rows that lie at this address are the record's source rows, converted: all picked, or all but a closing one. */
  ghost predicate RowsHeld(a: seq<byte>, at: nat, n: nat, s: Source, i: nat, picked: seq<nat>, patterns: seq<Pattern>)
    requires WellTyped(s) && i < |s.addresses|
  {
    && at + 12 * n <= |a| && |picked| <= n <= |picked| + 1 && n > 0 && Places(s.ram, s.raw[i][3], []).Some?
    && var places := Places(s.ram, s.raw[i][3], []).value;
    && InOrder(picked, 0, |places|)
    && (forall k | 0 <= k < |picked| :: Carries(s, places[picked[k]], RowOf(a, at, k), patterns))
    && (|picked| < n ==> Closes(s, s.raw[i][4] % 0x10000, RowOf(a, at, n - 1)))
    && (forall j | 0 <= j < |places| && j !in picked && BeforeEnd(s, places, j) :: places[j] + 14 <= |s.ram| && Unusable(s.ram, places[j]))
  }

  /** The twelve bytes of row k of a list. */
  function RowOf(a: seq<byte>, at: nat, k: nat): (b: seq<byte>)
    requires at + 12 * k + 12 <= |a|
    ensures |b| == 12
  {
    a[at + 12 * k..at + 12 * k + 12]
  }

  lemma {:induction false} RowInPlace(a: seq<byte>, at: nat, cells: seq<Cell>, k: nat)
    requires Holds(a, at, CellsBytes(cells)) && k < |cells|
    ensures at + 12 * k + 12 <= |a| && RowOf(a, at, k) == CellBytes(cells[k])
  {
    JunAgree.CellInPlace(a, at, cells, k);
    HoldsSlice(a, at + 12 * k, CellBytes(cells[k]));
  }

  lemma {:induction false} CarriedHeld(a: seq<byte>, at: nat, s: Source, i: nat, picked: seq<nat>, cells: seq<Cell>, filed: seq<Pattern>, patterns: seq<Pattern>)
    requires WellTyped(s) && i < |s.addresses| && ListCarried(s, i, picked, cells, filed) && filed <= patterns
    requires cells != [] && Holds(a, at, CellsBytes(cells))
    ensures RowsHeld(a, at, |cells|, s, i, picked, patterns)
  {
    var places := Places(s.ram, s.raw[i][3], []).value;
    forall k | 0 <= k < |cells| ensures at + 12 * k + 12 <= |a| && RowOf(a, at, k) == CellBytes(cells[k]) { RowInPlace(a, at, cells, k); }
    forall k | 0 <= k < |picked| ensures Carries(s, places[picked[k]], RowOf(a, at, k), patterns) {
      CarriesMore(s, places[picked[k]], CellBytes(cells[k]), filed, patterns);
    }
  }
}
