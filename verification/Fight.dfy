/** The native fight simulation over the reals (native/src/game.cpp). */
module Fight {

  datatype Attack = NoAttack | Light | Heavy

  datatype Fighter = Fighter(x: real, y: real, velocity: real, facing: int, health: real, hitFlash: real,
                             attack: Attack, age: real, duration: real, connected: bool)

  datatype Match = Match(player: Fighter, opponent: Fighter, round: nat, over: bool, endDelay: real, time: real, previousJump: bool)

  datatype Input = Input(axis: real, jump: bool, light: bool, heavy: bool, restart: bool)

  /** What a fresh match state starts with, and whether the computer plays the opponent. */
  datatype Rules = Rules(health: real, time: real, cpu: bool)

  // ---- The rules as functions ----

  const STAGE := 11.0
  const SEPARATION := 0.72

  function Clamp(x: real, low: real, high: real): real { if x < low then low else if x > high then high else x }

  function Max(x: real, y: real): real { if x < y then y else x }

  function Abs(x: real): real { if x < 0.0 then -x else x }

  function Fresh(x: real, facing: int, health: real): Fighter {
    Fighter(x, 0.0, 0.0, facing, health, 0.0, NoAttack, 0.0, 0.0, false)
  }

  function Reset(rules: Rules, round: nat): Match {
    Match(Fresh(-2.4, 1, rules.health), Fresh(2.4, -1, rules.health), round, false, 0.0, rules.time, false)
  }

  function Duration(kind: Attack): real { if kind == Heavy then 0.52 else 0.34 }

  function Begun(f: Fighter, kind: Attack, over: bool): Fighter {
    if f.attack != NoAttack || over then f else f.(attack := kind, age := 0.0, duration := Duration(kind), connected := false)
  }

  function Moved(f: Fighter, dt: real, axis: real): Fighter {
    var slowdown := if f.attack == NoAttack then 1.0 else 0.28;
    f.(x := Clamp(f.x + Clamp(axis, -1.0, 1.0) * 4.6 * slowdown * dt, -STAGE, STAGE))
  }

  function Fallen(f: Fighter, dt: real, jump: bool): Fighter {
    var velocity := (if jump && f.y <= 0.001 then 7.2 else f.velocity) - 19.0 * dt;
    var y := f.y + velocity * dt;
    if y < 0.0 then f.(y := 0.0, velocity := 0.0) else f.(y := y, velocity := velocity)
  }

  function Aged(f: Fighter, dt: real): Fighter {
    if f.attack == NoAttack then f
    else if f.age + dt >= f.duration then f.(attack := NoAttack, age := 0.0, duration := 0.0, connected := false)
    else f.(age := f.age + dt)
  }

  function Updated(f: Fighter, dt: real, axis: real, jump: bool): Fighter {
    var g := Fallen(Moved(f, dt, axis), dt, jump);
    Aged(g.(hitFlash := Max(0.0, g.hitFlash - dt)), dt)
  }

  function WindowStart(kind: Attack): real { if kind == Heavy then 0.18 else 0.09 }

  function WindowEnd(kind: Attack): real { if kind == Heavy then 0.31 else 0.19 }

  predicate InWindow(f: Fighter) { f.attack != NoAttack && WindowStart(f.attack) <= f.age <= WindowEnd(f.attack) }

  predicate Hits(a: Fighter, d: Fighter) {
    && InWindow(a) && !a.connected && (d.x - a.x) * a.facing as real >= 0.0
    && Abs(d.x - a.x) <= (if a.attack == Heavy then 1.78 else 1.48) && d.y < 1.3
  }

  function Struck(a: Fighter, d: Fighter): Fighter {
    if !Hits(a, d) then d
    else d.(health := Max(0.0, d.health - (if a.attack == Heavy then 15.0 else 8.0)), hitFlash := 0.14,
            x := d.x + a.facing as real * (if a.attack == Heavy then 0.48 else 0.24))
  }

  function Striking(a: Fighter, d: Fighter): Fighter { if Hits(a, d) then a.(connected := true) else a }

  /** Both fighters pushed apart about their midpoint if they stand too close or crossed. */
  function Apart(p: Fighter, o: Fighter): (Fighter, Fighter) {
    if p.x > o.x - SEPARATION then
      var midpoint := (p.x + o.x) * 0.5;
      (p.(x := midpoint - SEPARATION * 0.5), o.(x := midpoint + SEPARATION * 0.5))
    else (p, o)
  }

  function Faced(p: Fighter, o: Fighter): (Fighter, Fighter) {
    var facing := if p.x <= o.x then 1 else -1;
    (p.(facing := facing), o.(facing := -facing))
  }

  function Chosen(p: Fighter, input: Input): Fighter {
    if input.heavy then Begun(p, Heavy, false) else if input.light then Begun(p, Light, false) else p
  }

  function CpuMove(distance: real, cpu: bool): real {
    if cpu && Abs(distance) > 2.2 then (if distance > 0.0 then -0.58 else 0.58) else 0.0
  }

  function CpuChosen(o: Fighter, distance: real, cpu: bool): Fighter {
    if cpu && Abs(distance) < 1.55 && o.attack == NoAttack then Begun(o, Light, false) else o
  }

  /** The updated fighters when their attacks are resolved: attacks begun, apart and facing each other. */
  function Engaged(p: Fighter, o: Fighter, distance: real, input: Input, cpu: bool): (Fighter, Fighter) {
    var apart := Apart(Chosen(p, input), CpuChosen(o, distance, cpu));
    Faced(apart.0, apart.1)
  }

  /** The player's attack is resolved first. */
  function Resolved(pair: (Fighter, Fighter)): (Fighter, Fighter) {
    var p, o := Striking(pair.0, pair.1), Struck(pair.0, pair.1);
    (Struck(o, p), Striking(o, p))
  }

  function Outcome(m: Match, pair: (Fighter, Fighter), dt: real, jump: bool): Match {
    var time := Max(0.0, m.time - dt);
    m.(player := pair.0, opponent := pair.1, previousJump := jump, time := time,
       over := time <= 0.0 || pair.0.health <= 0.0 || pair.1.health <= 0.0)
  }

  function UpdatedPlayer(m: Match, dt: real, input: Input): Fighter {
    Updated(m.player, dt, input.axis, input.jump && !m.previousJump)
  }

  function UpdatedOpponent(m: Match, dt: real, cpu: bool): Fighter {
    Updated(m.opponent, dt, CpuMove(m.opponent.x - m.player.x, cpu), false)
  }

  function Exchanged(m: Match, dt: real, input: Input, cpu: bool): (Fighter, Fighter) {
    Resolved(Engaged(UpdatedPlayer(m, dt, input), UpdatedOpponent(m, dt, cpu), m.opponent.x - m.player.x, input, cpu))
  }

  function Fought(m: Match, dt: real, input: Input, cpu: bool): Match {
    Outcome(m, Exchanged(m, dt, input, cpu), dt, input.jump)
  }

  function Next(m: Match, dt: real, input: Input, rules: Rules): Match {
    var dt := Clamp(dt, 0.0, 0.05);
    if input.restart then Reset(rules, m.round)
    else if m.over then
      if m.endDelay + dt >= 2.2 then Reset(rules, m.round + 1) else m.(endDelay := m.endDelay + dt)
    else Fought(m, dt, input, rules.cpu)
  }

  // ---- What every step keeps ----

  ghost predicate SoundFighter(f: Fighter) {
    && -11.84 <= f.x <= 11.84 && f.health >= 0.0
    && (f.attack != NoAttack ==> 0.0 <= f.age < f.duration == Duration(f.attack))
  }

  ghost predicate Sound(m: Match) {
    && SoundFighter(m.player) && SoundFighter(m.opponent)
    && m.player.x <= m.opponent.x - SEPARATION && m.player.facing == 1 && m.opponent.facing == -1
  }

  lemma {:induction false} UpdatedSound(f: Fighter, dt: real, axis: real, jump: bool)
    requires SoundFighter(f) && 0.0 <= dt <= 0.05
    ensures var g := Updated(f, dt, axis, jump);
            SoundFighter(g) && -STAGE <= g.x <= STAGE && g.facing == f.facing && g.health == f.health
  {}

  /** Sound, apart, facing each other, and far enough inside the stage to be pushed. */
  ghost predicate Poised(pair: (Fighter, Fighter)) {
    && SoundFighter(pair.0) && SoundFighter(pair.1) && pair.0.facing == 1 && pair.1.facing == -1
    && pair.0.x <= pair.1.x - SEPARATION && -11.36 <= pair.0.x && pair.1.x <= 11.36
  }

  lemma {:induction false} EngagedSound(p: Fighter, o: Fighter, distance: real, input: Input, cpu: bool)
    requires SoundFighter(p) && SoundFighter(o) && -STAGE <= p.x <= STAGE && -STAGE <= o.x <= STAGE
    ensures var r := Engaged(p, o, distance, input, cpu); Poised(r) && r.0.health == p.health && r.1.health == o.health
  {}

  lemma {:induction false} StruckSound(a: Fighter, d: Fighter)
    requires SoundFighter(d) && (a.facing == 1 || a.facing == -1) && -11.36 <= d.x * a.facing as real <= 11.36
    ensures SoundFighter(Struck(a, d)) && Struck(a, d).health <= d.health && Struck(a, d).facing == d.facing
    ensures d.x * a.facing as real <= Struck(a, d).x * a.facing as real
  {}

  /** Sound, apart and facing each other, with no more health than given. */
  ghost predicate Settled(r: (Fighter, Fighter), health: real, other: real) {
    && SoundFighter(r.0) && SoundFighter(r.1) && r.0.facing == 1 && r.1.facing == -1 && r.0.x <= r.1.x - SEPARATION
    && r.0.health <= health && r.1.health <= other
  }

  lemma {:induction false} ResolvedSound(pair: (Fighter, Fighter))
    requires Poised(pair)
    ensures Settled(Resolved(pair), pair.0.health, pair.1.health)
  {
    StruckSound(pair.0, pair.1);
    StruckSound(Struck(pair.0, pair.1), Striking(pair.0, pair.1));
  }

  lemma {:induction false} PairPoised(m: Match, dt: real, input: Input, cpu: bool)
    requires Sound(m) && 0.0 <= dt <= 0.05
    ensures var r := Engaged(UpdatedPlayer(m, dt, input), UpdatedOpponent(m, dt, cpu), m.opponent.x - m.player.x, input, cpu);
            Poised(r) && r.0.health == m.player.health && r.1.health == m.opponent.health
  {
    var distance := m.opponent.x - m.player.x;
    UpdatedSound(m.player, dt, input.axis, input.jump && !m.previousJump);
    UpdatedSound(m.opponent, dt, CpuMove(distance, cpu), false);
    EngagedSound(UpdatedPlayer(m, dt, input), UpdatedOpponent(m, dt, cpu), distance, input, cpu);
  }

  lemma {:induction false} ExchangedSound(m: Match, dt: real, input: Input, cpu: bool)
    requires Sound(m) && 0.0 <= dt <= 0.05
    ensures Settled(Exchanged(m, dt, input, cpu), m.player.health, m.opponent.health)
  {
    PairPoised(m, dt, input, cpu);
    ResolvedSound(Engaged(UpdatedPlayer(m, dt, input), UpdatedOpponent(m, dt, cpu), m.opponent.x - m.player.x, input, cpu));
  }

  lemma {:induction false} FoughtSound(m: Match, dt: real, input: Input, cpu: bool)
    requires Sound(m) && 0.0 <= dt <= 0.05
    ensures Sound(Fought(m, dt, input, cpu))
    ensures Fought(m, dt, input, cpu).player.health <= m.player.health
    ensures Fought(m, dt, input, cpu).opponent.health <= m.opponent.health
  {
    ExchangedSound(m, dt, input, cpu);
  }

  /** Over any run: the order and distance of the fighters, the stage, the facings and sound attacks. */
  lemma {:induction false} NextSound(m: Match, dt: real, input: Input, rules: Rules)
    requires Sound(m) && rules.health >= 0.0
    ensures Sound(Next(m, dt, input, rules))
  {
    if !input.restart && !m.over { FoughtSound(m, Clamp(dt, 0.0, 0.05), input, rules.cpu); }
  }

  /** Health never rises within a round; only a restart or the next round restores it. */
  lemma {:induction false} HealthNeverRises(m: Match, dt: real, input: Input, rules: Rules)
    requires Sound(m) && !input.restart && Next(m, dt, input, rules).round == m.round
    ensures Next(m, dt, input, rules).player.health <= m.player.health
    ensures Next(m, dt, input, rules).opponent.health <= m.opponent.health
  {
    if !m.over { FoughtSound(m, Clamp(dt, 0.0, 0.05), input, rules.cpu); }
  }

  // ---- Runs ----

  datatype Tick = Tick(dt: real, input: Input)

  datatype Side = Player | Opponent

  function Of(m: Match, side: Side): Fighter { if side == Player then m.player else m.opponent }

  ghost predicate Follows(ms: seq<Match>, ticks: seq<Tick>, step: (Match, Tick) -> Match) {
    |ms| == |ticks| + 1 && forall k | 0 <= k < |ticks| :: ms[k + 1] == step(ms[k], ticks[k])
  }

  function Stepping(rules: Rules): (Match, Tick) -> Match { (m: Match, t: Tick) => Next(m, t.dt, t.input, rules) }

  /** The states of a run, each the outcome of the one before. */
  ghost predicate IsRun(ms: seq<Match>, ticks: seq<Tick>, rules: Rules) { Follows(ms, ticks, Stepping(rules)) }

  /** Every state of every run that starts with a new match is sound. */
  lemma {:induction false} RunSound(ms: seq<Match>, ticks: seq<Tick>, rules: Rules, k: nat)
    requires IsRun(ms, ticks, rules) && ms[0] == Reset(rules, 0) && rules.health >= 0.0 && k < |ms|
    ensures Sound(ms[k])
    decreases k
  {
    if k > 0 {
      RunSound(ms, ticks, rules, k - 1);
      NextSound(ms[k - 1], ticks[k - 1].dt, ticks[k - 1].input, rules);
    }
  }

  // ---- The life of an attack ----

  function Pair(m: Match, t: Tick, rules: Rules): (Fighter, Fighter) {
    var dt := Clamp(t.dt, 0.0, 0.05);
    Engaged(UpdatedPlayer(m, dt, t.input), UpdatedOpponent(m, dt, rules.cpu), m.opponent.x - m.player.x, t.input, rules.cpu)
  }

  predicate Fights(m: Match, t: Tick) { !t.input.restart && !m.over }

  /** The attack under way is still under way after the step. */
  predicate GoesOn(m: Match, t: Tick, side: Side) {
    var f := Of(m, side);
    Fights(m, t) && f.attack != NoAttack && f.age + Clamp(t.dt, 0.0, 0.05) < f.duration
  }

  predicate Expires(m: Match, t: Tick, side: Side) {
    var f := Of(m, side);
    Fights(m, t) && f.attack != NoAttack && f.age + Clamp(t.dt, 0.0, 0.05) >= f.duration
  }

  /** The side's attack hits in this step. */
  predicate Lands(m: Match, t: Tick, rules: Rules, side: Side) {
    var pair := Pair(m, t, rules);
    Fights(m, t) && if side == Player then Hits(pair.0, pair.1) else Hits(Struck(pair.0, pair.1), Striking(pair.0, pair.1))
  }

  /** Moving, the other's choices and blows leave an attack under way as it is. */
  lemma {:induction false} EngagedKeepsAttack(p: Fighter, o: Fighter, distance: real, input: Input, cpu: bool)
    ensures var r := Engaged(p, o, distance, input, cpu);
            && (p.attack != NoAttack ==> r.0.attack == p.attack && r.0.age == p.age && r.0.duration == p.duration && r.0.connected == p.connected)
            && (o.attack != NoAttack ==> r.1.attack == o.attack && r.1.age == o.age && r.1.duration == o.duration && r.1.connected == o.connected)
  {}

  lemma {:induction false} ResolvedKeepsAttack(pair: (Fighter, Fighter))
    ensures var r := Resolved(pair);
            && r.0.attack == pair.0.attack && r.0.age == pair.0.age && r.0.duration == pair.0.duration
            && r.1.attack == pair.1.attack && r.1.age == pair.1.age && r.1.duration == pair.1.duration
            && r.0.connected == (pair.0.connected || Hits(pair.0, pair.1))
            && r.1.connected == (pair.1.connected || Hits(Struck(pair.0, pair.1), Striking(pair.0, pair.1)))
  {}

  lemma {:induction false} UpdatedAttack(f: Fighter, dt: real, axis: real, jump: bool)
    requires f.attack != NoAttack && f.age + dt < f.duration
    ensures var g := Updated(f, dt, axis, jump);
            g.attack == f.attack && g.age == f.age + dt && g.duration == f.duration && g.connected == f.connected
  {}

  lemma {:induction false} StepOfAttack(m: Match, t: Tick, rules: Rules, side: Side)
    requires GoesOn(m, t, side)
    ensures var f, g := Of(m, side), Of(Next(m, t.dt, t.input, rules), side);
            && g.attack == f.attack && g.age == f.age + Clamp(t.dt, 0.0, 0.05) && g.duration == f.duration
            && g.connected == (f.connected || Lands(m, t, rules, side)) && (Lands(m, t, rules, side) ==> !f.connected)
  {
    var dt := Clamp(t.dt, 0.0, 0.05);
    var distance := m.opponent.x - m.player.x;
    if side == Player {
      UpdatedAttack(m.player, dt, t.input.axis, t.input.jump && !m.previousJump);
    } else {
      UpdatedAttack(m.opponent, dt, CpuMove(distance, rules.cpu), false);
    }
    EngagedKeepsAttack(UpdatedPlayer(m, dt, t.input), UpdatedOpponent(m, dt, rules.cpu), distance, t.input, rules.cpu);
    ResolvedKeepsAttack(Pair(m, t, rules));
  }

  /** What a step takes from the other side: the damage of a landing attack, and nothing else. */
  lemma {:induction false} DamageByLanding(m: Match, t: Tick, rules: Rules)
    requires Sound(m) && Fights(m, t)
    ensures var n, pair := Next(m, t.dt, t.input, rules), Pair(m, t, rules);
            && n.opponent.health == (if Lands(m, t, rules, Player) then Max(0.0, m.opponent.health - (if pair.0.attack == Heavy then 15.0 else 8.0)) else m.opponent.health)
            && n.player.health == (if Lands(m, t, rules, Opponent) then Max(0.0, m.player.health - (if pair.1.attack == Heavy then 15.0 else 8.0)) else m.player.health)
  {
    PairPoised(m, Clamp(t.dt, 0.0, 0.05), t.input, rules.cpu);
    ResolvedHealth(Pair(m, t, rules));
  }

  lemma {:induction false} ResolvedHealth(pair: (Fighter, Fighter))
    ensures var r := Resolved(pair);
            && r.1.health == (if Hits(pair.0, pair.1) then Max(0.0, pair.1.health - (if pair.0.attack == Heavy then 15.0 else 8.0)) else pair.1.health)
            && r.0.health == (if Hits(Struck(pair.0, pair.1), Striking(pair.0, pair.1))
                              then Max(0.0, pair.0.health - (if pair.1.attack == Heavy then 15.0 else 8.0)) else pair.0.health)
  {}

  /** The same attack, at most a step older. */
  ghost predicate Older(f: Fighter, g: Fighter) {
    && g.attack == f.attack != NoAttack && g.duration == f.duration
    && f.age <= g.age <= f.age + 0.05 && (f.connected ==> g.connected)
  }

  ghost predicate Line(fs: seq<Fighter>) {
    fs != [] && forall k | 0 <= k < |fs| - 1 :: Older(fs[k], fs[k + 1])
  }

  /** One side of a run, from state i to state j. */
  function SideOf(ms: seq<Match>, side: Side, i: nat, j: nat): (fs: seq<Fighter>)
    requires i <= j < |ms|
    ensures |fs| == j - i + 1
  {
    seq(j - i + 1, k requires 0 <= k < j - i + 1 => Of(ms[i + k], side))
  }

  lemma {:induction false} OlderStep(m: Match, t: Tick, rules: Rules, side: Side)
    requires GoesOn(m, t, side)
    ensures Older(Of(m, side), Of(Next(m, t.dt, t.input, rules), side))
  {
    StepOfAttack(m, t, rules, side);
  }

  ghost predicate GoesOnFrom(ms: seq<Match>, ticks: seq<Tick>, side: Side, i: nat, j: nat)
    requires j <= |ticks| && |ms| == |ticks| + 1
  {
    forall k | i <= k < j :: GoesOn(ms[k], ticks[k], side)
  }

  lemma {:induction false} LineOf(ms: seq<Match>, ticks: seq<Tick>, step: (Match, Tick) -> Match, side: Side, i: nat, j: nat)
    requires Follows(ms, ticks, step) && i <= j <= |ticks| && GoesOnFrom(ms, ticks, side, i, j)
    requires forall m: Match, t: Tick :: GoesOn(m, t, side) ==> Older(Of(m, side), Of(step(m, t), side))
    ensures Line(SideOf(ms, side, i, j))
  {
    var fs := SideOf(ms, side, i, j);
    forall k | 0 <= k < |fs| - 1 ensures Older(fs[k], fs[k + 1]) {
      assert GoesOn(ms[i + k], ticks[i + k], side);
      assert ms[i + k + 1] == step(ms[i + k], ticks[i + k]);
    }
  }

  lemma {:induction false} LineOfRun(ms: seq<Match>, ticks: seq<Tick>, rules: Rules, side: Side, i: nat, j: nat)
    requires IsRun(ms, ticks, rules) && i <= j <= |ticks| && GoesOnFrom(ms, ticks, side, i, j)
    ensures Line(SideOf(ms, side, i, j))
  {
    forall m: Match, t: Tick | GoesOn(m, t, side) ensures Older(Of(m, side), Of(Stepping(rules)(m, t), side)) {
      OlderStep(m, t, rules, side);
    }
    LineOf(ms, ticks, Stepping(rules), side, i, j);
  }

  lemma {:induction false} LineStays(fs: seq<Fighter>, n: nat)
    requires Line(fs) && n < |fs| && fs[0].connected
    ensures fs[n].connected
    decreases n
  {
    if n > 0 {
      LineStays(fs, n - 1);
      assert Older(fs[n - 1], fs[n]);
    }
  }

  lemma {:induction false} LineReaches(fs: seq<Fighter>, n: nat)
    requires Line(fs) && n < |fs| && fs[0].attack != NoAttack && fs[0].age < WindowStart(fs[0].attack)
    ensures (exists k :: 0 < k <= n && InWindow(fs[k]))
         || (fs[n].attack == fs[0].attack && fs[n].duration == fs[0].duration && fs[n].age < WindowStart(fs[0].attack))
    decreases n
  {
    if n > 0 {
      LineReaches(fs, n - 1);
      assert Older(fs[n - 1], fs[n]);
    }
  }

  lemma {:induction false} LandingConnects(m: Match, t: Tick, rules: Rules, side: Side)
    requires Lands(m, t, rules, side)
    ensures var g := Of(Next(m, t.dt, t.input, rules), side); g.attack != NoAttack && g.connected
  {
    ResolvedKeepsAttack(Pair(m, t, rules));
  }

  lemma {:induction false} ConnectedMisses(m: Match, t: Tick, rules: Rules, side: Side)
    requires GoesOn(m, t, side) && Of(m, side).connected
    ensures !Lands(m, t, rules, side)
  {
    StepOfAttack(m, t, rules, side);
  }

  lemma {:induction false} StaysConnected(ms: seq<Match>, ticks: seq<Tick>, rules: Rules, side: Side, i: nat, j: nat)
    requires IsRun(ms, ticks, rules) && i <= j < |ms| && GoesOnFrom(ms, ticks, side, i, j) && Of(ms[i], side).connected
    ensures Of(ms[j], side).connected
  {
    LineOfRun(ms, ticks, rules, side, i, j);
    LineStays(SideOf(ms, side, i, j), j - i);
  }

  /** An attack damages at most once: while it goes on after landing, it does not land again. */
  lemma {:induction false} LandsOnce(ms: seq<Match>, ticks: seq<Tick>, rules: Rules, side: Side, i: nat, j: nat)
    requires IsRun(ms, ticks, rules) && i < j < |ticks| && Lands(ms[i], ticks[i], rules, side)
    requires GoesOnFrom(ms, ticks, side, i + 1, j) && GoesOn(ms[j], ticks[j], side)
    ensures !Lands(ms[j], ticks[j], rules, side)
  {
    LandingConnects(ms[i], ticks[i], rules, side);
    assert ms[i + 1] == Stepping(rules)(ms[i], ticks[i]);
    StaysConnected(ms, ticks, rules, side, i + 1, j);
    ConnectedMisses(ms[j], ticks[j], rules, side);
  }

  lemma {:induction false} LineExpires(fs: seq<Fighter>, dt: real)
    requires Line(fs) && SoundFighter(fs[0]) && fs[0].attack != NoAttack && fs[0].age == 0.0 && dt <= 0.05
    requires fs[|fs| - 1].age + dt >= fs[|fs| - 1].duration
    ensures exists k :: 0 < k < |fs| && InWindow(fs[k])
  {
    LineReaches(fs, |fs| - 1);
  }

  /** An attack that the update ended, or that was not there, can only be a new one afterwards. */
  lemma {:induction false} UpdatedIdle(f: Fighter, dt: real, axis: real, jump: bool)
    requires f.attack == NoAttack || f.age + dt >= f.duration
    ensures Updated(f, dt, axis, jump).attack == NoAttack
  {}

  lemma {:induction false} EngagedFromNothing(p: Fighter, o: Fighter, distance: real, input: Input, cpu: bool)
    ensures var r := Engaged(p, o, distance, input, cpu);
            && (p.attack == NoAttack && r.0.attack != NoAttack ==> r.0.age == 0.0)
            && (o.attack == NoAttack && r.1.attack != NoAttack ==> r.1.age == 0.0)
  {}

  lemma {:induction false} ExchangedFromNothing(m: Match, dt: real, input: Input, cpu: bool)
    ensures var r := Exchanged(m, dt, input, cpu);
            && (UpdatedPlayer(m, dt, input).attack == NoAttack && r.0.attack != NoAttack ==> r.0.age == 0.0)
            && (UpdatedOpponent(m, dt, cpu).attack == NoAttack && r.1.attack != NoAttack ==> r.1.age == 0.0)
  {
    var p, o, distance := UpdatedPlayer(m, dt, input), UpdatedOpponent(m, dt, cpu), m.opponent.x - m.player.x;
    EngagedFromNothing(p, o, distance, input, cpu);
    ResolvedKeepsAttack(Engaged(p, o, distance, input, cpu));
  }

  lemma {:induction false} NewAttacksAreYoung(m: Match, t: Tick, rules: Rules, side: Side)
    requires Fights(m, t) && !GoesOn(m, t, side)
    ensures var g := Of(Next(m, t.dt, t.input, rules), side); g.attack != NoAttack ==> g.age == 0.0
  {
    var dt := Clamp(t.dt, 0.0, 0.05);
    if side == Player {
      UpdatedIdle(m.player, dt, t.input.axis, t.input.jump && !m.previousJump);
    } else {
      UpdatedIdle(m.opponent, dt, CpuMove(m.opponent.x - m.player.x, rules.cpu), false);
    }
    ExchangedFromNothing(m, dt, t.input, rules.cpu);
  }

  /** In the middle of an attack, in a match that is not over. */
  predicate Underway(m: Match, side: Side) { !m.over && Of(m, side).attack != NoAttack && Of(m, side).age != 0.0 }

  /** The step before either carried the attack on or began it. */
  lemma {:induction false} FoughtBefore(m: Match, t: Tick, rules: Rules, side: Side)
    requires Underway(Next(m, t.dt, t.input, rules), side)
    ensures GoesOn(m, t, side)
  {
    if Fights(m, t) && !GoesOn(m, t, side) { NewAttacksAreYoung(m, t, rules, side); }
  }

  /** Where the attack under way in state n began. */
  lemma {:induction false} BegunAt(ms: seq<Match>, ticks: seq<Tick>, step: (Match, Tick) -> Match, side: Side, n: nat) returns (b: nat)
    requires Follows(ms, ticks, step) && !Underway(ms[0], side) && n < |ms|
    requires forall m: Match, t: Tick :: Underway(step(m, t), side) ==> GoesOn(m, t, side)
    requires !ms[n].over && Of(ms[n], side).attack != NoAttack
    ensures b <= n && Of(ms[b], side).attack != NoAttack && Of(ms[b], side).age == 0.0 && GoesOnFrom(ms, ticks, side, b, n)
    decreases n
  {
    if Of(ms[n], side).age == 0.0 {
      b := n;
    } else {
      assert ms[n] == step(ms[n - 1], ticks[n - 1]);
      b := BegunAt(ms, ticks, step, side, n - 1);
    }
  }

  lemma {:induction false} AttackBegan(ms: seq<Match>, ticks: seq<Tick>, rules: Rules, side: Side, n: nat) returns (b: nat)
    requires IsRun(ms, ticks, rules) && ms[0] == Reset(rules, 0) && n < |ms|
    requires !ms[n].over && Of(ms[n], side).attack != NoAttack
    ensures b <= n && Of(ms[b], side).attack != NoAttack && Of(ms[b], side).age == 0.0 && GoesOnFrom(ms, ticks, side, b, n)
  {
    forall m: Match, t: Tick | Underway(Stepping(rules)(m, t), side) ensures GoesOn(m, t, side) {
      FoughtBefore(m, t, rules, side);
    }
    b := BegunAt(ms, ticks, Stepping(rules), side, n);
  }

  /**
   * Every attack that expires in a run from a new match began at some state b, went on from there, and was resolved
   * inside its active window at least once, for a step is shorter than the window.
   */
  lemma {:induction false} TestedBeforeExpiry(ms: seq<Match>, ticks: seq<Tick>, rules: Rules, side: Side, n: nat) returns (b: nat, k: nat)
    requires IsRun(ms, ticks, rules) && ms[0] == Reset(rules, 0) && rules.health >= 0.0
    requires n < |ticks| && Expires(ms[n], ticks[n], side)
    ensures b < k <= n && Of(ms[b], side).age == 0.0 && GoesOnFrom(ms, ticks, side, b, n)
    ensures InWindow(Of(ms[k], side))
  {
    b := AttackBegan(ms, ticks, rules, side, n);
    RunSound(ms, ticks, rules, b);
    LineOfRun(ms, ticks, rules, side, b, n);
    WindowSeen(ms, ticks, side, b, n);
    k :| b < k <= n && InWindow(Of(ms[k], side));
  }

  lemma {:induction false} WindowSeen(ms: seq<Match>, ticks: seq<Tick>, side: Side, b: nat, n: nat)
    requires b <= n < |ticks| < |ms| && SoundFighter(Of(ms[b], side)) && Line(SideOf(ms, side, b, n))
    requires Of(ms[b], side).attack != NoAttack && Of(ms[b], side).age == 0.0 && Expires(ms[n], ticks[n], side)
    ensures exists k :: b < k <= n && InWindow(Of(ms[k], side))
  {
    var fs := SideOf(ms, side, b, n);
    LineExpires(fs, Clamp(ticks[n].dt, 0.0, 0.05));
    var k :| 0 < k < |fs| && InWindow(fs[k]);
    assert InWindow(Of(ms[b + k], side));
  }

  // ---- What starts an attack, and where the computer goes ----

  lemma {:induction false} ChosenAttacks(p: Fighter, o: Fighter, distance: real, input: Input, cpu: bool)
    ensures var r := Engaged(p, o, distance, input, cpu);
      && (p.attack == NoAttack ==> r.0.attack == (if input.heavy then Heavy else if input.light then Light else NoAttack))
      && (o.attack == NoAttack ==> r.1.attack == (if cpu && -1.55 < distance < 1.55 then Light else NoAttack))
  {}

  /**
   * A heavy press starts a heavy attack, else a light press a light one, and the computer starts a light one when the
   * fighters stood less than 1.55 apart; but an attack that goes on is not interrupted, and nothing else starts one.
   */
  lemma {:induction false} AttacksStarted(m: Match, t: Tick, rules: Rules)
    requires Fights(m, t)
    ensures var n, distance := Next(m, t.dt, t.input, rules), m.opponent.x - m.player.x;
      && n.player.attack == (if GoesOn(m, t, Player) then m.player.attack else if t.input.heavy then Heavy else if t.input.light then Light else NoAttack)
      && n.opponent.attack == (if GoesOn(m, t, Opponent) then m.opponent.attack else if rules.cpu && -1.55 < distance < 1.55 then Light else NoAttack)
  {
    AttackStarted(m, t, rules, Player);
    AttackStarted(m, t, rules, Opponent);
  }

  lemma {:induction false} AttackStarted(m: Match, t: Tick, rules: Rules, side: Side)
    requires Fights(m, t)
    ensures var n, distance := Next(m, t.dt, t.input, rules), m.opponent.x - m.player.x;
      Of(n, side).attack ==
        if GoesOn(m, t, side) then Of(m, side).attack
        else if side == Player then (if t.input.heavy then Heavy else if t.input.light then Light else NoAttack)
        else if rules.cpu && -1.55 < distance < 1.55 then Light else NoAttack
  {
    var dt, distance := Clamp(t.dt, 0.0, 0.05), m.opponent.x - m.player.x;
    if GoesOn(m, t, side) {
      StepOfAttack(m, t, rules, side);
    } else {
      if side == Player {
        UpdatedIdle(m.player, dt, t.input.axis, t.input.jump && !m.previousJump);
      } else {
        UpdatedIdle(m.opponent, dt, CpuMove(distance, rules.cpu), false);
      }
      ChosenAttacks(UpdatedPlayer(m, dt, t.input), UpdatedOpponent(m, dt, rules.cpu), distance, t.input, rules.cpu);
      ResolvedKeepsAttack(Pair(m, t, rules));
    }
  }

  /** More than 2.2 apart the computer walks towards the player, at 0.58 of full speed, less in an attack; nearer it stands. */
  lemma {:induction false} ComputerCloses(m: Match, dt: real, cpu: bool)
    requires -STAGE <= m.player.x <= STAGE && -STAGE <= m.opponent.x <= STAGE && 0.0 <= dt <= 0.05
    ensures var way, x := 0.58 * 4.6 * (if m.opponent.attack == NoAttack then 1.0 else 0.28) * dt, UpdatedOpponent(m, dt, cpu).x;
      x == if cpu && m.opponent.x > m.player.x + 2.2 then m.opponent.x - way
           else if cpu && m.opponent.x < m.player.x - 2.2 then m.opponent.x + way
           else m.opponent.x
  {
    var way := 0.58 * 4.6 * (if m.opponent.attack == NoAttack then 1.0 else 0.28) * dt;
    assert 0.0 <= way <= 2.2;
  }

  /** When an attack lands: inside its window, towards the other side, within reach, and not on a fighter in the air. */
  lemma {:induction false} HitMeans(a: Fighter, d: Fighter)
    ensures Hits(a, d) <==>
      && !a.connected && d.y < 1.3 && (d.x - a.x) * a.facing as real >= 0.0
      && ((a.attack == Light && 0.09 <= a.age <= 0.19 && -1.48 <= d.x - a.x <= 1.48)
          || (a.attack == Heavy && 0.18 <= a.age <= 0.31 && -1.78 <= d.x - a.x <= 1.78))
  {}

  // ---- The engine's objects ----

  class FighterState {
    var x: real
    var y: real
    var velocity: real
    var facing: int
    var health: real
    var hitFlash: real
    var attack: Attack
    var age: real
    var duration: real
    var connected: bool

    function Value(): Fighter
      reads this
    {
      Fighter(x, y, velocity, facing, health, hitFlash, attack, age, duration, connected)
    }

    constructor (f: Fighter)
      ensures Value() == f
    {
      x, y, velocity, facing, health := f.x, f.y, f.velocity, f.facing, f.health;
      hitFlash, attack, age, duration, connected := f.hitFlash, f.attack, f.age, f.duration, f.connected;
    }

    method Set(f: Fighter)
      modifies this
      ensures Value() == f
    {
      x, y, velocity, facing, health := f.x, f.y, f.velocity, f.facing, f.health;
      hitFlash, attack, age, duration, connected := f.hitFlash, f.attack, f.age, f.duration, f.connected;
    }

    method Move(dt: real, axis: real)
      modifies this
      ensures Value() == Moved(old(Value()), dt, axis)
    {
      var slowdown := if attack == NoAttack then 1.0 else 0.28;
      x := x + Clamp(axis, -1.0, 1.0) * 4.6 * slowdown * dt;
      x := Clamp(x, -STAGE, STAGE);
    }

    method Fall(dt: real, jump: bool)
      modifies this
      ensures Value() == Fallen(old(Value()), dt, jump)
    {
      if jump && y <= 0.001 {
        velocity := 7.2;
      }
      velocity := velocity - 19.0 * dt;
      assert velocity == (if jump && old(y) <= 0.001 then 7.2 else old(velocity)) - 19.0 * dt;
      y := y + velocity * dt;
      if y < 0.0 {
        y, velocity := 0.0, 0.0;
      }
    }

    method Age(dt: real)
      modifies this
      ensures Value() == Aged(old(Value()).(hitFlash := Max(0.0, old(hitFlash) - dt)), dt)
    {
      hitFlash := Max(0.0, hitFlash - dt);
      if attack != NoAttack {
        age := age + dt;
        if age >= duration {
          attack, age, duration, connected := NoAttack, 0.0, 0.0, false;
        }
      }
    }

    method Update(dt: real, axis: real, jump: bool)
      modifies this
      ensures Value() == Updated(old(Value()), dt, axis, jump)
    {
      Move(dt, axis);
      Fall(dt, jump);
      Age(dt);
    }
  }

  class NativeGame {
    const rules: Rules
    const player: FighterState
    const opponent: FighterState
    var round: nat
    var over: bool
    var endDelay: real
    var time: real
    var previousJump: bool

    ghost predicate Valid()
      reads this
    {
      player != opponent
    }

    function State(): Match
      reads this, player, opponent
    {
      Match(player.Value(), opponent.Value(), round, over, endDelay, time, previousJump)
    }

    constructor (rules: Rules)
      ensures Valid() && this.rules == rules && State() == Reset(rules, 0) && fresh(player) && fresh(opponent)
    {
      this.rules := rules;
      player := new FighterState(Fresh(-2.4, 1, rules.health));
      opponent := new FighterState(Fresh(2.4, -1, rules.health));
      round, over, endDelay, time, previousJump := 0, false, 0.0, rules.time, false;
    }

    method ResetRound()
      requires Valid()
      modifies this, player, opponent
      ensures Valid() && State() == Reset(rules, old(round))
    {
      player.Set(Fresh(-2.4, 1, rules.health));
      opponent.Set(Fresh(2.4, -1, rules.health));
      over, endDelay, time, previousJump := false, 0.0, rules.time, false;
    }

    method BeginAttack(fighter: FighterState, kind: Attack)
      requires Valid()
      modifies fighter
      ensures fighter.Value() == Begun(old(fighter.Value()), kind, over)
    {
      if fighter.attack != NoAttack || over {
        return;
      }
      fighter.attack, fighter.age, fighter.duration, fighter.connected := kind, 0.0, Duration(kind), false;
    }

    method ResolveAttack(attacker: FighterState, defender: FighterState)
      requires attacker != defender
      modifies attacker, defender
      ensures attacker.Value() == Striking(old(attacker.Value()), old(defender.Value()))
      ensures defender.Value() == Struck(old(attacker.Value()), old(defender.Value()))
    {
      if attacker.attack == NoAttack || attacker.connected {
        return;
      }
      var heavy := attacker.attack == Heavy;
      if attacker.age < WindowStart(attacker.attack) || attacker.age > WindowEnd(attacker.attack) {
        return;
      }
      var correctSide := (defender.x - attacker.x) * attacker.facing as real >= 0.0;
      if correctSide && Abs(defender.x - attacker.x) <= (if heavy then 1.78 else 1.48) && defender.y < 1.3 {
        defender.health := Max(0.0, defender.health - (if heavy then 15.0 else 8.0));
        defender.hitFlash := 0.14;
        defender.x := defender.x + attacker.facing as real * (if heavy then 0.48 else 0.24);
        attacker.connected := true;
      }
    }

    method KeepApart()
      requires Valid()
      modifies player, opponent
      ensures var apart := Apart(old(player.Value()), old(opponent.Value()));
              (player.Value(), opponent.Value()) == Faced(apart.0, apart.1)
    {
      if player.x > opponent.x - SEPARATION {
        var midpoint := (player.x + opponent.x) * 0.5;
        player.x := midpoint - SEPARATION * 0.5;
        opponent.x := midpoint + SEPARATION * 0.5;
      }
      player.facing := if player.x <= opponent.x then 1 else -1;
      opponent.facing := -player.facing;
    }

    method ChooseAttacks(distance: real, input: Input)
      requires Valid() && !over
      modifies player, opponent
      ensures player.Value() == Chosen(old(player.Value()), input)
      ensures opponent.Value() == CpuChosen(old(opponent.Value()), distance, rules.cpu)
    {
      if input.heavy {
        BeginAttack(player, Heavy);
      } else if input.light {
        BeginAttack(player, Light);
      }
      if rules.cpu && Abs(distance) < 1.55 && opponent.attack == NoAttack {
        BeginAttack(opponent, Light);
      }
    }

    method Resolve()
      requires Valid()
      modifies player, opponent
      ensures (player.Value(), opponent.Value()) == Resolved((old(player.Value()), old(opponent.Value())))
    {
      ResolveAttack(player, opponent);
      ResolveAttack(opponent, player);
    }

    method Engage(distance: real, input: Input)
      requires Valid() && !over
      modifies player, opponent
      ensures (player.Value(), opponent.Value()) == Engaged(old(player.Value()), old(opponent.Value()), distance, input, rules.cpu)
    {
      ChooseAttacks(distance, input);
      KeepApart();
    }

    method UpdateBoth(dt: real, input: Input) returns (distance: real)
      requires Valid()
      modifies this`previousJump, player, opponent
      ensures distance == old(opponent.x - player.x) && previousJump == input.jump
      ensures player.Value() == UpdatedPlayer(old(State()), dt, input)
      ensures opponent.Value() == UpdatedOpponent(old(State()), dt, rules.cpu)
    {
      distance := opponent.x - player.x;
      var jumpEdge := input.jump && !previousJump;
      previousJump := input.jump;
      player.Update(dt, input.axis, jumpEdge);
      opponent.Update(dt, CpuMove(distance, rules.cpu), false);
    }

    method Exchange(dt: real, input: Input)
      requires Valid() && !over
      modifies this`previousJump, player, opponent
      ensures previousJump == input.jump
      ensures (player.Value(), opponent.Value()) == Exchanged(old(State()), dt, input, rules.cpu)
    {
      var distance := UpdateBoth(dt, input);
      Engage(distance, input);
      Resolve();
    }

    method Fight(dt: real, input: Input)
      requires Valid() && !over
      modifies this`previousJump, this`time, this`over, player, opponent
      ensures Valid() && State() == Fought(old(State()), dt, input, rules.cpu)
    {
      Exchange(dt, input);
      time := Max(0.0, time - dt);
      over := time <= 0.0 || player.health <= 0.0 || opponent.health <= 0.0;
    }

    method Step(dt0: real, input: Input)
      requires Valid()
      modifies this, player, opponent
      ensures Valid() && State() == Next(old(State()), dt0, input, rules)
    {
      var dt := Clamp(dt0, 0.0, 0.05);
      if input.restart {
        ResetRound();
        return;
      }
      if over {
        endDelay := endDelay + dt;
        if endDelay >= 2.2 {
          round := round + 1;
          ResetRound();
        }
        return;
      }
      Fight(dt, input);
    }
  }
}
