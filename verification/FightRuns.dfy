/** Jumps, rounds and steps of the native fight simulation over whole runs (native/src/game.cpp). */
module FightRuns {
  import opened Fight

  // ---- Jumps ----

  /** Half the square of the speed plus nineteen times the height. */
  function Energy(y: real, velocity: real): real { velocity * velocity / 2.0 + 19.0 * y }

  /** The vertical speed a step starts with: a jump from the ground sets it. */
  function Speed(f: Fighter, jump: bool): real { if jump && f.y <= 0.001 then 7.2 else f.velocity }

  lemma {:induction false} EnergyLost(y: real, v: real, dt: real)
    ensures Energy(y + (v - 19.0 * dt) * dt, v - 19.0 * dt) == Energy(y, v) - 180.5 * dt * dt
  {
    var w := v - 19.0 * dt;
    assert w * w == v * v - 38.0 * (v * dt) + 361.0 * (dt * dt);
    assert w * dt == v * dt - 19.0 * (dt * dt);
  }

  /** In the air energy is lost by the square of the time step alone; below the ground a fighter stands. */
  lemma {:induction false} Flight(f: Fighter, dt: real, axis: real, jump: bool)
    ensures var g := Updated(f, dt, axis, jump);
      && (g.y > 0.0 ==> g.y == f.y + g.velocity * dt && Energy(g.y, g.velocity) == Energy(f.y, Speed(f, jump)) - 180.5 * dt * dt)
      && g.y >= 0.0 && (g.y == 0.0 ==> g.velocity == 0.0 || g.velocity == Speed(f, jump) - 19.0 * dt)
      && Energy(g.y, g.velocity) <= (if Energy(f.y, Speed(f, jump)) >= 0.0 then Energy(f.y, Speed(f, jump)) else 0.0)
  {
    EnergyLost(f.y, Speed(f, jump), dt);
    var w := Speed(f, jump) - 19.0 * dt;
    assert 180.5 * dt * dt >= 0.0;
  }

  /** A fighter above the ground has no more energy than a jump gives. */
  ghost predicate Aloft(f: Fighter) { f.y >= 0.0 && Energy(f.y, f.velocity) <= 25.939 }

  /** Where an energy bound puts the height. */
  lemma {:induction false} HeightBound(f: Fighter)
    requires Aloft(f)
    ensures f.y <= 1.3653
  {
    assert f.velocity * f.velocity >= 0.0;
  }

  lemma {:induction false} UpdatedAloft(f: Fighter, dt: real, axis: real, jump: bool)
    requires Aloft(f)
    ensures Aloft(Updated(f, dt, axis, jump))
  {
    Flight(f, dt, axis, jump);
    assert 7.2 * 7.2 / 2.0 == 25.92;
  }

  lemma {:induction false} Grounded(f: Fighter, dt: real, axis: real)
    requires f.y == 0.0 && f.velocity == 0.0 && dt >= 0.0
    ensures Updated(f, dt, axis, false).y == 0.0 && Updated(f, dt, axis, false).velocity == 0.0
  {
    var w := f.velocity - 19.0 * dt;
    assert w * dt == -19.0 * (dt * dt);
    if dt > 0.0 {
      assert dt * dt > 0.0;
      assert f.y + w * dt < 0.0;
    } else {
      assert w == 0.0 && w * dt == 0.0;
    }
  }

  /** Attacks and pushes leave height and vertical speed alone. */
  lemma {:induction false} ExchangedHeight(m: Match, dt: real, input: Input, cpu: bool)
    ensures var r, p, o := Exchanged(m, dt, input, cpu), UpdatedPlayer(m, dt, input), UpdatedOpponent(m, dt, cpu);
            r.0.y == p.y && r.0.velocity == p.velocity && r.1.y == o.y && r.1.velocity == o.velocity
  {}

  ghost predicate Level(m: Match) { Aloft(m.player) && m.opponent.y == 0.0 && m.opponent.velocity == 0.0 }

  lemma {:induction false} NextLevel(m: Match, dt: real, input: Input, rules: Rules)
    requires Level(m)
    ensures Level(Next(m, dt, input, rules))
  {
    var step := Clamp(dt, 0.0, 0.05);
    ExchangedHeight(m, step, input, rules.cpu);
    UpdatedAloft(m.player, step, input.axis, input.jump && !m.previousJump);
    Grounded(m.opponent, step, CpuMove(m.opponent.x - m.player.x, rules.cpu));
  }

  /** In every run nobody rises above the height a jump's energy allows, and the opponent never leaves the ground. */
  lemma {:induction false} RunLevel(ms: seq<Match>, ticks: seq<Tick>, rules: Rules, k: nat)
    requires IsRun(ms, ticks, rules) && ms[0] == Reset(rules, 0) && k < |ms|
    ensures Level(ms[k]) && ms[k].player.y <= 1.3653
    decreases k
  {
    if k > 0 {
      RunLevel(ms, ticks, rules, k - 1);
      NextLevel(ms[k - 1], ticks[k - 1].dt, ticks[k - 1].input, rules);
    }
    HeightBound(ms[k].player);
  }

  // ---- Rounds ----

  /** A round is over exactly when its time or somebody's health is used up, and its end lasts less than 2.2. */
  ghost predicate Judged(m: Match) {
    && m.time >= 0.0 && m.player.health >= 0.0 && m.opponent.health >= 0.0
    && (m.over <==> m.time == 0.0 || m.player.health == 0.0 || m.opponent.health == 0.0)
    && 0.0 <= m.endDelay < 2.2 && (!m.over ==> m.endDelay == 0.0)
  }

  lemma {:induction false} NextJudged(m: Match, dt: real, input: Input, rules: Rules)
    requires Sound(m) && Judged(m) && rules.health > 0.0 && rules.time > 0.0
    ensures Judged(Next(m, dt, input, rules))
  {
    if !input.restart && !m.over { FoughtSound(m, Clamp(dt, 0.0, 0.05), input, rules.cpu); }
  }

  lemma {:induction false} RunJudged(ms: seq<Match>, ticks: seq<Tick>, rules: Rules, k: nat)
    requires IsRun(ms, ticks, rules) && ms[0] == Reset(rules, 0) && rules.health > 0.0 && rules.time > 0.0 && k < |ms|
    ensures Judged(ms[k])
    decreases k
  {
    if k > 0 {
      RunJudged(ms, ticks, rules, k - 1);
      RunSound(ms, ticks, rules, k - 1);
      NextJudged(ms[k - 1], ticks[k - 1].dt, ticks[k - 1].input, rules);
    }
  }

  /** The fighters stand 4.8 apart with full health and time. */
  ghost predicate IsNew(n: Match, rules: Rules) {
    && n.player.x == -2.4 && n.opponent.x == 2.4 && n.player.health == n.opponent.health == rules.health
    && n.time == rules.time && !n.over && n.endDelay == 0.0 && n.player.attack == n.opponent.attack == NoAttack
  }

  /** A round starts anew at a restart, and as the next one when its end has lasted 2.2; there is no other way. */
  lemma {:induction false} NewRound(m: Match, t: Tick, rules: Rules)
    ensures var n, ended := Next(m, t.dt, t.input, rules), m.over && m.endDelay + Length(t) >= 2.2;
      && (t.input.restart || ended ==> IsNew(n, rules))
      && n.round == (if ended && !t.input.restart then m.round + 1 else m.round)
      && (m.over && !ended && !t.input.restart ==> n == m.(endDelay := m.endDelay + Length(t)))
  {}

  /** The time a step takes: not negative, and a twentieth at most. */
  function Length(t: Tick): (r: real)
    ensures 0.0 <= r <= 0.05
  {
    if t.dt <= 0.0 then 0.0 else if t.dt >= 0.05 then 0.05 else t.dt
  }

  function Elapsed(ticks: seq<Tick>, i: nat, j: nat): (r: real)
    requires i <= j <= |ticks|
    ensures r >= 0.0
    decreases j
  {
    if i == j then 0.0 else Elapsed(ticks, i, j - 1) + Length(ticks[j - 1])
  }

  /** The same round is fought all the way from state i to state j. */
  ghost predicate FightsOn(ms: seq<Match>, ticks: seq<Tick>, i: nat, j: nat)
    requires i <= j <= |ticks| && |ms| == |ticks| + 1
  {
    forall k | i <= k < j :: Fights(ms[k], ticks[k])
  }

  lemma {:induction false} TimeStep(m: Match, t: Tick, rules: Rules)
    requires Fights(m, t)
    ensures Passes(m, Next(m, t.dt, t.input, rules), Length(t))
  {}

  function Left(time: real, spent: real): real { if time > spent then time - spent else 0.0 }

  ghost predicate Passes(m: Match, n: Match, spent: real) { n.time == Left(m.time, spent) && n.round == m.round }

  lemma {:induction false} TimeUnder(ms: seq<Match>, ticks: seq<Tick>, step: (Match, Tick) -> Match, i: nat, j: nat)
    requires Follows(ms, ticks, step) && i <= j <= |ticks| && FightsOn(ms, ticks, i, j) && ms[i].time >= 0.0
    requires forall m: Match, t: Tick :: Fights(m, t) ==> Passes(m, step(m, t), Length(t))
    ensures Passes(ms[i], ms[j], Elapsed(ticks, i, j))
    decreases j
  {
    if i < j {
      TimeUnder(ms, ticks, step, i, j - 1);
      assert Fights(ms[j - 1], ticks[j - 1]) && ms[j - 1 + 1] == step(ms[j - 1], ticks[j - 1]);
    }
  }

  /** While a round is fought its time and the time elapsed add up, until nothing is left. */
  lemma {:induction false} TimeAddsUp(ms: seq<Match>, ticks: seq<Tick>, rules: Rules, i: nat, j: nat)
    requires IsRun(ms, ticks, rules) && i <= j <= |ticks| && FightsOn(ms, ticks, i, j) && ms[i].time >= 0.0
    ensures ms[j].time == (if ms[i].time > Elapsed(ticks, i, j) then ms[i].time - Elapsed(ticks, i, j) else 0.0)
    ensures ms[j].round == ms[i].round
  {
    forall m: Match, t: Tick | Fights(m, t) ensures Passes(m, Stepping(rules)(m, t), Length(t)) { TimeStep(m, t, rules); }
    TimeUnder(ms, ticks, Stepping(rules), i, j);
  }

  /** No round is fought longer than its time. */
  lemma {:induction false} RoundEnds(ms: seq<Match>, ticks: seq<Tick>, rules: Rules, i: nat, j: nat)
    requires IsRun(ms, ticks, rules) && ms[0] == Reset(rules, 0) && rules.health > 0.0 && rules.time > 0.0
    requires i <= j <= |ticks| && FightsOn(ms, ticks, i, j) && Elapsed(ticks, i, j) >= ms[i].time
    ensures ms[j].over
  {
    RunJudged(ms, ticks, rules, i);
    RunJudged(ms, ticks, rules, j);
    TimeAddsUp(ms, ticks, rules, i, j);
  }

  // ---- Steps ----

  /** The place a way leads to, within the stage of eleven to either side. */
  function Onstage(x: real): real { if x < -11.0 then -11.0 else if x > 11.0 then 11.0 else x }

  /** The way a full-speed walk covers in a step; an attack slows it down. */
  function Way(f: Fighter, t: Tick): real { 4.6 * (if f.attack == NoAttack then 1.0 else 0.28) * Length(t) }

  /** An axis between one to the left and one to the right. */
  function Lean(axis: real): real { if axis < -1.0 then -1.0 else if axis > 1.0 then 1.0 else axis }

  /** Keeping apart moves both alike about their midpoint, to exactly 0.72 if they were nearer. */
  lemma {:induction false} ApartMeans(p: Fighter, o: Fighter)
    ensures var r := Apart(p, o);
      && r.0.x + r.1.x == p.x + o.x && r.1.x - r.0.x == (if o.x - p.x < 0.72 then 0.72 else o.x - p.x)
      && r.0 == p.(x := r.0.x) && r.1 == o.(x := r.1.x)
  {}

  /** Without an opponent near or attacking, the player walks as far as the axis says, and no further than the stage. */
  lemma {:induction false} Walks(m: Match, t: Tick, rules: Rules)
    requires Fights(m, t) && m.opponent.attack == NoAttack && -11.0 <= m.player.x && m.player.x + 1.2 <= m.opponent.x <= 11.0
    ensures Next(m, t.dt, t.input, rules).player.x == Onstage(m.player.x + Lean(t.input.axis) * Way(m.player, t))
  {
    var distance := m.opponent.x - m.player.x;
    UpdatedPlace(m.player, t, t.input.axis, t.input.jump && !m.previousJump);
    UpdatedPlace(m.opponent, t, CpuMove(distance, rules.cpu), false);
    WalksIn(m, t, rules, Lean(t.input.axis) * Way(m.player, t), Lean(CpuMove(distance, rules.cpu)) * Way(m.opponent, t));
  }

  lemma {:induction false} WalksIn(m: Match, t: Tick, rules: Rules, a: real, b: real)
    requires Fights(m, t) && m.opponent.attack == NoAttack && -11.0 <= m.player.x && m.player.x + 1.2 <= m.opponent.x <= 11.0
    requires -0.23 <= a <= 0.23 && -0.23 <= b <= 0.23
    requires UpdatedPlayer(m, Clamp(t.dt, 0.0, 0.05), t.input).x == Onstage(m.player.x + a)
    requires UpdatedOpponent(m, Clamp(t.dt, 0.0, 0.05), rules.cpu).x == Onstage(m.opponent.x + b)
    ensures Next(m, t.dt, t.input, rules).player.x == Onstage(m.player.x + a)
  {
    var dt, distance := Clamp(t.dt, 0.0, 0.05), m.opponent.x - m.player.x;
    PlayerStep(m, t, rules);
    StaysIdle(m.opponent, dt, CpuMove(distance, rules.cpu));
    WalkApart(UpdatedPlayer(m, dt, t.input), UpdatedOpponent(m, dt, rules.cpu), m.player.x, m.opponent.x, a, b, t.input, rules.cpu);
  }

  lemma {:induction false} WalkApart(p: Fighter, o: Fighter, x: real, y: real, a: real, b: real, input: Input, cpu: bool)
    requires x + 1.2 <= y <= 11.0 && x >= -11.0 && -0.23 <= a <= 0.23 && -0.23 <= b <= 0.23
    requires p.x == Onstage(x + a) && o.x == Onstage(y + b) && o.attack == NoAttack
    ensures Resolved(Engaged(p, o, y - x, input, cpu)).0.x == Onstage(x + a)
  {
    StayApart(x, y, a, b);
    NotPushed(p, o, y - x, input, cpu);
  }

  lemma {:induction false} PlayerStep(m: Match, t: Tick, rules: Rules)
    requires Fights(m, t)
    ensures Next(m, t.dt, t.input, rules).player == Resolved(Pair(m, t, rules)).0
  {}

  lemma {:induction false} StaysIdle(f: Fighter, dt: real, axis: real)
    requires f.attack == NoAttack
    ensures Updated(f, dt, axis, false).attack == NoAttack
  {}

  lemma {:induction false} StayApart(x: real, y: real, a: real, b: real)
    requires x + 1.2 <= y <= 11.0 && x >= -11.0 && -0.23 <= a <= 0.23 && -0.23 <= b <= 0.23
    ensures Onstage(y + b) - Onstage(x + a) >= 0.72
  {}

  lemma {:induction false} UpdatedPlace(f: Fighter, t: Tick, axis: real, jump: bool)
    ensures Updated(f, Clamp(t.dt, 0.0, 0.05), axis, jump).x == Onstage(f.x + Lean(axis) * Way(f, t))
    ensures -0.23 <= Lean(axis) * Way(f, t) <= 0.23
  {
    Reassociated(Lean(axis), 4.6, if f.attack == NoAttack then 1.0 else 0.28, Length(t));
    Shortened(Lean(axis), Way(f, t));
  }

  lemma {:induction false} Reassociated(a: real, b: real, c: real, d: real)
    ensures a * b * c * d == a * (b * c * d)
  {}

  lemma {:induction false} Shortened(a: real, way: real)
    requires -1.0 <= a <= 1.0 && 0.0 <= way
    ensures -way <= a * way <= way
  {}

  /** An attack that has just begun does not land yet. */
  lemma {:induction false} NotPushed(p: Fighter, o: Fighter, distance: real, input: Input, cpu: bool)
    requires o.x - p.x >= 0.72 && o.attack == NoAttack
    ensures Resolved(Engaged(p, o, distance, input, cpu)).0.x == p.x
  {}

  // ---- Blows and attacks ----

  function Push(kind: Attack): real { if kind == Heavy then 0.48 else 0.24 }

  /** Only a landing attack pushes: away from the attacker, with a flash of 0.14 that then fades with time. */
  lemma {:induction false} Blows(m: Match, t: Tick, rules: Rules)
    requires Sound(m) && Fights(m, t)
    ensures var n, pair := Next(m, t.dt, t.input, rules), Pair(m, t, rules);
      && n.opponent.x == (if Lands(m, t, rules, Player) then pair.1.x + Push(pair.0.attack) else pair.1.x)
      && n.player.x == (if Lands(m, t, rules, Opponent) then pair.0.x - Push(pair.1.attack) else pair.0.x)
      && n.opponent.hitFlash == (if Lands(m, t, rules, Player) then 0.14 else Left(m.opponent.hitFlash, Length(t)))
      && n.player.hitFlash == (if Lands(m, t, rules, Opponent) then 0.14 else Left(m.player.hitFlash, Length(t)))
  {
    PairPoised(m, Clamp(t.dt, 0.0, 0.05), t.input, rules.cpu);
    PairFlashes(m, t, rules);
    ResolvedBlows(Pair(m, t, rules));
  }

  lemma {:induction false} PairFlashes(m: Match, t: Tick, rules: Rules)
    ensures Pair(m, t, rules).0.hitFlash == Left(m.player.hitFlash, Length(t))
    ensures Pair(m, t, rules).1.hitFlash == Left(m.opponent.hitFlash, Length(t))
  {}

  lemma {:induction false} ResolvedBlows(pair: (Fighter, Fighter))
    requires pair.0.facing == 1 && pair.1.facing == -1
    ensures var r, first, second := Resolved(pair), Hits(pair.0, pair.1), Hits(Struck(pair.0, pair.1), Striking(pair.0, pair.1));
      && r.1.x == (if first then pair.1.x + Push(pair.0.attack) else pair.1.x)
      && r.0.x == (if second then pair.0.x - Push(pair.1.attack) else pair.0.x)
      && r.1.hitFlash == (if first then 0.14 else pair.1.hitFlash) && r.0.hitFlash == (if second then 0.14 else pair.0.hitFlash)
  {}

  /** A heavy attack lasts 0.52 and a light one 0.34. */
  ghost predicate Timed(f: Fighter) {
    && (f.attack == Heavy ==> f.duration == 0.52 && 0.0 <= f.age < 0.52)
    && (f.attack == Light ==> f.duration == 0.34 && 0.0 <= f.age < 0.34)
  }

  /** In every state of every run from a new match the attacks under way are within their time. */
  lemma {:induction false} RunTimed(ms: seq<Match>, ticks: seq<Tick>, rules: Rules, k: nat)
    requires IsRun(ms, ticks, rules) && ms[0] == Reset(rules, 0) && rules.health >= 0.0 && k < |ms|
    ensures Timed(ms[k].player) && Timed(ms[k].opponent)
  {
    RunSound(ms, ticks, rules, k);
    assert SoundFighter(ms[k].player) && SoundFighter(ms[k].opponent);
  }
}
