/** The blended half-turn of source animations (tekken3_jun_source_rotation in src/tekken3_jun_combat.c). */
module SourceRotation {
  import opened Bytes

  // ---- C arithmetic ----

  /** The remainder and quotient of C, which truncate towards zero. */
  function CRem(a: int, b: int): int requires b > 0 { if a >= 0 then a % b else -(-a % b) }

  function CDiv(a: int, b: int): int requires b > 0 { if a >= 0 then a / b else -(-a / b) }

  function Abs(x: int): nat { if x < 0 then -x else x }

  const LARGEST := 0x71c

  // ---- One call ----

  function Axis(yaw: int, mirrored: bool, quarter: bool): int {
    var axis := CRem(0x4000 - CRem(yaw, 65536), 65535) + (if mirrored then 0x8000 else 0);
    if quarter then Int16(axis) - 0x4000 else axis
  }

  function Distance(axis: int, facing: half): half {
    var delta := Int16(facing - axis);
    (if delta < 0 then 65535 - delta else delta) % 0x10000
  }

  /** The chosen end of the axis. */
  function Goal(axis: int, facing: half): int {
    if Distance(axis, facing) >= 0x4000 then axis + 0x8000 else axis
  }

  /** The signed angle from the facing to the chosen end. */
  function Remaining(axis: int, facing: half): int { Int16(Goal(axis, facing) - facing) }

  function Blend(frame: half): int { if Int16(frame) > 8 then 8 else Int16(frame) }

  function StepOf(remaining: int, frame: half): int {
    var step := Int16(CDiv(remaining * Blend(frame), 8));
    if step > LARGEST then LARGEST else if step < -LARGEST then -LARGEST else step
  }

  function Turned(axis: int, facing: half, frame: half): half {
    (facing + StepOf(Remaining(axis, facing), frame)) % 0x10000
  }

  class Actor {
    var mode: byte
    var mirrored: half
    var frame: half
    var facing: half
    var shown: half

    method ChooseEnd(yaw: int) returns (axis: int)
      ensures axis == Goal(Axis(yaw, mirrored != 0, mode == 13), facing)
    {
      axis := CRem(0x4000 - CRem(yaw, 65536), 65535);
      if mirrored != 0 { axis := axis + 0x8000; }
      if mode == 13 { axis := Int16(axis) - 0x4000; }
      var delta := Int16(facing - axis);
      var distance := (if delta < 0 then 65535 - delta else delta) % 0x10000;
      if distance >= 0x4000 { axis := axis + 0x8000; }
    }

    method Rotate(yaw: int, sourceRecord: bool) returns (handled: bool)
      modifies this`facing, this`shown
      ensures handled <==> (mode == 12 || mode == 13) && sourceRecord
      ensures handled ==> facing == shown == Turned(Axis(yaw, mirrored != 0, mode == 13), old(facing), frame)
      ensures !handled ==> facing == old(facing) && shown == old(shown)
    {
      if (mode != 12 && mode != 13) || !sourceRecord {
        return false;
      }
      var axis := ChooseEnd(yaw);
      var blend := Int16(frame);
      if blend > 8 { blend := 8; }
      var step := Int16(CDiv(Int16(axis - facing) * blend, 8));
      if step > LARGEST { step := LARGEST; }
      if step < -LARGEST { step := -LARGEST; }
      facing := (facing + step) % 0x10000;
      shown := facing;
      return true;
    }
  }

  // ---- The nearer end of the axis ----

  lemma {:induction false} Int16Is(x: int, r: int, turns: int)
    requires x == r + turns * 0x10000 && -0x8000 <= r < 0x8000
    ensures Int16(x) == r
  {}

  /** The deviation from the axis, and what is left to the chosen end. */
  lemma {:induction false} RemainingIs(axis: int, facing: half, d: int, turns: int)
    requires facing - axis == d + turns * 0x10000 && -0x8000 <= d < 0x8000
    ensures Int16(facing - axis) == d
    ensures Remaining(axis, facing) == if -0x4000 <= d < 0x4000 then -d else if d > 0 then 0x8000 - d else -0x8000 - d
  {
    Int16Is(facing - axis, d, turns);
    if -0x4000 <= d < 0x4000 {
      Int16Is(axis - facing, -d, -turns);
    } else if d > 0 {
      Int16Is(axis + 0x8000 - facing, 0x8000 - d, -turns);
    } else {
      Int16Is(axis + 0x8000 - facing, -0x8000 - d, 1 - turns);
    }
  }

  function Turns(x: int): (t: int)
    ensures -0x8000 <= x - t * 0x10000 < 0x8000
  {
    (x + 0x8000) / 0x10000
  }

  /** The angles to the two ends. */
  lemma {:induction false} EndsAre(axis: int, facing: half, d: int, turns: int)
    requires facing - axis == d + turns * 0x10000 && -0x8000 <= d < 0x8000
    ensures Abs(Int16(axis - facing)) == Abs(d) && Abs(Int16(axis + 0x8000 - facing)) == 0x8000 - Abs(d)
  {
    if d == -0x8000 { Int16Is(axis - facing, d, -turns - d / 0x8000); } else { Int16Is(axis - facing, -d, -turns); }
    if d > 0 {
      Int16Is(axis + 0x8000 - facing, 0x8000 - d, -turns);
    } else {
      Int16Is(axis + 0x8000 - facing, -0x8000 - d, 1 - turns);
    }
  }

  lemma {:induction false} HalfTurns(r: int, d: int, q: int)
    requires r + d == q * 0x8000
    ensures (r + d) % 0x8000 == 0
  {}

  /** The chosen end is an end of the axis, never more than a quarter turn away, and the other end is no nearer. */
  lemma {:induction false} NearerEnd(axis: int, facing: half)
    ensures -0x4000 < Remaining(axis, facing) <= 0x4000
    ensures (Remaining(axis, facing) - (axis - facing)) % 0x8000 == 0
    ensures Abs(Remaining(axis, facing)) <= Abs(Int16(axis - facing))
    ensures Abs(Remaining(axis, facing)) <= Abs(Int16(axis + 0x8000 - facing))
  {
    var turns := Turns(facing - axis);
    var d := facing - axis - turns * 0x10000;
    RemainingIs(axis, facing, d, turns);
    EndsAre(axis, facing, d, turns);
    var r := Remaining(axis, facing);
    HalfTurns(r, facing - axis, 2 * turns + if r == -d then 0 else if d > 0 then 1 else -1);
  }

  /** The remaining angle is determined by its range and its residue. */
  lemma {:induction false} RemainingUnique(axis: int, facing: half, r: int)
    requires -0x4000 < r <= 0x4000 && (r - (axis - facing)) % 0x8000 == 0
    ensures Remaining(axis, facing) == r
  {
    NearerEnd(axis, facing);
    SameInRange(r, Remaining(axis, facing), axis - facing);
  }

  lemma {:induction false} SameInRange(r: int, r': int, x: int)
    requires -0x4000 < r <= 0x4000 && -0x4000 < r' <= 0x4000 && (r - x) % 0x8000 == 0 && (r' - x) % 0x8000 == 0
    ensures r == r'
  {
    assert r - r' == 0x8000 * ((r - x) / 0x8000 - (r' - x) / 0x8000);
  }

  // ---- One step ----

  lemma {:induction false} ScaledDown(r: int, f: int)
    requires 0 <= f <= 8
    ensures r >= 0 ==> 0 <= CDiv(r * f, 8) <= r
    ensures r <= 0 ==> r <= CDiv(r * f, 8) <= 0
  {
    if r >= 0 { assert 0 <= r * f <= r * 8; } else { assert 0 <= -r * f <= -r * 8; }
  }

  /** With no negative frame a step goes towards the goal, not beyond it, and by at most 0x71c. */
  lemma {:induction false} NoOvershoot(r: int, frame: half)
    requires -0x4000 < r <= 0x4000 && Int16(frame) >= 0
    ensures r >= 0 ==> 0 <= StepOf(r, frame) <= r
    ensures r <= 0 ==> r <= StepOf(r, frame) <= 0
    ensures Abs(StepOf(r, frame)) <= LARGEST
  {
    ScaledDown(r, Blend(frame));
    var scaled := CDiv(r * Blend(frame), 8);
    Int16Is(scaled, scaled, 0);
  }

  /** A negative frame turns some facing away: exactly the frames that are not negative never do. */
  lemma {:induction false} NeverFurtherIff(frame: half)
    ensures (forall r | -0x4000 < r <= 0x4000 :: Abs(r - StepOf(r, frame)) <= Abs(r)) <==> Int16(frame) >= 0
  {
    if Int16(frame) >= 0 {
      forall r | -0x4000 < r <= 0x4000 ensures Abs(r - StepOf(r, frame)) <= Abs(r) { NoOvershoot(r, frame); }
    } else {
      assert CDiv(8 * Blend(frame), 8) == Int16(frame);
      assert Abs(8 - StepOf(8, frame)) > Abs(8);
    }
  }

  /** The next call sees exactly what this one left: the goal does not change sides. */
  lemma {:induction false} RemainingAfter(axis: int, facing: half, frame: half)
    requires Int16(frame) >= 0
    ensures Remaining(axis, Turned(axis, facing, frame)) == Remaining(axis, facing) - StepOf(Remaining(axis, facing), frame)
    ensures Abs(Remaining(axis, Turned(axis, facing, frame))) <= Abs(Remaining(axis, facing))
  {
    var r := Remaining(axis, facing);
    NearerEnd(axis, facing);
    NoOvershoot(r, frame);
    var step := StepOf(r, frame);
    Residues(facing, step, axis, r);
    RemainingUnique(axis, Turned(axis, facing, frame), r - step);
  }

  lemma {:induction false} Residues(facing: half, step: int, axis: int, r: int)
    requires (r - (axis - facing)) % 0x8000 == 0
    ensures (r - step - (axis - (facing + step) % 0x10000)) % 0x8000 == 0
  {
    var q := (facing + step) / 0x10000;
    assert (facing + step) % 0x10000 == facing + step - 2 * q * 0x8000;
    assert r - step - (axis - (facing + step) % 0x10000) == r - (axis - facing) - 2 * q * 0x8000;
    Shifted(r - (axis - facing), 2 * q);
  }

  lemma {:induction false} Shifted(x: int, q: int)
    requires x % 0x8000 == 0
    ensures (x - q * 0x8000) % 0x8000 == 0
  {}

  // ---- Runs with a fixed camera ----

  /** The facing after one call per frame number. */
  function Run(axis: int, facing: half, frames: seq<half>): half
    decreases |frames|
  {
    if frames == [] then facing else Run(axis, Turned(axis, facing, frames[0]), frames[1..])
  }

  /** How much of an angle is left after n full steps. */
  function Left(r: int, n: nat): int {
    if Abs(r) <= n * LARGEST then 0 else if r > 0 then r - n * LARGEST else r + n * LARGEST
  }

  lemma {:induction false} FullStep(r: int, frame: half)
    requires -0x4000 < r <= 0x4000 && Int16(frame) >= 8
    ensures r - StepOf(r, frame) == Left(r, 1)
  {
    assert Blend(frame) == 8;
    assert CDiv(r * 8, 8) == r;
  }

  /** From the eighth frame on every call takes a full step. */
  lemma {:induction false} RunLeaves(axis: int, facing: half, frames: seq<half>)
    requires forall k | 0 <= k < |frames| :: Int16(frames[k]) >= 8
    ensures Remaining(axis, Run(axis, facing, frames)) == Left(Remaining(axis, facing), |frames|)
    decreases |frames|
  {
    NearerEnd(axis, facing);
    if frames != [] {
      RemainingAfter(axis, facing, frames[0]);
      FullStep(Remaining(axis, facing), frames[0]);
      RunLeaves(axis, Turned(axis, facing, frames[0]), frames[1..]);
    }
  }

  /** Ten such calls always reach the axis. */
  lemma {:induction false} ReachedInTen(axis: int, facing: half, frames: seq<half>)
    requires |frames| >= 10 && forall k | 0 <= k < |frames| :: Int16(frames[k]) >= 8
    ensures Remaining(axis, Run(axis, facing, frames)) == 0
  {
    NearerEnd(axis, facing);
    RunLeaves(axis, facing, frames);
  }

  /** Nine do not: from a quarter turn away there is a little left. */
  lemma {:induction false} NineFallShort(axis: int, facing: half, frames: seq<half>)
    requires |frames| == 9 && forall k | 0 <= k < |frames| :: Int16(frames[k]) >= 8
    requires Remaining(axis, facing) == 0x4000
    ensures Remaining(axis, Run(axis, facing, frames)) == 4
  {
    RunLeaves(axis, facing, frames);
  }

  /** Once on the axis, no call with any frame moves the facing again. */
  lemma {:induction false} StaysOnAxis(axis: int, facing: half, frames: seq<half>)
    requires Remaining(axis, facing) == 0
    ensures Run(axis, facing, frames) == facing
    decreases |frames|
  {
    if frames != [] {
      assert Turned(axis, facing, frames[0]) == facing;
      StaysOnAxis(axis, facing, frames[1..]);
    }
  }

  /** Whatever the frames, as long as none is negative the remaining angle never grows. */
  lemma {:induction false} RunNeverFurther(axis: int, facing: half, frames: seq<half>)
    requires forall k | 0 <= k < |frames| :: Int16(frames[k]) >= 0
    ensures Abs(Remaining(axis, Run(axis, facing, frames))) <= Abs(Remaining(axis, facing))
    decreases |frames|
  {
    if frames != [] {
      RemainingAfter(axis, facing, frames[0]);
      RunNeverFurther(axis, Turned(axis, facing, frames[0]), frames[1..]);
    }
  }

  /** The axis a yaw calls for: a quarter turn less the yaw, mirrored by half a turn, and a quarter turn back in mode 13. */
  function ExactAxis(yaw: int, mirrored: bool, quarter: bool): int {
    0x4000 - yaw + (if mirrored then 0x8000 else 0) - if quarter then 0x4000 else 0
  }

  /** Mirroring and the quarter turn are exact modulo a full turn. */
  lemma {:induction false} AxisOffset(yaw: int, mirrored: bool, quarter: bool) returns (turns: int)
    ensures Axis(yaw, mirrored, quarter) - ExactAxis(yaw, mirrored, quarter)
         == Axis(yaw, false, false) - ExactAxis(yaw, false, false) + turns * 0x10000
  {
    turns := if quarter then -Turns(Axis(yaw, mirrored, false)) else 0;
    var axis := Axis(yaw, mirrored, false);
    Int16Is(axis, axis - Turns(axis) * 0x10000, Turns(axis));
  }

  /**
   * The axis is reduced by 65535 although a turn has 65536 units: in either mode, mirrored or not, it is exact unless the
   * yaw is far negative, and then one unit ahead.
   */
  lemma {:induction false} AxisExactIff(yaw: int, mirrored: bool, quarter: bool)
    ensures (Axis(yaw, mirrored, quarter) - ExactAxis(yaw, mirrored, quarter)) % 0x10000 == if CRem(yaw, 65536) > -49151 then 0 else 1
  {
    var y := CRem(yaw, 65536);
    var m := RemainderTurns(yaw);
    var off := Axis(yaw, false, false) - (0x4000 - y);
    assert off == if y > -49151 then 0 else -65535;
    var turns := AxisOffset(yaw, mirrored, quarter);
    assert Axis(yaw, mirrored, quarter) - ExactAxis(yaw, mirrored, quarter) == off + (m + turns) * 0x10000;
    OneAhead(off, m + turns);
  }

  lemma {:induction false} RemainderTurns(a: int) returns (q: int)
    ensures a - CRem(a, 65536) == q * 0x10000
  {
    q := if a >= 0 then a / 65536 else -(-a / 65536);
  }

  lemma {:induction false} OneAhead(x: int, turns: int)
    requires x == 0 || x == -65535
    ensures (x + turns * 0x10000) % 0x10000 == if x == 0 then 0 else 1
  {}

  // ---- Redirecting an address pair ----

  function UpperHalf(target: word): half { (target + 0x8000) % 0x1_0000_0000 / 0x10000 }

  function UpperCode(reg: nat, target: word): word requires reg < 32 { 0x3c000000 + reg * 0x10000 + UpperHalf(target) }

  function LowerCode(reg: nat, target: word): word requires reg < 32 { 0x24000000 + reg * 0x200000 + reg * 0x10000 + target % 0x10000 }

  /** What the two instructions leave in the register: the upper immediate shifted, plus the sign-extended lower one. */
  function Loaded(upper: word, lower: word): word {
    (upper % 0x10000 * 0x10000 + Int16(lower % 0x10000)) % 0x1_0000_0000
  }

  /** The rewritten pair loads exactly the target, carry and wrap included, through the given register. */
  lemma {:induction false} PairLoadsTarget(reg: nat, target: word)
    requires reg < 32
    ensures Loaded(UpperCode(reg, target), LowerCode(reg, target)) == target
    ensures UpperCode(reg, target) / 0x10000 == 0x3c00 + reg && LowerCode(reg, target) / 0x10000 == 0x2400 + 33 * reg
  {
    assert UpperCode(reg, target) % 0x10000 == UpperHalf(target);
    assert LowerCode(reg, target) % 0x10000 == target % 0x10000;
  }
}
