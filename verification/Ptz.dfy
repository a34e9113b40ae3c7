/** Turning a pan/tilt motor to a position.  Positions are steps, commands degrees;
    the conversions cut off fractions, so a command may fall short but never goes
    too far. */
module Ptz {
  /** Division of a number that is not negative. */
  function Quotient(a: nat, b: int): (q: nat)
    requires b > 0
    ensures q * b <= a < q * b + b
  {
    assert a == (a / b) * b + a % b;
    a / b
  }

  /** C division: the quotient is cut towards zero. */
  function Div(a: int, b: int): int
    requires b > 0
  {
    if a >= 0 then Quotient(a, b) else 0 - Quotient(-a, b)
  }

  function Abs(x: int): nat {
    if x < 0 then -x else x
  }

  function Degree2Step(cycle: int, degree: int): int {
    Div(cycle * degree, 360)
  }

  function Step2Degree(cycle: int, steps: int): int
    requires cycle > 0
  {
    Div(steps * 360, cycle)
  }

  function Clamp(step: int, full: int): int {
    if step < 0 then 0 else if step < full then step else full - 1
  }

  /** Where the motor stands after a command to turn from `pos` towards `target`. */
  function Landing(cycle: int, pos: int, target: int): int
    requires cycle > 0
  {
    var dg := Step2Degree(cycle, target - pos);
    var steps := Degree2Step(cycle, Abs(dg));
    if dg > 0 then pos + steps else pos - steps
  }

  // ------------------------------------------------------------------------ laws

  lemma DivNegates(a: int, b: int)
    requires b > 0
    ensures Div(-a, b) == -Div(a, b)
  {
  }

  /** Steps to degrees and back again never gains, and loses less than one step more
      than a degree's worth. */
  lemma ThereAndBack(cycle: int, steps: nat)
    requires cycle > 0
    ensures var dg := Step2Degree(cycle, steps);
            && dg >= 0
            && 0 <= Degree2Step(cycle, dg) <= steps
            && (steps - Degree2Step(cycle, dg)) * 360 < cycle + 360
  {
  }

  /** What the two conversions are: a full turn is `cycle` steps and 360 degrees, and a
      part of a step or degree is cut off. */
  lemma ConversionsMean(cycle: int, n: nat)
    requires cycle > 0
    ensures var steps := Degree2Step(cycle, n);
            steps >= 0 && steps * 360 <= cycle * n < steps * 360 + 360
    ensures var degrees := Step2Degree(cycle, n);
            degrees >= 0 && degrees * cycle <= n * 360 < degrees * cycle + cycle
    ensures Degree2Step(cycle, 0 - n) == -Degree2Step(cycle, n) && Step2Degree(cycle, 0 - n) == -Step2Degree(cycle, n)
  {
    Nonnegative(cycle, n);
    assert cycle * (0 - n) == -(cycle * n) && (0 - n) * 360 == -(n * 360);
    DivNegates(cycle * n, 360);
    DivNegates(n * 360, cycle);
  }

  lemma Nonnegative(a: int, b: int)
    requires a >= 0 && b >= 0
    ensures a * b >= 0
  {
  }

  /** The motor stays between where it was and the target, so within its range, and
      stops less than `cycle / 360 + 1` steps short. */
  lemma NoOvershoot(cycle: int, pos: int, target: int)
    requires cycle > 0
    ensures var p := Landing(cycle, pos, target);
            && (pos <= target ==> pos <= p <= target)
            && (target <= pos ==> target <= p <= pos)
            && Abs(target - p) * 360 < cycle + 360
  {
  }

  /** Exactly when a command moves the motor: when the distance is a degree or more
      and its degrees are at least a step. */
  lemma MovesIf(cycle: int, pos: int, target: int)
    requires cycle > 0
    ensures Landing(cycle, pos, target) != pos
            <==> cycle * Abs(Step2Degree(cycle, target - pos)) >= 360
    ensures cycle >= 360 ==>
              (Landing(cycle, pos, target) != pos <==> Abs(target - pos) * 360 >= cycle)
  {
    ThereAndBack(cycle, Abs(target - pos));
    DivNegates((target - pos) * 360, cycle);
    assert -((target - pos) * 360) == (pos - target) * 360;
    var dg := Abs(Step2Degree(cycle, target - pos));
    var steps := Degree2Step(cycle, dg);
    assert dg == Step2Degree(cycle, Abs(target - pos));
    Nonnegative(cycle, dg);
    assert steps * 360 <= cycle * dg < steps * 360 + 360;
    assert dg * cycle <= Abs(target - pos) * 360 < dg * cycle + cycle;
    assert cycle * dg == dg * cycle;
    if dg > 0 {
      AtLeast(cycle, dg);
    }
  }

  lemma AtLeast(a: int, b: int)
    requires a >= 0 && b >= 1
    ensures a * b >= a
  {
  }

  /** Where the motor stands after the command was given `n` times. */
  function Repeated(cycle: int, pos: int, target: int, n: nat): int
    requires cycle > 0
  {
    if n == 0 then pos else Landing(cycle, Repeated(cycle, pos, target, n - 1), target)
  }

  /** Repeating the command comes closer every time, until less than a degree is
      left; then it stays. */
  lemma {:induction false} RepeatingArrives(cycle: int, pos: int, target: int, n: nat)
    requires cycle >= 360
    ensures var p := Repeated(cycle, pos, target, n);
            Abs(target - p) * 360 < cycle || Abs(target - p) + n <= Abs(target - pos)
  {
    if n > 0 {
      RepeatingArrives(cycle, pos, target, n - 1);
      var p := Repeated(cycle, pos, target, n - 1);
      NoOvershoot(cycle, p, target);
      MovesIf(cycle, p, target);
    }
  }

  /** So after as many commands as there were steps, it is within a degree. */
  lemma {:induction false} RepeatedEnough(cycle: int, pos: int, target: int)
    requires cycle >= 360
    ensures Abs(target - Repeated(cycle, pos, target, Abs(target - pos))) * 360 < cycle
  {
    RepeatingArrives(cycle, pos, target, Abs(target - pos));
  }

  // ------------------------------------------------------------------- the motor

  class Motor {
    const cycleStep: int
    const fullStep: int
    var degree: nat
    var clockwise: bool
    /** The controller's own idea of its angle. */
    var dgCur: int
    /** The device. */
    var pos: int

    ghost predicate Valid()
      reads this
    {
      cycleStep > 0 && fullStep > 0 && 0 <= pos < fullStep
    }

    constructor (cycleStep: int, fullStep: int, pos: int)
      requires cycleStep > 0 && fullStep > 0 && 0 <= pos < fullStep
      ensures Valid() && this.cycleStep == cycleStep && this.fullStep == fullStep && this.pos == pos
    {
      this.cycleStep, this.fullStep, this.pos := cycleStep, fullStep, pos;
      degree, clockwise, dgCur := 0, false, 0;
    }

    /** `check_dg`: turns a target angle into a relative command, unless the motor is
        there already. */
    method CheckDg(target: int) returns (ok: bool)
      requires Valid()
      modifies `degree, `clockwise
      ensures Valid()
      ensures var t := Clamp(Degree2Step(cycleStep, target), fullStep);
              && (ok <==> t != pos)
              && (ok ==>
                    && degree == Abs(Step2Degree(cycleStep, t - pos))
                    && (clockwise <==> Step2Degree(cycleStep, t - pos) > 0))
              && (!ok ==> degree == old(degree) && clockwise == old(clockwise))
    {
      var setStep := Degree2Step(cycleStep, target);
      var curStep := pos;
      setStep := if setStep >= 0 then setStep else 0;
      setStep := if setStep < fullStep then setStep else fullStep - 1;
      var step := setStep - curStep;
      if step == 0 {
        return false;
      }
      var dg := Step2Degree(cycleStep, step);
      clockwise := dg > 0;
      if dg < 0 {
        dg := -dg;
      }
      degree := dg;
      ok := true;
    }

    /** `motor_turn_dg` on a device that does as told. */
    method MotorTurnDg(dg: nat, isCw: bool)
      requires cycleStep > 0
      modifies `pos, `dgCur
      ensures pos == old(pos) + (if isCw then Degree2Step(cycleStep, dg) else -Degree2Step(cycleStep, dg))
      ensures dgCur == old(dgCur) + if isCw then dg as int else 0 - dg
    {
      var steps := Degree2Step(cycleStep, dg);
      pos := if isCw then pos + steps else pos - steps;
      SetTurnPositionInfo(isCw, dg);
    }

    /** `set_turn_position_info` */
    method SetTurnPositionInfo(isCw: bool, dg: int)
      modifies `dgCur
      ensures dgCur == old(dgCur) + if isCw then dg else -dg
    {
      if isCw {
        dgCur := dgCur + dg;
      } else {
        dgCur := dgCur - dg;
      }
    }

    /** One command to a position, from the request to the turned motor: it never
        leaves its range and never passes the target. */
    method TurnToPos(target: int) returns (ok: bool)
      requires Valid()
      modifies this
      ensures Valid()
      ensures var s := Degree2Step(cycleStep, target);
              var t := if s < 0 then 0 else if s >= fullStep then fullStep - 1 else s;
              && (ok <==> t != old(pos))
              && pos == Landing(cycleStep, old(pos), t)
              && (old(pos) <= t ==> old(pos) <= pos <= t) && (t <= old(pos) ==> t <= pos <= old(pos))
              && Abs(t - pos) * 360 < cycleStep + 360
              && (cycleStep >= 360 && Abs(t - old(pos)) * 360 >= cycleStep ==> Abs(t - pos) < Abs(t - old(pos)))
    {
      ghost var t := Clamp(Degree2Step(cycleStep, target), fullStep);
      NoOvershoot(cycleStep, pos, t);
      MovesIf(cycleStep, pos, t);
      ok := CheckDg(target);
      if ok {
        MotorTurnDg(degree, clockwise);
      }
    }
  }
}
