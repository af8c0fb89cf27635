/** The flag halyard servo: src/control_core/flag_changer_subroutine.py. */
module Halyard {
  import opened Common

  datatype FlagState = Ensign | Combat | Restricted

  datatype Inputs = Inputs(
    azimuthRate: real, busSync: bool, engagement: bool,
    distanceToBank: real, shallowSlowdown: bool)

  datatype Command = Command(flag: FlagState, motorRelay: bool, lockPin: bool)

  /** Weapons outrank restricted manoeuvring, which outranks cruising. */
  function TargetState(i: Inputs): FlagState
  {
    if Abs(i.azimuthRate) > 0.02 || i.busSync || i.engagement then Combat
    else if i.distanceToBank < 20.0 || i.shallowSlowdown then Restricted
    else Ensign
  }

  /** Weapons moving faster than 0.02 rad/s either way, synchronised or engaged fly the battle
      ensign whatever else holds; without them a bank nearer than 20 m or the slowdown flies
      the restricted signal; the three stand at the top, half way and at the foot. */
  lemma FlagPriority(i: Inputs)
    ensures var armed := i.azimuthRate > 0.02 || i.azimuthRate < -0.02 || i.busSync || i.engagement;
            var confined := i.distanceToBank < 20.0 || i.shallowSlowdown;
      && (armed ==> TargetState(i) == Combat)
      && (!armed && confined ==> TargetState(i) == Restricted)
      && (!armed && !confined ==> TargetState(i) == Ensign)
    ensures TargetPercent(Combat) == 100.0 && TargetPercent(Restricted) == 50.0 && TargetPercent(Ensign) == 0.0
  {
  }

  function TargetPercent(f: FlagState): (p: real)
    ensures 0.0 <= p <= 100.0
  {
    match f case Combat => 100.0 case Restricted => 50.0 case Ensign => 0.0
  }

  predicate Moves(position: real, target: real)
  {
    Abs(target - position) > 0.1
  }

  function Move(position: real, target: real): real
  {
    if Moves(position, target) then position + (target - position) * 0.1 else target
  }

  /** The position after the given sequence of targets. */
  function Track(position: real, targets: seq<FlagState>): real
    decreases |targets|
  {
    if targets == [] then position
    else
      var n := |targets| - 1;
      Move(Track(position, targets[..n]), TargetPercent(targets[n]))
  }

  /** Whatever the targets do, the position stays on the mast. */
  lemma {:induction false} StaysOnMast(position: real, targets: seq<FlagState>)
    requires 0.0 <= position <= 100.0
    ensures 0.0 <= Track(position, targets) <= 100.0
  {
    if targets != [] {
      StaysOnMast(position, targets[..|targets| - 1]);
    }
  }

  // ---------- Convergence under a constant target ----------

  /** The quantity e after k reductions by one tenth. */
  function Shrunk(e: real, k: nat): real
  {
    if k == 0 then e else 0.9 * Shrunk(e, k - 1)
  }

  /** The position after k calls with one target. */
  function Hold(position: real, target: real, k: nat): real
  {
    if k == 0 then position else Move(Hold(position, target, k - 1), target)
  }

  lemma {:induction false} ShrunkFalls(e: real, j: nat, k: nat)
    requires e >= 0.0 && j <= k
    ensures 0.0 <= Shrunk(e, k) <= Shrunk(e, j)
    decreases k
  {
    if k > 0 {
      ShrunkFalls(e, if j < k then j else k - 1, k - 1);
    }
  }

  lemma {:induction false} ShrunkMonotone(d: real, e: real, k: nat)
    requires d <= e
    ensures Shrunk(d, k) <= Shrunk(e, k)
  {
    if k > 0 {
      ShrunkMonotone(d, e, k - 1);
    }
  }

  lemma {:induction false} ShrunkAbs(e: real, k: nat)
    ensures Abs(Shrunk(e, k)) == Shrunk(Abs(e), k)
  {
    if k > 0 {
      ShrunkAbs(e, k - 1);
    }
  }

  lemma {:induction false} ShrunkTwice(e: real, j: nat, k: nat)
    ensures Shrunk(e, j + k) == Shrunk(Shrunk(e, j), k)
  {
    if k > 0 {
      ShrunkTwice(e, j, k - 1);
    }
  }

  /** While every earlier call has moved the motor, the error shrinks geometrically. */
  lemma {:induction false} ErrorAfter(position: real, target: real, k: nat)
    requires k > 0 ==> Shrunk(Abs(target - position), k - 1) > 0.1
    ensures target - Hold(position, target, k) == Shrunk(target - position, k)
  {
    if k > 0 {
      if k > 1 {
        ShrunkFalls(Abs(target - position), k - 2, k - 1);
      }
      ErrorAfter(position, target, k - 1);
      ShrunkAbs(target - position, k - 1);
    }
  }

  lemma {:induction false} Arrived(position: real, target: real, j: nat, k: nat)
    requires j <= k && Hold(position, target, j) == target
    ensures Hold(position, target, k) == target
    ensures !Moves(Hold(position, target, k), target)
    decreases k
  {
    if j < k {
      Arrived(position, target, j, k - 1);
    }
  }

  /** The call after j reductions finds the motor at rest exactly when the error has been
      brought within the 0.1 dead band. */
  lemma {:induction false} QuietIff(position: real, target: real, j: nat)
    ensures !Moves(Hold(position, target, j), target) <==> Shrunk(Abs(target - position), j) <= 0.1
  {
    var e := target - position;
    ShrunkAbs(e, j);
    if j > 0 && Shrunk(Abs(e), j - 1) <= 0.1 {
      QuietIff(position, target, j - 1);
      Arrived(position, target, j, j);
      ShrunkFalls(Abs(e), j - 1, j);
    } else {
      ErrorAfter(position, target, j);
    }
  }

  /** Exact settling time: after k >= 1 calls the halyard is at its target exactly when the
      starting error times 0.9^(k-1) is within the dead band. */
  lemma SettledIff(position: real, target: real, k: nat)
    requires k >= 1
    ensures Hold(position, target, k) == target <==> Shrunk(Abs(target - position), k - 1) <= 0.1
  {
    QuietIff(position, target, k - 1);
  }

  lemma ShrunkEight(e: real)
    ensures Shrunk(e, 8) == 0.43046721 * e
  {
    assert Shrunk(e, 1) == 0.9 * e;
    assert Shrunk(e, 2) == 0.81 * e;
    assert Shrunk(e, 3) == 0.729 * e;
    assert Shrunk(e, 4) == 0.6561 * e;
    assert Shrunk(e, 6) == 0.531441 * e;
  }

  /** Eight reductions carry an interval to an interval. */
  lemma EightFrom(k: nat, lo: real, hi: real)
    requires lo <= Shrunk(100.0, k) <= hi
    ensures 0.43046721 * lo <= Shrunk(100.0, k + 8) <= 0.43046721 * hi
  {
    ShrunkTwice(100.0, k, 8);
    ShrunkEight(Shrunk(100.0, k));
  }

  /** The whole mast against the dead band: within it after 66 reductions, not after 65. */
  lemma WholeMast()
    ensures Shrunk(100.0, 66) <= 0.1 < Shrunk(100.0, 65)
  {
    hide Shrunk;
    assert Shrunk(100.0, 0) == 100.0 by { ShrunkNone(100.0); }
    EightFrom(0, 100.0, 100.0);
    EightFrom(8, 43.04, 43.05);
    EightFrom(16, 18.52, 18.54);
    EightFrom(24, 7.972, 7.981);
    EightFrom(32, 3.431, 3.436);
    EightFrom(40, 1.476, 1.480);
    EightFrom(48, 0.6353, 0.6371);
    EightFrom(56, 0.2734, 0.2743);
    ShrunkOnce(100.0, 64);
    ShrunkOnce(100.0, 65);
  }

  lemma ShrunkNone(e: real)
    ensures Shrunk(e, 0) == e
  {
  }

  lemma ShrunkOnce(e: real, k: nat)
    ensures Shrunk(e, k + 1) == 0.9 * Shrunk(e, k)
  {
  }

  /** From anywhere on the mast to any target: the 67th consecutive call, and every later one,
      finds the motor at rest and leaves the halyard at its target. */
  lemma SettlesIn67(position: real, f: FlagState, k: nat)
    requires 0.0 <= position <= 100.0 && k >= 67
    ensures Hold(position, TargetPercent(f), k) == TargetPercent(f)
    ensures !Moves(Hold(position, TargetPercent(f), k - 1), TargetPercent(f))
  {
    hide Shrunk, Hold;
    var target := TargetPercent(f);
    WholeMast();
    ShrunkMonotone(Abs(target - position), 100.0, 66);
    ShrunkFalls(Abs(target - position), 66, k - 1);
    QuietIff(position, target, k - 1);
    SettledIff(position, target, k);
  }

  /** The bound is tight: hoisting the battle ensign from the foot is still moving at call 66. */
  lemma NotIn66()
    ensures Hold(0.0, TargetPercent(Combat), 66) != TargetPercent(Combat)
    ensures Moves(Hold(0.0, TargetPercent(Combat), 65), TargetPercent(Combat))
  {
    hide Shrunk, Hold;
    WholeMast();
    QuietIff(0.0, 100.0, 65);
    SettledIff(0.0, 100.0, 66);
  }

  class AutomaticFlagChangerSubroutine {
    var currentFlagState: FlagState
    var lastTransitionTime: real
    var halyardMotorPositionPct: real

    constructor (now: real)
      ensures currentFlagState == Ensign && lastTransitionTime == now && halyardMotorPositionPct == 0.0
    {
      currentFlagState, lastTransitionTime, halyardMotorPositionPct := Ensign, now, 0.0;
    }

    method EvaluateFlagLogicMatrix(i: Inputs, now: real) returns (c: Command)
      modifies this
      ensures currentFlagState == TargetState(i) == c.flag
      ensures c.flag == Combat <==> i.azimuthRate > 0.02 || i.azimuthRate < -0.02 || i.busSync || i.engagement
      ensures c.flag == Restricted <==> c.flag != Combat && (i.distanceToBank < 20.0 || i.shallowSlowdown)
      ensures lastTransitionTime == if old(currentFlagState) == TargetState(i) then old(lastTransitionTime) else now
      ensures var target := TargetPercent(TargetState(i));
        && halyardMotorPositionPct == Move(old(halyardMotorPositionPct), target)
        && (c.motorRelay <==> Moves(old(halyardMotorPositionPct), target))
        && (c.lockPin ==> halyardMotorPositionPct == target)
      ensures c.lockPin <==> !c.motorRelay
      ensures 0.0 <= old(halyardMotorPositionPct) <= 100.0 ==> 0.0 <= halyardMotorPositionPct <= 100.0
    {
      var weaponsActive := Abs(i.azimuthRate) > 0.02 || i.busSync || i.engagement;
      var restricted := i.distanceToBank < 20.0 || i.shallowSlowdown;
      var target, percent := Ensign, 0.0;
      if weaponsActive {
        target, percent := Combat, 100.0;
      } else if restricted {
        target, percent := Restricted, 50.0;
      }
      if currentFlagState != target {
        currentFlagState := target;
        lastTransitionTime := now;
      }
      var error := percent - halyardMotorPositionPct;
      var moving;
      if Abs(error) > 0.1 {
        halyardMotorPositionPct := halyardMotorPositionPct + error * 0.1;
        moving := true;
      } else {
        halyardMotorPositionPct := percent;
        moving := false;
      }
      c := Command(currentFlagState, moving, !moving);
    }
  }
}
