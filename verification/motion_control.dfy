/** Admission of trajectories and motion modes (src/MotionControl.c): the
    checks `Ros_MotionControl_Init` applies to a goal before any motion, the
    per-axis time checks, the start-position and start-velocity checks, the
    pulse clamp of the incremental-move task, and the motion-mode state
    machine. Controller API calls are parameters. */
module MotionControl {
  import opened Wrappers
  import opened ErrorHandling
  import TimeConversion
  import ControllerStatus
  import CtrlGroup

  /** `Init_Trajectory_Status` (values come from an interface package that is
      not part of this model). */
  datatype InitStatus =
    | InitOk
    | InitUnspecified
    | InitTooSmall
    | InitTooBig
    | InitAlreadyInMotion
    | InitInvalidStartingPos
    | InitInvalidVelocity
    | InitInvalidJointName
    | InitIncompleteJointList
    | InitInvalidTime
    | InitWrongMode
    | InitBackwardTime
    | InitWrongNumberOfPositions
    | InitWrongNumberOfVelocities
    | InitInvalidEndingVelocity
    | InitInvalidEndingAcceleration
    | InitDuplicateJointName

  /** `MIN_NUMBER_OF_POINTS_PER_TRAJECTORY` */
  const MinPointsPerTrajectory: nat := 2
  /** `MAX_NUMBER_OF_POINTS_PER_TRAJECTORY` */
  const MaxPointsPerTrajectory: nat := 200
  /** `START_MAX_PULSE_DEVIATION` */
  const StartMaxPulseDeviation: nat := 30
  /** `EPSILON_TOLERANCE_DOUBLE` */
  const EpsilonTolerance: real := 0.001

  /** One `JointTrajectoryPoint`; accelerations and efforts are never read. */
  datatype TrajPoint = TrajPoint(positions: seq<real>, velocities: seq<real>, timeFromStart: TimeConversion.Duration)

  /** Where a trajectory joint lives: control group index and slot in motoman order. */
  datatype JointSlot = JointSlot(group: nat, axis: nat)

  /** What the conversion stores for one axis and one point. */
  datatype AxisSample = AxisSample(timeMs: int, pos: real, vel: real)

  function Abs(x: real): real { if x < 0.0 then -x else x }

  function Millis(p: TrajPoint): int
  {
    TimeConversion.DurationToMillis(p.timeFromStart)
  }

  // ---------------------------------------------------------------------
  // Per-axis conversion (src/MotionControl.c:292-355)

  /** The checks on point `i` of the loop, for trajectory axis `axis`. */
  function PointStatus(points: seq<TrajPoint>, i: nat, axis: nat, trajectoryMode: bool): InitStatus
    requires i < |points| && axis < |points[i].velocities|
  {
    var ms := Millis(points[i]);
    if ms < 0 then InitInvalidTime
    else if ms == 0 && i != 0 then InitInvalidTime
    else if i != 0 && ms < Millis(points[i - 1]) then InitBackwardTime
    else if trajectoryMode && i == |points| - 1 && Abs(points[i].velocities[axis]) > EpsilonTolerance then InitInvalidEndingVelocity
    else InitOk
  }

  /** Every point carries positions and velocities for `total` axes. */
  predicate Sized(points: seq<TrajPoint>, total: nat)
  {
    forall i :: 0 <= i < |points| ==> |points[i].positions| == total && |points[i].velocities| == total
  }

  /** The timing a trajectory must have, stated over the whole trajectory:
      times are never negative, only the first may be zero, they never
      decrease, and in trajectory mode the last point comes to a stop. */
  predicate WellTimed(points: seq<TrajPoint>, axis: nat, trajectoryMode: bool)
    requires forall i :: 0 <= i < |points| ==> axis < |points[i].velocities|
  {
    && (forall i :: 0 <= i < |points| ==> Millis(points[i]) >= 0)
    && (forall i :: 0 < i < |points| ==> Millis(points[i]) != 0)
    && (forall i, j :: 0 <= i <= j < |points| ==> Millis(points[i]) <= Millis(points[j]))
    && (trajectoryMode && |points| > 0 ==> Abs(points[|points| - 1].velocities[axis]) <= EpsilonTolerance)
  }

  /** `Ros_MotionControl_ConvertTrajectoryToJointMotionData` for one axis: the
      first failing point's status, or the axis samples. */
  method ConvertAxis(points: seq<TrajPoint>, axis: nat, trajectoryMode: bool) returns (r: Result<seq<AxisSample>, InitStatus>)
    requires forall i :: 0 <= i < |points| ==> axis < |points[i].positions| && axis < |points[i].velocities|
    ensures r.Success? <==> forall i :: 0 <= i < |points| ==> PointStatus(points, i, axis, trajectoryMode) == InitOk
    ensures r.Failure? ==> r.error == AxisStatus(points, axis, trajectoryMode, 0) && r.error != InitOk
    ensures r.Success? ==> |r.value| == |points|
    ensures r.Success? ==> forall i :: 0 <= i < |points| ==>
      r.value[i] == AxisSample(Millis(points[i]), points[i].positions[axis], points[i].velocities[axis])
  {
    var out: seq<AxisSample> := [];
    var i := 0;
    while i < |points|
      invariant 0 <= i <= |points| && |out| == i
      invariant forall j :: 0 <= j < i ==> PointStatus(points, j, axis, trajectoryMode) == InitOk
      invariant AxisStatus(points, axis, trajectoryMode, 0) == AxisStatus(points, axis, trajectoryMode, i)
      invariant forall j :: 0 <= j < i ==>
        out[j] == AxisSample(Millis(points[j]), points[j].positions[axis], points[j].velocities[axis])
    {
      var millis := TimeConversion.DurationToMillis(points[i].timeFromStart);
      assert i != 0 ==> out[i - 1].timeMs == Millis(points[i - 1]);
      ghost var st := PointStatus(points, i, axis, trajectoryMode);
      AxisStatusStep(points, axis, trajectoryMode, i);
      if millis < 0 || (millis == 0 && i != 0) {
        assert st == InitInvalidTime;
        return Failure(InitInvalidTime);
      }
      if i != 0 && millis < out[i - 1].timeMs {
        assert st == InitBackwardTime;
        return Failure(InitBackwardTime);
      }
      if trajectoryMode && i == |points| - 1 && Abs(points[i].velocities[axis]) > EpsilonTolerance {
        assert st == InitInvalidEndingVelocity;
        return Failure(InitInvalidEndingVelocity);
      }
      assert st == InitOk;
      out := out + [AxisSample(millis, points[i].positions[axis], points[i].velocities[axis])];
      i := i + 1;
    }
    return Success(out);
  }

  /** The status of the first failing point of one axis from point `i` on. */
  function AxisStatus(points: seq<TrajPoint>, axis: nat, trajectoryMode: bool, i: nat): (s: InitStatus)
    requires i <= |points| && forall k :: 0 <= k < |points| ==> axis < |points[k].velocities|
    ensures s == InitOk <==> forall k :: i <= k < |points| ==> PointStatus(points, k, axis, trajectoryMode) == InitOk
    ensures s != InitOk ==> exists k :: i <= k < |points| && s == PointStatus(points, k, axis, trajectoryMode)
    decreases |points| - i
  {
    if i == |points| then InitOk
    else if PointStatus(points, i, axis, trajectoryMode) != InitOk then PointStatus(points, i, axis, trajectoryMode)
    else AxisStatus(points, axis, trajectoryMode, i + 1)
  }

  /** One step of the point loop: a passing point defers to the rest, a
      failing one decides. */
  lemma AxisStatusStep(points: seq<TrajPoint>, axis: nat, trajectoryMode: bool, i: nat)
    requires i < |points| && forall k :: 0 <= k < |points| ==> axis < |points[k].velocities|
    ensures PointStatus(points, i, axis, trajectoryMode) == InitOk ==>
      AxisStatus(points, axis, trajectoryMode, i) == AxisStatus(points, axis, trajectoryMode, i + 1)
    ensures PointStatus(points, i, axis, trajectoryMode) != InitOk ==>
      AxisStatus(points, axis, trajectoryMode, i) == PointStatus(points, i, axis, trajectoryMode)
  {
  }

  /** The point-by-point checks accept exactly the well-timed trajectories. */
  lemma PointChecksMeanWellTimed(points: seq<TrajPoint>, axis: nat, trajectoryMode: bool)
    requires forall i :: 0 <= i < |points| ==> axis < |points[i].velocities|
    ensures (forall i :: 0 <= i < |points| ==> PointStatus(points, i, axis, trajectoryMode) == InitOk)
      <==> WellTimed(points, axis, trajectoryMode)
  {
    if forall i :: 0 <= i < |points| ==> PointStatus(points, i, axis, trajectoryMode) == InitOk {
      forall i | 0 <= i < |points|
        ensures Millis(points[i]) >= 0 && (i > 0 ==> Millis(points[i]) != 0)
      {
        assert PointStatus(points, i, axis, trajectoryMode) == InitOk;
      }
      if trajectoryMode && |points| > 0 {
        assert PointStatus(points, |points| - 1, axis, trajectoryMode) == InitOk;
      }
      forall i, j | 0 <= i <= j < |points|
        ensures Millis(points[i]) <= Millis(points[j])
      {
        NonDecreasing(points, axis, trajectoryMode, i, j);
      }
    }
    if WellTimed(points, axis, trajectoryMode) {
      forall i | 0 <= i < |points|
        ensures PointStatus(points, i, axis, trajectoryMode) == InitOk
      {
        if i != 0 {
          assert Millis(points[i - 1]) <= Millis(points[i]);
        }
      }
    }
  }

  lemma {:induction false} NonDecreasing(points: seq<TrajPoint>, axis: nat, trajectoryMode: bool, i: nat, j: nat)
    requires forall k :: 0 <= k < |points| ==> axis < |points[k].velocities|
    requires forall k :: 0 <= k < |points| ==> PointStatus(points, k, axis, trajectoryMode) == InitOk
    requires i <= j < |points|
    ensures Millis(points[i]) <= Millis(points[j])
    decreases j - i
  {
    if i < j {
      NonDecreasing(points, axis, trajectoryMode, i, j - 1);
      assert PointStatus(points, j, axis, trajectoryMode) == InitOk;
    }
  }

  /** Points at the same nonzero time pass: the check is "not earlier", not
      "later than" as the message the firmware prints says. */
  lemma EqualTimesAccepted(d: TimeConversion.Duration, pos: real)
    requires Millis(TrajPoint([pos], [0.0], d)) > 0
    ensures var p := TrajPoint([pos], [0.0], d);
      forall i :: 0 <= i < 2 ==> PointStatus([p, p], i, 0, true) == InitOk
  {
  }

  // ---------------------------------------------------------------------
  // Joint lookup (src/MotionControl.c:92-154)

  /** `strncmp(a, b, MAX_JOINT_NAME_LENGTH) == 0` on strings without NULs. */
  predicate SameUpTo32(a: string, b: string)
  {
    a[..CtrlGroup.Min(|a|, CtrlGroup.MaxJointNameLength)] == b[..CtrlGroup.Min(|b|, CtrlGroup.MaxJointNameLength)]
  }

  /** Names that agree in their first 32 characters count as duplicates. */
  lemma LongNamesCollide()
    ensures var a := seq(32, _ => 'j');
      SameUpTo32(a + "_1", a + "_2") && a + "_1" != a + "_2"
  {
    var a := seq(32, _ => 'j');
    assert (a + "_1")[..32] == a && (a + "_2")[..32] == a;
    assert (a + "_1")[33] != (a + "_2")[33];
  }

  /** A later joint of the goal repeats joint `j`. */
  predicate HasLaterDuplicate(names: seq<string>, j: nat)
  {
    exists k :: j < k < |names| && SameUpTo32(names[j], names[k])
  }

  /** The user-defined joint names of each control group, in motoman order;
      `None` for a group the controller does not have. */
  type JointTable = t: seq<Option<seq<string>>> | |t| == CtrlGroup.MaxGroups witness seq(8, _ => None)

  predicate WellFormedTable(table: JointTable)
  {
    forall g :: 0 <= g < |table| && table[g].Some? ==> |table[g].value| == CtrlGroup.AxesNum
  }

  /** Slot `(g, k)` holds `name` (empty entries never match). */
  predicate Holds(table: JointTable, g: nat, k: nat, name: string)
    requires WellFormedTable(table)
  {
    g < |table| && table[g].Some? && k < CtrlGroup.AxesNum && table[g].value[k] != "" && table[g].value[k] == name
  }

  /** The search over groups `0 .. 7` and slots `0 .. 7`, first match wins. */
  function FindJoint(table: JointTable, name: string, g: nat): (r: Option<JointSlot>)
    requires WellFormedTable(table) && g <= |table|
    ensures r.Some? ==> g <= r.value.group && Holds(table, r.value.group, r.value.axis, name)
    ensures r.Some? ==> forall h: nat, k: nat :: (g <= h < |table| && k < CtrlGroup.AxesNum
      && (h < r.value.group || (h == r.value.group && k < r.value.axis))) ==> !Holds(table, h, k, name)
    ensures r.None? <==> forall h: nat, k: nat :: g <= h < |table| && k < CtrlGroup.AxesNum ==> !Holds(table, h, k, name)
    decreases |table| - g
  {
    if g == |table| then None
    else if table[g].None? then FindJoint(table, name, g + 1)
    else match FindSlot(table, g, name, 0)
      case Some(k) => Some(JointSlot(g, k))
      case None => FindJoint(table, name, g + 1)
  }

  function FindSlot(table: JointTable, g: nat, name: string, k: nat): (r: Option<nat>)
    requires WellFormedTable(table) && g < |table| && table[g].Some? && k <= CtrlGroup.AxesNum
    ensures r.Some? ==> k <= r.value
    ensures r.Some? ==> Holds(table, g, r.value, name)
    ensures r.Some? ==> forall j: nat :: k <= j < r.value ==> !Holds(table, g, j, name)
    ensures r.None? <==> forall j: nat :: k <= j < CtrlGroup.AxesNum ==> !Holds(table, g, j, name)
    decreases CtrlGroup.AxesNum - k
  {
    if k == CtrlGroup.AxesNum then None
    else if table[g].value[k] != "" && table[g].value[k] == name then
      assert Holds(table, g, k, name);
      Some(k)
    else FindSlot(table, g, name, k + 1)
  }

  // ---------------------------------------------------------------------
  // Ros_MotionControl_Init: the per-joint loop (src/MotionControl.c:92-156)

  /** Joint `k` of the goal passes: no later duplicate, a configured slot holds
      its name, and its axis is well timed. */
  predicate JointAdmissible(names: seq<string>, points: seq<TrajPoint>, table: JointTable, trajectoryMode: bool, k: nat)
    requires WellFormedTable(table) && Sized(points, |names|) && k < |names|
  {
    && !HasLaterDuplicate(names, k)
    && FindJoint(table, names[k], 0).Some?
    && WellTimed(points, k, trajectoryMode)
  }

  /** What the loop reports for joint `k`: a later duplicate first, then an
      unknown name, then the first failing point of its axis. */
  function JointStatus(names: seq<string>, points: seq<TrajPoint>, table: JointTable, trajectoryMode: bool, k: nat): (s: InitStatus)
    requires WellFormedTable(table) && Sized(points, |names|) && k < |names|
    ensures s == InitOk <==> JointAdmissible(names, points, table, trajectoryMode, k)
    ensures HasLaterDuplicate(names, k) ==> s == InitDuplicateJointName
  {
    PointChecksMeanWellTimed(points, k, trajectoryMode);
    if HasLaterDuplicate(names, k) then InitDuplicateJointName
    else if FindJoint(table, names[k], 0).None? then InitInvalidJointName
    else AxisStatus(points, k, trajectoryMode, 0)
  }

  /** What the loop reports from joint `j` on: the status of the first joint
      that fails. */
  function FirstJointStatus(names: seq<string>, points: seq<TrajPoint>, table: JointTable, trajectoryMode: bool, j: nat): (s: InitStatus)
    requires WellFormedTable(table) && Sized(points, |names|) && j <= |names|
    ensures s == InitOk <==> forall k :: j <= k < |names| ==> JointAdmissible(names, points, table, trajectoryMode, k)
    decreases |names| - j
  {
    if j == |names| then InitOk
    else if JointStatus(names, points, table, trajectoryMode, j) != InitOk then JointStatus(names, points, table, trajectoryMode, j)
    else FirstJointStatus(names, points, table, trajectoryMode, j + 1)
  }

  /** The per-joint loop from joint `j` on: duplicate check, lookup, then the
      axis conversion; the first failure ends the loop. */
  method CheckJoints(names: seq<string>, points: seq<TrajPoint>, table: JointTable, trajectoryMode: bool, j: nat)
    returns (r: Result<seq<JointSlot>, InitStatus>)
    requires WellFormedTable(table) && Sized(points, |names|) && j <= |names|
    ensures r.Success? <==> forall k :: j <= k < |names| ==> JointAdmissible(names, points, table, trajectoryMode, k)
    ensures r.Failure? ==> r.error == FirstJointStatus(names, points, table, trajectoryMode, j) && r.error != InitOk
    ensures r.Success? ==> |r.value| == |names| - j
    ensures r.Success? ==> forall k :: j <= k < |names| ==> FindJoint(table, names[k], 0) == Some(r.value[k - j])
    decreases |names| - j
  {
    if j == |names| {
      return Success([]);
    }
    var k := j + 1;
    while k < |names|
      invariant j + 1 <= k <= |names|
      invariant forall m :: j < m < k ==> !SameUpTo32(names[j], names[m])
    {
      if names[j][..CtrlGroup.Min(|names[j]|, CtrlGroup.MaxJointNameLength)] == names[k][..CtrlGroup.Min(|names[k]|, CtrlGroup.MaxJointNameLength)] {
        assert SameUpTo32(names[j], names[k]) && HasLaterDuplicate(names, j);
        assert JointStatus(names, points, table, trajectoryMode, j) == InitDuplicateJointName;
        return Failure(InitDuplicateJointName);
      }
      k := k + 1;
    }
    assert !HasLaterDuplicate(names, j);
    var slot := FindJoint(table, names[j], 0);
    if slot.None? {
      assert JointStatus(names, points, table, trajectoryMode, j) == InitInvalidJointName;
      return Failure(InitInvalidJointName);
    }
    var conv := ConvertAxis(points, j, trajectoryMode);
    assert JointStatus(names, points, table, trajectoryMode, j) == AxisStatus(points, j, trajectoryMode, 0);
    if conv.Failure? {
      return Failure(conv.error);
    }
    assert JointStatus(names, points, table, trajectoryMode, j) == InitOk;
    var rest := CheckJoints(names, points, table, trajectoryMode, j + 1);
    if rest.Failure? {
      return rest;
    }
    return Success([slot.value] + rest.value);
  }

  /** The first point with the wrong number of positions or velocities. */
  function SizeStatus(points: seq<TrajPoint>, total: nat, i: nat): (s: InitStatus)
    requires i <= |points|
    ensures s == InitOk <==> forall k :: i <= k < |points| ==> |points[k].positions| == total && |points[k].velocities| == total
    ensures s in {InitOk, InitWrongNumberOfPositions, InitWrongNumberOfVelocities}
    decreases |points| - i
  {
    if i == |points| then InitOk
    else if |points[i].positions| != total then InitWrongNumberOfPositions
    else if |points[i].velocities| != total then InitWrongNumberOfVelocities
    else SizeStatus(points, total, i + 1)
  }

  /** Every joint of the goal passes the per-joint loop. */
  predicate JointsAdmissible(names: seq<string>, points: seq<TrajPoint>, table: JointTable, trajectoryMode: bool)
    requires WellFormedTable(table)
  {
    Sized(points, |names|) && forall k :: 0 <= k < |names| ==> JointAdmissible(names, points, table, trajectoryMode, k)
  }

  /** A goal that passes the loop names only joints the lookup finds. */
  lemma AdmittedJointsFound(names: seq<string>, points: seq<TrajPoint>, table: JointTable, trajectoryMode: bool)
    requires WellFormedTable(table) && JointsAdmissible(names, points, table, trajectoryMode)
    ensures forall k :: 0 <= k < |names| ==> FindJoint(table, names[k], 0).Some?
  {
    forall k | 0 <= k < |names|
      ensures FindJoint(table, names[k], 0).Some?
    {
      assert JointAdmissible(names, points, table, trajectoryMode, k);
    }
  }

  /** The slot of every goal joint, as the lookup finds it. */
  function Slots(names: seq<string>, table: JointTable): (slots: seq<JointSlot>)
    requires WellFormedTable(table) && forall k :: 0 <= k < |names| ==> FindJoint(table, names[k], 0).Some?
    ensures |slots| == |names|
    ensures forall k :: 0 <= k < |names| ==> Holds(table, slots[k].group, slots[k].axis, names[k])
  {
    seq(|names|, k requires 0 <= k < |names| => FindJoint(table, names[k], 0).value)
  }

  /** Every goal joint names a different slot: the checks leave no way for two
      joints of one goal to drive the same axis. */
  lemma AdmittedJointsDistinct(names: seq<string>, table: JointTable, slots: seq<JointSlot>, a: nat, b: nat)
    requires WellFormedTable(table) && |slots| == |names|
    requires forall k :: 0 <= k < |names| ==> Holds(table, slots[k].group, slots[k].axis, names[k])
    requires forall k :: 0 <= k < |names| ==> !HasLaterDuplicate(names, k)
    requires a < b < |names|
    ensures slots[a] != slots[b]
  {
    if slots[a] == slots[b] {
      assert names[a] == names[b];
      assert SameUpTo32(names[a], names[b]);
      assert HasLaterDuplicate(names, a);
    }
  }

  // ---------------------------------------------------------------------
  // Ros_MotionControl_Init: the start checks of each used group (src/MotionControl.c:158-240)

  /** C `abs` on an `int`: a `double` argument is first truncated toward zero. */
  function IntAbsOfDouble(x: real): (r: int)
    ensures r >= 0 && r as real <= Abs(x) < r as real + 1.0
  {
    CtrlGroup.TruncToward0(Abs(x))
  }

  /** The speed check as written: `abs(vel) > maxSpeed`, with the integer `abs`. */
  predicate ExceedsSpeedAsWritten(vel: real, maxSpeed: real)
  {
    IntAbsOfDouble(vel) as real > maxSpeed
  }

  /** The speed check as intended: the magnitude of the velocity. */
  predicate ExceedsSpeed(vel: real, maxSpeed: real)
  {
    Abs(vel) > maxSpeed
  }

  /** A start velocity of 1.5 against a limit of 1.2 passes the written check. */
  lemma SpeedCheckTruncates()
    ensures !ExceedsSpeedAsWritten(1.5, 1.2) && ExceedsSpeed(1.5, 1.2)
  {
    assert IntAbsOfDouble(1.5) == 1;
  }

  /** The written check never rejects what the intended one accepts, but it
      accepts speeds up to one unit above the limit. */
  lemma SpeedCheckWeaker(vel: real, maxSpeed: real)
    ensures ExceedsSpeedAsWritten(vel, maxSpeed) ==> ExceedsSpeed(vel, maxSpeed)
    ensures ExceedsSpeed(vel, maxSpeed + 1.0) ==> ExceedsSpeedAsWritten(vel, maxSpeed)
  {
  }

  /** The speed check of the start check: the written one, or with `exact`
      the intended one. */
  predicate SpeedFault(vel: real, maxSpeed: real, exact: bool)
  {
    if exact then ExceedsSpeed(vel, maxSpeed) else ExceedsSpeedAsWritten(vel, maxSpeed)
  }

  /** The requested start lies within `START_MAX_PULSE_DEVIATION` pulses of
      the commanded position. */
  predicate NearCommand(pulse: int, cur: int)
  {
    -(StartMaxPulseDeviation as int) <= pulse - cur <= StartMaxPulseDeviation
  }

  /** The start check from axis `i` on: the first axis whose requested start
      is too far from the commanded position or whose start velocity breaks
      its limit; on one axis the position is checked first. */
  function StartStatus(pulsePos: seq<int>, curPos: seq<int>, startVel: seq<real>, maxSpeed: seq<real>, exact: bool, i: nat): (s: InitStatus)
    requires |pulsePos| == |curPos| == |startVel| == |maxSpeed| == CtrlGroup.AxesNum && i <= CtrlGroup.AxesNum
    ensures s in {InitOk, InitInvalidStartingPos, InitInvalidVelocity}
    ensures s == InitOk <==> forall j :: i <= j < CtrlGroup.AxesNum ==>
      NearCommand(pulsePos[j], curPos[j]) && !SpeedFault(startVel[j], maxSpeed[j], exact)
    ensures s == InitInvalidStartingPos ==> exists j :: i <= j < CtrlGroup.AxesNum && !NearCommand(pulsePos[j], curPos[j])
    ensures s == InitInvalidVelocity ==> exists j :: i <= j < CtrlGroup.AxesNum && SpeedFault(startVel[j], maxSpeed[j], exact)
    decreases CtrlGroup.AxesNum - i
  {
    if i == CtrlGroup.AxesNum then InitOk
    else if !NearCommand(pulsePos[i], curPos[i]) then InitInvalidStartingPos
    else if SpeedFault(startVel[i], maxSpeed[i], exact) then InitInvalidVelocity
    else StartStatus(pulsePos, curPos, startVel, maxSpeed, exact, i + 1)
  }

  /** The start check of one group as written: for each axis in turn, the
      requested start (in pulses) against the commanded position, then the
      start velocity against the axis speed limit with the integer `abs`. */
  method StartCheck(pulsePos: seq<int>, curPos: seq<int>, startVel: seq<real>, maxSpeed: seq<real>) returns (s: InitStatus)
    requires |pulsePos| == |curPos| == |startVel| == |maxSpeed| == CtrlGroup.AxesNum
    ensures s == StartStatus(pulsePos, curPos, startVel, maxSpeed, false, 0)
    ensures s == InitOk <==> forall i :: 0 <= i < CtrlGroup.AxesNum ==>
      NearCommand(pulsePos[i], curPos[i]) && !ExceedsSpeedAsWritten(startVel[i], maxSpeed[i])
  {
    var i := 0;
    while i < CtrlGroup.AxesNum
      invariant 0 <= i <= CtrlGroup.AxesNum
      invariant StartStatus(pulsePos, curPos, startVel, maxSpeed, false, 0) == StartStatus(pulsePos, curPos, startVel, maxSpeed, false, i)
    {
      var diff := pulsePos[i] - curPos[i];
      if (if diff < 0 then -diff else diff) > StartMaxPulseDeviation {
        return InitInvalidStartingPos;
      }
      if IntAbsOfDouble(startVel[i]) as real > maxSpeed[i] {
        return InitInvalidVelocity;
      }
      i := i + 1;
    }
    return InitOk;
  }

  /** The intended start check is the stricter one: whatever it accepts, the
      written one accepts too. */
  lemma ExactStartStricter(pulsePos: seq<int>, curPos: seq<int>, startVel: seq<real>, maxSpeed: seq<real>)
    requires |pulsePos| == |curPos| == |startVel| == |maxSpeed| == CtrlGroup.AxesNum
    ensures StartStatus(pulsePos, curPos, startVel, maxSpeed, true, 0) == InitOk ==>
      StartStatus(pulsePos, curPos, startVel, maxSpeed, false, 0) == InitOk
  {
    forall j | 0 <= j < CtrlGroup.AxesNum
      ensures SpeedFault(startVel[j], maxSpeed[j], false) ==> SpeedFault(startVel[j], maxSpeed[j], true)
    {
      SpeedCheckWeaker(startVel[j], maxSpeed[j]);
    }
  }

  /** A group standing exactly on its start, asked to start at 1.5 on its
      first axis against a limit of 1.2: the written check lets it through,
      the intended one refuses it. */
  lemma StartCheckPassesTooFast()
    ensures var zeros := seq(CtrlGroup.AxesNum, _ => 0);
      var vel := [1.5] + seq(7, _ => 0.0);
      var limit := seq(CtrlGroup.AxesNum, _ => 1.2);
      StartStatus(zeros, zeros, vel, limit, false, 0) == InitOk
      && StartStatus(zeros, zeros, vel, limit, true, 0) == InitInvalidVelocity
  {
    var zeros := seq(CtrlGroup.AxesNum, _ => 0);
    var vel := [1.5] + seq(7, _ => 0.0);
    var limit := seq(CtrlGroup.AxesNum, _ => 1.2);
    SpeedCheckTruncates();
    forall j | 0 <= j < CtrlGroup.AxesNum
      ensures NearCommand(zeros[j], zeros[j]) && !SpeedFault(vel[j], limit[j], false)
    {
      if j > 0 {
        assert vel[j] == 0.0;
        assert IntAbsOfDouble(vel[j]) == 0;
      }
    }
  }

  /** The B-axis slave adjustment of MPL80/100 robots: the B axis (slot 4)
      gets `U - L` (slots 2 and 1) added, so that the controller's own
      compensation cancels out. */
  function SlaveBAxis(v: CtrlGroup.JointVector): (r: CtrlGroup.JointVector)
    ensures r[4] - v[4] == v[2] - v[1]
    ensures forall i :: 0 <= i < CtrlGroup.AxesNum && i != 4 ==> r[i] == v[i]
  {
    v[4 := v[4] + (-v[1] + v[2])]
  }

  /** Undoing the adjustment: subtract `U - L` from the B axis again. */
  function UnslaveBAxis(v: CtrlGroup.JointVector): (r: CtrlGroup.JointVector)
  {
    v[4 := v[4] - (v[2] - v[1])]
  }

  /** The adjustment loses nothing: it is undone exactly, in either order. */
  lemma SlaveBAxisRoundTrip(v: CtrlGroup.JointVector)
    ensures UnslaveBAxis(SlaveBAxis(v)) == v
    ensures SlaveBAxis(UnslaveBAxis(v)) == v
  {
  }

  /** What the start checks read of one control group: its axis layout and
      pulse ratios, its commanded pulse position, its speed limits and whether
      its B axis is slaved. */
  datatype GroupStart = GroupStart(
    axisType: CtrlGroup.AxisLayout,
    ratios: CtrlGroup.Ratios,
    curPos: seq<int>,
    maxSpeed: seq<real>,
    bAxisSlave: bool)

  predicate WellFormedStarts(starts: seq<GroupStart>)
  {
    && |starts| == CtrlGroup.MaxGroups
    && forall g :: 0 <= g < |starts| ==>
      CtrlGroup.WellFormedRatios(starts[g].ratios)
      && |starts[g].curPos| == CtrlGroup.AxesNum && |starts[g].maxSpeed| == CtrlGroup.AxesNum
  }

  /** The value the conversion leaves in slot `s` after joints `0 .. n-1`: the
      last joint found there wins, and a slot no joint names keeps zero. */
  function SlotValue(slots: seq<JointSlot>, values: seq<real>, s: JointSlot, n: nat): (x: real)
    requires n <= |slots| == |values|
    ensures (forall k :: 0 <= k < n ==> slots[k] != s) ==> x == 0.0
    ensures forall k :: 0 <= k < n && slots[k] == s && (forall m :: k < m < n ==> slots[m] != s) ==> x == values[k]
  {
    if n == 0 then 0.0
    else if slots[n - 1] == s then values[n - 1]
    else SlotValue(slots, values, s, n - 1)
  }

  /** The first point of group `g` in motoman order. */
  function GroupVector(slots: seq<JointSlot>, values: seq<real>, g: nat): (v: CtrlGroup.JointVector)
    requires |slots| == |values|
  {
    seq(CtrlGroup.AxesNum, a requires 0 <= a < CtrlGroup.AxesNum => SlotValue(slots, values, JointSlot(g, a), |slots|))
  }

  /** The positions and velocities of the first point (zero for a goal
      without points). */
  function FirstPositions(points: seq<TrajPoint>, n: nat): (p: seq<real>)
    requires Sized(points, n)
    ensures |p| == n
  {
    if |points| == 0 then seq(n, _ => 0.0) else points[0].positions
  }

  function FirstVelocities(points: seq<TrajPoint>, n: nat): (v: seq<real>)
    requires Sized(points, n)
    ensures |v| == n
  {
    if |points| == 0 then seq(n, _ => 0.0) else points[0].velocities
  }

  /** Group `g` drives a joint of the goal (`bGroupIsUsed`). */
  predicate GroupUsed(slots: seq<JointSlot>, g: nat)
  {
    exists k :: 0 <= k < |slots| && slots[k].group == g
  }

  /** The start check of group `g`: its first point in motoman order, with
      the B-axis adjustment when the axis is slaved, converted to pulses and
      checked against the commanded position and the speed limits. */
  function GroupStartStatus(starts: seq<GroupStart>, slots: seq<JointSlot>, pos: seq<real>, vel: seq<real>, g: nat): (s: InitStatus)
    requires WellFormedStarts(starts) && g < CtrlGroup.MaxGroups && |pos| == |vel| == |slots|
    ensures s in {InitOk, InitInvalidStartingPos, InitInvalidVelocity}
  {
    var st := starts[g];
    var p := GroupVector(slots, pos, g);
    var v := GroupVector(slots, vel, g);
    var p' := if st.bAxisSlave then SlaveBAxis(p) else p;
    var v' := if st.bAxisSlave then SlaveBAxis(v) else v;
    StartStatus(CtrlGroup.RosUnitsToMoto(st.axisType, st.ratios, p'), st.curPos, v', st.maxSpeed, false, 0)
  }

  /** The start checks of the used groups from group `g` on, in group order:
      the status of the first that fails. */
  function StartsStatus(starts: seq<GroupStart>, slots: seq<JointSlot>, pos: seq<real>, vel: seq<real>, g: nat): (s: InitStatus)
    requires WellFormedStarts(starts) && |pos| == |vel| == |slots| && g <= CtrlGroup.MaxGroups
    ensures s in {InitOk, InitInvalidStartingPos, InitInvalidVelocity}
    ensures s == InitOk <==> forall h :: g <= h < CtrlGroup.MaxGroups && GroupUsed(slots, h) ==>
      GroupStartStatus(starts, slots, pos, vel, h) == InitOk
    decreases CtrlGroup.MaxGroups - g
  {
    if g == CtrlGroup.MaxGroups then InitOk
    else if GroupUsed(slots, g) && GroupStartStatus(starts, slots, pos, vel, g) != InitOk then
      GroupStartStatus(starts, slots, pos, vel, g)
    else StartsStatus(starts, slots, pos, vel, g + 1)
  }

  /** A goal `Ros_MotionControl_Init` accepts: no group busy, every joint of
      the controller named, every joint passing the loop, and every used
      group passing its start check. */
  predicate Admissible(anyGroupBusy: bool, totalAxes: nat, names: seq<string>, points: seq<TrajPoint>, table: JointTable,
                       trajectoryMode: bool, starts: seq<GroupStart>)
    requires WellFormedTable(table) && WellFormedStarts(starts)
  {
    && !anyGroupBusy
    && |names| == totalAxes
    && JointsAdmissible(names, points, table, trajectoryMode)
    && (AdmittedJointsFound(names, points, table, trajectoryMode);
        StartsStatus(starts, Slots(names, table), FirstPositions(points, |names|), FirstVelocities(points, |names|), 0) == InitOk)
  }

  // ---------------------------------------------------------------------
  // Ros_MotionControl_Init and its callers

  /** `Ros_MotionControl_Init`. `anyGroupBusy` is "some group still has data
      to process", `totalAxes` the controller's axis count, `starts` what the
      start checks read of each group. On success, where each goal joint
      lives. `initComplete` is `Ros_MotionControl_AllGroupsInitComplete`:
      cleared once the busy check passes, set again only on success. */
  method Init(anyGroupBusy: bool, totalAxes: nat, names: seq<string>, points: seq<TrajPoint>, table: JointTable,
              trajectoryMode: bool, starts: seq<GroupStart>, initComplete: bool)
    returns (r: Result<seq<JointSlot>, InitStatus>, initComplete': bool)
    requires WellFormedTable(table) && WellFormedStarts(starts)
    ensures anyGroupBusy ==> initComplete' == initComplete
    ensures !anyGroupBusy ==> (initComplete' <==> r.Success?)
    ensures anyGroupBusy ==> r == Failure(InitAlreadyInMotion)
    ensures !anyGroupBusy && |names| != totalAxes ==> r == Failure(InitIncompleteJointList)
    ensures !anyGroupBusy && |names| == totalAxes && !Sized(points, totalAxes) ==>
      r == Failure(SizeStatus(points, totalAxes, 0))
    ensures !anyGroupBusy && |names| == totalAxes && Sized(points, totalAxes) && !JointsAdmissible(names, points, table, trajectoryMode) ==>
      r == Failure(FirstJointStatus(names, points, table, trajectoryMode, 0))
    ensures !anyGroupBusy && |names| == totalAxes && JointsAdmissible(names, points, table, trajectoryMode) ==>
      (AdmittedJointsFound(names, points, table, trajectoryMode);
       var s := StartsStatus(starts, Slots(names, table), FirstPositions(points, |names|), FirstVelocities(points, |names|), 0);
       r == if s == InitOk then Success(Slots(names, table)) else Failure(s))
    ensures r.Success? <==> Admissible(anyGroupBusy, totalAxes, names, points, table, trajectoryMode, starts)
    ensures r.Failure? ==> r.error != InitOk
  {
    if anyGroupBusy {
      return Failure(InitAlreadyInMotion), initComplete;
    }
    initComplete' := false;
    if totalAxes != |names| {
      return Failure(InitIncompleteJointList), initComplete';
    }
    var sizes := SizeStatus(points, totalAxes, 0);
    if sizes != InitOk {
      return Failure(sizes), initComplete';
    }
    r := CheckJoints(names, points, table, trajectoryMode, 0);
    if r.Failure? {
      return;
    }
    var slots := r.value;
    AdmittedJointsFound(names, points, table, trajectoryMode);
    assert slots == Slots(names, table);
    var s := CheckStarts(starts, slots, FirstPositions(points, |names|), FirstVelocities(points, |names|));
    r := if s == InitOk then Success(slots) else Failure(s);
    initComplete' := s == InitOk;
  }

  /** The loop over the used groups, in group order: each is checked as it
      comes, and the first failure ends the loop. */
  method CheckStarts(starts: seq<GroupStart>, slots: seq<JointSlot>, pos: seq<real>, vel: seq<real>) returns (s: InitStatus)
    requires WellFormedStarts(starts) && |pos| == |vel| == |slots|
    ensures s == StartsStatus(starts, slots, pos, vel, 0)
    ensures s == InitOk <==> forall g :: 0 <= g < CtrlGroup.MaxGroups && GroupUsed(slots, g) ==>
      GroupStartStatus(starts, slots, pos, vel, g) == InitOk
  {
    var g := 0;
    while g < CtrlGroup.MaxGroups
      invariant 0 <= g <= CtrlGroup.MaxGroups
      invariant StartsStatus(starts, slots, pos, vel, 0) == StartsStatus(starts, slots, pos, vel, g)
    {
      if exists k :: 0 <= k < |slots| && slots[k].group == g {
        var st := starts[g];
        var p := GroupVector(slots, pos, g);
        var v := GroupVector(slots, vel, g);
        if st.bAxisSlave {
          p := SlaveBAxis(p);
          v := SlaveBAxis(v);
        }
        s := StartCheck(CtrlGroup.RosUnitsToMoto(st.axisType, st.ratios, p), st.curPos, v, st.maxSpeed);
        if s != InitOk {
          return;
        }
      }
      g := g + 1;
    }
    return InitOk;
  }

  /** `Ros_MotionControl_InitTrajectory`: fewer than two points is too small
      (the null request is not modelled). */
  method InitTrajectory(anyGroupBusy: bool, totalAxes: nat, names: seq<string>, points: seq<TrajPoint>, table: JointTable,
                        trajectoryMode: bool, starts: seq<GroupStart>, initComplete: bool)
    returns (r: Result<seq<JointSlot>, InitStatus>, initComplete': bool)
    requires WellFormedTable(table) && WellFormedStarts(starts)
    ensures |points| < MinPointsPerTrajectory ==> r == Failure(InitTooSmall) && initComplete' == initComplete
    ensures |points| >= MinPointsPerTrajectory && !anyGroupBusy ==> (initComplete' <==> r.Success?)
    ensures r.Success? <==> (|points| >= MinPointsPerTrajectory
      && Admissible(anyGroupBusy, totalAxes, names, points, table, trajectoryMode, starts))
  {
    if |points| < MinPointsPerTrajectory {
      return Failure(InitTooSmall), initComplete;
    }
    r, initComplete' := Init(anyGroupBusy, totalAxes, names, points, table, trajectoryMode, starts, initComplete);
  }

  /** `Ros_MotionControl_InitPointQueue`: a one-point trajectory; success
      clears the must-initialise flag, failure leaves it. */
  method InitPointQueue(mustInitialize: bool, anyGroupBusy: bool, totalAxes: nat, names: seq<string>, point: TrajPoint,
                        table: JointTable, trajectoryMode: bool, starts: seq<GroupStart>, initComplete: bool)
    returns (r: Result<seq<JointSlot>, InitStatus>, mustInitialize': bool, initComplete': bool)
    requires WellFormedTable(table) && WellFormedStarts(starts)
    ensures !anyGroupBusy ==> (initComplete' <==> r.Success?)
    ensures anyGroupBusy ==> initComplete' == initComplete
    ensures mustInitialize' <==> (mustInitialize && r.Failure?)
    ensures r.Success? <==> Admissible(anyGroupBusy, totalAxes, names, [point], table, trajectoryMode, starts)
  {
    r, initComplete' := Init(anyGroupBusy, totalAxes, names, [point], table, trajectoryMode, starts, initComplete);
    mustInitialize' := if r.Success? then false else mustInitialize;
  }

  // ---------------------------------------------------------------------
  // Pulse clamp of the incremental-move task (src/MotionControl.c:990-1031)

  /** The largest increment one axis may receive this period: the previous
      speed if known, else the current one, else the size of the new
      increment, else the axis' maximum increment. */
  function MaxInc(prevMaxSpeed: int, maxSpeed: int, newPulseInc: int, maxIncrement: nat): (m: int)
    ensures m >= 0
    ensures m in {prevMaxSpeed, maxSpeed, IntAbs(newPulseInc), maxIncrement}
    ensures prevMaxSpeed > 0 ==> m == prevMaxSpeed
    ensures prevMaxSpeed <= 0 && maxSpeed > 0 ==> m == maxSpeed
    ensures prevMaxSpeed <= 0 && maxSpeed <= 0 && newPulseInc != 0 ==> m == IntAbs(newPulseInc)
    ensures prevMaxSpeed <= 0 && maxSpeed <= 0 && newPulseInc == 0 ==> m == maxIncrement
    ensures m == 0 <==> prevMaxSpeed <= 0 && maxSpeed <= 0 && newPulseInc == 0 && maxIncrement == 0
  {
    if prevMaxSpeed > 0 then prevMaxSpeed
    else if maxSpeed > 0 then maxSpeed
    else if newPulseInc != 0 then (if newPulseInc < 0 then -newPulseInc else newPulseInc)
    else maxIncrement
  }

  function IntAbs(x: int): nat { if x < 0 then -x else x }

  /** The increment sent for one axis holding `toProcess` pulses; `None` when
      there is nothing to process (the axis is skipped). */
  function Clamp(toProcess: int, maxInc: nat): (sent: Option<int>)
    ensures sent.None? <==> toProcess == 0
    ensures sent.Some? ==> IntAbs(sent.value) <= maxInc && IntAbs(sent.value) <= IntAbs(toProcess)
    ensures sent.Some? && IntAbs(toProcess) <= maxInc ==> sent.value == toProcess
    ensures sent.Some? && IntAbs(toProcess) > maxInc ==> IntAbs(sent.value) == maxInc
    ensures sent.Some? ==> (sent.value >= 0 <==> toProcess >= 0) || sent.value == 0
  {
    if toProcess == 0 then None
    else if IntAbs(toProcess) <= maxInc then Some(toProcess)
    else if toProcess >= 0 then Some(maxInc)
    else Some(-(maxInc as int))
  }

  /** Clamping loses nothing: what is sent plus what is left is what there was,
      and what is left shrinks in size. */
  lemma ClampKeepsRemainder(toProcess: int, maxInc: nat)
    requires toProcess != 0 && maxInc > 0
    ensures var s := Clamp(toProcess, maxInc).value;
      IntAbs(toProcess - s) < IntAbs(toProcess) && (toProcess - s == 0 || (toProcess - s > 0 <==> toProcess > 0))
  {
  }

  /** What is left of `toProcess` pulses after `n` periods of clamped increments. */
  function Remaining(toProcess: int, maxInc: nat, n: nat): (left: int)
    ensures IntAbs(left) <= IntAbs(toProcess)
    decreases n
  {
    if n == 0 || toProcess == 0 then toProcess
    else
      ClampKeepsRemainderOrEmpty(toProcess, maxInc);
      Remaining(toProcess - Clamp(toProcess, maxInc).value, maxInc, n - 1)
  }

  lemma ClampKeepsRemainderOrEmpty(toProcess: int, maxInc: nat)
    requires toProcess != 0
    ensures IntAbs(toProcess - Clamp(toProcess, maxInc).value) <= IntAbs(toProcess)
  {
  }

  /** The clamp never strands pulses: with a positive bound `m`, a held amount
      of `x` pulses is sent in full within `ceil(|x| / m)` periods. */
  lemma {:induction false} ClampDrains(toProcess: int, maxInc: nat, n: nat)
    requires maxInc > 0 && n * maxInc >= IntAbs(toProcess)
    ensures Remaining(toProcess, maxInc, n) == 0
    decreases n
  {
    if n == 0 || toProcess == 0 {
    } else if IntAbs(toProcess) <= maxInc {
      assert toProcess - Clamp(toProcess, maxInc).value == 0;
    } else {
      var rest := toProcess - Clamp(toProcess, maxInc).value;
      assert IntAbs(rest) == IntAbs(toProcess) - maxInc;
      assert (n - 1) * maxInc == n * maxInc - maxInc;
      ClampDrains(rest, maxInc, n - 1);
    }
  }

  /** The bound the increment-move loop picks lets the held pulses drain whenever any of its
      sources is set; an axis whose maximum increment is configured always
      drains. */
  lemma MaxIncDrains(prevMaxSpeed: int, maxSpeed: int, newPulseInc: int, maxIncrement: nat, toProcess: int, n: nat)
    requires prevMaxSpeed > 0 || maxSpeed > 0 || newPulseInc != 0 || maxIncrement > 0
    requires n * MaxInc(prevMaxSpeed, maxSpeed, newPulseInc, maxIncrement) >= IntAbs(toProcess)
    ensures Remaining(toProcess, MaxInc(prevMaxSpeed, maxSpeed, newPulseInc, maxIncrement), n) == 0
  {
    ClampDrains(toProcess, MaxInc(prevMaxSpeed, maxSpeed, newPulseInc, maxIncrement), n);
  }

  // ---------------------------------------------------------------------
  // Motion modes (src/MotionControl.c:1360-1659)

  /** `MOTION_MODE` */
  datatype MotionMode = Inactive | Trajectory | PointQueue

  /** The module's mode globals. */
  datatype ModeState = ModeState(active: MotionMode, mustInitializePointQueue: bool, allGroupsInitComplete: bool)

  /** `Ros_MotionControl_IsMotionMode_Trajectory` / `_PointQueue`;
      raw streaming is never active. */
  predicate IsTrajectoryMode(s: ModeState) { s.active == Trajectory }
  predicate IsPointQueueMode(s: ModeState) { s.active == PointQueue }
  predicate IsRawStreamingMode(s: ModeState) { false }

  /** The outcomes of the controller calls `StartMotionMode` makes, in call order. */
  datatype StartEnv = StartEnv(
    setCycleOk: bool,       // mpSetCycle succeeded
    cycleHeld: bool,        // still in continuous cycle after the ladder scan
    disableEcoOk: bool,     // leaving energy-saving mode succeeded
    servoPowerOk: bool,     // mpSetServoPower succeeded
    servoOnInTime: bool,    // servo power came on within MOTION_START_TIMEOUT
    startJobOk: bool)       // mpStartJob succeeded

  /** The result: the readiness code, the new mode globals, whether the
      set-cycle alarm was posted, and whether the increment queues of every
      group were cleared (which happens just before the job is started). */
  datatype StartResult = StartResult(code: NotReadyCode, state: ModeState, cycleAlarm: bool, queuesCleared: bool)

  /** The codes the start procedure cannot fix and returns at once. */
  predicate Intractable(code: NotReadyCode)
  {
    code in {NotReadyEStop, NotReadyNotPlay, NotReadyNotRemote, NotReadyHold, NotReadyError,
             NotReadyAlarm, NotReadyPflActive, NotReadyIncMoveError, NotReadyOtherProgramRunning}
  }

  /** `Ros_MotionControl_StartMotionMode`. `c` is the controller status after
      the first status update, `final` the status after the job was started. */
  function StartMotionMode(s: ModeState, mode: MotionMode, c: ControllerStatus.Controller, masterRuns: bool,
                           env: StartEnv, final: ControllerStatus.Controller, finalMasterRuns: bool): (r: StartResult)
    requires mode != Inactive
    ensures s.active != Inactive && s.active != mode ==> r == StartResult(NotReadyOtherTrajModeActive, s, false, false)
    ensures r.state.active != s.active ==> r.queuesCleared
    ensures r.queuesCleared ==> (!ControllerStatus.IsMotionReady(c, masterRuns)
      && !Intractable(ControllerStatus.GetNotReadySubcode(c, masterRuns, true)) && !r.cycleAlarm)
    ensures r.state.active != s.active ==> r.code == Ready && r.state.active == mode
    ensures r.code != Ready ==> r.state == s
    ensures r.cycleAlarm ==> r.code in {NotReadyError, NotReadyNotContCycleMode}
    ensures r.code == Ready ==> ControllerStatus.IsMotionReady(c, masterRuns) || ControllerStatus.IsMotionReady(final, finalMasterRuns)
    ensures r.state.mustInitializePointQueue != s.mustInitializePointQueue ==>
      r.state.mustInitializePointQueue && r.state.active == PointQueue && r.code == Ready
    ensures r.state.allGroupsInitComplete == s.allGroupsInitComplete
  {
    if s.active != Inactive && s.active != mode then StartResult(NotReadyOtherTrajModeActive, s, false, false)
    else if ControllerStatus.IsMotionReady(c, masterRuns) then StartResult(Ready, s, false, false)
    else
      var code := ControllerStatus.GetNotReadySubcode(c, masterRuns, true);
      if Intractable(code) then StartResult(code, s, false, false)
      else if !ControllerStatus.IsContinuousCycle(c.io) && !env.setCycleOk then StartResult(NotReadyError, s, true, false)
      else if !ControllerStatus.IsContinuousCycle(c.io) && !env.cycleHeld then StartResult(NotReadyNotContCycleMode, s, true, false)
      else if !ControllerStatus.IsServoOn(c.io) && ControllerStatus.IsEcoMode(c.io) && !env.disableEcoOk then StartResult(NotReadyEcoMode, s, false, false)
      else if !ControllerStatus.IsServoOn(c.io) && !env.servoPowerOk then StartResult(NotReadyError, s, false, false)
      else if !ControllerStatus.IsServoOn(c.io) && !env.servoOnInTime then StartResult(NotReadyServoOnTimeout, s, false, false)
      else if !env.startJobOk then StartResult(NotReadyError, s, false, true)
      else
        var finalCode := ControllerStatus.GetNotReadySubcode(final, finalMasterRuns, false);
        if finalCode == Ready then
          StartResult(Ready, s.(active := mode, mustInitializePointQueue := if mode == PointQueue then true else s.mustInitializePointQueue), false, true)
        else StartResult(finalCode, s, false, true)
  }

  /** A controller that is already ready short-cuts the start: the result is
      `Ready`, but the requested mode is not recorded. */
  lemma ReadyShortcutKeepsMode(s: ModeState, mode: MotionMode, c: ControllerStatus.Controller, masterRuns: bool,
                               env: StartEnv, final: ControllerStatus.Controller, finalMasterRuns: bool)
    requires mode != Inactive && s.active == Inactive && ControllerStatus.IsMotionReady(c, masterRuns)
    ensures var r := StartMotionMode(s, mode, c, masterRuns, env, final, finalMasterRuns);
      r.code == Ready && r.state.active == Inactive
  {
  }

  /** `Ros_MotionControl_StopTrajMode` (the output write is not modelled). */
  function StopTrajMode(s: ModeState): (r: ModeState)
    ensures r.active == Inactive && !r.allGroupsInitComplete
    ensures r.mustInitializePointQueue == s.mustInitializePointQueue
  {
    s.(active := Inactive, allGroupsInitComplete := false)
  }

  /** `Ros_MotionControl_ValidateMotionModeIsOk`: point-queue mode ends when
      motion is no longer possible; trajectory mode is left alone. */
  function ValidateMotionModeIsOk(s: ModeState, motionPossible: bool): (r: ModeState)
    ensures motionPossible || !IsPointQueueMode(s) ==> r == s
    ensures !motionPossible && IsPointQueueMode(s) ==> r == StopTrajMode(s)
  {
    if !motionPossible && IsPointQueueMode(s) then StopTrajMode(s) else s
  }

  /** Modes exclude each other: once one mode is active, starting the other is
      refused until the first is stopped, and stopping lifts the refusal. */
  lemma ModesExclusive(s: ModeState, a: MotionMode, b: MotionMode, c: ControllerStatus.Controller, masterRuns: bool,
                       env: StartEnv, final: ControllerStatus.Controller, finalMasterRuns: bool)
    requires a != Inactive && b != Inactive && a != b && s.active == a
    ensures StartMotionMode(s, b, c, masterRuns, env, final, finalMasterRuns).code == NotReadyOtherTrajModeActive
    ensures StartMotionMode(StopTrajMode(s), b, c, masterRuns, env, final, finalMasterRuns).code != NotReadyOtherTrajModeActive
  {
    var code := ControllerStatus.GetNotReadySubcode(final, finalMasterRuns, false);
  }
}
