/** Axis layout of a control group and the conversions between the controller's
    ("moto") joint order and the sequential ("ROS") joint order, the pulse <->
    radian/meter scaling, the axis bitmap and the user joint names
    (src/CtrlGroup.c).

    Joint vectors are `seq<real>` of length `AxesNum`; the C code computes them
    in `double`, the model in exact arithmetic. */
module CtrlGroup {
  import opened Wrappers

  /** `MP_GRP_AXES_NUM` and `MAX_PULSE_AXES`: slots per group. */
  const AxesNum: nat := 8
  /** `MAX_CONTROLLABLE_GROUPS` */
  const MaxGroups: nat := 8
  /** `MAX_JOINT_NAME_LENGTH` */
  const MaxJointNameLength: nat := 32

  /** `MP_R1_GID` .. `MP_R8_GID`, `MP_B1_GID` .. `MP_B8_GID`, `MP_S1_GID` .. `MP_S24_GID` */
  const R1Gid: int := 0
  const R8Gid: int := 7
  const B1Gid: int := 8
  const B8Gid: int := 15
  const S1Gid: int := 16
  const S24Gid: int := 39

  /** `AXIS_ROTATION`, `AXIS_LINEAR`, `AXIS_INVALID` */
  datatype AxisType = Rotation | Linear | Invalid

  type AxisLayout = t: seq<AxisType> | |t| == 8 witness seq(8, _ => Invalid)
  type JointVector = v: seq<real> | |v| == 8 witness seq(8, _ => 0.0)

  /** The part of `CtrlGroup` the joint-order logic reads. */
  datatype Group = Group(
    groupNo: nat,
    numAxes: nat,
    groupId: int,
    axisType: AxisLayout,
    baseTrackGroupIndex: int)

  // ---------------------------------------------------------------------
  // Group kind (src/CtrlGroup.c:740-778)

  /** `Ros_CtrlGroup_IsRobot` */
  predicate IsRobot(g: Group) { R1Gid <= g.groupId <= R8Gid }
  /** `Ros_CtrlGroup_IsBase` */
  predicate IsBase(g: Group) { B1Gid <= g.groupId <= B8Gid }
  /** `Ros_CtrlGroup_IsStation` */
  predicate IsStation(g: Group) { S1Gid <= g.groupId <= S24Gid }
  /** `Ros_CtrlGroup_HasBaseTrack`: -1 is the "no base track" sentinel. */
  predicate HasBaseTrack(g: Group) { g.baseTrackGroupIndex != -1 }

  /** The three kinds partition the group ids the controller defines. */
  lemma GroupKindsPartition(g: Group)
    requires R1Gid <= g.groupId <= S24Gid
    ensures IsRobot(g) || IsBase(g) || IsStation(g)
    ensures !(IsRobot(g) && IsBase(g)) && !(IsRobot(g) && IsStation(g)) && !(IsBase(g) && IsStation(g))
  {
  }

  // ---------------------------------------------------------------------
  // Axis validity

  /** `Ros_CtrlGroup_IsInvalidAxis` */
  predicate IsInvalidAxis(t: AxisLayout, i: nat)
    requires i < AxesNum
  {
    t[i] == Invalid
  }

  /** The two compaction loops also probe slot `AxesNum` (one past the array); the
      model reads that slot as invalid. */
  predicate SlotInvalid(t: AxisLayout, i: nat)
  {
    i >= AxesNum || t[i] == Invalid
  }

  /** Axis-type adjustment in `Ros_CtrlGroup_Create`: an axis whose maximum
      increment is 0 cannot move and is marked invalid. */
  function AdjustAxisTypes(reported: AxisLayout, maxIncrement: seq<nat>): (t: AxisLayout)
    requires |maxIncrement| == AxesNum
    ensures forall i :: 0 <= i < AxesNum ==> (t[i] == Invalid <==> reported[i] == Invalid || maxIncrement[i] == 0)
    ensures forall i :: 0 <= i < AxesNum && t[i] != Invalid ==> t[i] == reported[i]
  {
    seq(AxesNum, i requires 0 <= i < AxesNum => if maxIncrement[i] == 0 then Invalid else reported[i])
  }

  /** Adjusting twice changes nothing more: the adjusted layout is a fixed
      point of the adjustment. */
  lemma AdjustAxisTypesIdempotent(reported: AxisLayout, maxIncrement: seq<nat>)
    requires |maxIncrement| == AxesNum
    ensures AdjustAxisTypes(AdjustAxisTypes(reported, maxIncrement), maxIncrement) == AdjustAxisTypes(reported, maxIncrement)
  {
  }

  /** The valid slots below `n`, in increasing order. */
  function ValidBelow(t: AxisLayout, n: nat): (s: seq<nat>)
    requires n <= AxesNum
    ensures |s| <= n
    ensures forall k :: 0 <= k < |s| ==> s[k] < n
  {
    if n == 0 then []
    else ValidBelow(t, n - 1) + (if t[n - 1] != Invalid then [n - 1] else [])
  }

  /** The rank of slot `j`: how many valid slots come before it. */
  function Rank(t: AxisLayout, j: nat): (r: nat)
    requires j <= AxesNum
    ensures r <= j
  {
    |ValidBelow(t, j)|
  }

  /** All valid slots of a layout, in increasing order. */
  function ValidSlots(t: AxisLayout): seq<nat>
  {
    ValidBelow(t, AxesNum)
  }

  /** The rank of a valid slot among the valid slots is the number of valid
      slots before it. */
  lemma {:induction false} RankOfValidSlot(t: AxisLayout, a: nat, n: nat)
    requires a < n <= AxesNum && t[a] != Invalid
    ensures Rank(t, a) < Rank(t, n)
    ensures ValidBelow(t, n)[Rank(t, a)] == a
  {
    if n == a + 1 {
    } else {
      RankOfValidSlot(t, a, n - 1);
      assert ValidBelow(t, n - 1) <= ValidBelow(t, n);
    }
  }

  function Min(a: int, b: int): int { if a <= b then a else b }

  // ---------------------------------------------------------------------
  // Joint-order conversions (src/CtrlGroup.c:552-599, 653-703)

  /** Which of the three branches of the joint-order conversions a group takes. */
  predicate IsSevenAxisRobot(g: Group) { g.numAxes == 7 && IsRobot(g) }
  predicate IsCompactedRobot(g: Group) { IsRobot(g) && g.numAxes < 6 }

  /** The number of ROS slots a compacted robot fills: its axis count, or fewer
      when it has fewer valid slots than axes. */
  function CompactedCount(g: Group): nat
  {
    Min(g.numAxes, |ValidSlots(g.axisType)|)
  }

  /** 7-axis robot, controller order S L U R B T E to sequential order S L E U R B T. */
  function SevenAxisToSequential(moto: JointVector, prev: JointVector): (ros: JointVector)
  {
    seq(AxesNum, k requires 0 <= k < AxesNum =>
      if k < 2 then moto[k] else if k == 2 then moto[6] else if k < 7 then moto[k - 1] else prev[k])
  }

  /** Robot with fewer than 6 axes: the valid controller slots, in order, packed
      into the first `count` ROS slots. */
  function CompactToSequential(t: AxisLayout, count: nat, moto: JointVector, prev: JointVector): (ros: JointVector)
    requires count <= |ValidSlots(t)|
  {
    seq(AxesNum, k requires 0 <= k < AxesNum =>
      if k < count then moto[ValidSlots(t)[k]] else prev[k])
  }

  /** Reference definition of `Ros_CtrlGroup_ConvertMotoJointOrderToSequentialJointOrder`.
      `prev` is the caller's output buffer: the C function does not clear it, so
      slots it does not write keep their old values. */
  function MotoToSequential(g: Group, moto: JointVector, prev: JointVector): (ros: JointVector)
  {
    if IsSevenAxisRobot(g) then SevenAxisToSequential(moto, prev)
    else if IsCompactedRobot(g) then CompactToSequential(g.axisType, CompactedCount(g), moto, prev)
    else moto
  }

  /** 7-axis robot, sequential order back to controller order; slot 7 stays 0. */
  function SevenAxisToMoto(ros: JointVector): (moto: JointVector)
  {
    seq(AxesNum, j requires 0 <= j < AxesNum =>
      if j < 2 then ros[j] else if j < 6 then ros[j + 1] else if j == 6 then ros[2] else 0.0)
  }

  /** Robot with fewer than 6 axes: the first `count` ROS values scattered back to
      the valid controller slots; every other slot is 0. */
  function CompactToMoto(t: AxisLayout, count: nat, ros: JointVector): (moto: JointVector)
  {
    seq(AxesNum, j requires 0 <= j < AxesNum =>
      if t[j] != Invalid && Rank(t, j) < count then ros[Rank(t, j)] else 0.0)
  }

  /** Reference definition of `Ros_CtrlGroup_ConvertSequentialJointOrderToMotoJointOrder`:
      the output is cleared first, so every slot not written is 0. */
  function SequentialToMoto(g: Group, ros: JointVector): (moto: JointVector)
  {
    if IsSevenAxisRobot(g) then SevenAxisToMoto(ros)
    else if IsCompactedRobot(g) then CompactToMoto(g.axisType, CompactedCount(g), ros)
    else ros
  }

  /** `Ros_CtrlGroup_ConvertMotoJointOrderToSequentialJointOrder`, branch by branch. */
  method ConvertMotoToSequential(g: Group, moto: JointVector, prev: JointVector) returns (ros: JointVector)
    ensures ros == MotoToSequential(g, moto, prev)
  {
    if IsSevenAxisRobot(g) {
      ros := SevenAxisLoopToSequential(moto, prev);
    } else if IsCompactedRobot(g) {
      ros := CompactLoopToSequential(g.axisType, g.numAxes, moto, prev);
    } else {
      ros := CopyLoop(moto);
    }
  }

  /** The 7-axis loop of the C code. */
  method SevenAxisLoopToSequential(moto: JointVector, prev: JointVector) returns (ros: JointVector)
    ensures ros == SevenAxisToSequential(moto, prev)
  {
    ros := prev;
    var i := 0;
    while i < 7
      invariant 0 <= i <= 7
      invariant forall k :: 0 <= k < i ==> ros[k] == SevenAxisToSequential(moto, prev)[k]
      invariant forall k :: i <= k < AxesNum ==> ros[k] == prev[k]
    {
      if i < 2 {
        ros := ros[i := moto[i]];
      } else if i == 2 {
        ros := ros[2 := moto[6]];
      } else {
        ros := ros[i := moto[i - 1]];
      }
      i := i + 1;
    }
  }

  /** The compaction loop as the C code writes it: `mpi` walks the controller
      slots, skipping invalid ones, and the function returns early when it runs
      off the end. */
  method CompactLoopToSequential(t: AxisLayout, numAxes: nat, moto: JointVector, prev: JointVector)
    returns (ros: JointVector)
    ensures ros == CompactToSequential(t, Min(numAxes, |ValidSlots(t)|), moto, prev)
  {
    ros := prev;
    ghost var vs := ValidSlots(t);
    var i, mpi := 0, 0;
    while i < numAxes
      invariant 0 <= i <= numAxes && i <= mpi <= AxesNum && i <= |vs|
      invariant ValidBelow(t, mpi) == vs[..i]
      invariant forall k :: 0 <= k < i ==> ros[k] == moto[vs[k]]
      invariant forall k :: i <= k < AxesNum ==> ros[k] == prev[k]
    {
      mpi := SkipInvalidSlots(t, mpi);
      if mpi >= AxesNum {
        assert ValidBelow(t, AxesNum) == vs[..i];
        CompactResult(t, i, moto, prev, ros);
        return;
      }
      CompactStep(t, i, mpi);
      ros := ros[i := moto[mpi]];
      i, mpi := i + 1, mpi + 1;
    }
    CompactResult(t, i, moto, prev, ros);
  }

  /** The inner `while` of the compaction loops: advance past invalid slots. The
      C loop returns as soon as the index reaches `AxesNum`; the caller tests for
      that. */
  method SkipInvalidSlots(t: AxisLayout, from: nat) returns (mpi: nat)
    requires from <= AxesNum
    ensures from <= mpi <= AxesNum + 1 && (mpi < AxesNum ==> t[mpi] != Invalid)
    ensures forall j :: from <= j < Min(mpi, AxesNum) ==> t[j] == Invalid
    ensures ValidBelow(t, Min(mpi, AxesNum)) == ValidBelow(t, from)
  {
    mpi := from;
    while SlotInvalid(t, mpi)
      invariant from <= mpi <= AxesNum
      invariant forall j :: from <= j < mpi ==> t[j] == Invalid
      invariant ValidBelow(t, Min(mpi, AxesNum)) == ValidBelow(t, from)
      decreases AxesNum + 1 - mpi
    {
      if mpi < AxesNum {
        ValidBelowSkip(t, mpi);
      }
      mpi := mpi + 1;
      if mpi >= AxesNum {
        return;
      }
    }
  }

  /** One step of the compaction loop: the next valid slot is the `i`-th
      valid slot, and taking it extends the prefix by one. */
  lemma CompactStep(t: AxisLayout, i: nat, mpi: nat)
    requires mpi < AxesNum && t[mpi] != Invalid
    requires i <= |ValidSlots(t)| && ValidBelow(t, mpi) == ValidSlots(t)[..i]
    ensures i < |ValidSlots(t)| && ValidSlots(t)[i] == mpi
    ensures ValidBelow(t, mpi + 1) == ValidSlots(t)[..i + 1]
  {
    ValidBelowTake(t, mpi);
    PrefixOfValidSlots(t, mpi + 1);
    assert ValidBelow(t, mpi + 1)[i] == mpi;
  }

  lemma CompactResult(t: AxisLayout, count: nat, moto: JointVector, prev: JointVector, ros: JointVector)
    requires count <= |ValidSlots(t)|
    requires forall k :: 0 <= k < count ==> ros[k] == moto[ValidSlots(t)[k]]
    requires forall k :: count <= k < AxesNum ==> ros[k] == prev[k]
    ensures ros == CompactToSequential(t, count, moto, prev)
  {
  }

  /** The slot-for-slot copy of every other group. */
  method CopyLoop(src: JointVector) returns (dst: JointVector)
    ensures dst == src
  {
    dst := seq(AxesNum, _ => 0.0);
    var i := 0;
    while i < AxesNum
      invariant 0 <= i <= AxesNum
      invariant forall k :: 0 <= k < i ==> dst[k] == src[k]
    {
      dst := dst[i := src[i]];
      i := i + 1;
    }
  }

  lemma ValidBelowSkip(t: AxisLayout, n: nat)
    requires n < AxesNum && t[n] == Invalid
    ensures ValidBelow(t, n + 1) == ValidBelow(t, n)
  {
  }

  lemma ValidBelowTake(t: AxisLayout, n: nat)
    requires n < AxesNum && t[n] != Invalid
    ensures ValidBelow(t, n + 1) == ValidBelow(t, n) + [n]
  {
  }

  /** Every `ValidBelow` is a prefix of the full list of valid slots. */
  lemma {:induction false} PrefixOfValidSlots(t: AxisLayout, n: nat)
    requires n <= AxesNum
    ensures ValidBelow(t, n) <= ValidSlots(t)
    decreases AxesNum - n
  {
    if n < AxesNum {
      PrefixOfValidSlots(t, n + 1);
      assert ValidBelow(t, n) <= ValidBelow(t, n + 1);
    }
  }

  // ---------------------------------------------------------------------
  // Facts about the list of valid slots

  /** `ValidBelow(t, n)` lists exactly the valid slots below `n`, in strictly
      increasing order. */
  lemma {:induction false} ValidBelowSpec(t: AxisLayout, n: nat)
    requires n <= AxesNum
    ensures forall k :: 0 <= k < Rank(t, n) ==> t[ValidBelow(t, n)[k]] != Invalid
    ensures forall k, l :: 0 <= k < l < Rank(t, n) ==> ValidBelow(t, n)[k] < ValidBelow(t, n)[l]
    ensures forall j :: 0 <= j < n && t[j] != Invalid ==> j in ValidBelow(t, n)
  {
    if n > 0 {
      ValidBelowSpec(t, n - 1);
    }
  }

  /** More slots never have fewer valid ones. */
  lemma {:induction false} RankMonotone(t: AxisLayout, a: nat, b: nat)
    requires a <= b <= AxesNum
    ensures Rank(t, a) <= Rank(t, b)
    decreases b - a
  {
    if a < b {
      RankMonotone(t, a, b - 1);
    }
  }

  /** The `k`-th valid slot has exactly `k` valid slots before it: rank and
      `ValidSlots` are inverse to each other. */
  lemma SlotOfRank(t: AxisLayout, k: nat)
    requires k < |ValidSlots(t)|
    ensures ValidSlots(t)[k] < AxesNum && t[ValidSlots(t)[k]] != Invalid
    ensures |ValidBelow(t, ValidSlots(t)[k])| == k
  {
    ValidBelowSpec(t, AxesNum);
    RankOfValidSlot(t, ValidSlots(t)[k], AxesNum);
  }

  // ---------------------------------------------------------------------
  // Sequential order back to controller order

  /** `Ros_CtrlGroup_ConvertSequentialJointOrderToMotoJointOrder`, branch by branch. */
  method ConvertSequentialToMoto(g: Group, ros: JointVector) returns (moto: JointVector)
    ensures moto == SequentialToMoto(g, ros)
  {
    if IsSevenAxisRobot(g) {
      moto := SevenAxisLoopToMoto(ros);
    } else if IsCompactedRobot(g) {
      moto := CompactLoopToMoto(g.axisType, g.numAxes, ros);
    } else {
      moto := CopyLoop(ros);
    }
  }

  /** The 7-axis loop of the reverse conversion, on a cleared output. */
  method SevenAxisLoopToMoto(ros: JointVector) returns (moto: JointVector)
    ensures moto == SevenAxisToMoto(ros)
  {
    moto := seq(AxesNum, _ => 0.0);
    var i := 0;
    while i < 7
      invariant 0 <= i <= 7
      invariant forall j :: 0 <= j < 2 && j < i ==> moto[j] == ros[j]
      invariant forall j :: 2 <= j < 6 && j + 1 < i ==> moto[j] == ros[j + 1]
      invariant moto[6] == (if i > 2 then ros[2] else 0.0)
      invariant forall j :: 2 <= j < 6 && i <= j + 1 ==> moto[j] == 0.0
      invariant moto[7] == 0.0
    {
      if i < 2 {
        moto := moto[i := ros[i]];
      } else if i == 2 {
        moto := moto[6 := ros[2]];
      } else {
        moto := moto[i - 1 := ros[i]];
      }
      i := i + 1;
    }
  }

  /** The reverse compaction loop: the `i`-th ROS value goes to the `i`-th
      valid controller slot; the early return leaves the rest cleared. */
  method CompactLoopToMoto(t: AxisLayout, numAxes: nat, ros: JointVector) returns (moto: JointVector)
    ensures moto == CompactToMoto(t, Min(numAxes, |ValidSlots(t)|), ros)
  {
    moto := seq(AxesNum, _ => 0.0);
    var i, mpi := 0, 0;
    while i < numAxes
      invariant 0 <= i <= numAxes && i <= mpi <= AxesNum
      invariant Rank(t, mpi) == i && i <= |ValidSlots(t)|
      invariant forall j :: 0 <= j < mpi ==> moto[j] == (if t[j] != Invalid then ros[Rank(t, j)] else 0.0)
      invariant forall j :: mpi <= j < AxesNum ==> moto[j] == 0.0
    {
      mpi := SkipInvalidSlots(t, mpi);
      if mpi >= AxesNum {
        CompactMotoResult(t, ros, moto, AxesNum);
        return;
      }
      ValidBelowTake(t, mpi);
      RankMonotone(t, mpi + 1, AxesNum);
      moto := moto[mpi := ros[i]];
      i, mpi := i + 1, mpi + 1;
    }
    CompactMotoResult(t, ros, moto, mpi);
  }

  /** Once the first `m` controller slots are written, the output is the
      reference scatter with as many ROS values as there are valid slots
      below `m`. */
  lemma CompactMotoResult(t: AxisLayout, ros: JointVector, moto: JointVector, m: nat)
    requires m <= AxesNum
    requires forall j :: 0 <= j < m ==> moto[j] == (if t[j] != Invalid then ros[Rank(t, j)] else 0.0)
    requires forall j :: m <= j < AxesNum ==> moto[j] == 0.0
    ensures moto == CompactToMoto(t, Rank(t, m), ros)
  {
    forall j | 0 <= j < AxesNum
      ensures moto[j] == CompactToMoto(t, Rank(t, m), ros)[j]
    {
      if j < m {
        if t[j] != Invalid {
          ValidBelowTake(t, j);
          RankMonotone(t, j + 1, m);
        }
      } else {
        RankMonotone(t, m, j);
      }
    }
  }

  // ---------------------------------------------------------------------
  // Round trips between the two joint orders

  /** How many leading ROS slots a group uses. */
  function RosSlots(g: Group): nat
  {
    if IsSevenAxisRobot(g) then 7
    else if IsCompactedRobot(g) then CompactedCount(g)
    else AxesNum
  }

  /** Whether controller slot `j` carries a joint of the group in the ROS order. */
  predicate KeptSlot(g: Group, j: nat)
    requires j < AxesNum
  {
    if IsSevenAxisRobot(g) then j < 7
    else if IsCompactedRobot(g) then g.axisType[j] != Invalid && Rank(g.axisType, j) < CompactedCount(g)
    else true
  }

  /** Going from ROS order to controller order and back restores every ROS slot
      the group uses. */
  lemma SequentialRoundTrip(g: Group, ros: JointVector, prev: JointVector)
    ensures RosSlots(g) <= AxesNum
    ensures forall k :: 0 <= k < RosSlots(g) ==> MotoToSequential(g, SequentialToMoto(g, ros), prev)[k] == ros[k]
  {
    if !IsSevenAxisRobot(g) && IsCompactedRobot(g) {
      var t, c := g.axisType, CompactedCount(g);
      forall k | 0 <= k < c
        ensures MotoToSequential(g, SequentialToMoto(g, ros), prev)[k] == ros[k]
      {
        SlotOfRank(t, k);
      }
    }
  }

  /** Going from controller order to ROS order and back restores every slot
      that carries a joint of the group and clears the others. */
  lemma MotoRoundTrip(g: Group, moto: JointVector, prev: JointVector)
    ensures forall j :: 0 <= j < AxesNum ==>
      SequentialToMoto(g, MotoToSequential(g, moto, prev))[j] == (if KeptSlot(g, j) then moto[j] else 0.0)
  {
    if !IsSevenAxisRobot(g) && IsCompactedRobot(g) {
      var t := g.axisType;
      forall j | 0 <= j < AxesNum && t[j] != Invalid
        ensures Rank(t, j) < |ValidSlots(t)| && ValidSlots(t)[Rank(t, j)] == j
      {
        RankOfValidSlot(t, j, AxesNum);
      }
    }
  }

  /** A delta robot (S L U - - T, four axes) puts its T axis in ROS slot 3. */
  lemma DeltaLayout(moto: JointVector, prev: JointVector)
    ensures var g := Group(0, 4, R1Gid, [Rotation, Rotation, Rotation, Invalid, Invalid, Rotation, Invalid, Invalid], -1);
      var ros := MotoToSequential(g, moto, prev);
      ros[..4] == [moto[0], moto[1], moto[2], moto[5]] && ros[4..] == prev[4..]
  {
    var t := [Rotation, Rotation, Rotation, Invalid, Invalid, Rotation, Invalid, Invalid];
    var g := Group(0, 4, R1Gid, t, -1);
    assert ValidSlots(t) == [0, 1, 2, 5];
    assert CompactedCount(g) == 4;
    var ros := MotoToSequential(g, moto, prev);
    assert ros == CompactToSequential(t, 4, moto, prev);
    assert ros[..4] == [moto[0], moto[1], moto[2], moto[5]];
  }

  // ---------------------------------------------------------------------
  // Pulse <-> radian/meter scaling (src/CtrlGroup.c:521-550, 625-651)

  /** Per-axis conversion ratios `pulseToRad.PtoR` and `pulseToMeter.PtoM`. */
  datatype Ratios = Ratios(pulseToRad: seq<real>, pulseToMeter: seq<real>)

  predicate WellFormedRatios(r: Ratios)
  {
    |r.pulseToRad| == AxesNum && |r.pulseToMeter| == AxesNum
  }

  /** The ratio an axis uses: rotary axes count pulses per radian, linear ones
      pulses per meter. */
  function Ratio(t: AxisLayout, r: Ratios, i: nat): real
    requires WellFormedRatios(r) && i < AxesNum
  {
    match t[i]
    case Rotation => r.pulseToRad[i]
    case Linear => r.pulseToMeter[i]
    case Invalid => 1.0
  }

  /** The ratios of the usable axes are non-zero (the controller parameters
      never report a zero ratio for an axis that can move). */
  predicate UsableRatios(t: AxisLayout, r: Ratios)
  {
    WellFormedRatios(r) && forall i :: 0 <= i < AxesNum && t[i] != Invalid ==> Ratio(t, r, i) != 0.0
  }

  /** C's `(int)` cast of a double: truncation toward zero. */
  function TruncToward0(x: real): (n: int)
    ensures 0.0 <= x ==> 0 <= n && n as real <= x < n as real + 1.0
    ensures x < 0.0 ==> n <= 0 && n as real - 1.0 < x <= n as real
  {
    if x >= 0.0 then x.Floor else -((-x).Floor)
  }

  /** One axis, pulses to ROS units. */
  function ToUnits(pulses: int, ratio: real): (x: real)
    requires ratio != 0.0
    ensures x * ratio == pulses as real
  {
    pulses as real / ratio
  }

  /** One axis, ROS units to pulses. */
  function ToPulses(x: real, ratio: real): int
  {
    TruncToward0(x * ratio)
  }

  /** Scaling to ROS units and back is exact in exact arithmetic. */
  lemma ToPulsesToUnits(pulses: int, ratio: real)
    requires ratio != 0.0
    ensures ToPulses(ToUnits(pulses, ratio), ratio) == pulses
  {
  }

  /** `Ros_CtrlGroup_ConvertMotoUnitsToRosUnits`: the output is cleared, then
      each usable axis gets its pulse count scaled by its ratio. */
  function MotoUnitsToRos(t: AxisLayout, r: Ratios, pulses: seq<int>): (pos: JointVector)
    requires UsableRatios(t, r) && |pulses| == AxesNum
    ensures forall i :: 0 <= i < AxesNum && t[i] == Invalid ==> pos[i] == 0.0
    ensures forall i :: 0 <= i < AxesNum && t[i] != Invalid ==> pos[i] == ToUnits(pulses[i], Ratio(t, r, i))
  {
    seq(AxesNum, i requires 0 <= i < AxesNum =>
      if t[i] == Invalid then 0.0 else ToUnits(pulses[i], Ratio(t, r, i)))
  }

  /** `Ros_CtrlGroup_ConvertRosUnitsToMotoUnits`: the output is cleared, then
      each usable axis gets its value scaled back and truncated. */
  function RosUnitsToMoto(t: AxisLayout, r: Ratios, pos: JointVector): (pulses: seq<int>)
    requires WellFormedRatios(r)
    ensures |pulses| == AxesNum
    ensures forall i :: 0 <= i < AxesNum && t[i] == Invalid ==> pulses[i] == 0
    ensures forall i :: 0 <= i < AxesNum && t[i] != Invalid ==> pulses[i] == ToPulses(pos[i], Ratio(t, r, i))
  {
    seq(AxesNum, i requires 0 <= i < AxesNum =>
      if t[i] == Invalid then 0 else ToPulses(pos[i], Ratio(t, r, i)))
  }

  /** Scaling pulses to ROS units and back restores the pulses of every usable
      axis and zeroes the others. */
  lemma UnitsRoundTrip(t: AxisLayout, r: Ratios, pulses: seq<int>)
    requires UsableRatios(t, r) && |pulses| == AxesNum
    ensures forall i :: 0 <= i < AxesNum ==>
      RosUnitsToMoto(t, r, MotoUnitsToRos(t, r, pulses))[i] == (if t[i] == Invalid then 0 else pulses[i])
  {
    forall i | 0 <= i < AxesNum && t[i] != Invalid {
      ToPulsesToUnits(pulses[i], Ratio(t, r, i));
    }
  }

  /** `Ros_CtrlGroup_ConvertToRosPos`: scale, then reorder. */
  function ToRosPos(g: Group, r: Ratios, pulses: seq<int>, prev: JointVector): JointVector
    requires UsableRatios(g.axisType, r) && |pulses| == AxesNum
  {
    MotoToSequential(g, MotoUnitsToRos(g.axisType, r, pulses), prev)
  }

  /** `Ros_CtrlGroup_ConvertToMotoPos_FromSequentialOrdering`: reorder, then scale. */
  function ToMotoPos(g: Group, r: Ratios, pos: JointVector): seq<int>
    requires WellFormedRatios(r)
  {
    RosUnitsToMoto(g.axisType, r, SequentialToMoto(g, pos))
  }

  /** A feedback position reported to ROS and commanded back is the original
      pulse position on every usable axis the group keeps in both orders. */
  lemma PositionRoundTrip(g: Group, r: Ratios, pulses: seq<int>, prev: JointVector)
    requires UsableRatios(g.axisType, r) && |pulses| == AxesNum
    ensures forall j :: 0 <= j < AxesNum && KeptSlot(g, j) && g.axisType[j] != Invalid ==>
      ToMotoPos(g, r, ToRosPos(g, r, pulses, prev))[j] == pulses[j]
  {
    var t := g.axisType;
    var scaled := MotoUnitsToRos(t, r, pulses);
    MotoRoundTrip(g, scaled, prev);
    forall j | 0 <= j < AxesNum && KeptSlot(g, j) && t[j] != Invalid
      ensures ToMotoPos(g, r, ToRosPos(g, r, pulses, prev))[j] == pulses[j]
    {
      ToPulsesToUnits(pulses[j], Ratio(t, r, j));
    }
  }

  // ---------------------------------------------------------------------
  // Axis configuration bitmap (src/CtrlGroup.c:723-735)

  /** Bit `i` of an 8-bit mask. */
  predicate BitSet(b: bv8, i: int)
    requires 0 <= i < 8
  {
    (b >> i) & 1 == 1
  }

  /** `b | (0x01 << i)`: sets bit `i` and leaves the other bits as they were. */
  function WithBit(b: bv8, i: int): (r: bv8)
    requires 0 <= i < 8
    ensures forall k :: 0 <= k < 8 ==> (BitSet(r, k) <==> k == i || BitSet(b, k))
  {
    b | (1 << i)
  }

  /** `Ros_CtrlGroup_GetAxisConfig`: bit `i` is set for every usable axis. */
  method GetAxisConfig(t: AxisLayout) returns (config: bv8)
    ensures forall i :: 0 <= i < AxesNum ==> (BitSet(config, i) <==> t[i] != Invalid)
  {
    config := 0;
    var i := 0;
    while i < AxesNum
      invariant 0 <= i <= AxesNum
      invariant forall k :: 0 <= k < i ==> (BitSet(config, k) <==> t[k] != Invalid)
      invariant forall k :: i <= k < AxesNum ==> !BitSet(config, k)
    {
      if t[i] != Invalid {
        config := WithBit(config, i);
      }
      i := i + 1;
    }
  }

  // ---------------------------------------------------------------------
  // User-defined joint names (src/CtrlGroup.c:785-828)

  /** `strncpy(dst, src, MAX_JOINT_NAME_LENGTH)` into a joint-name slot. */
  function CopyJointName(name: string): (r: string)
    ensures |r| <= MaxJointNameLength && r <= name
    ensures |name| <= MaxJointNameLength ==> r == name
  {
    if |name| <= MaxJointNameLength then name else name[..MaxJointNameLength]
  }

  /** Where the name of the `k`-th usable axis of group `groupNo` sits in the
      configured table. */
  function NameIndex(groupNo: nat, k: nat): (n: nat)
    requires groupNo < MaxGroups && k < AxesNum
    ensures n < MaxGroups * AxesNum && n / AxesNum == groupNo && n % AxesNum == k
  {
    groupNo * AxesNum + k
  }

  /** `Ros_CtrlGroup_UpdateJointNamesInMotoOrder`. The configured names are one
      flat table of `MaxGroups * AxesNum` entries; group `groupNo` owns the
      entries from `groupNo * AxesNum`, one per usable axis in order. Usable
      axes get their name, unusable ones the empty string. An empty configured
      name is fatal: the result is the (0-based) axis index that raised it. */
  method UpdateJointNamesInMotoOrder(t: AxisLayout, groupNo: nat, configured: seq<string>)
    returns (r: Result<seq<string>, nat>)
    requires groupNo < MaxGroups && |configured| == MaxGroups * AxesNum
    ensures r.Success? ==> |r.value| == AxesNum
    ensures r.Success? ==> forall j :: 0 <= j < AxesNum ==>
      r.value[j] == (if t[j] == Invalid then "" else CopyJointName(configured[NameIndex(groupNo, Rank(t, j))]))
    ensures r.Success? <==> forall j :: 0 <= j < AxesNum && t[j] != Invalid ==> configured[NameIndex(groupNo, Rank(t, j))] != ""
    ensures r.Failure? ==>
      && r.error < AxesNum && t[r.error] != Invalid
      && configured[NameIndex(groupNo, Rank(t, r.error))] == ""
      && (forall j :: 0 <= j < r.error && t[j] != Invalid ==> configured[NameIndex(groupNo, Rank(t, j))] != "")
  {
    var names: seq<string> := seq(AxesNum, _ => "");
    var axis, configIndex := 0, 0;
    while axis < AxesNum
      invariant axis <= AxesNum && configIndex == Rank(t, axis) <= axis && |names| == AxesNum
      invariant forall j :: 0 <= j < axis ==>
        names[j] == (if t[j] == Invalid then "" else CopyJointName(configured[NameIndex(groupNo, Rank(t, j))]))
      invariant forall j :: 0 <= j < axis && t[j] != Invalid ==> configured[NameIndex(groupNo, Rank(t, j))] != ""
      invariant forall j :: axis <= j < AxesNum ==> names[j] == ""
    {
      if t[axis] != Invalid {
        var customNameIndex := NameIndex(groupNo, configIndex);
        if configured[customNameIndex] == "" {
          return Failure(axis);
        }
        names := names[axis := CopyJointName(configured[customNameIndex])];
        configIndex := configIndex + 1;
      }
      if t[axis] != Invalid {
        ValidBelowTake(t, axis);
      } else {
        ValidBelowSkip(t, axis);
      }
      axis := axis + 1;
    }
    return Success(names);
  }
}
