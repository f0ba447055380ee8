/** The controller status the firmware keeps (src/ControllerStatusIO.c): the
    specific-input snapshot, the predicates read off it, the readiness check
    that gates every motion, the change reactions of the periodic status
    update, and the alarm-code queries. Calls into the controller API
    (reading the inputs, reading the alarm list, asking for the master job)
    become parameters. */
module ControllerStatus {
  import opened Wrappers
  import opened ErrorHandling
  import CtrlGroup

  // ---------------------------------------------------------------------
  // The status snapshot

  /** Indices of `IoStatusIndex`. */
  const AlarmMajor: nat := 0
  const AlarmMinor: nat := 1
  const AlarmSystem: nat := 2
  const AlarmUser: nat := 3
  const ErrorIdx: nat := 4
  const Play: nat := 5
  const Teach: nat := 6
  const Remote: nat := 7
  const Operating: nat := 8
  const Hold: nat := 9
  const Servo: nat := 10
  const EStopEx: nat := 11
  const EStopPp: nat := 12
  const EStopCtrl: nat := 13
  const WaitingRos: nat := 14
  const InEcoMode: nat := 15
  const ContCycleMode: nat := 16
  const PflStop: nat := 17
  const PflEscape: nat := 18
  const PflAvoiding: nat := 19
  const PflAvoidJoint: nat := 20
  const PflAvoidTrans: nat := 21
  /** `IO_ROBOTSTATUS_MAX` */
  const IoCount: nat := 22

  type IoStatus = s: seq<int> | |s| == IoCount witness seq(22, _ => 0)

  /** The status part of the global `Controller`. */
  datatype Controller = Controller(
    io: IoStatus,
    alarmCode: int,
    pflEnabled: bool,
    pflDuringRosMove: bool,
    incMoveError: bool,
    prevAlarmState: bool)

  predicate IsAlarm(io: IoStatus)
  {
    io[AlarmMajor] != 0 || io[AlarmMinor] != 0 || io[AlarmSystem] != 0 || io[AlarmUser] != 0
  }
  predicate IsMajorAlarm(io: IoStatus) { io[AlarmMajor] != 0 }
  predicate IsError(io: IoStatus) { io[ErrorIdx] != 0 }
  predicate IsPlay(io: IoStatus) { io[Play] != 0 }
  predicate IsTeach(io: IoStatus) { io[Teach] != 0 }
  predicate IsRemote(io: IoStatus) { io[Remote] != 0 }
  predicate IsOperating(io: IoStatus) { io[Operating] != 0 }
  predicate IsHold(io: IoStatus) { io[Hold] != 0 }
  predicate IsEcoMode(io: IoStatus) { io[InEcoMode] != 0 }
  /** Servo power counts as on only outside energy-saving mode. */
  predicate IsServoOn(io: IoStatus) { io[Servo] != 0 && !IsEcoMode(io) }
  /** The three e-stop inputs are active-low: any one of them at 0 is an e-stop. */
  predicate IsEStop(io: IoStatus) { io[EStopEx] == 0 || io[EStopPp] == 0 || io[EStopCtrl] == 0 }
  predicate IsWaitingRos(io: IoStatus) { io[WaitingRos] != 0 }
  predicate IsContinuousCycle(io: IoStatus) { io[ContCycleMode] != 0 }

  /** The PFL inputs that mean a collaborative stop or escape is under way. */
  predicate PflSignals(io: IoStatus)
  {
    io[PflStop] != 0 || io[PflEscape] != 0
    || (io[PflAvoiding] != 0 && (io[PflAvoidJoint] != 0 || io[PflAvoidTrans] != 0))
  }

  /** `Ros_Controller_IsPflActive` (YRC1000 build). */
  predicate IsPflActive(io: IoStatus, pflEnabled: bool, pflDuringRosMove: bool)
  {
    pflEnabled && (pflDuringRosMove || PflSignals(io))
  }

  /** `Ros_Controller_IsAnyFaultActive` */
  predicate IsAnyFaultActive(c: Controller)
  {
    IsAlarm(c.io) || IsError(c.io) || c.incMoveError || IsPflActive(c.io, c.pflEnabled, c.pflDuringRosMove)
  }

  /** `Ros_Controller_IsValidGroupNo` */
  function IsValidGroupNo(numGroup: int, groupNo: int): (ok: bool)
    ensures ok <==> 0 <= groupNo < numGroup
    ensures ok ==> numGroup > 0
  {
    groupNo >= 0 && groupNo < numGroup
  }

  // ---------------------------------------------------------------------
  // Readiness (src/ControllerStatusIO.c:426-488)

  /** `Ros_Controller_GetNotReadySubcode` (production build, where the remote
      and servo checks are present). `masterRunsInformJob` stands for asking
      the controller whether the master task runs the configured job. */
  function GetNotReadySubcode(c: Controller, masterRunsInformJob: bool, ignoreTractable: bool): (code: NotReadyCode)
    ensures code != NotReadyUnspecified && code != NotReadyMajorAlarm
    ensures code != NotReadyOtherTrajModeActive && code != NotReadyEcoMode && code != NotReadyServoOnTimeout
  {
    var io := c.io;
    if IsEStop(io) then NotReadyEStop
    else if !IsPlay(io) then NotReadyNotPlay
    else if !IsRemote(io) then NotReadyNotRemote
    else if IsHold(io) then NotReadyHold
    else if IsAlarm(io) then NotReadyAlarm
    else if IsPflActive(io, c.pflEnabled, c.pflDuringRosMove) then NotReadyPflActive
    else if c.incMoveError then NotReadyIncMoveError
    else if IsError(io) then NotReadyError
    else if IsOperating(io) && !masterRunsInformJob then NotReadyOtherProgramRunning
    else if ignoreTractable then Ready
    else if !IsContinuousCycle(io) then NotReadyNotContCycleMode
    else if !IsServoOn(io) then NotReadyServoOff
    else if !IsOperating(io) then NotReadyNotStarted
    else if !IsWaitingRos(io) then NotReadyWaitingRos
    else Ready
  }

  /** A readiness condition that fails, with the code reported for it. */
  datatype Check = Check(fails: bool, code: NotReadyCode)

  /** The checks in the order the firmware reports them; the tractable ones
      (which starting a motion mode can fix) come last. */
  function Checks(c: Controller, masterRunsInformJob: bool, ignoreTractable: bool): seq<Check>
  {
    var io := c.io;
    [ Check(IsEStop(io), NotReadyEStop),
      Check(!IsPlay(io), NotReadyNotPlay),
      Check(!IsRemote(io), NotReadyNotRemote),
      Check(IsHold(io), NotReadyHold),
      Check(IsAlarm(io), NotReadyAlarm),
      Check(IsPflActive(io, c.pflEnabled, c.pflDuringRosMove), NotReadyPflActive),
      Check(c.incMoveError, NotReadyIncMoveError),
      Check(IsError(io), NotReadyError),
      Check(IsOperating(io) && !masterRunsInformJob, NotReadyOtherProgramRunning) ]
    + (if ignoreTractable then [] else
      [ Check(!IsContinuousCycle(io), NotReadyNotContCycleMode),
        Check(!IsServoOn(io), NotReadyServoOff),
        Check(!IsOperating(io), NotReadyNotStarted),
        Check(!IsWaitingRos(io), NotReadyWaitingRos) ])
  }

  /** The code of the first failing check, `Ready` when none fails. */
  function FirstFailure(cs: seq<Check>): (code: NotReadyCode)
  {
    if |cs| == 0 then Ready
    else if cs[0].fails then cs[0].code
    else FirstFailure(cs[1..])
  }

  /** `Ready` exactly when no check fails, provided no check reports `Ready`. */
  lemma {:induction false} FirstFailureReady(cs: seq<Check>)
    requires forall k :: 0 <= k < |cs| ==> cs[k].code != Ready
    ensures FirstFailure(cs) == Ready <==> forall k :: 0 <= k < |cs| ==> !cs[k].fails
  {
    if |cs| > 0 && !cs[0].fails {
      FirstFailureReady(cs[1..]);
      assert forall k :: 1 <= k < |cs| ==> cs[k] == cs[1..][k - 1];
    }
  }

  /** The reported code is the first failing check's. */
  lemma {:induction false} FirstFailureIsFirst(cs: seq<Check>, k: nat)
    requires k < |cs| && cs[k].fails
    requires forall j :: 0 <= j < k ==> !cs[j].fails
    ensures FirstFailure(cs) == cs[k].code
  {
    if k > 0 {
      FirstFailureIsFirst(cs[1..], k - 1);
    }
  }

  /** The if-chain of the firmware reports the first failing check. */
  lemma NotReadyIsFirstFailure(c: Controller, masterRunsInformJob: bool, ignoreTractable: bool)
    ensures GetNotReadySubcode(c, masterRunsInformJob, ignoreTractable)
      == FirstFailure(Checks(c, masterRunsInformJob, ignoreTractable))
  {
    var cs := Checks(c, masterRunsInformJob, ignoreTractable);
    var io := c.io;
    // walk the chain: the first condition that holds is the first failing check
    if IsEStop(io) { FirstFailureIsFirst(cs, 0); }
    else if !IsPlay(io) { FirstFailureIsFirst(cs, 1); }
    else if !IsRemote(io) { FirstFailureIsFirst(cs, 2); }
    else if IsHold(io) { FirstFailureIsFirst(cs, 3); }
    else if IsAlarm(io) { FirstFailureIsFirst(cs, 4); }
    else if IsPflActive(io, c.pflEnabled, c.pflDuringRosMove) { FirstFailureIsFirst(cs, 5); }
    else if c.incMoveError { FirstFailureIsFirst(cs, 6); }
    else if IsError(io) { FirstFailureIsFirst(cs, 7); }
    else if IsOperating(io) && !masterRunsInformJob { FirstFailureIsFirst(cs, 8); }
    else if ignoreTractable { FirstFailureReady(cs); }
    else if !IsContinuousCycle(io) { FirstFailureIsFirst(cs, 9); }
    else if !IsServoOn(io) { FirstFailureIsFirst(cs, 10); }
    else if !IsOperating(io) { FirstFailureIsFirst(cs, 11); }
    else if !IsWaitingRos(io) { FirstFailureIsFirst(cs, 12); }
    else { FirstFailureReady(cs); }
  }

  /** `Ros_Controller_IsMotionReady` */
  predicate IsMotionReady(c: Controller, masterRunsInformJob: bool)
  {
    GetNotReadySubcode(c, masterRunsInformJob, false) == Ready
  }

  /** Motion is ready exactly when every readiness condition holds. */
  lemma MotionReadyIff(c: Controller, masterRunsInformJob: bool)
    ensures IsMotionReady(c, masterRunsInformJob) <==>
      forall k :: 0 <= k < |Checks(c, masterRunsInformJob, false)| ==> !Checks(c, masterRunsInformJob, false)[k].fails
  {
    NotReadyIsFirstFailure(c, masterRunsInformJob, false);
    FirstFailureReady(Checks(c, masterRunsInformJob, false));
  }

  /** A ready controller has no fault, no e-stop, servo power on, and the
      job waiting for ROS commands in play and remote mode. */
  lemma ReadyMeansSafe(c: Controller, masterRunsInformJob: bool)
    requires IsMotionReady(c, masterRunsInformJob)
    ensures !IsAnyFaultActive(c) && !IsEStop(c.io) && !IsHold(c.io)
    ensures IsServoOn(c.io) && IsPlay(c.io) && IsRemote(c.io) && IsWaitingRos(c.io) && IsOperating(c.io)
  {
  }

  /** Ignoring the tractable problems only removes checks: readiness implies
      readiness with them ignored, and the tractable codes are never reported then. */
  lemma IgnoringTractable(c: Controller, masterRunsInformJob: bool)
    ensures IsMotionReady(c, masterRunsInformJob) ==> GetNotReadySubcode(c, masterRunsInformJob, true) == Ready
    ensures GetNotReadySubcode(c, masterRunsInformJob, true) !in
      {NotReadyNotContCycleMode, NotReadyServoOff, NotReadyNotStarted, NotReadyWaitingRos}
    ensures GetNotReadySubcode(c, masterRunsInformJob, true) != Ready ==>
      GetNotReadySubcode(c, masterRunsInformJob, false) == GetNotReadySubcode(c, masterRunsInformJob, true)
  {
  }

  // ---------------------------------------------------------------------
  // Alarm codes (src/ControllerStatusIO.c:741-782)

  /** The answer of the controller's alarm query. */
  datatype AlarmResponse = AlarmResponse(alarms: seq<nat>, errorNo: nat)

  /** `Ros_Controller_GetAlarmCode`; `None` is a failed query. */
  function GetAlarmCode(resp: Option<AlarmResponse>): (code: int)
    ensures resp.None? <==> code == -1
    ensures resp.Some? && |resp.value.alarms| > 0 ==> code == resp.value.alarms[0]
    ensures resp.Some? && |resp.value.alarms| == 0 ==> code == resp.value.errorNo
  {
    match resp
    case None => -1
    case Some(r) =>
      if |r.alarms| > 0 then r.alarms[0]
      else if r.errorNo > 0 then r.errorNo
      else 0
  }

  /** `Ros_Controller_GetActiveAlarmCodes`: the alarms, then the error if there
      is one. A failed query gives -1, more alarms than the output holds -2.
      `maxAlarmCount` stands for `MAX_ALARM_COUNT`, defined by the controller API. */
  function GetActiveAlarmCodes(resp: Option<AlarmResponse>, maxAlarmCount: nat): (r: Result<seq<nat>, int>)
    ensures resp.None? ==> r == Failure(-1)
    ensures resp.Some? && |resp.value.alarms| > maxAlarmCount ==> r == Failure(-2)
    ensures r.Success? ==> |r.value| <= maxAlarmCount + 1
    ensures r.Success? ==> |resp.value.alarms| <= |r.value|
    ensures r.Success? ==> r.value[..|resp.value.alarms|] == resp.value.alarms
    ensures r.Success? ==> (|r.value| > |resp.value.alarms| <==> resp.value.errorNo > 0)
    ensures r.Success? && resp.value.errorNo > 0 ==> r.value[|r.value| - 1] == resp.value.errorNo
  {
    match resp
    case None => Failure(-1)
    case Some(a) =>
      if |a.alarms| > maxAlarmCount then Failure(-2)
      else Success(a.alarms + (if a.errorNo > 0 then [a.errorNo] else []))
  }

  /** The single alarm code is the head of the active list, or 0 when the list is empty. */
  lemma AlarmCodeIsFirstActive(resp: Option<AlarmResponse>, maxAlarmCount: nat)
    requires GetActiveAlarmCodes(resp, maxAlarmCount).Success?
    ensures var codes := GetActiveAlarmCodes(resp, maxAlarmCount).value;
      GetAlarmCode(resp) == (if |codes| > 0 then codes[0] else 0)
  {
  }

  // ---------------------------------------------------------------------
  // The periodic status update (src/ControllerStatusIO.c:567-696)

  /** The snapshot while the update loop is at index `i`: entries up to and
      including `i` are the latest ones. */
  function Mixed(before: IoStatus, latest: IoStatus, i: nat): (io: IoStatus)
    requires i < IoCount
    ensures forall j :: 0 <= j <= i ==> io[j] == latest[j]
    ensures forall j :: i < j < IoCount ==> io[j] == before[j]
  {
    latest[..i + 1] + before[i + 1..]
  }

  predicate AlarmsClear(io: IoStatus)
  {
    io[AlarmMajor] == 0 && io[AlarmMinor] == 0 && io[AlarmSystem] == 0 && io[AlarmUser] == 0
  }

  /** One of the alarm inputs below `upto` changed. */
  predicate AlarmChangedBelow(before: IoStatus, latest: IoStatus, upto: nat)
  {
    exists j :: 0 <= j < upto && j <= AlarmUser && before[j] != latest[j]
  }

  predicate AlarmChanged(before: IoStatus, latest: IoStatus)
  {
    AlarmChangedBelow(before, latest, AlarmUser + 1)
  }

  /** All alarms went away after the controller had posted one: the pendant's
      reset, which also clears the firmware's own fault flags. */
  predicate AlarmReset(c: Controller, latest: IoStatus)
  {
    AlarmChanged(c.io, latest) && AlarmsClear(latest) && c.prevAlarmState
  }

  /** The PFL-during-move flag once the alarm inputs have been handled. */
  predicate PflAfterAlarms(c: Controller, latest: IoStatus)
  {
    c.pflDuringRosMove && !AlarmReset(c, latest)
  }

  /** A PFL input below `upto` changed while the job waited for ROS motion and
      PFL was active on the snapshot of that moment. */
  predicate PflTriggeredBelow(c: Controller, latest: IoStatus, upto: nat)
  {
    c.pflEnabled && latest[WaitingRos] != 0
    && (exists j :: PflStop <= j < upto && j <= PflAvoiding && c.io[j] != latest[j]
         && (PflAfterAlarms(c, latest) || PflSignals(Mixed(c.io, latest, j))))
  }

  predicate PflTriggered(c: Controller, latest: IoStatus)
  {
    PflTriggeredBelow(c, latest, PflAvoiding + 1)
  }

  /** Each reason the update empties every motion queue: a latest alarm, the job
      leaving its wait for ROS motion, or a PFL stop during ROS motion. */
  predicate MustClearQueues(c: Controller, latest: IoStatus)
  {
    (AlarmChanged(c.io, latest) && !AlarmsClear(latest))
    || (c.io[WaitingRos] != 0 && latest[WaitingRos] == 0)
    || PflTriggered(c, latest)
  }

  /** The controller after the update loop has handled the changed entries
      below `i`. */
  predicate UpdatedBelow(c: Controller, latest: IoStatus, alarmNow: int, i: nat, d: Controller, cleared: bool)
    requires i <= IoCount
  {
    && (forall j :: 0 <= j < IoCount ==> d.io[j] == if j < i then latest[j] else c.io[j])
    && d.pflEnabled == c.pflEnabled
    && (!AlarmChangedBelow(c.io, latest, i) ==>
         d.alarmCode == c.alarmCode && d.prevAlarmState == c.prevAlarmState && d.incMoveError == c.incMoveError)
    && (AlarmChangedBelow(c.io, latest, i) && AlarmsClear(latest) ==>
         d.alarmCode == 0 && !d.prevAlarmState && d.incMoveError == (c.incMoveError && !c.prevAlarmState))
    && (AlarmChangedBelow(c.io, latest, i) && !AlarmsClear(latest) ==>
         d.alarmCode == alarmNow && d.prevAlarmState && d.incMoveError == c.incMoveError)
    && d.pflDuringRosMove == ((c.pflDuringRosMove
                                && !(AlarmChangedBelow(c.io, latest, i) && AlarmsClear(latest) && c.prevAlarmState))
                              || PflTriggeredBelow(c, latest, i))
    && (cleared <==> (AlarmChangedBelow(c.io, latest, i) && !AlarmsClear(latest))
                     || (i > WaitingRos && c.io[WaitingRos] != 0 && latest[WaitingRos] == 0)
                     || PflTriggeredBelow(c, latest, i))
  }

  /** The reaction to one changed entry `i` (the switch of the update loop).
      The alarm case reads the new snapshot in full; the PFL case reads the
      controller's snapshot, updated only up to `i`. */
  function React(d: Controller, latest: IoStatus, alarmNow: int, i: nat): (r: (Controller, bool))
    requires i < IoCount
    ensures r.0.io == d.io && r.0.pflEnabled == d.pflEnabled
  {
    if i <= AlarmUser then
      if AlarmsClear(latest) then
        if d.prevAlarmState then (d.(alarmCode := 0, pflDuringRosMove := false, incMoveError := false, prevAlarmState := false), false)
        else (d.(alarmCode := 0), false)
      else (d.(alarmCode := alarmNow, prevAlarmState := true), true)
    else if i == WaitingRos then (d, latest[WaitingRos] == 0)
    else if PflStop <= i <= PflAvoiding then
      if d.pflEnabled && IsWaitingRos(d.io) && IsPflActive(d.io, d.pflEnabled, d.pflDuringRosMove) then
        (d.(pflDuringRosMove := true), true)
      else (d, false)
    else (d, false)
  }

  /** The update loop over the first `i` entries: each entry that differs is
      stored, then reacted to. */
  function Run(c: Controller, latest: IoStatus, alarmNow: int, i: nat): (r: (Controller, bool))
    requires i <= IoCount
  {
    if i == 0 then (c, false)
    else
      var p := Run(c, latest, alarmNow, i - 1);
      if p.0.io[i - 1] != latest[i - 1] then
        var r := React(p.0.(io := p.0.io[i - 1 := latest[i - 1]]), latest, alarmNow, i - 1);
        (r.0, p.1 || r.1)
      else p
  }

  /** `Ros_Controller_IoStatusUpdate` without the status publication: `read`
      is the input read (`None` when it fails, and then nothing changes),
      `alarmNow` the answer the alarm query would give. Returns whether the
      read succeeded, the new controller status, and whether the motion
      queues were cleared. */
  method IoStatusUpdate(c: Controller, read: Option<IoStatus>, alarmNow: int) returns (ok: bool, d: Controller, cleared: bool)
    ensures ok <==> read.Some?
    ensures !ok ==> d == c && !cleared
    ensures ok ==> d.io == read.value && d.pflEnabled == c.pflEnabled
    ensures ok ==> (cleared <==> MustClearQueues(c, read.value))
    ensures ok && !AlarmChanged(c.io, read.value) ==>
      d.alarmCode == c.alarmCode && d.prevAlarmState == c.prevAlarmState && d.incMoveError == c.incMoveError
    ensures ok && AlarmChanged(c.io, read.value) && AlarmsClear(read.value) ==>
      d.alarmCode == 0 && !d.prevAlarmState && d.incMoveError == (c.incMoveError && !c.prevAlarmState)
    ensures ok && AlarmChanged(c.io, read.value) && !AlarmsClear(read.value) ==>
      d.alarmCode == alarmNow && d.prevAlarmState && d.incMoveError == c.incMoveError
    ensures ok ==> d.pflDuringRosMove == (PflAfterAlarms(c, read.value) || PflTriggered(c, read.value))
  {
    if read.None? {
      return false, c, false;
    }
    var latest := read.value;
    d, cleared := c, false;
    var i := 0;
    while i < IoCount
      invariant 0 <= i <= IoCount
      invariant (d, cleared) == Run(c, latest, alarmNow, i)
    {
      if d.io[i] != latest[i] {
        var r := React(d.(io := d.io[i := latest[i]]), latest, alarmNow, i);
        d := r.0;
        cleared := cleared || r.1;
      }
      i := i + 1;
    }
    RunMeetsSpec(c, latest, alarmNow, IoCount);
    UpdateComplete(c, latest, alarmNow, d, cleared);
    ok := true;
  }

  lemma {:induction false} RunMeetsSpec(c: Controller, latest: IoStatus, alarmNow: int, i: nat)
    requires i <= IoCount
    ensures UpdatedBelow(c, latest, alarmNow, i, Run(c, latest, alarmNow, i).0, Run(c, latest, alarmNow, i).1)
  {
    if i > 0 {
      RunMeetsSpec(c, latest, alarmNow, i - 1);
      RunStep(c, latest, alarmNow, i - 1);
    }
  }

  /** One input of the loop keeps the loop's promise for the inputs seen so far. */
  lemma RunStep(c: Controller, latest: IoStatus, alarmNow: int, k: nat)
    requires k < IoCount
    requires UpdatedBelow(c, latest, alarmNow, k, Run(c, latest, alarmNow, k).0, Run(c, latest, alarmNow, k).1)
    ensures UpdatedBelow(c, latest, alarmNow, k + 1, Run(c, latest, alarmNow, k + 1).0, Run(c, latest, alarmNow, k + 1).1)
  {
    var p := Run(c, latest, alarmNow, k);
    if p.0.io[k] != latest[k] {
      var r := React(p.0.(io := p.0.io[k := latest[k]]), latest, alarmNow, k);
      assert Run(c, latest, alarmNow, k + 1) == (r.0, p.1 || r.1);
      ReactStep(c, latest, alarmNow, k, p.0, p.1);
    } else {
      assert Run(c, latest, alarmNow, k + 1) == p;
      StepUnchanged(c, latest, alarmNow, k, p.0, p.1);
    }
  }

  /** A changed input, whichever kind it is, keeps the loop's promise. */
  lemma ReactStep(c: Controller, latest: IoStatus, alarmNow: int, k: nat, d: Controller, cleared: bool)
    requires k < IoCount && UpdatedBelow(c, latest, alarmNow, k, d, cleared)
    requires d.io[k] != latest[k]
    ensures var r := React(d.(io := d.io[k := latest[k]]), latest, alarmNow, k);
      UpdatedBelow(c, latest, alarmNow, k + 1, r.0, cleared || r.1)
  {
    if k <= AlarmUser {
      StepAlarm(c, latest, alarmNow, k, d, cleared);
    } else if PflStop <= k <= PflAvoiding {
      StepPfl(c, latest, alarmNow, k, d, cleared);
    } else {
      StepOther(c, latest, alarmNow, k, d, cleared);
    }
  }

  lemma UpdateComplete(c: Controller, latest: IoStatus, alarmNow: int, d: Controller, cleared: bool)
    requires UpdatedBelow(c, latest, alarmNow, IoCount, d, cleared)
    ensures d.io == latest && d.pflEnabled == c.pflEnabled
    ensures cleared <==> MustClearQueues(c, latest)
    ensures !AlarmChanged(c.io, latest) ==>
      d.alarmCode == c.alarmCode && d.prevAlarmState == c.prevAlarmState && d.incMoveError == c.incMoveError
    ensures AlarmChanged(c.io, latest) && AlarmsClear(latest) ==>
      d.alarmCode == 0 && !d.prevAlarmState && d.incMoveError == (c.incMoveError && !c.prevAlarmState)
    ensures AlarmChanged(c.io, latest) && !AlarmsClear(latest) ==>
      d.alarmCode == alarmNow && d.prevAlarmState && d.incMoveError == c.incMoveError
    ensures d.pflDuringRosMove == (PflAfterAlarms(c, latest) || PflTriggered(c, latest))
  {
    AlarmChangedAbove(c.io, latest, IoCount);
    PflTriggerAbove(c, latest, IoCount);
  }

  /** Past the alarm inputs, "an alarm input below `i` changed" is "an alarm input changed". */
  lemma AlarmChangedAbove(before: IoStatus, latest: IoStatus, i: nat)
    requires i > AlarmUser
    ensures AlarmChangedBelow(before, latest, i) == AlarmChanged(before, latest)
  {
    if AlarmChangedBelow(before, latest, i) {
      var j :| 0 <= j < i && j <= AlarmUser && before[j] != latest[j];
      assert 0 <= j < AlarmUser + 1;
    }
  }

  /** Outside the PFL inputs nothing can trigger. */
  lemma PflTriggerAbove(c: Controller, latest: IoStatus, i: nat)
    requires i > PflAvoiding
    ensures PflTriggeredBelow(c, latest, i) == PflTriggered(c, latest)
  {
    if PflTriggeredBelow(c, latest, i) {
      var j :| PflStop <= j < i && j <= PflAvoiding && c.io[j] != latest[j]
        && (PflAfterAlarms(c, latest) || PflSignals(Mixed(c.io, latest, j)));
      assert PflStop <= j < PflAvoiding + 1;
    }
  }

  lemma PflTriggerStable(c: Controller, latest: IoStatus, i: nat)
    requires i < PflStop || i > PflAvoiding
    ensures PflTriggeredBelow(c, latest, i + 1) == PflTriggeredBelow(c, latest, i)
  {
    if PflTriggeredBelow(c, latest, i + 1) {
      var j :| PflStop <= j < i + 1 && j <= PflAvoiding && c.io[j] != latest[j]
        && (PflAfterAlarms(c, latest) || PflSignals(Mixed(c.io, latest, j)));
      assert j < i;
    }
  }

  lemma AlarmStable(before: IoStatus, latest: IoStatus, i: nat)
    requires i > AlarmUser
    ensures AlarmChangedBelow(before, latest, i + 1) == AlarmChangedBelow(before, latest, i)
  {
    AlarmChangedAbove(before, latest, i);
    AlarmChangedAbove(before, latest, i + 1);
  }

  lemma StepUnchanged(c: Controller, latest: IoStatus, alarmNow: int, i: nat, d: Controller, cleared: bool)
    requires i < IoCount && UpdatedBelow(c, latest, alarmNow, i, d, cleared)
    requires d.io[i] == latest[i]
    ensures UpdatedBelow(c, latest, alarmNow, i + 1, d, cleared)
  {
    assert c.io[i] == latest[i];
    UnchangedBelow(c, latest, i);
  }

  /** An entry that did not change adds no alarm change and no PFL trigger. */
  lemma UnchangedBelow(c: Controller, latest: IoStatus, i: nat)
    requires i < IoCount && c.io[i] == latest[i]
    ensures AlarmChangedBelow(c.io, latest, i + 1) == AlarmChangedBelow(c.io, latest, i)
    ensures PflTriggeredBelow(c, latest, i + 1) == PflTriggeredBelow(c, latest, i)
  {
    if AlarmChangedBelow(c.io, latest, i + 1) {
      var j :| 0 <= j < i + 1 && j <= AlarmUser && c.io[j] != latest[j];
      assert j < i;
    }
    if PflTriggeredBelow(c, latest, i + 1) {
      var j :| PflStop <= j < i + 1 && j <= PflAvoiding && c.io[j] != latest[j]
        && (PflAfterAlarms(c, latest) || PflSignals(Mixed(c.io, latest, j)));
      assert j < i;
    }
  }

  lemma StepAlarm(c: Controller, latest: IoStatus, alarmNow: int, i: nat, d: Controller, cleared: bool)
    requires i <= AlarmUser && UpdatedBelow(c, latest, alarmNow, i, d, cleared)
    requires d.io[i] != latest[i]
    ensures var r := React(d.(io := d.io[i := latest[i]]), latest, alarmNow, i);
      UpdatedBelow(c, latest, alarmNow, i + 1, r.0, cleared || r.1)
  {
    assert c.io[i] != latest[i];
    assert AlarmChangedBelow(c.io, latest, i + 1);
    assert !PflTriggeredBelow(c, latest, i) && !PflTriggeredBelow(c, latest, i + 1);
  }

  lemma StepOther(c: Controller, latest: IoStatus, alarmNow: int, i: nat, d: Controller, cleared: bool)
    requires AlarmUser < i < IoCount && !(PflStop <= i <= PflAvoiding)
    requires UpdatedBelow(c, latest, alarmNow, i, d, cleared)
    requires d.io[i] != latest[i]
    ensures var r := React(d.(io := d.io[i := latest[i]]), latest, alarmNow, i);
      UpdatedBelow(c, latest, alarmNow, i + 1, r.0, cleared || r.1)
  {
    assert c.io[i] != latest[i];
    AlarmStable(c.io, latest, i);
    PflTriggerStable(c, latest, i);
  }

  lemma StepPfl(c: Controller, latest: IoStatus, alarmNow: int, i: nat, d: Controller, cleared: bool)
    requires PflStop <= i <= PflAvoiding
    requires UpdatedBelow(c, latest, alarmNow, i, d, cleared)
    requires d.io[i] != latest[i]
    ensures var r := React(d.(io := d.io[i := latest[i]]), latest, alarmNow, i);
      UpdatedBelow(c, latest, alarmNow, i + 1, r.0, cleared || r.1)
  {
    assert c.io[i] != latest[i];
    AlarmStable(c.io, latest, i);
    AlarmChangedAbove(c.io, latest, i);
    var io' := d.io[i := latest[i]];
    assert io' == Mixed(c.io, latest, i);
    var fires := c.pflEnabled && latest[WaitingRos] != 0
      && (PflAfterAlarms(c, latest) || PflTriggeredBelow(c, latest, i) || PflSignals(Mixed(c.io, latest, i)));
    if fires {
      PflFires(c, latest, i);
    } else {
      PflQuiet(c, latest, i);
    }
  }

  lemma PflFires(c: Controller, latest: IoStatus, i: nat)
    requires PflStop <= i <= PflAvoiding && c.io[i] != latest[i]
    requires c.pflEnabled && latest[WaitingRos] != 0
    requires PflAfterAlarms(c, latest) || PflTriggeredBelow(c, latest, i) || PflSignals(Mixed(c.io, latest, i))
    ensures PflTriggeredBelow(c, latest, i + 1)
  {
    if PflTriggeredBelow(c, latest, i) {
      var j :| PflStop <= j < i && j <= PflAvoiding && c.io[j] != latest[j]
        && (PflAfterAlarms(c, latest) || PflSignals(Mixed(c.io, latest, j)));
      assert j < i + 1;
    } else {
      assert PflStop <= i < i + 1 && i <= PflAvoiding && c.io[i] != latest[i];
    }
  }

  lemma PflQuiet(c: Controller, latest: IoStatus, i: nat)
    requires PflStop <= i <= PflAvoiding && c.io[i] != latest[i]
    requires !(c.pflEnabled && latest[WaitingRos] != 0
      && (PflAfterAlarms(c, latest) || PflTriggeredBelow(c, latest, i) || PflSignals(Mixed(c.io, latest, i))))
    ensures !PflTriggeredBelow(c, latest, i + 1) && !PflTriggeredBelow(c, latest, i)
  {
  }

  /** Once PFL has stopped a ROS motion, only a pendant reset of a posted alarm
      takes the flag back: the update on its own never drops it. */
  lemma PflFlagSticks(c: Controller, latest: IoStatus)
    requires c.pflDuringRosMove && !AlarmReset(c, latest)
    ensures PflAfterAlarms(c, latest) || PflTriggered(c, latest)
  {
  }

  // ---------------------------------------------------------------------
  // Calibration warning (src/ControllerStatusIO.c:835-861)

  function RobotsOrStations(groups: seq<CtrlGroup.Group>): nat
  {
    if |groups| == 0 then 0
    else
      var last := groups[|groups| - 1];
      RobotsOrStations(groups[..|groups| - 1]) + (if CtrlGroup.IsRobot(last) || CtrlGroup.IsStation(last) then 1 else 0)
  }

  /** `Ros_Controller_ShouldWarnNoCalibDataLoaded`: warn when more than one
      group is a robot or a station, TF broadcasting is on, and no calibration
      file loaded. */
  method ShouldWarnNoCalibDataLoaded(groups: seq<CtrlGroup.Group>, calibLoadedOk: bool, publishTfEnabled: bool)
    returns (warn: bool)
    ensures warn <==> RobotsOrStations(groups) > 1 && publishTfEnabled && !calibLoadedOk
  {
    var n := 0;
    var i := 0;
    while i < |groups|
      invariant 0 <= i <= |groups|
      invariant n == RobotsOrStations(groups[..i])
    {
      assert groups[..i + 1][..i] == groups[..i];
      if CtrlGroup.IsRobot(groups[i]) || CtrlGroup.IsStation(groups[i]) {
        n := n + 1;
      }
      i := i + 1;
    }
    assert groups[..|groups|] == groups;
    warn := n > 1 && publishTfEnabled && !calibLoadedOk;
  }

  /** Base-axis groups never count towards the warning. */
  lemma {:induction false} BaseGroupsIgnored(groups: seq<CtrlGroup.Group>, b: CtrlGroup.Group)
    requires CtrlGroup.IsBase(b)
    ensures RobotsOrStations(groups + [b]) == RobotsOrStations(groups)
  {
    assert (groups + [b])[..|groups|] == groups;
  }

  /** A single robot with any number of base groups is never warned about. */
  lemma {:induction false} SingleRobotNoWarning(groups: seq<CtrlGroup.Group>)
    requires forall k :: 0 <= k < |groups| ==> CtrlGroup.IsBase(groups[k]) || k == 0
    ensures RobotsOrStations(groups) <= 1
    decreases |groups|
  {
    if |groups| > 1 {
      SingleRobotNoWarning(groups[..|groups| - 1]);
      assert CtrlGroup.IsBase(groups[|groups| - 1]);
      CtrlGroup.GroupKindsPartition(groups[|groups| - 1]);
    }
  }
}
