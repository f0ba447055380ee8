/** The FollowJointTrajectory action server: which goals are rejected and why,
    how outcomes are encoded into a single error code, and which pending
    result the server sends next (src/ActionServer_FJT.c). Controller reads,
    the interpolation and the micro-ROS calls are parameters. */
module ActionServerFjt {
  import opened Wrappers
  import opened TimeConversion
  import ErrorHandling
  import MotionControl

  // ---------------------------------------------------------------------
  // Result error codes (src/ActionServer_FJT.c:46)

  /** `control_msgs/FollowJointTrajectory` result codes used by the server. */
  const Successful: int := 0
  const InvalidGoal: int := -1
  const GoalToleranceViolated: int := -5

  /** The factor by which `RESULT_REPONSE_ERROR_CODE` shifts the ROS code. */
  const CodeBase: int := 100000

  /** `Failed_Trajectory_Status` values. */
  const FailTrajCancel: int := 300
  const FailTrajPosition: int := 301
  const FailTrajTime: int := 302
  const FailTrajAlarm: int := 303

  /** A ROS code and a Motoman code that fit side by side in one error code. */
  predicate Encodable(rosCode: int, motoCode: int)
  {
    rosCode <= 0 && 0 <= motoCode < CodeBase
  }

  /** `RESULT_REPONSE_ERROR_CODE(rosCode, motomanCode)`. */
  function ErrorCode(rosCode: int, motoCode: int): (e: int)
    ensures Encodable(rosCode, motoCode) ==>
              rosCode * CodeBase - CodeBase < e <= rosCode * CodeBase
  {
    rosCode * CodeBase - motoCode
  }

  /** Splits an error code back into its ROS part and its Motoman part, with
      the C truncating division a client written in C would use. */
  function DecodeErrorCode(e: int): (r: (int, int))
    ensures e <= 0 ==> Encodable(r.0, r.1)
  {
    (CDiv(e, CodeBase), -CMod(e, CodeBase))
  }

  lemma ErrorCodeRoundTrip(rosCode: int, motoCode: int)
    requires Encodable(rosCode, motoCode)
    ensures ErrorCode(rosCode, motoCode) <= 0
    ensures DecodeErrorCode(ErrorCode(rosCode, motoCode)) == (rosCode, motoCode)
  {
    var e := ErrorCode(rosCode, motoCode);
    var n := -e;
    assert n == (-rosCode) * CodeBase + motoCode;
    assert n / CodeBase == -rosCode && n % CodeBase == motoCode by {
      LemmaDivModUnique(n, -rosCode, motoCode);
    }
  }

  lemma DecodeErrorCodeRoundTrip(e: int)
    requires e <= 0
    ensures ErrorCode(DecodeErrorCode(e).0, DecodeErrorCode(e).1) == e
  {
  }

  /** Distinct (ROS, Motoman) pairs give distinct error codes. */
  lemma ErrorCodeInjective(r1: int, m1: int, r2: int, m2: int)
    requires Encodable(r1, m1) && Encodable(r2, m2)
    requires ErrorCode(r1, m1) == ErrorCode(r2, m2)
    ensures r1 == r2 && m1 == m2
  {
    ErrorCodeRoundTrip(r1, m1);
    ErrorCodeRoundTrip(r2, m2);
  }

  lemma LemmaDivModUnique(n: int, q: int, r: int)
    requires q >= 0 && 0 <= r < CodeBase && n == q * CodeBase + r
    ensures n / CodeBase == q && n % CodeBase == r
  {
  }

  /** The named `FAIL_TRAJ_*` constants are the values the enumeration resolves to. */
  lemma FailTrajConstantsResolve()
    ensures ErrorHandling.Resolve(ErrorHandling.FailedTrajectoryStatus.enumerators)
              == [FailTrajCancel, FailTrajPosition, FailTrajTime, FailTrajAlarm, 304]
  {
    ErrorHandling.FailTrajValues();
  }

  // ---------------------------------------------------------------------
  // Server state (src/ActionServer_FJT.c:37-44, 55-62)

  /** `rcl_action_goal_state_t` */
  datatype GoalStatus = Unknown | Accepted | Executing | Canceling | Succeeded | Canceled | Aborted

  /** The status and error code of `fjt_result_response`. */
  datatype ResultResponse = ResultResponse(status: GoalStatus, errorCode: int)

  /** The module's globals. Goal handles are identified by number. */
  datatype FjtState = FjtState(
    active: Option<nat>,
    rejected: Option<nat>,
    response: ResultResponse,
    goalState: GoalStatus,
    resultReady: bool,
    startTimeNs: int)

  /** `Ros_ActionServer_FJT_Initialize`: no handle, no result pending, and the
      zero-initialised response. */
  function Initial(): (s: FjtState)
    ensures s.active.None? && s.rejected.None? && !s.resultReady
  {
    FjtState(None, None, ResultResponse(Unknown, 0), Unknown, false, 0)
  }

  // ---------------------------------------------------------------------
  // Goal_Received (src/ActionServer_FJT.c:170-340)

  /** Why a goal was turned down. The Motoman code reported for it is the
      value of the corresponding interface enumerator. */
  datatype Reason =
    | TooBig
    | NotReady(code: ErrorHandling.NotReadyCode)
    | WrongMode
    | InitFailed(status: MotionControl.InitStatus)

  /** What the controller and motion control report while a goal is received:
      - `modeOk`: trajectory mode is active;
      - `readyBefore`: motion readiness on arrival;
      - `eco`: the energy-saving function is on;
      - `restartCode`: what the StartTrajMode service returned, if it is called;
      - `readyAfter`: readiness re-read after a successful restart;
      - `subcode`: what the not-ready subcode query returns;
      - `initStatus`: what `Ros_MotionControl_InitTrajectory` returns, if called. */
  datatype GoalChecks = GoalChecks(
    pointCount: nat,
    modeOk: bool,
    readyBefore: bool,
    eco: bool,
    restartCode: ErrorHandling.NotReadyCode,
    readyAfter: bool,
    subcode: ErrorHandling.NotReadyCode,
    initStatus: MotionControl.InitStatus)

  predicate SizeOk(g: GoalChecks)
  {
    g.pointCount <= MotionControl.MaxPointsPerTrajectory
  }

  /** Whether the eco-mode restart is attempted. */
  predicate RestartAttempted(g: GoalChecks)
  {
    g.modeOk && SizeOk(g) && !g.readyBefore && g.eco
  }

  /** Readiness after the optional restart: it changes only when a restart was
      attempted and reported `MOTION_READY`. */
  function Ready(g: GoalChecks): (ready: bool)
    ensures !RestartAttempted(g) ==> ready == g.readyBefore
    ensures ready ==> g.readyBefore || (RestartAttempted(g) && g.restartCode.Ready? && g.readyAfter)
  {
    if RestartAttempted(g) && g.restartCode.Ready? then g.readyAfter else g.readyBefore
  }

  /** The trajectory is initialised only when size, readiness and mode pass. */
  predicate InitCalled(g: GoalChecks)
  {
    SizeOk(g) && Ready(g) && g.modeOk
  }

  /** The rejection reason, `None` for an accepted goal. */
  function Rejection(g: GoalChecks): (r: Option<Reason>)
    ensures r.None? <==> InitCalled(g) && g.initStatus.InitOk?
    ensures r == Some(TooBig) <==> !SizeOk(g)
    ensures (r.Some? && r.value.NotReady?) <==> SizeOk(g) && !Ready(g)
    ensures r == Some(WrongMode) <==> SizeOk(g) && Ready(g) && !g.modeOk
    ensures (r.Some? && r.value.InitFailed?) <==> InitCalled(g) && !g.initStatus.InitOk?
    ensures r.Some? && r.value.NotReady? ==> r.value.code == g.subcode
    ensures r.Some? && r.value.InitFailed? ==> r.value.status == g.initStatus
  {
    if !SizeOk(g) then Some(TooBig)
    else if !Ready(g) then Some(NotReady(g.subcode))
    else if !g.modeOk then Some(WrongMode)
    else if !g.initStatus.InitOk? then Some(InitFailed(g.initStatus))
    else None
  }

  /** An oversized goal is reported as too big whatever else is wrong with it. */
  lemma TooBigDominates(g: GoalChecks, h: GoalChecks)
    requires !SizeOk(g) && h.pointCount == g.pointCount
    ensures Rejection(g) == Rejection(h) == Some(TooBig)
  {
  }

  /** A goal whose trajectory mode is off is never initialised, so a rejection
      it receives is never an initialisation status. */
  lemma WrongModeNeverInitialises(g: GoalChecks)
    requires !g.modeOk
    ensures !InitCalled(g)
    ensures Rejection(g).Some? && !Rejection(g).value.InitFailed?
  {
  }

  /** `Ros_ActionServer_FJT_Goal_Received`. The C function always answers
      `RCL_RET_ACTION_GOAL_ACCEPTED`; the verdict lives in the state: an
      accepted goal becomes the active handle, a rejected one becomes the
      rejected handle with an aborted result ready to send. `codeOf` gives the
      interface value of each reason and `nowNs` the clock. */
  function GoalReceived(s: FjtState, handle: nat, g: GoalChecks, codeOf: Reason -> int, nowNs: int): (r: FjtState)
    ensures Rejection(g).None? ==>
              r.active == Some(handle) && r.startTimeNs == nowNs
              && r.rejected == s.rejected && r.response == s.response
              && r.goalState == s.goalState && r.resultReady == s.resultReady
    ensures Rejection(g).Some? ==>
              r.rejected == Some(handle) && r.resultReady
              && r.response.status == Aborted
              && r.response.errorCode == ErrorCode(InvalidGoal, codeOf(Rejection(g).value))
              && r.active == s.active && r.goalState == s.goalState && r.startTimeNs == s.startTimeNs
  {
    match Rejection(g)
    case None => s.(active := Some(handle), startTimeNs := nowNs)
    case Some(reason) =>
      s.(rejected := Some(handle),
         response := ResultResponse(Aborted, ErrorCode(InvalidGoal, codeOf(reason))),
         resultReady := true)
  }

  // ---------------------------------------------------------------------
  // Goal_Complete (src/ActionServer_FJT.c:486-590)

  datatype EndType = Complete | Cancel | AbortDueToError

  /** `DEFAULT_FJT_GOAL_POSITION_TOLERANCE` */
  const DefaultPositionTolerance: real := 0.01

  /** `DEFAULT_FJT_GOAL_TIME_TOLERANCE` in nanoseconds. */
  const DefaultTimeToleranceNs: int := 500000000

  /** The tolerance a goal asks for, with zero meaning "use the default". */
  function EffectiveTimeTolerance(requestedNs: int): (t: int)
    ensures requestedNs == 0 ==> t == DefaultTimeToleranceNs
    ensures requestedNs != 0 ==> t == requestedNs
  {
    if requestedNs == 0 then DefaultTimeToleranceNs else requestedNs
  }

  function EffectivePositionTolerance(requested: real): (t: real)
    ensures requested == 0.0 ==> t == DefaultPositionTolerance
    ensures requested != 0.0 ==> t == requested
  {
    if requested == 0.0 then DefaultPositionTolerance else requested
  }

  function AbsInt(x: int): (a: int)
    ensures a >= 0 && (a == x || a == -x)
  {
    if x < 0 then -x else x
  }

  function AbsReal(x: real): (a: real)
    ensures a >= 0.0 && (a == x || a == -x)
  {
    if x < 0.0 then -x else x
  }

  /** The position check over all `maxAxes` slots: no axis deviates from its
      target by more than its (effective) tolerance. */
  predicate PositionOk(desired: seq<real>, actual: seq<real>, tolerance: seq<real>)
    requires |desired| == |actual| == |tolerance|
  {
    forall a :: 0 <= a < |desired| ==>
      AbsReal(desired[a] - actual[a]) <= EffectivePositionTolerance(tolerance[a])
  }

  /** The time check with the difference taken exactly. */
  predicate TimeOk(desiredNs: int, totalNs: int, requestedNs: int)
  {
    AbsInt(desiredNs - totalNs) <= EffectiveTimeTolerance(requestedNs)
  }

  /** C `abs` on a 32-bit `int`: the magnitude, except that `INT_MIN` has
      none and comes back unchanged on two's-complement targets. */
  function CAbs32(x: Int32): (a: Int32)
    ensures x != Int32Min ==> a == AbsInt(x)
    ensures x == Int32Min ==> a < 0
  {
    if x == Int32Min then x else AbsInt(x)
  }

  /** The time check as written: the 64-bit difference goes through `abs`,
      whose parameter is a 32-bit `int`, so it is wrapped first. */
  predicate TimeOkAsWritten(desiredNs: int, totalNs: int, requestedNs: int)
  {
    CAbs32(WrapI32(desiredNs - totalNs)) <= EffectiveTimeTolerance(requestedNs)
  }

  /** A trajectory that ran 2^32 ns (about 4.3 s) longer than planned passes the
      time check as written, while the exact check rejects it. */
  lemma TimeCheckWraps()
    ensures TimeOkAsWritten(1000000000, 1000000000 + 0x1_0000_0000, 0)
    ensures !TimeOk(1000000000, 1000000000 + 0x1_0000_0000, 0)
  {
    assert WrapI32(-0x1_0000_0000) == 0;
  }

  /** An overrun of exactly 2^31 ns (its difference is `INT_MIN`) passes as
      written under any tolerance that is not negative, since its `abs` stays
      negative; the exact check refuses it under the default tolerance. */
  lemma TimeCheckMinInt(desiredNs: int, requestedNs: int)
    requires requestedNs >= 0
    ensures TimeOkAsWritten(desiredNs, desiredNs + 0x8000_0000, requestedNs)
    ensures !TimeOk(desiredNs, desiredNs + 0x8000_0000, 0)
  {
    assert WrapI32(-0x8000_0000) == Int32Min;
  }

  /** Both checks agree whenever the difference fits a 32-bit `int` and is
      not `INT_MIN`. */
  lemma TimeChecksAgreeIn32Bits(desiredNs: int, totalNs: int, requestedNs: int)
    requires Int32Min < desiredNs - totalNs <= Int32Max
    ensures TimeOkAsWritten(desiredNs, totalNs, requestedNs) == TimeOk(desiredNs, totalNs, requestedNs)
  {
  }

  /** What the completion check measured. */
  datatype Measured = Measured(
    desired: seq<real>,
    actual: seq<real>,
    positionTolerance: seq<real>,
    lastPointTime: Duration,
    goalTimeTolerance: Duration,
    totalNs: int)

  predicate WellSized(m: Measured)
  {
    |m.desired| == |m.actual| == |m.positionTolerance|
  }

  predicate Reached(m: Measured)
    requires WellSized(m)
  {
    PositionOk(m.desired, m.actual, m.positionTolerance)
  }

  /** The time check of the completion, as written. */
  predicate OnTimeAsWritten(m: Measured)
  {
    TimeOkAsWritten(DurationToNanos(m.lastPointTime), m.totalNs, DurationToNanos(m.goalTimeTolerance))
  }

  /** The time check of the completion, with the difference taken exactly. */
  predicate OnTime(m: Measured)
  {
    TimeOk(DurationToNanos(m.lastPointTime), m.totalNs, DurationToNanos(m.goalTimeTolerance))
  }

  /** The response an ending produces, given the outcome of the two checks. */
  function EndResponse(end: EndType, reached: bool, onTime: bool): ResultResponse
  {
    match end
    case Complete =>
      if reached && onTime then ResultResponse(Succeeded, Successful)
      else if !reached then ResultResponse(Aborted, ErrorCode(GoalToleranceViolated, FailTrajPosition))
      else ResultResponse(Aborted, ErrorCode(GoalToleranceViolated, FailTrajTime))
    case Cancel => ResultResponse(Canceled, ErrorCode(GoalToleranceViolated, FailTrajCancel))
    case AbortDueToError => ResultResponse(Aborted, ErrorCode(InvalidGoal, FailTrajAlarm))
  }

  /** `Ros_ActionServer_FJT_Goal_Complete`, with the time check as written.
      Every end leaves the handles alone and marks a result ready. */
  function GoalComplete(s: FjtState, end: EndType, m: Measured): (r: FjtState)
    requires WellSized(m)
    ensures r.active == s.active && r.rejected == s.rejected && r.startTimeNs == s.startTimeNs
    ensures r.resultReady && r.response.status == r.goalState
    ensures end == Complete ==> (r.goalState == Succeeded <==> Reached(m) && OnTimeAsWritten(m))
    ensures end == Complete && Reached(m) && OnTimeAsWritten(m) ==> r.response.errorCode == Successful
    ensures end == Complete && !Reached(m) ==>
              r.goalState == Aborted && r.response.errorCode == ErrorCode(GoalToleranceViolated, FailTrajPosition)
    ensures end == Complete && Reached(m) && !OnTimeAsWritten(m) ==>
              r.goalState == Aborted && r.response.errorCode == ErrorCode(GoalToleranceViolated, FailTrajTime)
    ensures end == Cancel ==>
              r.goalState == Canceled && r.response.errorCode == ErrorCode(GoalToleranceViolated, FailTrajCancel)
    ensures end == AbortDueToError ==>
              r.goalState == Aborted && r.response.errorCode == ErrorCode(InvalidGoal, FailTrajAlarm)
  {
    var response := EndResponse(end, Reached(m), OnTimeAsWritten(m));
    s.(response := response, goalState := response.status, resultReady := true)
  }

  /** The completion with the exact time check: a trajectory is on time only
      when its duration is within tolerance of the planned one. */
  function GoalCompleteExact(s: FjtState, end: EndType, m: Measured): (r: FjtState)
    requires WellSized(m)
    ensures r.active == s.active && r.rejected == s.rejected && r.resultReady
    ensures end == Complete ==> (r.goalState == Succeeded <==> Reached(m) && OnTime(m))
    ensures end == Complete && Reached(m) && !OnTime(m) ==>
              r.goalState == Aborted && r.response.errorCode == ErrorCode(GoalToleranceViolated, FailTrajTime)
  {
    var response := EndResponse(end, Reached(m), OnTime(m));
    s.(response := response, goalState := response.status, resultReady := true)
  }

  /** The two completions differ only through the time check: they agree
      whenever the time difference fits a 32-bit `int`. */
  lemma CompletionsAgreeIn32Bits(s: FjtState, end: EndType, m: Measured)
    requires WellSized(m)
    requires Int32Min < DurationToNanos(m.lastPointTime) - m.totalNs <= Int32Max
    ensures GoalComplete(s, end, m) == GoalCompleteExact(s, end, m)
  {
    TimeChecksAgreeIn32Bits(DurationToNanos(m.lastPointTime), m.totalNs, DurationToNanos(m.goalTimeTolerance));
  }

  /** A client can tell every ending apart from the error code alone: success is
      code 0, and each failure decodes to its ROS code and `FAIL_TRAJ_*` cause. */
  lemma EndingsDecode(s: FjtState, end: EndType, m: Measured)
    requires WellSized(m)
    ensures var r := GoalComplete(s, end, m);
            (r.response.errorCode == Successful <==> r.goalState == Succeeded)
            && (end == Complete && !Reached(m) ==>
                  DecodeErrorCode(r.response.errorCode) == (GoalToleranceViolated, FailTrajPosition))
            && (end == Complete && Reached(m) && !OnTimeAsWritten(m) ==>
                  DecodeErrorCode(r.response.errorCode) == (GoalToleranceViolated, FailTrajTime))
            && (end == Cancel ==>
                  DecodeErrorCode(r.response.errorCode) == (GoalToleranceViolated, FailTrajCancel))
            && (end == AbortDueToError ==>
                  DecodeErrorCode(r.response.errorCode) == (InvalidGoal, FailTrajAlarm))
  {
    ErrorCodeRoundTrip(GoalToleranceViolated, FailTrajPosition);
    ErrorCodeRoundTrip(GoalToleranceViolated, FailTrajTime);
    ErrorCodeRoundTrip(GoalToleranceViolated, FailTrajCancel);
    ErrorCodeRoundTrip(InvalidGoal, FailTrajAlarm);
  }

  // ---------------------------------------------------------------------
  // ProcessResult (src/ActionServer_FJT.c:644-669)

  /** One call of `rclc_action_send_result`. */
  datatype Send = Send(handle: nat, state: GoalStatus, response: ResultResponse)

  /** `Ros_ActionServer_FJT_ProcessResult`: the send it attempts, if any, and the
      state after it; `sendOk` is whether the send succeeded. */
  function ProcessResult(s: FjtState, sendOk: bool): (r: (Option<Send>, FjtState))
    ensures r.0.Some? <==> s.resultReady && (s.active.Some? || s.rejected.Some?)
    ensures s.resultReady && s.active.Some? ==>
              r.0 == Some(Send(s.active.value, s.goalState, s.response))
    ensures s.resultReady && s.active.None? && s.rejected.Some? ==>
              r.0 == Some(Send(s.rejected.value, Aborted, s.response))
    ensures !sendOk || r.0.None? ==> r.1 == s
    ensures sendOk && r.0.Some? ==>
              !r.1.resultReady && r.1.response == s.response && r.1.goalState == s.goalState
    ensures sendOk && s.resultReady && s.active.Some? ==>
              r.1.active.None? && r.1.rejected == s.rejected
    ensures sendOk && s.resultReady && s.active.None? && s.rejected.Some? ==>
              r.1.rejected.None? && r.1.active.None?
  {
    if s.active.Some? && s.resultReady then
      (Some(Send(s.active.value, s.goalState, s.response)),
       if sendOk then s.(active := None, resultReady := false) else s)
    else if s.rejected.Some? && s.resultReady then
      (Some(Send(s.rejected.value, Aborted, s.response)),
       if sendOk then s.(rejected := None, resultReady := false) else s)
    else (None, s)
  }

  /** A result is delivered at most once: after a successful send nothing is
      sent until a new result is made ready. */
  lemma SentOnlyOnce(s: FjtState, sendOk: bool)
    requires ProcessResult(s, true).0.Some?
    ensures ProcessResult(ProcessResult(s, true).1, sendOk).0.None?
  {
  }

  /** A failed send is retried unchanged on the next call. */
  lemma FailedSendRetried(s: FjtState, sendOk: bool)
    ensures ProcessResult(ProcessResult(s, false).1, sendOk) == ProcessResult(s, sendOk)
  {
  }

  /** A rejected goal on an idle server reaches its client: the next send goes
      to that goal, reports it aborted, and its error code decodes to
      `INVALID_GOAL` and the reason's code. */
  lemma RejectionDelivered(s: FjtState, handle: nat, g: GoalChecks, codeOf: Reason -> int, nowNs: int)
    requires s.active.None? && Rejection(g).Some?
    requires 0 <= codeOf(Rejection(g).value) < CodeBase
    ensures var (sent, after) := ProcessResult(GoalReceived(s, handle, g, codeOf, nowNs), true);
            sent.Some? && sent.value.handle == handle && sent.value.state == Aborted
            && sent.value.response.status == Aborted
            && DecodeErrorCode(sent.value.response.errorCode) == (InvalidGoal, codeOf(Rejection(g).value))
            && after.rejected.None? && !after.resultReady
  {
    ErrorCodeRoundTrip(InvalidGoal, codeOf(Rejection(g).value));
  }

  /** A goal rejected while another goal is active: the active handle is
      served first, so the rejection's aborted result goes to the active goal,
      with the goal state that goal last recorded, and the rejected client is
      left waiting. */
  lemma RejectionWhileActive(s: FjtState, handle: nat, g: GoalChecks, codeOf: Reason -> int, nowNs: int)
    requires s.active.Some? && Rejection(g).Some?
    ensures var (sent, after) := ProcessResult(GoalReceived(s, handle, g, codeOf, nowNs), true);
            sent == Some(Send(s.active.value, s.goalState, ResultResponse(Aborted, ErrorCode(InvalidGoal, codeOf(Rejection(g).value)))))
            && after.active.None? && after.rejected == Some(handle) && !after.resultReady
  {
  }

  /** A trajectory that ran 2^32 ns longer than its planned one second
      completes as succeeded, where the exact check aborts it as late. */
  lemma LateGoalSucceeds(s: FjtState)
    ensures var m := Measured([], [], [], Duration(1, 0), Duration(0, 0), 1000000000 + 0x1_0000_0000);
            GoalComplete(s, Complete, m).goalState == Succeeded
            && GoalCompleteExact(s, Complete, m).goalState == Aborted
            && GoalCompleteExact(s, Complete, m).response.errorCode == ErrorCode(GoalToleranceViolated, FailTrajTime)
  {
    var m := Measured([], [], [], Duration(1, 0), Duration(0, 0), 1000000000 + 0x1_0000_0000);
    assert DurationToNanos(m.lastPointTime) == 1000000000;
    assert DurationToNanos(m.goalTimeTolerance) == 0;
    TimeCheckWraps();
  }

  /** An accepted goal's result reaches that goal once it completes, with the
      goal state the completion recorded. */
  lemma CompletionDelivered(s: FjtState, handle: nat, g: GoalChecks, codeOf: Reason -> int, nowNs: int,
                            end: EndType, m: Measured)
    requires Rejection(g).None? && WellSized(m)
    ensures var done := GoalComplete(GoalReceived(s, handle, g, codeOf, nowNs), end, m);
            var (sent, after) := ProcessResult(done, true);
            sent == Some(Send(handle, done.goalState, done.response))
            && after.active.None? && !after.resultReady
  {
  }
}
