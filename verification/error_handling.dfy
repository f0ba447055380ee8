/** The alarm catalogue of the firmware (src/ErrorHandling.h): C enumerations
    whose values follow the C rule for enumerators without an initialiser, the
    two code-to-text maps and the assert helpers (src/ErrorHandling.c). */
module ErrorHandling {
  import opened Wrappers

  // ---------------------------------------------------------------------
  // C enumerations

  /** One enumerator: its name and, when written, its initialiser. */
  datatype Enumerator = Enumerator(name: string, init: Option<int>)

  /** A `typedef enum { ... } typeName;` */
  datatype CEnum = CEnum(typeName: string, enumerators: seq<Enumerator>)

  /** The values of the enumerators (section 6.7.2.2 of ISO/IEC 9899): an
      enumerator with an initialiser takes its value; the first one without
      takes 0; any later one without takes its predecessor's value plus 1. */
  function Resolve(es: seq<Enumerator>): (vs: seq<int>)
    ensures |vs| == |es|
    ensures forall k :: 0 <= k < |es| && es[k].init.Some? ==> vs[k] == es[k].init.value
    ensures |es| > 0 && es[0].init.None? ==> vs[0] == 0
    ensures forall k :: 0 < k < |es| && es[k].init.None? ==> vs[k] == vs[k - 1] + 1
  {
    if |es| == 0 then []
    else
      var p := Resolve(es[..|es| - 1]);
      var last := es[|es| - 1];
      p + [if last.init.Some? then last.init.value else if |p| == 0 then 0 else p[|p| - 1] + 1]
  }

  /** Only the first enumerator may carry an initialiser. */
  predicate OnlyFirstInitialised(es: seq<Enumerator>)
  {
    forall k :: 0 < k < |es| ==> es[k].init.None?
  }

  /** In such an enumeration the values are consecutive from the first one. */
  lemma {:induction false} ConsecutiveValues(es: seq<Enumerator>, k: nat)
    requires OnlyFirstInitialised(es) && k < |es|
    ensures Resolve(es)[k] == Resolve(es)[0] + k
  {
    if k > 0 {
      ConsecutiveValues(es, k - 1);
    }
  }

  /** The value of the enumerator called `name`, if the enumeration has one. */
  function ValueOf(e: CEnum, name: string): (r: Option<int>)
    ensures r.Some? <==> exists k :: 0 <= k < |e.enumerators| && e.enumerators[k].name == name
  {
    FindValue(e.enumerators, Resolve(e.enumerators), name, 0)
  }

  function FindValue(es: seq<Enumerator>, vs: seq<int>, name: string, from: nat): (r: Option<int>)
    requires |vs| == |es| && from <= |es|
    ensures r.Some? <==> exists k :: from <= k < |es| && es[k].name == name
    ensures r.Some? ==> exists k :: from <= k < |es| && es[k].name == name && r.value == vs[k]
    decreases |es| - from
  {
    if from == |es| then None
    else if es[from].name == name then Some(vs[from])
    else FindValue(es, vs, name, from + 1)
  }

  function Plain(names: seq<string>): (es: seq<Enumerator>)
    ensures |es| == |names| && OnlyFirstInitialised(es)
    ensures forall k :: 0 <= k < |names| ==> es[k] == Enumerator(names[k], None)
  {
    seq(|names|, k requires 0 <= k < |names| => Enumerator(names[k], None))
  }

  function StartingAt(first: int, names: seq<string>): (es: seq<Enumerator>)
    requires |names| > 0
    ensures |es| == |names| && OnlyFirstInitialised(es)
    ensures es[0] == Enumerator(names[0], Some(first))
    ensures forall k :: 0 < k < |names| ==> es[k] == Enumerator(names[k], None)
  {
    [Enumerator(names[0], Some(first))] + Plain(names[1..])
  }

  /** `Failed_Trajectory_Status` */
  const FailedTrajectoryStatus := CEnum("Failed_Trajectory_Status", StartingAt(300, [
    "FAIL_TRAJ_CANCEL", "FAIL_TRAJ_POSITION", "FAIL_TRAJ_TIME", "FAIL_TRAJ_ALARM",
    "FAIL_TRAJ_TOLERANCE_PARSE"]))

  /** `ALARM_MAIN_CODE` */
  const AlarmMainCode := CEnum("ALARM_MAIN_CODE", StartingAt(8010, [
    "ALARM_TASK_CREATE_FAIL", "ALARM_ASSERTION_FAIL", "ALARM_ALLOCATION_FAIL",
    "ALARM_CONFIGURATION_FAIL", "ALARM_INFORM_JOB_FAIL", "ALARM_DAT_FILE_PARSE_FAIL",
    "ALARM_OPERATION_FAIL", "ALARM_RCL_RCLC_FAIL"]))

  const TaskCreateFailSubcode := CEnum("ALARM_TASK_CREATE_FAIL_SUBCODE", Plain([
    "SUBCODE_INITIALIZATION", "SUBCODE_EXECUTOR", "SUBCODE_INCREMENTAL_MOTION",
    "SUBCODE_ADD_TO_INC_Q"]))

  const AssertionFailSubcode := CEnum("ALARM_ASSERTION_FAIL_SUBCODE", Plain([
    "SUBCODE_FAIL_ROS_CONTROLLER_INIT", "SUBCODE_INVALID_AXIS_TYPE", "SUBCODE_FAIL_OPTIONS_INIT",
    "SUBCODE_FAIL_RMW_OPTIONS_INIT", "SUBCODE_FAIL_SUPPORT_INIT", "SUBCODE_FAIL_NODE_INIT",
    "SUBCODE_FAIL_MEM_ALLOC_CFG", "SUBCODE_FAIL_CREATE_PUBLISHER_JOINT_STATE",
    "SUBCODE_FAIL_CREATE_PUBLISHER_JOINT_STATE_ALL", "SUBCODE_FAIL_CREATE_PUBLISHER_TRANSFORM",
    "SUBCODE_FAIL_CREATE_PUBLISHER_ROBOT_STATUS", "SUBCODE_FAIL_CREATE_TIMER",
    "SUBCODE_FAIL_ALLOCATE_TRANSFORM", "SUBCODE_FAIL_IO_STATUS_UPDATE",
    "SUBCODE_FAIL_OPTIONS_INIT_DOMAIN_ID", "SUBCODE_CONFIGURATION_INVALID_DOMAIN_ID",
    "SUBCODE_CONFIGURATION_MISSING_AGENT_IP", "SUBCODE_CONFIGURATION_INVALID_AGENT_SUBNET",
    "SUBCODE_FAIL_ROS_CONTROLLER_INIT_TOO_MANY_GROUPS", "SUBCODE_FAIL_MP_NICDATA_INIT0",
    "SUBCODE_MULTIPLE_INSTANCES_DETECTED", "SUBCODE_CONFIGURATION_INVALID_NODE_NAME",
    "SUBCODE_CONFIGURATION_INVALID_JOB_NAME", "SUBCODE_FAIL_CREATE_SERVICE_QUEUE_POINT",
    "SUBCODE_FAIL_TIMER_INIT_PING", "SUBCODE_FAIL_TIMER_INIT_ROBOT_FB",
    "SUBCODE_FAIL_TIMER_INIT_ACTION_FB", "SUBCODE_FAIL_CREATE_MOTION_EXECUTOR",
    "SUBCODE_FAIL_TIMER_ADD_PING", "SUBCODE_FAIL_TIMER_ADD_ROBOT_FB",
    "SUBCODE_FAIL_TIMER_ADD_ACTION_FB", "SUBCODE_FAIL_ADD_FJT_SERVER",
    "SUBCODE_FAIL_ADD_SERVICE_STOP_TRAJ", "SUBCODE_FAIL_ADD_SERVICE_READ_SINGLE_IO",
    "SUBCODE_FAIL_ADD_SERVICE_READ_GROUP_IO", "SUBCODE_FAIL_ADD_SERVICE_WRITE_SINGLE_IO",
    "SUBCODE_FAIL_ADD_SERVICE_WRITE_GROUP_IO", "SUBCODE_FAIL_ADD_SERVICE_READ_M_REG",
    "SUBCODE_FAIL_ADD_SERVICE_WRITE_M_REG", "SUBCODE_FAIL_ADD_SERVICE_RESET_ERROR",
    "SUBCODE_FAIL_ADD_SERVICE_START_TRAJ_MODE", "SUBCODE_FAIL_ADD_SERVICE_START_QUEUE_MODE",
    "SUBCODE_FAIL_ADD_SERVICE_QUEUE_POINT", "SUBCODE_FAIL_INIT_SERVICE_READ_SINGLE_IO",
    "SUBCODE_FAIL_INIT_SERVICE_READ_GROUP_IO", "SUBCODE_FAIL_INIT_SERVICE_WRITE_SINGLE_IO",
    "SUBCODE_FAIL_INIT_SERVICE_WRITE_GROUP_IO", "SUBCODE_FAIL_INIT_SERVICE_READ_M_REG",
    "SUBCODE_FAIL_INIT_SERVICE_WRITE_M_REG", "SUBCODE_FAIL_INIT_SERVICE_RESET_ERROR",
    "SUBCODE_FAIL_INIT_SERVICE_START_TRAJ_MODE", "SUBCODE_FAIL_INIT_SERVICE_START_QUEUE_MODE",
    "SUBCODE_FAIL_INIT_SERVICE_STOP_TRAJ_MODE", "SUBCODE_FAIL_ADD_SERVICE_SELECT_MOTION_TOOL",
    "SUBCODE_FAIL_INIT_SERVICE_SELECT_MOTION_TOOL", "SUBCODE_CONFIGURATION_EMPTY_JOINT_NAME",
    "SUBCODE_FAIL_CREATE_IO_EXECUTOR", "SUBCODE_FAIL_TIMER_INIT_USERLAN_MONITOR",
    "SUBCODE_FAIL_TIMER_ADD_USERLAN_MONITOR", "SUBCODE_CONFIGURATION_AGENT_ON_NET_CHECK",
    "SUBCODE_CONFIGURATION_FAIL_MP_NICDATA0", "SUBCODE_CONFIGURATION_FAIL_MP_NICDATA1",
    "SUBCODE_FAIL_MP_NICDATA_INIT1", "SUBCODE_FAIL_INVALID_BASE_TRACK_MOTION_TYPE",
    "SUBCODE_DEBUG_INIT_FAIL_MP_NICDATA", "SUBCODE_CONFIGURATION_MISSING_AGENT_PORT",
    "SUBCODE_FAIL_OPTIONS_INIT_DOMAIN_ID_TOO_SMALL", "SUBCODE_FAIL_OPTIONS_INIT_DOMAIN_ID_TOO_LARGE"]))

  const AllocationFailSubcode := CEnum("ALARM_ALLOCATION_FAIL_SUBCODE", Plain([
    "SUBCODE_ALLOCATION_MALLOC", "SUBCODE_ALLOCATION_CALLOC", "SUBCODE_ALLOCATION_REALLOC"]))

  const ConfigurationFailSubcode := CEnum("ALARM_CONFIGURATION_FAIL_SUBCODE", Plain([
    "SUBCODE_CONFIGURATION_MISSINGFILE", "SUBCODE_CONFIGURATION_SRAM_ACCESS_FAILURE",
    "SUBCODE_CONFIGURATION_SRAM_WRITE_FAILURE", "SUBCODE_CONFIGURATION_INVALID_BOOLEAN_VALUE",
    "SUBCODE_CONFIGURATION_INVALID_QOS_VALUE", "SUBCODE_CONFIGURATION_INVALID_EXECUTOR_PERIOD",
    "SUBCODE_CONFIGURATION_INVALID_FEEDBACK_PERIOD", "SUBCODE_CONFIGURATION_INVALID_IO_PERIOD",
    "SUBCODE_CONFIGURATION_TOO_MANY_REMAP_RULES1", "SUBCODE_CONFIGURATION_TOO_MANY_REMAP_RULES2",
    "SUBCODE_CONFIGURATION_INVALID_REMAP_RULE_FORMAT", "SUBCODE_CONFIGURATION_FAIL_NODE_INIT_ARG_PARSE",
    "SUBCODE_CONFIGURATION_INVALID_CUSTOM_JOINT_NAME", "SUBCODE_CONFIGURATION_INVALID_USERLAN_MONITOR_PORT",
    "SUBCODE_CONFIGURATION_USERLAN_MONITOR_AUTO_DETECT_FAILED",
    "SUBCODE_CONFIGURATION_RUNTIME_USERLAN_LINKUP_ERR", "SUBCODE_CONFIGURATION_NO_CALIB_FILES_LOADED",
    "SUBCODE_CONFIGURATION_INVALID_DEBUG_BROADCAST_PORT"]))

  const InformJobFailSubcode := CEnum("ALARM_INFORM_JOB_FAIL_SUBCODE", Plain([
    "SUBCODE_INFORM_FAIL_TO_OPEN_DRAM", "SUBCODE_INFORM_INVALID_JOB",
    "SUBCODE_INFORM_FAIL_TO_CREATE_JOB", "SUBCODE_INFORM_FAIL_TO_LOAD_JOB"]))

  const DatFileParseFailSubcode := CEnum("ALARM_DAT_FILE_PARSE_FAIL_SUBCODE", Plain([
    "SUBCODE_DAT_FAIL_OPEN", "SUBCODE_DAT_FAIL_PARSE_RBCALIB", "SUBCODE_DAT_FAIL_PARSE_MGROUP",
    "SUBCODE_DAT_FAIL_PARSE_SGROUP", "SUBCODE_DAT_FAIL_PARSE_SRANG"]))

  const OperationFailSubcode := CEnum("ALARM_OPERATION_FAIL_SUBCODE", Plain(["SUBCODE_OPERATION_SET_CYCLE"]))

  const RclRclcFailSubcode := CEnum("ALARM_RCL_RCLC_FAIL_SUBCODE", Plain(["SUBCODE_RCL_RCLC_API_ERROR"]))

  /** The main alarm codes are 8010 .. 8017, in declaration order. */
  lemma MainCodeValues()
    ensures |AlarmMainCode.enumerators| == 8
    ensures forall k :: 0 <= k < 8 ==> Resolve(AlarmMainCode.enumerators)[k] == 8010 + k
  {
    forall k | 0 <= k < 8
      ensures Resolve(AlarmMainCode.enumerators)[k] == 8010 + k
    {
      ConsecutiveValues(AlarmMainCode.enumerators, k);
    }
  }

  /** `FAIL_TRAJ_CANCEL` .. `FAIL_TRAJ_TOLERANCE_PARSE` are 300 .. 304. */
  lemma FailTrajValues()
    ensures |FailedTrajectoryStatus.enumerators| == 5
    ensures forall k :: 0 <= k < 5 ==> Resolve(FailedTrajectoryStatus.enumerators)[k] == 300 + k
  {
    forall k | 0 <= k < 5
      ensures Resolve(FailedTrajectoryStatus.enumerators)[k] == 300 + k
    {
      ConsecutiveValues(FailedTrajectoryStatus.enumerators, k);
    }
  }

  /** Subcodes without initialisers count from 0: the value an alarm posts is
      the enumerator's position in its enumeration. */
  lemma SubcodeValues()
    ensures |AssertionFailSubcode.enumerators| == 68
    ensures AssertionFailSubcode.enumerators[59].name == "SUBCODE_CONFIGURATION_AGENT_ON_NET_CHECK"
    ensures Resolve(AssertionFailSubcode.enumerators)[59] == 59
    ensures AssertionFailSubcode.enumerators[67].name == "SUBCODE_FAIL_OPTIONS_INIT_DOMAIN_ID_TOO_LARGE"
    ensures Resolve(AssertionFailSubcode.enumerators)[67] == 67
    ensures ConfigurationFailSubcode.enumerators[16].name == "SUBCODE_CONFIGURATION_NO_CALIB_FILES_LOADED"
    ensures Resolve(ConfigurationFailSubcode.enumerators)[16] == 16
    ensures AllocationFailSubcode.enumerators[2].name == "SUBCODE_ALLOCATION_REALLOC"
    ensures Resolve(AllocationFailSubcode.enumerators)[2] == 2
  {
    ConsecutiveValues(AssertionFailSubcode.enumerators, 59);
    ConsecutiveValues(AssertionFailSubcode.enumerators, 67);
    ConsecutiveValues(ConfigurationFailSubcode.enumerators, 16);
    ConsecutiveValues(AllocationFailSubcode.enumerators, 2);
  }

  /** `ValueOf` finds an enumerator's value by its name. */
  lemma ValueOfNamed()
    ensures ValueOf(OperationFailSubcode, "SUBCODE_OPERATION_SET_CYCLE") == Some(0)
    ensures ValueOf(AlarmMainCode, "ALARM_ASSERTION_FAIL") == Some(8011)
  {
    ConsecutiveValues(AlarmMainCode.enumerators, 1);
  }

  // ---------------------------------------------------------------------
  // Code-to-text maps (src/ErrorHandling.c:14-82)

  /** The controller error numbers the firmware has a text for. */
  const ErrNoTexts: map<int, string> := map[
    0x2010 := "Robot is in operation",
    0x2030 := "In HOLD status (PP)",
    0x2040 := "In HOLD status (External)",
    0x2050 := "In HOLD status (Command)",
    0x2060 := "In ERROR/ALARM status",
    0x2070 := "In SERVO OFF status",
    0x2080 := "Wrong operation mode",
    0x3040 := "The home position is not registered",
    0x3050 := "Out of range (ABSO data)",
    0x3400 := "Cannot operate MASTER JOB",
    0x3410 := "The JOB name is already registered in another task",
    0x3450 := "Servo power cannot be turned on",
    0x4040 := "Specified JOB not found",
    0x5200 := "Over data range"]

  const UnspecifiedReason := "Unspecified reason"

  /** `Ros_ErrorHandling_ErrNo_ToString` */
  function ErrNoToString(errNo: int): (s: string)
    ensures errNo in ErrNoTexts ==> s == ErrNoTexts[errNo]
    ensures errNo !in ErrNoTexts ==> s == UnspecifiedReason
  {
    match errNo
    case 0x2010 => "Robot is in operation"
    case 0x2030 => "In HOLD status (PP)"
    case 0x2040 => "In HOLD status (External)"
    case 0x2050 => "In HOLD status (Command)"
    case 0x2060 => "In ERROR/ALARM status"
    case 0x2070 => "In SERVO OFF status"
    case 0x2080 => "Wrong operation mode"
    case 0x3040 => "The home position is not registered"
    case 0x3050 => "Out of range (ABSO data)"
    case 0x3400 => "Cannot operate MASTER JOB"
    case 0x3410 => "The JOB name is already registered in another task"
    case 0x3450 => "Servo power cannot be turned on"
    case 0x4040 => "Specified JOB not found"
    case 0x5200 => "Over data range"
    case _ => UnspecifiedReason
  }

  /** Known error numbers get pairwise different texts, none of them the
      fallback text. */
  lemma ErrNoTextsDistinct(a: int, b: int)
    requires a in ErrNoTexts && b in ErrNoTexts && a != b
    ensures ErrNoToString(a) != ErrNoToString(b)
    ensures ErrNoToString(a) != UnspecifiedReason
  {
  }

  /** `MotionNotReadyCode` (the values come from an interface package that is
      not part of this model; only the names matter here). */
  datatype NotReadyCode =
    | Ready
    | NotReadyUnspecified
    | NotReadyAlarm
    | NotReadyError
    | NotReadyEStop
    | NotReadyNotPlay
    | NotReadyNotRemote
    | NotReadyServoOff
    | NotReadyHold
    | NotReadyNotStarted
    | NotReadyWaitingRos
    | NotReadyPflActive
    | NotReadyIncMoveError
    | NotReadyOtherProgramRunning
    | NotReadyOtherTrajModeActive
    | NotReadyNotContCycleMode
    | NotReadyMajorAlarm
    | NotReadyEcoMode
    | NotReadyServoOnTimeout

  /** The message constants of `MotionReadyEnum`. */
  datatype ReadyText =
    | ReadyStr | UnspecifiedStr | AlarmStr | ErrorStr | EStopStr | NotPlayStr | NotRemoteStr
    | ServoOffStr | HoldStr | JobNotStartedStr | NotOnWaitCmdStr | PflActiveStr | IncMoveErrorStr
    | OtherProgramRunningStr | OtherTrajModeActiveStr | NotContCycleModeStr | EcoModeStr
    | ServoOnTimeoutStr

  /** `Ros_ErrorHandling_MotionNotReadyCode_ToString`: `MAJOR_ALARM` has no case
      of its own and falls to the default, the unspecified text. */
  function NotReadyCodeToString(c: NotReadyCode): (s: ReadyText)
    ensures s == UnspecifiedStr <==> c == NotReadyUnspecified || c == NotReadyMajorAlarm
    ensures s == ReadyStr <==> c == Ready
  {
    match c
    case Ready => ReadyStr
    case NotReadyUnspecified => UnspecifiedStr
    case NotReadyAlarm => AlarmStr
    case NotReadyError => ErrorStr
    case NotReadyEStop => EStopStr
    case NotReadyNotPlay => NotPlayStr
    case NotReadyNotRemote => NotRemoteStr
    case NotReadyServoOff => ServoOffStr
    case NotReadyHold => HoldStr
    case NotReadyNotStarted => JobNotStartedStr
    case NotReadyWaitingRos => NotOnWaitCmdStr
    case NotReadyPflActive => PflActiveStr
    case NotReadyIncMoveError => IncMoveErrorStr
    case NotReadyOtherProgramRunning => OtherProgramRunningStr
    case NotReadyOtherTrajModeActive => OtherTrajModeActiveStr
    case NotReadyNotContCycleMode => NotContCycleModeStr
    case NotReadyMajorAlarm => UnspecifiedStr
    case NotReadyEcoMode => EcoModeStr
    case NotReadyServoOnTimeout => ServoOnTimeoutStr
  }

  /** Two codes share a text only when both are reported as unspecified. */
  lemma NotReadyTextsDistinct(a: NotReadyCode, b: NotReadyCode)
    requires a != b && NotReadyCodeToString(a) == NotReadyCodeToString(b)
    ensures NotReadyCodeToString(a) == UnspecifiedStr
    ensures {a, b} == {NotReadyUnspecified, NotReadyMajorAlarm}
  {
  }

  // ---------------------------------------------------------------------
  // Assert helpers (src/ErrorHandling.c:84-116)

  /** `ERROR_MSG_MAX_SIZE` / `MAX_MSG_LEN`: alarm texts are 31 characters and a NUL. */
  const MaxMsgLen: nat := 32
  /** `ALARM_ASSERTION_FAIL` */
  const AlarmAssertionFail: int := 8011
  /** `APPLICATION_NAME ": Fatal Error"` */
  const FatalErrorMsg := "MotoROS2: Fatal Error"

  /** What a failed assertion leaves behind before the calling controller task parks in its
      endless loop: the alarm it posted and the two feedback outputs it set. */
  datatype Halt = Halt(alarm: int, subcode: int, msg: string, failureOutput: bool, initDoneOutput: bool)

  /** `vsnprintf(msg, MAX_MSG_LEN, ...)`: at most `MAX_MSG_LEN - 1` characters survive. */
  function TruncateMsg(s: string): (r: string)
    ensures |r| < MaxMsgLen && r <= s
    ensures |s| < MaxMsgLen ==> r == s
  {
    if |s| < MaxMsgLen then s else s[..MaxMsgLen - 1]
  }

  /** `motoRosAssert_withMsg`, with the message already formatted: returns
      normally (`None`) exactly when `mustBeTrue`; otherwise it never returns,
      and the model reports the state it halts in. */
  function AssertWithMsg(mustBeTrue: bool, subcode: int, formatted: string): (r: Option<Halt>)
    ensures r.None? <==> mustBeTrue
    ensures r.Some? ==> r.value.alarm == AlarmAssertionFail && r.value.subcode == subcode
    ensures r.Some? ==> |r.value.msg| <= 31 && r.value.msg <= formatted
    ensures r.Some? ==> r.value.failureOutput && !r.value.initDoneOutput
  {
    if mustBeTrue then None
    else Some(Halt(AlarmAssertionFail, subcode, TruncateMsg(formatted), true, false))
  }

  /** `motoRosAssert`: the same with the fixed fatal-error text, which fits. */
  function Assert(mustBeTrue: bool, subcode: int): (r: Option<Halt>)
    ensures r.None? <==> mustBeTrue
    ensures r.Some? ==> r.value.msg == FatalErrorMsg
  {
    AssertWithMsg(mustBeTrue, subcode, FatalErrorMsg)
  }
}
