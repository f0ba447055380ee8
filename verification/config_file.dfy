/** The configuration reader (src/ConfigFile.c): the handler that turns the
    YAML parser's event stream into settings, the defaults it starts from,
    and the range check that puts bad periods back to their defaults. The
    YAML library, the file copy and `atoi` are outside the model; `atoi` is a
    parameter. */
module ConfigFile {
  import opened Wrappers
  import CtrlGroup

  /** `Ros_QoS_Profile_Setting`, the two profiles a setting can take. */
  datatype Qos = SensorData | QosDefault

  function QosValue(q: Qos): int
  {
    match q
    case SensorData => 1
    case QosDefault => 3
  }

  /** `Value_Type` */
  datatype Kind = KString | KInt | KBool | KJointNames | KQos

  /** A `Configuration_Item`: the key and how its value is read. */
  datatype Item = Item(key: string, kind: Kind)

  /** A setting's value; the joint-name item's value is the name table. */
  datatype Value = Text(s: string) | Number(n: int) | Flag(b: bool) | Profile(q: Qos) | NameTable

  /** `Ros_ConfigFile_Items` */
  const Items: seq<Item> := [
    Item("ros_domain_id", KInt),
    Item("node_name", KString),
    Item("node_namespace", KString),
    Item("remap_rules", KString),
    Item("agent_ip_address", KString),
    Item("agent_port_number", KString),
    Item("sync_timeclock_with_agent", KBool),
    Item("namespace_tf", KBool),
    Item("publish_tf", KBool),
    Item("joint_names", KJointNames),
    Item("log_to_stdout", KBool),
    Item("executor_sleep_period", KInt),
    Item("action_feedback_publisher_period", KInt),
    Item("controller_status_monitor_period", KInt),
    Item("robot_status", KQos),
    Item("joint_states", KQos),
    Item("tf", KQos),
    Item("tf_frame_prefix", KString),
    Item("stop_motion_on_disconnect", KBool),
    Item("inform_job_name", KString),
    Item("allow_custom_inform_job", KBool)]

  const JointNamesItem: nat := 9
  const ExecutorPeriodItem: nat := 11
  const FeedbackPeriodItem: nat := 12
  const IoPeriodItem: nat := 13

  /** Name slots: `MAX_CONTROLLABLE_GROUPS` groups of `MP_GRP_AXES_NUM`. */
  const NameSlots: nat := 64

  /** The alarms the reader raises (all `ALARM_CONFIGURATION_FAIL`). */
  datatype ConfigAlarm = InvalidBooleanValue | InvalidQosValue | InvalidExecutorPeriod | InvalidFeedbackPeriod | InvalidIoPeriod

  lemma NameSlotsPerGroup()
    ensures NameSlots == CtrlGroup.MaxGroups * CtrlGroup.AxesNum
  {
  }

  // ---------------------------------------------------------------------
  // Defaults (src/ConfigFile.c:122-214, src/ConfigFile.h)

  const DefaultExecutorSleepPeriod: int := 10
  const DefaultFeedbackPublishPeriod: int := 20
  const DefaultControllerIoPeriod: int := 10
  const MinPeriod: int := 1
  const MaxPeriod: int := 100

  /** `Ros_ConfigFile_SetAllDefaultValues`: `nodeName` is the default name
      already suffixed with the MAC address. */
  function DefaultValues(nodeName: string): (vs: seq<Value>)
    ensures |vs| == |Items|
    ensures forall k :: 0 <= k < |Items| ==> KindFits(Items[k].kind, vs[k])
    ensures vs[ExecutorPeriodItem] == Number(DefaultExecutorSleepPeriod)
    ensures vs[FeedbackPeriodItem] == Number(DefaultFeedbackPublishPeriod)
    ensures vs[IoPeriodItem] == Number(DefaultControllerIoPeriod)
  {
    [Number(0), Text(nodeName), Text(""), Text(""), Text(""), Text(""),
     Flag(true), Flag(true), Flag(true), NameTable, Flag(false),
     Number(DefaultExecutorSleepPeriod), Number(DefaultFeedbackPublishPeriod), Number(DefaultControllerIoPeriod),
     Profile(SensorData), Profile(SensorData), Profile(QosDefault),
     Text(""), Flag(true), Text("INIT_ROS"), Flag(false)]
  }

  /** A value of the shape its item's kind stores. */
  predicate KindFits(kind: Kind, v: Value)
  {
    match kind
    case KString => v.Text?
    case KInt => v.Number?
    case KBool => v.Flag?
    case KJointNames => v.NameTable?
    case KQos => v.Profile?
  }

  // ---------------------------------------------------------------------
  // Scalar parsing

  const TrueWords: seq<string> := ["y", "Y", "yes", "Yes", "YES", "true", "True", "TRUE", "on", "On", "ON", "1"]
  const FalseWords: seq<string> := ["n", "N", "no", "No", "NO", "false", "False", "FALSE", "off", "Off", "OFF", "0"]

  /** The boolean spellings; `None` for anything else. */
  function ParseBool(text: string): (r: Option<bool>)
    ensures r == Some(true) <==> text in TrueWords
    ensures r == Some(false) <==> text in FalseWords
    ensures r.None? <==> text !in TrueWords && text !in FalseWords
  {
    TrueFalseDisjoint();
    if text in TrueWords then Some(true)
    else if text in FalseWords then Some(false)
    else None
  }

  lemma TrueFalseDisjoint()
    ensures forall w :: w in TrueWords ==> w !in FalseWords
  {
  }

  /** The profile named by `text`, and whether the name was unknown (an
      unknown name falls back to `default`). */
  function ParseQos(text: string): (r: (Qos, bool))
    ensures r.1 <==> text != "sensor_data" && text != "default"
    ensures r.0 == SensorData <==> text == "sensor_data"
  {
    if text == "sensor_data" then (SensorData, false)
    else if text == "default" then (QosDefault, false)
    else (QosDefault, true)
  }

  /** The name the configuration file uses for each profile. */
  function QosName(q: Qos): string
  {
    match q
    case SensorData => "sensor_data"
    case QosDefault => "default"
  }

  /** Parsing inverts naming: every profile's name parses back to it without
      an alarm, and every name parsed without an alarm is that profile's name. */
  lemma QosRoundTrip(q: Qos, text: string)
    ensures ParseQos(QosName(q)) == (q, false)
    ensures !ParseQos(text).1 ==> QosName(ParseQos(text).0) == text
  {
    assert QosName(SensorData) != "default";
  }

  // ---------------------------------------------------------------------
  // The event handler (src/ConfigFile.c:216-354)

  /** The YAML events the handler distinguishes. */
  datatype Event = Scalar(text: string) | SequenceStart | SequenceEnd | OtherEvent

  /** The handler's static state and the settings it writes. `iter` is the
      joint-name slot the iterator points at. */
  datatype Parser = Parser(active: Option<nat>, nested: int, countdown: int, iter: int,
                           values: seq<Value>, jointNames: seq<string>, alarms: seq<ConfigAlarm>)

  predicate Valid(p: Parser)
  {
    && |p.values| == |Items|
    && |p.jointNames| == NameSlots
    && (p.active.Some? ==> p.active.value < |Items|)
  }

  /** The state after `Ros_ConfigFile_SetAllDefaultValues`, before any event. */
  function Start(nodeName: string): (p: Parser)
    ensures Valid(p) && p.active.None? && p.iter == 0 && p.nested == 0
    ensures forall s :: 0 <= s < NameSlots ==> p.jointNames[s] == ""
  {
    Parser(None, 0, CtrlGroup.AxesNum, 0, DefaultValues(nodeName), seq(NameSlots, _ => ""), [])
  }

  /** The last item whose key is `text` (the search does not stop at a match). */
  function LastKey(items: seq<Item>, text: string, n: nat): (r: Option<nat>)
    requires n <= |items|
    ensures r.Some? ==> r.value < n && items[r.value].key == text
    ensures r.Some? ==> forall k :: r.value < k < n ==> items[k].key != text
    ensures r.None? <==> forall k :: 0 <= k < n ==> items[k].key != text
  {
    if n == 0 then None
    else if items[n - 1].key == text then Some(n - 1)
    else LastKey(items, text, n - 1)
  }

  /** The key `joint_names` selects item 9. */
  lemma JointNamesKey()
    ensures LastKey(Items, "joint_names", |Items|) == Some(JointNamesItem)
  {
    assert Items[JointNamesItem].key == "joint_names";
    assert forall k :: JointNamesItem < k < |Items| ==> Items[k].key != "joint_names";
  }

  /** A non-empty value scalar for the active item `k`. */
  function StoreValue(p: Parser, k: nat, text: string, atoi: string -> int): (q: Parser)
    requires Valid(p) && k < |Items| && |text| > 0
    ensures Valid(q) && q.active == p.active && q.nested == p.nested
    ensures Items[k].kind != KJointNames ==>
      q.iter == p.iter && q.countdown == p.countdown && q.jointNames == p.jointNames
      && forall j :: 0 <= j < |Items| && j != k ==> q.values[j] == p.values[j]
    ensures Items[k].kind == KString ==> q.values[k] == Text(text) && q.alarms == p.alarms
    ensures Items[k].kind == KInt ==> q.values[k] == Number(atoi(text)) && q.alarms == p.alarms
    ensures Items[k].kind == KBool ==>
      (text in TrueWords ==> q.values[k] == Flag(true) && q.alarms == p.alarms)
      && (text in FalseWords ==> q.values[k] == Flag(false) && q.alarms == p.alarms)
      && (text !in TrueWords && text !in FalseWords ==> q.values == p.values && q.alarms == p.alarms + [InvalidBooleanValue])
    ensures Items[k].kind == KQos ==> (q.values[k] == Profile(ParseQos(text).0)
      && q.alarms == p.alarms + (if ParseQos(text).1 then [InvalidQosValue] else []))
    ensures Items[k].kind == KJointNames ==>
      q.values == p.values && q.alarms == p.alarms
      && q.iter == p.iter + 1 && q.countdown == p.countdown - 1
      && (0 <= p.iter < NameSlots ==> q.jointNames[p.iter] == text)
      && forall s :: 0 <= s < NameSlots && s != p.iter ==> q.jointNames[s] == p.jointNames[s]
  {
    match Items[k].kind
    case KString => p.(values := p.values[k := Text(text)])
    case KInt => p.(values := p.values[k := Number(atoi(text))])
    case KBool =>
      (match ParseBool(text)
       case Some(b) => p.(values := p.values[k := Flag(b)])
       case None => p.(alarms := p.alarms + [InvalidBooleanValue]))
    case KJointNames =>
      var names := if 0 <= p.iter < NameSlots then p.jointNames[p.iter := text] else p.jointNames;
      p.(jointNames := names, iter := p.iter + 1, countdown := p.countdown - 1)
    case KQos =>
      var (q, unknown) := ParseQos(text);
      p.(values := p.values[k := Profile(q)], alarms := p.alarms + (if unknown then [InvalidQosValue] else []))
  }

  /** `Ros_ConfigFile_CheckYamlEvent`. `None` is the null-pointer dereference
      the handler performs on a sequence event while no item is active. */
  function CheckYamlEvent(p: Parser, e: Event, atoi: string -> int): (r: Option<Parser>)
    requires Valid(p)
    ensures r.Some? ==> Valid(r.value)
    ensures r.None? <==> (e.SequenceStart? || e.SequenceEnd?) && p.active.None?
    ensures e.Scalar? && p.active.None? ==>
      r == Some(if |e.text| > 0 && LastKey(Items, e.text, |Items|).Some? then p.(active := LastKey(Items, e.text, |Items|)) else p)
    ensures e.Scalar? && p.active.Some? && Items[p.active.value].kind != KJointNames ==>
      r.Some? && r.value.active.None?
    ensures e.Scalar? && p.active.Some? && |e.text| == 0 ==>
      r.Some? && r.value.values == p.values && r.value.jointNames == p.jointNames
    ensures e.OtherEvent? ==> r == Some(p)
  {
    match e
    case Scalar(text) =>
      if p.active.Some? then
        var k := p.active.value;
        var q := if |text| > 0 then StoreValue(p, k, text, atoi) else p;
        Some(if Items[k].kind != KJointNames then q.(active := None) else q)
      else if |text| > 0 && LastKey(Items, text, |Items|).Some? then Some(p.(active := LastKey(Items, text, |Items|)))
      else Some(p)
    case SequenceStart =>
      if p.active.None? then None
      else if Items[p.active.value].kind == KJointNames then
        Some(p.(nested := p.nested + 1, countdown := CtrlGroup.AxesNum))
      else Some(p)
    case SequenceEnd =>
      if p.active.None? then None
      else if Items[p.active.value].kind == KJointNames then
        var q := p.(nested := p.nested - 1, iter := p.iter + p.countdown);
        Some(if q.nested == 0 then q.(active := None) else q)
      else Some(p)
    case OtherEvent => Some(p)
  }

  /** The `joint_names` item stays active until its outermost list closes. */
  lemma JointNamesEndWithOuterList(p: Parser, atoi: string -> int)
    requires Valid(p) && p.active == Some(JointNamesItem)
    ensures var r := CheckYamlEvent(p, SequenceEnd, atoi);
      r.Some? && (r.value.active.None? <==> p.nested == 1) && r.value.nested == p.nested - 1
  {
  }

  /** The handler over a whole event stream; `None` once it faults. */
  function Run(p: Parser, events: seq<Event>, atoi: string -> int): (r: Option<Parser>)
    requires Valid(p)
    ensures r.Some? ==> Valid(r.value)
    decreases |events|
  {
    if |events| == 0 then Some(p)
    else match CheckYamlEvent(p, events[0], atoi)
      case None => None
      case Some(q) => Run(q, events[1..], atoi)
  }

  lemma {:induction false} RunAppend(p: Parser, a: seq<Event>, b: seq<Event>, atoi: string -> int)
    requires Valid(p)
    ensures Run(p, a + b, atoi) == (match Run(p, a, atoi) case None => None case Some(q) => Run(q, b, atoi))
    decreases |a|
  {
    if |a| == 0 {
      assert a + b == b;
    } else {
      assert (a + b)[0] == a[0] && (a + b)[1..] == a[1..] + b;
      match CheckYamlEvent(p, a[0], atoi)
      case None =>
      case Some(q) => RunAppend(q, a[1..], b, atoi);
    }
  }

  function Scalars(names: seq<string>): (es: seq<Event>)
    ensures |es| == |names| && forall i :: 0 <= i < |names| ==> es[i] == Scalar(names[i])
  {
    if |names| == 0 then [] else [Scalar(names[0])] + Scalars(names[1..])
  }

  /** The events of one inner list of joint names. */
  function GroupList(names: seq<string>): seq<Event>
  {
    [SequenceStart] + Scalars(names) + [SequenceEnd]
  }

  /** The events of the `joint_names` key and its list of lists. */
  function JointNamesEvents(lists: seq<seq<string>>): seq<Event>
  {
    [Scalar("joint_names"), SequenceStart] + GroupLists(lists) + [SequenceEnd]
  }

  function GroupLists(lists: seq<seq<string>>): seq<Event>
  {
    if |lists| == 0 then [] else GroupList(lists[0]) + GroupLists(lists[1..])
  }

  predicate NamesOk(names: seq<string>)
  {
    |names| <= CtrlGroup.AxesNum && forall i :: 0 <= i < |names| ==> |names[i]| > 0
  }

  /** Inside the `joint_names` item, non-empty names go to consecutive slots. */
  lemma {:induction false} ScalarsFillSlots(p: Parser, names: seq<string>, atoi: string -> int)
    requires Valid(p) && p.active == Some(JointNamesItem) && 0 <= p.iter && p.iter + |names| <= NameSlots
    requires forall i :: 0 <= i < |names| ==> |names[i]| > 0
    ensures var r := Run(p, Scalars(names), atoi);
      r.Some? && r.value.active == p.active && r.value.nested == p.nested
      && r.value.iter == p.iter + |names| && r.value.countdown == p.countdown - |names|
      && r.value.values == p.values && r.value.alarms == p.alarms
      && (forall i :: 0 <= i < |names| ==> r.value.jointNames[p.iter + i] == names[i])
      && (forall s :: 0 <= s < NameSlots && !(p.iter <= s < p.iter + |names|) ==> r.value.jointNames[s] == p.jointNames[s])
    decreases |names|
  {
    if |names| > 0 {
      var q := CheckYamlEvent(p, Scalar(names[0]), atoi).value;
      assert Scalars(names)[1..] == Scalars(names[1..]);
      ScalarsFillSlots(q, names[1..], atoi);
      var r := Run(q, Scalars(names[1..]), atoi).value;
      forall i | 0 <= i < |names|
        ensures r.jointNames[p.iter + i] == names[i]
      {
        if i > 0 {
          assert r.jointNames[q.iter + (i - 1)] == names[1..][i - 1];
        }
      }
    }
  }

  /** One inner list of at most eight names fills the group's eight slots from
      the start and moves the iterator to the next group. */
  lemma GroupListFillsGroup(p: Parser, names: seq<string>, atoi: string -> int)
    requires Valid(p) && p.active == Some(JointNamesItem) && p.nested >= 1
    requires p.iter % CtrlGroup.AxesNum == 0 && 0 <= p.iter && p.iter + CtrlGroup.AxesNum <= NameSlots
    requires NamesOk(names)
    ensures var r := Run(p, GroupList(names), atoi);
      r.Some? && r.value.active == p.active && r.value.nested == p.nested
      && r.value.iter == p.iter + CtrlGroup.AxesNum
      && r.value.values == p.values && r.value.alarms == p.alarms
      && (forall i :: 0 <= i < |names| ==> r.value.jointNames[p.iter + i] == names[i])
      && (forall s :: 0 <= s < NameSlots && !(p.iter <= s < p.iter + |names|) ==> r.value.jointNames[s] == p.jointNames[s])
  {
    var q := p.(nested := p.nested + 1, countdown := CtrlGroup.AxesNum);
    OpenList(p, atoi);
    ScalarsFillSlots(q, names, atoi);
    var r1 := Run(q, Scalars(names), atoi).value;
    var r2 := r1.(nested := r1.nested - 1, iter := r1.iter + r1.countdown);
    CloseList(r1, atoi);
    assert Run(r1, [SequenceEnd], atoi) == Some(r2);
    RunAppend(q, Scalars(names), [SequenceEnd], atoi);
    assert Run(p, [SequenceStart], atoi) == Some(q);
    RunAppend(p, [SequenceStart], Scalars(names) + [SequenceEnd], atoi);
    assert GroupList(names) == [SequenceStart] + (Scalars(names) + [SequenceEnd]);
    assert Run(p, GroupList(names), atoi) == Some(r2);
  }

  /** An inner list opens inside the `joint_names` item. */
  lemma OpenList(p: Parser, atoi: string -> int)
    requires Valid(p) && p.active == Some(JointNamesItem)
    ensures CheckYamlEvent(p, SequenceStart, atoi) == Some(p.(nested := p.nested + 1, countdown := CtrlGroup.AxesNum))
  {
    assert Items[JointNamesItem].kind == KJointNames;
  }

  /** A list closes inside the `joint_names` item: the iterator skips the
      group's unused slots, and the item ends with the outermost list. */
  lemma CloseList(p: Parser, atoi: string -> int)
    requires Valid(p) && p.active == Some(JointNamesItem) && p.nested > 1
    ensures CheckYamlEvent(p, SequenceEnd, atoi) == Some(p.(nested := p.nested - 1, iter := p.iter + p.countdown))
  {
    assert Items[JointNamesItem].kind == KJointNames;
  }

  /** Name `j` of inner list `k` lands in slot `k * 8 + j` when every inner
      list holds at most eight names. */
  lemma {:induction false} GroupListsLayout(p: Parser, lists: seq<seq<string>>, atoi: string -> int)
    requires Valid(p) && p.active == Some(JointNamesItem) && p.nested >= 1
    requires p.iter % CtrlGroup.AxesNum == 0 && 0 <= p.iter && p.iter + |lists| * 8 <= NameSlots
    requires forall k :: 0 <= k < |lists| ==> NamesOk(lists[k])
    ensures var r := Run(p, GroupLists(lists), atoi);
      r.Some? && r.value.active == p.active && r.value.nested == p.nested
      && r.value.iter == p.iter + |lists| * 8
      && r.value.values == p.values && r.value.alarms == p.alarms
      && (forall k, j :: 0 <= k < |lists| && 0 <= j < |lists[k]| && NamesOk(lists[k]) ==>
            r.value.jointNames[p.iter + k * 8 + j] == lists[k][j])
      && (forall s :: 0 <= s < NameSlots && s < p.iter ==> r.value.jointNames[s] == p.jointNames[s])
    decreases |lists|
  {
    if |lists| > 0 {
      RunAppend(p, GroupList(lists[0]), GroupLists(lists[1..]), atoi);
      GroupListFillsGroup(p, lists[0], atoi);
      var q := Run(p, GroupList(lists[0]), atoi).value;
      GroupListsLayout(q, lists[1..], atoi);
      var r := Run(q, GroupLists(lists[1..]), atoi).value;
      forall k, j | 0 <= k < |lists| && 0 <= j < |lists[k]|
        ensures r.jointNames[p.iter + k * 8 + j] == lists[k][j]
      {
        if k == 0 {
          assert r.jointNames[p.iter + j] == q.jointNames[p.iter + j];
        } else {
          assert lists[k] == lists[1..][k - 1];
          assert p.iter + k * 8 + j == q.iter + (k - 1) * CtrlGroup.AxesNum + j;
        }
      }
    }
  }

  /** The whole `joint_names` entry read from the start state: the names land
      in their slots, the item is closed afterwards, and nothing else changes. */
  lemma JointNamesLayout(nodeName: string, lists: seq<seq<string>>, atoi: string -> int)
    requires |lists| <= CtrlGroup.MaxGroups
    requires forall k :: 0 <= k < |lists| ==> NamesOk(lists[k])
    ensures var r := Run(Start(nodeName), JointNamesEvents(lists), atoi);
      r.Some? && r.value.active.None? && r.value.nested == 0
      && r.value.values == Start(nodeName).values && r.value.alarms == []
      && forall k, j :: 0 <= k < |lists| && 0 <= j < |lists[k]| && NamesOk(lists[k]) ==>
           r.value.jointNames[k * 8 + j] == lists[k][j]
  {
    var p := Start(nodeName);
    var p1 := p.(active := Some(JointNamesItem));
    var p2 := p1.(nested := 1, countdown := CtrlGroup.AxesNum);
    assert Run(p, [Scalar("joint_names"), SequenceStart], atoi) == Some(p2) by {
      JointNamesKey();
      assert CheckYamlEvent(p, Scalar("joint_names"), atoi) == Some(p1);
      OpenList(p1, atoi);
      assert [Scalar("joint_names"), SequenceStart][1..] == [SequenceStart];
    }
    GroupListsLayout(p2, lists, atoi);
    var p3 := Run(p2, GroupLists(lists), atoi).value;
    var p4 := p3.(nested := 0, iter := p3.iter + p3.countdown, active := None);
    assert Run(p3, [SequenceEnd], atoi) == Some(p4) by {
      CloseOuterList(p3, atoi);
    }
    RunAppend(p2, GroupLists(lists), [SequenceEnd], atoi);
    RunAppend(p, [Scalar("joint_names"), SequenceStart], GroupLists(lists) + [SequenceEnd], atoi);
    assert JointNamesEvents(lists) == [Scalar("joint_names"), SequenceStart] + (GroupLists(lists) + [SequenceEnd]);
    assert Run(p, JointNamesEvents(lists), atoi) == Some(p4);
  }

  /** The outermost list of `joint_names` closes the item. */
  lemma CloseOuterList(p: Parser, atoi: string -> int)
    requires Valid(p) && p.active == Some(JointNamesItem) && p.nested == 1
    ensures CheckYamlEvent(p, SequenceEnd, atoi) == Some(p.(nested := 0, iter := p.iter + p.countdown, active := None))
  {
    assert Items[JointNamesItem].kind == KJointNames;
  }

  // ---------------------------------------------------------------------
  // Range check of the periods (src/ConfigFile.c:509-553)

  /** The three periods after `Ros_ConfigFile_ValidateNonCriticalSettings`,
      with an alarm for each one put back to its default. */
  function ValidatePeriods(executor: int, feedback: int, io: int): (r: (int, int, int, seq<ConfigAlarm>))
    ensures MinPeriod <= r.0 <= MaxPeriod && MinPeriod <= r.1 <= MaxPeriod && MinPeriod <= r.2 <= MaxPeriod
    ensures MinPeriod <= executor <= MaxPeriod ==> r.0 == executor
    ensures !(MinPeriod <= executor <= MaxPeriod) ==> r.0 == DefaultExecutorSleepPeriod
    ensures MinPeriod <= feedback <= MaxPeriod ==> r.1 == feedback
    ensures !(MinPeriod <= feedback <= MaxPeriod) ==> r.1 == DefaultFeedbackPublishPeriod
    ensures MinPeriod <= io <= MaxPeriod ==> r.2 == io
    ensures !(MinPeriod <= io <= MaxPeriod) ==> r.2 == DefaultControllerIoPeriod
    ensures |r.3| == (if r.0 != executor then 1 else 0) + (if r.1 != feedback then 1 else 0) + (if r.2 != io then 1 else 0)
  {
    var (e, a1) := if executor < MinPeriod || executor > MaxPeriod then (DefaultExecutorSleepPeriod, [InvalidExecutorPeriod]) else (executor, []);
    var (f, a2) := if feedback < MinPeriod || feedback > MaxPeriod then (DefaultFeedbackPublishPeriod, [InvalidFeedbackPeriod]) else (feedback, []);
    var (i, a3) := if io < MinPeriod || io > MaxPeriod then (DefaultControllerIoPeriod, [InvalidIoPeriod]) else (io, []);
    (e, f, i, a1 + a2 + a3)
  }

  /** The check leaves the defaults alone and is idempotent. */
  lemma ValidatePeriodsIdempotent(executor: int, feedback: int, io: int)
    ensures ValidatePeriods(DefaultExecutorSleepPeriod, DefaultFeedbackPublishPeriod, DefaultControllerIoPeriod)
      == (DefaultExecutorSleepPeriod, DefaultFeedbackPublishPeriod, DefaultControllerIoPeriod, [])
    ensures var r := ValidatePeriods(executor, feedback, io);
      ValidatePeriods(r.0, r.1, r.2) == (r.0, r.1, r.2, [])
  {
  }
}
