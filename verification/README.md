# MotoROS2 firmware core in Dafny

MotoROS2 is the ROS 2 interface that runs on Yaskawa Motoman robot controllers.
This project models its core, the YRC1000 build without `DUMMY_SERVO_MODE`. The modelled parts are:

- **Time conversions** between ROS `Duration`/`Time` messages and ms/ns counts.
- **Control groups:** joint-order permutations, the axis bitmap and joint-name placement, and the increment ring buffer.
- **Trajectory admission:** per-point and per-joint checks, the start check, the FSU increment clamp and the motion-mode state machine.
- **Controller status:** readiness, alarm codes, the periodic status update and the calibration warning.
- **I/O services:** address and value validation, group bit packing and M-register normalisation.
- **Configuration reader:** the YAML-event handler and the period range check.
- **FollowJointTrajectory action server:** goal rejection, goal completion and result delivery.
- **Smaller pieces:** the fake `argv` built from remap rules, the static transform list, tool selection, the alarm catalogue with its C enumeration values, and the platform-library version number.

Every hardware read, controller API call and micro-ROS call is a parameter of the function that makes it.
C semantics are written out where they matter:

- `/` and `%` truncate toward zero (`TimeConversion.CDiv`, `TimeConversion.CMod`);
- stores into `uint32`/`int32` fields wrap modulo 2^32 (`TimeConversion.WrapU32`, `TimeConversion.WrapI32`);
- `(int)` casts of doubles truncate (`CtrlGroup.TruncToward0`, `MotionControl.IntAbsOfDouble`);
- an `UINT32` multiplication wraps (`ReadWriteIo`).

Doubles are modelled as exact reals.

Module layout follows the source files:

| module | source |
|---|---|
| `TimeConversion` | `src/TimeConversionUtils.h` |
| `PlatformLib` | `lib/MotoROS_PlatformLib.h` |
| `CtrlGroup` | `src/CtrlGroup.c`, `src/CtrlGroup.h` |
| `IncQueue` | the queue of `src/CtrlGroup.h` and its users in `src/MotionControl.c` |
| `MotionControl` | `src/MotionControl.c` |
| `ControllerStatus` | `src/ControllerStatusIO.c` |
| `ReadWriteIo` | `src/ServiceReadWriteIO.c` |
| `ConfigFile` | `src/ConfigFile.c`, `src/ConfigFile.h` |
| `ActionServerFjt` | `src/ActionServer_FJT.c`, `src/ActionServer_FJT.h` |
| `FauxArgv` | `src/FauxCommandLineArgs.c` |
| `StaticTf` | `src/StaticTransformBroadcaster.c` |
| `SelectTool` | `src/ServiceSelectMotionTool.c` |
| `ErrorHandling` | `src/ErrorHandling.h`, `src/ErrorHandling.c` |
| `Wrappers` | `Option` and `Result` |

Where the code and its tests disagree, the model follows the code. The cases are:

- **Negative time values.** `Ros_Nanos_To_Duration_Msg` and `Ros_Millis_To_Duration_Msg` truncate toward zero and store a negative remainder into the unsigned `nanosec`. The tests in `src/Tests_TimeConversionUtils.c` (lines 192-202, 340-351, 483-565) expect floor semantics instead. Both versions are modelled; see Findings.
- **Millisecond tests with wrong expectations.** `src/Tests_TimeConversionUtils.c:121-131` expects 999 ms to give `{0, 999999999}`; the code gives `{0, 999000000}`. The same test expects 10000000098 ms to give nanosec 98353503; the code gives 98000000 (`TimeConversion.MillisToDurationSplits`).
- **Equal trajectory times.** The trajectory conversion refuses only a point earlier than its predecessor. Two points at the same non-zero time pass, although the firmware's message speaks of "strictly increasing" times (`MotionControl.EqualTimesAccepted`).

## Model

| member | source | states |
|---|---|---|
| TimeConversion.DurationToMillis | src/TimeConversionUtils.h:15-18 | The result is the duration's length in whole milliseconds, rounded down, for negative `sec` too: `ms·10^6 ≤ sec·10^9 + nanosec < (ms+1)·10^6`. |
| TimeConversion.DurationToNanos | src/TimeConversionUtils.h:20-23 | The whole seconds of the result are `sec` plus the whole seconds carried by `nanosec`. |
| TimeConversion.TimeToMillis | src/TimeConversionUtils.h:37-40 | The `Time` variant of the millisecond reading, with the same floor bound. |
| TimeConversion.TimeToNanos | src/TimeConversionUtils.h:42-45 | The `Time` variant of the nanosecond reading. |
| TimeConversion.CDiv | src/TimeConversionUtils.h:27-34 | C integer division: the quotient truncates toward zero for negative dividends. |
| TimeConversion.CMod | src/TimeConversionUtils.h:27-34 | C remainder: `a = CDiv(a,b)·b + r`, with \|r\| < b and r carrying the dividend's sign. |
| TimeConversion.WrapU32 | src/TimeConversionUtils.h:28-34 | A store into the `uint32` `nanosec` keeps the value modulo 2^32 and leaves in-range values alone. |
| TimeConversion.WrapI32 | src/TimeConversionUtils.h:27-33 | A store into the `int32` `sec` keeps the value modulo 2^32 and leaves in-range values alone. |
| TimeConversion.NanosToTimespec | src/TimeConversionUtils.h:60-64 | `tv_sec·10^9 + tv_nsec` is the input. The fraction has the input's sign and is less than one second in size. |
| TimeConversion.MillisDropsSubMillis | src/Tests_TimeConversionUtils.c:17-31 | The millisecond reading drops the sub-millisecond part: {0, 499999999} is 499 and {1, 864} is 1000. |
| TimeConversion.NanosToDurationSplits | src/TimeConversionUtils.h:31-35 | For x ≥ 0 the message holds `sec = x div 10^9` and `nanosec = x mod 10^9 < 10^9`. |
| TimeConversion.MillisToDurationSplits | src/TimeConversionUtils.h:25-29 | For x ≥ 0, `nanosec = (x mod 1000)·10^6`: a whole number of milliseconds below one second. |
| TimeConversion.NanosRoundTrip | src/Tests_TimeConversionUtils.c:471-481 | Nanoseconds → Duration/Time → nanoseconds is the identity for 0 ≤ x ≤ INT32_MAX·10^9 + 999999999. |
| TimeConversion.MillisRoundTrip | src/Tests_TimeConversionUtils.c:459-469 | Milliseconds → Duration/Time → milliseconds is the identity for 0 ≤ x ≤ INT32_MAX·1000 + 999. |
| TimeConversion.TimeMatchesDuration | src/TimeConversionUtils.h:15-58 | The `Time` and `Duration` variants compute the same functions of (sec, nanosec). |
| TimeConversion.NegativeNanosCounterexample | src/TimeConversionUtils.h:31-35 | The code as written turns -1 ns into {0, 4294967295}, which does not read back as -1; the floor version gives {-1, 999999999}. |
| TimeConversion.NegativeMillisCounterexample | src/TimeConversionUtils.h:25-29 | The code as written turns -1 ms into {0, 4293967296}, which reads back as 4293; the floor version gives {-1, 999000000}. |
| TimeConversion.FloorNanosToDuration | src/Tests_TimeConversionUtils.c:192-202 | Corrected conversion: `sec·10^9 + nanosec = x` with `nanosec < 10^9`, for negative x too. |
| TimeConversion.FloorMillisToDuration | src/Tests_TimeConversionUtils.c:483-565 | Corrected conversion: `sec` is the floor of x/1000 and `nanosec` the remaining milliseconds in nanoseconds. |
| TimeConversion.AsWrittenAgreesWithFloor | src/TimeConversionUtils.h:25-35 | For x ≥ 0 the code as written and the floor conversions give the same message. |
| TimeConversion.FloorRoundTrip | src/Tests_TimeConversionUtils.c:483-565 | The corrected conversions round-trip on the whole range the message holds, negative values included. |
| PlatformLib.Decode | lib/MotoROS_PlatformLib.h:23-25 | PATCH < 100 and MINOR < 1000, and `V = MAJOR·100000 + MINOR·100 + PATCH`. |
| PlatformLib.EncodeDecode | lib/MotoROS_PlatformLib.h:14-25 | Encoding the decoded triple gives back the version number. |
| PlatformLib.DecodeEncode | lib/MotoROS_PlatformLib.h:14-25 | Decoding inverts encoding on triples with a 3-digit minor and 2-digit patch. |
| PlatformLib.ShippedVersion | lib/MotoROS_PlatformLib.h:21-25 | Version 212 is 0.2.12. |
| CtrlGroup.GroupKindsPartition | src/CtrlGroup.c:740-759 | Robot, base and station groups partition the controller's group ids. |
| CtrlGroup.AdjustAxisTypes | src/CtrlGroup.c:156-160 | An axis becomes invalid exactly when it was invalid or its maximum increment is 0; other axes keep their type. |
| CtrlGroup.AdjustAxisTypesIdempotent | src/CtrlGroup.c:156-160 | Adjusting an adjusted layout changes nothing. |
| CtrlGroup.RankOfValidSlot | src/CtrlGroup.c:570-591 | A valid slot sits in the list of valid slots at the position given by the number of valid slots before it. |
| CtrlGroup.ValidBelowSpec | src/CtrlGroup.c:570-591 | The compaction list holds exactly the valid slots, in strictly increasing order. |
| CtrlGroup.SlotOfRank | src/CtrlGroup.c:674-695 | The k-th valid slot has exactly k valid slots before it: rank and slot list are inverse. |
| CtrlGroup.ConvertMotoToSequential | src/CtrlGroup.c:552-599 | The three loops of the C function compute the reference permutation. For a 7-axis robot, E moves to ROS slot 2. For a robot with fewer than 6 axes, the valid slots are packed in order. Every other group is copied. |
| CtrlGroup.SevenAxisLoopToSequential | src/CtrlGroup.c:556-569 | ros[0..1] = moto[0..1], ros[2] = moto[6], ros[i] = moto[i-1] for 3 ≤ i ≤ 6; slot 7 is left as it was. |
| CtrlGroup.CompactLoopToSequential | src/CtrlGroup.c:570-591 | The skip-and-copy loop, including its early return, packs the first `min(numAxes, valid slots)` valid controller slots into the leading ROS slots. |
| CtrlGroup.SkipInvalidSlots | src/CtrlGroup.c:574-578 | The inner loop stops at the next valid slot or past the end, skipping only invalid slots. |
| CtrlGroup.CopyLoop | src/CtrlGroup.c:592-598 | Every other group is copied slot for slot. |
| CtrlGroup.ConvertSequentialToMoto | src/CtrlGroup.c:653-703 | The C loops compute the reference inverse permutation on a cleared output. |
| CtrlGroup.SevenAxisLoopToMoto | src/CtrlGroup.c:658-673 | The 7-axis reverse loop inverts the forward map on slots 0..6 and leaves slot 7 at 0. |
| CtrlGroup.CompactLoopToMoto | src/CtrlGroup.c:674-695 | ros[k] goes back to the k-th valid controller slot; every other slot stays 0. |
| CtrlGroup.SequentialRoundTrip | src/Tests_CtrlGroup.c:93-241 | ROS order → controller order → ROS order restores every ROS slot the group uses, for every layout. |
| CtrlGroup.MotoRoundTrip | src/Tests_CtrlGroup.c:93-241 | Controller order → ROS order → controller order restores every slot that carries a joint and clears the rest. |
| CtrlGroup.DeltaLayout | src/Tests_CtrlGroup.c:39-92 | A delta robot (S L U - - T) reports its T axis in ROS slot 3. |
| CtrlGroup.TruncToward0 | src/CtrlGroup.c:649 | The `(int)` cast of a double truncates toward zero: the result is the integer nearest x on zero's side, less than one away. |
| CtrlGroup.ToUnits | src/CtrlGroup.c:540-547 | Dividing by the axis ratio: the result times the ratio gives back the pulse count. |
| CtrlGroup.MotoUnitsToRos | src/CtrlGroup.c:522-550 | Invalid axes read 0. A usable axis reads its pulse count divided by its ratio: radians for rotary axes, meters for linear ones. |
| CtrlGroup.RosUnitsToMoto | src/CtrlGroup.c:625-651 | Invalid axes get 0. A usable axis gets its value times its ratio, truncated toward zero. |
| CtrlGroup.ToPulsesToUnits | src/CtrlGroup.c:522-651 | In exact arithmetic, scaling pulses to ROS units and back is exact. |
| CtrlGroup.UnitsRoundTrip | src/CtrlGroup.c:522-651 | Pulses → ROS units → pulses restores every usable axis and zeroes the invalid ones. |
| CtrlGroup.PositionRoundTrip | src/CtrlGroup.c:605-718 | A position reported to ROS and commanded back gives the original pulses on every usable axis the group keeps. |
| CtrlGroup.WithBit | src/CtrlGroup.c:731 | OR-ing in `0x01 << i` sets bit i and keeps every other bit. |
| CtrlGroup.GetAxisConfig | src/CtrlGroup.c:723-735 | Bit i of the configuration byte is set exactly when axis i is not invalid. |
| CtrlGroup.CopyJointName | src/CtrlGroup.c:821-823 | The stored name is a prefix of the configured one, at most 32 characters long, and the whole name when it fits. |
| CtrlGroup.NameIndex | src/CtrlGroup.c:800 | `groupNo·8 + configIndex` names a distinct slot of the 64-entry table for each group and axis: group and axis can be read back from it. |
| CtrlGroup.UpdateJointNamesInMotoOrder | src/CtrlGroup.c:785-828 | The k-th valid axis of group g gets configured name `g·8 + k` and invalid axes get "". The update fails exactly when some valid axis's configured name is empty, and it reports the first such axis. |
| IncQueue.QOffsetIdxIsMod | src/CtrlGroup.h:20-21 | For 0 ≤ a < c and -c ≤ b ≤ c, `Q_OFFSET_IDX(a, b, c)` lies in [0, c) and equals `(a + b) mod c`. |
| IncQueue.QOffsetIdxLeavesRange | src/CtrlGroup.h:20-21 | Beyond one lap either way the macro leaves the buffer. |
| IncQueue.Contents | src/CtrlGroup.h:35-41 | The queued elements, oldest first, are the `cnt` slots starting at `idx` around the ring. |
| IncQueue.Enqueue | src/MotionControl.c:584-621 | A full queue refuses. Otherwise the element is written at `Q_OFFSET_IDX(idx, cnt)` and the contents gain it at the back. |
| IncQueue.PopFront | src/MotionControl.c:851-853 | Dequeueing reads `data[idx]`, the front element, and leaves the rest of the contents in order. |
| IncQueue.Front | src/MotionControl.c:851-853 | The slot at `idx` of a non-empty queue holds its oldest element. |
| IncQueue.EnqueueThenPop | src/MotionControl.c:584-621 | An element put into an empty queue is the one taken out. |
| IncQueue.EnqueueAllThenDrain | src/MotionControl.c:584-621 | First in, first out: enqueueing a batch that fits appends it to the contents in order. |
| IncQueue.Clear | src/MotionControl.c:1290-1291 | Resetting `cnt` empties a queue without touching its index or stored data. |
| IncQueue.ClearAll | src/MotionControl.c:1275-1299 | Every queue becomes empty and no group has data to process; index and stored data stay. |
| IncQueue.GetQueueCnt | src/MotionControl.c:1129-1153 | -1 exactly for a group number the controller does not have, else that queue's length. |
| IncQueue.HasDataInQueue | src/MotionControl.c:1158-1170 | True exactly when some group's queue is non-empty. |
| IncQueue.TakeJoining | src/MotionControl.c:859-889 | The merge loop takes the longest run of leading elements that fall in the same interpolation period with the same format. It sums their increments and leaves the rest queued in order. |
| IncQueue.TakePeriod | src/MotionControl.c:839-892 | One interpolation period: an empty queue gives a zero increment. Otherwise the front element and every element joining it are summed, and the processed time becomes the last taken element's. |
| MotionControl.ConvertAxis | src/MotionControl.c:292-355 | Conversion of one axis succeeds exactly when every point passes the time checks. A failure reports the status of the first failing point. On success each sample holds the point's milliseconds, position and velocity. |
| MotionControl.AxisStatus | src/MotionControl.c:295-352 | The status of one axis is OK exactly when every point from i on passes its checks. Any other status is the status of one of those points. |
| MotionControl.PointChecksMeanWellTimed | src/MotionControl.c:297-331 | The per-point checks accept exactly the well-timed trajectories: no negative time, no zero time after the first point, no backward step, and zero final velocity in trajectory mode. |
| MotionControl.NonDecreasing | src/MotionControl.c:310-321 | In an accepted trajectory the times never decrease. |
| MotionControl.EqualTimesAccepted | src/MotionControl.c:310-321 | Two points at the same non-zero time are accepted. |
| MotionControl.LongNamesCollide | src/MotionControl.c:97-107 | Names that agree in their first 32 characters count as duplicates. |
| MotionControl.FindSlot | src/MotionControl.c:117-128 | The slot loop finds the first slot at or after k whose non-empty name is the joint's, and fails exactly when no such slot remains. |
| MotionControl.FindJoint | src/MotionControl.c:109-132 | The lookup finds the first group and slot, in search order, whose non-empty name is the joint's. It fails exactly when no slot holds the name. |
| MotionControl.CheckJoints | src/MotionControl.c:92-157 | The per-joint loop succeeds exactly when every joint is admissible: no later duplicate, a matching slot, and a successful conversion. A failure reports the status of the first failing joint. Success reports the slot the lookup finds for each joint. |
| MotionControl.JointStatus | src/MotionControl.c:96-153 | A joint's status is OK exactly when the joint is admissible. A later duplicate is reported as `DUPLICATE_JOINT_NAME` before anything else. |
| MotionControl.FirstJointStatus | src/MotionControl.c:92-157 | The loop's status from joint j on is OK exactly when every joint from j on is admissible. |
| MotionControl.SizeStatus | src/MotionControl.c:67-83 | OK exactly when every point has the full number of positions and velocities; positions are checked before velocities. |
| MotionControl.Init | src/MotionControl.c:30-258 | Check order: a busy group rejects first, then an incomplete joint list, then a point of the wrong size, then the first failing joint's status. After that, each used group in group order runs the start check on its first point. The result is success exactly when every joint is admissible and every used group passes its start check. Success reports the slot of each goal joint. The all-groups-initialised flag is untouched by the busy rejection; past that check it ends set exactly on success. |
| MotionControl.CheckStarts | src/MotionControl.c:158-240 | The group loop is OK exactly when every used group passes its start check. Otherwise it reports the first failing group's status. |
| MotionControl.StartsStatus | src/MotionControl.c:158-240 | OK exactly when every used group from g on passes its start check. A failure is a start-position or start-velocity status. |
| MotionControl.SlotValue | src/MotionControl.c:350-351 | A slot of the first point holds the value of the last goal joint that maps to it, and zero when no joint maps to it. |
| MotionControl.AdmittedJointsDistinct | src/MotionControl.c:92-157 | In an admitted goal no two joints drive the same axis. |
| MotionControl.InitTrajectory | src/MotionControl.c:263-269 | Fewer than two points is `TOO_SMALL`. Otherwise success comes exactly when the goal is admissible for `Init`. `TOO_SMALL` leaves the all-groups-initialised flag alone; otherwise the flag follows `Init`. |
| MotionControl.InitPointQueue | src/MotionControl.c:271-290 | A one-point trajectory succeeds exactly when it is admissible for `Init`. Success clears the must-initialise flag and failure leaves it set. The all-groups-initialised flag follows `Init`. |
| MotionControl.IntAbsOfDouble | src/MotionControl.c:225 | C `abs` of a double truncates first: the result is within one below the true absolute value. |
| MotionControl.SpeedCheckTruncates | src/MotionControl.c:225 | A start velocity of 1.5 against a limit of 1.2 passes the check as written. |
| MotionControl.SpeedCheckWeaker | src/MotionControl.c:225 | The check as written never refuses what the exact check accepts, and it refuses every speed more than one unit over the limit. |
| MotionControl.StartCheck | src/MotionControl.c:195-239 | As written: OK exactly when every axis starts within `START_MAX_PULSE_DEVIATION` pulses of the commanded position and its velocity, truncated by the integer `abs`, is within its limit. A failure names the first failing axis, position checked before speed. |
| MotionControl.StartStatus | src/MotionControl.c:195-239 | The start check from axis i on is OK exactly when every such axis is near the command and within its speed limit; `exact` picks the intended speed check. A start-position or velocity failure names an axis that fails in that way. |
| MotionControl.ExactStartStricter | src/MotionControl.c:225 | Whatever the intended start check accepts, the check as written accepts too. |
| MotionControl.StartCheckPassesTooFast | src/MotionControl.c:225 | A group standing on its start with 1.5 on one axis against a limit of 1.2 passes as written and is refused by the intended check. |
| MotionControl.SlaveBAxis | src/MotionControl.c:170-178 | The slaved B axis is compensated by U - L; every other axis is unchanged. |
| MotionControl.SlaveBAxisRoundTrip | src/MotionControl.c:170-178 | Subtracting U - L again undoes the adjustment exactly, in either order. |
| MotionControl.MaxInc | src/MotionControl.c:997-1017 | The bound follows the firmware's priority: the previous speed when it is positive, else the current speed when positive, else the size of a non-zero new increment, else the axis' maximum increment. It is never negative and is zero only when no source is set. |
| MotionControl.Clamp | src/MotionControl.c:990-1031 | An axis with nothing to process is skipped. Otherwise the whole remainder is sent when it fits the bound; if not, ±bound with the remainder's sign is sent. So `|sent| ≤ bound`. |
| MotionControl.ClampKeepsRemainder | src/MotionControl.c:1019-1031 | Sent plus left over is what there was, and the remainder shrinks without changing sign. |
| MotionControl.Remaining | src/MotionControl.c:1019-1031 | Repeated clamping never makes the held remainder larger. |
| MotionControl.ClampDrains | src/MotionControl.c:1019-1031 | With a positive bound m, a held amount x is sent in full within ceil(abs(x)/m) periods. |
| MotionControl.MaxIncDrains | src/MotionControl.c:997-1031 | Whenever any source of the bound is set, the held pulses drain in the number of periods the bound allows. |
| MotionControl.StartMotionMode | src/MotionControl.c:1360-1602 | Another active mode refuses with `OTHER_TRAJ_MODE_ACTIVE`. The mode changes only to the requested one, only when the result is `MOTION_READY`, and only after the increment queues were cleared. Clearing happens only once the controller was found not ready and the reason was one the procedure can fix. Ready requires the controller to be ready before or after the start attempt. A non-ready result leaves the mode globals unchanged. The set-cycle alarm comes only with an error or cycle code. The init-complete flag is untouched. |
| MotionControl.ReadyShortcutKeepsMode | src/MotionControl.c:1378-1386 | A controller that is already ready returns `MOTION_READY` without recording the requested mode. |
| MotionControl.StopTrajMode | src/MotionControl.c:1604-1618 | The mode becomes inactive and the all-groups-initialised flag is cleared. |
| MotionControl.ValidateMotionModeIsOk | src/MotionControl.c:1642-1659 | Point-queue mode ends when motion is no longer possible; anything else is left alone. |
| MotionControl.ModesExclusive | src/MotionControl.c:1371-1376 | While one mode is active the other is refused, and stopping lifts the refusal. |
| ControllerStatus.IsValidGroupNo | src/ControllerStatusIO.c:259-268 | Valid exactly for 0 ≤ groupNo < numGroup. |
| ControllerStatus.GetNotReadySubcode | src/ControllerStatusIO.c:426-488 | The readiness code is never one the function cannot produce: unspecified, major alarm, other mode, eco mode or servo-on timeout. |
| ControllerStatus.NotReadyIsFirstFailure | src/ControllerStatusIO.c:426-488 | The if-chain reports the first failing check of the ordered list, and `MOTION_READY` only when all pass. |
| ControllerStatus.FirstFailureReady | src/ControllerStatusIO.c:426-488 | `MOTION_READY` exactly when no check fails. |
| ControllerStatus.FirstFailureIsFirst | src/ControllerStatusIO.c:426-488 | The reported code is that of the first failing check. |
| ControllerStatus.MotionReadyIff | src/ControllerStatusIO.c:381-392 | Motion is ready exactly when every readiness condition holds. |
| ControllerStatus.ReadyMeansSafe | src/ControllerStatusIO.c:353-423 | A ready controller has no fault, no e-stop and no hold. Its servo power is on and it is in play and remote mode, operating, with the job waiting for ROS. |
| ControllerStatus.IgnoringTractable | src/ControllerStatusIO.c:465-485 | Ignoring the tractable problems keeps a ready controller ready. It then never reports continuous cycle, servo off, not started or waiting-for-ROS. |
| ControllerStatus.GetAlarmCode | src/ControllerStatusIO.c:741-755 | -1 on a failed query, else the first alarm, else the error number. |
| ControllerStatus.GetActiveAlarmCodes | src/ControllerStatusIO.c:757-782 | -1 on a failed query and -2 when there are too many alarms. Otherwise the alarms come in order, followed by the error number exactly when it is non-zero. |
| ControllerStatus.AlarmCodeIsFirstActive | src/ControllerStatusIO.c:741-782 | The single alarm code is the head of the active list, or 0 when it is empty. |
| ControllerStatus.IoStatusUpdate | src/ControllerStatusIO.c:567-650 | A failed read changes nothing. Otherwise the snapshot becomes the read one, and the queues are cleared exactly when an alarm appears, the waiting input drops or PFL stops a ROS motion. An alarm edge to "alarms present" records the current alarm code and sets the flag. An edge to "no alarms" zeroes the code, drops the flag and clears the inc-move error if an alarm had been posted. Without an alarm edge these stay. The PFL flag is set exactly when PFL stops a ROS motion or was already set and no alarm reset happened. |
| ControllerStatus.RunMeetsSpec | src/ControllerStatusIO.c:584-650 | After the first i inputs the loop's state is the one its change reactions prescribe. |
| ControllerStatus.UpdateComplete | src/ControllerStatusIO.c:584-650 | Once every input is processed, the state has the effect `IoStatusUpdate` promises. |
| ControllerStatus.PflFlagSticks | src/ControllerStatusIO.c:605-612 | Once PFL has stopped a ROS motion, only a pendant reset of a posted alarm drops the flag. |
| ControllerStatus.ShouldWarnNoCalibDataLoaded | src/ControllerStatusIO.c:835-861 | Warn exactly when there is more than one robot-or-station group, TF publishing is on and calibration did not load. |
| ControllerStatus.BaseGroupsIgnored | src/ControllerStatusIO.c:835-861 | Base-axis groups never count towards the warning. |
| ControllerStatus.SingleRobotNoWarning | src/Tests_ControllerStatusIO.c:81-137 | One robot with any number of base groups is never warned about. |
| ReadWriteIo.IsValidReadAddress | src/ServiceReadWriteIO.c:566-597 | As written: the address, scaled ×10 on a `UINT32` for group access (so wrapping at 2^32), lies in one of the readable ranges. A non-register address ending in 8 or 9 is refused. One that passes the digit check and lies in a range is accepted. |
| ReadWriteIo.IsValidWriteAddress | src/ServiceReadWriteIO.c:599-621 | The same for the writable ranges, with the same wrapping scale. |
| ReadWriteIo.IsValidReadAddressExact | src/ServiceReadWriteIO.c:566-597 | Corrected read check, with the scaling done without overflow. An accepted group address lies below the wrap point, so its signals are the byte's own. Everything it accepts, the check as written accepts. |
| ReadWriteIo.IsValidWriteAddressExact | src/ServiceReadWriteIO.c:599-621 | The same for writes. |
| ReadWriteIo.WritableIsReadable | src/ServiceReadWriteIO.c:566-621 | Every valid write address is a valid read address. |
| ReadWriteIo.ReadOnlyAddresses | src/ServiceReadWriteIO.c:566-621 | Inputs and M registers above 559 are readable but not writable. |
| ReadWriteIo.IsValidWriteValue | src/ServiceReadWriteIO.c:623-635 | A value is valid exactly when it is at most the size's maximum: 1 for a bit, 0xFF for a group, 0xFFFF for a register. |
| ReadWriteIo.WriteValueKept | src/ServiceReadWriteIO.c:623-635 | A value passes exactly when the write keeps all of it: one bit, the byte the eight signals read back as, or a 16-bit word. |
| ReadWriteIo.GroupAddressWraps | src/ServiceReadWriteIO.c:571-572 | Group read address 429496731 wraps to 14 and group write address 429497731 wraps to 10014. Both pass the checks as written and fail the exact ones, and the write goes to signal 10014. |
| ReadWriteIo.AsWrittenAgreesBelowWrap | src/ServiceReadWriteIO.c:566-621 | Below the wrap point the read and write checks as written agree with the exact ones. |
| ReadWriteIo.SplitBits | src/ServiceReadWriteIO.c:467-471 | A byte value is split into eight 0/1 signals. |
| ReadWriteIo.OrOfBits | src/ServiceReadWriteIO.c:392-394 | OR-ing eight 0/1 signals, signal i shifted by i, gives a byte whose bit i is signal i. |
| ReadWriteIo.GatherSplit | src/ServiceReadWriteIO.c:392-399 | Gathering the eight signals of a split byte gives the byte back. |
| ReadWriteIo.GatherReadsEachSignal | src/ServiceReadWriteIO.c:392-399 | With 0/1 signals, bit i of the value read is signal i, and the value is a byte. |
| ReadWriteIo.ReadSingleIo | src/ServiceReadWriteIO.c:341-370 | Success exactly for a valid address and a working API call. An invalid address gives value 0 and `READ_ADDRESS_INVALID`. |
| ReadWriteIo.ReadGroupIo | src/ServiceReadWriteIO.c:372-410 | As for single reads, and a valid read returns the gathered byte. |
| ReadWriteIo.GroupSignals | src/ServiceReadWriteIO.c:386 | A group covers `address·10 + i` for i in 0..7, computed on a `UINT32`. Below the wrap point these are the byte's eight consecutive signals. |
| ReadWriteIo.WriteRejection | src/ServiceReadWriteIO.c:437-446 | A bad address is reported in preference to a bad value. |
| ReadWriteIo.WriteSingleIo | src/ServiceReadWriteIO.c:412-448 | Success exactly for a valid address, a valid value and a working call. The codes follow the rejection order, and a write is issued only for an accepted request. |
| ReadWriteIo.WriteGroupIo | src/ServiceReadWriteIO.c:450-490 | An accepted byte is written as eight signals at the group's signal numbers, signal i carrying bit i. Anything else writes nothing. |
| ReadWriteIo.GroupWriteThenRead | src/ServiceReadWriteIO.c:372-490 | A byte written to a group and read back from the same signals is the byte written. |
| ReadWriteIo.NormaliseRegister | src/ServiceReadWriteIO.c:502-503 | Addresses below 1000000 get 1000000 added; others are kept. |
| ReadWriteIo.NormaliseIdempotent | src/ServiceReadWriteIO.c:502-503 | Normalising twice is normalising once. |
| ReadWriteIo.ReadMRegister | src/ServiceReadWriteIO.c:492-523 | Success exactly for a normalised address within the readable registers and a working call. |
| ReadWriteIo.ReadSingleRegister | src/ServiceReadWriteIO.c:505-522 | Result codes of a register read follow the address check. |
| ReadWriteIo.WriteMRegister | src/ServiceReadWriteIO.c:525-564 | A bad address is refused before a bad value, and only an accepted request writes, at the normalised address. |
| ConfigFile.DefaultValues | src/ConfigFile.c:122-214 | Every item gets a value of its own kind; the three periods get 10, 20 and 10 ms. |
| ConfigFile.ParseBool | src/ConfigFile.c:222-271 | True exactly for the 12 true spellings, false exactly for the 12 false spellings, nothing otherwise. |
| ConfigFile.TrueFalseDisjoint | src/ConfigFile.c:222-223 | No spelling is both true and false. |
| ConfigFile.ParseQos | src/ConfigFile.c:285-303 | Only "sensor_data" and "default" are known; anything else falls back to default and is flagged. |
| ConfigFile.QosRoundTrip | src/ConfigFile.c:285-303 | Each profile's name parses back to that profile without an alarm. A name parsed without an alarm is that profile's name. |
| ConfigFile.Start | src/ConfigFile.c:216-220 | Before any event no item is active, no list is open and every joint-name slot is empty. |
| ConfigFile.LastKey | src/ConfigFile.c:310-323 | The search does not stop: the last item whose key matches is the one activated. |
| ConfigFile.JointNamesKey | src/ConfigFile.c:96-120 | `joint_names` selects the joint-name item. |
| ConfigFile.StoreValue | src/ConfigFile.c:230-304 | Strings and ints are stored. A bad boolean keeps the value and raises an alarm. A bad QoS falls back to default with an alarm. A joint name goes to the current slot and advances the iterator. Nothing else changes. |
| ConfigFile.CheckYamlEvent | src/ConfigFile.c:216-354 | A sequence event with no active item is the null dereference. A key scalar activates its item. A value scalar deactivates every non-joint-name item, and an empty value stores nothing. Other events are ignored. |
| ConfigFile.JointNamesEndWithOuterList | src/ConfigFile.c:330-337 | The joint-name item is deactivated exactly when the outermost list closes. |
| ConfigFile.RunAppend | src/ConfigFile.c:216-354 | Handling a stream in two parts is handling it at once. |
| ConfigFile.ScalarsFillSlots | src/ConfigFile.c:277-283 | Inside the joint-name item, non-empty names fill consecutive slots and nothing else changes. |
| ConfigFile.GroupListFillsGroup | src/ConfigFile.c:277-334 | An inner list of at most eight names fills its group's slots from the start and moves the iterator to the next group. |
| ConfigFile.OpenList | src/ConfigFile.c:325-329 | An inner list opens: nesting grows and the per-group countdown restarts at 8. |
| ConfigFile.CloseList | src/ConfigFile.c:330-334 | An inner list closes: the iterator skips the group's unused slots. |
| ConfigFile.CloseOuterList | src/ConfigFile.c:330-337 | The outermost list closes the item. |
| ConfigFile.GroupListsLayout | src/ConfigFile.c:277-334 | Name j of inner list k lands in slot `start + 8k + j` when each list holds at most eight names. |
| ConfigFile.JointNamesLayout | src/ConfigFile.c:277-337 | The whole `joint_names` entry puts name j of list k in slot `8k + j`, closes the item and changes nothing else. |
| ConfigFile.ValidatePeriods | src/ConfigFile.c:509-553 | A period outside [1, 100] is reset to its default with one alarm each; a period inside is kept. |
| ConfigFile.ValidatePeriodsIdempotent | src/ConfigFile.c:509-553 | The check leaves the defaults alone and is idempotent. |
| ActionServerFjt.ErrorCode | src/ActionServer_FJT.c:46 | An encodable pair (ROS code ≤ 0, Motoman code below 100000) gives a code in the band of its ROS code. |
| ActionServerFjt.DecodeErrorCode | src/ActionServer_FJT.c:46 | Every non-positive result code splits into a ROS code and a Motoman code that can be encoded. |
| ActionServerFjt.ErrorCodeRoundTrip | src/ActionServer_FJT.c:46 | Splitting an error code with C division gives back the ROS and Motoman codes. |
| ActionServerFjt.DecodeErrorCodeRoundTrip | src/ActionServer_FJT.c:46 | Every non-positive code is the encoding of its split. |
| ActionServerFjt.ErrorCodeInjective | src/ActionServer_FJT.c:46 | Distinct pairs give distinct codes. |
| ActionServerFjt.FailTrajConstantsResolve | src/ErrorHandling.h:61-68 | The `FAIL_TRAJ_*` values used are those the enumeration resolves to. |
| ActionServerFjt.Initial | src/ActionServer_FJT.c:61-63 | No goal handle and no pending result. |
| ActionServerFjt.Ready | src/ActionServer_FJT.c:181-204 | Readiness changes only after an eco-mode restart that reported `MOTION_READY`. |
| ActionServerFjt.Rejection | src/ActionServer_FJT.c:206-327 | Accepted exactly when initialisation ran and succeeded. Otherwise the reason is chosen in priority order: too big, then not ready (with its subcode), then wrong mode, then the init status. |
| ActionServerFjt.TooBigDominates | src/ActionServer_FJT.c:252-257 | An oversized goal is rejected as too big whatever else is wrong. |
| ActionServerFjt.WrongModeNeverInitialises | src/ActionServer_FJT.c:206-212 | With the mode off, initialisation never runs. |
| ActionServerFjt.GoalReceived | src/ActionServer_FJT.c:166-340 | An accepted goal becomes active with its start time, and nothing else changes. A rejected goal becomes the rejected handle, ABORTED with `INVALID_GOAL` and its reason's code, with a result ready. |
| ActionServerFjt.EffectiveTimeTolerance | src/ActionServer_FJT.c:527-531 | A zero time tolerance means 500000000 ns. |
| ActionServerFjt.EffectivePositionTolerance | src/ActionServer_FJT.c:506-508 | A zero position tolerance means 0.01. |
| ActionServerFjt.TimeCheckWraps | src/ActionServer_FJT.c:526 | A 2^32 ns overrun passes the time check as written. |
| ActionServerFjt.TimeChecksAgreeIn32Bits | src/ActionServer_FJT.c:522-538 | The check as written and the exact check agree whenever the difference fits an `int` and is not `INT_MIN`. |
| ActionServerFjt.CAbs32 | src/ActionServer_FJT.c:526 | C `abs` on an `int` gives the magnitude, except that `INT_MIN` comes back negative. |
| ActionServerFjt.TimeCheckMinInt | src/ActionServer_FJT.c:526 | An overrun of exactly 2^31 ns passes as written under any non-negative tolerance. The exact check refuses it under the default tolerance. |
| ActionServerFjt.GoalComplete | src/ActionServer_FJT.c:486-628 | As written: completion succeeds exactly when the position is within tolerance and the time check passes with its 32-bit `abs`. A position miss is reported before a time miss. Cancel gives CANCELED with `FAIL_TRAJ_CANCEL`, and an abort gives ABORTED with `FAIL_TRAJ_ALARM`. Every end marks a result ready and leaves the handles alone. |
| ActionServerFjt.GoalCompleteExact | src/ActionServer_FJT.c:522-538 | Corrected completion: succeeds exactly when the position and the exact time difference are both within tolerance. A time miss is reported as `FAIL_TRAJ_TIME`. |
| ActionServerFjt.CompletionsAgreeIn32Bits | src/ActionServer_FJT.c:522-538 | The two completions are equal whenever the time difference fits an `int` and is not `INT_MIN`. |
| ActionServerFjt.LateGoalSucceeds | src/ActionServer_FJT.c:526 | A one-second goal that ran 2^32 ns late completes as SUCCEEDED as written and is aborted as late by the exact check. |
| ActionServerFjt.EndingsDecode | src/ActionServer_FJT.c:541-624 | A client can tell every ending apart from the error code alone. |
| ActionServerFjt.ProcessResult | src/ActionServer_FJT.c:644-669 | The active goal is served before the rejected one, which is sent as ABORTED. A successful send clears that handle and the ready flag; a failed send changes nothing. |
| ActionServerFjt.SentOnlyOnce | src/ActionServer_FJT.c:644-669 | After a successful send nothing is sent until a new result is ready. |
| ActionServerFjt.FailedSendRetried | src/ActionServer_FJT.c:644-669 | A failed send is retried unchanged. |
| ActionServerFjt.RejectionDelivered | src/ActionServer_FJT.c:240-339 | On a server with no active goal, a rejected goal's result reaches that goal as ABORTED, and its code decodes to `INVALID_GOAL` and the reason. |
| ActionServerFjt.RejectionWhileActive | src/ActionServer_FJT.c:646-667 | A goal rejected while another is active: the aborted INVALID_GOAL result is sent to the active goal's handle, with that goal's recorded state, and clears the active goal. The rejected handle stays recorded with no result ready. |
| ActionServerFjt.CompletionDelivered | src/ActionServer_FJT.c:486-669 | An accepted goal's result reaches it once it completes, with the recorded state. |
| FauxArgv.Pairs | src/FauxCommandLineArgs.c:54-60 | Each rule becomes a remap flag followed by the rule, in order. |
| FauxArgv.Layout | src/FauxCommandLineArgs.c:49-105 | The ROS-args flag, then the pairs, then the stdout flag and the end token: 2·rules + 3 entries. |
| FauxArgv.LayoutRoundTrip | src/FauxCommandLineArgs.c:49-105 | The rules can be read back from the layout. |
| FauxArgv.Fill | src/FauxCommandLineArgs.c:54-105 | The loop copies `min(rules, len/2)` rules. At 16 rules it fails with the second too-many alarm. An array filled exactly fails. Otherwise it returns the layout of the copied rules. |
| FauxArgv.ConstructAsWritten | src/FauxCommandLineArgs.c:37-106 | A length below 3 fails without writing. The first too-many alarm and the format alarm are never raised. A success returns the layout of the copied rules and its length. |
| FauxArgv.AsWrittenOverflows | src/FauxCommandLineArgs.c:54-99 | With the 16-slot array the executor passes and eight rules, 19 slots are written. |
| FauxArgv.AsWrittenDropsRules | src/FauxCommandLineArgs.c:54-99 | With four slots and three rules, the third rule is dropped and success is still reported. |
| FauxArgv.Construct | src/FauxCommandLineArgs.c:37-106 | Corrected builder: it succeeds exactly when there are fewer than 16 rules and room for all of them. It then stays within the array and carries every rule. |
| FauxArgv.AsWrittenAgreesWithRoom | src/FauxCommandLineArgs.c:37-106 | With room for every rule, the code as written and the corrected builder agree. |
| StaticTf.FindFirst | src/StaticTransformBroadcaster.c:71-80 | The first entry with the child frame, or none exactly when the frame is not stored. |
| StaticTf.Upsert | src/StaticTransformBroadcaster.c:70-93 | A stored child frame is overwritten in place. A new one is appended at the end, or fails when the list is full. Stored frames keep their positions and distinctness is kept. |
| StaticTf.Send | src/StaticTransformBroadcaster.c:63-104 | The stored frames become those of the list and the inputs. The run fails exactly when they exceed 16. Unnamed entries keep their place and value, and the last input per frame wins. |
| SelectTool.SelectWith | src/ServiceSelectMotionTool.c:46-107 | The checks come in order (remote mode, group, tool). A refusal changes nothing, and success changes only the group's tool. |
| SelectTool.SelectAsWritten | src/ServiceSelectMotionTool.c:86-91 | The service as written accepts tools below 63. |
| SelectTool.MaxValidToolRefused | src/ServiceSelectMotionTool.c:86-91 | Tool 63, the index `MAX_VALID_TOOL_INDEX` names, is refused. |
| SelectTool.Select | src/ControllerStatusIO.h:39 | Corrected service: tools up to `MAX_VALID_TOOL_INDEX` are accepted. |
| SelectTool.SelectAgreesBelowMax | src/ServiceSelectMotionTool.c:86-91 | The two versions agree on every other tool number. |
| SelectTool.LastSelectionWins | src/ServiceSelectMotionTool.c:97 | Selecting twice for a group keeps the second tool. |
| SelectTool.SelectionsCommute | src/ServiceSelectMotionTool.c:97 | Selections for different groups do not interfere. |
| ErrorHandling.Resolve | src/ErrorHandling.h:61-239 | C enumeration rules: an initialised enumerator takes its value, the first uninitialised one takes 0, and any other takes its predecessor plus 1. |
| ErrorHandling.ConsecutiveValues | src/ErrorHandling.h:61-239 | With only the first enumerator initialised, values count up from it. |
| ErrorHandling.ValueOf | src/ErrorHandling.h:61-239 | A name has a value exactly when the enumeration declares it. |
| ErrorHandling.MainCodeValues | src/ErrorHandling.h:81-91 | The main alarm codes are 8010..8017. |
| ErrorHandling.FailTrajValues | src/ErrorHandling.h:61-68 | `FAIL_TRAJ_CANCEL..FAIL_TRAJ_TOLERANCE_PARSE` are 300..304. |
| ErrorHandling.SubcodeValues | src/ErrorHandling.h:105-212 | Subcodes count from 0: `AGENT_ON_NET_CHECK` is 59, the last assertion subcode 67, `NO_CALIB_FILES_LOADED` 16 and `ALLOCATION_REALLOC` 2. |
| ErrorHandling.ValueOfNamed | src/ErrorHandling.h:81-234 | `SUBCODE_OPERATION_SET_CYCLE` is 0 and `ALARM_ASSERTION_FAIL` is 8011. |
| ErrorHandling.ErrNoToString | src/ErrorHandling.c:14-36 | Total: listed numbers get their text, every other number the unspecified text. |
| ErrorHandling.ErrNoTextsDistinct | src/ErrorHandling.c:14-36 | Listed numbers get pairwise different texts, none of them the fallback. |
| ErrorHandling.NotReadyCodeToString | src/ErrorHandling.c:38-82 | Total: the unspecified text exactly for the unspecified code and `MAJOR_ALARM`, the ready text exactly for `MOTION_READY`. |
| ErrorHandling.NotReadyTextsDistinct | src/ErrorHandling.c:38-82 | Two codes share a text only when both are reported as unspecified. |
| ErrorHandling.TruncateMsg | src/ErrorHandling.c:91-104 | The message keeps at most 31 characters, and all of them when it fits. |
| ErrorHandling.AssertWithMsg | src/ErrorHandling.c:89-116 | Returns exactly when the condition holds. Otherwise it halts with the assertion alarm and the subcode, the message truncated, the failure output on and the init-done output off. |
| ErrorHandling.Assert | src/ErrorHandling.c:84-87 | The same with the fixed fatal-error text. |

## Left out

- **Locks, waits and tasks.** Semaphore locking (including the lock timeout that leaves a queue uncleared in `Ros_MotionControl_ClearQ_All`), the wait-while-full loop of `Ros_MotionControl_AddPulseIncPointToQ`, sleeps, the increment-move task loop, `StopMotion` and `DisableEcoMode` are left out. Everything is modelled as one sequential step.
- **Floating point.** Doubles are exact reals. Rounding of the pulse scaling, cubic interpolation, speed feedback and the quaternion code are not modelled. The position-tolerance comparison is modelled with exact absolute values.
- CtrlGroup.MotoUnitsToRos: requires a non-zero ratio on every usable axis. The firmware divides regardless (src/CtrlGroup.c:547), so a zero ratio there gives an infinite or NaN double, which exact reals cannot represent.
- **Foreign calls.** Controller API reads, the clock, micro-ROS publishing and sending, string allocation and copying, `atoi`, `strcpy` and `rcutils_split` are parameters or left out. The remap rules arrive already split.
- **Interface enumeration values.** The numeric values of the `motoros2_interfaces`/`control_msgs` constants are not part of this model. The FJT result codes are taken from the message definition (0, -1, -5). Each rejection reason's code is the parameter `codeOf`.
- **Service wrappers and string outputs.** The message strings of every service and of the FJT result, `Ros_IoServer_ResultCodeToStr` and the debug broadcasts are left out.
- **Status publication.** The `RobotStatus` fields computed at the end of `Ros_Controller_IoStatusUpdate` are left out.
- **FJT feedback.** Feedback messages, the progress tracker and `Goal_Cancel` (which stops motion) are left out.
- **Tolerance parsing.** `Ros_ActionServer_FJT_Parse_GoalPosTolerances` is not part of this model. It is exercised by tests, but its source is not among the files modelled.
- **Controller limits as parameters.** `MAX_ALARM_COUNT` and the controller's number of groups are parameters; their values come from the controller API headers.
- **Subcode enum names.** The promise that every main alarm code has a `<NAME>_SUBCODE` enumeration is not stated; the name tables make that proof too large.
- **Configuration overflows.** The YAML handler's `strncpy` of up to 128 bytes into a 32-byte joint-name slot, and name writes beyond the 64 slots, are not modelled as memory effects. Slots outside the table are ignored.
- ControllerStatus.GetNotReadySubcode: the FJT caller invokes it without its argument (src/ActionServer_FJT.c:260). The model leaves the subcode a free input of `ActionServerFjt.GoalChecks`.
- ConfigFile.CheckYamlEvent: a sequence event with no active item dereferences a null pointer. The model reports `None` there instead of modelling a crash.
- **`bzero` size.** `bzero(faux_argv, MAX_REMAP_RULE_NUM)` in src/CommunicationExecutor.c:135 clears bytes, not pointers; the model does not look at the array's prior contents.
- **Unmodelled sources.** `RealTimeMotionControl.c`, `PositionMonitor.c`, `CommunicationExecutor.c`, `main.c`, the other service files, memory allocation and file/network utilities are not part of this model.
- ReadWriteIo.ReadSingleRegister: states only the result codes and success of a register read, not the value read, which comes from the controller.
- MotionControl.StartMotionMode: the controller statuses before and after the job start are parameters. The servo-on, job-start and wait-for-ROS loops between them are left out. So are the hold and release of a job that is already running, and the re-reading of each group's `prevPulsePos`. The queue clear is reported as a flag and its effect is `IncQueue.ClearAll`.
- MotionControl.Init: the result is the status, the joint slots and the all-groups-initialised flag. The increment loop that waits on that flag (src/MotionControl.c:367) is not part of this model. The stored trajectory is not modelled: `trajectoryToProcess`, `q_time`, `prevPulsePos`, `hasDataToProcess`, and the clearing of every group after a failed start check. With no points, the model reads zeros as the first point, while the firmware reads whatever its buffer held; both callers pass at least one point. The speed limit of axis i is compared with the velocity in motoman slot i, as written, although the limits are stored in ROS joint order.
- CtrlGroup.CompactLoopToSequential: when a group has fewer valid slots than `numAxes`, the compaction loops read `axisType.type[8]`, one past the array (src/CtrlGroup.c:581, 765-767). C leaves that read undefined; the model takes the slot as invalid. The same holds for CtrlGroup.CompactLoopToMoto.
- ActionServerFjt.RejectionWhileActive: whether a second goal can arrive while one is active depends on the goal limit the micro-ROS executor is configured with, which is not part of this model.

## Findings

| source | as written | input that shows it | evidently intended | confidence | as-written member | corrected member |
|---|---|---|---|---|---|---|
| src/TimeConversionUtils.h:25-35 | Truncating `/` and `%`; a negative remainder is stored into the unsigned `nanosec`. | -1 ns gives {0, 4294967295}, and -1 ms gives {0, 4293967296}. | Floor division, as the tests expect: -1 ns gives {-1, 999999999}. | high, not executed | TimeConversion.NegativeNanosCounterexample | TimeConversion.FloorRoundTrip |
| src/FauxCommandLineArgs.c:54-99 | The loop checks for one free slot before writing two, and after the loop only an exactly filled array is caught. | Eight rules and the 16-slot array of src/CommunicationExecutor.c:125-137: slots 16-18 are written and 19 is returned. | Refuse unless 2·rules + 3 slots are free. | high, not executed | FauxArgv.AsWrittenOverflows | FauxArgv.AsWrittenAgreesWithRoom |
| src/ServiceReadWriteIO.c:566-572 | `address *= 10` on a `UINT32` wraps. | Group address 429496731 wraps to 14 and is read; group address 429497731 wraps to 10014 and is written. | The scaled address, unwrapped, is checked against the ranges. | medium, not executed | ReadWriteIo.GroupAddressWraps | ReadWriteIo.IsValidReadAddressExact |
| src/ActionServer_FJT.c:526 | `abs` (an `int` function) is applied to an `INT64` time difference, which is truncated to 32 bits. | Desired 1 s, actual 1 s + 2^32 ns: the time check passes. | The absolute 64-bit difference is compared with the tolerance. | medium, not executed | ActionServerFjt.LateGoalSucceeds | ActionServerFjt.GoalCompleteExact |
| src/MotionControl.c:225 | `abs` of a `double` velocity truncates it to an integer first. | Velocity 1.5 against a limit of 1.2 passes. | The exact absolute velocity is compared with the limit. | medium, not executed | MotionControl.StartCheckPassesTooFast | MotionControl.StartStatus |
| src/ServiceSelectMotionTool.c:86 | A tool number ≥ `MAX_VALID_TOOL_INDEX` (63) is refused. | Tool 63, named the maximum valid index, is refused. | Tools 0..63 are accepted. | low, not executed | SelectTool.MaxValidToolRefused | SelectTool.SelectAgreesBelowMax |
