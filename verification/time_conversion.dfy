/** The nine inline conversions of TimeConversionUtils.h between ROS
    `builtin_interfaces` Duration/Time messages, milliseconds, nanoseconds and a
    POSIX timespec.

    The C code uses the truncating `/` and `%` of C on a signed 64-bit value and
    stores the results into an `int32` `sec` and a `uint32` `nanosec`. Both the
    truncation and the 32-bit stores are written out here (`CDiv`, `CMod`,
    `WrapI32`, `WrapU32`). For negative inputs this differs from the floor
    semantics the message type documents; the `Floor*` functions are the
    corrected conversions and the lemmas at the end relate the two. */
module TimeConversion {

  const NanosPerSec: int := 1_000_000_000
  const MillisPerSec: int := 1000
  const NanosPerMilli: int := 1_000_000

  const Int32Min: int := -0x8000_0000
  const Int32Max: int := 0x7FFF_FFFF
  const Uint32Modulus: int := 0x1_0000_0000
  const Int64Min: int := -0x8000_0000_0000_0000
  const Int64Max: int := 0x7FFF_FFFF_FFFF_FFFF

  type Int32 = x: int | -0x8000_0000 <= x <= 0x7FFF_FFFF
  type Uint32 = x: int | 0 <= x < 0x1_0000_0000
  type Int64 = x: int | -0x8000_0000_0000_0000 <= x <= 0x7FFF_FFFF_FFFF_FFFF

  /** `builtin_interfaces/msg/Duration` */
  datatype Duration = Duration(sec: Int32, nanosec: Uint32)

  /** `builtin_interfaces/msg/Time`: same layout as Duration. */
  datatype Time = Time(sec: Int32, nanosec: Uint32)

  /** `struct timespec` with a 64-bit `tv_sec` and a signed `tv_nsec`. */
  datatype Timespec = Timespec(tvSec: int, tvNsec: int)

  // ---------------------------------------------------------------------
  // C integer semantics

  /** C99 `a / b` for a positive divisor: the quotient rounded toward zero. */
  function CDiv(a: int, b: int): (q: int)
    requires b > 0
    ensures a >= 0 ==> q == a / b
    ensures a < 0 ==> q == -((-a) / b)
  {
    if a >= 0 then a / b else -((-a) / b)
  }

  /** C99 `a % b` for a positive divisor: the remainder carries the sign of `a`. */
  function CMod(a: int, b: int): (r: int)
    requires b > 0
    ensures a == CDiv(a, b) * b + r
    ensures -b < r < b
    ensures a >= 0 ==> 0 <= r
    ensures a <= 0 ==> r <= 0
  {
    if a >= 0 then a % b else -((-a) % b)
  }

  /** Storing an integer into a `uint32` field keeps it modulo 2^32. */
  function WrapU32(x: int): (r: Uint32)
    ensures (r - x) % Uint32Modulus == 0
    ensures 0 <= x < Uint32Modulus ==> r == x
  {
    x % Uint32Modulus
  }

  /** Storing an integer into an `int32` field keeps it modulo 2^32, two's complement. */
  function WrapI32(x: int): (r: Int32)
    ensures (r - x) % Uint32Modulus == 0
    ensures Int32Min <= x <= Int32Max ==> r == x
  {
    var u := x % Uint32Modulus;
    if u <= Int32Max then u else u - Uint32Modulus
  }

  // ---------------------------------------------------------------------
  // Message -> integer (src/TimeConversionUtils.h:15-23, 37-45)

  /** `Ros_Duration_Msg_To_Millis`. The C code multiplies `nanosec` by the double
      0.000001 and truncates; this model takes that to be the integer quotient. */
  function DurationToMillis(d: Duration): (ms: Int64)
    ensures ms * NanosPerMilli <= d.sec * NanosPerSec + d.nanosec < (ms + 1) * NanosPerMilli
  {
    d.sec * MillisPerSec + d.nanosec / NanosPerMilli
  }

  /** `Ros_Duration_Msg_To_Nanos` */
  function DurationToNanos(d: Duration): (ns: Int64)
    ensures ns / NanosPerSec == d.sec + d.nanosec / NanosPerSec
  {
    d.sec * NanosPerSec + d.nanosec
  }

  /** The duration with a time stamp's fields. */
  function AsDuration(t: Time): Duration
  {
    Duration(t.sec, t.nanosec)
  }

  /** `Ros_Time_Msg_To_Millis`: the same arithmetic as for a duration. */
  function TimeToMillis(t: Time): (ms: Int64)
    ensures ms * NanosPerMilli <= t.sec * NanosPerSec + t.nanosec < (ms + 1) * NanosPerMilli
  {
    DurationToMillis(AsDuration(t))
  }

  /** `Ros_Time_Msg_To_Nanos`: the same arithmetic as for a duration. */
  function TimeToNanos(t: Time): (ns: Int64)
    ensures ns / NanosPerSec == t.sec + t.nanosec / NanosPerSec
  {
    DurationToNanos(AsDuration(t))
  }

  // ---------------------------------------------------------------------
  // Integer -> message, as written (src/TimeConversionUtils.h:25-35, 47-64)

  /** `Ros_Millis_To_Duration_Msg` */
  function MillisToDuration(x: Int64): (d: Duration)
  {
    Duration(WrapI32(CDiv(x, MillisPerSec)), WrapU32(CMod(x, MillisPerSec) * NanosPerMilli))
  }

  /** `Ros_Nanos_To_Duration_Msg` */
  function NanosToDuration(x: Int64): (d: Duration)
  {
    Duration(WrapI32(CDiv(x, NanosPerSec)), WrapU32(CMod(x, NanosPerSec)))
  }

  /** `Ros_Millis_To_Time_Msg` */
  function MillisToTime(x: Int64): (t: Time)
  {
    Time(WrapI32(CDiv(x, MillisPerSec)), WrapU32(CMod(x, MillisPerSec) * NanosPerMilli))
  }

  /** `Ros_Nanos_To_Time_Msg` */
  function NanosToTime(x: Int64): (t: Time)
  {
    Time(WrapI32(CDiv(x, NanosPerSec)), WrapU32(CMod(x, NanosPerSec)))
  }

  /** `Ros_Nanos_To_Timespec`: both fields are wide enough, so nothing wraps and the
      truncated pair always recombines to the input, with `tv_nsec` taking the
      sign of the input. */
  function NanosToTimespec(x: Int64): (ts: Timespec)
    ensures ts.tvSec * NanosPerSec + ts.tvNsec == x
    ensures -NanosPerSec < ts.tvNsec < NanosPerSec
    ensures x >= 0 ==> 0 <= ts.tvNsec && ts.tvSec == x / NanosPerSec
    ensures x < 0 ==> ts.tvNsec <= 0
  {
    Timespec(CDiv(x, NanosPerSec), CMod(x, NanosPerSec))
  }

  // ---------------------------------------------------------------------
  // Integer -> message, corrected: floor division, so `nanosec` is the
  // non-negative fraction the message type documents.

  function FloorMillisToDuration(x: Int64): (d: Duration)
    requires Int32Min * MillisPerSec <= x <= Int32Max * MillisPerSec + 999
    ensures d.sec * MillisPerSec <= x < (d.sec + 1) * MillisPerSec
    ensures d.nanosec == (x - d.sec * MillisPerSec) * NanosPerMilli
  {
    Duration(x / MillisPerSec, (x % MillisPerSec) * NanosPerMilli)
  }

  function FloorNanosToDuration(x: Int64): (d: Duration)
    requires Int32Min * NanosPerSec <= x <= Int32Max * NanosPerSec + (NanosPerSec - 1)
    ensures d.sec * NanosPerSec + d.nanosec == x
    ensures d.nanosec < NanosPerSec
  {
    Duration(x / NanosPerSec, x % NanosPerSec)
  }

  // ---------------------------------------------------------------------
  // Properties

  /** The largest millisecond value whose seconds still fit the message's `int32`. */
  const MaxMillis: int := Int32Max * MillisPerSec + 999
  /** The largest nanosecond value whose seconds still fit the message's `int32`. */
  const MaxNanos: int := Int32Max * NanosPerSec + (NanosPerSec - 1)

  /** Whole and sub-millisecond parts: the fraction below one millisecond is dropped. */
  lemma MillisDropsSubMillis(d: Duration)
    ensures DurationToMillis(d) == (d.sec * NanosPerSec + d.nanosec) / NanosPerMilli
    ensures DurationToMillis(Duration(0, 499_999_999)) == 499
    ensures DurationToMillis(Duration(1, 864)) == 1000
  {
  }

  /** For non-negative input the nanosecond conversion splits into whole seconds
      and a fraction below one second. */
  lemma NanosToDurationSplits(x: Int64)
    requires 0 <= x <= MaxNanos
    ensures NanosToDuration(x).sec == x / NanosPerSec
    ensures NanosToDuration(x).nanosec == x % NanosPerSec < NanosPerSec
  {
  }

  /** For non-negative input the millisecond conversion yields a `nanosec` that is a
      whole number of milliseconds below one second. */
  lemma MillisToDurationSplits(x: Int64)
    requires 0 <= x <= MaxMillis
    ensures MillisToDuration(x).sec == x / MillisPerSec
    ensures MillisToDuration(x).nanosec == (x % MillisPerSec) * NanosPerMilli
    ensures MillisToDuration(x).nanosec % NanosPerMilli == 0
    ensures MillisToDuration(x).nanosec < NanosPerSec
  {
  }

  /** The C conversions agree with the floor ones on every non-negative input. */
  lemma AsWrittenAgreesWithFloor(x: Int64)
    requires 0 <= x
    ensures x <= MaxNanos ==> NanosToDuration(x) == FloorNanosToDuration(x)
    ensures x <= MaxMillis ==> MillisToDuration(x) == FloorMillisToDuration(x)
  {
  }

  /** Round trip through a Duration in nanoseconds, over the range the message holds. */
  lemma NanosRoundTrip(x: Int64)
    requires 0 <= x <= MaxNanos
    ensures DurationToNanos(NanosToDuration(x)) == x
    ensures TimeToNanos(NanosToTime(x)) == x
  {
  }

  /** Round trip through a Duration in milliseconds, over the range the message holds. */
  lemma MillisRoundTrip(x: Int64)
    requires 0 <= x <= MaxMillis
    ensures DurationToMillis(MillisToDuration(x)) == x
    ensures TimeToMillis(MillisToTime(x)) == x
  {
  }

  /** The corrected conversions round-trip on the whole range of the message,
      negative values included. */
  lemma FloorRoundTrip(x: Int64)
    requires Int32Min * NanosPerSec <= x <= MaxNanos
    ensures DurationToNanos(FloorNanosToDuration(x)) == x
    ensures Int32Min * MillisPerSec <= x <= MaxMillis ==>
      DurationToMillis(FloorMillisToDuration(x)) == x
  {
  }

  /** A negative nanosecond count does not survive the C conversion: -1 becomes
      {sec 0, nanosec 4294967295}, which reads back as 4294967295. The corrected
      conversion gives {sec -1, nanosec 999999999}. */
  lemma NegativeNanosCounterexample()
    ensures NanosToDuration(-1) == Duration(0, 4294967295)
    ensures DurationToNanos(NanosToDuration(-1)) != -1
    ensures FloorNanosToDuration(-1) == Duration(-1, 999_999_999)
  {
  }

  /** A negative millisecond count does not survive the C conversion either: -1
      becomes {sec 0, nanosec 4293967296}, which reads back as 4293. */
  lemma NegativeMillisCounterexample()
    ensures MillisToDuration(-1) == Duration(0, 4293967296)
    ensures DurationToMillis(MillisToDuration(-1)) == 4293
    ensures FloorMillisToDuration(-1) == Duration(-1, 999_000_000)
  {
  }

  /** The Time and Duration variants are the same functions of (sec, nanosec). */
  lemma TimeMatchesDuration(sec: Int32, nanosec: Uint32, x: Int64)
    ensures TimeToMillis(Time(sec, nanosec)) == DurationToMillis(Duration(sec, nanosec))
    ensures TimeToNanos(Time(sec, nanosec)) == DurationToNanos(Duration(sec, nanosec))
    ensures MillisToTime(x).sec == MillisToDuration(x).sec
    ensures MillisToTime(x).nanosec == MillisToDuration(x).nanosec
    ensures NanosToTime(x).sec == NanosToDuration(x).sec
    ensures NanosToTime(x).nanosec == NanosToDuration(x).nanosec
  {
  }
}
