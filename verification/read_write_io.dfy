/** The I/O services (src/ServiceReadWriteIO.c) on the YRC1000 build: which
    addresses may be read or written, which values may be written, how a
    group (byte) of eight signals is split into bits and gathered back, the
    M-register address normalisation, and the result code each request gets.
    The controller's `mpReadIO`/`mpWriteIO` become parameters (their success
    and the values read) and outputs (the writes issued). */
module ReadWriteIo {
  import opened TimeConversion

  /** `IoAccessSize` */
  datatype AccessSize = Bit | Group | Register

  /** `IoResultCodes` (numeric values come from an interface package that is
      not part of this model). */
  datatype IoResult =
    | IoOk
    | ReadAddressInvalid
    | WriteAddressInvalid
    | WriteValueInvalid
    | ReadApiError
    | WriteApiError

  /** An inclusive address range. */
  datatype Range = Range(lo: nat, hi: nat)

  predicate InRange(r: Range, a: int) { r.lo <= a <= r.hi }

  const GeneralIn := Range(10, 5127)
  const GeneralOut := Range(10010, 15127)
  const ExternalIn := Range(20010, 25127)
  const NetworkIn := Range(27010, 29567)
  const NetworkOut := Range(37010, 39567)
  const ExternalOut := Range(30010, 35127)
  const SpecificIn := Range(40010, 42567)
  const SpecificOut := Range(50010, 55127)
  const IfPanel := Range(60010, 60647)
  const AuxRelay := Range(70010, 79997)
  const ControlStatus := Range(80010, 85127)
  const PseudoInput := Range(87010, 87207)
  const RegisterRead := Range(1000000, 1000999)
  const RegisterWrite := Range(1000000, 1000559)

  /** The thirteen readable ranges of the YRC1000. */
  const ReadRanges: seq<Range> := [GeneralIn, GeneralOut, ExternalIn, NetworkIn, NetworkOut, ExternalOut,
                                   SpecificIn, SpecificOut, IfPanel, AuxRelay, ControlStatus, PseudoInput, RegisterRead]

  /** The four writable ranges. */
  const WriteRanges: seq<Range> := [GeneralOut, NetworkIn, IfPanel, RegisterWrite]

  predicate InAny(rs: seq<Range>, a: int)
  {
    exists k :: 0 <= k < |rs| && InRange(rs[k], a)
  }

  /** The signal number the checks look at: group addresses name a byte, whose
      first signal is the address times ten, computed as `address *= 10` on a
      `UINT32`, so it wraps at 2^32. */
  function Scaled(address: Uint32, size: AccessSize): Uint32
  {
    if size == Group then WrapU32(address * 10) else address
  }

  /** The same signal number without the wrap. */
  function ScaledExact(address: Uint32, size: AccessSize): int
  {
    if size == Group then address * 10 else address
  }

  /** Signal numbers ending in 8 or 9 do not exist, except for M registers. */
  predicate DigitOk(a: int, size: AccessSize)
  {
    size == Register || a % 10 <= 7
  }

  /** `Ros_IoServer_IsValidReadAddress` as written. */
  function IsValidReadAddress(address: Uint32, size: AccessSize): (ok: bool)
    ensures ok ==> exists k :: 0 <= k < |ReadRanges| && InRange(ReadRanges[k], Scaled(address, size))
    ensures size != Register && Scaled(address, size) % 10 > 7 ==> !ok
    ensures DigitOk(Scaled(address, size), size) && InAny(ReadRanges, Scaled(address, size)) ==> ok
  {
    var a := Scaled(address, size);
    DigitOk(a, size) && InAny(ReadRanges, a)
  }

  /** `Ros_IoServer_IsValidWriteAddress` as written. */
  function IsValidWriteAddress(address: Uint32, size: AccessSize): (ok: bool)
    ensures ok ==> exists k :: 0 <= k < |WriteRanges| && InRange(WriteRanges[k], Scaled(address, size))
    ensures size != Register && Scaled(address, size) % 10 > 7 ==> !ok
    ensures DigitOk(Scaled(address, size), size) && InAny(WriteRanges, Scaled(address, size)) ==> ok
  {
    var a := Scaled(address, size);
    DigitOk(a, size) && InAny(WriteRanges, a)
  }

  /** Everything that may be written may also be read. */
  lemma WritableIsReadable(address: Uint32, size: AccessSize)
    ensures IsValidWriteAddress(address, size) ==> IsValidReadAddress(address, size)
  {
    var a := Scaled(address, size);
    if IsValidWriteAddress(address, size) {
      var k :| 0 <= k < |WriteRanges| && InRange(WriteRanges[k], a);
      var j := if k == 0 then 1 else if k == 1 then 3 else if k == 2 then 8 else 12;
      assert InRange(ReadRanges[j], a);
    }
  }

  /** Inputs are readable but not writable; M registers above 559 likewise. */
  lemma ReadOnlyAddresses()
    ensures IsValidReadAddress(10, Bit) && !IsValidWriteAddress(10, Bit)
    ensures IsValidReadAddress(1000600, Register) && !IsValidWriteAddress(1000600, Register)
    ensures IsValidReadAddress(1000008, Register) && !IsValidReadAddress(18, Bit)
  {
    assert InRange(ReadRanges[0], 10);
    assert InRange(ReadRanges[12], 1000600);
    assert InRange(ReadRanges[12], 1000008);
  }

  /** `Ros_IoServer_IsValidWriteValue` */
  function IsValidWriteValue(value: bv32, size: AccessSize): (ok: bool)
    ensures ok <==> value <= MaxValue(size)
  {
    if size == Register && value > 0xFFFF then false
    else if size == Group && value > 0xFF then false
    else if size == Bit && value > 1 then false
    else true
  }

  /** The largest value a write of each size carries: one bit, one byte, one word. */
  function MaxValue(size: AccessSize): bv32
  {
    match size
    case Bit => 1
    case Group => 0xFF
    case Register => 0xFFFF
  }

  // ---------------------------------------------------------------------
  // Group access without the wrap

  /** The read check with the byte address scaled without overflow. */
  function IsValidReadAddressExact(address: Uint32, size: AccessSize): (ok: bool)
    ensures ok && size == Group ==> address * 10 < Uint32Modulus && Scaled(address, size) == address * 10
    ensures ok ==> IsValidReadAddress(address, size)
  {
    var a := ScaledExact(address, size);
    assert InAny(ReadRanges, a) ==> a < Uint32Modulus;
    DigitOk(a, size) && InAny(ReadRanges, a)
  }

  /** The write check with the byte address scaled without overflow. */
  function IsValidWriteAddressExact(address: Uint32, size: AccessSize): (ok: bool)
    ensures ok && size == Group ==> address * 10 < Uint32Modulus && Scaled(address, size) == address * 10
    ensures ok ==> IsValidWriteAddress(address, size)
  {
    var a := ScaledExact(address, size);
    assert InAny(WriteRanges, a) ==> a < Uint32Modulus;
    DigitOk(a, size) && InAny(WriteRanges, a)
  }

  /** Group address 429496731 is far outside every range, yet its wrapped
      scaling is 14, a general input; the request is then served from the
      wrapped signals 14 .. 21. Likewise group address 429497731 wraps to the
      general output 10014 and is written. */
  lemma GroupAddressWraps()
    ensures IsValidReadAddress(429496731, Group) && !IsValidReadAddressExact(429496731, Group)
    ensures GroupSignals(429496731)[0] == 14
    ensures IsValidWriteAddress(429497731, Group) && !IsValidWriteAddressExact(429497731, Group)
    ensures WriteGroupIo(429497731, 1, true).1[0] == Write(10014, 1)
  {
    assert WrapU32(429496731 * 10) == 14;
    assert InRange(ReadRanges[0], 14);
    assert WrapU32(429497731 * 10) == 10014;
    assert InRange(WriteRanges[0], 10014);
  }

  /** Below the wrap point the checks as written and the exact checks agree. */
  lemma AsWrittenAgreesBelowWrap(address: Uint32, size: AccessSize)
    requires address * 10 < Uint32Modulus
    ensures IsValidReadAddress(address, size) == IsValidReadAddressExact(address, size)
    ensures IsValidWriteAddress(address, size) == IsValidWriteAddressExact(address, size)
  {
  }

  // ---------------------------------------------------------------------
  // Group bit packing

  /** The eight signals of a group write: signal `i` carries bit `i` of the
      value, `(value & (1 << i)) >> i`. */
  function SplitBits(value: bv32): (bits: seq<bv32>)
    ensures |bits| == 8
    ensures forall i :: 0 <= i < 8 ==> bits[i] <= 1
  {
    seq(8, i requires 0 <= i < 8 => BitOf(value, i))
  }

  /** Bit `i` of `value`, `(value & (1 << i)) >> i`. */
  function BitOf(value: bv32, i: nat): (b: bv32)
    requires i < 8
    ensures b <= 1
  {
    (value & (1 << i as bv5)) >> i as bv5
  }

  /** Signal `i` shifted to bit `i` of the read value. */
  function Placed(signals: seq<bv16>, i: nat): bv32
    requires i < |signals| && i < 8
  {
    (signals[i] as bv32) << i as bv5
  }

  /** The value of a group read: each of the eight signals ORed in at its bit. */
  function Gather(signals: seq<bv16>): bv32
    requires |signals| == 8
  {
    Placed(signals, 0) | Placed(signals, 1) | Placed(signals, 2) | Placed(signals, 3)
      | Placed(signals, 4) | Placed(signals, 5) | Placed(signals, 6) | Placed(signals, 7)
  }

  /** Gathering the signals of a split byte gives the byte back. */
  lemma GatherSplit(value: bv32, signals: seq<bv16>)
    requires value <= 0xFF && |signals| == 8
    requires forall i :: 0 <= i < 8 ==> signals[i] as bv32 == BitOf(value, i)
    ensures Gather(signals) == value
  {
    var b0, b1, b2, b3 := BitOf(value, 0), BitOf(value, 1), BitOf(value, 2), BitOf(value, 3);
    var b4, b5, b6, b7 := BitOf(value, 4), BitOf(value, 5), BitOf(value, 6), BitOf(value, 7);
    assert Placed(signals, 0) == b0 && Placed(signals, 1) == b1 << 1 && Placed(signals, 2) == b2 << 2
      && Placed(signals, 3) == b3 << 3;
    assert Placed(signals, 4) == b4 << 4 && Placed(signals, 5) == b5 << 5 && Placed(signals, 6) == b6 << 6
      && Placed(signals, 7) == b7 << 7;
    assert b0 | (b1 << 1) | (b2 << 2) | (b3 << 3) | (b4 << 4) | (b5 << 5) | (b6 << 6) | (b7 << 7) == value;
  }

  /** The signals a group write of `value` leaves: bit `i` on signal `i`. */
  function SplitSignals(value: bv32): (signals: seq<bv16>)
    ensures |signals| == 8 && forall i :: 0 <= i < 8 ==> signals[i] as bv32 == BitOf(value, i)
  {
    seq(8, i requires 0 <= i < 8 => Narrow(BitOf(value, i)))
  }

  /** What the controller keeps of a written value: one bit for a single
      signal, the eight signals of a group as read back, sixteen bits for a
      register. */
  function Kept(value: bv32, size: AccessSize): bv32
  {
    match size
    case Bit => value & 1
    case Group => Gather(SplitSignals(value))
    case Register => value & 0xFFFF
  }

  /** The value check accepts exactly the values that survive the write: an
      accepted value reads back unchanged, and a refused one would lose bits. */
  lemma WriteValueKept(value: bv32, size: AccessSize)
    ensures IsValidWriteValue(value, size) <==> Kept(value, size) == value
  {
    if size == Group {
      var signals := SplitSignals(value);
      var b0, b1, b2, b3 := BitOf(value, 0), BitOf(value, 1), BitOf(value, 2), BitOf(value, 3);
      var b4, b5, b6, b7 := BitOf(value, 4), BitOf(value, 5), BitOf(value, 6), BitOf(value, 7);
      assert Placed(signals, 0) == b0 && Placed(signals, 1) == b1 << 1 && Placed(signals, 2) == b2 << 2
        && Placed(signals, 3) == b3 << 3;
      assert Placed(signals, 4) == b4 << 4 && Placed(signals, 5) == b5 << 5 && Placed(signals, 6) == b6 << 6
        && Placed(signals, 7) == b7 << 7;
      assert b0 | (b1 << 1) | (b2 << 2) | (b3 << 3) | (b4 << 4) | (b5 << 5) | (b6 << 6) | (b7 << 7) == value & 0xFF;
    }
  }

  /** With signals of 0 and 1, the read value's bit `i` is signal `i`, and the
      value is a byte. */
  lemma GatherReadsEachSignal(signals: seq<bv16>)
    requires |signals| == 8 && forall i :: 0 <= i < 8 ==> signals[i] <= 1
    ensures Gather(signals) <= 0xFF
    ensures forall i :: 0 <= i < 8 ==> BitOf(Gather(signals), i) == signals[i] as bv32
  {
    var s0, s1, s2, s3 := signals[0] as bv32, signals[1] as bv32, signals[2] as bv32, signals[3] as bv32;
    var s4, s5, s6, s7 := signals[4] as bv32, signals[5] as bv32, signals[6] as bv32, signals[7] as bv32;
    assert Gather(signals) == s0 | (s1 << 1) | (s2 << 2) | (s3 << 3) | (s4 << 4) | (s5 << 5) | (s6 << 6) | (s7 << 7);
    OrOfBits(s0, s1, s2, s3, s4, s5, s6, s7);
  }

  lemma OrOfBits(s0: bv32, s1: bv32, s2: bv32, s3: bv32, s4: bv32, s5: bv32, s6: bv32, s7: bv32)
    requires s0 <= 1 && s1 <= 1 && s2 <= 1 && s3 <= 1 && s4 <= 1 && s5 <= 1 && s6 <= 1 && s7 <= 1
    ensures var g := s0 | (s1 << 1) | (s2 << 2) | (s3 << 3) | (s4 << 4) | (s5 << 5) | (s6 << 6) | (s7 << 7);
      g <= 0xFF
      && BitOf(g, 0) == s0 && BitOf(g, 1) == s1 && BitOf(g, 2) == s2 && BitOf(g, 3) == s3
      && BitOf(g, 4) == s4 && BitOf(g, 5) == s5 && BitOf(g, 6) == s6 && BitOf(g, 7) == s7
  {
  }

  // ---------------------------------------------------------------------
  // Requests

  /** A service response: value read (0 for writes), result code, success. */
  datatype Response = Response(value: bv32, code: IoResult, success: bool)

  /** A signal write handed to `mpWriteIO`. */
  datatype Write = Write(address: nat, value: bv32)

  /** `Ros_ServiceReadSingleIO_Trigger`: `apiOk` and `apiValue` are the result
      of `mpReadIO` on the address. */
  function ReadSingleIo(address: Uint32, apiOk: bool, apiValue: bv16): (r: Response)
    ensures r.success <==> IsValidReadAddress(address, Bit) && apiOk
    ensures !IsValidReadAddress(address, Bit) <==> r.code == ReadAddressInvalid
    ensures !IsValidReadAddress(address, Bit) ==> r.value == 0 && !r.success
    ensures r.code == IoOk <==> r.success
    ensures r.code in {IoOk, ReadAddressInvalid, ReadApiError}
  {
    if IsValidReadAddress(address, Bit) then
      Response(apiValue as bv32, if apiOk then IoOk else ReadApiError, apiOk)
    else Response(0, ReadAddressInvalid, false)
  }

  /** `Ros_ServiceReadGroupIO_Trigger`: the eight signals of the byte are read
      and gathered. */
  function ReadGroupIo(address: Uint32, apiOk: bool, signals: seq<bv16>): (r: Response)
    requires |signals| == 8
    ensures r.success <==> IsValidReadAddress(address, Group) && apiOk
    ensures !IsValidReadAddress(address, Group) <==> r.code == ReadAddressInvalid
    ensures !IsValidReadAddress(address, Group) ==> r.value == 0
    ensures IsValidReadAddress(address, Group) ==> r.value == Gather(signals)
    ensures r.code == IoOk <==> r.success
  {
    if IsValidReadAddress(address, Group) then
      Response(Gather(signals), if apiOk then IoOk else ReadApiError, apiOk)
    else Response(0, ReadAddressInvalid, false)
  }

  /** The signals a group request covers: `address * 10 + i` for `i` in
      0 .. 7, computed on a `UINT32`; below the wrap point these are eight
      consecutive signals starting at the byte's first. */
  function GroupSignals(address: Uint32): (s: seq<nat>)
    ensures |s| == 8
    ensures address * 10 + 7 < Uint32Modulus ==> forall i :: 0 <= i < 8 ==> s[i] == address * 10 + i
  {
    var s := seq(8, i requires 0 <= i < 8 => Signal(address, i));
    assert forall i :: 0 <= i < 8 ==> s[i] == Signal(address, i) && (address * 10 + 7 < Uint32Modulus ==> s[i] == address * 10 + i);
    s
  }

  /** Signal `i` of a group: `address * 10 + i` on a `UINT32`. */
  function Signal(address: Uint32, i: nat): nat
  {
    WrapU32(address * 10 + i)
  }

  /** Which rejection a write gets: a bad address before a bad value. */
  function WriteRejection(addressOk: bool, valueOk: bool): (code: IoResult)
    requires !(addressOk && valueOk)
    ensures !addressOk <==> code == WriteAddressInvalid
    ensures addressOk ==> code == WriteValueInvalid
  {
    if !addressOk then WriteAddressInvalid else WriteValueInvalid
  }

  /** `Ros_ServiceWriteSingleIO_Trigger`: the response and the writes issued. */
  function WriteSingleIo(address: Uint32, value: bv32, apiOk: bool): (r: (Response, seq<Write>))
    ensures r.0.success <==> IsValidWriteAddress(address, Bit) && IsValidWriteValue(value, Bit) && apiOk
    ensures !IsValidWriteAddress(address, Bit) <==> r.0.code == WriteAddressInvalid
    ensures IsValidWriteAddress(address, Bit) && !IsValidWriteValue(value, Bit) <==> r.0.code == WriteValueInvalid
    ensures r.1 == (if IsValidWriteAddress(address, Bit) && value <= 1 then [Write(address, value)] else [])
    ensures r.0.code == IoOk <==> r.0.success
  {
    var addressOk := IsValidWriteAddress(address, Bit);
    var valueOk := IsValidWriteValue(value, Bit);
    if addressOk && valueOk then
      (Response(0, if apiOk then IoOk else WriteApiError, apiOk), [Write(address, value)])
    else (Response(0, WriteRejection(addressOk, valueOk), false), [])
  }

  /** `Ros_ServiceWriteGroupIO_Trigger`: a byte is written as eight signals. */
  function WriteGroupIo(address: Uint32, value: bv32, apiOk: bool): (r: (Response, seq<Write>))
    ensures r.0.success <==> IsValidWriteAddress(address, Group) && value <= 0xFF && apiOk
    ensures !IsValidWriteAddress(address, Group) <==> r.0.code == WriteAddressInvalid
    ensures IsValidWriteAddress(address, Group) && value > 0xFF <==> r.0.code == WriteValueInvalid
    ensures |r.1| == 0 || |r.1| == 8
    ensures |r.1| == 8 <==> IsValidWriteAddress(address, Group) && value <= 0xFF
    ensures |r.1| == 8 ==> forall i :: 0 <= i < 8 ==>
      r.1[i].address == GroupSignals(address)[i] && r.1[i].value == SplitBits(value)[i]
  {
    var addressOk := IsValidWriteAddress(address, Group);
    var valueOk := IsValidWriteValue(value, Group);
    if addressOk && valueOk then
      var bits := SplitBits(value);
      var signals := GroupSignals(address);
      (Response(0, if apiOk then IoOk else WriteApiError, apiOk),
       seq(8, i requires 0 <= i < 8 => Write(signals[i], bits[i])))
    else (Response(0, WriteRejection(addressOk, valueOk), false), [])
  }

  /** A byte written to a group and read back from the same signals is the
      byte that was written. */
  lemma GroupWriteThenRead(address: Uint32, value: bv32)
    requires IsValidWriteAddress(address, Group) && value <= 0xFF
    ensures var writes := WriteGroupIo(address, value, true).1;
      IsValidReadAddress(address, Group) && ReadGroupIo(address, true, WrittenSignals(writes)).value == value
  {
    var writes := WriteGroupIo(address, value, true).1;
    var signals := WrittenSignals(writes);
    forall i | 0 <= i < 8
      ensures signals[i] as bv32 == BitOf(value, i)
    {
    }
    GatherSplit(value, signals);
    WritableIsReadable(address, Group);
  }


  /** What the eight signals read after a group write. */
  function WrittenSignals(writes: seq<Write>): (signals: seq<bv16>)
    requires |writes| == 8 && forall i :: 0 <= i < 8 ==> writes[i].value <= 1
    ensures |signals| == 8 && forall i :: 0 <= i < 8 ==> signals[i] as bv32 == writes[i].value
  {
    seq(8, i requires 0 <= i < 8 => Narrow(writes[i].value))
  }

  function Narrow(b: bv32): (n: bv16)
    requires b <= 1
    ensures n as bv32 == b
  {
    b as bv16
  }

  /** `M` registers may be named by their index alone: addresses below 1000000
      get 1000000 added. */
  function NormaliseRegister(address: Uint32): (a: Uint32)
    ensures a >= 1000000
    ensures address >= 1000000 ==> a == address
    ensures address < 1000000 ==> a - address == 1000000
  {
    if address < 1000000 then address + 1000000 else address
  }

  lemma NormaliseIdempotent(address: Uint32)
    ensures NormaliseRegister(NormaliseRegister(address)) == NormaliseRegister(address)
  {
  }

  /** `Ros_ServiceReadMRegister_Trigger` */
  function ReadMRegister(address: Uint32, apiOk: bool, apiValue: bv16): (r: Response)
    ensures r.success <==> NormaliseRegister(address) <= RegisterRead.hi && apiOk
    ensures r.code == ReadAddressInvalid <==> NormaliseRegister(address) > RegisterRead.hi
    ensures r.code == IoOk <==> r.success
  {
    var a := NormaliseRegister(address);
    assert IsValidReadAddress(a, Register) <==> a <= RegisterRead.hi by {
      if a <= RegisterRead.hi { assert InRange(ReadRanges[12], a); }
    }
    ReadSingleRegister(a, apiOk, apiValue)
  }

  function ReadSingleRegister(a: Uint32, apiOk: bool, apiValue: bv16): (r: Response)
    ensures r.success <==> IsValidReadAddress(a, Register) && apiOk
    ensures r.code == ReadAddressInvalid <==> !IsValidReadAddress(a, Register)
    ensures r.code == IoOk <==> r.success
  {
    if IsValidReadAddress(a, Register) then Response(apiValue as bv32, if apiOk then IoOk else ReadApiError, apiOk)
    else Response(0, ReadAddressInvalid, false)
  }

  /** `Ros_ServiceWriteMRegister_Trigger` */
  function WriteMRegister(address: Uint32, value: bv32, apiOk: bool): (r: (Response, seq<Write>))
    ensures r.0.success <==> NormaliseRegister(address) <= RegisterWrite.hi && value <= 0xFFFF && apiOk
    ensures r.0.code == WriteAddressInvalid <==> NormaliseRegister(address) > RegisterWrite.hi
    ensures r.0.code == WriteValueInvalid <==> NormaliseRegister(address) <= RegisterWrite.hi && value > 0xFFFF
    ensures r.1 == (if NormaliseRegister(address) <= RegisterWrite.hi && value <= 0xFFFF
                    then [Write(NormaliseRegister(address), value)] else [])
  {
    var a := NormaliseRegister(address);
    var addressOk := IsValidWriteAddress(a, Register);
    assert addressOk <==> a <= RegisterWrite.hi by {
      if a <= RegisterWrite.hi { assert InRange(WriteRanges[3], a); }
    }
    var valueOk := IsValidWriteValue(value, Register);
    if addressOk && valueOk then
      (Response(0, if apiOk then IoOk else WriteApiError, apiOk), [Write(a, value)])
    else (Response(0, WriteRejection(addressOk, valueOk), false), [])
  }
}
