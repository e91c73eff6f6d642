/**
 Decoding of the two records the controller returns: the per-poll
 observation (motor speeds, battery voltage, error code) and the static
 device information read once at start-up.

 Both records are taken to be packed structures laid out field by field in
 declaration order with no padding: the observation is 12 bytes, the device information
 13 bytes. The transport read is a given pair of the read call's return code
 and the bytes it left in the record buffer; each decoder also reports the
 read it issued, register address and length.
 */
module Telemetry {
  import opened Results
  import opened Bytes
  import opened Checksums
  import opened Protocol

  /** Wire size of the observation record:
      four 16-bit speeds, 16-bit voltage, error byte, checksum byte. */
  const ObservationSize: nat := 12

  /** Wire size of the device information record: four single-byte fields,
      two 16-bit fields, one 32-bit field and one more byte. */
  const InfoSize: nat := 13

  /** Bit 15 of a reported motor speed flags saturation of the motor driver;
      it is not part of the speed. */
  const SaturationFlag: u16 := 0x8000

  /** A register read as the transport performs it: the register address
      and the number of bytes requested into the record buffer. */
  datatype BusRead = BusRead(register: byte, length: nat)

  /** The read a query issued and what it made of the bytes received. */
  datatype ReadOutcome<T> = ReadOutcome(issued: BusRead, result: Result<T, ReadError>)

  datatype Observation = Observation(
    rpmFrontLeft: u16,
    rpmFrontRight: u16,
    rpmBackRight: u16,
    rpmBackLeft: u16,
    batteryVoltageMv: u16,
    errorCode: byte,
    checksum: byte)
  {
    /** The fault code the error byte reports, if it is a known one. */
    function Fault(): (f: Option<ErrorCode>)
      ensures f.Some? ==> ErrorCodeByte(f.value) == errorCode
      ensures f.None? ==> forall e: ErrorCode :: ErrorCodeByte(e) != errorCode
    {
      ParseErrorCode(errorCode)
    }
  }

  datatype DeviceInfo = DeviceInfo(
    versionMajor: byte,
    versionMinor: byte,
    softwareType: byte,
    motorsControlled: byte,
    flights: u16,
    lastFlightTime: u16,
    totalFlightTime: u32,
    lastError: byte)
  {
    /** The fault code of the last recorded error, if it is a known one. */
    function LastFault(): (f: Option<ErrorCode>)
      ensures f.Some? ==> ErrorCodeByte(f.value) == lastError
      ensures f.None? ==> forall e: ErrorCode :: ErrorCodeByte(e) != lastError
    {
      ParseErrorCode(lastError)
    }
  }

  /** Why a register read produced no record. */
  datatype ReadError =
    | TransportError(code: int)
    | ChecksumMismatch(received: byte, computed: byte)

  /** A reported motor speed with its saturation flag masked off. */
  function ClearSaturation(raw: u16): (speed: u16)
    ensures speed < SaturationFlag
    ensures raw == speed || raw == speed | SaturationFlag
  {
    raw & !SaturationFlag
  }

  /** Clearing the flag leaves a speed that never had it unchanged. */
  lemma ClearSaturationKeeps(speed: u16)
    requires speed < SaturationFlag
    ensures ClearSaturation(speed) == speed
  {
  }

  /** The observation record as it lies in the buffer, field by field. */
  function PackObservation(o: Observation): (frame: seq<byte>)
    ensures |frame| == ObservationSize
  {
    EncodeBe16(o.rpmFrontLeft) + EncodeBe16(o.rpmFrontRight)
    + EncodeBe16(o.rpmBackRight) + EncodeBe16(o.rpmBackLeft)
    + EncodeBe16(o.batteryVoltageMv) + [o.errorCode, o.checksum]
  }

  /** Where each field of the observation lies in its packing. */
  lemma ObservationLayout(o: Observation)
    ensures PackObservation(o)[0..2] == EncodeBe16(o.rpmFrontLeft)
    ensures PackObservation(o)[2..4] == EncodeBe16(o.rpmFrontRight)
    ensures PackObservation(o)[4..6] == EncodeBe16(o.rpmBackRight)
    ensures PackObservation(o)[6..8] == EncodeBe16(o.rpmBackLeft)
    ensures PackObservation(o)[8..10] == EncodeBe16(o.batteryVoltageMv)
    ensures PackObservation(o)[10] == o.errorCode
    ensures PackObservation(o)[11] == o.checksum
  {
  }

  /** A record as the controller produces it: speeds below the saturation
      flag and a checksum (seed 0) over the eleven bytes before it. */
  predicate WellFormed(o: Observation)
  {
    && o.rpmFrontLeft < SaturationFlag
    && o.rpmFrontRight < SaturationFlag
    && o.rpmBackRight < SaturationFlag
    && o.rpmBackLeft < SaturationFlag
    && o.checksum == Checksum(0, PackObservation(o)[..ObservationSize - 1])
  }

  /** A received frame with the saturation flag, the top bit of each speed's
      high byte, cleared. */
  function MaskSaturationFlags(frame: seq<byte>): seq<byte>
    requires |frame| == ObservationSize
  {
    frame[0 := frame[0] & 0x7F][2 := frame[2] & 0x7F]
         [4 := frame[4] & 0x7F][6 := frame[6] & 0x7F]
  }

  /** The fields of a received frame, before any check. */
  function UnpackObservation(frame: seq<byte>): Observation
    requires |frame| == ObservationSize
  {
    Observation(
      ClearSaturation(Be16At(frame, 0)),
      ClearSaturation(Be16At(frame, 2)),
      ClearSaturation(Be16At(frame, 4)),
      ClearSaturation(Be16At(frame, 6)),
      Be16At(frame, 8),
      frame[10],
      frame[11])
  }

  /** The bytes of a speed with its saturation flag cleared. */
  lemma MaskedSpeedBytes(bs: seq<byte>, at: nat)
    requires at + 2 <= |bs|
    ensures EncodeBe16(ClearSaturation(Be16At(bs, at))) == [bs[at] & 0x7F, bs[at + 1]]
  {
  }

  /** Where each byte of a masked frame comes from. */
  lemma MaskLayout(frame: seq<byte>)
    requires |frame| == ObservationSize
    ensures MaskSaturationFlags(frame)[0..2] == [frame[0] & 0x7F, frame[1]]
    ensures MaskSaturationFlags(frame)[2..4] == [frame[2] & 0x7F, frame[3]]
    ensures MaskSaturationFlags(frame)[4..6] == [frame[4] & 0x7F, frame[5]]
    ensures MaskSaturationFlags(frame)[6..8] == [frame[6] & 0x7F, frame[7]]
    ensures MaskSaturationFlags(frame)[8..] == frame[8..]
  {
  }

  /** Two observation frames that agree field by field are equal. */
  lemma SameObservationFields(p: seq<byte>, q: seq<byte>)
    requires |p| == ObservationSize && |q| == ObservationSize
    requires p[0..2] == q[0..2] && p[2..4] == q[2..4]
    requires p[4..6] == q[4..6] && p[6..8] == q[6..8]
    requires p[8..10] == q[8..10] && p[10] == q[10] && p[11] == q[11]
    ensures p == q
  {
    assert forall k :: 0 <= k < 2 ==> p[k] == p[0..2][k] && q[k] == q[0..2][k];
    assert forall k :: 2 <= k < 4 ==> p[k] == p[2..4][k - 2] && q[k] == q[2..4][k - 2];
    assert forall k :: 4 <= k < 6 ==> p[k] == p[4..6][k - 4] && q[k] == q[4..6][k - 4];
    assert forall k :: 6 <= k < 8 ==> p[k] == p[6..8][k - 6] && q[k] == q[6..8][k - 6];
    assert forall k :: 8 <= k < 10 ==> p[k] == p[8..10][k - 8] && q[k] == q[8..10][k - 8];
  }

  /** Unpacking a frame and packing the record again gives the frame with its
      four saturation flags cleared, and nothing else changed. */
  lemma UnpackObservationRepacks(frame: seq<byte>)
    requires |frame| == ObservationSize
    ensures PackObservation(UnpackObservation(frame)) == MaskSaturationFlags(frame)
  {
    var o := UnpackObservation(frame);
    var m := MaskSaturationFlags(frame);
    ObservationLayout(o);
    MaskLayout(frame);
    MaskedSpeedBytes(frame, 0);
    MaskedSpeedBytes(frame, 2);
    MaskedSpeedBytes(frame, 4);
    MaskedSpeedBytes(frame, 6);
    Be16Reencode(frame, 8);
    assert m[8..10] == frame[8..10] && m[10] == frame[10] && m[11] == frame[11] by {
      assert m[8..10] == m[8..][0..2] && frame[8..10] == frame[8..][0..2];
      assert m[10] == m[8..][2] && m[11] == m[8..][3];
    }
    SameObservationFields(PackObservation(o), m);
  }

  /** Reads the observation register. A failed read yields a transport error
      before any checksum work. Otherwise the record is accepted exactly when
      the exclusive-or of all twelve bytes, checksum included, is zero; a
      rejected record yields no field at all. An accepted record is the
      big-endian unpacking of the frame once the saturation flags of the four
      speeds are cleared: the voltage is not masked, and the error and
      checksum bytes pass through. */
  function GetObservationData(readResult: int, frame: seq<byte>): (r: ReadOutcome<Observation>)
    requires |frame| == ObservationSize
    ensures r.issued == BusRead(0x20, 12)
    ensures readResult != 0 ==> r.result == Failure(TransportError(readResult))
    ensures readResult == 0 ==> (r.result.Success? <==> Checksum(0, frame) == 0)
    ensures readResult == 0 && r.result.Failure? ==>
              && r.result.error.ChecksumMismatch?
              && r.result.error.received == frame[11]
              && r.result.error.computed == Checksum(0, frame[..11])
    ensures r.result.Success? ==>
              && r.result.value.rpmFrontLeft < SaturationFlag
              && r.result.value.rpmFrontRight < SaturationFlag
              && r.result.value.rpmBackRight < SaturationFlag
              && r.result.value.rpmBackLeft < SaturationFlag
    ensures r.result.Success? ==> PackObservation(r.result.value) == MaskSaturationFlags(frame)
  {
    var issued := BusRead(RegGetObservation, ObservationSize);
    if readResult != 0 then
      ReadOutcome(issued, Failure(TransportError(readResult)))
    else
      var computed := Checksum(0, frame[..ObservationSize - 1]);
      TrailerMatches(0, frame);
      if computed != frame[ObservationSize - 1] then
        ReadOutcome(issued, Failure(ChecksumMismatch(frame[ObservationSize - 1], computed)))
      else
        UnpackObservationRepacks(frame);
        ReadOutcome(issued, Success(UnpackObservation(frame)))
  }

  /** A well-formed record packed into a frame by the controller decodes
      back to the same record. */
  lemma ObservationRoundTrip(o: Observation)
    requires WellFormed(o)
    ensures GetObservationData(0, PackObservation(o)).result == Success(o)
  {
    var frame := PackObservation(o);
    TrailerMatches(0, frame);
    ObservationLayout(o);
    Be16AtSlice(frame, 0);
    Be16AtSlice(frame, 2);
    Be16AtSlice(frame, 4);
    Be16AtSlice(frame, 6);
    Be16AtSlice(frame, 8);
    ClearSaturationKeeps(o.rpmFrontLeft);
    ClearSaturationKeeps(o.rpmFrontRight);
    ClearSaturationKeeps(o.rpmBackRight);
    ClearSaturationKeeps(o.rpmBackLeft);
    assert UnpackObservation(frame) == o;
  }

  /** Masking the top bit of a byte that does not have it set changes nothing. */
  lemma FlagClearByte(b: byte)
    requires b < 0x80
    ensures b & 0x7F == b
  {
  }

  /** An accepted frame without saturation flags is exactly the packing of
      the record decoded from it: decoding loses nothing. */
  lemma ObservationRepack(frame: seq<byte>)
    requires |frame| == ObservationSize
    requires GetObservationData(0, frame).result.Success?
    requires frame[0] < 0x80 && frame[2] < 0x80 && frame[4] < 0x80 && frame[6] < 0x80
    ensures PackObservation(GetObservationData(0, frame).result.value) == frame
  {
    var o := GetObservationData(0, frame).result.value;
    assert PackObservation(o) == MaskSaturationFlags(frame);
    assert MaskSaturationFlags(frame) == frame by {
      FlagClearByte(frame[0]);
      FlagClearByte(frame[2]);
      FlagClearByte(frame[4]);
      FlagClearByte(frame[6]);
    }
  }

  /** The fault an accepted observation reports is the one its eleventh
      byte, the error byte, stands for: the saturation mask never reaches it. */
  lemma ObservationFault(frame: seq<byte>)
    requires |frame| == ObservationSize
    requires GetObservationData(0, frame).result.Success?
    ensures GetObservationData(0, frame).result.value.Fault() == ParseErrorCode(frame[10])
  {
    var o := GetObservationData(0, frame).result.value;
    assert o.errorCode == frame[10] by {
      ObservationLayout(o);
      MaskLayout(frame);
      assert MaskSaturationFlags(frame)[10] == MaskSaturationFlags(frame)[8..][2];
    }
  }

  /** A motor speed reported as the bytes 0x80 0x64 (saturation flag set,
      magnitude 100) decodes to 100, not 32868. */
  lemma SaturatedSpeedScenario(frame: seq<byte>)
    requires |frame| == ObservationSize
    requires frame[0] == 0x80 && frame[1] == 0x64
    requires Checksum(0, frame) == 0
    ensures GetObservationData(0, frame).result.Success?
    ensures GetObservationData(0, frame).result.value.rpmFrontLeft == 100
  {
    var o := GetObservationData(0, frame).result.value;
    ObservationLayout(o);
    assert EncodeBe16(o.rpmFrontLeft) == MaskSaturationFlags(frame)[0..2];
    assert EncodeBe16(o.rpmFrontLeft) == [0x00, 0x64];
  }

  /** A frame that differs from an accepted one in a single byte is rejected
      as a checksum mismatch and yields no record. */
  lemma CorruptedObservationRejected(frame: seq<byte>, corrupted: seq<byte>, i: nat)
    requires |frame| == ObservationSize && |corrupted| == ObservationSize
    requires GetObservationData(0, frame).result.Success?
    requires i < ObservationSize && corrupted[i] != frame[i]
    requires forall j :: 0 <= j < ObservationSize && j != i ==> corrupted[j] == frame[j]
    ensures GetObservationData(0, corrupted).result.Failure?
    ensures GetObservationData(0, corrupted).result.error.ChecksumMismatch?
  {
    SingleByteChangeDetected(0, frame, corrupted, i);
  }

  /** The device information record as it lies in the buffer, field by field. */
  function PackInfo(info: DeviceInfo): (frame: seq<byte>)
    ensures |frame| == InfoSize
  {
    [info.versionMajor, info.versionMinor, info.softwareType, info.motorsControlled]
    + EncodeBe16(info.flights) + EncodeBe16(info.lastFlightTime)
    + EncodeBe32(info.totalFlightTime) + [info.lastError]
  }

  /** Where each field of the device information lies in its packing. */
  lemma InfoLayout(info: DeviceInfo)
    ensures PackInfo(info)[0] == info.versionMajor
    ensures PackInfo(info)[1] == info.versionMinor
    ensures PackInfo(info)[2] == info.softwareType
    ensures PackInfo(info)[3] == info.motorsControlled
    ensures PackInfo(info)[4..6] == EncodeBe16(info.flights)
    ensures PackInfo(info)[6..8] == EncodeBe16(info.lastFlightTime)
    ensures PackInfo(info)[8..12] == EncodeBe32(info.totalFlightTime)
    ensures PackInfo(info)[12] == info.lastError
  {
  }

  /** The fields of a received device information frame. */
  function UnpackInfo(frame: seq<byte>): DeviceInfo
    requires |frame| == InfoSize
  {
    DeviceInfo(
      frame[0], frame[1], frame[2], frame[3],
      Be16At(frame, 4), Be16At(frame, 6), Be32At(frame, 8),
      frame[12])
  }

  /** Unpacking a device information frame and packing it again gives back
      the frame: every byte lands in exactly one field. */
  lemma UnpackInfoRepacks(frame: seq<byte>)
    requires |frame| == InfoSize
    ensures PackInfo(UnpackInfo(frame)) == frame
  {
    var p := PackInfo(UnpackInfo(frame));
    InfoLayout(UnpackInfo(frame));
    Be16Reencode(frame, 4);
    Be16Reencode(frame, 6);
    Be32Reencode(frame, 8);
    assert forall k :: 4 <= k < 6 ==> p[k] == p[4..6][k - 4];
    assert forall k :: 6 <= k < 8 ==> p[k] == p[6..8][k - 6];
    assert forall k :: 8 <= k < 12 ==> p[k] == p[8..12][k - 8];
    assert forall k :: 0 <= k < InfoSize ==> p[k] == frame[k];
  }

  /** Reads the device information register. Any nonzero read result is a
      transport error carrying that result. The record carries no checksum
      and none is checked, so every successfully read frame is accepted, and
      the record returned is the one whose big-endian packing is exactly the
      frame read: the flight count and last flight time as 16-bit and the
      total flight time as 32-bit fields, the single bytes unchanged. */
  function GetInfo(readResult: int, frame: seq<byte>): (r: ReadOutcome<DeviceInfo>)
    requires |frame| == InfoSize
    ensures r.issued == BusRead(0xA0, 13)
    ensures r.result.Success? <==> readResult == 0
    ensures r.result.Failure? ==> r.result.error == TransportError(readResult)
    ensures r.result.Success? ==> PackInfo(r.result.value) == frame
  {
    var issued := BusRead(RegGetInfo, InfoSize);
    if readResult != 0 then
      ReadOutcome(issued, Failure(TransportError(readResult)))
    else
      UnpackInfoRepacks(frame);
      ReadOutcome(issued, Success(UnpackInfo(frame)))
  }

  /** Any record the controller packs is read back unchanged. */
  lemma InfoRoundTrip(info: DeviceInfo)
    ensures GetInfo(0, PackInfo(info)).result == Success(info)
  {
    var frame := PackInfo(info);
    InfoLayout(info);
    Be16AtSlice(frame, 4);
    Be16AtSlice(frame, 6);
    Be32AtSlice(frame, 8);
    assert UnpackInfo(frame) == info;
  }

  /** The last fault the device information reports is the one its final
      byte stands for. */
  lemma InfoFault(frame: seq<byte>)
    requires |frame| == InfoSize
    ensures GetInfo(0, frame).result.Success?
    ensures GetInfo(0, frame).result.value.LastFault() == ParseErrorCode(frame[12])
  {
    InfoLayout(GetInfo(0, frame).result.value);
  }
}
