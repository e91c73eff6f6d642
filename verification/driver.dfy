/**
 The driver's command calls and its start-up sequence. Each command call
 issues exactly one register write and turns the transport's integer result
 into the driver's return code; start-up chains the device open, the bus
 configuration, the information read and the error clearing.

 The transport is not modelled: every bus call is represented by the
 integer (and, for reads, the bytes) it returned, given as a parameter.
 */
module Driver {
  import opened Results
  import opened Bytes
  import opened Checksums
  import opened Protocol
  import opened Telemetry
  import opened Commands

  /** The write a command call issued and the code it returned. */
  datatype CommandResult = CommandResult(issued: BusWrite, status: int)

  /** The return-code rule of the single-byte and empty commands: any
      nonzero write result is a failure. */
  function WriteStatus(writeResult: int): int
  {
    if writeResult != 0 then -1 else 0
  }

  /** Starts the motor drivers with the LR-LR rotation mapping: one byte,
      0b00000101, to register 0x40. */
  function StartMotors(writeResult: int): (r: CommandResult)
    ensures r.issued == BusWrite(0x40, [0x05])
    ensures DecodeCommand(r.issued) == Some(StartBldc(LRLR))
    ensures r.status == 0 <==> writeResult == 0
    ensures r.status != 0 ==> r.status == -1
  {
    var w := EncodeCommand(StartBldc(LRLR));
    CommandRoundTrip(StartBldc(LRLR));
    CommandResult(w, WriteStatus(writeResult))
  }

  /** Stops the motor drivers: an empty write to register 0x60. */
  function StopMotors(writeResult: int): (r: CommandResult)
    ensures r.issued == BusWrite(0x60, [])
    ensures DecodeCommand(r.issued) == Some(StopBldc)
    ensures r.status == 0 <==> writeResult == 0
    ensures r.status != 0 ==> r.status == -1
  {
    CommandResult(EncodeCommand(StopBldc), WriteStatus(writeResult))
  }

  /** Clears the controller's fault state: an empty write to register 0x80. */
  function ClearErrors(writeResult: int): (r: CommandResult)
    ensures r.issued == BusWrite(0x80, [])
    ensures DecodeCommand(r.issued) == Some(ClearError)
    ensures r.status == 0 <==> writeResult == 0
    ensures r.status != 0 ==> r.status == -1
  {
    CommandResult(EncodeCommand(ClearError), WriteStatus(writeResult))
  }

  /** Plays a sound: the selector byte, unchanged, to register 0x82. */
  function PlaySound(sound: byte, writeResult: int): (r: CommandResult)
    ensures r.issued == BusWrite(0x82, [sound])
    ensures DecodeCommand(r.issued) == Some(Sound(sound))
    ensures r.status == 0 <==> writeResult == 0
    ensures r.status != 0 ==> r.status == -1
  {
    CommandResult(EncodeCommand(Sound(sound)), WriteStatus(writeResult))
  }

  /** Toggles the controller's GPIO: the mode byte, unchanged, to register 0x4D. */
  function ToggleGpio(mode: byte, writeResult: int): (r: CommandResult)
    ensures r.issued == BusWrite(0x4D, [mode])
    ensures DecodeCommand(r.issued) == Some(Gpio(mode))
    ensures r.status == 0 <==> writeResult == 0
    ensures r.status != 0 ==> r.status == -1
  {
    CommandResult(EncodeCommand(Gpio(mode)), WriteStatus(writeResult))
  }

  /** The ESC-speed payload for four motor speeds: the four scaled
      speeds big-endian in the order front left, front right, back right,
      back left, then the security byte 0, then a checksum seeded with
      register 0x02 over the nine bytes before it. */
  function EscSpeedPayload(speeds: seq<real>): (p: seq<byte>)
    requires ValidSpeeds(speeds)
    ensures |p| == EscSpeedsSize
    ensures p[0..2] == EncodeBe16(ScaleToRpm(speeds[0]) as u16)
    ensures p[2..4] == EncodeBe16(ScaleToRpm(speeds[1]) as u16)
    ensures p[4..6] == EncodeBe16(ScaleToRpm(speeds[2]) as u16)
    ensures p[6..8] == EncodeBe16(ScaleToRpm(speeds[3]) as u16)
    ensures p[8] == 0x00
    ensures p[9] == Checksum(0x02, p[..9])
    ensures Checksum(0x02, p) == 0
  {
    var d := SealEscSpeeds(
      ScaleToRpm(speeds[0]) as u16, ScaleToRpm(speeds[1]) as u16,
      ScaleToRpm(speeds[2]) as u16, ScaleToRpm(speeds[3]) as u16);
    EscSpeedsLayout(d);
    PackEscSpeeds(d)
  }

  /** Sets the four motor speeds, as the driver is written: it issues the
      ESC-speed write to register 0x02 but reports success exactly when the
      write returned 1, because its failure test is `result - 1 != 0`. */
  function SetEscSpeedAsWritten(speeds: seq<real>, writeResult: int): (r: CommandResult)
    requires ValidSpeeds(speeds)
    ensures r.issued.register == 0x02
    ensures r.issued.payload == EscSpeedPayload(speeds)
    ensures r.status == 0 <==> writeResult == 1
    ensures r.status != 0 ==> r.status == -1
  {
    var w := BusWrite(RegSetEscSpeed, EscSpeedPayload(speeds));
    CommandResult(w, if writeResult - 1 != 0 then -1 else 0)
  }

  /** The as-written ESC-speed call disagrees with every other command call
      on what a write result means: a write that returned 0, which all the
      other calls report as success, is reported as a failure, and a write
      that returned 1, which they report as a failure, as a success. */
  lemma EscSpeedStatusInverted(speeds: seq<real>)
    requires ValidSpeeds(speeds)
    ensures StartMotors(0).status == 0 && SetEscSpeedAsWritten(speeds, 0).status == -1
    ensures StartMotors(1).status == -1 && SetEscSpeedAsWritten(speeds, 1).status == 0
  {
  }

  /** Sets the four motor speeds with the corrected failure test: the same
      write as the driver issues, reported as a success exactly when the
      write returned 0, like every other command call. */
  function SetEscSpeed(speeds: seq<real>, writeResult: int): (r: CommandResult)
    requires ValidSpeeds(speeds)
    ensures r.issued == EncodeCommand(EscSpeed(
              ScaleToRpm(speeds[0]) as u16, ScaleToRpm(speeds[1]) as u16,
              ScaleToRpm(speeds[2]) as u16, ScaleToRpm(speeds[3]) as u16))
    ensures r.issued == SetEscSpeedAsWritten(speeds, writeResult).issued
    ensures r.status == 0 <==> writeResult == 0
    ensures r.status != 0 ==> r.status == -1
  {
    CommandResult(BusWrite(RegSetEscSpeed, EscSpeedPayload(speeds)), WriteStatus(writeResult))
  }

  /** With the corrected test, all six command calls read a write result
      the same way. */
  lemma CommandStatusAgrees(speeds: seq<real>, sound: byte, mode: byte, writeResult: int)
    requires ValidSpeeds(speeds)
    ensures SetEscSpeed(speeds, writeResult).status == StartMotors(writeResult).status
    ensures StopMotors(writeResult).status == StartMotors(writeResult).status
    ensures ClearErrors(writeResult).status == StartMotors(writeResult).status
    ensures PlaySound(sound, writeResult).status == StartMotors(writeResult).status
    ensures ToggleGpio(mode, writeResult).status == StartMotors(writeResult).status
  {
  }

  /** The commanded speeds 0, 0.5, 1 and 0.25 become 3000, 7600, 12200 and
      5300 revolutions per minute on the wire. */
  lemma EscSpeedScenario()
    ensures EscSpeedPayload([0.0, 0.5, 1.0, 0.25])[0..2] == EncodeBe16(3000)
    ensures EscSpeedPayload([0.0, 0.5, 1.0, 0.25])[2..4] == EncodeBe16(7600)
    ensures EscSpeedPayload([0.0, 0.5, 1.0, 0.25])[4..6] == EncodeBe16(12200)
    ensures EscSpeedPayload([0.0, 0.5, 1.0, 0.25])[6..8] == EncodeBe16(5300)
  {
    var speeds := [0.0, 0.5, 1.0, 0.25];
    ScaleToRpmPoints();
    RpmOnWire(speeds[0], 3000);
    RpmOnWire(speeds[1], 7600);
    RpmOnWire(speeds[2], 12200);
    RpmOnWire(speeds[3], 5300);
  }

  /** A commanded speed reaches the wire as its own 16-bit value. */
  lemma RpmOnWire(scale: real, v: u16)
    requires ScaleDefined(scale) && ScaleToRpm(scale) == v as int
    ensures ScaleToRpm(scale) as u16 == v
  {
  }

  /** One bus operation of the start-up sequence. */
  datatype BusOp =
    | OpenDevice
    | ConfigureSlave
    | ReadRegister(read: BusRead)
    | WriteRegister(write: BusWrite)
    | StartPolling

  /** What each bus call of the start-up sequence returned. */
  datatype StartInputs = StartInputs(
    openResult: int,
    slaveConfigResult: int,
    infoReadResult: int,
    infoFrame: seq<byte>,
    clearErrorsResult: int,
    pollingStartResult: int)

  /** The code start-up returned and the bus operations it issued, in order. */
  datatype StartOutcome = StartOutcome(status: int, ops: seq<BusOp>)

  /** The start-up sequence. A failed device open returns its code at once.
      A failed bus configuration is only logged. A failed information read
      returns -1 before clearing errors; a failed error clearing returns -1
      before polling starts. Otherwise the polling start's own code is
      returned. The check that follows the error clearing in the driver
      (taken on a negative result, skipping the polling start) is kept, but
      its condition is already known false there. */
  function Start(t: StartInputs): (r: StartOutcome)
    requires |t.infoFrame| == InfoSize
    ensures t.openResult < 0 ==> r == StartOutcome(t.openResult, [OpenDevice])
    ensures t.openResult >= 0 ==>
              |r.ops| >= 3 && r.ops[..3] == [OpenDevice, ConfigureSlave, ReadRegister(BusRead(0xA0, 13))]
    ensures t.openResult >= 0 && t.infoReadResult != 0 ==>
              r == StartOutcome(-1, [OpenDevice, ConfigureSlave, ReadRegister(BusRead(0xA0, 13))])
    ensures t.openResult >= 0 && t.infoReadResult == 0 ==>
              |r.ops| >= 4 && r.ops[3] == WriteRegister(BusWrite(0x80, []))
    ensures t.openResult >= 0 && t.infoReadResult == 0 && t.clearErrorsResult != 0 ==>
              r.status == -1 && |r.ops| == 4
    ensures t.openResult >= 0 && t.infoReadResult == 0 && t.clearErrorsResult == 0 ==>
              r.status == t.pollingStartResult && |r.ops| == 5 && r.ops[4] == StartPolling
  {
    if t.openResult < 0 then
      StartOutcome(t.openResult, [OpenDevice])
    else
      // the configuration result only decides whether an error is logged
      var info := GetInfo(t.infoReadResult, t.infoFrame);
      var ops := [OpenDevice, ConfigureSlave, ReadRegister(info.issued)];
      if info.result.Status() < 0 then
        StartOutcome(-1, ops)
      else
        var clear := ClearErrors(t.clearErrorsResult);
        var ops := ops + [WriteRegister(clear.issued)];
        if clear.status < 0 then
          StartOutcome(-1, ops)
        else if clear.status < 0 then
          StartOutcome(clear.status, ops)
        else
          StartOutcome(t.pollingStartResult, ops + [StartPolling])
  }

  /** Polling starts only after the information was read and the errors were
      cleared, and a non-negative start-up code means both succeeded. */
  lemma PollingFollowsClearErrors(t: StartInputs)
    requires |t.infoFrame| == InfoSize
    ensures StartPolling in Start(t).ops ==>
              && t.infoReadResult == 0
              && t.clearErrorsResult == 0
              && Start(t).ops[..4] == [OpenDevice, ConfigureSlave, ReadRegister(BusRead(RegGetInfo, InfoSize)),
                                       WriteRegister(EncodeCommand(ClearError))]
    ensures Start(t).status >= 0 ==>
              t.openResult >= 0 && t.infoReadResult == 0 && t.clearErrorsResult == 0
  {
  }

  /** The bus configuration result never changes what start-up does. */
  lemma SlaveConfigIgnored(t: StartInputs, other: int)
    requires |t.infoFrame| == InfoSize
    ensures Start(t.(slaveConfigResult := other)) == Start(t)
  {
  }
}
