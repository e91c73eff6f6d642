/**
 The fixed wire contract of the Bebop motor-controller bus: register
 addresses, device error codes, rotation mappings and the RPM command range.
 */
module Protocol {
  import opened Bytes
  import opened Results

  // Register addresses.
  const RegSetEscSpeed: byte := 0x02
  const RegGetObservation: byte := 0x20
  const RegStartBldc: byte := 0x40
  const RegStopBldc: byte := 0x60
  const RegToggleGpio: byte := 0x4D
  const RegClearError: byte := 0x80
  const RegPlaySound: byte := 0x82
  const RegGetInfo: byte := 0xA0

  /** Bounds of the commanded motor speed, in revolutions per minute. */
  const RpmMin: int := 3000
  const RpmMax: int := 12200

  /** Fault codes the controller reports in the error field of its records.
      They are plain values, not bit flags. */
  datatype ErrorCode =
    | NoError
    | EepromFault
    | Stalled
    | PropellerSecurity
    | CommunicationLost
    | LowBattery
    | LipoCellFault
    | BldcFault

  /** The wire value of each fault code. */
  function ErrorCodeByte(e: ErrorCode): byte
  {
    match e
    case NoError => 0x00
    case EepromFault => 0x01
    case Stalled => 0x02
    case PropellerSecurity => 0x03
    case CommunicationLost => 0x04
    case LowBattery => 0x09
    case LipoCellFault => 0x0A
    case BldcFault => 0x0B
  }

  /** The fault code a wire value stands for, if it stands for one. */
  function ParseErrorCode(b: byte): (r: Option<ErrorCode>)
    ensures r.Some? ==> ErrorCodeByte(r.value) == b
    ensures r.None? ==> forall e: ErrorCode :: ErrorCodeByte(e) != b
  {
    if b == 0x00 then Some(NoError)
    else if b == 0x01 then Some(EepromFault)
    else if b == 0x02 then Some(Stalled)
    else if b == 0x03 then Some(PropellerSecurity)
    else if b == 0x04 then Some(CommunicationLost)
    else if b == 0x09 then Some(LowBattery)
    else if b == 0x0A then Some(LipoCellFault)
    else if b == 0x0B then Some(BldcFault)
    else None
  }

  /** Every fault code is recognised from its own wire value, so distinct
      codes have distinct wire values. */
  lemma ErrorCodeRoundTrip(e: ErrorCode)
    ensures ParseErrorCode(ErrorCodeByte(e)) == Some(e)
  {
  }

  /** Which diagonal pair of motors spins which way. */
  datatype Rotation =
    | RLRL  // front left and back right clockwise
    | LRLR  // front left and back right counterclockwise

  /** The command byte that selects each rotation mapping. */
  function RotationByte(m: Rotation): byte
  {
    match m
    case RLRL => 0x0A
    case LRLR => 0x05
  }

  /** The rotation mapping a command byte selects, if any. */
  function ParseRotation(b: byte): (r: Option<Rotation>)
    ensures r.Some? ==> RotationByte(r.value) == b
    ensures r.None? ==> forall m: Rotation :: RotationByte(m) != b
  {
    if b == 0x0A then Some(RLRL)
    else if b == 0x05 then Some(LRLR)
    else None
  }

  /** Every rotation mapping is recognised from its own command byte. */
  lemma RotationRoundTrip(m: Rotation)
    ensures ParseRotation(RotationByte(m)) == Some(m)
  {
  }
}
