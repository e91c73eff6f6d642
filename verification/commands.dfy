/**
 Outbound commands of the Bebop bus: each is one register write, a register
 address plus a payload. The ESC-speed record is a packed structure of four
 16-bit big-endian motor speeds, a security byte and a checksum byte, 10
 bytes in all, sealed with the checksum seeded by its register address.

 Motor speeds are scaled in exact real arithmetic and converted to an
 unsigned 16-bit value by truncation toward zero, for every input whose
 conversion is defined.
 */
module Commands {
  import opened Results
  import opened Bytes
  import opened Checksums
  import opened Protocol

  /** Wire size of the ESC-speed record. */
  const EscSpeedsSize: nat := 10

  /** A register write as the transport performs it. */
  datatype BusWrite = BusWrite(register: byte, payload: seq<byte>)

  /** The commands the driver sends, with the values they carry. */
  datatype Command =
    | EscSpeed(frontLeft: u16, frontRight: u16, backRight: u16, backLeft: u16)
    | StartBldc(rotation: Rotation)
    | StopBldc
    | ClearError
    | Sound(sound: byte)
    | Gpio(mode: byte)

  datatype EscSpeeds = EscSpeeds(
    rpmFrontLeft: u16,
    rpmFrontRight: u16,
    rpmBackRight: u16,
    rpmBackLeft: u16,
    enableSecurity: byte,
    checksum: byte)

  /** The value the scaling computes before it is converted to a 16-bit
      integer: the linear map taking [0, 1] onto [RpmMin, RpmMax]. */
  function ScaledValue(scale: real): real
  {
    scale * (RpmMax - RpmMin) as real + RpmMin as real
  }

  /** The inputs for which the conversion of the scaled value to an unsigned
      16-bit integer is defined: its truncation toward zero must lie in
      [0, 65535]. */
  predicate ScaleDefined(scale: real)
  {
    -1.0 < ScaledValue(scale) < 65536.0
  }

  /** Four motor speeds, in the order front left, front right, back right,
      back left, each one the conversion is defined for. The scaling is meant for
      normalised speeds in [0, 1]; nothing in the driver checks or clamps
      them. */
  predicate ValidSpeeds(speeds: seq<real>)
  {
    |speeds| == 4 && forall i :: 0 <= i < 4 ==> ScaleDefined(speeds[i])
  }

  /** The motor speed commanded for a speed: the scaled value truncated
      toward zero into an unsigned 16-bit integer. Nothing clamps the
      result; normalised speeds in [0, 1] land in [RpmMin, RpmMax]. */
  function ScaleToRpm(scale: real): (rpm: int)
    requires ScaleDefined(scale)
    ensures 0 <= rpm < 0x1_0000
    ensures ScaledValue(scale) >= 0.0 ==>
              rpm as real <= ScaledValue(scale) < rpm as real + 1.0
    ensures ScaledValue(scale) < 0.0 ==> rpm == 0
    ensures 0.0 <= scale <= 1.0 ==> RpmMin <= rpm <= RpmMax
  {
    var x := ScaledValue(scale);
    if x < 0.0 then 0 else x.Floor
  }

  /** Faster speeds never command fewer revolutions. */
  lemma ScaleToRpmMonotone(a: real, b: real)
    requires ScaleDefined(a) && ScaleDefined(b) && a <= b
    ensures ScaleToRpm(a) <= ScaleToRpm(b)
  {
  }

  /** Speeds outside [0, 1] are sent unclamped: 2 commands 21400 and -0.3
      commands 240 revolutions per minute. */
  lemma ScaleToRpmUnclamped()
    ensures ScaleToRpm(2.0) == 21400 > RpmMax
    ensures ScaleToRpm(-0.3) == 240 < RpmMin
  {
  }

  /** The end points and two interior points of the scaling. */
  lemma ScaleToRpmPoints()
    ensures ScaleToRpm(0.0) == 3000
    ensures ScaleToRpm(1.0) == 12200
    ensures ScaleToRpm(0.5) == 7600
    ensures ScaleToRpm(0.25) == 5300
  {
  }

  /** The ESC-speed record as it lies in the buffer, field by field. */
  function PackEscSpeeds(d: EscSpeeds): (bs: seq<byte>)
    ensures |bs| == EscSpeedsSize
  {
    EncodeBe16(d.rpmFrontLeft) + EncodeBe16(d.rpmFrontRight)
    + EncodeBe16(d.rpmBackRight) + EncodeBe16(d.rpmBackLeft)
    + [d.enableSecurity, d.checksum]
  }

  /** The ESC-speed record for four motor speeds: security disabled and the
      trailing checksum seeded with the ESC-speed register address, so that
      the exclusive-or of that address with every byte of the record,
      checksum included, is zero. */
  function SealEscSpeeds(fl: u16, fr: u16, br: u16, bl: u16): (d: EscSpeeds)
    ensures d.rpmFrontLeft == fl && d.rpmFrontRight == fr
    ensures d.rpmBackRight == br && d.rpmBackLeft == bl
    ensures d.enableSecurity == 0x00
    ensures d.checksum == Checksum(RegSetEscSpeed, PackEscSpeeds(d)[..EscSpeedsSize - 1])
    ensures Checksum(RegSetEscSpeed, PackEscSpeeds(d)) == 0
  {
    var open := EscSpeeds(fl, fr, br, bl, 0x00, 0x00);
    var d := open.(checksum := Checksum(RegSetEscSpeed, PackEscSpeeds(open)[..EscSpeedsSize - 1]));
    assert PackEscSpeeds(d)[..EscSpeedsSize - 1] == PackEscSpeeds(open)[..EscSpeedsSize - 1];
    TrailerMatches(RegSetEscSpeed, PackEscSpeeds(d));
    d
  }

  /** The register write that carries each command. */
  function EncodeCommand(c: Command): (w: BusWrite)
  {
    match c
    case EscSpeed(fl, fr, br, bl) =>
      BusWrite(RegSetEscSpeed, PackEscSpeeds(SealEscSpeeds(fl, fr, br, bl)))
    case StartBldc(rotation) => BusWrite(RegStartBldc, [RotationByte(rotation)])
    case StopBldc => BusWrite(RegStopBldc, [])
    case ClearError => BusWrite(RegClearError, [])
    case Sound(sound) => BusWrite(RegPlaySound, [sound])
    case Gpio(mode) => BusWrite(RegToggleGpio, [mode])
  }

  /** The controller's reading of a register write: the command it carries,
      if it is one the driver can send. An ESC-speed record must have
      security disabled and a checksum seeded with its register address. */
  function DecodeCommand(w: BusWrite): (r: Option<Command>)
  {
    var p := w.payload;
    if w.register == RegSetEscSpeed then
      if |p| == EscSpeedsSize && p[8] == 0x00 && Checksum(RegSetEscSpeed, p) == 0
      then Some(EscSpeed(Be16At(p, 0), Be16At(p, 2), Be16At(p, 4), Be16At(p, 6)))
      else None
    else if w.register == RegStartBldc then
      if |p| == 1 && ParseRotation(p[0]).Some?
      then Some(StartBldc(ParseRotation(p[0]).value))
      else None
    else if w.register == RegStopBldc then
      if |p| == 0 then Some(StopBldc) else None
    else if w.register == RegClearError then
      if |p| == 0 then Some(ClearError) else None
    else if w.register == RegPlaySound then
      if |p| == 1 then Some(Sound(p[0])) else None
    else if w.register == RegToggleGpio then
      if |p| == 1 then Some(Gpio(p[0])) else None
    else
      None
  }

  /** Every command is read back from its own register write, so no two
      commands share a write. */
  lemma CommandRoundTrip(c: Command)
    ensures DecodeCommand(EncodeCommand(c)) == Some(c)
  {
    match c
    case EscSpeed(fl, fr, br, bl) =>
      var p := PackEscSpeeds(SealEscSpeeds(fl, fr, br, bl));
      assert p[0..2] == EncodeBe16(fl);
      assert p[2..4] == EncodeBe16(fr);
      assert p[4..6] == EncodeBe16(br);
      assert p[6..8] == EncodeBe16(bl);
      Be16Reencode(p, 0);
      Be16Reencode(p, 2);
      Be16Reencode(p, 4);
      Be16Reencode(p, 6);
    case StartBldc(rotation) =>
      RotationRoundTrip(rotation);
    case _ =>
  }

  /** Where each field of the ESC-speed record lies in its packing. */
  lemma EscSpeedsLayout(d: EscSpeeds)
    ensures PackEscSpeeds(d)[0..2] == EncodeBe16(d.rpmFrontLeft)
    ensures PackEscSpeeds(d)[2..4] == EncodeBe16(d.rpmFrontRight)
    ensures PackEscSpeeds(d)[4..6] == EncodeBe16(d.rpmBackRight)
    ensures PackEscSpeeds(d)[6..8] == EncodeBe16(d.rpmBackLeft)
    ensures PackEscSpeeds(d)[8] == d.enableSecurity
    ensures PackEscSpeeds(d)[9] == d.checksum
  {
  }

  /** Two packed ESC-speed records that agree on every field before the
      checksum agree on all the bytes the checksum covers. */
  lemma SameFields(q: seq<byte>, p: seq<byte>)
    requires |q| == EscSpeedsSize && |p| == EscSpeedsSize
    requires q[0..2] == p[0..2] && q[2..4] == p[2..4]
    requires q[4..6] == p[4..6] && q[6..8] == p[6..8]
    requires q[8] == p[8]
    ensures q[..9] == p[..9]
  {
    assert q[0] == q[0..2][0] && q[1] == q[0..2][1];
    assert p[0] == p[0..2][0] && p[1] == p[0..2][1];
    assert q[2] == q[2..4][0] && q[3] == q[2..4][1];
    assert p[2] == p[2..4][0] && p[3] == p[2..4][1];
    assert q[4] == q[4..6][0] && q[5] == q[4..6][1];
    assert p[4] == p[4..6][0] && p[5] == p[4..6][1];
    assert q[6] == q[6..8][0] && q[7] == q[6..8][1];
    assert p[6] == p[6..8][0] && p[7] == p[6..8][1];
  }

  /** An ESC-speed payload the controller accepts is the sealed record of
      the four speeds it carries. */
  lemma EscPayloadReseals(p: seq<byte>)
    requires |p| == EscSpeedsSize && p[8] == 0x00
    requires Checksum(RegSetEscSpeed, p) == 0
    ensures PackEscSpeeds(SealEscSpeeds(Be16At(p, 0), Be16At(p, 2), Be16At(p, 4), Be16At(p, 6))) == p
  {
    var d := SealEscSpeeds(Be16At(p, 0), Be16At(p, 2), Be16At(p, 4), Be16At(p, 6));
    var q := PackEscSpeeds(d);
    assert q[..9] == p[..9] by {
      EscSpeedsLayout(d);
      Be16Reencode(p, 0);
      Be16Reencode(p, 2);
      Be16Reencode(p, 4);
      Be16Reencode(p, 6);
      SameFields(q, p);
    }
    assert q[9] == p[9] by {
      EscSpeedsLayout(d);
      TrailerMatches(RegSetEscSpeed, p);
    }
    assert p == p[..9] + [p[9]];
    assert q == q[..9] + [q[9]];
  }

  /** A write the controller reads as a command is exactly that command's
      write: the register and payload determine each other. */
  lemma DecodedCommandReencodes(w: BusWrite)
    requires DecodeCommand(w).Some?
    ensures EncodeCommand(DecodeCommand(w).value) == w
  {
    var p := w.payload;
    if w.register == RegSetEscSpeed {
      EscPayloadReseals(p);
    } else if w.register == RegStartBldc {
      assert p == [p[0]];
    } else if w.register == RegPlaySound || w.register == RegToggleGpio {
      assert p == [p[0]];
    } else {
      assert p == [];
    }
  }
}
