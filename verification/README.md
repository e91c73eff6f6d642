# Bebop motor-controller bus: register codec and command layer

This project is a Dafny model of the protocol core of the Bebop bus driver
(`drivers/bebop_bus/BebopBus.cpp`). The flight controller uses this driver to
talk to the coprocessor that runs the four brushless motors. The model covers
four parts:

- the XOR checksum (`_checksum`);
- decoding of the two records the controller returns: the per-poll
  observation (`_get_observation_data`) and the device information
  (`_get_info`);
- encoding of the six outbound commands as register writes: ESC speed,
  start, stop, clear errors, play sound and toggle GPIO;
- the decision chain of `start()`.

Modules, leaves first:

| module | file | content |
|---|---|---|
| `Results` | results.dfy | `Option`, `Result`, and the driver's 0 / -1 return convention |
| `Bytes` | bytes.dfy | byte and 16/32-bit field types, big-endian pack and unpack |
| `Checksums` | checksum.dfy | the checksum as a fold, the driver's loop, and the checksum algebra |
| `Protocol` | protocol.dfy | register addresses, error codes, rotation mappings, RPM bounds |
| `Telemetry` | telemetry.dfy | observation and device-information records and their decoders |
| `Commands` | commands.dfy | speed scaling, the ESC-speed record, and the command-to-write map with its inverse |
| `Driver` | driver.dfy | the six command calls and the start-up sequence |

Modelling decisions:

- **Record layout.** The header that declares the records is not part of
  this model. The records are taken to be packed structures with their
  fields in the order the code uses them. That gives a 12-byte observation
  (four speeds, voltage, error byte, checksum byte), a 10-byte ESC-speed
  record (four speeds, security byte, checksum byte) and a 13-byte device
  information record (version major, version minor, type, motor count,
  flight count, last flight time, total flight time, last error).
- **Byte order.** Records are fixed-offset byte sequences. The driver's
  `swap16`/`swap32` on a raw buffer is modelled as a big-endian decode of the
  received bytes, and as a big-endian encode on the way out.
- **Transport.** Every bus call is replaced by the value it returned. A read
  is its return code plus the bytes it left in the record buffer. A write is
  its integer result. Device open, bus configuration and the framework's
  polling start are each an integer.
- **Start-up trace.** The start-up sequence returns its code together with
  the list of bus operations it issued. This is what lets the model state
  that clear-errors is never issued after a failed info read.
- **Speed scaling.** `_scale_to_rpm` is modelled in exact real arithmetic.
  The conversion to `uint16_t` truncates toward zero. It is defined when the
  truncated value fits in [0, 65535], that is when `s * 9200 + 3000` lies
  strictly between -1 and 65536. The model accepts every such input, so
  s = 2 sends 21400 and s = -0.3 sends 240. Only inputs whose conversion is
  undefined are excluded. `_scale_to_rpm` is meant for normalised speeds
  in [0, 1], and speeds in [0, 1] land in [3000, 12200].
- **Fault codes.** The error byte of the observation and the last-error
  byte of the device information stay raw bytes, as in the code, which
  never interprets them. The model's own accessors `Fault()` and
  `LastFault()` read the fault codes of lines 48-55 from them.
- **Register reads.** Each record decoder reports the read it issued
  (register address and length), as the command calls report their write.
- **Fixed-width values.** Bytes, 16-bit and 32-bit fields are bit-vectors
  (`bv8`, `bv16`, `bv32`). Clearing the saturation flag is the same mask
  as in the code, `& ~(1 << 15)`. On the frame, that is clearing the top
  bit of each speed's high byte.

Facts about the code that the model keeps as they are:

- Commanded speeds are not clamped to [3000, 12200]. `_scale_to_rpm` is a
  plain linear map; speeds in [0, 1] land in that range, and speeds
  outside it can land outside it.
- The ESC-speed record is 10 bytes: four 16-bit speeds, the security byte
  and the checksum byte.
- The device information record has no checksum, and nothing is checked on
  it. Every successful read is accepted.
- `start()` keeps no driver state. It is a chain of return-code
  tests. The test after clear-errors (lines 120-123) can never fire, because
  the clear-errors result is 0 at that point. The model keeps the test and
  proves that polling always starts once clear-errors succeeds.
- `_set_esc_speed` reports success only when the write returned 1 (see
  Findings).

## Model

| member | source | states |
|---|---|---|
| Checksums.ComputeChecksum | drivers/bebop_bus/BebopBus.cpp:136-143 | The driver's loop returns the left XOR fold of the seed over the bytes, for every seed and run. On an empty run it returns the seed. |
| Checksums.ChecksumConcat | drivers/bebop_bus/BebopBus.cpp:136-143 | The checksum distributes over concatenation: `checksum(s, a+b) == checksum(checksum(s, a), b)`. |
| Checksums.ChecksumSeed | drivers/bebop_bus/BebopBus.cpp:136-143 | The seed can be pulled out: `checksum(s, b) == s ^ checksum(0, b)`. |
| Checksums.TrailerMatches | drivers/bebop_bus/BebopBus.cpp:178 | The trailing byte equals the checksum of the bytes before it iff the checksum of the whole record, trailer included, is 0. |
| Checksums.SingleByteChangeDetected | drivers/bebop_bus/BebopBus.cpp:136-143 | Changing exactly one byte of a run always changes its checksum. |
| Bytes.EncodeBe16 | drivers/bebop_bus/BebopBus.cpp:252-255 | A 16-bit value packs to two bytes, and these decode big-endian back to the value. |
| Bytes.EncodeBe32 | drivers/bebop_bus/BebopBus.cpp:162 | A 32-bit value packs to four bytes, and these decode big-endian back to the value. |
| Bytes.Be16Reencode | drivers/bebop_bus/BebopBus.cpp:160-161 | Re-encoding a decoded big-endian 16-bit field gives back its two bytes. |
| Bytes.Be32Reencode | drivers/bebop_bus/BebopBus.cpp:162 | Re-encoding a decoded big-endian 32-bit field gives back its four bytes. |
| Protocol.ParseErrorCode | drivers/bebop_bus/BebopBus.cpp:48-55 | A byte is recognised as a fault code only if it is that code's wire value. A byte that is no code's value is rejected. |
| Protocol.ErrorCodeRoundTrip | drivers/bebop_bus/BebopBus.cpp:48-55 | Every fault code is recognised from its own wire value, so the eight values are distinct. |
| Protocol.ParseRotation | drivers/bebop_bus/BebopBus.cpp:57-68 | A byte selects a rotation mapping only if it is that mapping's command byte (0x0A for RL-RL, 0x05 for LR-LR). |
| Protocol.RotationRoundTrip | drivers/bebop_bus/BebopBus.cpp:62-68 | Each rotation mapping is recognised from its own command byte. |
| Telemetry.ClearSaturation | drivers/bebop_bus/BebopBus.cpp:185-188 | The masked speed is below 0x8000, and the raw value is either the masked speed or the masked speed with bit 15 set. |
| Telemetry.ClearSaturationKeeps | drivers/bebop_bus/BebopBus.cpp:185-188 | A speed below 0x8000 comes through the mask unchanged. |
| Telemetry.UnpackObservationRepacks | drivers/bebop_bus/BebopBus.cpp:184-189 | Unpacking a 12-byte frame and packing the record again gives the frame with the top bit of bytes 0, 2, 4 and 6 cleared, and every other byte unchanged. |
| Telemetry.GetObservationData | drivers/bebop_bus/BebopBus.cpp:167-192 | The read issued is 12 bytes from register 0x20. A nonzero read result gives a transport error before any checksum work. After a good read, the record is accepted iff the seed-0 XOR of all 12 bytes is 0; otherwise the result is a checksum mismatch with no fields. A mismatch carries the received trailer byte and the checksum computed over the first 11 bytes. An accepted record has every speed below 0x8000. Its packing is the frame with only the four saturation flags cleared: the speeds and voltage are the big-endian values, the voltage is not masked, and the error and checksum bytes are unchanged. |
| Telemetry.ObservationRoundTrip | drivers/bebop_bus/BebopBus.cpp:178-189 | A record with speeds below 0x8000 and a correct checksum decodes from its packing back to itself. |
| Telemetry.ObservationRepack | drivers/bebop_bus/BebopBus.cpp:184-189 | An accepted frame with no saturation flags is exactly the packing of the record decoded from it. |
| Telemetry.SaturatedSpeedScenario | drivers/bebop_bus/BebopBus.cpp:185 | An accepted frame whose front-left speed bytes are 0x80 0x64 decodes that speed as 100. |
| Telemetry.CorruptedObservationRejected | drivers/bebop_bus/BebopBus.cpp:178-182 | A frame differing from an accepted one in one byte is rejected as a checksum mismatch. |
| Telemetry.ObservationFault | drivers/bebop_bus/BebopBus.cpp:48-55 | The fault an accepted observation reports is the fault code its error byte, byte 10 of the frame, stands for. The saturation mask never touches that byte. |
| Telemetry.InfoFault | drivers/bebop_bus/BebopBus.cpp:48-55 | A good information read is always accepted, and the last fault it reports is the fault code its final byte stands for. |
| Telemetry.GetInfo | drivers/bebop_bus/BebopBus.cpp:150-165 | The read issued is 13 bytes from register 0xA0. The read succeeds iff the read result is 0, and a failure carries the read result. No integrity check is made. An accepted record's packing is exactly the frame read: the flight count and last flight time as big-endian 16-bit values, the total flight time as a big-endian 32-bit value, and the single-byte fields unchanged. |
| Telemetry.InfoRoundTrip | drivers/bebop_bus/BebopBus.cpp:159-162 | Every information record decodes from its packing back to itself. |
| Telemetry.UnpackInfoRepacks | drivers/bebop_bus/BebopBus.cpp:159-162 | Unpacking a 13-byte frame and packing the record again gives back the frame byte for byte. |
| Commands.ScaleToRpm | drivers/bebop_bus/BebopBus.cpp:145-148 | For every speed whose conversion to `uint16_t` is defined, the result lies in [0, 65535] and is `s * (12200 - 3000) + 3000` truncated toward zero. A speed in [0, 1] gives a result in [3000, 12200]. |
| Commands.ScaleToRpmMonotone | drivers/bebop_bus/BebopBus.cpp:145-148 | The scaling never decreases, over the whole domain where the conversion is defined. |
| Commands.ScaleToRpmUnclamped | drivers/bebop_bus/BebopBus.cpp:145-148 | Nothing clamps the result: speed 2 gives 21400, above 12200, and speed -0.3 gives 240, below 3000. |
| Commands.ScaleToRpmPoints | drivers/bebop_bus/BebopBus.cpp:70-71 | 0 gives 3000, 1 gives 12200, 0.5 gives 7600 and 0.25 gives 5300. |
| Commands.SealEscSpeeds | drivers/bebop_bus/BebopBus.cpp:252-259 | The ESC-speed record keeps the four speeds, sets the security byte to 0, and ends in the checksum (seed 0x02) of the bytes before it. So the XOR of 0x02 with every byte of the record is 0. |
| Commands.CommandRoundTrip | drivers/bebop_bus/BebopBus.cpp:194-259 | Every command is read back from its own register write, so distinct commands never share a (register, payload) pair. |
| Commands.DecodedCommandReencodes | drivers/bebop_bus/BebopBus.cpp:194-259 | Any write that reads as a command is exactly that command's write. Together with the round trip, the command-to-write map is a bijection onto the writes it produces. |
| Commands.EscPayloadReseals | drivers/bebop_bus/BebopBus.cpp:252-259 | A 10-byte payload with security byte 0 and a valid seed-0x02 checksum is the sealed record of the four speeds it carries. |
| Driver.StartMotors | drivers/bebop_bus/BebopBus.cpp:194-204 | Writes `[0x05]` (LR-LR) to register 0x40. Returns 0 iff the write returned 0, and -1 otherwise. |
| Driver.StopMotors | drivers/bebop_bus/BebopBus.cpp:206-213 | Writes an empty payload to register 0x60. Returns 0 iff the write returned 0, and -1 otherwise. |
| Driver.ClearErrors | drivers/bebop_bus/BebopBus.cpp:215-223 | Writes an empty payload to register 0x80. Returns 0 iff the write returned 0, and -1 otherwise. |
| Driver.PlaySound | drivers/bebop_bus/BebopBus.cpp:225-234 | Writes `[sound]` to register 0x82. Returns 0 iff the write returned 0, and -1 otherwise. |
| Driver.ToggleGpio | drivers/bebop_bus/BebopBus.cpp:236-245 | Writes `[mode]` to register 0x4D. Returns 0 iff the write returned 0, and -1 otherwise. |
| Driver.EscSpeedPayload | drivers/bebop_bus/BebopBus.cpp:247-259 | The payload is four big-endian scaled speeds (front left, front right, back right, back left), then security byte 0, then the seed-0x02 checksum of the nine bytes before it. Its checksum seeded with 0x02 is 0. |
| Driver.SetEscSpeedAsWritten | drivers/bebop_bus/BebopBus.cpp:247-266 | Writes the ESC-speed payload to register 0x02. Returns 0 iff the write returned exactly 1, and -1 otherwise. |
| Driver.EscSpeedStatusInverted | drivers/bebop_bus/BebopBus.cpp:261-265 | A write result of 0 counts as success for start-motors but as failure for ESC speed. A result of 1 counts the other way round. |
| Driver.SetEscSpeed | drivers/bebop_bus/BebopBus.cpp:247-266 | Issues the same write as the driver, which is the encoding of the scaled speeds. Returns 0 iff the write returned 0. |
| Driver.CommandStatusAgrees | drivers/bebop_bus/BebopBus.cpp:199-261 | With the corrected test, all six command calls map a write result to the same return code. |
| Driver.EscSpeedScenario | drivers/bebop_bus/BebopBus.cpp:252-255 | Speeds 0, 0.5, 1, 0.25 go on the wire as 3000, 7600, 12200, 5300, big-endian. |
| Driver.Start | drivers/bebop_bus/BebopBus.cpp:75-134 | A failed open returns its code after opening only. Otherwise the open, the bus configuration and the info read (13 bytes from register 0xA0) are always issued. A failed info read returns -1 without clear-errors. A failed clear-errors returns -1 without a polling start. Otherwise polling starts and its code is returned. |
| Driver.PollingFollowsClearErrors | drivers/bebop_bus/BebopBus.cpp:106-125 | Polling starts only after a good info read and a successful clear-errors, in that order. A non-negative start-up code implies both succeeded. |
| Driver.SlaveConfigIgnored | drivers/bebop_bus/BebopBus.cpp:85-91 | The bus configuration result never changes the start-up outcome; a failure there is only logged. |

## Findings

| source | as written | input that shows it | evidently intended | confidence | as-written member | corrected member |
|---|---|---|---|---|---|---|
| drivers/bebop_bus/BebopBus.cpp:261 | `_set_esc_speed` fails when `_writeReg(...) - 1 != 0`, so only a write result of exactly 1 counts as success | a write result of 0 gives -1; a write result of 1 gives 0 | fail on any nonzero write result, as the other five command calls do | medium, not executed: `_writeReg`'s return convention is not part of this model | Driver.SetEscSpeedAsWritten, Driver.EscSpeedStatusInverted | Driver.SetEscSpeed, Driver.CommandStatusAgrees |

## Left out

- Commands.ScaleToRpm: inputs whose scaled value truncates outside [0, 65535] are excluded, because C leaves that float-to-`uint16_t` conversion undefined. Every other input is modelled, including the unclamped results outside [3000, 12200].
- The I2C transport (`_readReg`, `_writeReg`, `_setSlaveConfig`, `I2CDevObj::start`) is foreign code and is not part of this model. Each call is a given return code, plus the received bytes for reads.
- `DevObj::start`, `DevObj::stop`, `stop()` and the polling thread are framework scheduling that is not part of this model. The polling start appears only as a given result code.
- All `DF_LOG_*` logging is left out. This includes the info prints at lines 98-104, which run even when the read failed.
- The stubs `_update`, `_measure`, `_publish` and `_bebop_bus_init` have no behaviour.
- IEEE single-precision arithmetic in `_scale_to_rpm` is replaced by exact reals, so float rounding near a whole number is not modelled.
- `memset` and raw struct reinterpretation are left out. Records are explicit byte sequences, and the bytes a failed read leaves in the buffer are never used.
- The sound and GPIO selector enumerations are declared in the header, which is not part of this model. Both are modelled as an arbitrary byte.
- The 16-bit length parameter of `_checksum` is not modelled. The model accepts runs of any length, and every run the driver checks is 9 or 11 bytes.
