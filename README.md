# BME280 client for a Raspberry Pi IoT Hub sample, modelled in Dafny

This project models the core of a C sample application that reads a Bosch
BME280 temperature, pressure and humidity sensor over SPI on a Raspberry Pi
and sends the readings to Azure IoT Hub. Three parts are modelled.

- **The BME280 driver (`bme280.c`).** This covers register framing (bit 7 of
  the control byte means read, as in section 6.3 of the BME280 datasheet), the
  initialisation sequence with its chip-id check, and the decoding of the trim
  coefficients. It also covers the integer compensation formulas of section
  4.2.3 of the datasheet and the acquisition routine, which polls the status
  register, retries the burst read and decodes the raw ADC fields.
- **The lazy initialisation of `wiring.c`.** A static bitmask records which of
  the three setup steps (GPIO library, SPI bus, sensor) have succeeded, and
  `check_bme_init` retries only the steps whose bit is clear.
- **The application logic of `main.c`.** This covers parsing `DeviceId=` out
  of the connection string, the `start`/`stop` device methods, and the
  `messagePending` flow control that keeps at most one message in flight.

Modules:

- `FixedWidth` (fixed_width.dfy): C fixed-width arithmetic on unbounded
  integers. It covers two's-complement narrowing to `int32_t`/`int64_t`,
  reduction to `uint32_t`/`uint8_t`, arithmetic right shift as floor
  division, C's truncating `/`, and the byte masks the driver uses.
- `Spi` (spi_bus.dfy): the SPI transport `wiringPiSPIDataRW`, modelled as a
  scripted oracle. A class `Bus` holds the script of replies and logs every
  frame sent. Each transfer takes the next reply, reports a count clamped to
  `0..len`, and overwrites the caller's buffer with the reply bytes
  (full duplex).
- `Calibration` (bme280_calibration.dfy): `bme280_calib_data_t`. It holds the
  little-endian layout of T1..P9 and the hand-unpacked humidity trim H1..H6,
  each with its encoder and both round trips.
- `Compensation` (bme280_compensation.dfy): the three compensation formulas,
  operation by operation, in the C widths. It also has worked values for a
  sample trim set.
- `Bme280` (bme280_driver.dfy): the class `Driver`, whose fields are the
  driver's globals (chip select, `Calib_data`, `t_fine`). Its methods are
  `bme280_read`, `bme280_write`, `bme280_init` and `bme280_read_sensors`,
  each specified against reference functions of the reply script.
- `Wiring` (wiring.dfy): `mask_check`, `check_bme_init` and the mark part of
  `setupWiring`. The class `Wiring` holds the mark and a log of the setup
  calls made.
- `App` (main_app.dfy): `get_device_id` as a pure string function, and
  `deviceMethodCallback`. The flow control is an event-driven state machine
  (`Step`/`Run`) with lemmas about runs, and the class `Client` holds the
  globals and implements each callback and one loop turn against `Step`.
- `Optional` (option.dfy): the `Option` type.

Where the model follows the code rather than the header comments:

- `bme280_read_sensors` returns 1 on success and 0 on failure, although
  bme280.h:45-47 says 0 on success.
- The pressure it produces is in Pa (Q24.8), not hPa as bme280.h:41-42 says.
- The pressure sentinel 0 is not exclusive. `CompensateP` returns 0 whenever
  the denominator is 0, but a non-zero denominator can also yield 0
  (`Compensation.SentinelNotExclusive`).
- After a short 24-byte calibration read, the bytes that did arrive are
  already in `Calib_data`. The model's `Driver.Init` states exactly that.
- In the main loop, a message is sent only when `readMessage` returns 1. In
  wiring.c:81 that happens only when the temperature is above
  `TEMPERATURE_ALERT`. `readMessage` is an oracle here, so the model just
  keeps the loop's test `== 1`.

## Model

| member | source | states |
|---|---|---|
| FixedWidth.I32 | bme280.c:250-258 | two's-complement narrowing: the result is an `int32_t` congruent to the input mod 2^32, and values already in range are unchanged |
| FixedWidth.I64 | bme280.c:270-286 | two's-complement narrowing: the result is an `int64_t` congruent to the input mod 2^64, and values already in range are unchanged |
| FixedWidth.U32 | bme280.c:287 | `(uint32_t)p`: the result is in [0, 2^32) and congruent to the input mod 2^32, and values already in range are unchanged |
| FixedWidth.Pow2Double | bme280.c:251-286 | the power of two behind every `<<` and `>>` doubles with each extra bit, for every exponent |
| FixedWidth.U8 | bme280.c:223 | narrowing to `uint8_t`: the result is in [0, 256), congruent mod 256, and identity in range |
| FixedWidth.I16OfU16 | bme280.c:69-80 | the `int16_t` reading of a 16-bit pattern: in range and congruent mod 2^16 |
| FixedWidth.I8OfU8 | bme280.c:217 | the `int8_t` reading of a byte: in range and congruent mod 256 |
| FixedWidth.Asr | bme280.c:251-257 | `x >> k` on a signed value is floor division: r·2^k ≤ x < r·2^k + 2^k; it moves toward 0 without crossing it, so it keeps a value inside its C width |
| FixedWidth.CDiv | bme280.c:283 | C's truncating division: \|q\| = \|a\|/\|b\|, q's sign is that of a·b, and it agrees with `/` on non-negative operands |
| FixedWidth.CDivRemainder | bme280.c:283 | the remainder of C's division is smaller than the divisor in magnitude and has the dividend's sign |
| FixedWidth.SetBit7 | bme280.c:102 | `0x80 \| b` has bit 7 set and keeps bits 6..0 |
| FixedWidth.SetBit7IsOr | bme280.c:102 | the arithmetic form equals the bit-vector `0x80 \| b` for every byte |
| FixedWidth.Low7 | bme280.c:127 | `0x7F & x` keeps exactly the low seven bits |
| FixedWidth.Low7IsAnd | bme280.c:127 | the arithmetic form equals the bit-vector `0x7F & x` for every byte |
| FixedWidth.LowNibble | bme280.c:214 | `b & 0x0F` is below 16 |
| FixedWidth.HighNibble | bme280.c:215 | `b >> 4` is below 16 |
| FixedWidth.NibblesAreBitOps | bme280.c:213-216 | both nibble forms equal the bit-vector `&` and `>>` for every byte |
| FixedWidth.Bit2 | bme280.c:350 | `b & 0x04` is 0 or 4 |
| FixedWidth.Bit2IsAnd | bme280.c:350 | the arithmetic form equals the bit-vector `b & 0x04` for every byte |
| FixedWidth.Bit0 | bme280.c:321 | `b & 0x01` is 0 or 1 |
| FixedWidth.Bit0IsAnd | bme280.c:321 | the arithmetic form equals the bit-vector `b & 0x01` for every byte |
| Spi.Bus.DataRW | bme280.c:103-104 | one transfer: logs the frame, consumes one reply, returns its clamped count, and the buffer's first `len` bytes become the reply's bytes where it has them; the rest of the buffer is unchanged |
| Spi.Bus.constructor | bme280.c:103-104 | a bus starts with its script and an empty log |
| Spi.Delivered | bme280.c:103-104 | the reported count is at most `len`, and equals the reply's count when that is in range |
| Spi.Received | bme280.c:103-104 | full duplex: byte i after the transfer is the reply's byte i, or the sent byte where the reply is shorter |
| Spi.Drop | bme280.c:103-104 | the script left after k transfers has k fewer replies, down to empty |
| Spi.DropAt | bme280.c:103-104 | reply j of the rest after k transfers is reply k+j |
| Spi.DropStep | bme280.c:103-104 | dropping one more reply after k is dropping k+1 |
| Spi.Splice | bme280.c:105-110 | the destination after a copy: `src` from `offset` on, every other byte unchanged |
| Spi.SpliceWhole | bme280.c:174-175 | a copy over the whole buffer yields the source |
| Spi.SpliceTwo | bme280.c:185-194 | two reads into consecutive parts of one buffer leave the concatenation of the two payloads |
| Bme280.ReadFrame | bme280.c:98-104 | a read frame is `numBytes + 1` bytes: a control byte the device parses as "read register & 0x7F", then zeros |
| Bme280.ParseControl | bme280.c:99-102 | how the device reads a control byte: a read flag and a 7-bit address that together give back the byte |
| Bme280.WriteFrame | bme280.c:121-135 | a write frame has 2n bytes, byte k being the pair layout below |
| Bme280.WriteFrameMeaning | bme280.c:124-132 | pair i tells the device "write data[i] to register (register + i) & 0x7F" |
| Bme280.ReadCount | bme280.c:112 | `bme280_read` returns the transferred count less one, between -1 and numBytes |
| Bme280.ReadPayload | bme280.c:105-110 | the bytes handed back: the count less one of them, none when nothing was transferred |
| Bme280.ReadPayloadBytes | bme280.c:105-110 | payload byte i is the device's byte i+1, or 0 where the device sent none |
| Bme280.Driver.Read | bme280.c:93-113 | returns 0, with no transfer and `data` unchanged, when no chip is selected or numBytes ≥ 128; otherwise sends exactly the read frame, returns Result-1, and copies exactly the payload into `data[offset..]`, leaving every other byte unchanged |
| Bme280.Driver.CopyReply | bme280.c:105-110 | the copy loop: bytes 1..n-1 of the transfer buffer land at `data[offset..]`; nothing else changes |
| Bme280.WriteGuardOverrun | bme280.c:119-121 | the guard as written accepts n = 65, whose 130-byte frame overruns the 128-byte buffer |
| Bme280.WriteLengthAsWritten | bme280.c:119-121 | the guard as written: a frame exactly when n ≤ 128, of 2n bytes, which can be up to twice the buffer |
| Bme280.WriteLength | bme280.c:119-121 | with the corrected guard, every accepted frame fits the buffer |
| Bme280.WriteGuards | bme280.c:119-121 | the corrected guard accepts exactly the writes with 2n ≤ 128, and differs from the as-written guard exactly for 64 < n ≤ 128 |
| Bme280.Driver.Write | bme280.c:116-138 | returns 0 with no transfer when no chip is selected or the frame does not fit; otherwise sends exactly the pair frame of `data[..n]` and returns the count halved |
| Bme280.InitSteps | bme280.c:154-232 | the number of transfers `bme280_init` makes with a valid chip select, 1 to 5; it stops after the first failing step |
| Bme280.InitStepsMeaning | bme280.c:156-202 | transfer j is made exactly when every earlier step passed |
| Bme280.InitSucceedsIffLastStep | bme280.c:225-238 | init succeeds exactly when all five transfers are made and the control write reports one byte |
| Bme280.InitFrames | bme280.c:155-224 | the transcript of transfers `from..to`: chip id, 24 bytes at 0x88, 1 at 0xA1, 7 at 0xE1, and 0x3F written to 0xF4 |
| Bme280.InitFramesStep | bme280.c:155-224 | one more transfer extends the transcript by its frame |
| Bme280.InitFramesAppend | bme280.c:155-224 | transcripts of consecutive ranges concatenate |
| Bme280.HumidityBytes | bme280.c:184-194 | the eight humidity trim bytes: one from 0xA1, then seven from 0xE1 |
| Bme280.Driver.constructor | bme280.c:22-247 | the driver's globals at program start: no chip is selected (`Chip_enable_selected__i` = -1), and `Calib_data` and `t_fine` (line 247) are zero |
| Bme280.Driver.Init | bme280.c:141-239 | returns 0 and changes nothing for a chip select outside {0,1}; otherwise stores the selection first (it stays set on failure), makes exactly the first `InitSteps` transfers, returns 1 exactly when all five steps pass, leaves the 24 bytes read at 0x88 in `Calib_data`, and decodes the humidity trim only when every read was full; on success the trim set is the one decoded from the replies |
| Bme280.Driver.LoadTrim | bme280.c:173-217 | the trim part of init: 24 bytes straight into the struct, then the humidity trim, with the transfers made and the success condition given by `InitSteps` |
| Bme280.Driver.LoadHumidityTrim | bme280.c:184-217 | the two humidity reads, each checked against the running byte total, then decoded; it stops at the first short read |
| Bme280.Driver.Configure | bme280.c:222-238 | writes 0x3F to 0xF4 and succeeds exactly when the count, halved and narrowed to `uint8_t`, is 1 |
| Calibration.LE16 | bme280.c:66-89 | a member read straight from memory is the little-endian value of its two bytes |
| Calibration.Bytes16 | bme280.c:66-89 | the two bytes that store a `uint16_t` read back as it |
| Calibration.U16OfI16 | bme280.c:69-80 | the bit pattern of an `int16_t` reads back as it |
| Calibration.U16OfI16OfU16 | bme280.c:69-80 | reinterpreting a pattern as signed and back gives the same pattern |
| Calibration.DecodeTempPress | bme280.c:66-89 | T1..P9 from bytes 2j and 2j+1, with T1 and P1 unsigned and the rest signed; every field fits its C type |
| Calibration.FieldBits | bme280.c:66-80 | the 16-bit pattern each member stores |
| Calibration.EncodeTempPress | bme280.c:66-80 | the 24 bytes that store a trim set |
| Calibration.FieldBitsOfDecode | bme280.c:66-89 | member j of a decoded block holds bytes 2j and 2j+1 |
| Calibration.U16FieldOfEncode | bme280.c:66-80 | member j of an encoded trim set is stored as its bit pattern |
| Calibration.DecodeEncodeTempPress | bme280.c:66-89 | decoding a stored trim set gives it back |
| Calibration.EncodeDecodeTempPress | bme280.c:66-89 | every 24-byte block is the encoding of what it decodes to |
| Calibration.DecodeHumidity | bme280.c:209-217 | H1..H6 from the eight bytes; H4 and H5 lie in [0, 4095]; H4 is b4 then the low nibble of b5, and H5 is b6 then the high nibble of b5 |
| Calibration.EncodeHumidity | bme280.c:209-217 | packs a humidity trim set into eight register bytes, with H4 and H5 sharing 0xE5 |
| Calibration.DecodeEncodeHumidity | bme280.c:209-217 | decoding packed humidity trim gives it back |
| Calibration.EncodeDecodeHumidity | bme280.c:209-217 | the decoder loses nothing of the eight bytes |
| Compensation.CentiFromFine | bme280.c:257 | `(t_fine*5 + 128) >> 8` is an `int32_t`, and without wrap-around it is 5·t_fine/256 rounded to the nearest |
| Compensation.TempVar1 | bme280.c:251-252 | `var1` is an `int32_t`, and 0 when T2 is 0 |
| Compensation.TempVar2 | bme280.c:253-255 | `var2` is an `int32_t`, and 0 when T3 is 0 |
| Compensation.CompensateT | bme280.c:248-259 | `t_fine` is an `int32_t` and, outside wrap-around, the temperature is t_fine·5/256 rounded (hundredths of a degree) |
| Compensation.CentiFromFineMonotone | bme280.c:257 | outside wrap-around, a higher fine temperature never reads as a lower temperature |
| Compensation.CompensateP | bme280.c:268-288 | the pressure is a `uint32_t`; a zero denominator gives 0, and the division is never reached then |
| Compensation.PressureDenominator | bme280.c:270-276 | the denominator `var1` is an `int64_t`, and 0 whenever P1 is 0 |
| Compensation.PressureOffset | bme280.c:270-274 | the offset `var2` is an `int64_t`, and 0 when P4, P5 and P6 are 0 |
| Compensation.PressureFromTerms | bme280.c:282-287 | the steps after the guard: truncating division, the P9/P8 corrections and the `uint32_t` cast, giving a value in [0, 2^32) |
| Compensation.ZeroP1GivesSentinel | bme280.c:276-281 | with P1 = 0 (an all-zero trim set), the denominator is 0 and the result is 0 |
| Compensation.SentinelNotExclusive | bme280.c:277-287 | a concrete trim set with a non-zero denominator still yields 0, so 0 does not mean "division avoided" |
| Compensation.SampleTrimWorkedExample | bme280.c:242-288 | worked values: ADC 519888 gives 25.08 degC with t_fine 128422, and pressure code 415148 gives 25767233/256 Pa |
| Compensation.ClampHumidity | bme280.c:308-310 | the clamp to [0, 419430400] then `>> 12`: in [0, 102400], 0 below, 102400 above, and x/4096 in between |
| Compensation.HumidityRaw | bme280.c:297-307 | the humidity intermediate before the clamp is an `int32_t` |
| Compensation.CompensateH | bme280.c:296-311 | humidity is always in [0, 102400] (at most 100 %RH in Q22.10), saturating at both ends |
| Compensation.HumidityExtremes | bme280.c:306-310 | 102400 exactly when the intermediate reaches the limit, and 0 exactly when it is below 4096 |
| Compensation.CompensateAll | bme280.c:367-369 | temperature first; pressure and humidity see the `t_fine` it produced; pressure and humidity bounds |
| Bme280.Driver.CompensateTemperature | bme280.c:247-259 | returns the temperature and stores its `t_fine` in the driver |
| Bme280.Driver.Compensate | bme280.c:367-369 | the three calls in order; the state threaded through `t_fine` gives exactly `CompensateAll` |
| Bme280.StatusByte | bme280.c:321-323 | the status byte a delivered one-byte read of 0xF3 hands back, as the payload byte `bme280_read` copies |
| Bme280.Poll | bme280.c:320-329 | the number of status reads, and whether the wait ended idle or on a short read |
| Bme280.PollMeaning | bme280.c:320-329 | every status read before the last said "measuring"; the last did not; the wait is ready exactly when that last read delivered |
| Bme280.Driver.WaitUntilIdle | bme280.c:320-329 | makes exactly the status reads `Poll` counts and reports its `ready`; with no chip selected, nothing is sent and it fails |
| Bme280.FirstFull | bme280.c:334-377 | the first full burst read among the remaining attempts; every earlier one was short |
| Bme280.BurstTries | bme280.c:334-377 | at most four burst reads are made, stopping after the first full one |
| Bme280.Adc20 | bme280.c:345-359 | a raw 20-bit field: bits 19..4 from the two full bytes, and bit 2 of the third byte |
| Bme280.DecodeRaw | bme280.c:345-365 | adc_P and adc_T are 20-bit, with a low nibble of 0 or 4; adc_H is b6·256 + b7 |
| Bme280.EncodeRaw | bme280.c:345-365 | the burst bytes that carry a raw sample |
| Bme280.DecodeEncodeRaw | bme280.c:345-365 | every sample the decoder can produce is recovered from its encoding |
| Bme280.Adc20OfFields | bme280.c:345-350 | a 20-bit field is rebuilt from its three bytes |
| Bme280.EncodeDecodeRaw | bme280.c:345-365 | decoding loses exactly the bits `& 0x04` drops |
| Bme280.Repeat | bme280.c:321-377 | n copies of one frame: the transcript of a polling or retry loop |
| Bme280.RepeatStep | bme280.c:321-377 | one more iteration appends one frame |
| Bme280.Driver.ReadBurst | bme280.c:331-377 | makes `BurstTries` burst reads of 0xF7..0xFE, succeeds exactly when one delivers all 8 bytes, and decodes the first full one |
| Bme280.Driver.ReadSensors | bme280.c:314-380 | returns 0 or 1, with a sample exactly on 1; 0 and nothing sent with no chip selected; otherwise the status reads then the burst reads; 1 exactly when the wait ended idle and a burst was full, with the sample compensated from that burst; `t_fine` is unchanged on failure |
| Wiring.ZeroBits | wiring.c:6 | the mark's starting value 0 has no bit set |
| Wiring.BitAnd | wiring.c:30 | C's `&` on the mark: the result is at most either operand |
| Wiring.BitOr | wiring.c:41 | C's `\|` on the mark: the result is at least either operand and at most their sum |
| Wiring.BitAndBits | wiring.c:30 | bit k of `a & b` is set exactly when it is set in both |
| Wiring.BitOrBits | wiring.c:41 | bit k of `a \| b` is set exactly when it is set in either |
| Wiring.SameBits | wiring.c:30 | values with the same bits are equal |
| Wiring.MaskCheck | wiring.c:28-31 | `mask_check` returns 0 or 1 |
| Wiring.MaskCheckMeaning | wiring.c:28-31 | `mask_check` is 1 exactly when every bit of the mask is set in the value checked |
| Wiring.NoHighBits | wiring.h:8-17 | a value below 16 has no bit from 4 on |
| Wiring.StepMaskBits | wiring.h:8-17 | the masks 1, `1 << 2` and `1 << 3` each have exactly one bit, at positions 0, 2 and 3 |
| Wiring.AllSetupBits | wiring.h:8-17 | the three masks together are bits 0, 2 and 3 |
| Wiring.MaskCheckStep | wiring.c:37-51 | `mask_check` on a step's mask asks whether that step is done |
| Wiring.MaskCheckAll | wiring.c:28-31 | `mask_check` on all three masks asks whether all three steps are done |
| Wiring.OrStepBits | wiring.c:41-55 | OR-ing a step's mask sets that bit and no other |
| Wiring.OrDoneStep | wiring.c:41-55 | OR-ing the mask of a done step leaves the mark unchanged |
| Wiring.Attempt | wiring.c:37-41 | one guarded block: it fails exactly when its call was made and failed, then leaving the mark as it was; the mark only grows, by at most the step's bit |
| Wiring.AttemptMeaning | wiring.c:37-55 | a block calls its setup function exactly when its bit is clear, fails exactly when that call fails, and then leaves the mark untouched; otherwise it sets its bit |
| Wiring.AttemptSkips | wiring.c:37-55 | a block whose bit is set calls nothing and changes nothing |
| Wiring.CheckInit | wiring.c:34-57 | `check_bme_init` on a mark and the setup results: returns 1 or -1, the mark only grows, by at most the three step bits, and at most three calls are made |
| Wiring.CheckInitOnlyAdds | wiring.c:34-57 | bits are only ever added, and only the three step bits |
| Wiring.CheckInitResult | wiring.c:34-57 | returns 1 or -1, and 1 exactly when all three steps are done afterwards, i.e. exactly when the mark covers all three bits |
| Wiring.FirstFailure | wiring.c:34-57 | the first step that is not done and whose call fails; every step before it is done or succeeds |
| Wiring.CheckInitCalls | wiring.c:34-57 | fails exactly when some step that is not done fails; the calls made are, in order, `wiringPiSetup()`, `wiringPiSPISetup(0, 1000000)` and `bme280_init(0)` for the steps not done, up to and including the failing one |
| Wiring.CheckInitProgress | wiring.c:34-57 | every step before the failing one is done afterwards, and the failing step and later ones are as they were |
| Wiring.PendingSkipsDone | wiring.c:37-51 | a done step is not among the pending calls |
| Wiring.CheckInitSkipsDone | wiring.c:37-51 | a done step is never called again |
| Wiring.CheckInitIdempotent | wiring.c:37-56 | with all three bits set, returns 1, calls nothing and leaves the mark unchanged |
| Wiring.CheckInitTwice | wiring.c:34-57 | after a successful call, the next one does nothing and returns 1 |
| Wiring.SetupMarkBits | wiring.c:94-97 | `setupWiring` sets bit 0 exactly when `wiringPiSetup()` returned 0, and touches no other bit |
| Wiring.SetupMark | wiring.c:94-97 | the mark after `setupWiring`: unchanged when `wiringPiSetup` fails, and grown by at most bit 0 |
| Wiring.NoSecondGpioSetup | wiring.c:37-97 | once `setupWiring` has succeeded, `check_bme_init` never calls `wiringPiSetup` again |
| Wiring.Wiring.constructor | wiring.c:6 | the mark starts at 0, and no call has been made |
| Wiring.Wiring.CheckBmeInit | wiring.c:34-57 | the mark, the calls made and the result are those of `CheckInit` on the old mark |
| Wiring.Wiring.SetupWiring | wiring.c:92-97 | calls `wiringPiSetup()` once and ORs in bit 0 exactly when it returned 0 |
| App.Find | main.c:66-74 | `strstr`: None when the pattern does not occur from `from` on; otherwise the first index where it occurs |
| App.OccursAtChar | main.c:74 | a one-character pattern occurs exactly where that character is |
| App.DeviceId | main.c:64-81 | `get_device_id` returns NULL exactly when `DeviceId=` does not occur; otherwise the key and the id fit in the input |
| App.DeviceIdPresent | main.c:64-81 | otherwise the result is the text 9 characters after the first occurrence: a substring of the input with no `;`, ending at a `;` or at the end |
| App.DeviceIdOfConnectionString | main.c:64-81 | a connection string whose first `DeviceId=` is followed by `id` and then a `;` or the end yields exactly `id` |
| App.SemicolonSpanUnique | main.c:74-78 | only one span from a given index has no `;` and ends at a `;` or the end |
| App.Dispatch | main.c:102-118 | 200 exactly for `start` and `stop`, 404 otherwise, with `onSuccess` on 200 and `notFound` on 404 |
| App.Step | main.c:23-91 | one event on the flags: `count` grows by at most one, a confirmation clears `messagePending`, and a message becomes pending only through an accepted send |
| App.Run | main.c:271-291 | a run of events: `count` grows by at most one per event |
| App.StepMeaning | main.c:23-91 | one event: a message is pending afterwards exactly when this event's send was accepted, or one was pending and this is not a confirmation; sending is on exactly after `start`, or it was on and this is not `stop`; `count` grows by one exactly on a gated loop turn |
| App.RunStep | main.c:271-291 | a run extended by one event is one more step |
| App.RunSplit | main.c:271-291 | a run splits at any point |
| App.PendingHolds | main.c:23-62 | while a message is in flight and no confirmation arrives, nothing is sent and `count` stands still |
| App.OneMessageInFlight | main.c:23-62 | between two accepted messages there is always a confirmation |
| App.StopHaltsLoop | main.c:88-91 | after `stop`, and until the next `start`, the loop reads and sends nothing |
| App.Ids | main.c:270-279 | the message ids the loop hands out are 1, 2, ..., n |
| App.Client.constructor | main.c:23-24 | program start: sending, nothing pending, count 0 |
| App.Client.Start | main.c:83-86 | sets `sendingMessage`; nothing else changes |
| App.Client.Stop | main.c:88-91 | clears `sendingMessage`; nothing else changes |
| App.Client.DeviceMethodCallback | main.c:93-125 | the flags change as `Step` of the call says; the result, the response and its size are the dispatch's status, its body's bytes with no NUL, and their number |
| App.Client.SendCallback | main.c:26-38 | always clears `messagePending`, and blinks exactly on a confirmed send |
| App.Client.SendMessages | main.c:40-62 | `messagePending` becomes true, and the message is queued, exactly when creation and `SendEventAsync` succeed; otherwise nothing changes |
| App.Client.LoopIteration | main.c:273-289 | one loop turn is `Step` of a tick; it reads with the next id exactly when `sendingMessage && !messagePending`, queues the payload exactly when that send is accepted, and keeps the ids 1..count |

## Left out

- Floating point: the divisions by 100.0, 256.0 and 1024.0 at bme280.c:367-369. The model outputs the fixed-point integers.
- `delay`, `printf`, the SPI electrical behaviour and the SHOW_DEBUG_OUTPUT branches: timing and console output only.
- The status wait at bme280.c:321-329 can loop forever on real hardware. The model runs it against a finite reply script (a script that runs out answers with a count of 0), so it always ends.
- Signed overflow in the compensation formulas is undefined behaviour in C. The model gives every `int32_t`/`int64_t` operation its two's-complement result instead of excluding such inputs.
- Uninitialised local buffers (the write buffer at bme280.c:121 and the humidity buffer at bme280.c:184) start as zeros in the model. Only bytes the code writes are ever observed.
- Compensation.CompensateP: states only that a zero denominator gives 0. The converse does not hold, as `SentinelNotExclusive` shows.
- Compensation.CompensateT and Compensation.CentiFromFine: the rounding statement holds only outside 32-bit wrap-around, which is how it is stated.
- Calibration.DecodeTempPress: assumes the little-endian layout of the Raspberry Pi, where `Calib_data`'s first twelve members are read straight from memory.
- Unused registers (0xD1, 0xE0, 0xF5) and humidity oversampling are not modelled, because the driver never uses them.
- `readMessage` (wiring.c:61-82) is an oracle: its return code and payload are arguments. Its `snprintf` formatting, the float comparison with `TEMPERATURE_ALERT`, and the `SIMULATED_DATA` branch are floating point and formatting.
- `blinkLED` and `pinMode`: GPIO output, counted only as `blinks` in `Client`.
- The three setup calls inside `check_bme_init` are oracles (`SetupResults`). The model of `bme280_init` is `Driver.Init`, but the two are not composed.
- The mark is an `unsigned int`, modelled as a `nat`. It only ever holds bits 0, 2 and 3, so there is no 32-bit wrap-around to model.
- App.Client.LoopIteration: `count` is an unbounded integer, so its 32-bit overflow after 2^31 loop turns is not modelled.
- `IoTHubClient_LL_DoWork` and `delay(INTERVAL)` in the main loop: SDK plumbing and timing.
- telemetry.c, file and certificate reading, client creation, `receiveMessageCallback`, and `main`'s copy of the device id into a 256-byte buffer: network, file and SDK I/O.
- C strings are the characters before their NUL terminator. `calloc`, `malloc` and `memcpy` become sequence values.

## Findings

| source | as written | input that shows it | evidently intended | confidence | as-written member | corrected member |
|---|---|---|---|---|---|---|
| bme280.c:119-121 | `bme280_write` rejects only `Num_bytes > 128`, but builds a frame of `2·Num_bytes` bytes in a 128-byte buffer | `Num_bytes` = 65 builds a 130-byte frame: bytes 128 and 129 are written past the buffer, and the transfer reads past it | reject every write whose frame does not fit, i.e. `Num_bytes > 64` | not executed | Bme280.WriteGuardOverrun | Bme280.WriteGuards |
