# PZEM-004T driver: a verified model

This project models the `pzem004t` crate, an embedded driver for the PZEM-004T v3.0
AC energy monitor. The driver talks MODBUS RTU over a UART and covers two files:

- `src/lib.rs` is the protocol engine:
  - the address rules of `Pzem::new` and `set_addr`;
  - the six request frames with their CRC-16/MODBUS trailer (`crc_write`);
  - the exchange `communicate` performs: drain the input, send the request, flush, read
    the response, then check the byte count, the echoed address and function code, the
    4-byte shortcut and the CRC (`crc_check`);
  - the register decoding of `result_convert`;
  - the driver object whose operations are built on `communicate`.
- `src/io.rs` is the blocking transport over a non-blocking serial port:
  - `write_blocking` retries each byte until the port takes it;
  - `read_blocking` fills a buffer, with a countdown timer polled before every read or
    without one;
  - `drain` discards pending input.

The project has six modules, one per file:

- `Crc` defines CRC-16/MODBUS from section 6.2.2 of the MODBUS over Serial Line guide
  V1.02.
- `Frame` holds `crc_write` and `crc_check`, with the host's byte order as a parameter.
- `Io` holds the scripted serial port and timer (Dafny classes) and the transport
  loops. Each loop is proved against a recursive function of the scripts.
- `Registers` holds the raw `u16`/`u32` register decoding.
- `Driver` holds the addresses, the frames, `communicate` as a function of the port's
  scripts, and the `Pzem` class.
- `Wrappers` holds `Option` and `Result`.

The external devices are modelled as scripts:

- A serial port replays finite scripts of outcomes for `read()`, `write()` and
  `flush()`, and records every byte it accepted.
  - An exhausted read script means no byte is pending.
  - An exhausted write or flush script means the port accepts.
- A timer replays the outcomes of its `wait()` polls. An exhausted poll script means the
  countdown has run out.

## Model

| member | source | states |
|---|---|---|
| Crc.Crc16 | src/lib.rs:95 | computes CRC-16/MODBUS of the data, with the register starting at 0xFFFF; `CheckValue` and `DetectsByteError` state what it promises |
| Crc.CrcFromConcat | src/lib.rs:95 | feeding data to the CRC register in two parts gives the same register as feeding it whole |
| Crc.CheckValue | src/lib.rs:95 | the checksum `crc_write` takes from CRC-16/MODBUS gives the catalogued check value 0x4B37 for "123456789" |
| Crc.CrcFromInjective | src/lib.rs:103 | two different CRC register values stay different after the same data is fed to both |
| Crc.DetectsByteError | src/lib.rs:101-106 | two equal-length messages that differ in exactly one byte have different checksums, so `crc_check` catches every single-byte error |
| Frame.ToBe | src/lib.rs:95 | `u16::from_be` undoes `u16::to_be` on either host byte order |
| Frame.FromBe | src/lib.rs:103 | `u16::from_be` is the identity on a big-endian host and exchanges the high and low byte on a little-endian one |
| Frame.CrcTail | src/lib.rs:97-98 | the two bytes `crc_write` stores are a pair that the comparison of `crc_check` accepts for the same CRC |
| Frame.StoredAs | src/lib.rs:105 | computes the comparison of `crc_check`: the converted CRC's high byte equals the first stored byte and its low byte the second; `TailBytes` states what it means |
| Frame.TailBytes | src/lib.rs:97-105 | the comparison of `crc_check` holds exactly for the two bytes `crc_write` stores for the same CRC |
| Frame.Seal | src/lib.rs:93-99 | a MODBUS frame is the body followed by two CRC bytes, with the body unchanged |
| Frame.LittleEndianTailIsWireOrder | src/lib.rs:95-98 | on a little-endian host, `to_be` followed by high-byte-first stores the CRC low byte first, which is MODBUS wire order |
| Frame.BigEndianTailIsSwapped | src/lib.rs:95-98 | on a big-endian host the same code would send the CRC's high byte first |
| Frame.CrcCheck | src/lib.rs:101-106 | `crc_check` accepts exactly when the last two bytes are what `crc_write` would store for the bytes before them |
| Frame.CheckMeansSealed | src/lib.rs:101-106 | on the driver's host, `crc_check` accepts a buffer if and only if it is a MODBUS frame of its first n-2 bytes |
| Frame.CrcWrite | src/lib.rs:93-99 | `crc_write` overwrites only the last two bytes, with the converted CRC of the bytes before them |
| Frame.CheckAcceptsWritten | src/lib.rs:93-106 | on any host byte order, `crc_check` accepts every buffer `crc_write` produced |
| Frame.SealedFramePasses | src/lib.rs:101-106 | every sealed frame passes `crc_check` on the driver's host |
| Frame.CorruptedFrameFails | src/lib.rs:101-106 | changing any one byte of a sealed frame, in the body or in the CRC, makes `crc_check` fail |
| Io.PayloadConcat | src/io.rs:41-60 | the bytes delivered by two consecutive runs of read outcomes are the concatenation of each run's bytes |
| Io.WriteRun | src/io.rs:11-17 | `write_blocking` never sends more bytes than the buffer holds |
| Io.WriteRunSent | src/io.rs:11-17 | `write_blocking` reports no error if and only if it sent the whole buffer |
| Io.WriteRunReady | src/io.rs:12-14 | a port that accepts every write sends the whole buffer and takes one write outcome per byte |
| Io.WriteRunIdle | src/io.rs:12-14 | a port with nothing scripted accepts the whole buffer |
| Io.FlushRun | src/lib.rs:177 | `block!(flush())` consumes at most the scripted flush outcomes |
| Io.Await | src/io.rs:58 | `block!(read())` ends on a byte or an error, never on "would block", and consumes at least one outcome |
| Io.UntimedRead | src/io.rs:57-60 | the untimed loop stores at most as many bytes as the buffer holds |
| Io.TimedRead | src/io.rs:41-55 | the timed loop stores at most as many bytes as the buffer holds |
| Io.UntimedReadComplete | src/io.rs:57-60 | without a timeout the buffer is filled completely unless a read error stops the loop early, a failing read ends on the failed attempt, and the timer is not polled |
| Io.TimedReadStops | src/io.rs:41-55 | with a timeout, a short read without error ends on an expired poll, and an error ends on the failed read attempt |
| Io.TimedReadPollsFirst | src/io.rs:42-43 | in the timed loop every read attempt comes right after a poll that had not expired |
| Io.UntimedReadInOrder | src/io.rs:57-60 | the untimed loop stores the bytes of the consumed outcomes, in order, and leaves the remainder of the script |
| Io.TimedReadInOrder | src/io.rs:41-55 | the timed loop stores the bytes of the consumed outcomes, in order, and leaves the remainder of the script |
| Io.Bytes | src/io.rs:46-49 | a script of pending bytes delivers exactly those bytes |
| Io.UntimedReadPending | src/io.rs:57-60 | without a timeout, pending bytes are read back unchanged and the rest of the script is untouched |
| Io.TimedReadPending | src/io.rs:41-55 | with a timeout that does not expire early, pending bytes are read back unchanged |
| Io.WouldBlockRetries | src/io.rs:45 | a read attempt that would block stores nothing and the loop goes on as before |
| Io.DrainRun | src/io.rs:74-81 | the `drain` loop never discards or leaves more outcomes than the script holds, and always consumes at least one outcome of a non-empty script |
| Io.DrainStopsAtFirstGap | src/io.rs:74-81 | `drain` discards exactly the bytes before the first "would block" or error, reports that error, and consumes nothing after it |
| Io.CountDown.Start | src/io.rs:39 | `start` records the countdown duration |
| Io.CountDown.Wait | src/io.rs:42 | `wait` returns the next poll outcome and consumes it |
| Io.Serial.Read | src/io.rs:43 | `read` returns the next scripted outcome and consumes it |
| Io.Serial.Write | src/io.rs:13 | `write` consumes one write outcome and records the byte only if the port accepted it |
| Io.Serial.Flush | src/lib.rs:177 | `flush` consumes one flush outcome |
| Io.Serial.AwaitFlush | src/lib.rs:177 | `block!(flush())` retries until the flush completes or fails, as `FlushRun` says |
| Io.Serial.WriteBlocking | src/io.rs:11-17 | the port's output grows by the whole buffer on success, and by a proper prefix of it on error; the result and the write script left are what `WriteRun` says |
| Io.Serial.ReadBlocking | src/io.rs:31-64 | the buffer and the port end as the timed or untimed reception says; the count is the number of bytes stored truncated to a `u8`; the timer is started once when given |
| Io.Serial.ReadUntilExpiry | src/io.rs:39-55 | the timed loop fills the buffer's prefix with the bytes `TimedRead` receives, keeps the rest, and returns its error or count |
| Io.Serial.AwaitRead | src/io.rs:58 | `block!(read())` returns what `Await` says and consumes the same outcomes |
| Io.Serial.ReadAll | src/io.rs:57-60 | the untimed loop fills the buffer's prefix with the bytes `UntimedRead` receives, and returns its error or count |
| Io.Serial.Drain | src/io.rs:74-81 | `drain` returns the error or success of `DrainRun` and leaves the script `DrainRun` leaves |
| Registers.U16 | src/lib.rs:266 | a register built from two bytes has them as its high and low byte |
| Registers.U16OfBytes | src/lib.rs:266 | every 16-bit register is rebuilt from its own high and low byte |
| Registers.U32LowWordFirst | src/lib.rs:110-113 | the 32-bit value built from four bytes has its first register as the low word and its second as the high word |
| Registers.WordsDetermine | src/lib.rs:110-114 | a 32-bit value is determined by its low and high word |
| Registers.Decode | src/lib.rs:108-128 | the alarm flag is set if and only if register 9 (bytes 21 and 22) is non-zero |
| Registers.RegisterBytes | src/lib.rs:109 | the two bytes of a register read back as the register |
| Registers.WordSwappedRoundTrip | src/lib.rs:110-114 | a 32-bit value laid out low word first is read back unchanged |
| Registers.DecodeRegisterBlock | src/lib.rs:108-128 | a response whose register bytes are the layout of a measurement decodes to that measurement |
| Registers.RegisterBlockOfDecode | src/lib.rs:108-128 | a response whose alarm register is 0x0000 or 0xFFFF is the layout of what it decodes to |
| Registers.WordBytes | src/lib.rs:110-114 | laying out the value decoded from four bytes gives back those bytes |
| Registers.U16Bytes | src/lib.rs:109 | laying out the register built from two bytes gives back those bytes |
| Registers.VoltageExample | src/lib.rs:109 | voltage bytes 0x09 0x08 decode to 2312 tenths of a volt |
| Registers.Measurement.constructor | src/lib.rs:130-140 | `Measurement::default()` has every field zero and the alarm off |
| Registers.ResultConvert | src/lib.rs:108-128 | `result_convert` overwrites every field of the measurement with what `Decode` reads from the buffer |
| Driver.NewAddress | src/lib.rs:158-165 | `new` accepts an address if and only if it is 0x01..0xF7 or the general 0xF8, defaulting to 0xF8, and otherwise fails with `IllegalAddress` |
| Driver.AssignableAddresses | src/lib.rs:53-55 | `set_addr` may assign exactly 0x01..0xF7, which are all legal driver addresses, and the legal ones are those plus 0xF8 |
| Driver.Request | src/lib.rs:221-232 | a request buffer built from a literal and `crc_write` is the sealed body and passes `crc_check` |
| Driver.ReadRequest | src/lib.rs:221-232 | the read request is address, 0x04, register 0, count 10, followed by the CRC |
| Driver.ThresholdRequest | src/lib.rs:250-261 | the threshold query is address, 0x03, parameter 0x0001, count 1, followed by the CRC |
| Driver.AddressRequest | src/lib.rs:276-287 | the address query is address, 0x03, parameter 0x0002, count 1, followed by the CRC |
| Driver.SetThresholdRequest | src/lib.rs:307-318 | the threshold write is address, 0x06, parameter 0x0001, then the threshold high byte first, followed by the CRC |
| Driver.SetAddrRequest | src/lib.rs:344-355 | the address write is address, 0x06, parameter 0x0002, 0x00, the new address, followed by the CRC |
| Driver.ResetRequest | src/lib.rs:370-371 | the reset request is address, 0x42, followed by the CRC |
| Driver.DefaultReadFrame | src/lib.rs:221-232 | the read request to 0xF8 is F8 04 00 00 00 0A 64 64 |
| Driver.DefaultResetFrame | src/lib.rs:370-371 | the reset request to 0xF8 is F8 42 C2 41 |
| Driver.Validate | src/lib.rs:179-206 | an accepted response was read in full, echoes the request's address and function code, and passes `crc_check`; a rejection is `TimedOut`, `PzemError` or `CrcMismatch` |
| Driver.ShortcutAgrees | src/lib.rs:197-201 | for a 4-byte echo, comparing the last two bytes with the request's is the same as checking the CRC |
| Driver.ValidateVerdicts | src/lib.rs:179-206 | for each verdict, the exact condition: a short read times out; otherwise a wrong echo is `PzemError`; otherwise a non-frame is `CrcMismatch`; everything else is accepted |
| Driver.CommunicateRun | src/lib.rs:167-207 | the response buffer keeps its length through the exchange |
| Driver.UnsentExchange | src/lib.rs:174-177 | when draining, writing or flushing fails, the error is reported, the response buffer is untouched and the timer is not started |
| Driver.SentExchange | src/lib.rs:176-206 | once the request is sent, the port's output has grown by the whole request and the result is the read error or the verdict of the checks on what was read |
| Driver.CommunicateAccepted | src/lib.rs:167-207 | an accepted exchange sent the whole request, filled the response with bytes read in order after the drain, and the response echoes the request and is a MODBUS frame |
| Driver.CommunicateTimesOut | src/lib.rs:179-189 | the exchange times out if and only if the request was sent and the read stopped short without error, which only a timer that expired can cause |
| Driver.CommunicateDrainsFirst | src/lib.rs:174 | a failing drain ends the exchange with a read error before anything is sent |
| Driver.ShortExchangeEchoes | src/lib.rs:197-201 | an accepted 4-byte exchange received exactly the request back |
| Driver.DeliveredExchange | src/lib.rs:167-207 | on a quiet port whose reply is pending, the response is the reply and the verdict is the checks applied to it |
| Driver.SensorReply | src/lib.rs:234 | a sensor's measurement reply is address, 0x04, 20, the 20 register bytes, followed by the CRC |
| Driver.SensorReplyAccepted | src/lib.rs:216-241 | the checks accept the sensor's reply to a read request, and it decodes to the sensor's measurement |
| Driver.SensorAnswersRead | src/lib.rs:216-241 | a read request answered by the sensor is accepted and yields the sensor's measurement |
| Driver.Zeros | src/lib.rs:235 | the stand-in for an uninitialised response buffer holds only zeros |
| Driver.NewRequest | src/lib.rs:221-232 | a fresh request buffer holding the sealed body |
| Driver.NewResponse | src/lib.rs:235 | a fresh response buffer of the given length |
| Driver.Pzem.constructor | src/lib.rs:163 | the driver holds the given port and a legal address |
| Driver.Pzem.New | src/lib.rs:158-165 | an illegal address is refused with `IllegalAddress`; otherwise a fresh driver has the defaulted address; the port is untouched either way |
| Driver.Pzem.Communicate | src/lib.rs:167-207 | the result, the response buffer, the port and the timer end as `CommunicateRun` says |
| Driver.Pzem.Transact | src/lib.rs:221-236 | the request is built and sealed, a fresh response buffer is exchanged, and everything ends as `CommunicateRun` says |
| Driver.Pzem.Read | src/lib.rs:216-241 | the read exchange decides the result; the measurement is the decoded response on success and is unchanged on error |
| Driver.Pzem.GetThreshold | src/lib.rs:246-267 | the threshold query's error, or registers 3-4 of the response read high byte first |
| Driver.Pzem.GetAddr | src/lib.rs:272-293 | the address query's error, or registers 3-4 of the response read high byte first |
| Driver.Pzem.SetThreshold | src/lib.rs:302-324 | the threshold write's exchange decides the result |
| Driver.Pzem.SetAddr | src/lib.rs:335-363 | an address outside 0x01..0xF7 is refused before any I/O; otherwise the exchange decides, and the driver takes the new address only on success |
| Driver.Pzem.ResetEnergy | src/lib.rs:366-377 | the reset exchange decides the result, and an accepted reset received its own request back |
| Driver.Pzem.Release | src/lib.rs:380-382 | `release` hands back the driver's serial port |

## Left out

- The `f32` scaling of `result_convert` is not modelled. The measurement holds the raw `u16` and `u32` registers, and the divisors (10, 1000, 10, 1000, 10, 100) are kept as constants.
- `Display for Error` is not modelled, because it only formats messages.
- The `crc16` crate is not part of this model. CRC-16/MODBUS is defined here from section 6.2.2 of the MODBUS over Serial Line guide V1.02, and its catalogued check value is proved.
- The CRC byte order follows the code. `crc_write` applies `to_be` and then stores the high byte first. `crc_check` applies `from_be`. The host order is a parameter; on the little-endian target this is MODBUS wire order, which is proved.
- The `MaybeUninit` response buffers are modelled as zero-filled. Every property proved about `communicate` holds for any initial contents.
- The buffer literal and `crc_write` of each operation are factored into `Transact` and `NewRequest`. They follow the same steps in the same order as the inline code.
- Io.Serial.ReadBlocking: without a timeout the source blocks forever on a port that stops answering. The model instead requires the read script to deliver the bytes or fail (`Delivers`, `ReadEnds`), so the model does not cover the non-terminating case.
- Io.Serial.ReadBlocking: the source's `i as u8` truncation is modelled as `% 256`. Every buffer the driver passes is at most 25 bytes long.
- The generic `CountDown` and `Serial` types, `NoTimeout` and the HAL traits are modelled as one concrete scripted timer and port. Their error types are modelled as integer codes.
- The `unreachable!()` on a timer error is not modelled, because the timer's error type is uninhabited.
- Io.Serial.WriteBlocking, Io.Serial.AwaitFlush, Io.Serial.Drain: an exhausted write or flush script accepts and an exhausted read script would block, so the model cannot show `write_blocking` or `block!(flush())` spinning forever on a port that never accepts, or `drain` spinning forever on a port that never goes quiet. Every modelled run of these three ends.
- Concurrency and interrupts are not modelled. Each operation runs alone on the port.
