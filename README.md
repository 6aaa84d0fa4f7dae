# LSM6 driver model

A Dafny model of `LSM6`, the Arduino driver for the LSM6DS33 accelerometer and
gyroscope on a two-wire bus (LSM6.cpp). The bus and the millisecond clock are
inputs: identity probes read from a `Bus` oracle, each burst read is given as
a `Burst` (the clock at the start of the wait, one `Poll` per turn of the wait
loop, the six bytes received), register writes come out as a list of
`Frame`s, and each burst read reports the register and byte count it
requests as a `BurstRequest`.

- `types.dfy` (`LsmTypes`): `uint8`, `uint16`, `int16`, the `deviceType` and
  `sa0State` enumerations, opaque register selectors, the DS33 addresses,
  identity and the probe sentinel.
- `sample.dfy` (`Sample`): the byte assembly `(int16_t)(hi << 8 | lo)`, its
  inverse, and six-byte sample decoding.
- `probe.dfy` (`Probe`): `testReg`, and the detection `init` performs, stated
  as an ordered first-match search over the SA0 candidates.
- `timeout.dfy` (`Timeout`): the busy-wait of a burst read as a function of
  the observations, the loop itself as a method proved against it, and the
  16-bit elapsed-time arithmetic.
- `lsm6.dfy` (`Driver`): class `LSM6` with the fields `device` (`_device`),
  `address`, `ioTimeout` (`io_timeout`), `didTimeout` (`did_timeout`), `a`
  and `g`, and its methods.

Elapsed time is modelled as the code computes it: `(uint16_t)millis() -
millis_start` promotes both 16-bit operands to `int` and subtracts. The
difference is therefore at most `0xFFFF - millis_start`, and it is negative
once the low 16 bits of the clock have wrapped past the start. The timeout
fires only on a poll whose low 16 clock bits exceed `millis_start +
io_timeout`. When `millis_start + io_timeout >= 0xFFFF` no clock value does,
so a wait that starts in the last `io_timeout` milliseconds of a 16-bit
period never times out, and if its data never arrives it spins forever
(`Timeout.NeverFires`, `Timeout.LateStartNeverTimesOut`,
`Timeout.LateTimeoutExample`). Otherwise a wait whose polls all miss the
window between the deadline and the wrap is delayed until the low bits pass
the deadline again in a later period (`Timeout.ElapsedAcrossWrap`). A
subtraction modulo 65536 would tolerate the wrap; the code as written does
not, and the model follows the code. This is the
behaviour on targets whose `int` is wider than 16 bits; where `int` is 16 bits
wide the operands promote to `unsigned int` and the difference is taken modulo
65536.

The `deviceType` and `sa0State` enumerations are declared in LSM6.h, which is
not part of this model; they are taken to be exactly the values the .cpp file
uses (`device_DS33`, `device_auto`; `sa0_low`, `sa0_high`, `sa0_auto`).

## Model

| member | source | states |
|---|---|---|
| Sample.ShiftOr | LSM6.cpp:170-172 | the assembled word is a 16-bit value whose high byte is `hi` and whose low byte is `lo` |
| Sample.ShiftOrIsAddition | LSM6.cpp:201-203 | on 16-bit words, a byte h shifted left by 8 and or-ed with a byte l equals `h*256 + l`, the two sharing no bit |
| Sample.ToInt16 | LSM6.cpp:170-172 | the `(int16_t)` conversion yields the int16 value congruent to the 16-bit word modulo 65536 |
| Sample.AxisValue | LSM6.cpp:201-203 | an axis value is the int16 congruent to `hi*256 + lo` modulo 65536, and it is negative exactly when the high byte's top bit is set |
| Sample.AxisExamples | LSM6.cpp:170 | (lo 0x34, hi 0x12) gives 4660, (0xFF, 0xFF) gives -1, and the extremes -32768 and 32767 |
| Sample.AxisValueCases | LSM6.cpp:171 | an axis is `hi*256+lo` below 32768 and `hi*256+lo-65536` from 32768 on |
| Sample.DecodeEncodeAxis | LSM6.cpp:172 | decoding the (low, high) bytes of any int16 value gives that value back |
| Sample.EncodeDecodeAxis | LSM6.cpp:202 | every byte pair is the encoding of its decoded value, so decoding is a bijection |
| Sample.DecodeEncodeSample | LSM6.cpp:162-172 | decoding the six bytes sent for a sample (x, y, z, low byte first) gives the sample back |
| Sample.DecodeSample | LSM6.cpp:162-172 | the six bytes, read x low, x high, y low, y high, z low, z high, give three axes, each the int16 congruent to its little-endian word and negative exactly when its high byte's top bit is set (the gyro read at LSM6.cpp:193-203 does the same) |
| Sample.EncodeDecodeSample | LSM6.cpp:193-203 | the six received bytes are exactly the encoding of the decoded sample |
| Probe.TestReg | LSM6.cpp:223-241 | the result is the sentinel exactly when the selector write is not acknowledged or no byte is available, and the received byte otherwise |
| Probe.SentinelIsNotAByte | LSM6.cpp:12 | a probe result is the sentinel -1 or a byte in 0..255, and a probe reads as the DS33 identity only when the device acknowledged and sent 0x69 |
| Probe.Answers | LSM6.cpp:55-61 | an address answers exactly when the probe was acknowledged, a byte was available and that byte is the DS33 identity 0x69 |
| Probe.Ds33Address | LSM6.cpp:80 | the DS33 address is a 7-bit address 0b110101x whose bit 0 is the SA0 level (high for `sa0_high`, low otherwise) |
| Probe.Candidates | LSM6.cpp:54-61 | the SA0 levels probed include high exactly when low was not requested and low exactly when high was not requested, never auto |
| Probe.FirstMatch | LSM6.cpp:52-66 | the search never probes more addresses than there are candidates, probes only DS33 addresses, ends on the address of the candidate it reports as answering, and probes every candidate when none answers |
| Probe.FirstMatchStopsAtFirstAnswer | LSM6.cpp:55-65 | when the k-th candidate is the first to answer, the search probes exactly candidates 0..k in order and settles on the k-th |
| Probe.FirstMatchExhausts | LSM6.cpp:52-72 | when no candidate answers, every candidate is probed in order and nothing is found |
| Probe.Detect | LSM6.cpp:46-72 | detection probes at most the two DS33 addresses, nothing when device and SA0 are both explicit, and on success settles on the DS33 with a non-auto SA0 that equals the requested one whenever SA0 was explicit |
| Probe.ExplicitRequestSkipsProbing | LSM6.cpp:46-84 | with device and SA0 both explicit, no probe happens, detection succeeds with what was asked, and the address is 0x6B for high, 0x6A for low |
| Probe.ProbeOrder | LSM6.cpp:52-66 | the high address is probed first unless SA0 is low; the low address is probed only if SA0 is not high and the high address was skipped or did not answer |
| Probe.DetectOutcome | LSM6.cpp:68-72 | detection fails exactly when probing was needed and no permitted address answered; on success neither device nor SA0 is auto, and after probing the device is the DS33 and SA0 is the first level that answered |
| Probe.HighAddressWins | LSM6.cpp:55-59 | if the chip answers at both addresses and SA0 is auto, only the high address is probed and SA0 is high |
| Timeout.Low16 | LSM6.cpp:153 | `(uint16_t)millis()` differs from the clock by a multiple of 65536 |
| Timeout.Elapsed | LSM6.cpp:155 | the elapsed time lies between `-millis_start` and `0xFFFF - millis_start`, and is congruent modulo 65536 to the real difference from the start |
| Timeout.Stops | LSM6.cpp:154-155 | a turn ends the loop exactly when six bytes are available or the timeout is nonzero and the low 16 clock bits exceed start plus timeout |
| Timeout.Wait | LSM6.cpp:154-160 | a wait can only end on some turn, and it can only time out with a nonzero timeout whose deadline start plus timeout lies below 0xFFFF |
| Timeout.NeverFires | LSM6.cpp:155 | when start plus timeout reaches 0xFFFF, the deadline test is false at every clock value |
| Timeout.LateStartNeverTimesOut | LSM6.cpp:154-160 | when start plus timeout reaches 0xFFFF, the wait never times out, and while no turn sees six bytes it never ends |
| Timeout.ElapsedAcrossWrap | LSM6.cpp:155 | the elapsed time is the true difference until the low 16 bits wrap, and the true difference minus 65536 (negative) after one wrap |
| Timeout.LateTimeoutExample | LSM6.cpp:155 | a wait started at 65530 ms with a 10 ms timeout reads an elapsed time of -65525 at 65541 ms and does not time out at any clock value |
| Timeout.WaitEndsAtFirstStop | LSM6.cpp:154-160 | the wait ends at the first turn with six bytes available or a fired timeout, with data if six bytes were available on that turn |
| Timeout.WaitPendingIff | LSM6.cpp:154 | the wait has not ended exactly when no turn had six bytes and no turn fired the timeout |
| Timeout.ZeroTimeoutNeverFires | LSM6.cpp:155 | with a zero timeout the wait never times out and ends with data exactly when some turn sees six bytes |
| Timeout.TimedOutMeansNoData | LSM6.cpp:155-158 | a timed-out wait had a nonzero timeout, saw fewer than six bytes on every turn up to one whose elapsed time exceeded the timeout |
| Timeout.WaitForData | LSM6.cpp:153-160 | the polling loop returns ready or timed out exactly as the wait's specification says |
| Driver.DefaultWrites | LSM6.cpp:98-120 | the default configuration is three writes, all to the device's address |
| Driver.DefaultSettings | LSM6.cpp:104-118 | the writes set ODR 0b1000 and full scale 0 for accelerometer and gyro, and IF_INC in CTRL3_C, in the order CTRL1_XL, CTRL2_G, CTRL3_C |
| Driver.LSM6.constructor | LSM6.cpp:18-24 | a new driver has device auto, timeout 0 and the latch clear |
| Driver.LSM6.TimeoutOccurred | LSM6.cpp:29-34 | returns the latch and leaves it clear |
| Driver.LSM6.SetTimeout | LSM6.cpp:36-39 | the timeout becomes the argument |
| Driver.LSM6.GetTimeout | LSM6.cpp:41-44 | returns the timeout |
| Driver.LSM6.Init | LSM6.cpp:46-85 | probes exactly the addresses detection prescribes, returns whether detection succeeded, on success stores the detected device and its address, and on failure leaves device and address unchanged |
| Driver.LSM6.EnableDefault | LSM6.cpp:98-120 | writes the default configuration when a DS33 was detected and nothing otherwise |
| Driver.LSM6.ReadAcc | LSM6.cpp:145-173 | requests six bytes from OUTX_L_XL at the device address; on a timeout sets the latch and keeps `a`; otherwise overwrites all three axes of `a` with the decoded bytes and leaves the latch |
| Driver.LSM6.ReadGyro | LSM6.cpp:176-204 | requests six bytes from OUTX_L_G at the device address; on a timeout sets the latch and keeps `g`; otherwise overwrites all three axes of `g` with the decoded bytes and leaves the latch |
| Driver.LSM6.Read | LSM6.cpp:207-211 | runs both reads with no short-circuit, accelerometer request first: the latch is set if either timed out, and each vector is updated by its own read |
| Driver.TimeoutLatchIsConsumedOnce | LSM6.cpp:29-34 | two consecutive `timeoutOccurred` calls return the latch, then false |
| Driver.SetThenGetTimeout | LSM6.cpp:36-44 | `getTimeout` after `setTimeout(t)` returns t |

## Left out

- The two-wire transport (`beginTransmission`, `write`, `endTransmission`, `requestFrom`, `available`, `read`) and `millis()`: foreign I/O and clock calls, replaced by the `Bus` oracle, the `Burst` observations and the `Frame` output list.
- `readReg` and `writeReg` as bus transactions: a register write appears only as the `Frame` it puts on the bus; `readReg` is not used by the modelled operations.
- `last_status`: diagnostics copied from the bus, with no logic of its own.
- `vector_normalize`: floating-point square root and division; `vector_dot` is not part of this model.
- The numeric values of the register selectors (`WHO_AM_I`, `CTRL1_XL`, `OUTX_L_XL`, ...) and the `vector` template live in LSM6.h, which is not part of this model; the selectors are distinct opaque constants.
- Driver.LSM6.ReadAcc: the wait loop spins forever when the data never arrives and either the timeout is 0 or the start plus the timeout reaches 0xFFFF (`Timeout.LateStartNeverTimesOut`); the model only covers observations on which the loop ends, which its precondition requires.
- Driver.LSM6.ReadGyro: same restriction as `ReadAcc`: no model of the two endless waits (timeout 0, or start plus timeout at least 0xFFFF, with no data).
- Driver.LSM6.Read: same restriction as `ReadAcc`, for both reads: no model of the two endless waits (timeout 0, or start plus timeout at least 0xFFFF, with no data).
- Sample.ToInt16: the `(int16_t)` conversion of a value above 32767 is taken to be two's complement, which C++ guarantees only from C++20 and Arduino compilers do.
- The address `init` would store for `device_auto` in its `switch` is unreachable and not modelled; before a successful `Init` the `address` field holds an arbitrary value, as in the source.
