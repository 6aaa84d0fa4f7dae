/**
 * The `LSM6` driver object: detected identity, bus address, I/O timeout,
 * the consume-once timeout latch and the last accelerometer and gyro
 * samples. The bus and the clock are inputs: a `Bus` oracle for identity
 * probes, a `Burst` per burst read, and a list of frames for register writes.
 */
module Driver {
  import opened LsmTypes
  import opened Sample
  import opened Probe
  import opened Timeout

  /** One `writeReg` on the bus: address, register selector, value. */
  datatype Frame = Frame(address: uint8, reg: Reg, value: uint8)

  /**
   * The start of one burst read on the bus: the output register selected at
   * the address (the chip then auto-increments), and the byte count requested.
   */
  datatype BurstRequest = BurstRequest(address: uint8, reg: Reg, count: nat)

  /**
   * What the bus and the clock do during one burst read: `millis()` when the
   * wait starts, one `Poll` per turn of the wait loop, and the six bytes
   * `read()` then returns.
   */
  datatype Burst = Burst(start: nat, polls: seq<Poll>, data: seq<uint8>)

  /** The bus and the clock let a burst read finish: six bytes, and a wait that ends. */
  predicate Completes(burst: Burst, timeout: uint16)
  {
    |burst.data| == 6 && Wait(burst.polls, Low16(burst.start), timeout) != None
  }

  /** Did this burst read time out? */
  predicate TimesOut(burst: Burst, timeout: uint16)
  {
    Wait(burst.polls, Low16(burst.start), timeout) == Some(TimedOut)
  }

  /** The values `enableDefault` writes to the DS33 at `addr`, in order. */
  function DefaultWrites(addr: uint8): (frames: seq<Frame>)
    ensures |frames| == 3
    ensures forall i :: 0 <= i < 3 ==> frames[i].address == addr
  {
    [Frame(addr, Ctrl1Xl, 0x80), Frame(addr, Ctrl2G, 0x80), Frame(addr, Ctrl3C, 0x04)]
  }

  /**
   * The settings the default writes select: output data rate 1.66 kHz
   * (ODR field 0b1000 in bits 7..4) and the smallest full scale (bits 3..2
   * clear) for both sensors, and register auto-increment (IF_INC, bit 2 of
   * CTRL3_C), on which the six-byte burst reads rely.
   */
  lemma DefaultSettings(addr: uint8)
    ensures var w := DefaultWrites(addr);
      w[0].reg == Ctrl1Xl && w[0].value / 0x10 == 0x8 && (w[0].value / 4) % 4 == 0
      && w[1].reg == Ctrl2G && w[1].value / 0x10 == 0x8 && (w[1].value / 4) % 4 == 0
      && w[2].reg == Ctrl3C && (w[2].value / 4) % 2 == 1
  {
  }

  class LSM6 {
    /** `_device`: the detected variant. */
    var device: DeviceType
    /** `address`: the resolved 7-bit bus address; meaningful only after a successful `Init`. */
    var address: uint8
    /** `io_timeout` in milliseconds; 0 means no timeout. */
    var ioTimeout: uint16
    /** `did_timeout`: the timeout latch. */
    var didTimeout: bool
    /** `a` and `g`: the last accelerometer and gyro samples. */
    var a: Vector
    var g: Vector

    /** A new driver has detected nothing, has no timeout and a clear latch. */
    constructor ()
      ensures device == DeviceAuto && ioTimeout == 0 && !didTimeout
    {
      device := DeviceAuto;
      ioTimeout := 0;
      didTimeout := false;
    }

    /** `timeoutOccurred`: report the latch and clear it. */
    method TimeoutOccurred() returns (occurred: bool)
      modifies this`didTimeout
      ensures occurred == old(didTimeout) && !didTimeout
    {
      occurred := didTimeout;
      didTimeout := false;
    }

    method SetTimeout(timeout: uint16)
      modifies this`ioTimeout
      ensures ioTimeout == timeout
    {
      ioTimeout := timeout;
    }

    method GetTimeout() returns (timeout: uint16)
      ensures timeout == ioTimeout
    {
      timeout := ioTimeout;
    }

    /**
     * `init`: settle the device type and the SA0 level, probing the bus when
     * either is left to detection, and resolve the bus address. Returns the
     * addresses probed, in order. On failure nothing changes.
     */
    method Init(requestedDevice: DeviceType, requestedSa0: Sa0State, bus: Bus) returns (ok: bool, probes: seq<uint8>)
      modifies this`device, this`address
      ensures var d := Detect(requestedDevice, requestedSa0, bus);
        ok == d.found.Some? && probes == d.probes
        && (ok ==> device == d.found.value.device && address == Ds33Address(d.found.value.sa0))
        && (!ok ==> device == old(device) && address == old(address))
    {
      var dev, sa0 := requestedDevice, requestedSa0;
      probes := [];
      if dev == DeviceAuto || sa0 == Sa0Auto {
        ProbeOrder(requestedDevice, requestedSa0, bus);
        DetectOutcome(requestedDevice, requestedSa0, bus);
        if dev == DeviceAuto || dev == Ds33 {
          var highAnswers := false;
          if sa0 != Sa0Low {
            probes := probes + [Ds33Sa0HighAddress];
            highAnswers := TestReg(bus(Ds33Sa0HighAddress, WhoAmI)) == Ds33WhoId;
          }
          if highAnswers {
            sa0 := Sa0High;
            if dev == DeviceAuto { dev := Ds33; }
          } else if sa0 != Sa0High {
            probes := probes + [Ds33Sa0LowAddress];
            if TestReg(bus(Ds33Sa0LowAddress, WhoAmI)) == Ds33WhoId {
              sa0 := Sa0Low;
              if dev == DeviceAuto { dev := Ds33; }
            }
          }
        }
        if dev == DeviceAuto || sa0 == Sa0Auto {
          return false, probes;
        }
      }
      device := dev;
      if dev == Ds33 {
        address := if sa0 == Sa0High then Ds33Sa0HighAddress else Ds33Sa0LowAddress;
      }
      ok := true;
    }

    /** `enableDefault`: the register writes it puts on the bus; none unless a DS33 was detected. */
    method EnableDefault() returns (writes: seq<Frame>)
      ensures device == Ds33 ==> writes == DefaultWrites(address)
      ensures device != Ds33 ==> writes == []
    {
      writes := [];
      if device == Ds33 {
        writes := writes + [Frame(address, Ctrl1Xl, 0x80)];
        writes := writes + [Frame(address, Ctrl2G, 0x80)];
        writes := writes + [Frame(address, Ctrl3C, 0x04)];
      }
    }

    /**
     * `readAcc`: request six bytes from OUTX_L_XL on; on a timeout set the
     * latch and keep `a`, otherwise overwrite all three axes of `a`.
     */
    method ReadAcc(burst: Burst) returns (request: BurstRequest)
      requires Completes(burst, ioTimeout)
      modifies this`a, this`didTimeout
      ensures request == BurstRequest(address, OutxLXl, 6)
      ensures TimesOut(burst, ioTimeout) ==> didTimeout && a == old(a)
      ensures !TimesOut(burst, ioTimeout) ==> didTimeout == old(didTimeout) && a == DecodeSample(burst.data)
    {
      request := BurstRequest(address, OutxLXl, 6);
      var ready := WaitForData(burst.polls, Low16(burst.start), ioTimeout);
      if !ready {
        didTimeout := true;
        return;
      }
      a := DecodeSample(burst.data);
    }

    /** `readGyro`: as `ReadAcc`, from OUTX_L_G on, for `g`. */
    method ReadGyro(burst: Burst) returns (request: BurstRequest)
      requires Completes(burst, ioTimeout)
      modifies this`g, this`didTimeout
      ensures request == BurstRequest(address, OutxLG, 6)
      ensures TimesOut(burst, ioTimeout) ==> didTimeout && g == old(g)
      ensures !TimesOut(burst, ioTimeout) ==> didTimeout == old(didTimeout) && g == DecodeSample(burst.data)
    {
      request := BurstRequest(address, OutxLG, 6);
      var ready := WaitForData(burst.polls, Low16(burst.start), ioTimeout);
      if !ready {
        didTimeout := true;
        return;
      }
      g := DecodeSample(burst.data);
    }

    /** `read`: both reads, in order, the second attempted whatever the first did. */
    method Read(accBurst: Burst, gyroBurst: Burst) returns (requests: seq<BurstRequest>)
      requires Completes(accBurst, ioTimeout) && Completes(gyroBurst, ioTimeout)
      modifies this`a, this`g, this`didTimeout
      ensures requests == [BurstRequest(address, OutxLXl, 6), BurstRequest(address, OutxLG, 6)]
      ensures didTimeout == (old(didTimeout) || TimesOut(accBurst, ioTimeout) || TimesOut(gyroBurst, ioTimeout))
      ensures a == if TimesOut(accBurst, ioTimeout) then old(a) else DecodeSample(accBurst.data)
      ensures g == if TimesOut(gyroBurst, ioTimeout) then old(g) else DecodeSample(gyroBurst.data)
    {
      var accRequest := ReadAcc(accBurst);
      var gyroRequest := ReadGyro(gyroBurst);
      requests := [accRequest, gyroRequest];
    }
  }

  /** Two calls of `timeoutOccurred` with no read between them: the latch, then false. */
  method TimeoutLatchIsConsumedOnce(sensor: LSM6) returns (first: bool, second: bool)
    modifies sensor`didTimeout
    ensures first == old(sensor.didTimeout) && !second
  {
    first := sensor.TimeoutOccurred();
    second := sensor.TimeoutOccurred();
  }

  /** `getTimeout` after `setTimeout(t)` returns t. */
  method SetThenGetTimeout(sensor: LSM6, timeout: uint16) returns (got: uint16)
    modifies sensor`ioTimeout
    ensures got == timeout
  {
    sensor.SetTimeout(timeout);
    got := sensor.GetTimeout();
  }
}
