/**
 * Identity probing: `testReg` and the detection decision that `init` makes
 * from the requested device type, the requested SA0 level and the answers of
 * up to two identity probes.
 */
module Probe {
  import opened LsmTypes

  /**
   * What the bus does during one `testReg`: the status returned by
   * `endTransmission` after the register selector is written, the count
   * returned by `available` after one byte is requested, and the byte `read`
   * returns then.
   */
  datatype BusReply = BusReply(status: int, available: int, data: uint8)

  /** The bus, seen as an oracle: the reply at a 7-bit address when one register is selected. */
  type Bus = (uint8, Reg) -> BusReply

  /** `testReg`: the register's byte, or the sentinel when the write is not acknowledged or no byte arrives. */
  function TestReg(reply: BusReply): (r: int)
    ensures r == TestRegError <==> reply.status != 0 || reply.available == 0
    ensures r != TestRegError ==> r == reply.data
  {
    if reply.status != 0 then TestRegError
    else if reply.available != 0 then reply.data
    else TestRegError
  }

  /** The sentinel is outside the byte range, so a failed probe never reads as a byte, in particular never as the DS33 identity. */
  lemma SentinelIsNotAByte(reply: BusReply)
    ensures TestReg(reply) == TestRegError || 0 <= TestReg(reply) < 0x100
    ensures TestReg(reply) == Ds33WhoId ==> reply.status == 0 && reply.available != 0 && reply.data == Ds33WhoId
  {
  }

  /** The DS33's address for an SA0 level: the pin drives bit 0 of the address. */
  function Ds33Address(sa0: Sa0State): (addr: uint8)
    ensures addr < 0x80
    ensures addr % 2 == (if sa0 == Sa0High then 1 else 0)
    ensures addr / 2 == 0x35
  {
    if sa0 == Sa0High then Ds33Sa0HighAddress else Ds33Sa0LowAddress
  }

  /** A DS33 answers at `addr`: WHO_AM_I reads back the DS33 identity. */
  predicate Answers(bus: Bus, addr: uint8)
    ensures Answers(bus, addr) <==>
      bus(addr, WhoAmI).status == 0 && bus(addr, WhoAmI).available != 0 && bus(addr, WhoAmI).data == Ds33WhoId
  {
    TestReg(bus(addr, WhoAmI)) == Ds33WhoId
  }

  /** The SA0 levels to try, in order: high unless low was requested, then low unless high was requested. */
  function Candidates(sa0: Sa0State): (c: seq<Sa0State>)
    ensures |c| <= 2
    ensures Sa0High in c <==> sa0 != Sa0Low
    ensures Sa0Low in c <==> sa0 != Sa0High
    ensures Sa0Auto !in c
  {
    (if sa0 != Sa0Low then [Sa0High] else []) + (if sa0 != Sa0High then [Sa0Low] else [])
  }

  /** The addresses probed by a search, and the SA0 level of the first address that answered. */
  datatype Search = Search(probes: seq<uint8>, found: Option<Sa0State>)

  /**
   * Probe the candidates in order and stop at the first that answers: the
   * last address probed is the one that answered, and a search that finds
   * nothing has probed every candidate.
   */
  function FirstMatch(candidates: seq<Sa0State>, bus: Bus): (s: Search)
    ensures |s.probes| <= |candidates|
    ensures forall i :: 0 <= i < |s.probes| ==> s.probes[i] == Ds33Sa0HighAddress || s.probes[i] == Ds33Sa0LowAddress
    ensures s.found.Some? ==>
      s.found.value in candidates && Answers(bus, Ds33Address(s.found.value))
      && s.probes != [] && s.probes[|s.probes| - 1] == Ds33Address(s.found.value)
    ensures s.found.None? ==> |s.probes| == |candidates|
  {
    if candidates == [] then Search([], None)
    else
      var addr := Ds33Address(candidates[0]);
      if Answers(bus, addr) then Search([addr], Some(candidates[0]))
      else
        var rest := FirstMatch(candidates[1..], bus);
        Search([addr] + rest.probes, rest.found)
  }

  /** The addresses of the first `n` candidates. */
  function AddressesOf(candidates: seq<Sa0State>, n: nat): (addrs: seq<uint8>)
    requires n <= |candidates|
    ensures |addrs| == n
    ensures forall i :: 0 <= i < n ==> addrs[i] == Ds33Address(candidates[i])
  {
    if n == 0 then [] else AddressesOf(candidates, n - 1) + [Ds33Address(candidates[n - 1])]
  }

  /** Probing the head first, then the tail, lists the head's address first. */
  lemma {:induction false} AddressesOfTail(candidates: seq<Sa0State>, n: nat)
    requires 0 < |candidates| && n < |candidates|
    ensures [Ds33Address(candidates[0])] + AddressesOf(candidates[1..], n) == AddressesOf(candidates, n + 1)
  {
    if n > 0 {
      AddressesOfTail(candidates, n - 1);
    }
  }

  /** The k-th candidate is the first that answers. */
  predicate FirstAnswerAt(candidates: seq<Sa0State>, bus: Bus, k: nat)
  {
    k < |candidates| && Answers(bus, Ds33Address(candidates[k]))
    && forall j :: 0 <= j < k ==> !Answers(bus, Ds33Address(candidates[j]))
  }

  /** The search is an ordered first match: it probes exactly the candidates up to the first that answers, and reports that one. */
  lemma {:induction false} FirstMatchStopsAtFirstAnswer(candidates: seq<Sa0State>, bus: Bus, k: nat)
    requires FirstAnswerAt(candidates, bus, k)
    ensures FirstMatch(candidates, bus) == Search(AddressesOf(candidates, k + 1), Some(candidates[k]))
  {
    if k == 0 {
      assert AddressesOf(candidates, 1) == [Ds33Address(candidates[0])];
    } else {
      var tail := candidates[1..];
      assert !Answers(bus, Ds33Address(candidates[0]));
      assert FirstAnswerAt(tail, bus, k - 1) by {
        forall j | 0 <= j < k - 1
          ensures !Answers(bus, Ds33Address(tail[j]))
        {
          assert tail[j] == candidates[j + 1];
        }
      }
      FirstMatchStopsAtFirstAnswer(tail, bus, k - 1);
      AddressesOfTail(candidates, k);
    }
  }

  /** When no candidate answers, the search probes every candidate in order and finds nothing. */
  lemma {:induction false} FirstMatchExhausts(candidates: seq<Sa0State>, bus: Bus)
    requires forall j :: 0 <= j < |candidates| ==> !Answers(bus, Ds33Address(candidates[j]))
    ensures FirstMatch(candidates, bus) == Search(AddressesOf(candidates, |candidates|), None)
  {
    if candidates != [] {
      var tail := candidates[1..];
      assert !Answers(bus, Ds33Address(candidates[0]));
      assert forall j :: 0 <= j < |tail| ==> tail[j] == candidates[j + 1];
      FirstMatchExhausts(tail, bus);
      AddressesOfTail(candidates, |tail|);
    }
  }

  /** The identity `init` settles on. */
  datatype Identity = Identity(device: DeviceType, sa0: Sa0State)

  /** The probes `init` performs, in order, and the identity it settles on (None: `init` returns false). */
  datatype Detection = Detection(probes: seq<uint8>, found: Option<Identity>)

  /**
   * Detection as a specification: with both inputs explicit nothing is probed;
   * otherwise the SA0 candidates are searched in order, and the first answer
   * fixes the SA0 level and the device type (the DS33 is the only variant).
   */
  function Detect(device: DeviceType, sa0: Sa0State, bus: Bus): (d: Detection)
    ensures |d.probes| <= 2
    ensures forall i :: 0 <= i < |d.probes| ==> d.probes[i] == Ds33Sa0HighAddress || d.probes[i] == Ds33Sa0LowAddress
    ensures device != DeviceAuto && sa0 != Sa0Auto ==> d.probes == []
    ensures d.found.Some? ==> d.found.value.device == Ds33 && d.found.value.sa0 != Sa0Auto
    ensures sa0 != Sa0Auto && d.found.Some? ==> d.found.value.sa0 == sa0
  {
    if device != DeviceAuto && sa0 != Sa0Auto then
      assert device == Ds33;
      Detection([], Some(Identity(device, sa0)))
    else
      var s := FirstMatch(Candidates(sa0), bus);
      match s.found
      case Some(pin) => Detection(s.probes, Some(Identity(Ds33, pin)))
      case None => Detection(s.probes, None)
  }

  /** With both inputs explicit, `init` probes nothing and succeeds with exactly what was asked. */
  lemma ExplicitRequestSkipsProbing(device: DeviceType, sa0: Sa0State, bus: Bus)
    requires device != DeviceAuto && sa0 != Sa0Auto
    ensures Detect(device, sa0, bus).probes == []
    ensures Detect(device, sa0, bus).found == Some(Identity(device, sa0))
    ensures Ds33Address(sa0) == if sa0 == Sa0High then 0x6B else 0x6A
  {
  }

  /**
   * The probing order: the high address first unless SA0 was requested low;
   * the low address only when SA0 was not requested high and the high address
   * was either skipped or did not answer.
   */
  lemma ProbeOrder(device: DeviceType, sa0: Sa0State, bus: Bus)
    requires device == DeviceAuto || sa0 == Sa0Auto
    ensures Detect(device, sa0, bus).probes ==
      (if sa0 != Sa0Low then [Ds33Sa0HighAddress] else [])
      + (if sa0 != Sa0High && !(sa0 != Sa0Low && Answers(bus, Ds33Sa0HighAddress)) then [Ds33Sa0LowAddress] else [])
  {
    var c := Candidates(sa0);
    if sa0 == Sa0Auto {
      assert c[1..] == [Sa0Low];
    }
  }

  /**
   * `init` fails exactly when probing was needed and no probed address
   * answered; on success the SA0 level is the first answering candidate and
   * the device is the DS33 whenever it was left to detection.
   */
  lemma DetectOutcome(device: DeviceType, sa0: Sa0State, bus: Bus)
    ensures var d := Detect(device, sa0, bus);
      var highHit := sa0 != Sa0Low && Answers(bus, Ds33Sa0HighAddress);
      var lowHit := sa0 != Sa0High && Answers(bus, Ds33Sa0LowAddress);
      (d.found == None <==> (device == DeviceAuto || sa0 == Sa0Auto) && !highHit && !lowHit)
      && (d.found.Some? ==> d.found.value.device != DeviceAuto && d.found.value.sa0 != Sa0Auto)
      && (d.found.Some? && (device == DeviceAuto || sa0 == Sa0Auto) ==>
            d.found.value == Identity(Ds33, if highHit then Sa0High else Sa0Low))
  {
    var c := Candidates(sa0);
    if sa0 == Sa0Auto {
      assert c[1..] == [Sa0Low];
    }
  }

  /** When the chip answers at both addresses and SA0 is left to detection, the high address wins and the low one is never probed. */
  lemma HighAddressWins(device: DeviceType, bus: Bus)
    requires Answers(bus, Ds33Sa0HighAddress) && Answers(bus, Ds33Sa0LowAddress)
    ensures Detect(device, Sa0Auto, bus).probes == [Ds33Sa0HighAddress]
    ensures Detect(device, Sa0Auto, bus).found == Some(Identity(Ds33, Sa0High))
  {
  }
}
