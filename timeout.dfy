/**
 * The busy-wait of a burst read: poll `available()` until six bytes are
 * there, giving up when a nonzero timeout has elapsed on the 16-bit view of
 * the millisecond clock.
 */
module Timeout {
  import opened LsmTypes

  /**
   * One turn of the wait loop: the count `available()` returned and the
   * value `millis()` returned right after it (read only when the count is
   * short and the timeout is nonzero).
   */
  datatype Poll = Poll(available: int, now: nat)

  /** How a wait ends. */
  datatype WaitOutcome = DataReady | TimedOut

  /** `(uint16_t)millis()`; `millis()` is 32 bits wide, so its own wrap-around is invisible here. */
  function Low16(now: nat): (t: uint16)
    ensures (now - t) % 0x1_0000 == 0
  {
    now % 0x1_0000
  }

  /**
   * `(uint16_t)millis() - millis_start`: both operands are promoted to `int`
   * before the subtraction, so the difference is negative once the low 16
   * bits of the clock have wrapped past the start, and it never exceeds
   * `0xFFFF - start16`.
   */
  function Elapsed(now: nat, start16: uint16): (d: int)
    ensures -(start16 as int) <= d <= 0xFFFF - start16
    ensures (d - (now - start16)) % 0x1_0000 == 0
  {
    Low16(now) - start16
  }

  /**
   * Does this turn end the loop? The deadline only fires on a turn whose
   * low 16 clock bits lie above `start16 + timeout`.
   */
  predicate Stops(p: Poll, start16: uint16, timeout: uint16)
    ensures Stops(p, start16, timeout) <==>
      p.available >= 6 || (timeout > 0 && Low16(p.now) > start16 + timeout)
  {
    p.available >= 6 || (timeout > 0 && Elapsed(p.now, start16) > timeout)
  }

  /**
   * The outcome of the loop over a sequence of turns; None when the loop has
   * not ended by the last one. A timeout needs a nonzero timeout and a
   * deadline that falls inside the 16-bit clock period.
   */
  function Wait(polls: seq<Poll>, start16: uint16, timeout: uint16): (r: Option<WaitOutcome>)
    ensures r != None ==> polls != []
    ensures r == Some(TimedOut) ==> 0 < timeout && start16 + timeout < 0xFFFF
  {
    if polls == [] then None
    else if polls[0].available >= 6 then Some(DataReady)
    else if timeout > 0 && Elapsed(polls[0].now, start16) > timeout then Some(TimedOut)
    else Wait(polls[1..], start16, timeout)
  }

  /** The k-th turn is the first that ends the loop. */
  predicate FirstStopAt(polls: seq<Poll>, start16: uint16, timeout: uint16, k: nat)
  {
    k < |polls| && Stops(polls[k], start16, timeout)
    && forall j :: 0 <= j < k ==> !Stops(polls[j], start16, timeout)
  }

  /** The loop ends at the first turn that sees six bytes or the deadline; data wins when both hold on that turn. */
  lemma {:induction false} WaitEndsAtFirstStop(polls: seq<Poll>, start16: uint16, timeout: uint16, k: nat)
    requires FirstStopAt(polls, start16, timeout, k)
    ensures Wait(polls, start16, timeout) == Some(if polls[k].available >= 6 then DataReady else TimedOut)
  {
    if k > 0 {
      assert !Stops(polls[0], start16, timeout);
      var tail := polls[1..];
      assert FirstStopAt(tail, start16, timeout, k - 1) by {
        forall j | 0 <= j < k - 1
          ensures !Stops(tail[j], start16, timeout)
        {
          assert tail[j] == polls[j + 1];
        }
      }
      WaitEndsAtFirstStop(tail, start16, timeout, k - 1);
    }
  }

  /** The loop has not ended exactly when no turn stops it. */
  lemma {:induction false} WaitPendingIff(polls: seq<Poll>, start16: uint16, timeout: uint16)
    ensures Wait(polls, start16, timeout) == None <==> forall j :: 0 <= j < |polls| ==> !Stops(polls[j], start16, timeout)
  {
    if polls != [] {
      var tail := polls[1..];
      WaitPendingIff(tail, start16, timeout);
      assert forall j :: 0 <= j < |tail| ==> tail[j] == polls[j + 1];
      if !Stops(polls[0], start16, timeout) {
        forall j | 0 <= j < |polls| && j > 0
          ensures polls[j] == tail[j - 1]
        {
        }
      }
    }
  }

  /** With the timeout at 0 the wait never times out: it only ends when the data is there. */
  lemma {:induction false} ZeroTimeoutNeverFires(polls: seq<Poll>, start16: uint16)
    ensures Wait(polls, start16, 0) != Some(TimedOut)
    ensures Wait(polls, start16, 0) == Some(DataReady) <==> exists j :: 0 <= j < |polls| && polls[j].available >= 6
  {
    if polls != [] {
      var tail := polls[1..];
      ZeroTimeoutNeverFires(tail, start16);
      if polls[0].available < 6 {
        assert forall j :: 0 < j < |polls| ==> polls[j] == tail[j - 1];
        assert forall j :: 0 <= j < |tail| ==> tail[j] == polls[j + 1];
      }
    }
  }

  /** A timed-out wait saw fewer than six bytes on every turn, and on its last turn a nonzero timeout exceeded. */
  lemma {:induction false} TimedOutMeansNoData(polls: seq<Poll>, start16: uint16, timeout: uint16)
    requires Wait(polls, start16, timeout) == Some(TimedOut)
    ensures timeout > 0
    ensures exists k ::
              0 <= k < |polls| && Elapsed(polls[k].now, start16) > timeout &&
              (forall j :: 0 <= j <= k ==> polls[j].available < 6)
  {
    if polls[0].available >= 6 {
      assert false;
    } else if timeout > 0 && Elapsed(polls[0].now, start16) > timeout {
      assert forall j :: 0 <= j <= 0 ==> polls[j].available < 6;
    } else {
      var tail := polls[1..];
      TimedOutMeansNoData(tail, start16, timeout);
      var k :| 0 <= k < |tail| && Elapsed(tail[k].now, start16) > timeout
        && forall j :: 0 <= j <= k ==> tail[j].available < 6;
      assert polls[k + 1] == tail[k];
      assert forall j :: 0 < j <= k + 1 ==> polls[j] == tail[j - 1];
    }
  }

  /**
   * The elapsed time is not wrap-tolerant: while the low 16 bits of the clock
   * have not wrapped since the start it is the true difference, and after one
   * wrap it is the true difference minus 65536, which is negative.
   */
  lemma ElapsedAcrossWrap(start: nat, now: nat)
    requires start <= now < start + 0x1_0000
    ensures now / 0x1_0000 == start / 0x1_0000 ==> Elapsed(now, Low16(start)) == now - start
    ensures now / 0x1_0000 != start / 0x1_0000 ==> Elapsed(now, Low16(start)) == now - start - 0x1_0000 < 0
  {
    var q := start / 0x1_0000;
    assert start == q * 0x1_0000 + Low16(start);
    if now / 0x1_0000 == q {
      assert now == q * 0x1_0000 + Low16(now);
    } else {
      assert now / 0x1_0000 == q + 1;
      assert now == (q + 1) * 0x1_0000 + Low16(now);
    }
  }

  /** When the deadline lies beyond the 16-bit period, the deadline test is false at every clock value. */
  lemma NeverFires(now: nat, start16: uint16, timeout: uint16)
    requires start16 + timeout >= 0xFFFF
    ensures !(Elapsed(now, start16) > timeout)
  {
  }

  /**
   * A wait whose start plus timeout reaches 0xFFFF never times out: it ends
   * only with data, and while no data arrives it does not end at all.
   */
  lemma {:induction false} LateStartNeverTimesOut(polls: seq<Poll>, start16: uint16, timeout: uint16)
    requires start16 + timeout >= 0xFFFF
    ensures Wait(polls, start16, timeout) != Some(TimedOut)
    ensures (forall j :: 0 <= j < |polls| ==> polls[j].available < 6) ==> Wait(polls, start16, timeout) == None
  {
    WaitPendingIff(polls, start16, timeout);
    forall j | 0 <= j < |polls|
      ensures !(timeout > 0 && Elapsed(polls[j].now, start16) > timeout)
    {
      NeverFires(polls[j].now, start16, timeout);
    }
  }

  /**
   * A wait started at millisecond 65530 with a 10 ms timeout never times
   * out: 11 ms later the elapsed time reads -65525, and no clock value makes
   * it exceed 10.
   */
  lemma LateTimeoutExample()
    ensures Elapsed(65541, Low16(65530)) == -65525
    ensures forall now: nat :: !Stops(Poll(0, now), Low16(65530), 10)
  {
  }

  /**
   * The wait loop of `readAcc` and `readGyro`: polls until six bytes are
   * available or the timeout fires. The observations must be ones on which
   * the loop ends.
   */
  method WaitForData(polls: seq<Poll>, start16: uint16, timeout: uint16) returns (ready: bool)
    requires Wait(polls, start16, timeout) != None
    ensures Wait(polls, start16, timeout) == Some(if ready then DataReady else TimedOut)
  {
    var i := 0;
    while polls[i].available < 6
      invariant 0 <= i < |polls|
      invariant Wait(polls[i..], start16, timeout) == Wait(polls, start16, timeout)
      decreases |polls| - i
    {
      if timeout > 0 && Elapsed(polls[i].now, start16) > timeout {
        return false;
      }
      assert polls[i..][1..] == polls[i + 1..];
      i := i + 1;
    }
    return true;
  }
}
