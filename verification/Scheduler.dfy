/**
 Downlink timing over the wrapping 32-bit microsecond counter (src/gateway/scheduler.rs) and
 the two-stage wait of the gateway radio task (src/tasks/gateway.rs, `execute_downlink`).
 */
module Scheduler {
  import opened Prelude

  const SETUP_LEAD_US: nat := 20_000
  const TX_START_COMP_US: nat := 450
  const MAX_AHEAD_US: nat := 30_000_000
  /** Half of the counter's range: how far apart two instants can be told from their counters. */
  const HORIZON_US: int := 0x8000_0000

  datatype Classification = Immediate | At(deltaUs: nat) | TooLate | TooEarly

  /** The counter's reading at a true time. */
  function Counter(trueUs: int): u32 {
    trueUs % U32_SIZE
  }

  /** `target.wrapping_sub(now) as i32`. */
  function TmstDeltaUs(now: u32, target: u32): int {
    var difference := (target - now) % U32_SIZE;
    if difference < HORIZON_US then difference else difference - U32_SIZE
  }

  function Classify(now: u32, immediate: bool, target: Option<u32>): Classification {
    if immediate then Immediate
    else match target
      case None => TooLate
      case Some(t) =>
        var delta := TmstDeltaUs(now, t);
        if delta < SETUP_LEAD_US then TooLate
        else if delta > MAX_AHEAD_US then TooEarly
        else At(delta)
  }

  /** The difference of two counters is the true difference exactly within the horizon. */
  lemma DeltaIsTrueWithinHorizon(now: int, target: int)
    ensures TmstDeltaUs(Counter(now), Counter(target)) == target - now <==> -HORIZON_US <= target - now < HORIZON_US
  {
    var k := (Counter(target) - Counter(now) - (target - now)) / U32_SIZE;
    assert Counter(target) - Counter(now) == target - now + k * U32_SIZE;
    assert (Counter(target) - Counter(now)) % U32_SIZE == (target - now) % U32_SIZE;
  }

  /** The decision on counters is the decision on true times, across any number of wraps. */
  lemma ClassifyAgreesWithTrueTime(now: int, target: int)
    requires -HORIZON_US <= target - now < HORIZON_US
    ensures Classify(Counter(now), false, Some(Counter(target)))
            == if target - now < SETUP_LEAD_US then TooLate
               else if target - now > MAX_AHEAD_US then TooEarly
               else At(target - now)
  {
    DeltaIsTrueWithinHorizon(now, target);
  }

  /** An ideal timer: wakes at the deadline, or at once when it has passed. */
  function TimerAt(now: nat, deadline: nat): nat {
    if now < deadline then deadline else now
  }

  /**
   Executes one downlink job that the radio task picks up at true time `start`; staging it
   takes `setup` microseconds. Returns the true time at which SetTx is sent, if it is.
   */
  method ExecuteDownlink(start: nat, target: Option<u32>, setup: nat) returns (fired: Option<nat>)
    ensures target.None? ==> fired == Some(start + setup)
    ensures forall g: int :: target == Some(Counter(g)) && -HORIZON_US <= g - start < HORIZON_US ==>
              (fired.None? <==> g - start < SETUP_LEAD_US)
    ensures forall g: int :: target == Some(Counter(g)) && SETUP_LEAD_US <= g - start < HORIZON_US && setup <= HORIZON_US ==>
              fired == Some(if setup <= SETUP_LEAD_US - TX_START_COMP_US then g - TX_START_COMP_US else g - SETUP_LEAD_US + setup)
  {
    var now := start;
    if target.Some? {
      var delta := TmstDeltaUs(Counter(now), target.value);
      forall g: int { DeltaIsTrueWithinHorizon(start, g); }
      if delta < SETUP_LEAD_US {
        return None;
      }
      now := TimerAt(now, now + (delta - SETUP_LEAD_US));
    }
    now := now + setup;
    if target.Some? {
      var remaining := TmstDeltaUs(Counter(now), target.value);
      forall g: int { DeltaIsTrueWithinHorizon(now, g); }
      if remaining > TX_START_COMP_US {
        now := TimerAt(now, now + (remaining - TX_START_COMP_US));
      }
    }
    return Some(now);
  }
}
