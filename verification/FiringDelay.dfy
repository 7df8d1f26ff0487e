/**
 Charges are dated at acceptance, but a downlink accepted ahead of its time is on the air later.
 What the limiter still guarantees of the moments at which packets are sent.
 */
module FiringDelay {
  import opened Prelude
  import opened DutyCycle

  /** The log with each charge moved to when its packet goes out. */
  ghost function Moved(log: seq<Charge>, delays: seq<nat>): (r: seq<Charge>)
    requires |log| == |delays|
    ensures |r| == |log|
  {
    if log == [] then []
    else Moved(Init(log), Init(delays)) + [Charge(Last(log).at + Last(delays), Last(log).airtime)]
  }

  ghost predicate UpTo(delays: seq<nat>, most: nat) {
    forall d :: d in delays ==> d <= most
  }

  /** What goes out within a window was accepted within it or up to the longest delay before. */
  lemma {:induction false} MovedWithin(log: seq<Charge>, delays: seq<nat>, most: nat, lo: int, hi: int)
    requires |log| == |delays| && UpTo(delays, most)
    ensures SumIn(Moved(log, delays), lo, hi) <= SumIn(log, lo - most, hi)
  {
    if log != [] {
      assert forall d :: d in Init(delays) ==> d in delays;
      MovedWithin(Init(log), Init(delays), most, lo, hi);
      assert Last(delays) in delays;
      SumInAppend(Moved(Init(log), Init(delays)), Charge(Last(log).at + Last(delays), Last(log).airtime), lo, hi);
    }
  }

  /** Every closed window shorter than the guaranteed one by the longest delay is safe on the air. */
  lemma OnAirWindowIsSafe(w: Window, log: seq<Charge>, last: nat, delays: seq<nat>, most: nat, window: nat)
    requires Reachable(w, log, last) && |delays| == |log| && UpTo(delays, most) && window + most <= w.Guaranteed()
    ensures WindowSafe(Moved(log, delays), w.allowance.value, window)
  {
    hide Moved, UpTo, Refines;
    forall lo: int ensures SumFrom(Moved(log, delays), lo, window) <= w.allowance.value {
      MovedWithin(log, delays, most, lo, lo + window + 1);
      assert SumFrom(log, lo - most, w.Guaranteed()) <= w.allowance.value;
      SumInWiden(log, lo - most, lo + window + 1, lo - most, lo - most + w.Guaranteed() + 1);
    }
  }

  /** In every run, whatever the delays up to `most`, every closed `window` ms on the air are within the allowance. */
  ghost predicate AlwaysSafe(freqHz: nat, most: nat, window: nat)
    requires AllowanceMs(freqHz).Some?
  {
    forall reqs: seq<Request>, delays: seq<nat> ::
      Nondecreasing(reqs) && |delays| == |Run(Fresh(freqHz), reqs).1| && UpTo(delays, most) ==>
        WindowSafe(Moved(Run(Fresh(freqHz), reqs).1, delays), AllowanceMs(freqHz).value, window)
  }

  lemma TwoMoved(c: Charge, d: Charge, delay: nat)
    ensures Moved([c, d], [delay, 0]) == [Charge(c.at + delay, c.airtime)] + [d]
  {
    assert Init([c, d]) == [c] && Init([delay, 0]) == [delay] && Init([c]) == [] && Init([delay]) == [];
    assert Moved([c], [delay]) == [Charge(c.at + delay, c.airtime)];
  }

  /** Two packets of more than half the allowance, accepted just too far apart for the ring, are sent too close together. */
  lemma TwoTooClose(airtime: nat, allowance: nat, delay: nat, window: nat)
    requires 2 * airtime > allowance && delay <= GUARANTEED_MS + 1 <= window + delay
    ensures !WindowSafe(Moved([Charge(BUCKET_MS - 1, airtime), Charge(HOUR_MS, airtime)], [delay, 0]), allowance, window)
  {
    hide Moved, SumIn;
    var c, d := Charge(BUCKET_MS - 1, airtime), Charge(HOUR_MS, airtime);
    TwoMoved(c, d, delay);
    TwoChargesSum(Charge(c.at + delay, airtime), d, c.at + delay, c.at + delay + window + 1);
    assert SumFrom(Moved([c, d], [delay, 0]), c.at + delay, window) == 2 * airtime;
  }

  lemma TwoAllowancesInAWindow(freqHz: nat, most: nat, window: nat)
    requires AllowanceMs(freqHz).Some? && window + most > GUARANTEED_MS
    ensures !AlwaysSafe(freqHz, most, window)
  {
    hide Run, Moved, WindowSafe, AcceptedAtPhase, HourSum;
    var allowance := AllowanceMs(freqHz).value;
    var reqs := [Request(BUCKET_MS - 1, allowance)] + [Request(HOUR_MS, allowance)];
    HourCanHoldTwiceAfterIdle(freqHz, allowance);
    var delay := if window <= GUARANTEED_MS then GUARANTEED_MS + 1 - window else 0;
    TwoTooClose(allowance, allowance, delay, window);
    var delays := [delay, 0];
    assert UpTo(delays, most) && Nondecreasing(reqs);
    assert |delays| == |Run(Fresh(freqHz), reqs).1|;
  }

  /**
   Exactly which windows are safe on the air: for every sub-band, in all runs and with all
   delays up to `most` every closed `window` ms hold at most the allowance, if and only if the
   window and the longest delay together fit the 59 minutes.
   */
  lemma SafeOnAirIff(freqHz: nat, most: nat, window: nat)
    requires AllowanceMs(freqHz).Some?
    ensures AlwaysSafe(freqHz, most, window) <==> window + most <= GUARANTEED_MS
  {
    if window + most <= GUARANTEED_MS {
      forall reqs: seq<Request>, delays: seq<nat>
        | Nondecreasing(reqs) && |delays| == |Run(Fresh(freqHz), reqs).1| && UpTo(delays, most)
        ensures WindowSafe(Moved(Run(Fresh(freqHz), reqs).1, delays), AllowanceMs(freqHz).value, window)
      {
        RunIsReachable(BUCKET_COUNT, AllowanceMs(freqHz).value, reqs);
        var (w, log) := Run(Fresh(freqHz), reqs);
        OnAirWindowIsSafe(w, log, if reqs == [] then 0 else Last(reqs).now, delays, most, window);
      }
    } else {
      TwoAllowancesInAWindow(freqHz, most, window);
    }
  }
}
