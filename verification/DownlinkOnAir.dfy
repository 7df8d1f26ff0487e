/**
 The forwarder's downlinks at the moments they are sent: a timed downlink is charged when it is
 accepted and goes out up to thirty seconds later (src/gateway/forwarder.rs,
 src/gateway/scheduler.rs, src/tasks/gateway.rs).
 */
module DownlinkOnAir {
  import opened Prelude
  import opened Scheduler
  import opened DownlinkPolicy
  import opened FiringDelay
  import DutyCycle
  import Airtime

  /** The longest time from acceptance to SetTx, in ms. */
  const LONGEST_DELAY_MS: nat := 30_000

  // ----- Accepted downlinks and when they are sent ---------------------------

  /** The requests of a run that were accepted, in order. */
  ghost function AcceptedOf(reqs: seq<Request>): seq<Request> {
    if reqs == [] then []
    else AcceptedOf(Init(reqs)) + if Accept(Run(Init(reqs)).0, Last(reqs)).1.Ok? then [Last(reqs)] else []
  }

  function Band(q: Request): nat {
    DutyCycle.EuBandKey(q.txpk.freqHz)
  }

  lemma {:induction false} AcceptedIsSent(reqs: seq<Request>)
    ensures |AcceptedOf(reqs)| == |Run(reqs).1|
    ensures forall i :: 0 <= i < |AcceptedOf(reqs)| ==>
              Run(reqs).1[i] == Sent(Band(AcceptedOf(reqs)[i]), DutyCycle.Charge(AcceptedOf(reqs)[i].nowMs, PacketAirtime(AcceptedOf(reqs)[i].txpk)))
    ensures forall q :: q in AcceptedOf(reqs) ==> Screen(q).Ok?
  {
    hide Accept, Screen, PacketAirtime, DutyCycle.EuBandKey;
    if reqs != [] {
      AcceptedIsSent(Init(reqs));
      assert reqs == Init(reqs) + [Last(reqs)];
      RunStep(Init(reqs), Last(reqs));
      ScreenedOutTouchesNoBudget(Run(Init(reqs)).0, Last(reqs));
    }
  }

  /** One band's part of some downlinks, each dated `delays` after its acceptance. */
  ghost function OnAir(accepted: seq<Request>, delays: seq<nat>, band: nat): seq<DutyCycle.Charge>
    requires |accepted| == |delays|
  {
    if accepted == [] then []
    else
      var q := Last(accepted);
      OnAir(Init(accepted), Init(delays), band)
      + if Band(q) == band then [DutyCycle.Charge(q.nowMs + Last(delays), PacketAirtime(q.txpk))] else []
  }

  ghost function DelaysOf(accepted: seq<Request>, delays: seq<nat>, band: nat): seq<nat>
    requires |accepted| == |delays|
  {
    if accepted == [] then []
    else DelaysOf(Init(accepted), Init(delays), band) + if Band(Last(accepted)) == band then [Last(delays)] else []
  }

  ghost predicate SentAre(sent: seq<Sent>, accepted: seq<Request>) {
    |sent| == |accepted| && forall i :: 0 <= i < |accepted| ==>
      sent[i] == Sent(Band(accepted[i]), DutyCycle.Charge(accepted[i].nowMs, PacketAirtime(accepted[i].txpk)))
  }

  lemma {:induction false} OnAirIsMoved(sent: seq<Sent>, accepted: seq<Request>, delays: seq<nat>, band: nat, most: nat)
    requires |accepted| == |delays| && SentAre(sent, accepted) && UpTo(delays, most)
    ensures |DelaysOf(accepted, delays, band)| == |BandLog(sent, band)| && UpTo(DelaysOf(accepted, delays, band), most)
    ensures OnAir(accepted, delays, band) == Moved(BandLog(sent, band), DelaysOf(accepted, delays, band))
  {
    hide PacketAirtime, DutyCycle.EuBandKey;
    if accepted != [] {
      assert Last(delays) in delays && forall d :: d in Init(delays) ==> d in delays;
      assert sent[|sent| - 1] == Last(sent);
      OnAirIsMoved(Init(sent), Init(accepted), Init(delays), band, most);
      if Band(Last(accepted)) == band {
        MovedAppend(BandLog(Init(sent), band), DelaysOf(Init(accepted), Init(delays), band), Last(sent).charge, Last(delays));
      } else {
        assert BandLog(sent, band) == BandLog(Init(sent), band) && DelaysOf(accepted, delays, band) == DelaysOf(Init(accepted), Init(delays), band);
      }
    }
  }

  lemma MovedAppend(log: seq<DutyCycle.Charge>, delays: seq<nat>, c: DutyCycle.Charge, delay: nat)
    requires |log| == |delays|
    ensures Moved(log + [c], delays + [delay]) == Moved(log, delays) + [DutyCycle.Charge(c.at + delay, c.airtime)]
  {
    assert Init(log + [c]) == log && Init(delays + [delay]) == delays;
  }

  /** With delays of at most `most`, a tracked band keeps every window that leaves room for them. */
  lemma TrackedBandIsSafeOnAir(reqs: seq<Request>, delays: seq<nat>, band: nat, most: nat, window: nat)
    requires Nondecreasing(reqs) && band in Run(reqs).0
    requires |delays| == |AcceptedOf(reqs)| && UpTo(delays, most) && window + most <= DutyCycle.GUARANTEED_MS
    ensures BandAllowanceMs(band).Some?
    ensures DutyCycle.WindowSafe(OnAir(AcceptedOf(reqs), delays, band), BandAllowanceMs(band).value, window)
  {
    hide Run, AcceptedOf, BandLog, OnAir, DelaysOf, Claims, UpTo, Moved, DutyCycle.Run, Nondecreasing, DutyCycle.Nondecreasing;
    AcceptedIsSent(reqs);
    OnAirIsMoved(Run(reqs).1, AcceptedOf(reqs), delays, band, most);
    TrackedBandLog(reqs, band);
    var claims := Claims(reqs, band);
    DutyCycle.RunIsReachable(DutyCycle.BUCKET_COUNT, BandAllowanceMs(band).value, claims);
    var (w, log) := DutyCycle.Run(FreshBand(band), claims);
    OnAirWindowIsSafe(w, log, if claims == [] then 0 else Last(claims).now, DelaysOf(AcceptedOf(reqs), delays, band), most, window);
  }

  lemma TrackedBandLog(reqs: seq<Request>, band: nat)
    requires Nondecreasing(reqs) && band in Run(reqs).0
    ensures BandAllowanceMs(band).Some? && DutyCycle.Nondecreasing(Claims(reqs, band))
    ensures BandLog(Run(reqs).1, band) == DutyCycle.Run(FreshBand(band), Claims(reqs, band)).1
  {
    hide Run, Claims, BandLog, Seen, DutyCycle.Run;
    TrackedBands(reqs);
    assert band in Run(reqs).0.Keys;
    SeenIffClaims(reqs, band);
    TrackedBandRunsAlone(reqs, band);
    ClaimsNondecreasing(reqs, band);
  }

  // ----- The delays there can be ---------------------------------------------

  /**
   With ideal timers and at most 19,550 us of setup: an immediate downlink goes out within the
   setup, a timed one 450 us before its target; both clocks are read in whole milliseconds.
   */
  ghost predicate MayFireAfter(q: Request, delay: nat) {
    match Classify(q.nowUs, q.txpk.immediate, q.txpk.tmst)
    case Immediate => delay <= SETUP_LEAD_US / 1000
    case At(deltaUs) => deltaUs >= TX_START_COMP_US && (deltaUs - TX_START_COMP_US) / 1000 <= delay <= (deltaUs - TX_START_COMP_US) / 1000 + 1
    case _ => false
  }

  /** Both readings of a request are of the same moment. */
  ghost predicate ReadAt(q: Request, trueUs: nat) {
    q.nowUs == Counter(trueUs) && q.nowMs == trueUs / 1000
  }

  ghost predicate OneClock(reqs: seq<Request>) {
    forall q :: q in reqs ==> exists trueUs: nat :: ReadAt(q, trueUs)
  }

  ghost predicate Fired(accepted: seq<Request>, delays: seq<nat>) {
    |delays| == |accepted| && forall i :: 0 <= i < |accepted| ==> MayFireAfter(accepted[i], delays[i])
  }

  /** The delay in whole milliseconds of what happens `us` microseconds after a moment. */
  lemma MillisecondsApart(moment: nat, us: nat)
    ensures us / 1000 <= (moment + us) / 1000 - moment / 1000 <= us / 1000 + 1
  {}

  /**
   The scheduler's own execution of an accepted job meets that: picked up when it is accepted
   at true time `start`, with setup within the lead.
   */
  method FireAccepted(q: Request, start: nat, setup: nat) returns (delay: nat)
    requires Screen(q).Ok? && q.nowUs == Counter(start) && setup <= SETUP_LEAD_US - TX_START_COMP_US
    ensures MayFireAfter(q, delay)
  {
    var job := Screen(q).value;
    var fired := ExecuteDownlink(start, job.targetTmst, setup);
    if job.targetTmst.Some? && !q.txpk.immediate {
      ghost var g := start + TmstDeltaUs(q.nowUs, job.targetTmst.value);
      TargetTime(start, job.targetTmst.value);
      assert fired == Some(g - TX_START_COMP_US);
      MillisecondsApart(start, fired.value - start);
    } else {
      assert fired == Some(start + setup);
      MillisecondsApart(start, setup);
    }
    delay := fired.value / 1000 - start / 1000;
  }

  /** The true time a target counter stands for, seen from `start`. */
  lemma TargetTime(start: nat, target: u32)
    ensures var g := start + TmstDeltaUs(Counter(start), target);
            target == Counter(g) && -HORIZON_US <= g - start < HORIZON_US
  {
    var k := (start - Counter(start)) / U32_SIZE;
    assert start == k * U32_SIZE + Counter(start);
  }

  lemma FiredIsUpTo(accepted: seq<Request>, delays: seq<nat>)
    requires Fired(accepted, delays)
    ensures UpTo(delays, LONGEST_DELAY_MS)
  {
    forall d | d in delays ensures d <= LONGEST_DELAY_MS {
      var i :| 0 <= i < |delays| && delays[i] == d;
      assert MayFireAfter(accepted[i], delays[i]);
    }
  }

  // ----- Exactly which windows are kept --------------------------------------

  ghost predicate BandAlwaysSafe(band: nat, window: nat)
    requires BandAllowanceMs(band).Some?
  {
    forall reqs: seq<Request>, delays: seq<nat> ::
      Nondecreasing(reqs) && OneClock(reqs) && band in Run(reqs).0 && Fired(AcceptedOf(reqs), delays) ==>
        DutyCycle.WindowSafe(OnAir(AcceptedOf(reqs), delays, band), BandAllowanceMs(band).value, window)
  }

  function BandFrequency(band: nat): (freqHz: u32)
    requires 2 <= band <= 6
    ensures InRange(freqHz) && DutyCycle.EuBandKey(freqHz) == band && DutyCycle.AllowanceMs(freqHz) == BandAllowanceMs(band)
  {
    if band == 2 then 868_000_000 else if band == 3 then 868_700_000 else if band == 4 then 869_400_000
    else if band == 5 then 869_700_000 else 863_000_000
  }

  /** An empty packet with a preamble that makes it longer than half its band's allowance. */
  function HalfAllowance(band: nat, trueUs: nat, tmst: Option<u32>): Request
    requires 2 <= band <= 6
  {
    var preamble: u16 := match band case 4 => 7_992 case 2 => 792 case 5 => 792 case _ => 72;
    Request(Counter(trueUs), trueUs / 1000, TxPacket(tmst.None?, tmst, BandFrequency(band), 14, 12, 125, 5, true, preamble, []))
  }

  lemma HalfAllowanceAirtime(band: nat, trueUs: nat, tmst: Option<u32>)
    requires 2 <= band <= 6
    ensures var a := PacketAirtime(HalfAllowance(band, trueUs, tmst).txpk); a <= BandAllowanceMs(band).value < 2 * a
  {
    Airtime.Pow2Table();
  }

  /** One request thirty seconds ahead of its target, and an immediate one as soon as the ring forgot it. */
  function TwoRequests(band: nat): seq<Request>
    requires 2 <= band <= 6
  {
    [HalfAllowance(band, 59_999_999, Some(89_999_999))] + [HalfAllowance(band, 3_600_000_000, None)]
  }

  /** A request that passes the screen and finds a limiter is decided by the lone limiter of its band. */
  lemma AcceptedIffLoneLimiterAccepts(reqs: seq<Request>, q: Request)
    requires Screen(q).Ok? && Band(q) in WithBand(Run(reqs).0, q.txpk.freqHz)
    ensures Accept(Run(reqs).0, q).1.Ok?
            <==> DutyCycle.TryClaim(DutyCycle.Run(FreshBand(Band(q)), Claims(reqs, Band(q))).0, q.nowMs, PacketAirtime(q.txpk)).1.Accepted?
  {
    hide Screen, PacketAirtime, DutyCycle.TryClaim, WithBand;
    BudgetFound(reqs, q);
    FreshIsValid(q.txpk.freqHz);
  }

  lemma ClaimsStep(reqs: seq<Request>, q: Request)
    requires Screen(q).Ok?
    ensures Claims(reqs + [q], Band(q)) == Claims(reqs, Band(q)) + [DutyCycle.Request(q.nowMs, PacketAirtime(q.txpk))]
  {
    assert Init(reqs + [q]) == reqs;
  }

  lemma AcceptedStep(reqs: seq<Request>, q: Request)
    ensures AcceptedOf(reqs + [q]) == AcceptedOf(reqs) + if Accept(Run(reqs).0, q).1.Ok? then [q] else []
  {
    hide Accept, Run;
    assert Init(reqs + [q]) == reqs;
  }

  lemma TwoPassTheScreen(band: nat)
    requires 2 <= band <= 6
    ensures var reqs := TwoRequests(band);
            && Screen(reqs[0]).Ok? && Screen(reqs[1]).Ok? && Band(reqs[0]) == band == Band(reqs[1])
            && Nondecreasing(reqs) && MayFireAfter(reqs[0], LONGEST_DELAY_MS) && MayFireAfter(reqs[1], 0)
            && OneClock(reqs)
  {
    assert ReadAt(TwoRequests(band)[0], 59_999_999) && ReadAt(TwoRequests(band)[1], 3_600_000_000);
  }

  lemma BothAreAccepted(band: nat)
    requires 2 <= band <= 6
    ensures AcceptedOf(TwoRequests(band)) == TwoRequests(band) && band in Run(TwoRequests(band)).0
  {
    hide Screen, PacketAirtime, DutyCycle.TryClaim, DutyCycle.Run, Run, Claims, Accept, HalfAllowance, AcceptedOf, Seen;
    var none: seq<Request> := [];
    var q1, q2 := TwoRequests(band)[0], TwoRequests(band)[1];
    TwoPassTheScreen(band);
    HalfAllowanceAirtime(band, 59_999_999, Some(89_999_999));
    HalfAllowanceAirtime(band, 3_600_000_000, None);
    var airtime := PacketAirtime(q1.txpk);
    SameAirtime(band);
    DutyCycle.HourCanHoldTwiceAfterIdle(BandFrequency(band), airtime);
    NothingYet(band);
    assert none + [q1] == [q1];
    ClaimsStep(none, q1);
    ClaimsStep([q1], q2);
    LoneLimiterOfTwo(band, airtime);
    TrackedAfter(none, q1);
    AcceptedIffLoneLimiterAccepts(none, q1);
    AcceptedStep(none, q1);
    TrackedAfter([q1], q2);
    AcceptedIffLoneLimiterAccepts([q1], q2);
    AcceptedStep([q1], q2);
  }

  lemma SameAirtime(band: nat)
    requires 2 <= band <= 6
    ensures PacketAirtime(TwoRequests(band)[0].txpk) == PacketAirtime(TwoRequests(band)[1].txpk)
    ensures TwoRequests(band)[0].nowMs == DutyCycle.BUCKET_MS - 1 && TwoRequests(band)[1].nowMs == DutyCycle.HOUR_MS
  {}

  lemma NothingYet(band: nat)
    ensures Run([]) == (map[], []) && AcceptedOf([]) == [] && Claims([], band) == []
  {}

  /** A band among at most four asked for finds a limiter. */
  lemma TrackedAfter(reqs: seq<Request>, q: Request)
    requires Screen(q).Ok? && |reqs| < MAX_BANDS
    ensures Band(q) in WithBand(Run(reqs).0, q.txpk.freqHz) && Band(q) in Run(reqs + [q]).0
  {
    hide Run, Screen, DutyCycle.EuBandKey, DutyCycle.TryClaim, PacketAirtime, DutyCycle.Fresh;
    SmallMap(reqs);
    RunStep(reqs, q);
    FreshIsValid(q.txpk.freqHz);
  }

  lemma {:induction false} SeenIsSmall(reqs: seq<Request>)
    ensures |Seen(reqs)| <= |reqs|
  {
    hide Screen, DutyCycle.EuBandKey;
    if reqs != [] {
      SeenIsSmall(Init(reqs));
    }
  }

  lemma SmallMap(reqs: seq<Request>)
    ensures |Run(reqs).0| <= |reqs|
  {
    hide Run, Seen;
    TrackedBands(reqs);
    SeenIsSmall(reqs);
    SubsetIsSmaller(Run(reqs).0.Keys, Seen(reqs));
    assert |Run(reqs).0.Keys| == |Run(reqs).0|;
  }

  lemma LoneLimiterOfTwo(band: nat, airtime: nat)
    requires 2 <= band <= 6 && airtime <= BandAllowanceMs(band).value
    ensures var r1, r2 := DutyCycle.Request(DutyCycle.BUCKET_MS - 1, airtime), DutyCycle.Request(DutyCycle.HOUR_MS, airtime);
            && DutyCycle.TryClaim(DutyCycle.Run(FreshBand(band), []).0, r1.now, airtime).1.Accepted?
            && DutyCycle.TryClaim(DutyCycle.Run(FreshBand(band), [] + [r1]).0, r2.now, airtime).1.Accepted?
            && DutyCycle.Run(FreshBand(band), [] + [r1] + [r2]).1
               == [DutyCycle.Charge(r1.now, airtime), DutyCycle.Charge(r2.now, airtime)]
  {
    hide DutyCycle.TryClaim, DutyCycle.HourSum;
    var none: seq<DutyCycle.Request> := [];
    var r1, r2 := DutyCycle.Request(DutyCycle.BUCKET_MS - 1, airtime), DutyCycle.Request(DutyCycle.HOUR_MS, airtime);
    DutyCycle.HourCanHoldTwiceAfterIdle(BandFrequency(band), airtime);
    assert none + [r1] == [r1];
    assert none + [r1] + [r2] == [r1] + [r2];
    DutyCycle.RunStep(FreshBand(band), none, r1);
  }

  lemma TwoOnAir(band: nat)
    requires 2 <= band <= 6
    ensures var reqs := TwoRequests(band);
            var a := PacketAirtime(reqs[0].txpk);
            OnAir(reqs, [LONGEST_DELAY_MS, 0], band)
            == Moved([DutyCycle.Charge(DutyCycle.BUCKET_MS - 1, a), DutyCycle.Charge(DutyCycle.HOUR_MS, a)], [LONGEST_DELAY_MS, 0])
  {
    hide PacketAirtime, Screen, HalfAllowance;
    var reqs, delays := TwoRequests(band), [LONGEST_DELAY_MS, 0];
    var a := PacketAirtime(reqs[0].txpk);
    TwoPassTheScreen(band);
    SameAirtime(band);
    assert Init(reqs) == [reqs[0]] && Init(delays) == [LONGEST_DELAY_MS] && Init([reqs[0]]) == [] && Init([LONGEST_DELAY_MS]) == [];
    assert OnAir([reqs[0]], [LONGEST_DELAY_MS], band) == [DutyCycle.Charge(DutyCycle.BUCKET_MS - 1 + LONGEST_DELAY_MS, a)];
    TwoMoved(DutyCycle.Charge(DutyCycle.BUCKET_MS - 1, a), DutyCycle.Charge(DutyCycle.HOUR_MS, a), LONGEST_DELAY_MS);
  }

  lemma LongerWindowIsNotSafe(band: nat, window: nat)
    requires 2 <= band <= 6 && window + LONGEST_DELAY_MS > DutyCycle.GUARANTEED_MS
    ensures !BandAlwaysSafe(band, window)
  {
    hide Run, AcceptedOf, OnAir, Moved, PacketAirtime, DutyCycle.WindowSafe, Screen, HalfAllowance, MayFireAfter, OneClock;
    var reqs, delays := TwoRequests(band), [LONGEST_DELAY_MS, 0];
    var a := PacketAirtime(reqs[0].txpk);
    TwoPassTheScreen(band);
    BothAreAccepted(band);
    TwoOnAir(band);
    HalfAllowanceAirtime(band, 59_999_999, Some(89_999_999));
    TwoTooClose(a, BandAllowanceMs(band).value, LONGEST_DELAY_MS, window);
    assert Fired(AcceptedOf(reqs), delays);
  }

  /**
   Exactly which windows a tracked band keeps on the air: over all runs, with every downlink
   sent at its own time, each closed `window` ms hold at most the band's allowance if and only
   if the window leaves the thirty seconds a downlink may wait, so for 3,510,000 ms at most.
   */
  lemma BandSafeOnAirIff(band: nat, window: nat)
    requires 2 <= band <= 6
    ensures BandAlwaysSafe(band, window) <==> window + LONGEST_DELAY_MS <= DutyCycle.GUARANTEED_MS
  {
    hide Run, AcceptedOf, OnAir, MayFireAfter, DutyCycle.WindowSafe, Nondecreasing, OneClock;
    if window + LONGEST_DELAY_MS <= DutyCycle.GUARANTEED_MS {
      forall reqs: seq<Request>, delays: seq<nat>
        | Nondecreasing(reqs) && OneClock(reqs) && band in Run(reqs).0 && Fired(AcceptedOf(reqs), delays)
        ensures DutyCycle.WindowSafe(OnAir(AcceptedOf(reqs), delays, band), BandAllowanceMs(band).value, window)
      {
        FiredIsUpTo(AcceptedOf(reqs), delays);
        TrackedBandIsSafeOnAir(reqs, delays, band, LONGEST_DELAY_MS, window);
      }
    } else {
      LongerWindowIsNotSafe(band, window);
    }
  }
}
