/**
 The packet forwarder's downlink policy (src/gateway/forwarder.rs): one duty-cycle budget per
 EU sub-band, at most four of them. The policy as functions on the map of budgets, and what
 holds of every run of requests.
 */
module DownlinkPolicy {
  import opened Prelude
  import opened LoraTypes
  import opened Scheduler
  import DutyCycle
  import Airtime

  const MAX_TX_POWER_DBM: i8 := 22
  const MAX_BANDS: nat := 4

  datatype TxAckError = NoError | TooLate | TooEarly | CollisionPacket | TxFreq | DutyCycleOverflow

  /** A parsed and normalised downlink request. */
  datatype TxPacket = TxPacket(
    immediate: bool,
    tmst: Option<u32>,
    freqHz: u32,
    powerDbm: i8,
    spreadingFactor: u8,
    bandwidthKhz: u32,
    codingRate: u8,
    iqInverted: bool,
    preamble: u16,
    payload: seq<u8>)

  datatype DownlinkJob = DownlinkJob(targetTmst: Option<u32>, config: LoraConfig, payload: seq<u8>)

  /** One request with the two clock readings it is judged by. */
  datatype Request = Request(nowUs: u32, nowMs: nat, txpk: TxPacket)

  type Budgets = map<nat, DutyCycle.Window>

  // ----- The policy as functions ---------------------------------------------

  predicate InRange(freqHz: u32) {
    863_000_000 <= freqHz <= 870_000_000
  }

  function PacketAirtime(txpk: TxPacket): nat {
    Airtime.TimeOnAirMsExt(txpk.spreadingFactor, txpk.bandwidthKhz, txpk.codingRate, |txpk.payload|, txpk.preamble, false)
  }

  function Job(txpk: TxPacket, target: Option<u32>): DownlinkJob {
    DownlinkJob(
      target,
      LoraConfig(txpk.freqHz, txpk.spreadingFactor, txpk.bandwidthKhz, txpk.codingRate,
                 if txpk.powerDbm < MAX_TX_POWER_DBM then txpk.powerDbm else MAX_TX_POWER_DBM,
                 Public, txpk.iqInverted, false, txpk.preamble),
      txpk.payload)
  }

  /** The checks made before any budget is looked at. */
  function Screen(q: Request): Result<DownlinkJob, TxAckError> {
    if !InRange(q.txpk.freqHz) then Err(TxFreq)
    else match Classify(q.nowUs, q.txpk.immediate, q.txpk.tmst)
      case Immediate => Ok(Job(q.txpk, None))
      case At(_) => Ok(Job(q.txpk, q.txpk.tmst))
      case TooLate => Err(TxAckError.TooLate)
      case TooEarly => Err(TxAckError.TooEarly)
  }

  /**
   How a downlink is answered before any budget is looked at: by its frequency, and by the time
   left to its target on clocks that never wrap.
   */
  lemma ScreenByTrueTime(q: Request, now: int, target: int)
    requires q.nowUs == Counter(now) && (q.txpk.tmst.Some? ==> q.txpk.tmst.value == Counter(target))
    requires -HORIZON_US <= target - now < HORIZON_US
    ensures var timed, left := !q.txpk.immediate && q.txpk.tmst.Some?, target - now;
            var inRange := 863_000_000 <= q.txpk.freqHz <= 870_000_000;
            && (Screen(q) == Err(TxFreq) <==> !inRange)
            && (Screen(q) == Err(TxAckError.TooLate)
                <==> inRange && !q.txpk.immediate && (q.txpk.tmst.None? || left < 20_000))
            && (Screen(q) == Err(TxAckError.TooEarly) <==> inRange && timed && left > 30_000_000)
            && (Screen(q).Ok? <==> inRange && (q.txpk.immediate || (timed && 20_000 <= left <= 30_000_000)))
            && (Screen(q).Ok? ==> Screen(q).value.targetTmst == if timed then q.txpk.tmst else None)
  {
    hide Counter, TmstDeltaUs;
    ClassifyAgreesWithTrueTime(now, target);
  }

  function WithBand(budgets: Budgets, freqHz: u32): Budgets {
    var band := DutyCycle.EuBandKey(freqHz);
    if band in budgets || |budgets| == MAX_BANDS then budgets else budgets[band := DutyCycle.Fresh(freqHz)]
  }

  ghost predicate AllValid(budgets: Budgets) {
    forall band :: band in budgets ==> budgets[band].Valid()
  }

  ghost function Accept(budgets: Budgets, q: Request): (Budgets, Result<DownlinkJob, TxAckError>)
    requires AllValid(budgets)
  {
    var screened := Screen(q);
    if screened.Err? then (budgets, screened)
    else
      FreshIsValid(q.txpk.freqHz);
      var band, budgets1 := DutyCycle.EuBandKey(q.txpk.freqHz), WithBand(budgets, q.txpk.freqHz);
      if band !in budgets1 then (budgets1, screened)
      else
        var (w, result) := DutyCycle.TryClaim(budgets1[band], q.nowMs, PacketAirtime(q.txpk));
        (budgets1[band := w], if result.Accepted? then screened else Err(DutyCycleOverflow))
  }

  lemma FreshIsValid(freqHz: u32)
    ensures DutyCycle.Fresh(freqHz).Valid()
  {
    DutyCycle.FreshIsValid(DutyCycle.BUCKET_COUNT, DutyCycle.AllowanceMs(freqHz));
  }

  // ----- Budgets belong to bands ---------------------------------------------

  function BandAllowanceMs(band: nat): Option<nat> {
    match band
    case 1 => Some(360_000)
    case 2 => Some(36_000)
    case 3 => Some(3_600)
    case 4 => Some(360_000)
    case 5 => Some(36_000)
    case 6 => Some(3_600)
    case _ => None
  }

  /** Whichever frequency of a band creates its limiter, the allowance is the band's. */
  lemma AllowanceIsTheBands(freqHz: nat)
    ensures DutyCycle.AllowanceMs(freqHz) == BandAllowanceMs(DutyCycle.EuBandKey(freqHz))
    ensures 863_000_000 <= freqHz <= 870_000_000 ==> 2 <= DutyCycle.EuBandKey(freqHz) <= 6
  {}

  /** The allowance of every carrier in range: ten percent, one, or a tenth where no sub-band is named. */
  lemma AllowanceByCarrier(freqHz: nat)
    requires 863_000_000 <= freqHz <= 870_000_000
    ensures DutyCycle.AllowanceMs(freqHz) == Some(360_000) <==> 869_400_000 <= freqHz <= 869_650_000
    ensures DutyCycle.AllowanceMs(freqHz) == Some(36_000) <==> 868_000_000 <= freqHz <= 868_600_000 || 869_700_000 <= freqHz
    ensures DutyCycle.AllowanceMs(freqHz).Some? && DutyCycle.AllowanceMs(freqHz).value in {3_600, 36_000, 360_000}
  {}

  // ----- Whole runs ----------------------------------------------------------

  /** A downlink accepted for the radio task, dated at its acceptance. */
  datatype Sent = Sent(band: nat, charge: DutyCycle.Charge)

  ghost function Run(reqs: seq<Request>): (r: (Budgets, seq<Sent>))
    ensures AllValid(r.0)
  {
    if reqs == [] then (map[], [])
    else
      var (budgets, sent) := Run(Init(reqs));
      var q := Last(reqs);
      var (budgets', result) := Accept(budgets, q);
      AcceptKeepsValid(budgets, q);
      (budgets', if result.Ok? then sent + [Sent(DutyCycle.EuBandKey(q.txpk.freqHz), DutyCycle.Charge(q.nowMs, PacketAirtime(q.txpk)))] else sent)
  }

  lemma AcceptKeepsValid(budgets: Budgets, q: Request)
    requires AllValid(budgets)
    ensures AllValid(Accept(budgets, q).0)
  {
    FreshIsValid(q.txpk.freqHz);
    var band, budgets1 := DutyCycle.EuBandKey(q.txpk.freqHz), WithBand(budgets, q.txpk.freqHz);
    if band in budgets1 {
      DutyCycle.ClaimKeepsValid(budgets1[band], q.nowMs, PacketAirtime(q.txpk));
    }
  }

  /** The claims a run makes on one band: its requests that pass the screen. */
  ghost function Claims(reqs: seq<Request>, band: nat): seq<DutyCycle.Request> {
    if reqs == [] then []
    else
      var q := Last(reqs);
      Claims(Init(reqs), band) +
      if Screen(q).Ok? && DutyCycle.EuBandKey(q.txpk.freqHz) == band then [DutyCycle.Request(q.nowMs, PacketAirtime(q.txpk))] else []
  }

  /** What was sent in one band. */
  ghost function BandLog(sent: seq<Sent>, band: nat): seq<DutyCycle.Charge> {
    if sent == [] then []
    else BandLog(Init(sent), band) + if Last(sent).band == band then [Last(sent).charge] else []
  }

  ghost function OnlyBand(reqs: seq<Request>, band: nat): seq<Request> {
    if reqs == [] then []
    else OnlyBand(Init(reqs), band) + if DutyCycle.EuBandKey(Last(reqs).txpk.freqHz) == band then [Last(reqs)] else []
  }

  /** The bands a run makes claims on. */
  ghost function Seen(reqs: seq<Request>): set<nat> {
    if reqs == [] then {}
    else Seen(Init(reqs)) + if Screen(Last(reqs)).Ok? then {DutyCycle.EuBandKey(Last(reqs).txpk.freqHz)} else {}
  }

  lemma {:induction false} SeenIffClaims(reqs: seq<Request>, band: nat)
    ensures band in Seen(reqs) <==> Claims(reqs, band) != []
    ensures band in Seen(reqs) ==> 2 <= band <= 6
  {
    if reqs != [] {
      SeenIffClaims(Init(reqs), band);
      AllowanceIsTheBands(Last(reqs).txpk.freqHz);
    }
  }

  /** Accepting or refusing a request adds its band to the tracked ones if there is room, and drops none. */
  lemma TrackedAfterRequest(budgets: Budgets, q: Request)
    requires AllValid(budgets)
    ensures var band, budgets' := DutyCycle.EuBandKey(q.txpk.freqHz), Accept(budgets, q).0;
            && budgets'.Keys == (if Screen(q).Err? || band in budgets || |budgets| == MAX_BANDS then budgets.Keys else budgets.Keys + {band})
            && |budgets'| == |budgets'.Keys| && |budgets| == |budgets.Keys|
  {
    hide DutyCycle.TryClaim, DutyCycle.EuBandKey, DutyCycle.Fresh, Screen, PacketAirtime;
    var band, budgets1 := DutyCycle.EuBandKey(q.txpk.freqHz), WithBand(budgets, q.txpk.freqHz);
    assert budgets1.Keys == if band in budgets || |budgets| == MAX_BANDS then budgets.Keys else budgets.Keys + {band};
    assert Screen(q).Ok? ==> Accept(budgets, q).0.Keys == budgets1.Keys;
    SizeOfKeys(Accept(budgets, q).0);
    SizeOfKeys(budgets);
  }

  lemma SizeOfKeys<T>(m: map<nat, T>)
    ensures |m| == |m.Keys|
  {}

  /** Limiters are created for the first four bands asked for, and never dropped. */
  lemma {:induction false} TrackedBands(reqs: seq<Request>)
    ensures var budgets := Run(reqs).0;
            && |budgets| <= MAX_BANDS && budgets.Keys <= Seen(reqs)
            && (|budgets| == MAX_BANDS || budgets.Keys == Seen(reqs))
  {
    hide Accept, Screen, DutyCycle.EuBandKey;
    if reqs != [] {
      TrackedBands(Init(reqs));
      TrackedAfterRequest(Run(Init(reqs)).0, Last(reqs));
    }
  }

  lemma SubsetOfSameSize(a: set<nat>, b: set<nat>)
    requires a <= b && |b| <= |a|
    ensures a == b
  {
    assert b == a + (b - a);
    assert |b| == |a| + |b - a|;
  }

  /** Every band asked for has a budget exactly when at most four bands were asked for. */
  lemma EveryBandTrackedIffAtMostFour(reqs: seq<Request>)
    ensures Run(reqs).0.Keys == Seen(reqs) <==> |Seen(reqs)| <= MAX_BANDS
  {
    TrackedBands(reqs);
    assert |Run(reqs).0.Keys| == |Run(reqs).0|;
    if |Seen(reqs)| <= MAX_BANDS && |Run(reqs).0| == MAX_BANDS {
      SubsetOfSameSize(Run(reqs).0.Keys, Seen(reqs));
    }
  }

  ghost function FreshBand(band: nat): DutyCycle.Window {
    DutyCycle.FreshRing(DutyCycle.BUCKET_COUNT, BandAllowanceMs(band))
  }

  /** A tracked band's limiter and what it let through are those of a limiter fed only its claims. */
  lemma {:induction false} TrackedBandRunsAlone(reqs: seq<Request>, band: nat)
    ensures var (budgets, sent) := Run(reqs);
            band in budgets ==>
              && budgets[band] == DutyCycle.Run(FreshBand(band), Claims(reqs, band)).0
              && BandLog(sent, band) == DutyCycle.Run(FreshBand(band), Claims(reqs, band)).1
    ensures Claims(reqs, band) == [] ==> BandLog(Run(reqs).1, band) == []
  {
    if reqs != [] {
      TrackedBandRunsAlone(Init(reqs), band);
      TrackedBands(Init(reqs));
      SeenIffClaims(Init(reqs), band);
      var (budgets, sent) := Run(Init(reqs));
      var q := Last(reqs);
      AllowanceIsTheBands(q.txpk.freqHz);
      if Accept(budgets, q).1.Ok? {
        assert Init(Run(reqs).1) == sent;
      }
      if Screen(q).Ok? && DutyCycle.EuBandKey(q.txpk.freqHz) == band {
        OwnRequestRunsAlone(reqs, band);
      } else {
        hide Screen, DutyCycle.TryClaim, DutyCycle.EuBandKey, DutyCycle.Run;
        assert Claims(reqs, band) == Claims(Init(reqs), band);
        OtherRequestLeavesBand(budgets, q, band);
      }
    }
  }

  lemma OtherRequestLeavesBand(budgets: Budgets, q: Request, band: nat)
    requires AllValid(budgets) && !(Screen(q).Ok? && DutyCycle.EuBandKey(q.txpk.freqHz) == band)
    ensures var budgets' := Accept(budgets, q).0;
            (band in budgets' <==> band in budgets) && (band in budgets ==> budgets'[band] == budgets[band])
  {}

  /** A request of the band itself: its limiter takes the step the lone limiter takes. */
  lemma OwnRequestRunsAlone(reqs: seq<Request>, band: nat)
    requires reqs != [] && Screen(Last(reqs)).Ok? && DutyCycle.EuBandKey(Last(reqs).txpk.freqHz) == band
    requires var (budgets, sent) := Run(Init(reqs));
             && (band in budgets ==> budgets[band] == DutyCycle.Run(FreshBand(band), Claims(Init(reqs), band)).0)
             && (band in budgets ==> BandLog(sent, band) == DutyCycle.Run(FreshBand(band), Claims(Init(reqs), band)).1)
             && (band !in budgets && |budgets| != MAX_BANDS ==> Claims(Init(reqs), band) == [] && BandLog(sent, band) == [])
    ensures var (budgets, sent) := Run(reqs);
            band in budgets ==>
              && budgets[band] == DutyCycle.Run(FreshBand(band), Claims(reqs, band)).0
              && BandLog(sent, band) == DutyCycle.Run(FreshBand(band), Claims(reqs, band)).1
  {
    hide Screen, DutyCycle.TryClaim, DutyCycle.EuBandKey, PacketAirtime;
    var (budgets, sent) := Run(Init(reqs));
    var q := Last(reqs);
    AllowanceIsTheBands(q.txpk.freqHz);
    var c := DutyCycle.Request(q.nowMs, PacketAirtime(q.txpk));
    DutyCycle.RunStep(FreshBand(band), Claims(Init(reqs), band), c);
    if Accept(budgets, q).1.Ok? {
      assert Init(Run(reqs).1) == sent;
    }
    if band in Run(reqs).0 {
      assert WithBand(budgets, q.txpk.freqHz)[band] == DutyCycle.Run(FreshBand(band), Claims(Init(reqs), band)).0;
    }
  }

  ghost predicate Nondecreasing(reqs: seq<Request>) {
    forall i, j :: 0 <= i < j < |reqs| ==> reqs[i].nowMs <= reqs[j].nowMs
  }

  lemma {:induction false} ClaimsNondecreasing(reqs: seq<Request>, band: nat)
    requires Nondecreasing(reqs)
    ensures DutyCycle.Nondecreasing(Claims(reqs, band))
    ensures forall i :: 0 <= i < |Claims(reqs, band)| ==> Claims(reqs, band)[i].now <= Last(reqs).nowMs
  {
    if |reqs| > 1 {
      ClaimsNondecreasing(Init(reqs), band);
      assert Last(Init(reqs)).nowMs <= Last(reqs).nowMs;
    } else if |reqs| == 1 {
      assert Claims(Init(reqs), band) == [];
    }
  }

  lemma FreshBandIsAFreshLimiter(band: nat) returns (freqHz: nat)
    requires 2 <= band <= 6
    ensures DutyCycle.Fresh(freqHz) == FreshBand(band) && DutyCycle.AllowanceMs(freqHz) == BandAllowanceMs(band)
  {
    freqHz := if band == 2 then 868_000_000 else if band == 3 then 868_700_000 else if band == 4 then 869_400_000
              else if band == 5 then 869_700_000 else 863_000_000;
  }

  /** Over any run, at most the allowance is accepted for a tracked band in any closed 59 minutes. */
  lemma TrackedBandIsWithinAllowance(reqs: seq<Request>, band: nat, lo: int)
    requires Nondecreasing(reqs) && band in Run(reqs).0
    ensures BandAllowanceMs(band).Some?
    ensures DutyCycle.SumIn(BandLog(Run(reqs).1, band), lo, lo + DutyCycle.GUARANTEED_MS + 1) <= BandAllowanceMs(band).value
  {
    TrackedBands(reqs);
    SeenIffClaims(reqs, band);
    TrackedBandRunsAlone(reqs, band);
    ClaimsNondecreasing(reqs, band);
    var freqHz := FreshBandIsAFreshLimiter(band);
    DutyCycle.AirtimeInAny59MinutesIsWithinAllowance(freqHz, Claims(reqs, band), lo);
  }

  // ----- Non-interference ----------------------------------------------------

  lemma {:induction false} OnlyBandKeepsClaims(reqs: seq<Request>, band: nat)
    ensures Claims(OnlyBand(reqs, band), band) == Claims(reqs, band)
    ensures Seen(OnlyBand(reqs, band)) <= {band}
  {
    if reqs != [] {
      OnlyBandKeepsClaims(Init(reqs), band);
      if OnlyBand(reqs, band) != OnlyBand(Init(reqs), band) {
        assert Init(OnlyBand(reqs, band)) == OnlyBand(Init(reqs), band);
      }
    }
  }

  /** The budget a request finds: that of a limiter fed only the band's earlier claims. */
  lemma BudgetFound(reqs: seq<Request>, q: Request)
    requires Screen(q).Ok?
    ensures var band := DutyCycle.EuBandKey(q.txpk.freqHz);
            band in WithBand(Run(reqs).0, q.txpk.freqHz) ==>
              WithBand(Run(reqs).0, q.txpk.freqHz)[band] == DutyCycle.Run(FreshBand(band), Claims(reqs, band)).0
  {
    var band := DutyCycle.EuBandKey(q.txpk.freqHz);
    TrackedBandRunsAlone(reqs, band);
    TrackedBands(reqs);
    SeenIffClaims(reqs, band);
    AllowanceIsTheBands(q.txpk.freqHz);
  }

  /** A tracked band decides every request as it would had no other band ever been used. */
  lemma DecisionsAreBandLocal(reqs: seq<Request>, q: Request)
    requires var band := DutyCycle.EuBandKey(q.txpk.freqHz);
             Screen(q).Ok? ==> band in Run(reqs).0 || |Run(reqs).0| < MAX_BANDS
    ensures Accept(Run(reqs).0, q).1 == Accept(Run(OnlyBand(reqs, DutyCycle.EuBandKey(q.txpk.freqHz))).0, q).1
  {
    var band := DutyCycle.EuBandKey(q.txpk.freqHz);
    var only := OnlyBand(reqs, band);
    if Screen(q).Ok? {
      BudgetFound(reqs, q);
      BudgetFound(only, q);
      OnlyBandKeepsClaims(reqs, band);
      TrackedBands(only);
      if |Run(only).0| == MAX_BANDS {
        SubsetIsSmaller(Run(only).0.Keys, {band});
      }
    }
  }

  /** Requests refused for their frequency or their timing leave every budget alone. */
  lemma ScreenedOutTouchesNoBudget(budgets: Budgets, q: Request)
    requires AllValid(budgets)
    ensures Accept(budgets, q).1 in {Err(TxFreq), Err(TxAckError.TooLate), Err(TxAckError.TooEarly)} <==> Screen(q).Err?
    ensures Screen(q).Err? ==> Accept(budgets, q).0 == budgets
  {}

  ghost function PassingScreen(reqs: seq<Request>): seq<Request> {
    if reqs == [] then []
    else PassingScreen(Init(reqs)) + if Screen(Last(reqs)).Ok? then [Last(reqs)] else []
  }

  lemma RunStep(reqs: seq<Request>, q: Request)
    ensures Run(reqs + [q]).0 == Accept(Run(reqs).0, q).0
    ensures Run(reqs + [q]).1 == if Accept(Run(reqs).0, q).1.Ok?
            then Run(reqs).1 + [Sent(DutyCycle.EuBandKey(q.txpk.freqHz), DutyCycle.Charge(q.nowMs, PacketAirtime(q.txpk)))]
            else Run(reqs).1
  {
    hide Accept, PacketAirtime, DutyCycle.EuBandKey;
    assert Init(reqs + [q]) == reqs;
  }

  /** Over whole runs they are invisible: without them every budget and every transmission is the same. */
  lemma {:induction false} ScreenedOutAreInvisible(reqs: seq<Request>)
    ensures Run(PassingScreen(reqs)) == Run(reqs)
  {
    hide Run, Accept, Screen;
    if reqs != [] {
      ScreenedOutAreInvisible(Init(reqs));
      ScreenedOutTouchesNoBudget(Run(Init(reqs)).0, Last(reqs));
      assert reqs == Init(reqs) + [Last(reqs)];
      RunStep(Init(reqs), Last(reqs));
      RunStep(PassingScreen(Init(reqs)), Last(reqs));
      assert PassingScreen(reqs) == PassingScreen(Init(reqs)) + if Screen(Last(reqs)).Ok? then [Last(reqs)] else [];
      assert PassingScreen(Init(reqs)) + [] == PassingScreen(Init(reqs));
    }
  }

  // ----- The fifth band ------------------------------------------------------

  ghost function AsCharges(claims: seq<DutyCycle.Request>): seq<DutyCycle.Charge> {
    if claims == [] then []
    else AsCharges(Init(claims)) + [DutyCycle.Charge(Last(claims).now, Last(claims).airtime)]
  }

  /** A band without a limiter sends everything it is asked to. */
  lemma {:induction false} UntrackedBandSendsEverything(reqs: seq<Request>, band: nat)
    requires band !in Run(reqs).0
    ensures BandLog(Run(reqs).1, band) == AsCharges(Claims(reqs, band))
  {
    hide DutyCycle.TryClaim, Classify, Job, DutyCycle.EuBandKey, PacketAirtime;
    if reqs != [] {
      var (budgets, sent) := Run(Init(reqs));
      var q := Last(reqs);
      assert band !in budgets;
      UntrackedBandSendsEverything(Init(reqs), band);
      if Accept(budgets, q).1.Ok? {
        assert Init(Run(reqs).1) == sent;
      }
      if Screen(q).Ok? && DutyCycle.EuBandKey(q.txpk.freqHz) == band {
        var c := DutyCycle.Request(q.nowMs, PacketAirtime(q.txpk));
        assert Claims(reqs, band) == Claims(Init(reqs), band) + [c];
        assert Init(Claims(reqs, band)) == Claims(Init(reqs), band);
        assert Accept(budgets, q).1.Ok?;
      } else {
        assert Claims(reqs, band) == Claims(Init(reqs), band);
      }
    }
  }

  /** The budget is enforced on a request exactly when its band has a limiter or one can be made. */
  lemma OversizePacketRefusedIffTracked(reqs: seq<Request>, q: Request)
    requires Screen(q).Ok?
    requires var allowance := BandAllowanceMs(DutyCycle.EuBandKey(q.txpk.freqHz));
             allowance.Some? && PacketAirtime(q.txpk) > allowance.value
    ensures Accept(Run(reqs).0, q).1 == Err(DutyCycleOverflow)
            <==> DutyCycle.EuBandKey(q.txpk.freqHz) in Run(reqs).0 || |Run(reqs).0| < MAX_BANDS
  {
    var band := DutyCycle.EuBandKey(q.txpk.freqHz);
    AllowanceIsTheBands(q.txpk.freqHz);
    TrackedBands(reqs);
    BudgetFound(reqs, q);
    FreshIsValid(q.txpk.freqHz);
    DutyCycle.RunKeepsAllowance(FreshBand(band), Claims(reqs, band));
  }

  /** An immediate request of the longest payload the radio takes, at spreading factor 12. */
  function Longest(freqHz: u32): Request {
    Request(0, 0, TxPacket(true, None, freqHz, 14, 12, 125, 5, true, 8, seq(255, i => 0)))
  }

  function FourBands(): seq<Request> {
    [Longest(868_000_000)] + [Longest(868_700_000)] + [Longest(869_400_000)] + [Longest(869_700_000)]
  }

  lemma SeenStep(reqs: seq<Request>, q: Request)
    requires Screen(q).Ok?
    ensures Seen(reqs + [q]) == Seen(reqs) + {DutyCycle.EuBandKey(q.txpk.freqHz)}
    ensures forall band :: band != DutyCycle.EuBandKey(q.txpk.freqHz) ==> Claims(reqs + [q], band) == Claims(reqs, band)
  {
    assert Init(reqs + [q]) == reqs;
  }

  lemma FourBandsFillTheTable()
    ensures Seen(FourBands()) == {2, 3, 4, 5}
    ensures Run(FourBands()).0.Keys == {2, 3, 4, 5} && |Run(FourBands()).0| == MAX_BANDS
    ensures BandLog(Run(FourBands()).1, 6) == []
  {
    hide Run, Claims, BandLog, Seen;
    FourBandsSeen();
    EveryBandTrackedIffAtMostFour(FourBands());
    var four: set<nat> := {2, 3, 4, 5};
    assert |four| == 4;
    TrackedBands(FourBands());
    assert |Run(FourBands()).0.Keys| == |Run(FourBands()).0|;
    TrackedBandRunsAlone(FourBands(), 6);
  }

  lemma FourBandsSeen()
    ensures Seen(FourBands()) == {2, 3, 4, 5} && Claims(FourBands(), 6) == []
  {
    var none: seq<Request> := [];
    assert none + [Longest(868_000_000)] == [Longest(868_000_000)];
    SeenStep(none, Longest(868_000_000));
    SeenStep([Longest(868_000_000)], Longest(868_700_000));
    SeenStep([Longest(868_000_000)] + [Longest(868_700_000)], Longest(869_400_000));
    SeenStep([Longest(868_000_000)] + [Longest(868_700_000)] + [Longest(869_400_000)], Longest(869_700_000));
  }

  function Repeated(q: Request, n: nat): seq<Request> {
    seq(n, i => q)
  }

  lemma UntrackedStep(reqs: seq<Request>, q: Request)
    requires Screen(q).Ok? && DutyCycle.EuBandKey(q.txpk.freqHz) == 6 && |Run(reqs).0| == MAX_BANDS && 6 !in Run(reqs).0
    ensures Run(reqs + [q]).0 == Run(reqs).0
    ensures BandLog(Run(reqs + [q]).1, 6) == BandLog(Run(reqs).1, 6) + [DutyCycle.Charge(q.nowMs, PacketAirtime(q.txpk))]
  {
    hide Run, Screen, PacketAirtime, DutyCycle.EuBandKey;
    RunStep(reqs, q);
    assert Init(Run(reqs + [q]).1) == Run(reqs).1;
  }

  lemma OneMoreRequest(q: Request, n: nat)
    ensures FourBands() + Repeated(q, n) == if n == 0 then FourBands() else (FourBands() + Repeated(q, n - 1)) + [q]
  {
    hide FourBands;
  }

  ghost function SixthBandSum(reqs: seq<Request>, now: nat): nat {
    DutyCycle.SumIn(BandLog(Run(reqs).1, 6), now, now + 1)
  }

  lemma SixthIsUntracked()
    ensures 6 !in Run(FourBands()).0 && |Run(FourBands()).0| == MAX_BANDS
  {
    hide Run, FourBands;
    FourBandsFillTheTable();
    assert 6 !in Run(FourBands()).0.Keys;
  }

  lemma FifthBandStep(reqs: seq<Request>, q: Request)
    requires Screen(q).Ok? && DutyCycle.EuBandKey(q.txpk.freqHz) == 6 && Run(reqs).0 == Run(FourBands()).0
    ensures Run(reqs + [q]).0 == Run(FourBands()).0
    ensures SixthBandSum(reqs + [q], q.nowMs) == SixthBandSum(reqs, q.nowMs) + PacketAirtime(q.txpk)
  {
    hide Run, BandLog, PacketAirtime, Screen, FourBands, DutyCycle.EuBandKey, DutyCycle.SumIn, AllValid;
    SixthIsUntracked();
    UntrackedStep(reqs, q);
    DutyCycle.SumInAppend(BandLog(Run(reqs).1, 6), DutyCycle.Charge(q.nowMs, PacketAirtime(q.txpk)), q.nowMs, q.nowMs + 1);
  }

  /**
   With a limiter on each of the other four bands, the fifth sends all that is asked of it:
   `n` equal requests put n times their airtime into one millisecond.
   */
  lemma {:induction false} FifthBandSendsEverything(q: Request, n: nat)
    requires Screen(q).Ok? && DutyCycle.EuBandKey(q.txpk.freqHz) == 6
    ensures var reqs := FourBands() + Repeated(q, n);
            && Run(reqs).0 == Run(FourBands()).0
            && SixthBandSum(reqs, q.nowMs) == n * PacketAirtime(q.txpk)
  {
    hide Run, SixthBandSum, PacketAirtime, Screen, FourBands, Repeated, DutyCycle.EuBandKey;
    OneMoreRequest(q, n);
    if n == 0 {
      NothingSentYet(q.nowMs);
    } else {
      FifthBandSendsEverything(q, n - 1);
      FifthBandStep(FourBands() + Repeated(q, n - 1), q);
      OneMore(n, PacketAirtime(q.txpk));
    }
  }

  lemma NothingSentYet(now: nat)
    ensures SixthBandSum(FourBands(), now) == 0
  {
    hide Run, BandLog, FourBands;
    FourBandsFillTheTable();
  }

  /** Five requests, one to a band, and the fifth band has spent two and a half times its 3.6 s. */
  lemma FifthBandPassesItsAllowance()
    ensures var reqs := FourBands() + [Longest(863_000_000)];
            && Nondecreasing(reqs) && |Seen(reqs)| == 5 && 6 !in Run(reqs).0
            && DutyCycle.SumIn(BandLog(Run(reqs).1, 6), 0, DutyCycle.GUARANTEED_MS + 1) == 9_020
            && BandAllowanceMs(6) == Some(3_600)
  {
    hide Run, BandLog, PacketAirtime, Seen;
    var q := Longest(863_000_000);
    FourBandsFillTheTable();
    UntrackedStep(FourBands(), q);
    SeenStep(FourBands(), q);
    var five: set<nat> := {2, 3, 4, 5} + {6};
    assert |five| == 5;
    LongestAirtime(863_000_000);
    assert 6 !in Run(FourBands()).0.Keys;
    LoggedAtZero(FourBands(), q);
  }

  lemma LongestInSymbols()
    ensures Airtime.LdroEnabled(12, 125) && Airtime.SymbolTimeUs(12, 125) == 32_768
    ensures Airtime.QuarterSymbols(12, true, 1, 255, 8, false) == 1_101
  {
    Airtime.Pow2Table();
  }

  lemma LongestAirtime(freqHz: u32)
    ensures PacketAirtime(Longest(freqHz).txpk) == 9_020
  {
    hide Airtime.QuarterSymbols, Airtime.SymbolTimeUs, Airtime.LdroEnabled;
    LongestInSymbols();
  }

  /** Whatever a run at time zero logs in a millisecond it logs in the window. */
  lemma LoggedAtZero(reqs: seq<Request>, q: Request)
    requires Screen(q).Ok? && DutyCycle.EuBandKey(q.txpk.freqHz) == 6 && q.nowMs == 0
    requires |Run(reqs).0| == MAX_BANDS && 6 !in Run(reqs).0 && BandLog(Run(reqs).1, 6) == []
    ensures DutyCycle.SumIn(BandLog(Run(reqs + [q]).1, 6), 0, DutyCycle.GUARANTEED_MS + 1) == PacketAirtime(q.txpk)
  {
    hide Run, BandLog, PacketAirtime, Screen, DutyCycle.EuBandKey;
    UntrackedStep(reqs, q);
    DutyCycle.SumInAppend([], DutyCycle.Charge(0, PacketAirtime(q.txpk)), 0, DutyCycle.GUARANTEED_MS + 1);
  }

  // ----- How many bands can be kept ------------------------------------------

  ghost predicate AllWithin(reqs: seq<Request>, bands: set<nat>) {
    forall band :: band in bands ==> BandWithin(reqs, band)
  }

  ghost predicate BandWithin(reqs: seq<Request>, band: nat) {
    BandAllowanceMs(band).Some? && DutyCycle.WindowSafe(BandLog(Run(reqs).1, band), BandAllowanceMs(band).value, DutyCycle.GUARANTEED_MS)
  }

  lemma SeenBandIsWithin(reqs: seq<Request>, band: nat)
    requires Nondecreasing(reqs) && 2 <= band <= 6 && (band in Run(reqs).0 || band !in Seen(reqs))
    ensures BandWithin(reqs, band)
  {
    hide Run, BandLog, Seen, DutyCycle.SumIn;
    forall lo: int ensures DutyCycle.SumFrom(BandLog(Run(reqs).1, band), lo, DutyCycle.GUARANTEED_MS) <= BandAllowanceMs(band).value {
      if band in Run(reqs).0 {
        TrackedBandIsWithinAllowance(reqs, band, lo);
      } else {
        SeenIffClaims(reqs, band);
        TrackedBandRunsAlone(reqs, band);
        DutyCycle.SumInOutside([], lo, lo + DutyCycle.GUARANTEED_MS + 1);
      }
    }
  }

  lemma FewBandsAreKept(reqs: seq<Request>, bands: set<nat>)
    requires Nondecreasing(reqs) && Seen(reqs) <= bands <= {2, 3, 4, 5, 6} && |bands| <= MAX_BANDS
    ensures AllWithin(reqs, bands)
  {
    hide Run, Seen, BandWithin;
    SubsetIsSmaller(Seen(reqs), bands);
    EveryBandTrackedIffAtMostFour(reqs);
    forall band | band in bands ensures BandWithin(reqs, band) {
      assert band in Run(reqs).0.Keys <==> band in Seen(reqs);
      SeenBandIsWithin(reqs, band);
    }
  }

  lemma FiveBandsAreNotKept()
    ensures var reqs := FourBands() + [Longest(863_000_000)];
            Nondecreasing(reqs) && Seen(reqs) <= {2, 3, 4, 5, 6} && !BandWithin(reqs, 6)
  {
    hide Run, Seen, BandLog, FourBands, DutyCycle.SumIn;
    FifthBandPassesItsAllowance();
    var reqs := FourBands() + [Longest(863_000_000)];
    forall band | band in Seen(reqs) ensures band in {2, 3, 4, 5, 6} {
      SeenIffClaims(reqs, band);
    }
    assert DutyCycle.SumFrom(BandLog(Run(reqs).1, 6), 0, DutyCycle.GUARANTEED_MS) == 9_020;
  }

  /**
   Exactly which bands the forwarder can keep: for any set of the sub-bands in its range, all
   runs confined to them accept at most the allowance of each in any closed 59 minutes, if and
   only if they are at most four.
   */
  lemma BandsAreKeptIffAtMostFour(bands: set<nat>)
    requires bands <= {2, 3, 4, 5, 6}
    ensures |bands| <= MAX_BANDS <==>
            forall reqs: seq<Request> :: Nondecreasing(reqs) && Seen(reqs) <= bands ==> AllWithin(reqs, bands)
  {
    hide Seen, AllWithin, Nondecreasing;
    if |bands| <= MAX_BANDS {
      forall reqs: seq<Request> | Nondecreasing(reqs) && Seen(reqs) <= bands ensures AllWithin(reqs, bands) {
        FewBandsAreKept(reqs, bands);
      }
    } else {
      var all: set<nat> := {2, 3, 4, 5, 6};
      SubsetOfSameSize(bands, all);
      FiveBandsAreNotKept();
      NotAllWithin(FourBands() + [Longest(863_000_000)], bands, 6);
    }
  }

  lemma NotAllWithin(reqs: seq<Request>, bands: set<nat>, band: nat)
    requires band in bands && !BandWithin(reqs, band)
    ensures !AllWithin(reqs, bands)
  {}
}
