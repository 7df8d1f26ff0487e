/** The forwarder object that owns the limiters (src/gateway/forwarder.rs). */
module Forwarder {
  import opened Prelude
  import opened Scheduler
  import opened Limiter
  import opened DownlinkPolicy
  import DutyCycle

  ghost predicate Apart(a: DutyCycleLimiter, b: DutyCycleLimiter) {
    a != b && a.buckets != b.buckets
  }

  lemma SizeIsKeys<K, V>(m: map<K, V>)
    ensures |m| == |m.Keys|
  {}

  class GatewayForwarder {
    var duty: map<nat, DutyCycleLimiter>

    ghost predicate Valid()
      reads this, duty.Values, Rings()
    {
      && |duty| <= MAX_BANDS
      && (forall band :: band in duty ==> duty[band].Valid())
      && (forall b1, b2 :: b1 in duty && b2 in duty && b1 != b2 ==> Apart(duty[b1], duty[b2]))
    }

    ghost function Rings(): set<array<nat>>
      reads this
    {
      set band | band in duty :: duty[band].buckets
    }

    ghost function Budgets(): Budgets
      requires Valid()
      reads this, duty.Values, Rings()
      ensures AllValid(Budgets())
    {
      map band | band in duty :: duty[band].View()
    }

    constructor ()
      ensures Valid() && Budgets() == map[]
    {
      duty := map[];
    }

    lemma OneBudgetEach()
      requires Valid()
      ensures Budgets().Keys == duty.Keys && |Budgets()| == |duty| <= MAX_BANDS
    {
      hide DutyCycleLimiter.View, DutyCycleLimiter.Valid;
      SizeIsKeys(Budgets());
      SizeIsKeys(duty);
      assert Budgets().Keys == duty.Keys;
    }

    /** Gives the band of `freqHz` a limiter, when it has none and there is room for one. */
    method EnsureLimiter(freqHz: u32)
      requires Valid()
      modifies this
      ensures Valid() && Budgets() == WithBand(old(Budgets()), freqHz)
      ensures forall band :: band in duty ==>
                if band in old(duty) then duty[band] == old(duty)[band] else fresh(duty[band]) && fresh(duty[band].buckets)
    {
      hide DutyCycle.EuBandKey, DutyCycle.Fresh, Valid, Budgets, DutyCycleLimiter.View, DutyCycleLimiter.Valid;
      OneBudgetEach();
      if DutyCycle.EuBandKey(freqHz) !in duty && |duty| < MAX_BANDS {
        AddLimiter(freqHz);
      }
    }

    method AddLimiter(freqHz: u32)
      requires Valid() && DutyCycle.EuBandKey(freqHz) !in duty && |duty| < MAX_BANDS
      modifies this
      ensures Valid() && Budgets() == old(Budgets())[DutyCycle.EuBandKey(freqHz) := DutyCycle.Fresh(freqHz)]
      ensures forall band :: band in duty ==>
                if band in old(duty) then duty[band] == old(duty)[band] else fresh(duty[band]) && fresh(duty[band].buckets)
    {
      hide DutyCycle.EuBandKey, DutyCycle.Fresh, DutyCycleLimiter.View, DutyCycleLimiter.Valid;
      ghost var budgets := Budgets();
      var limiter := new DutyCycleLimiter.ForFrequency(freqHz);
      assert Valid() && Budgets() == budgets;
      Insert(DutyCycle.EuBandKey(freqHz), limiter);
    }

    method Insert(band: nat, limiter: DutyCycleLimiter)
      requires Valid() && limiter.Valid() && band !in duty && |duty| < MAX_BANDS
      requires forall b :: b in duty ==> Apart(duty[b], limiter)
      modifies this
      ensures duty == old(duty)[band := limiter]
      ensures Valid() && Budgets() == old(Budgets())[band := limiter.View()]
    {
      hide DutyCycleLimiter.View, DutyCycleLimiter.Valid;
      duty := duty[band := limiter];
    }

    method Claim(band: nat, nowMs: nat, airtime: nat) returns (result: DutyCycle.ClaimResult)
      requires Valid() && band in duty
      modifies duty[band], duty[band].buckets
      ensures Valid()
      ensures var (w, r) := DutyCycle.TryClaim(old(Budgets())[band], nowMs, airtime);
              Budgets() == old(Budgets())[band := w] && result == r
    {
      hide DutyCycle.TryClaim, DutyCycleLimiter.View, DutyCycle.Window.Valid;
      ghost var w := duty[band].View();
      result := duty[band].TryClaim(nowMs, airtime);
      assert (duty[band].View(), result) == DutyCycle.TryClaim(w, nowMs, airtime);
      assert forall other :: other in duty && other != band ==> duty[other].View() == old(duty[other].View());
    }

    /** Screen, look up or make the limiter, claim: as the policy function decides. */
    method Accept(q: Request) returns (r: Result<DownlinkJob, TxAckError>)
      requires Valid()
      modifies this, duty.Values, Rings()
      ensures Valid()
      ensures (Budgets(), r) == DownlinkPolicy.Accept(old(Budgets()), q)
    {
      hide DutyCycle.TryClaim, DutyCycle.Fresh, DutyCycle.EuBandKey, DutyCycleLimiter.View, DutyCycleLimiter.Valid;
      hide WithBand, PacketAirtime, Job, TmstDeltaUs;
      var txpk := q.txpk;
      if !(863_000_000 <= txpk.freqHz <= 870_000_000) {
        return Err(TxFreq);
      }
      var target: Option<u32>;
      match Classify(q.nowUs, txpk.immediate, txpk.tmst) {
        case Immediate => target := None;
        case At(_) => target := txpk.tmst;
        case TooLate => return Err(TxAckError.TooLate);
        case TooEarly => return Err(TxAckError.TooEarly);
      }
      var airtime := PacketAirtime(txpk);
      var band := DutyCycle.EuBandKey(txpk.freqHz);
      EnsureLimiter(txpk.freqHz);
      if band in duty {
        var result := Claim(band, q.nowMs, airtime);
        if result.Refused? {
          return Err(DutyCycleOverflow);
        }
      }
      return Ok(Job(txpk, target));
    }
  }
}
