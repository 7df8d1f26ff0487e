/**
 The gateway radio task over a whole run (src/tasks/gateway.rs), from bring-up on: the packets
 the chip sent, by their register bytes and at the times they were sent, against the budgets
 of the sub-bands (src/gateway/forwarder.rs).
 */
module GatewayTask {
  import opened Prelude
  import opened LoraTypes
  import opened Sx1262
  import opened Driver
  import opened GatewayRadio
  import opened DownlinkPolicy
  import opened DownlinkOnAir
  import opened FiringDelay
  import Airtime
  import DutyCycle
  import HubTypes

  /** Whether the channel to the task had room for an accepted downlink, and whether its moment had not passed when it was taken up. */
  datatype Pickup = Pickup(taken: bool, inTime: bool)

  function JobOf(q: Request): DownlinkJob
    requires Screen(q).Ok?
  {
    Screen(q).value
  }

  ghost predicate AllScreened(accepted: seq<Request>) {
    forall q :: q in accepted ==> Screen(q).Ok?
  }

  /** The chip's transmissions after the first ones are packets of accepted downlinks, in order and each at most once. */
  ghost predicate SentFrom(sent: seq<Transmission>, first: seq<Transmission>, accepted: seq<Request>, out: seq<nat>) {
    && |sent| == |first| + |out| && sent[..|first|] == first && AllScreened(accepted)
    && Matches(sent[|first|..], accepted, out)
  }

  ghost predicate Matches(packets: seq<Transmission>, accepted: seq<Request>, out: seq<nat>)
    requires AllScreened(accepted)
  {
    && |packets| == |out|
    && (forall i, j :: 0 <= i < j < |out| ==> out[i] < out[j])
    && (forall j :: 0 <= j < |out| ==> out[j] < |accepted| && SentFor(packets[j], accepted[out[j]]))
  }

  ghost predicate SentFor(t: Transmission, q: Request) {
    Screen(q).Ok? && SentWith(t, JobOf(q).config, JobOf(q).payload)
  }

  // ----- Read off the chip ---------------------------------------------------

  /** The sub-band of a transmission, by its frequency register. */
  function BandOf(t: Transmission): nat {
    DutyCycle.EuBandKey(CarrierHz(FromBe(t.frequency)))
  }

  /** One sub-band's transmissions, by register bytes, at the given times. */
  ghost function RegisterBandLog(packets: seq<Transmission>, times: seq<nat>, band: nat): seq<DutyCycle.Charge>
    requires |packets| == |times|
  {
    if packets == [] then []
    else
      RegisterBandLog(Init(packets), Init(times), band)
      + if BandOf(Last(packets)) == band then [DutyCycle.Charge(Last(times), RegisterAirtime(Last(packets)))] else []
  }

  /** When the packets went out: their downlinks' acceptance and delay. */
  ghost function TimesOf(accepted: seq<Request>, delays: seq<nat>, out: seq<nat>): (times: seq<nat>)
    requires |delays| == |accepted| && forall j :: 0 <= j < |out| ==> out[j] < |accepted|
    ensures |times| == |out|
  {
    seq(|out|, j requires 0 <= j < |out| => accepted[out[j]].nowMs + delays[out[j]])
  }

  /** A packet sent for a downlink is in the downlink's sub-band and no longer than it was charged. */
  lemma SentForIsCharged(t: Transmission, q: Request)
    requires SentFor(t, q)
    ensures BandOf(t) == Band(q) && RegisterAirtime(t) <= PacketAirtime(q.txpk)
    ensures 7 <= q.txpk.spreadingFactor <= 12 ==> RegisterAirtime(t) == PacketAirtime(q.txpk)
  {
    hide FromBe, CarrierHz, FrequencyRegister, AirtimeOfRegisters, Screen, DutyCycle.EuBandKey, BandwidthCode, CodingRateCode;
    ScreenedJob(q);
    var config := JobOf(q).config;
    BytesRoundTrip(FrequencyRegister(config.frequencyHz));
    CarrierRecoveredIff(config.frequencyHz);
    if 7 <= config.spreadingFactor <= 12 {
      ChargedAirtimeIsOnAirAirtime(config, |JobOf(q).payload|);
    }
  }

  // What the network server asks for, in the registers that shape the packet.

  ghost predicate CarriesWhatWasAsked(t: Transmission, txpk: TxPacket) {
    t.payload == txpk.payload && CarrierHz(FromBe(t.frequency)) == txpk.freqHz
  }

  ghost predicate DataRateAsAsked(t: Transmission, txpk: TxPacket) {
    var hz := Airtime.BandwidthHz(txpk.bandwidthKhz);
    && |t.modulation| == 4 && t.modulation[0] == txpk.spreadingFactor
    && BandwidthOfCode(t.modulation[1]) == Some(hz)
    && (5 <= txpk.codingRate <= 8 ==> t.modulation[2] == txpk.codingRate - 4)
    && (Airtime.LabelTellsLdro(txpk.spreadingFactor, txpk.bandwidthKhz) ==>
          (t.modulation[3] == 1 <==> Airtime.SlowSymbols(txpk.spreadingFactor, hz)))
  }

  /** Preamble, explicit header, length, no CRC, and the polarity twice: its byte and the register behind it. */
  ghost predicate FramedAsAsked(t: Transmission, txpk: TxPacket) {
    && |t.packetParams| == 6
    && FromBe(t.packetParams[..2]) == txpk.preamble
    && t.packetParams[2] == 0 && t.packetParams[3] == |txpk.payload| && t.packetParams[4] == 0
    && (t.packetParams[5] == 1 <==> txpk.iqInverted) && (t.packetParams[5] == 0 <==> !txpk.iqInverted)
    && (t.iqPolarity / 4 % 2 == 0 <==> txpk.iqInverted)
  }

  /** The power up to 22 dBm, and the public LoRaWAN sync word. */
  ghost predicate PoweredAsAsked(t: Transmission, txpk: TxPacket) {
    |t.txParams| == 2 && TwosComplement(t.txParams[0]) == Min(txpk.powerDbm, 22) && t.syncWord == (0x34, 0x44)
  }

  lemma AskedCarrier(t: Transmission, q: Request)
    requires SentFor(t, q)
    ensures CarriesWhatWasAsked(t, q.txpk)
  {
    hide FromBe, CarrierHz, FrequencyRegister, Screen;
    ScreenedJob(q);
    BytesRoundTrip(FrequencyRegister(q.txpk.freqHz));
    CarrierRecoveredIff(q.txpk.freqHz);
  }

  lemma AskedDataRate(t: Transmission, q: Request)
    requires SentFor(t, q)
    ensures DataRateAsAsked(t, q.txpk)
  {
    hide Screen, SetRfFrequency, PacketBytes, SetTxParams, RegisterBytes, WellSent, Airtime.LdroEnabled, Airtime.SlowSymbols, Airtime.LabelTellsLdro;
    ScreenedJob(q);
    Airtime.LdroIsSlowSymbolsIff(q.txpk.spreadingFactor, q.txpk.bandwidthKhz);
  }

  lemma TwoBytes(b0: u8, b1: u8)
    ensures FromBe([b0, b1]) == b0 * 0x100 + b1
  {
    FromBeAppend([], b0);
    FromBeAppend([b0], b1);
    assert [] + [b0] == [b0] && [b0] + [b1] == [b0, b1];
  }

  lemma AskedFraming(t: Transmission, q: Request)
    requires SentFor(t, q)
    ensures FramedAsAsked(t, q.txpk)
  {
    hide Screen, SetRfFrequency, SetModulationParams, SetTxParams, RegisterBytes, FromBe;
    ScreenedJob(q);
    TwoBytes(t.packetParams[0], t.packetParams[1]);
    assert t.packetParams[..2] == [t.packetParams[0], t.packetParams[1]];
  }

  lemma AskedPower(t: Transmission, q: Request)
    requires SentFor(t, q)
    ensures PoweredAsAsked(t, q.txpk)
  {
    hide Screen, SetRfFrequency, SetModulationParams, PacketBytes, WellSent;
    ScreenedJob(q);
  }

  /**
   A packet sent for a downlink is what the network server asked for, register by register:
   payload and carrier, data rate, framing and polarity, power and sync word.
   */
  lemma SentForIsAsAsked(t: Transmission, q: Request)
    requires SentFor(t, q)
    ensures CarriesWhatWasAsked(t, q.txpk) && DataRateAsAsked(t, q.txpk) && FramedAsAsked(t, q.txpk) && PoweredAsAsked(t, q.txpk)
  {
    hide *;
    AskedCarrier(t, q);
    AskedDataRate(t, q);
    AskedFraming(t, q);
    AskedPower(t, q);
  }

  lemma ScreenedJob(q: Request)
    requires Screen(q).Ok?
    ensures InRange(q.txpk.freqHz) && JobOf(q).payload == q.txpk.payload
    ensures JobOf(q).config == Job(q.txpk, None).config
  {}

  lemma NothingToSend(packets: seq<Transmission>, accepted: seq<Request>, out: seq<nat>)
    requires AllScreened(accepted) && Matches(packets, accepted, out)
    ensures |packets| <= 0 || |accepted| > 0
  {
    if packets != [] {
      assert out[0] < |accepted|;
    }
  }

  /** Leaving out the last accepted downlink, with its packet if it was sent. */
  lemma WithoutLast(packets: seq<Transmission>, accepted: seq<Request>, delays: seq<nat>, out: seq<nat>)
    requires accepted != [] && AllScreened(accepted) && Matches(packets, accepted, out) && |delays| == |accepted|
    ensures AllScreened(Init(accepted))
    ensures if out != [] && Last(out) == |accepted| - 1
            then && packets != [] && SentFor(Last(packets), Last(accepted)) && Matches(Init(packets), Init(accepted), Init(out))
                 && Init(TimesOf(accepted, delays, out)) == TimesOf(Init(accepted), Init(delays), Init(out))
                 && Last(TimesOf(accepted, delays, out)) == Last(accepted).nowMs + Last(delays)
            else Matches(packets, Init(accepted), out) && TimesOf(accepted, delays, out) == TimesOf(Init(accepted), Init(delays), out)
  {
    hide SentFor, Screen;
    assert forall r :: r in Init(accepted) ==> r in accepted;
    assert out != [] ==> forall j :: 0 <= j < |out| ==> out[j] <= Last(out);
  }

  lemma {:induction false} RegistersWithinOnAir(packets: seq<Transmission>, accepted: seq<Request>, delays: seq<nat>, out: seq<nat>, band: nat, lo: int, hi: int)
    requires AllScreened(accepted) && Matches(packets, accepted, out) && |delays| == |accepted|
    ensures DutyCycle.SumIn(RegisterBandLog(packets, TimesOf(accepted, delays, out), band), lo, hi)
            <= DutyCycle.SumIn(OnAir(accepted, delays, band), lo, hi)
    decreases |accepted|
  {
    hide SentFor, PacketAirtime, RegisterAirtime, BandOf, Band, Screen, DutyCycle.SumIn, AllScreened;
    if accepted == [] {
      NothingToSend(packets, accepted, out);
      DutyCycle.SumInOutside([], lo, hi);
    } else {
      hide Matches, TimesOf;
      var q := Last(accepted);
      WithoutLast(packets, accepted, delays, out);
      LastOnAir(OnAir(Init(accepted), Init(delays), band), DutyCycle.Charge(q.nowMs + Last(delays), PacketAirtime(q.txpk)), Band(q) == band, lo, hi);
      if out != [] && Last(out) == |accepted| - 1 {
        var t := Last(packets);
        RegistersWithinOnAir(Init(packets), Init(accepted), Init(delays), Init(out), band, lo, hi);
        SentForIsCharged(t, q);
        LastOnAir(RegisterBandLog(Init(packets), TimesOf(Init(accepted), Init(delays), Init(out)), band),
                  DutyCycle.Charge(q.nowMs + Last(delays), RegisterAirtime(t)), BandOf(t) == band, lo, hi);
      } else {
        RegistersWithinOnAir(packets, Init(accepted), Init(delays), out, band, lo, hi);
      }
    }
  }

  lemma LastOnAir(log: seq<DutyCycle.Charge>, c: DutyCycle.Charge, counts: bool, lo: int, hi: int)
    ensures DutyCycle.SumIn(log + (if counts then [c] else []), lo, hi)
            == DutyCycle.SumIn(log, lo, hi) + if counts && lo <= c.at < hi then c.airtime else 0
  {
    if counts {
      DutyCycle.SumInAppend(log, c, lo, hi);
    } else {
      assert log + [] == log;
    }
  }

  /**
   By the register bytes of the packets the chip sent, and at the times it sent them: a tracked
   sub-band keeps every closed window that leaves room for the longest delay.
   */
  lemma RegisterAirtimeOfBandIsWithinAllowance(reqs: seq<Request>, delays: seq<nat>, band: nat, most: nat,
                                               packets: seq<Transmission>, out: seq<nat>)
    requires Nondecreasing(reqs) && band in Run(reqs).0 && AllScreened(AcceptedOf(reqs)) && Matches(packets, AcceptedOf(reqs), out)
    requires |delays| == |AcceptedOf(reqs)| && UpTo(delays, most) && most <= DutyCycle.GUARANTEED_MS
    ensures BandAllowanceMs(band).Some?
    ensures DutyCycle.WindowSafe(RegisterBandLog(packets, TimesOf(AcceptedOf(reqs), delays, out), band),
                                 BandAllowanceMs(band).value, DutyCycle.GUARANTEED_MS - most)
  {
    hide Run, AcceptedOf, OnAir, RegisterBandLog, AllScreened, SentFor, UpTo, Nondecreasing;
    var window := DutyCycle.GUARANTEED_MS - most;
    TrackedBandIsSafeOnAir(reqs, delays, band, most, window);
    var log := RegisterBandLog(packets, TimesOf(AcceptedOf(reqs), delays, out), band);
    forall lo: int ensures DutyCycle.SumFrom(log, lo, window) <= BandAllowanceMs(band).value {
      RegistersWithinOnAir(packets, AcceptedOf(reqs), delays, out, band, lo, lo + window + 1);
      assert DutyCycle.SumFrom(OnAir(AcceptedOf(reqs), delays, band), lo, window) <= BandAllowanceMs(band).value;
    }
  }

  // ----- The task ------------------------------------------------------------

  /** The logs of all tracked sub-bands are safe. */
  ghost predicate TrackedBandsSafe(reqs: seq<Request>, delays: seq<nat>, packets: seq<Transmission>, out: seq<nat>, window: int)
    requires |delays| == |AcceptedOf(reqs)| && AllScreened(AcceptedOf(reqs)) && Matches(packets, AcceptedOf(reqs), out)
  {
    forall band :: band in Run(reqs).0 ==>
      && BandAllowanceMs(band).Some?
      && DutyCycle.WindowSafe(RegisterBandLog(packets, TimesOf(AcceptedOf(reqs), delays, out), band), BandAllowanceMs(band).value, window)
  }

  /** Of a length the radio takes. */
  predicate Sendable(q: Request) {
    1 <= |q.txpk.payload| <= HW_MAX_PAYLOAD_LEN
  }

  /** Every downlink taken up in time, of a length the radio takes, was sent. */
  ghost predicate AllServed(accepted: seq<Request>, pickups: seq<Pickup>, out: seq<nat>, n: nat)
    requires n <= |accepted| == |pickups|
  {
    forall i :: 0 <= i < n && pickups[i].taken && pickups[i].inTime && Sendable(accepted[i]) ==> i in out
  }

  /** One accepted downlink, if the channel had room for it. */
  method ServeOne(driver: Sx1262Driver, up: LoraConfig, ghost gw: HubTypes.GatewaySettings, q: Request, pickup: Pickup)
    requires driver.Valid() && driver.initialised && Screen(q).Ok? && up == UplinkConfig(gw)
    modifies driver`inContinuousRx, driver`config, driver.spi
    ensures driver.Valid() && driver.initialised && old(driver.spi.faults) <= driver.spi.faults
    ensures var before, after := old(driver.spi.chip).sent, driver.spi.chip.sent;
            || after == before
            || (pickup.taken && pickup.inTime && |after| == |before| + 1 && after[..|before|] == before && SentFor(Last(after), q))
    ensures driver.spi.faults == old(driver.spi.faults) && pickup.taken && pickup.inTime && Sendable(q) ==>
              driver.spi.chip.sent != old(driver.spi.chip).sent
  {
    hide Listening, WellSent, TuningOf, TuningFor, CutShort, Hears, Restored, SentWith, Screen;
    if pickup.taken {
      var job := JobOf(q);
      ScreenedJob(q);
      JobKeepsCrcOff(q, gw);
      ghost var x;
      var armed;
      armed, x := ServeDownlink(driver, up, job.config, job.payload, pickup.inTime);
    }
  }

  /** Brings the radio up and tunes it to the uplink channel. */
  method TuneIn(driver: Sx1262Driver, up: LoraConfig) returns (ready: Outcome)
    requires driver.Valid() && !driver.initialised
    modifies driver, driver.spi
    ensures driver.Valid() && driver.spi.chip.sent == old(driver.spi.chip).sent && (ready.Ok? ==> driver.initialised)
    ensures old(driver.spi.faults) <= driver.spi.faults && (driver.spi.faults == old(driver.spi.faults) ==> ready.Ok?)
  {
    hide Listening, WellSent, TuningOf, TuningFor, Play, Partway, ConfigureScript;
    ready := driver.Initialise();
    if ready.Ok? {
      ready := driver.Configure(up);
    }
    if ready.Ok? {
      var armed := driver.ArmReceive();
    }
  }

  /** Only what was taken up in time, of the first `n`. */
  ghost predicate InTime(pickups: seq<Pickup>, out: seq<nat>, n: nat) {
    n <= |pickups| && forall j :: 0 <= j < |out| ==> out[j] < n && pickups[out[j]].taken && pickups[out[j]].inTime
  }

  /** The loop of the task over the downlinks it is given. */
  method ServeQueue(driver: Sx1262Driver, gw: HubTypes.GatewaySettings, accepted: seq<Request>, pickups: seq<Pickup>)
    returns (ghost out: seq<nat>)
    requires driver.Valid() && driver.initialised && |pickups| == |accepted| && AllScreened(accepted)
    modifies driver`inContinuousRx, driver`config, driver.spi
    ensures driver.Valid() && driver.initialised
    ensures SentFrom(driver.spi.chip.sent, old(driver.spi.chip).sent, accepted, out) && InTime(pickups, out, |pickups|)
    ensures old(driver.spi.faults) <= driver.spi.faults
    ensures driver.spi.faults == old(driver.spi.faults) ==> AllServed(accepted, pickups, out, |accepted|)
  {
    ghost var first, faults := driver.spi.chip.sent, driver.spi.faults;
    out := [];
    NothingSentYet(first, accepted, pickups);
    hide Listening, WellSent, Screen, SentFor, SentFrom, AllServed, InTime, Sendable;
    for i := 0 to |accepted|
      invariant driver.Valid() && driver.initialised
      invariant SentFrom(driver.spi.chip.sent, first, accepted, out) && InTime(pickups, out, i)
      invariant faults <= driver.spi.faults && (driver.spi.faults == faults ==> AllServed(accepted, pickups, out, i))
    {
      ghost var earlier, before := out, driver.spi.chip.sent;
      ServeOne(driver, UplinkConfig(gw), gw, accepted[i], pickups[i]);
      if driver.spi.chip.sent != before {
        out := out + [i];
        OneMoreSent(before, driver.spi.chip.sent, first, accepted, pickups, earlier, i);
      }
      InTimeSoFar(pickups, out, i);
      if driver.spi.faults == faults {
        OneMoreServed(accepted, pickups, earlier, out, i);
      }
    }
  }

  /**
   The task: bring the radio up and tune it to the uplink channel, giving up if either fails;
   then serve the accepted downlinks it is given, whatever the bus does. With firing delays of
   at most `most` ms, the chip's registers say that each tracked sub-band keeps its allowance
   in every closed window of 59 minutes less that. If nothing on the bus fails, all that were
   taken up in time and can be sent are.
   */
  method ServeDownlinks(driver: Sx1262Driver, gw: HubTypes.GatewaySettings, accepted: seq<Request>, pickups: seq<Pickup>,
                        ghost reqs: seq<Request>, ghost delays: seq<nat>, ghost most: nat)
    returns (ghost out: seq<nat>)
    requires driver.Valid() && !driver.initialised && |pickups| == |accepted|
    requires accepted == AcceptedOf(reqs) && |delays| == |accepted| && UpTo(delays, most) && most <= DutyCycle.GUARANTEED_MS
    modifies driver, driver.spi
    ensures driver.Valid()
    ensures SentFrom(driver.spi.chip.sent, old(driver.spi.chip).sent, accepted, out) && InTime(pickups, out, |pickups|)
    ensures driver.spi.faults == old(driver.spi.faults) ==> driver.initialised && AllServed(accepted, pickups, out, |accepted|)
    ensures Nondecreasing(reqs) ==>
              TrackedBandsSafe(reqs, delays, driver.spi.chip.sent[|old(driver.spi.chip).sent|..], out, DutyCycle.GUARANTEED_MS - most)
  {
    hide Listening, WellSent, SentFor, Run, Nondecreasing, UpTo, TrackedBandsSafe;
    AcceptedIsSent(reqs);
    ghost var first := driver.spi.chip.sent;
    out := [];
    NothingSentYet(first, accepted, pickups);
    hide Screen, SentFrom, InTime, AllServed;
    var ready := TuneIn(driver, UplinkConfig(gw));
    if ready.Ok? {
      out := ServeQueue(driver, gw, accepted, pickups);
      InTimeSoFar(pickups, out, |pickups|);
    }
    SentFromParts(driver.spi.chip.sent, first, accepted, out);
    if Nondecreasing(reqs) {
      AllTrackedBandsSafe(reqs, delays, most, driver.spi.chip.sent[|first|..], out);
    }
  }

  lemma NothingSentYet(first: seq<Transmission>, accepted: seq<Request>, pickups: seq<Pickup>)
    requires AllScreened(accepted) && |pickups| == |accepted|
    ensures SentFrom(first, first, accepted, []) && AllServed(accepted, pickups, [], 0)
    ensures forall n: nat :: n <= |pickups| ==> InTime(pickups, [], n)
  {}

  /** What holds of the first `n` holds of the first `n + 1`. */
  lemma InTimeSoFar(pickups: seq<Pickup>, out: seq<nat>, n: nat)
    ensures InTime(pickups, out, n) && n < |pickups| ==> InTime(pickups, out, n + 1)
  {}

  lemma OneMoreServed(accepted: seq<Request>, pickups: seq<Pickup>, out: seq<nat>, out': seq<nat>, i: nat)
    requires i < |accepted| == |pickups| && AllServed(accepted, pickups, out, i) && out <= out'
    requires pickups[i].taken && pickups[i].inTime && Sendable(accepted[i]) ==> i in out'
    ensures AllServed(accepted, pickups, out', i + 1)
  {
    assert forall k :: k in out ==> k in out';
  }

  lemma SentFromParts(sent: seq<Transmission>, first: seq<Transmission>, accepted: seq<Request>, out: seq<nat>)
    requires SentFrom(sent, first, accepted, out)
    ensures |first| <= |sent| && AllScreened(accepted) && Matches(sent[|first|..], accepted, out)
  {}

  lemma AllTrackedBandsSafe(reqs: seq<Request>, delays: seq<nat>, most: nat, packets: seq<Transmission>, out: seq<nat>)
    requires Nondecreasing(reqs) && AllScreened(AcceptedOf(reqs)) && Matches(packets, AcceptedOf(reqs), out)
    requires |delays| == |AcceptedOf(reqs)| && UpTo(delays, most) && most <= DutyCycle.GUARANTEED_MS
    ensures TrackedBandsSafe(reqs, delays, packets, out, DutyCycle.GUARANTEED_MS - most)
  {
    hide Run, AcceptedOf, Nondecreasing, UpTo, SentFor, AllScreened, DutyCycle.WindowSafe;
    forall band | band in Run(reqs).0
      ensures BandAllowanceMs(band).Some?
      ensures DutyCycle.WindowSafe(RegisterBandLog(packets, TimesOf(AcceptedOf(reqs), delays, out), band),
                                   BandAllowanceMs(band).value, DutyCycle.GUARANTEED_MS - most)
    {
      RegisterAirtimeOfBandIsWithinAllowance(reqs, delays, band, most, packets, out);
    }
  }

  /** Downlinks go out without a CRC, the uplink channel is heard with one. */
  lemma JobKeepsCrcOff(q: Request, gw: HubTypes.GatewaySettings)
    requires Screen(q).Ok?
    ensures JobOf(q).config.crcOn != UplinkConfig(gw).crcOn
  {}

  /** The packet of the `i`-th downlink, if it was the next to go out. */
  lemma OneMoreSent(before: seq<Transmission>, after: seq<Transmission>, first: seq<Transmission>, accepted: seq<Request>, pickups: seq<Pickup>,
                    out: seq<nat>, i: nat)
    requires SentFrom(before, first, accepted, out) && i < |accepted| == |pickups| && InTime(pickups, out, i)
    requires |after| == |before| + 1 && after[..|before|] == before
    requires SentFor(Last(after), accepted[i]) && pickups[i].taken && pickups[i].inTime
    ensures SentFrom(after, first, accepted, out + [i]) && InTime(pickups, out + [i], i + 1) && i in out + [i]
  {
    hide SentFor;
    assert after[|first|..] == before[|first|..] + [Last(after)];
    assert after[..|first|] == before[..|first|];
    assert Last(out + [i]) == i;
  }
}
