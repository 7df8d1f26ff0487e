/**
 The gateway radio task (src/tasks/gateway.rs) over the SX1262 driver: it listens with the
 uplink configuration, leaves it for each downlink, and reconfigures afterwards without acting
 on a failure. Exactly when it still hears the uplink channel.
 */
module GatewayRadio {
  import opened Prelude
  import opened LoraTypes
  import opened Sx1262
  import opened Driver
  import Airtime
  import HubConfig
  import HubTypes

  /** The listen configuration of the gateway channel. */
  function UplinkConfig(gw: HubTypes.GatewaySettings): LoraConfig {
    DEFAULT_CONFIG.(frequencyHz := gw.frequencyHz, spreadingFactor := gw.spreadingFactor, bandwidthKhz := gw.bandwidthKhz,
                    codingRate := gw.codingRate, syncWord := Public, iqInverted := false, crcOn := true, preambleLen := 8)
  }

  /** The chip listens, on the channel and for the packets of this configuration. */
  ghost predicate Hears(c: Chip, config: LoraConfig) {
    Listening(c, Some(config)) && TuningOf(c) == TuningFor(config)
  }

  /**
   What that means on the uplink channel, register by register: the carrier, spreading factor,
   bandwidth and coding rate of the gateway's settings, the public LoRaWAN sync word, standard
   polarity, eight preamble symbols, explicit header, CRC, and no limit on the length.
   */
  ghost predicate ListensOn(c: Chip, gw: HubTypes.GatewaySettings) {
    && c.mode == ReceivingContinuous
    && CarrierHz(FromBe(c.frequency)) == gw.frequencyHz
    && |c.modulation| == 4 && c.modulation[0] == gw.spreadingFactor
    && BandwidthOfCode(c.modulation[1]) == Some(gw.bandwidthKhz * 1000)
    && c.modulation[2] == gw.codingRate - 4
    && (c.modulation[3] == 1 <==> Airtime.SlowSymbols(gw.spreadingFactor, gw.bandwidthKhz * 1000))
    && c.Register(SYNC_WORD_MSB) == 0x34 && c.Register(SYNC_WORD_LSB) == 0x44
    && c.Register(IQ_POLARITY) / 4 % 2 == 1
    && c.packetParams == [0, 8, 0, 255, 1, 0]
  }

  /** With valid gateway settings, a chip that hears the uplink configuration listens just so. */
  lemma HearsMeansListensOn(c: Chip, gw: HubTypes.GatewaySettings)
    requires HubConfig.GatewaySettingsValid(gw) && Hears(c, UplinkConfig(gw))
    ensures ListensOn(c, gw)
  {
    hide FromBe, CarrierHz, FrequencyRegister, Airtime.LdroEnabled, Airtime.SlowSymbols;
    var up := UplinkConfig(gw);
    BytesRoundTrip(FrequencyRegister(up.frequencyHz));
    CarrierRecoveredIff(up.frequencyHz);
    Airtime.LdroIsSlowSymbolsIff(up.spreadingFactor, up.bandwidthKhz);
  }

  /**
   A command that tunes the chip away from `up` is undone: either it did not land, or the
   same command of the reconfiguration landed after it, or both write the same.
   */
  predicate Restored(job: LoraConfig, up: LoraConfig, k: nat, j: nat) {
    var there, back := TuningFor(job), TuningFor(up);
    && (k >= 2 && there.frequency != back.frequency ==> j >= 2)
    && (k >= 4 && there.modulation != back.modulation ==> j >= 4)
    && (k >= 5 && there.syncMsb != back.syncMsb ==> j >= 5)
    && (k >= 6 && there.syncLsb != back.syncLsb ==> j >= 6)
    && (k >= 7 && there.iqInverted != back.iqInverted ==> j >= 7)
  }

  lemma RestoredIff(job: LoraConfig, up: LoraConfig, k: nat, j: nat)
    requires k <= 10 && j <= 10
    ensures CutShort(CutShort(TuningFor(up), job, k), up, j) == TuningFor(up) <==> Restored(job, up, k, j)
  {
    hide SetRfFrequency, SetModulationParams;
  }

  lemma HearsIff(c: Chip, stored: LoraConfig, up: LoraConfig)
    requires Listening(c, Some(stored))
    ensures Hears(c, up) <==> PacketBytes(Some(stored), HW_MAX_PAYLOAD_LEN) == PacketBytes(Some(up), HW_MAX_PAYLOAD_LEN) && TuningOf(c) == TuningFor(up)
  {}

  /** How one downlink went: commands of its `configure` that landed, and of the one back. */
  datatype Excursion = Excursion(k: nat, stored: bool, j: nat, back: bool)

  /** A downlink that keeps the CRC off leaves packet parameters the uplink channel never has. */
  lemma OtherPacketBytes(job: LoraConfig, up: LoraConfig)
    requires job.crcOn != up.crcOn
    ensures PacketBytes(Some(job), HW_MAX_PAYLOAD_LEN) != PacketBytes(Some(up), HW_MAX_PAYLOAD_LEN)
  {
    assert PacketBytes(Some(job), HW_MAX_PAYLOAD_LEN)[4] != PacketBytes(Some(up), HW_MAX_PAYLOAD_LEN)[4];
  }

  /**
   One turn of the task's loop with a downlink waiting, up to the next arming. From a chip
   tuned to the uplink channel, the armed chip hears it again exactly when the reconfiguration
   succeeded, or when it failed but so had the downlink's own `configure`, and every command
   that had tuned the chip away was undone. If nothing on the bus fails, the packet goes out and
   the chip hears the channel again. `inTime` says whether the downlink's moment had not
   passed; if it had, the radio is not touched for it.
   */
  method ServeDownlink(driver: Sx1262Driver, up: LoraConfig, job: LoraConfig, data: seq<u8>, inTime: bool)
    returns (armed: Outcome, ghost x: Excursion)
    requires driver.Valid() && driver.initialised && job.crcOn != up.crcOn
    modifies driver`inContinuousRx, driver`config, driver.spi
    ensures driver.Valid() && driver.initialised
    ensures var before, after := old(driver.spi.chip).sent, driver.spi.chip.sent;
            after == before || (inTime && |after| == |before| + 1 && after[..|before|] == before && SentWith(Last(after), job, data))
    ensures x.k <= 10 && x.j <= 10 && (x.back ==> x.j == 10) && (x.stored ==> x.k == 10) && (!inTime ==> x.k == 0 && !x.stored)
    ensures TuningOf(driver.spi.chip) == CutShort(CutShort(TuningOf(old(driver.spi.chip)), job, x.k), up, x.j)
    ensures driver.config == if x.back then Some(up) else if x.stored then Some(job) else old(driver.config)
    ensures armed.Ok? && old(driver.config) == Some(up) && TuningOf(old(driver.spi.chip)) == TuningFor(up) ==>
              (Hears(driver.spi.chip, up) <==> x.back || (!x.stored && Restored(job, up, x.k, x.j)))
    ensures armed.Ok? && x.back ==> Hears(driver.spi.chip, up)
    ensures old(driver.spi.faults) <= driver.spi.faults
    ensures driver.spi.faults == old(driver.spi.faults) ==>
              && armed.Ok? && x.back
              && (inTime && 1 <= |data| <= HW_MAX_PAYLOAD_LEN ==> driver.spi.chip.sent != old(driver.spi.chip).sent)
  {
    hide Step, Listening, Play, Partway, ConfigureScript, WellSent, PacketBytes, TuningOf, TuningFor, CutShort, SentWith, Hears, Restored;
    ghost var before := TuningOf(driver.spi.chip);
    ghost var k, stored := 0, false;
    NothingTuned(before, job);
    if inTime {
      ghost var was := driver.config;
      var sent;
      sent, k := ExecuteDownlink(driver, job, data);
      stored := driver.config != was;
    }
    ghost var c := driver.spi.chip;
    var back := driver.Configure(up);
    ghost var j := Landed(c, up, driver.spi.chip, back.Ok?);
    x := Excursion(k, stored, j, back.Ok?);
    armed := driver.ArmReceive();
    if armed.Ok? {
      HearsIff(driver.spi.chip, driver.config.value, up);
      NothingTuned(TuningOf(c), up);
      RestoredIff(job, up, k, j);
      OtherPacketBytes(job, up);
    }
  }
}
