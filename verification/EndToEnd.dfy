/**
 The airtime a budget is charged, against the packet the chip is told to send: both spenders
 of the budget, down to the register bytes.
 */
module EndToEnd {
  import opened Prelude
  import opened LoraTypes
  import opened Sx1262
  import Dispatch
  import DownlinkPolicy
  import Driver

  /** An accepted gateway downlink goes out with exactly the airtime its band was charged. */
  lemma DownlinkAirtimeIsWhatWasCharged(q: DownlinkPolicy.Request, t: Transmission)
    requires DownlinkPolicy.Screen(q).Ok? && 7 <= q.txpk.spreadingFactor <= 12
    requires var job := DownlinkPolicy.Screen(q).value; Driver.SentWith(t, job.config, job.payload)
    ensures |t.modulation| == 4 && BandwidthOfCode(t.modulation[1]).Some? && |t.packetParams| == 6
    ensures AirtimeOfRegisters(t.modulation, t.packetParams) == DownlinkPolicy.PacketAirtime(q.txpk)
  {
    ChargedAirtimeIsOnAirAirtime(DownlinkPolicy.Screen(q).value.config, |q.txpk.payload|);
  }

  /** So does a host transmission, while modem and driver hold the dispatcher's configuration. */
  lemma HostAirtimeIsWhatWasCharged(config: LoraConfig, before: Chip, data: seq<u8>, t: Transmission)
    requires Dispatch.PermittedConfig(config) && before.modulation == SetModulationParams(config).data
    requires Driver.SentAsStored(t, before, Some(config), data)
    ensures |t.modulation| == 4 && BandwidthOfCode(t.modulation[1]).Some? && |t.packetParams| == 6
    ensures AirtimeOfRegisters(t.modulation, t.packetParams) == Dispatch.PacketAirtime(config, |data|)
  {
    ChargedAirtimeIsOnAirAirtime(config, |data|);
  }

  /**
   A `configure` for another spreading factor that stops after its k-th command leaves the
   modem at the new one exactly when k is at least 4; the host's packets are then undercharged
   exactly when the new factor is the higher.
   */
  lemma CutShortConfigureUnderchargesIff(c: Chip, config: LoraConfig, sf: u8, iqRead: u8, k: nat, length: u8)
    requires Dispatch.PermittedConfig(config) && 7 <= sf <= 12
    requires c.modulation == SetModulationParams(config).data
    requires k <= 10
    ensures var modulation := Play(c, ConfigureScript(config.(spreadingFactor := sf), iqRead)[..k]).modulation;
            && |modulation| == 4 && BandwidthOfCode(modulation[1]).Some? && 7 <= modulation[0] <= 12
            && (Dispatch.PacketAirtime(config, length) < AirtimeOfRegisters(modulation, PacketBytes(Some(config), length))
                <==> k >= 4 && sf > config.spreadingFactor)
  {
    hide Play, ConfigureScript, AirtimeOfRegisters, Dispatch.PacketAirtime;
    var config' := config.(spreadingFactor := sf);
    CutShortConfigureModulation(c, config', iqRead, k);
    HostAirtime(config, length);
    HostAirtime(config', length);
    Dispatch.UnderchargedIffRadioIsSlower(config, sf, length);
    assert PacketBytes(Some(config), length) == PacketBytes(Some(config'), length);
  }

  lemma HostAirtime(config: LoraConfig, length: u8)
    requires Dispatch.PermittedConfig(config)
    ensures var modulation := SetModulationParams(config).data;
            && |modulation| == 4 && BandwidthOfCode(modulation[1]).Some? && 7 <= modulation[0] <= 12
            && AirtimeOfRegisters(modulation, PacketBytes(Some(config), length)) == Dispatch.PacketAirtime(config, length)
  {
    ChargedAirtimeIsOnAirAirtime(config, length);
  }

  lemma SamePacketBytes(config: LoraConfig, config': LoraConfig, length: u8)
    requires Dispatch.PermittedConfig(config) && Dispatch.PermittedConfig(config')
    ensures PacketBytes(Some(config), length) == PacketBytes(Some(config'), length)
  {}

  /** A packet charged at one configuration takes longer with this modulation. */
  ghost predicate Undercharged(charged: LoraConfig, modulation: seq<u8>, length: u8)
    requires Meaningful(modulation)
  {
    Dispatch.PacketAirtime(charged, length) < AirtimeOfRegisters(modulation, PacketBytes(Some(charged), length))
  }

  lemma AfterChange(c: Chip, config: LoraConfig, sf: u8, k: nat, ok: bool, length: u8)
    requires Dispatch.PermittedConfig(config) && 7 <= sf <= 12 && k <= 10 && (ok ==> k == 10)
    requires c.modulation == SetModulationParams(config).data
    ensures var modulation := Play(c, ConfigureScript(config.(spreadingFactor := sf), c.Register(IQ_POLARITY))[..k]).modulation;
            && Meaningful(modulation)
            && (Undercharged(if ok then config.(spreadingFactor := sf) else config, modulation, length)
                <==> !ok && k >= 4 && sf > config.spreadingFactor)
  {
    hide Play, ConfigureScript, AirtimeOfRegisters, Dispatch.PacketAirtime, SetModulationParams, PacketBytes;
    CutShortConfigureUnderchargesIff(c, config, sf, c.Register(IQ_POLARITY), k, length);
    CutShortConfigureModulation(c, config.(spreadingFactor := sf), c.Register(IQ_POLARITY), k);
    HostAirtime(config.(spreadingFactor := sf), length);
  }

  /**
   The driver's change of spreading factor, on whatever chip and however it ends: the packets
   the dispatcher goes on charging at the old factor are undercharged iff the change failed
   after its fourth command landed and was to a higher factor. `charged` is the configuration
   the dispatcher charges at from then on.
   */
  method ChangeSpreadingFactor(driver: Driver.Sx1262Driver, config: LoraConfig, sf: u8)
    returns (r: Driver.Outcome, charged: LoraConfig, ghost landed: nat)
    requires driver.Valid() && Dispatch.PermittedConfig(config) && 7 <= sf <= 12
    requires driver.spi.chip.modulation == SetModulationParams(config).data
    modifies driver`inContinuousRx, driver`config, driver.spi
    ensures driver.Valid() && landed <= 10 && (r.Ok? ==> landed == 10)
    ensures driver.spi.chip == Play(old(driver.spi.chip),
                                    ConfigureScript(config.(spreadingFactor := sf), old(driver.spi.chip).Register(IQ_POLARITY))[..landed])
    ensures charged == if r.Ok? then config.(spreadingFactor := sf) else config
    ensures Meaningful(driver.spi.chip.modulation)
    ensures forall length: u8 ::
              Undercharged(charged, driver.spi.chip.modulation, length) <==> r.Err? && landed >= 4 && sf > config.spreadingFactor
  {
    hide Play, Partway, ConfigureScript, Undercharged, SetModulationParams, Listening, WellSent, Meaningful;
    ghost var c := driver.spi.chip;
    r := driver.Configure(config.(spreadingFactor := sf));
    charged := if r.Ok? then config.(spreadingFactor := sf) else config;
    landed := Driver.Landed(c, config.(spreadingFactor := sf), driver.spi.chip, r.Ok?);
    AfterChange(c, config, sf, landed, r.Ok?, 0);
    forall length: u8
      ensures Undercharged(charged, driver.spi.chip.modulation, length) <==> r.Err? && landed >= 4 && sf > config.spreadingFactor
    {
      AfterChange(c, config, sf, landed, r.Ok?, length);
    }
  }
}
