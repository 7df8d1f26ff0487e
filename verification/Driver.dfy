/**
 The SX1262 driver (src/lora/driver.rs) over an SPI bus that may fail at any command: a failed
 write either reached the chip or did not, and the driver cannot tell which.
 */
module Driver {
  import opened Prelude
  import opened LoraTypes
  import opened Sx1262

  type Outcome = Result<(), LoraError>

  /** How many failures an answer of the bus stands for. */
  function Failures<T>(r: Result<T, LoraError>): nat {
    if r.Ok? then 0 else 1
  }

  /** A wait, a read or a write failed. */
  predicate BusFault<T>(r: Result<T, LoraError>) {
    r.Err? && r.error in {Timeout, BusyTimeout, SpiError}
  }

  /** An answer blames the bus if and only if something on it failed. */
  predicate FaultTold<T>(before: nat, after: nat, r: Result<T, LoraError>) {
    before <= after && (BusFault(r) <==> before < after)
  }

  class SpiBus {
    var chip: Chip
    /** The interrupt status the chip reported last, and how many waits, reads and writes have failed so far. */
    ghost var status: seq<u8>
    ghost var faults: nat

    constructor (chip: Chip)
      ensures this.chip == chip
    {
      this.chip := chip;
    }

    /** The bounded poll of the BUSY pin. */
    method WaitNotBusy() returns (r: Outcome)
      modifies this`faults
      ensures r.Err? ==> r.error == BusyTimeout
      ensures faults == old(faults) + Failures(r)
    {
      var busy: bool := *;
      if busy {
        faults := faults + 1;
      }
      return if busy then Err(BusyTimeout) else Ok(());
    }

    method Write(w: SpiWrite) returns (r: Outcome)
      modifies this`chip, this`faults
      ensures faults == old(faults) + Failures(r)
      ensures r.Ok? ==> chip == Step(old(chip), w)
      ensures r.Err? ==> r.error in {BusyTimeout, SpiError} && (chip == old(chip) || chip == Step(old(chip), w))
      ensures r == Err(BusyTimeout) ==> chip == old(chip)
    {
      r := WaitNotBusy();
      if r.Err? {
        return;
      }
      var fault: bool, landed: bool := *, *;
      if !fault || landed {
        chip := Step(chip, w);
      }
      if fault {
        faults := faults + 1;
      }
      return if fault then Err(SpiError) else Ok(());
    }

    /** The writes of one operation in order, stopping at the first failure. */
    method WriteAll(script: seq<SpiWrite>) returns (r: Outcome)
      modifies this`chip, this`faults
      ensures faults == old(faults) + Failures(r)
      ensures r.Ok? ==> chip == Play(old(chip), script)
      ensures r.Err? ==> r.error in {BusyTimeout, SpiError}
      ensures Partway(old(chip), script, chip)
      ensures Quiet(script) && |old(chip).buffer| == 256 ==>
                NothingSent(old(chip), chip) && chip.txBase == old(chip).txBase && |chip.buffer| == 256
      ensures KeepsTuning(script) ==> TuningOf(chip) == TuningOf(old(chip)) && chip.txParams == old(chip).txParams
    {
      hide Step, Quiet, KeepsTuning, TuningOf;
      ghost var c := chip;
      assert script[..0] == [];
      if KeepsTuning(script) {
        forall k: nat | k <= |script| {
          KeepsTuningPlay(c, script, k);
        }
      }
      if Quiet(script) && |c.buffer| == 256 {
        forall k: nat | k <= |script| {
          QuietPlay(c, script, k);
        }
      }
      for i := 0 to |script|
        invariant chip == Play(c, script[..i]) && faults == old(faults)
      {
        PlayPrefix(c, script, i);
        r := Write(script[i]);
        if r.Err? {
          assert chip == Play(c, script[..i]) || chip == Play(c, script[..i + 1]);
          return;
        }
      }
      assert script[..|script|] == script;
      return Ok(());
    }

    method ReadRegister(address: u16) returns (r: Result<u8, LoraError>)
      modifies this`faults
      ensures faults == old(faults) + Failures(r)
      ensures r.Ok? ==> r.value == chip.Register(address)
      ensures r.Err? ==> r.error in {BusyTimeout, SpiError}
    {
      var busy := WaitNotBusy();
      if busy.Err? {
        return Err(busy.error);
      }
      var fault: bool := *;
      if fault {
        faults := faults + 1;
        return Err(SpiError);
      }
      return Ok(chip.Register(address));
    }

    /** The interrupt status: TX_DONE as the chip has it, the other bits whatever they are. */
    method ReadIrqStatus() returns (r: Result<seq<u8>, LoraError>)
      modifies this`status, this`faults
      ensures faults == old(faults) + Failures(r)
      ensures r.Ok? ==> r.value == status && |status| == 2 && (TxDoneIn(status) <==> chip.txDone)
      ensures r.Err? ==> r.error in {BusyTimeout, SpiError}
    {
      r := ReadBytes(2);
      if r.Ok? {
        r := Ok([r.value[0], r.value[1] / 2 * 2 + if chip.txDone then 1 else 0]);
        status := r.value;
      }
    }

    /** Other status reads and buffer reads: whatever the chip answers. */
    method ReadBytes(count: nat) returns (r: Result<seq<u8>, LoraError>)
      modifies this`faults
      ensures faults == old(faults) + Failures(r)
      ensures r.Ok? ==> |r.value| == count
      ensures r.Err? ==> r.error in {BusyTimeout, SpiError}
    {
      var busy := WaitNotBusy();
      if busy.Err? {
        return Err(busy.error);
      }
      var fault: bool := *;
      var bytes: seq<u8> := *;
      if fault || |bytes| != count {
        faults := faults + 1;
        return Err(SpiError);
      }
      return Ok(bytes);
    }

    /**
     The wait for the DIO1 pin. Meanwhile a chip that transmits may end the transmission and
     drop to standby, raising TX_DONE if it ended as it should.
     */
    method Wait(timeoutMs: nat) returns (r: Outcome)
      modifies this`chip, this`faults
      ensures faults == old(faults) + Failures(r)
      ensures chip == old(chip) || (old(chip).mode == Transmitting && chip in {Aborted(old(chip)), Completed(old(chip))})
      ensures r.Err? ==> r.error == Timeout
    {
      var ends: bool, timedOut: bool, raises: bool := *, *, *;
      if ends && chip.mode == Transmitting {
        chip := if raises then Completed(chip) else Aborted(chip);
      }
      if timedOut {
        faults := faults + 1;
        return Err(Timeout);
      }
      return Ok(());
    }

    /** A hardware reset puts every register to some power-on value. */
    method Reset()
      modifies this`chip
      ensures NothingSent(old(chip), chip) && |chip.buffer| == 256 && chip.mode == StandbyRc
    {
      var powerOn: Chip := *;
      chip := powerOn.(sent := chip.sent, completed := chip.completed, buffer := seq(256, i => 0), mode := StandbyRc);
    }
  }

  class Sx1262Driver {
    const spi: SpiBus
    var initialised: bool
    var inContinuousRx: bool
    var config: Option<LoraConfig>

    /** What holds between any two operations, whatever failed before. */
    ghost predicate Valid()
      reads this, spi
    {
      && |spi.chip.buffer| == 256
      && (initialised ==> config.Some? && spi.chip.txBase == 0)
      && (inContinuousRx ==> initialised && Listening(spi.chip, config))
      && (forall t :: t in spi.chip.sent ==> WellSent(t))
    }

    constructor (spi: SpiBus)
      requires |spi.chip.buffer| == 256 && spi.chip.sent == []
      ensures Valid() && this.spi == spi && !initialised && !inContinuousRx && config.None?
    {
      this.spi := spi;
      initialised, inContinuousRx, config := false, false, None;
    }

    method SetStandby() returns (r: Outcome)
      requires Valid()
      modifies this`inContinuousRx, spi
      ensures FaultTold(old(spi.faults), spi.faults, r) && (r.Err? ==> BusFault(r))
      ensures Valid() && !inContinuousRx
      ensures NothingSent(old(spi.chip), spi.chip)
      ensures spi.chip == old(spi.chip) || spi.chip == Step(old(spi.chip), SET_STANDBY)
      ensures TuningOf(spi.chip) == TuningOf(old(spi.chip))
      ensures r.Ok? ==> spi.chip.mode == StandbyRc
    {
      inContinuousRx := false;
      r := spi.Write(SET_STANDBY);
    }

    /**
     On success the chip has played the whole script and the configuration is stored. On
     failure the stored configuration is the old one while the chip stopped partway.
     */
    method Configure(config': LoraConfig) returns (r: Outcome)
      requires Valid()
      modifies this`inContinuousRx, this`config, spi
      ensures FaultTold(old(spi.faults), spi.faults, r) && (r.Err? ==> BusFault(r))
      ensures Valid() && !inContinuousRx && NothingSent(old(spi.chip), spi.chip)
      ensures config == if r.Ok? then Some(config') else old(config)
      ensures r.Ok? ==> spi.chip == Play(old(spi.chip), ConfigureScript(config', old(spi.chip).Register(IQ_POLARITY)))
      ensures r.Err? ==> Partway(old(spi.chip), ConfigureScript(config', old(spi.chip).Register(IQ_POLARITY)), spi.chip)
      ensures spi.chip.txBase == old(spi.chip).txBase
    {
      hide Step, ConfigureHead, ConfigureTail, ConfigureScript, Listening, WellSent, Play, Partway, Quiet;
      inContinuousRx := false;
      ghost var c := spi.chip;
      ghost var iqPolarity := c.Register(IQ_POLARITY);
      ConfigureIsQuiet(config', 0);
      var head := ConfigureHead(config');
      r := spi.WriteAll(head);
      if r.Err? {
        HeadPartway(c, config', iqPolarity, spi.chip);
        return;
      }
      IqPolarityUntouched(c, config');
      var iq := spi.ReadRegister(IQ_POLARITY);
      if iq.Err? {
        WholeIsPartway(c, head);
        HeadPartway(c, config', iqPolarity, spi.chip);
        return Err(iq.error);
      }
      ConfigureIsQuiet(config', iq.value);
      var tail := ConfigureTail(config', iq.value);
      r := spi.WriteAll(tail);
      TailPartway(c, config', iqPolarity, spi.chip);
      if r.Err? {
        return;
      }
      config := Some(config');
    }

    /** Stages a transmission; `FireTx` starts it. */
    method PrepareTx(data: seq<u8>) returns (r: Outcome)
      requires Valid()
      modifies this`inContinuousRx, spi
      ensures FaultTold(old(spi.faults), spi.faults, r)
      ensures Valid() && NothingSent(old(spi.chip), spi.chip)
      ensures r.Ok? ==> !inContinuousRx && initialised && Staged(spi.chip, config, data)
      ensures r.Err? ==> r.error in {NotInitialised, InvalidConfig, BusyTimeout, SpiError}
      ensures TuningOf(spi.chip) == TuningOf(old(spi.chip)) && spi.chip.txParams == old(spi.chip).txParams
      ensures inContinuousRx ==> old(inContinuousRx)
      ensures r == Err(NotInitialised) <==> !initialised
      ensures r == Err(InvalidConfig) <==> initialised && !(1 <= |data| <= HW_MAX_PAYLOAD_LEN)
      ensures !initialised || !(1 <= |data| <= HW_MAX_PAYLOAD_LEN) ==> spi.chip == old(spi.chip) && inContinuousRx == old(inContinuousRx)
    {
      hide Step, PrepareScript, Listening, WellSent, Staged, TuningOf, KeepsTuning;
      if !initialised {
        return Err(NotInitialised);
      }
      if |data| == 0 || |data| > HW_MAX_PAYLOAD_LEN {
        return Err(InvalidConfig);
      }
      inContinuousRx := false;
      PrepareIsQuiet(config, data);
      PrepareAndReceiveKeepTuning(config, data);
      PrepareStages(spi.chip, config, data);
      r := spi.WriteAll(PrepareScript(config, data));
    }

    /** One SetTx. It follows a `PrepareTx` that returned Ok, with nothing else in between. */
    method FireTx(ghost data: seq<u8>) returns (r: Outcome)
      requires Valid() && !inContinuousRx && Staged(spi.chip, config, data)
      modifies spi
      ensures FaultTold(old(spi.faults), spi.faults, r)
      ensures Valid() && TuningOf(spi.chip) == TuningOf(old(spi.chip))
      ensures WellSent(old(spi.chip).Packet()) && old(spi.chip).Packet().payload == data
      ensures spi.chip.sent == old(spi.chip).sent + [old(spi.chip).Packet()] || (r.Err? && spi.chip.sent == old(spi.chip).sent)
      ensures spi.chip.completed == old(spi.chip).completed && !spi.chip.txDone
      ensures r.Err? ==> r.error in {BusyTimeout, SpiError}
    {
      StagedIsWellSent(spi.chip, config, data);
      r := spi.Write(SET_TX);
    }

    /** Waits for the end of a transmission started with the TX_DONE flag down. */
    method WaitTxDone() returns (r: Outcome)
      requires Valid() && !inContinuousRx && !spi.chip.txDone
      modifies spi
      ensures FaultTold(old(spi.faults), spi.faults, r)
      ensures Valid() && spi.chip.sent == old(spi.chip).sent && TuningOf(spi.chip) == TuningOf(old(spi.chip))
      ensures AnswerTells(old(spi.chip), spi.chip, r)
    {
      r := spi.Wait(10_000);
      if r.Err? {
        return;
      }
      var status := spi.ReadIrqStatus();
      if status.Err? {
        return Err(status.error);
      }
      r := spi.Write(SpiWrite(0x02, status.value));
      if r.Ok? && status.value[1] % 2 == 0 {
        r := Err(TransmitFailed);
      }
    }

    method Transmit(data: seq<u8>) returns (r: Outcome)
      requires Valid()
      modifies this`inContinuousRx, spi
      ensures FaultTold(old(spi.faults), spi.faults, r)
      ensures Valid()
      ensures AtMostOneSent(old(spi.chip), spi.chip, config, data, r) && config == old(config)
      ensures AnswerTells(old(spi.chip), spi.chip, r)
      ensures initialised && 1 <= |data| <= HW_MAX_PAYLOAD_LEN && !BusFault(r) ==> spi.chip.sent != old(spi.chip).sent
      ensures TuningOf(spi.chip) == TuningOf(old(spi.chip))
      ensures !initialised ==> r == Err(NotInitialised) && NothingSent(old(spi.chip), spi.chip)
      ensures initialised && !(1 <= |data| <= HW_MAX_PAYLOAD_LEN) ==> r == Err(InvalidConfig)
    {
      r := PrepareTx(data);
      if r.Err? {
        return;
      }
      r := FireTx(data);
      if r.Err? {
        return;
      }
      r := WaitTxDone();
    }

    /** Puts the radio into continuous receive. */
    method StartReceiveMode() returns (r: Outcome)
      requires |spi.chip.buffer| == 256 && forall t :: t in spi.chip.sent ==> WellSent(t)
      modifies this`inContinuousRx, spi
      ensures FaultTold(old(spi.faults), spi.faults, r) && (r.Err? ==> BusFault(r))
      ensures r.Ok? ==> Listening(spi.chip, config)
      ensures inContinuousRx == r.Ok?
      ensures TuningOf(spi.chip) == TuningOf(old(spi.chip))
      ensures NothingSent(old(spi.chip), spi.chip) && spi.chip.txBase == old(spi.chip).txBase && |spi.chip.buffer| == 256
    {
      hide Step, ReceiveScript, Listening, WellSent, TuningOf, KeepsTuning;
      inContinuousRx := false;
      ReceiveIsQuiet(config);
      PrepareAndReceiveKeepTuning(config, []);
      ReceiveListens(spi.chip, config);
      r := spi.WriteAll(ReceiveScript(config));
      if r.Ok? {
        inContinuousRx := true;
      }
    }

    /** A no-op when already listening; otherwise enters receive mode. */
    method ArmReceive() returns (r: Outcome)
      requires Valid()
      modifies this`inContinuousRx, spi
      ensures FaultTold(old(spi.faults), spi.faults, r) && (r.Err? && initialised ==> BusFault(r))
      ensures Valid() && NothingSent(old(spi.chip), spi.chip) && TuningOf(spi.chip) == TuningOf(old(spi.chip))
      ensures r.Ok? ==> initialised && inContinuousRx && Listening(spi.chip, config)
      ensures old(inContinuousRx) ==> r.Ok? && spi.chip == old(spi.chip)
      ensures !initialised ==> r == Err(NotInitialised)
    {
      hide Listening, WellSent;
      if !initialised {
        return Err(NotInitialised);
      }
      if !inContinuousRx {
        r := StartReceiveMode();
        return;
      }
      return Ok(());
    }

    /** Reads a received packet; the chip keeps listening, with at most its TX_DONE flag cleared. */
    method ReadPacket() returns (r: Result<seq<u8>, LoraError>)
      requires Valid()
      modifies spi
      ensures FaultTold(old(spi.faults), spi.faults, r)
      ensures Valid() && spi.chip in {old(spi.chip), old(spi.chip).(txDone := false)}
      ensures r.Ok? ==> RxDoneIn(spi.status) && !CrcErrorIn(spi.status)
      ensures r == Err(CrcError) ==> CrcErrorIn(spi.status)
      ensures r == Err(ReceiveFailed) ==> !RxDoneIn(spi.status) && !CrcErrorIn(spi.status)
      ensures r.Err? ==> r.error in {CrcError, ReceiveFailed, BusyTimeout, SpiError}
    {
      var status := spi.ReadIrqStatus();
      if status.Err? {
        return Err(status.error);
      }
      var cleared := spi.Write(SpiWrite(0x02, status.value));
      if cleared.Err? {
        return Err(cleared.error);
      }
      if status.value[1] / 0x40 % 2 == 1 {
        return Err(CrcError);
      }
      if status.value[1] / 0x02 % 2 == 0 {
        return Err(ReceiveFailed);
      }
      var buffered := spi.ReadBytes(2);
      if buffered.Err? {
        return Err(buffered.error);
      }
      r := spi.ReadBytes(buffered.value[0]);
      if r.Err? {
        return;
      }
      var signal := spi.ReadBytes(3);
      if signal.Err? {
        return Err(signal.error);
      }
    }

    /** Brings the radio up once; only a complete success marks it initialised. */
    method Initialise() returns (r: Outcome)
      requires Valid() && !initialised
      modifies this, spi
      ensures FaultTold(old(spi.faults), spi.faults, r) && (r.Err? ==> BusFault(r))
      ensures Valid() && NothingSent(old(spi.chip), spi.chip)
      ensures initialised == r.Ok?
      ensures r.Ok? ==> inContinuousRx && config == Some(DEFAULT_CONFIG) && TuningOf(spi.chip) == TuningFor(DEFAULT_CONFIG)
      ensures r.Err? ==> !inContinuousRx
    {
      hide Step, Listening, WellSent, Play, Partway, TuningOf, TuningFor, ConfigureScript;
      r := WakeAndSetUp();
      if r.Err? { return; }
      ConfiguredTuning(spi.chip, DEFAULT_CONFIG);
      r := Configure(DEFAULT_CONFIG);
      if r.Err? { return; }
      r := StartReceiveMode();
      if r.Err? { return; }
      initialised := true;
    }

    /** Reset, TCXO, calibration, PA clamp, RF switch, packet type and buffer bases. */
    method WakeAndSetUp() returns (r: Outcome)
      modifies spi
      ensures FaultTold(old(spi.faults), spi.faults, r) && (r.Err? ==> BusFault(r))
      ensures NothingSent(old(spi.chip), spi.chip) && |spi.chip.buffer| == 256
      ensures r.Ok? ==> spi.chip.txBase == 0
    {
      hide Step, Play, Quiet, Partway;
      spi.Reset();
      r := spi.WaitNotBusy();
      if r.Err? { return; }
      BootScriptsAreQuiet(0);
      r := spi.WriteAll(WakeScript());
      if r.Err? { return; }
      r := spi.WaitNotBusy();
      if r.Err? { return; }
      r := spi.WriteAll([CLEAR_DEVICE_ERRORS]);
      if r.Err? { return; }
      var clamp := spi.ReadRegister(TX_CLAMP_CONFIG);
      if clamp.Err? { return Err(clamp.error); }
      BootScriptsAreQuiet(clamp.value);
      r := spi.WriteAll(SetupScript(clamp.value));
      if r.Err? { return; }
      r := SetBufferBase();
    }

    method SetBufferBase() returns (r: Outcome)
      modifies spi
      ensures FaultTold(old(spi.faults), spi.faults, r) && (r.Err? ==> BusFault(r))
      ensures NothingSent(old(spi.chip), spi.chip) && spi.chip.buffer == old(spi.chip).buffer
      ensures r.Ok? ==> spi.chip.txBase == 0
    {
      r := spi.Write(SpiWrite(0x8F, [0x00, 0x00]));
    }
  }

  /** A packet shaped by exactly this configuration. */
  ghost predicate SentWith(t: Transmission, config: LoraConfig, data: seq<u8>) {
    && WellSent(t) && t.payload == data
    && t.modulation == SetModulationParams(config).data
    && t.packetParams == PacketBytes(Some(config), |data|)
    && t.frequency == SetRfFrequency(config.frequencyHz).data
    && t.txParams == SetTxParams(config.txPowerDbm).data
    && t.syncWord == RegisterBytes(config.syncWord)
    && (t.iqPolarity / 4 % 2 == 0 <==> config.iqInverted)
  }

  /** Unless a wait, a read or a write failed, Ok is answered if and only if the chip raised TX_DONE. */
  ghost predicate AnswerTells(before: Chip, after: Chip, r: Outcome) {
    && before.completed <= after.completed <= before.completed + 1
    && (!BusFault(r) ==> (r.Ok? <==> after.completed == before.completed + 1))
    && (r.Err? && !BusFault(r) ==> r.error in {NotInitialised, InvalidConfig, TransmitFailed})
  }

  /**
   The gateway task's use of the driver: reconfigure, stage, fire, wait. `landed` is how many
   of the commands of `configure` reached the chip.
   */
  method ExecuteDownlink(driver: Sx1262Driver, config: LoraConfig, data: seq<u8>) returns (r: Outcome, ghost landed: nat)
    requires driver.Valid()
    modifies driver`inContinuousRx, driver`config, driver.spi
    ensures driver.Valid() && !driver.inContinuousRx
    ensures var before, after := old(driver.spi.chip).sent, driver.spi.chip.sent;
            || (after == before && r.Err?)
            || (|after| == |before| + 1 && after[..|before|] == before && SentWith(Last(after), config, data))
    ensures FaultTold(old(driver.spi.faults), driver.spi.faults, r) && AnswerTells(old(driver.spi.chip), driver.spi.chip, r)
    ensures old(driver.initialised) && 1 <= |data| <= HW_MAX_PAYLOAD_LEN && !BusFault(r) ==>
              driver.spi.chip.sent != old(driver.spi.chip).sent
    ensures landed <= 10 && TuningOf(driver.spi.chip) == CutShort(TuningOf(old(driver.spi.chip)), config, landed)
    ensures driver.config == old(driver.config) || (driver.config == Some(config) && landed == 10)
  {
    hide Step, Listening, Play, Partway, ConfigureScript, WellSent, SetModulationParams, PacketBytes, TuningOf, TuningFor, CutShort;
    ghost var c := driver.spi.chip;
    r := driver.Configure(config);
    landed := Landed(c, config, driver.spi.chip, r.Ok?);
    if r.Err? {
      return;
    }
    NothingTuned(TuningOf(c), config);
    ConfigureSetsPower(c, config, c.Register(IQ_POLARITY));
    r := driver.PrepareTx(data);
    if r.Err? {
      return;
    }
    PacketAsConfigured(driver.spi.chip, config, data);
    r := driver.FireTx(data);
    if r.Err? {
      return;
    }
    r := driver.WaitTxDone();
  }

  /** How many commands of a `configure` landed, and what they tuned. */
  lemma Landed(c: Chip, config: LoraConfig, c': Chip, whole: bool) returns (k: nat)
    requires var script := ConfigureScript(config, c.Register(IQ_POLARITY));
             if whole then c' == Play(c, script) else Partway(c, script, c')
    ensures k <= 10 && (whole ==> k == 10) && c' == Play(c, ConfigureScript(config, c.Register(IQ_POLARITY))[..k])
    ensures TuningOf(c') == CutShort(TuningOf(c), config, k)
  {
    hide Play, ConfigureScript, TuningOf, CutShort;
    var script := ConfigureScript(config, c.Register(IQ_POLARITY));
    if whole {
      k := 10;
      assert script[..10] == script;
    } else {
      k :| k <= |script| && c' == Play(c, script[..k]);
    }
    CutShortConfigureTuning(c, config, c.Register(IQ_POLARITY), k);
  }

  lemma ConfiguredTuning(c: Chip, config: LoraConfig)
    ensures TuningOf(Play(c, ConfigureScript(config, c.Register(IQ_POLARITY)))) == TuningFor(config)
  {
    hide Play, ConfigureScript, TuningOf, CutShort, TuningFor;
    var k := Landed(c, config, Play(c, ConfigureScript(config, c.Register(IQ_POLARITY))), true);
    NothingTuned(TuningOf(c), config);
  }

  lemma TunedModulation(c: Chip, config: LoraConfig)
    requires TuningOf(c) == TuningFor(config)
    ensures c.modulation == SetModulationParams(config).data
  {}

  /** The packet a chip would send once it has the configuration's tuning and power and the payload staged. */
  lemma PacketAsConfigured(c: Chip, config: LoraConfig, data: seq<u8>)
    requires TuningOf(c) == TuningFor(config) && c.txParams == SetTxParams(config.txPowerDbm).data && Staged(c, Some(config), data)
    ensures SentWith(c.Packet(), config, data)
  {
    hide SetModulationParams, SetRfFrequency, SetTxParams, RegisterBytes, PacketBytes, IrqBytes;
    StagedIsWellSent(c, Some(config), data);
  }

  lemma SameModulation(c: Chip, c': Chip)
    requires TuningOf(c) == TuningOf(c')
    ensures c'.modulation == c.modulation && c'.frequency == c.frequency
  {}

  // ----- Whole runs ----------------------------------------------------------

  datatype Op = BringUp | Configure(config: LoraConfig) | Transmit(data: seq<u8>) | Downlink(config: LoraConfig, data: seq<u8>)
              | Arm | Read | Standby

  ghost predicate Requests(op: Op, data: seq<u8>) {
    (op.Transmit? || op.Downlink?) && op.data == data
  }

  /** Packets matched with the operations that asked for them: in order, each with its own. */
  ghost predicate Matched(ops: seq<Op>, packets: seq<Transmission>, askers: seq<nat>) {
    && |askers| == |packets|
    && (forall j, k :: 0 <= j < k < |askers| ==> askers[j] < askers[k])
    && (forall j :: 0 <= j < |askers| ==> askers[j] < |ops| && Requests(ops[askers[j]], packets[j].payload))
  }

  lemma OneMoreOperation(ops: seq<Op>, i: nat, packets: seq<Transmission>, askers: seq<nat>)
    requires i < |ops| && Matched(ops[..i], packets, askers)
    ensures Matched(ops[..i + 1], packets, askers)
    ensures forall t: Transmission :: Requests(ops[i], t.payload) ==> Matched(ops[..i + 1], packets + [t], askers + [i])
  {
    hide Requests;
    assert ops[..i] == ops[..i + 1][..i];
  }

  /**
   Any sequence of operations, each failing wherever it may: the invariant holds throughout,
   and the chip has sent only well-formed packets, in the order of the operations that asked
   for them and at most one for each. `askers` says which operation each packet belongs to.
   */
  method Operate(driver: Sx1262Driver, ops: seq<Op>) returns (ghost askers: seq<nat>)
    requires driver.Valid()
    modifies driver, driver.spi
    ensures driver.Valid()
    ensures var before, after := old(driver.spi.chip).sent, driver.spi.chip.sent;
            && |before| <= |after| && after[..|before|] == before
            && Matched(ops, after[|before|..], askers)
            && (forall t :: t in after ==> WellSent(t))
  {
    hide Step, Listening, WellSent, Staged, Matched, TuningOf, TuningFor;
    ghost var before := driver.spi.chip.sent;
    askers := [];
    NothingAsked(ops, driver.spi.chip.sent[|before|..]);
    for i := 0 to |ops|
      invariant driver.Valid()
      invariant |before| <= |driver.spi.chip.sent| && driver.spi.chip.sent[..|before|] == before
      invariant Matched(ops[..i], driver.spi.chip.sent[|before|..], askers)
    {
      ghost var sent := driver.spi.chip.sent;
      var r: Outcome;
      match ops[i] {
        case BringUp =>
          if !driver.initialised { r := driver.Initialise(); }
        case Configure(config) => r := driver.Configure(config);
        case Transmit(data) => r := driver.Transmit(data);
        case Downlink(config, data) => ghost var landed; r, landed := ExecuteDownlink(driver, config, data);
        case Arm => r := driver.ArmReceive();
        case Read => var packet := driver.ReadPacket();
        case Standby => r := driver.SetStandby();
      }
      ghost var sent' := driver.spi.chip.sent;
      assert sent' == sent || (|sent'| == |sent| + 1 && sent'[..|sent|] == sent && Requests(ops[i], Last(sent').payload));
      OneMoreOperation(ops, i, sent[|before|..], askers);
      if sent' != sent {
        askers := askers + [i];
        assert sent'[|before|..] == sent[|before|..] + [Last(sent')];
        assert sent'[..|before|] == sent[..|before|];
      }
    }
    assert ops[..|ops|] == ops;
  }

  lemma NothingAsked(ops: seq<Op>, packets: seq<Transmission>)
    requires packets == []
    ensures Matched(ops[..0], packets, [])
  {}

  /**
   At most one packet went on the air: the given one, with the modulation the chip had and the
   stored configuration's packet parameters; and exactly one if success is reported.
   */
  ghost predicate AtMostOneSent(before: Chip, after: Chip, stored: Option<LoraConfig>, data: seq<u8>, r: Outcome) {
    || (r.Err? && after.sent == before.sent)
    || (|after.sent| == |before.sent| + 1 && after.sent[..|before.sent|] == before.sent && SentAsStored(Last(after.sent), before, stored, data))
  }

  ghost predicate SentAsStored(t: Transmission, before: Chip, stored: Option<LoraConfig>, data: seq<u8>) {
    WellSent(t) && t.payload == data && t.modulation == before.modulation && t.packetParams == PacketBytes(stored, |data|)
  }

  lemma WholeIsPartway(c: Chip, script: seq<SpiWrite>)
    ensures Partway(c, script, Play(c, script))
  {
    assert script[..|script|] == script;
  }

  lemma IqPolarityUntouched(c: Chip, config: LoraConfig)
    ensures Play(c, ConfigureHead(config)).Register(IQ_POLARITY) == c.Register(IQ_POLARITY)
  {
    AfterConfigureHead(c, config);
  }

  /** Partway through the first half of `configure` is partway through it all. */
  lemma HeadPartway(c: Chip, config: LoraConfig, iqRead: u8, c': Chip)
    requires Partway(c, ConfigureHead(config), c')
    ensures Partway(c, ConfigureScript(config, iqRead), c')
  {
    hide Play, ConfigureHead, ConfigureTail;
    var head := ConfigureHead(config);
    var k: nat :| k <= |head| && c' == Play(c, head[..k]);
    assert ConfigureScript(config, iqRead)[..k] == head[..k];
  }

  /** So is partway through the second half, after the first. */
  lemma TailPartway(c: Chip, config: LoraConfig, iqRead: u8, c': Chip)
    requires Partway(Play(c, ConfigureHead(config)), ConfigureTail(config, iqRead), c')
    ensures Partway(c, ConfigureScript(config, iqRead), c')
    ensures Play(c, ConfigureScript(config, iqRead)) == Play(Play(c, ConfigureHead(config)), ConfigureTail(config, iqRead))
  {
    hide Play, ConfigureHead, ConfigureTail;
    var head, tail := ConfigureHead(config), ConfigureTail(config, iqRead);
    var k: nat :| k <= |tail| && c' == Play(Play(c, head), tail[..k]);
    PlayConcat(c, head, tail[..k]);
    PlayConcat(c, head, tail);
    assert ConfigureScript(config, iqRead)[..|head| + k] == head + tail[..k];
  }
}
