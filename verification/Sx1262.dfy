/**
 The SX1262 as seen over SPI: what each command does to the chip, the command scripts the
 driver plays (src/lora/driver.rs), and what a script achieves when it is played to the end
 or cut short at any command.
 */
module Sx1262 {
  import opened Prelude
  import opened LoraTypes
  import opened Airtime

  const HW_MAX_PAYLOAD_LEN: u8 := 255
  const IRQ_TX_DONE: u16 := 0x0001
  const IRQ_RX: u16 := 0x0242 // RX_DONE | TIMEOUT | CRC_ERR
  const OCP_CONFIGURATION: u16 := 0x08E7
  const TX_CLAMP_CONFIG: u16 := 0x08D8
  const SYNC_WORD_MSB: u16 := 0x0740
  const SYNC_WORD_LSB: u16 := 0x0741
  const IQ_POLARITY: u16 := 0x0736
  const CURRENT_LIMIT_MA: nat := 140

  // ----- The chip ------------------------------------------------------------

  datatype Mode = StandbyRc | Transmitting | ReceivingContinuous | ReceivingOnce

  /** One SPI write: opcode and data bytes. */
  datatype SpiWrite = SpiWrite(opcode: u8, data: seq<u8>)

  /** A packet the chip was told to send, with the registers that shape it. */
  datatype Transmission = Transmission(
    payload: seq<u8>,
    packetParams: seq<u8>,
    modulation: seq<u8>,
    irqParams: seq<u8>,
    frequency: seq<u8>,
    txParams: seq<u8>,
    syncWord: (u8, u8),
    iqPolarity: u8)

  /**
   The registers that matter here, the TX_DONE flag, and two histories: the packets the chip
   was told to send, and how many transmissions ended with TX_DONE raised.
   */
  datatype Chip = Chip(
    mode: Mode,
    frequency: seq<u8>,
    modulation: seq<u8>,
    packetParams: seq<u8>,
    irqParams: seq<u8>,
    txParams: seq<u8>,
    txBase: u8,
    buffer: seq<u8>,
    registers: map<u16, u8>,
    ocpDefault: u8,
    txDone: bool,
    sent: seq<Transmission>,
    completed: nat)
  {
    function Register(address: u16): u8 {
      if address in registers then registers[address] else 0
    }

    /** The length byte of the packet parameters. */
    function LengthByte(): nat {
      if |packetParams| > 3 then packetParams[3] else 0
    }

    /** The bytes SetTx would send: as many as the length byte says, from the TX base on. */
    function Outgoing(): seq<u8> {
      if txBase + LengthByte() <= |buffer| then buffer[txBase..txBase + LengthByte()] else []
    }

    /** The packet SetTx would send. */
    function Packet(): Transmission {
      Transmission(Outgoing(), packetParams, modulation, irqParams, frequency, txParams,
                   (Register(SYNC_WORD_MSB), Register(SYNC_WORD_LSB)), Register(IQ_POLARITY))
    }
  }

  function Overwrite(buffer: seq<u8>, offset: nat, data: seq<u8>): seq<u8> {
    buffer[..Min(offset, |buffer|)] + data + buffer[Min(offset + |data|, |buffer|)..]
  }

  function Address(msb: int, lsb: int): u16
    requires 0 <= msb < 0x100 && 0 <= lsb < 0x100
  {
    msb * 0x100 + lsb
  }

  /** TX_DONE is bit 0 of the 16-bit interrupt status. */
  predicate TxDoneIn(status: seq<u8>)
    requires |status| == 2
  {
    status[1] % 2 == 1
  }

  /** RX_DONE is bit 1, CRC_ERR bit 6. */
  predicate RxDoneIn(status: seq<u8>) {
    |status| == 2 && status[1] / 2 % 2 == 1
  }

  predicate CrcErrorIn(status: seq<u8>) {
    |status| == 2 && status[1] / 64 % 2 == 1
  }

  function Step(c: Chip, w: SpiWrite): Chip {
    match w.opcode
    case 0x80 => c.(mode := StandbyRc)
    case 0x82 => c.(mode := if w.data == [0xFF, 0xFF, 0xFF] then ReceivingContinuous else ReceivingOnce)
    case 0x83 => c.(mode := Transmitting, sent := c.sent + [c.Packet()])
    case 0x86 => c.(frequency := w.data)
    case 0x8B => c.(modulation := w.data)
    case 0x8C => c.(packetParams := w.data)
    case 0x08 => c.(irqParams := w.data)
    case 0x8E => c.(txParams := w.data)
    // SetPaConfig puts the over-current limit back to its default.
    case 0x95 => c.(registers := c.registers[OCP_CONFIGURATION := c.ocpDefault])
    case 0x8F => if |w.data| == 2 then c.(txBase := w.data[0]) else c
    case 0x0D => if |w.data| == 3 then c.(registers := c.registers[Address(w.data[0], w.data[1]) := w.data[2]]) else c
    case 0x0E => if |w.data| >= 1 then c.(buffer := Overwrite(c.buffer, w.data[0], w.data[1..])) else c
    case 0x02 => if |w.data| == 2 && TxDoneIn(w.data) then c.(txDone := false) else c
    // Calibration, TCXO, regulator, packet type and RF switch touch none of the above.
    case _ => c
  }

  /** A transmission that ends otherwise than it should, and one that ends with TX_DONE. */
  function Aborted(c: Chip): Chip {
    c.(mode := StandbyRc)
  }

  function Completed(c: Chip): Chip {
    c.(mode := StandbyRc, txDone := true, completed := c.completed + 1)
  }

  /** Neither history has moved. */
  ghost predicate NothingSent(before: Chip, after: Chip) {
    after.sent == before.sent && after.completed == before.completed
  }

  function Play(c: Chip, script: seq<SpiWrite>): Chip {
    if script == [] then c else Step(Play(c, Init(script)), Last(script))
  }

  /** The chip after some number of the script's commands have landed. */
  ghost predicate Partway(c: Chip, script: seq<SpiWrite>, c': Chip) {
    exists k: nat :: k <= |script| && c' == Play(c, script[..k])
  }

  // ----- The bytes the driver writes -----------------------------------------

  function ToBe32(r: u32): seq<u8> {
    [r / 0x100_0000, r / 0x1_0000 % 0x100, r / 0x100 % 0x100, r % 0x100]
  }

  function ToBe16(r: u16): seq<u8> {
    [r / 0x100, r % 0x100]
  }

  function WriteRegister(address: u16, value: u8): SpiWrite {
    SpiWrite(0x0D, ToBe16(address) + [value])
  }

  const SET_STANDBY: SpiWrite := SpiWrite(0x80, [0x00])
  const SET_TX: SpiWrite := SpiWrite(0x83, [0x00, 0x00, 0x00])
  const SET_RX_CONTINUOUS: SpiWrite := SpiWrite(0x82, [0xFF, 0xFF, 0xFF])

  function FrequencyRegister(freqHz: u32): u32 {
    freqHz * 0x200_0000 / 32_000_000 % U32_SIZE
  }

  function SetRfFrequency(freqHz: u32): SpiWrite {
    SpiWrite(0x86, ToBe32(FrequencyRegister(freqHz)))
  }

  function CalibrateImage(freqHz: u32): SpiWrite {
    SpiWrite(0x98,
             if 430_000_000 <= freqHz <= 440_000_000 then [0x6B, 0x6F]
             else if 470_000_000 <= freqHz <= 510_000_000 then [0x75, 0x81]
             else if 779_000_000 <= freqHz <= 787_000_000 then [0xC1, 0xC5]
             else if 863_000_000 <= freqHz <= 870_000_000 then [0xD7, 0xDB]
             else if 902_000_000 <= freqHz <= 928_000_000 then [0xE1, 0xE9]
             else [0xD7, 0xDB])
  }

  /** A range given by its ends in steps of 4 MHz. */
  predicate InSteps(freqHz: nat, first: int, last: int) {
    first * 4_000_000 <= freqHz <= last * 4_000_000
  }

  /**
   The calibrated range, given in steps of 4 MHz, contains the frequency exactly in these bands;
   what is outside all five gets the range of the European one.
   */
  lemma ImageCalibratedIff(freqHz: u32)
    ensures var data := CalibrateImage(freqHz).data;
            |data| == 2 &&
            (InSteps(freqHz, data[0], data[1])
             <==> || 430_000_000 <= freqHz <= 440_000_000
                  || 470_000_000 <= freqHz <= 510_000_000
                  || 779_000_000 <= freqHz <= 787_000_000
                  || 860_000_000 <= freqHz <= 876_000_000
                  || 902_000_000 <= freqHz <= 928_000_000)
  {}

  function BandwidthCode(bandwidthKhz: u32): u8 {
    match bandwidthKhz
    case 7 => 0x00
    case 8 => 0x00
    case 10 => 0x08
    case 15 => 0x01
    case 16 => 0x01
    case 20 => 0x09
    case 21 => 0x09
    case 31 => 0x02
    case 41 => 0x0A
    case 42 => 0x0A
    case 62 => 0x03
    case 63 => 0x03
    case 125 => 0x04
    case 250 => 0x05
    case 500 => 0x06
    case _ => 0x04
  }

  function CodingRateCode(codingRate: u8): u8 {
    match codingRate
    case 5 => 0x01
    case 6 => 0x02
    case 7 => 0x03
    case 8 => 0x04
    case _ => 0x01
  }

  function SetModulationParams(config: LoraConfig): SpiWrite {
    SpiWrite(0x8B, [config.spreadingFactor, BandwidthCode(config.bandwidthKhz), CodingRateCode(config.codingRate),
                    if LdroEnabled(config.spreadingFactor, config.bandwidthKhz) then 0x01 else 0x00])
  }

  /** Packet parameters from the stored configuration; `None` before the first one. */
  function PacketBytes(stored: Option<LoraConfig>, payloadLen: u8): seq<u8> {
    var config := if stored.Some? then stored.value else DEFAULT_CONFIG.(preambleLen := 8, crcOn := true, iqInverted := false);
    ToBe16(config.preambleLen) + [0x00, payloadLen, if config.crcOn then 1 else 0, if config.iqInverted then 1 else 0]
  }

  function IrqBytes(mask: u16): seq<u8> {
    ToBe16(mask) + ToBe16(mask) + [0x00, 0x00, 0x00, 0x00]
  }

  function FixedIqPolarity(value: u8, iqInverted: bool): u8 {
    if iqInverted then (if value / 4 % 2 == 1 then value - 4 else value)
    else (if value / 4 % 2 == 1 then value else value + 4)
  }

  /** The arithmetic above is the code's masking of bit 2. */
  lemma IqMasking(value: bv8)
    ensures FixedIqPolarity(value as int, true) == (value & !4) as int
    ensures FixedIqPolarity(value as int, false) == (value | 4) as int
  {}

  function SetTxParams(powerDbm: i8): SpiWrite {
    SpiWrite(0x8E, [if powerDbm < 0 then 256 + powerDbm else powerDbm, 0x04])
  }

  function OcpValue(currentMa: nat): u8 {
    Min(currentMa * 10 / 25, 63)
  }

  // ----- The scripts ---------------------------------------------------------

  function ConfigureHead(config: LoraConfig): (script: seq<SpiWrite>)
    ensures |script| == 6
  {
    [SET_STANDBY,
     SetRfFrequency(config.frequencyHz),
     CalibrateImage(config.frequencyHz),
     SetModulationParams(config),
     WriteRegister(SYNC_WORD_MSB, RegisterBytes(config.syncWord).0),
     WriteRegister(SYNC_WORD_LSB, RegisterBytes(config.syncWord).1)]
  }

  /** The rest of `configure`, after the IQ polarity register was read as `iqRead`. */
  function ConfigureTail(config: LoraConfig, iqRead: u8): (script: seq<SpiWrite>)
    ensures |script| == 4
  {
    [WriteRegister(IQ_POLARITY, FixedIqPolarity(iqRead, config.iqInverted)),
     SpiWrite(0x95, [0x04, 0x07, 0x00, 0x01]),
     WriteRegister(OCP_CONFIGURATION, OcpValue(CURRENT_LIMIT_MA)),
     SetTxParams(config.txPowerDbm)]
  }

  /** All ten commands of `configure`, the IQ polarity register reading `iqRead`. */
  function ConfigureScript(config: LoraConfig, iqRead: u8): (script: seq<SpiWrite>)
    ensures |script| == 10
  {
    ConfigureHead(config) + ConfigureTail(config, iqRead)
  }

  function PrepareScript(stored: Option<LoraConfig>, data: seq<u8>): seq<SpiWrite>
    requires |data| <= HW_MAX_PAYLOAD_LEN
  {
    [SET_STANDBY,
     SpiWrite(0x8C, PacketBytes(stored, |data|)),
     SpiWrite(0x0E, [0x00] + data),
     SpiWrite(0x08, IrqBytes(IRQ_TX_DONE)),
     SpiWrite(0x02, [0xFF, 0xFF])]
  }

  function ReceiveScript(stored: Option<LoraConfig>): seq<SpiWrite> {
    [SET_STANDBY,
     SpiWrite(0x8C, PacketBytes(stored, HW_MAX_PAYLOAD_LEN)),
     SpiWrite(0x08, IrqBytes(IRQ_RX)),
     SpiWrite(0x02, [0xFF, 0xFF]),
     SET_RX_CONTINUOUS]
  }

  /** Up to the full calibration: standby, DC-DC regulator, TCXO, calibrate. */
  function WakeScript(): seq<SpiWrite> {
    [SET_STANDBY, SpiWrite(0x96, [0x01]), SpiWrite(0x97, [0x02, 0x00, 0x01, 0x40]), SpiWrite(0x89, [0x7F])]
  }

  const CLEAR_DEVICE_ERRORS: SpiWrite := SpiWrite(0x07, [0x00, 0x00])

  /** The PA clamp erratum, RF switch and packet type, after the clamp register was read. */
  function SetupScript(clampRead: u8): seq<SpiWrite> {
    [WriteRegister(TX_CLAMP_CONFIG, RaisedClamp(clampRead)), SpiWrite(0x9D, [0x01]), SpiWrite(0x8A, [0x01])]
  }

  /** Bits 4:1 set, the others kept. */
  function RaisedClamp(value: u8): u8 {
    ((value as bv8) | 0x1E) as int
  }

  // ----- Reading the chip back -----------------------------------------------

  function FromBe(bytes: seq<u8>): nat {
    if bytes == [] then 0 else FromBe(Init(bytes)) * 0x100 + Last(bytes)
  }

  /** The carrier a frequency register stands for: RF = reg * 32 MHz / 2^25, whole hertz upwards. */
  function CarrierHz(register: nat): nat {
    DivCeil(register * 32_000_000, 0x200_0000)
  }

  /** Bandwidths of SetModulationParams by code (SX126x datasheet, table 13-48). */
  function BandwidthOfCode(code: u8): Option<nat> {
    match code
    case 0x00 => Some(7_800)
    case 0x08 => Some(10_400)
    case 0x01 => Some(15_600)
    case 0x09 => Some(20_800)
    case 0x02 => Some(31_250)
    case 0x0A => Some(41_700)
    case 0x03 => Some(62_500)
    case 0x04 => Some(125_000)
    case 0x05 => Some(250_000)
    case 0x06 => Some(500_000)
    case _ => None
  }

  function TwosComplement(b: u8): int {
    if b < 0x80 then b else b - 0x100
  }

  /** What the registers of a configured chip mean. */
  datatype Settings = Settings(
    carrierHz: nat,
    spreadingFactor: u8,
    bandwidthHz: Option<nat>,
    codingRateTerm: nat,
    ldro: bool,
    powerDbm: int,
    syncWord: (u8, u8),
    ocp: u8)

  function ReadBack(c: Chip): Settings
    requires |c.modulation| == 4 && |c.txParams| == 2
  {
    Settings(CarrierHz(FromBe(c.frequency)), c.modulation[0], BandwidthOfCode(c.modulation[1]), c.modulation[2], c.modulation[3] == 1,
             TwosComplement(c.txParams[0]), (c.Register(SYNC_WORD_MSB), c.Register(SYNC_WORD_LSB)), c.Register(OCP_CONFIGURATION))
  }

  /** What a configuration asks for; 56 is 140 mA in steps of 2.5 mA. */
  function Intended(config: LoraConfig): Settings {
    Settings(config.frequencyHz, config.spreadingFactor, Some(BandwidthHz(config.bandwidthKhz)), CodingRateTerm(config.codingRate),
             SlowSymbols(config.spreadingFactor, BandwidthHz(config.bandwidthKhz)), config.txPowerDbm, RegisterBytes(config.syncWord), 56)
  }

  lemma FromBeAppend(bytes: seq<u8>, b: u8)
    ensures FromBe(bytes + [b]) == FromBe(bytes) * 0x100 + b
  {
    assert Init(bytes + [b]) == bytes;
  }

  function Joined(b0: int, b1: int, b2: int, b3: int): int {
    ((b0 * 0x100 + b1) * 0x100 + b2) * 0x100 + b3
  }

  lemma FourBytes(b0: u8, b1: u8, b2: u8, b3: u8)
    ensures FromBe([b0, b1, b2, b3]) == Joined(b0, b1, b2, b3)
  {
    FromBeAppend([], b0);
    FromBeAppend([b0], b1);
    FromBeAppend([b0, b1], b2);
    FromBeAppend([b0, b1, b2], b3);
    assert [] + [b0] == [b0] && [b0] + [b1] == [b0, b1] && [b0, b1] + [b2] == [b0, b1, b2];
    assert [b0, b1, b2] + [b3] == [b0, b1, b2, b3];
  }

  lemma BytesRoundTrip(r: u32)
    ensures FromBe(ToBe32(r)) == r
  {
    hide FromBe;
    FourBytes(r / 0x100_0000, r / 0x1_0000 % 0x100, r / 0x100 % 0x100, r % 0x100);
  }

  /** The carrier comes back exactly, for every frequency whose register fits 32 bits. */
  lemma CarrierRecoveredIff(freqHz: u32)
    ensures CarrierHz(FrequencyRegister(freqHz)) == freqHz <==> freqHz < 4_096_000_000
  {}

  /**
   Played to the end, `configure` leaves the chip with exactly the settings asked for, where the
   frequency register fits and the bandwidth label tells whether symbols are slow.
   */
  lemma ConfigureRealisesConfig(c: Chip, config: LoraConfig)
    ensures var c' := Play(c, ConfigureScript(config, c.Register(IQ_POLARITY)));
            && |c'.modulation| == 4 && |c'.txParams| == 2
            && (ReadBack(c') == Intended(config)
                <==> config.frequencyHz < 4_096_000_000 && LabelTellsLdro(config.spreadingFactor, config.bandwidthKhz))
            && c'.Register(IQ_POLARITY) == FixedIqPolarity(c.Register(IQ_POLARITY), config.iqInverted)
            && c'.mode == StandbyRc && c'.sent == c.sent
  {
    PlayConcat(c, ConfigureHead(config), ConfigureTail(config, c.Register(IQ_POLARITY)));
    AfterConfigureHead(c, config);
    AfterConfigureTail(Play(c, ConfigureHead(config)), config, c.Register(IQ_POLARITY));
    BytesRoundTrip(FrequencyRegister(config.frequencyHz));
    CarrierRecoveredIff(config.frequencyHz);
    LdroIsSlowSymbolsIff(config.spreadingFactor, config.bandwidthKhz);
  }

  lemma {:induction false} PlayConcat(c: Chip, a: seq<SpiWrite>, b: seq<SpiWrite>)
    ensures Play(c, a + b) == Play(Play(c, a), b)
  {
    hide Step;
    if b == [] {
      assert a + b == a;
    } else {
      PlayConcat(c, a, Init(b));
      assert Init(a + b) == a + Init(b);
    }
  }

  lemma PlayPrefix(c: Chip, s: seq<SpiWrite>, k: nat)
    requires k < |s|
    ensures Play(c, s[..k + 1]) == Step(Play(c, s[..k]), s[k])
    ensures k + 1 == |s| ==> s[..k + 1] == s
  {
    assert Init(s[..k + 1]) == s[..k];
  }

  lemma PlayFour(c: Chip, s: seq<SpiWrite>)
    requires |s| >= 4
    ensures Play(c, s[..4]) == Step(Step(Step(Step(c, s[0]), s[1]), s[2]), s[3])
  {
    hide Step;
    PlayPrefix(c, s, 0);
    PlayPrefix(c, s, 1);
    PlayPrefix(c, s, 2);
    PlayPrefix(c, s, 3);
    assert s[..0] == [];
  }

  lemma PlayTwoMore(c: Chip, s: seq<SpiWrite>, k: nat)
    requires k + 2 <= |s|
    ensures Play(c, s[..k + 2]) == Step(Step(Play(c, s[..k]), s[k]), s[k + 1])
  {
    hide Step;
    PlayPrefix(c, s, k);
    PlayPrefix(c, s, k + 1);
  }

  /** The first half of `configure`: carrier, modulation and sync word. */
  lemma AfterConfigureHead(c: Chip, config: LoraConfig)
    ensures var sync := RegisterBytes(config.syncWord);
            Play(c, ConfigureHead(config))
            == c.(mode := StandbyRc, frequency := SetRfFrequency(config.frequencyHz).data, modulation := SetModulationParams(config).data,
                  registers := c.registers[SYNC_WORD_MSB := sync.0][SYNC_WORD_LSB := sync.1])
  {
    hide ToBe32, FrequencyRegister, BandwidthCode, CodingRateCode, LdroEnabled, RegisterBytes, TxDoneIn, Overwrite;
    var s := ConfigureHead(config);
    PlayFour(c, s);
    PlayTwoMore(c, s, 4);
    assert s[..6] == s;
  }

  lemma AfterConfigureTail(c: Chip, config: LoraConfig, iqRead: u8)
    ensures Play(c, ConfigureTail(config, iqRead))
            == c.(txParams := SetTxParams(config.txPowerDbm).data,
                  registers := c.registers[IQ_POLARITY := FixedIqPolarity(iqRead, config.iqInverted)]
                                          [OCP_CONFIGURATION := c.ocpDefault][OCP_CONFIGURATION := OcpValue(CURRENT_LIMIT_MA)])
  {
    var s := ConfigureTail(config, iqRead);
    PlayFour(c, s);
    assert s[..4] == s;
  }

  // ----- What the other scripts achieve, and what none of them does ----------

  /** Ready for SetTx: the payload is in the buffer, its length in the packet parameters, TX_DONE armed and down. */
  ghost predicate Staged(c: Chip, stored: Option<LoraConfig>, data: seq<u8>) {
    && 1 <= |data| <= HW_MAX_PAYLOAD_LEN
    && c.packetParams == PacketBytes(stored, |data|)
    && c.irqParams == IrqBytes(IRQ_TX_DONE) && !c.txDone
    && c.Outgoing() == data
  }

  ghost predicate Listening(c: Chip, stored: Option<LoraConfig>) {
    && c.mode == ReceivingContinuous
    && c.packetParams == PacketBytes(stored, HW_MAX_PAYLOAD_LEN)
    && c.irqParams == IrqBytes(IRQ_RX)
  }

  /** What every SetTx must have sent. */
  ghost predicate WellSent(t: Transmission) {
    && 1 <= |t.payload| <= HW_MAX_PAYLOAD_LEN
    && |t.packetParams| == 6 && t.packetParams[3] == |t.payload|
    && t.irqParams == IrqBytes(IRQ_TX_DONE)
  }

  lemma AfterPrepare(c: Chip, stored: Option<LoraConfig>, data: seq<u8>)
    requires |data| <= HW_MAX_PAYLOAD_LEN
    ensures Play(c, PrepareScript(stored, data))
            == c.(mode := StandbyRc, packetParams := PacketBytes(stored, |data|), buffer := Overwrite(c.buffer, 0, data),
                  irqParams := IrqBytes(IRQ_TX_DONE), txDone := false)
  {
    hide PacketBytes, IrqBytes, Overwrite;
    var s := PrepareScript(stored, data);
    PlayFour(c, s);
    PlayPrefix(c, s, 4);
    assert ([0x00] + data)[1..] == data;
  }

  lemma PrepareStages(c: Chip, stored: Option<LoraConfig>, data: seq<u8>)
    requires 1 <= |data| <= HW_MAX_PAYLOAD_LEN && c.txBase == 0 && |c.buffer| == 256
    ensures Staged(Play(c, PrepareScript(stored, data)), stored, data)
    ensures Play(c, PrepareScript(stored, data)).modulation == c.modulation
  {
    hide Play, PrepareScript;
    AfterPrepare(c, stored, data);
    assert Overwrite(c.buffer, 0, data)[..|data|] == data;
  }

  lemma ReceiveListens(c: Chip, stored: Option<LoraConfig>)
    ensures Listening(Play(c, ReceiveScript(stored)), stored)
  {
    var s := ReceiveScript(stored);
    PlayFour(c, s);
    PlayPrefix(c, s, 4);
  }

  lemma StagedIsWellSent(c: Chip, stored: Option<LoraConfig>, data: seq<u8>)
    requires Staged(c, stored, data)
    ensures WellSent(c.Packet()) && c.Packet().payload == data
    ensures Step(c, SET_TX).sent == c.sent + [c.Packet()] && !Step(c, SET_TX).txDone
  {}

  /** A script that neither transmits, nor moves the TX base, nor writes past the buffer. */
  ghost predicate Quiet(script: seq<SpiWrite>) {
    forall w :: w in script ==> QuietWrite(w)
  }

  predicate QuietWrite(w: SpiWrite) {
    w.opcode != 0x83 && w.opcode != 0x8F && (w.opcode == 0x0E ==> |w.data| >= 1 && w.data[0] + (|w.data| - 1) <= 256)
  }

  lemma QuietStep(c: Chip, w: SpiWrite)
    requires QuietWrite(w) && |c.buffer| == 256
    ensures var c' := Step(c, w); c'.sent == c.sent && c'.completed == c.completed && c'.txBase == c.txBase && |c'.buffer| == 256
  {}

  lemma {:induction false} QuietPlay(c: Chip, script: seq<SpiWrite>, k: nat)
    requires Quiet(script) && |c.buffer| == 256 && k <= |script|
    ensures var c' := Play(c, script[..k]);
            c'.sent == c.sent && c'.completed == c.completed && c'.txBase == c.txBase && |c'.buffer| == 256
  {
    hide Step, QuietWrite;
    if k > 0 {
      QuietPlay(c, script, k - 1);
      PlayPrefix(c, script, k - 1);
      assert script[k - 1] in script;
      QuietStep(Play(c, script[..k - 1]), script[k - 1]);
    }
  }

  lemma BootScriptsAreQuiet(clampRead: u8)
    ensures Quiet(WakeScript()) && Quiet([CLEAR_DEVICE_ERRORS]) && Quiet(SetupScript(clampRead))
  {}

  lemma ConfigureIsQuiet(config: LoraConfig, iqRead: u8)
    ensures Quiet(ConfigureHead(config)) && Quiet(ConfigureTail(config, iqRead))
  {}

  lemma PrepareIsQuiet(stored: Option<LoraConfig>, data: seq<u8>)
    requires |data| <= HW_MAX_PAYLOAD_LEN
    ensures Quiet(PrepareScript(stored, data))
  {}

  lemma ReceiveIsQuiet(stored: Option<LoraConfig>)
    ensures Quiet(ReceiveScript(stored))
  {}

  // ----- A configure cut short -----------------------------------------------

  /** What decides which packets a listening chip hears, beside the packet parameters. */
  datatype Tuning = Tuning(frequency: seq<u8>, modulation: seq<u8>, syncMsb: u8, syncLsb: u8, iqInverted: bool)

  function TuningOf(c: Chip): Tuning {
    Tuning(c.frequency, c.modulation, c.Register(SYNC_WORD_MSB), c.Register(SYNC_WORD_LSB), c.Register(IQ_POLARITY) / 4 % 2 == 0)
  }

  function TuningFor(config: LoraConfig): Tuning {
    Tuning(SetRfFrequency(config.frequencyHz).data, SetModulationParams(config).data,
           RegisterBytes(config.syncWord).0, RegisterBytes(config.syncWord).1, config.iqInverted)
  }

  /** The tuning once the first `k` commands of a `configure` have landed. */
  function CutShort(was: Tuning, config: LoraConfig, k: nat): Tuning {
    var to := TuningFor(config);
    Tuning(if k >= 2 then to.frequency else was.frequency,
           if k >= 4 then to.modulation else was.modulation,
           if k >= 5 then to.syncMsb else was.syncMsb,
           if k >= 6 then to.syncLsb else was.syncLsb,
           if k >= 7 then to.iqInverted else was.iqInverted)
  }

  lemma RegisterStep(c: Chip, address: u16, value: u8)
    ensures Step(c, WriteRegister(address, value)) == c.(registers := c.registers[address := value])
  {}

  lemma SyncWordTunes(c: Chip, was: Tuning, config: LoraConfig, i: nat)
    requires 4 <= i < 6 && TuningOf(c) == CutShort(was, config, i)
    ensures TuningOf(Step(c, ConfigureHead(config)[i])) == CutShort(was, config, i + 1)
  {
    hide Step, WriteRegister, SetRfFrequency, SetModulationParams;
    var (msb, lsb) := RegisterBytes(config.syncWord);
    RegisterStep(c, if i == 4 then SYNC_WORD_MSB else SYNC_WORD_LSB, if i == 4 then msb else lsb);
  }

  lemma HeadCommandTunes(c: Chip, was: Tuning, config: LoraConfig, i: nat)
    requires i < 6 && TuningOf(c) == CutShort(was, config, i)
    ensures TuningOf(Step(c, ConfigureHead(config)[i])) == CutShort(was, config, i + 1)
  {
    hide ToBe32, FrequencyRegister, BandwidthCode, CodingRateCode, LdroEnabled, RegisterBytes;
    if i >= 4 {
      hide Step;
      SyncWordTunes(c, was, config, i);
    }
  }

  lemma IqPolarityBit(value: u8, iqInverted: bool)
    ensures FixedIqPolarity(value, iqInverted) / 4 % 2 == 0 <==> iqInverted
  {}

  lemma TailCommandTunes(c: Chip, was: Tuning, config: LoraConfig, iqRead: u8, i: nat)
    requires i < 4 && TuningOf(c) == CutShort(was, config, 6 + i)
    ensures TuningOf(Step(c, ConfigureTail(config, iqRead)[i])) == CutShort(was, config, 7 + i)
  {
    hide SetRfFrequency, SetModulationParams, FixedIqPolarity;
    IqPolarityBit(iqRead, config.iqInverted);
  }

  lemma OneCommandTunes(c: Chip, was: Tuning, config: LoraConfig, iqRead: u8, i: nat)
    requires i < 10 && TuningOf(c) == CutShort(was, config, i)
    ensures TuningOf(Step(c, ConfigureScript(config, iqRead)[i])) == CutShort(was, config, i + 1)
  {
    hide Step, TuningOf, CutShort, ConfigureHead, ConfigureTail;
    if i < 6 {
      HeadCommandTunes(c, was, config, i);
    } else {
      TailCommandTunes(c, was, config, iqRead, i - 6);
    }
  }

  /**
   `configure` is not atomic: a chip at which it was cut short has the new frequency once two
   commands landed, the new modulation from the fourth on, the sync word from the fifth and
   sixth, the IQ polarity from the seventh, and the rest as it was.
   */
  lemma {:induction false} CutShortConfigureTuning(c: Chip, config: LoraConfig, iqRead: u8, k: nat)
    requires k <= 10
    ensures TuningOf(Play(c, ConfigureScript(config, iqRead)[..k])) == CutShort(TuningOf(c), config, k)
  {
    hide ConfigureScript, Step, TuningOf, CutShort;
    var s := ConfigureScript(config, iqRead);
    if k == 0 {
      NothingTuned(TuningOf(c), config);
      assert s[..0] == [];
    } else {
      CutShortConfigureTuning(c, config, iqRead, k - 1);
      PlayPrefix(c, s, k - 1);
      OneCommandTunes(Play(c, s[..k - 1]), TuningOf(c), config, iqRead, k - 1);
    }
  }

  lemma NothingTuned(was: Tuning, config: LoraConfig)
    ensures CutShort(was, config, 0) == was
    ensures CutShort(was, config, 10) == TuningFor(config)
  {}

  /** The power is set by the last command. */
  lemma ConfigureSetsPower(c: Chip, config: LoraConfig, iqRead: u8)
    ensures Play(c, ConfigureScript(config, iqRead)).txParams == SetTxParams(config.txPowerDbm).data
  {
    hide Play, ConfigureHead, ConfigureTail, SetTxParams;
    PlayConcat(c, ConfigureHead(config), ConfigureTail(config, iqRead));
    AfterConfigureTail(Play(c, ConfigureHead(config)), config, iqRead);
  }

  /** The modem runs with the new modulation exactly when at least four commands landed. */
  lemma CutShortConfigureModulation(c: Chip, config: LoraConfig, iqRead: u8, k: nat)
    requires k <= 10
    ensures Play(c, ConfigureScript(config, iqRead)[..k]).modulation == if k >= 4 then SetModulationParams(config).data else c.modulation
  {
    hide Play, ConfigureScript, SetRfFrequency, SetModulationParams;
    CutShortConfigureTuning(c, config, iqRead, k);
  }

  // ----- Scripts that leave tuning and power alone ---------------------------------

  predicate KeepsTuningWrite(w: SpiWrite) {
    w.opcode !in {0x86, 0x8B, 0x95, 0x0D, 0x8E}
  }

  ghost predicate KeepsTuning(script: seq<SpiWrite>) {
    forall w :: w in script ==> KeepsTuningWrite(w)
  }

  lemma KeepsTuningStep(c: Chip, w: SpiWrite)
    requires KeepsTuningWrite(w)
    ensures TuningOf(Step(c, w)) == TuningOf(c) && Step(c, w).txParams == c.txParams
  {}

  lemma {:induction false} KeepsTuningPlay(c: Chip, script: seq<SpiWrite>, k: nat)
    requires KeepsTuning(script) && k <= |script|
    ensures TuningOf(Play(c, script[..k])) == TuningOf(c) && Play(c, script[..k]).txParams == c.txParams
  {
    hide Step, KeepsTuningWrite, TuningOf;
    if k > 0 {
      KeepsTuningPlay(c, script, k - 1);
      PlayPrefix(c, script, k - 1);
      assert script[k - 1] in script;
      KeepsTuningStep(Play(c, script[..k - 1]), script[k - 1]);
    }
  }

  lemma PrepareAndReceiveKeepTuning(stored: Option<LoraConfig>, data: seq<u8>)
    requires |data| <= HW_MAX_PAYLOAD_LEN
    ensures KeepsTuning(PrepareScript(stored, data)) && KeepsTuning(ReceiveScript(stored))
  {}

  // ----- Airtime of what is on the air ---------------------------------------

  /** Time on air of a packet as the modulation and packet-parameter bytes shape it. */
  function AirtimeOfRegisters(modulation: seq<u8>, packetParams: seq<u8>): nat
    requires |modulation| == 4 && 7 <= modulation[0] <= 12 && BandwidthOfCode(modulation[1]).Some?
    requires |packetParams| == 6
  {
    var sf := modulation[0];
    var symbolTime := SymbolTimeAt(sf, BandwidthHzOfCode(modulation[1]));
    var quarters := QuarterSymbols(sf, modulation[3] == 1, modulation[2], packetParams[3],
                                   Address(packetParams[0], packetParams[1]), packetParams[4] == 1);
    DivCeil(QuartersUs(quarters, symbolTime), 1000)
  }

  function BandwidthHzOfCode(code: u8): (hz: nat)
    requires BandwidthOfCode(code).Some?
    ensures hz > 0
  {
    BandwidthOfCode(code).value
  }

  /** The bytes the driver writes determine exactly the airtime that is charged. */
  lemma ChargedAirtimeIsOnAirAirtime(config: LoraConfig, length: u8)
    requires 7 <= config.spreadingFactor <= 12
    ensures var modulation := SetModulationParams(config).data;
            && BandwidthOfCode(modulation[1]).Some?
            && AirtimeOfRegisters(modulation, PacketBytes(Some(config), length))
               == TimeOnAirMsExt(config.spreadingFactor, config.bandwidthKhz, config.codingRate, length, config.preambleLen, config.crcOn)
  {
    hide QuarterSymbols, Pow2;
    assert BandwidthHzOfCode(BandwidthCode(config.bandwidthKhz)) == BandwidthHz(config.bandwidthKhz);
    assert CodingRateCode(config.codingRate) == CodingRateTerm(config.codingRate);
    assert Address(config.preambleLen / 0x100, config.preambleLen % 0x100) == config.preambleLen;
  }

  predicate Meaningful(modulation: seq<u8>) {
    |modulation| == 4 && BandwidthOfCode(modulation[1]).Some? && 7 <= modulation[0] <= 12
  }

  /** The airtime of a transmission by its own register bytes; nothing for what they give no meaning. */
  function RegisterAirtime(t: Transmission): nat {
    if Meaningful(t.modulation) && |t.packetParams| == 6 then AirtimeOfRegisters(t.modulation, t.packetParams) else 0
  }
}
