/** The radio's configuration and errors (src/lora/traits.rs, src/config.rs). */
module LoraTypes {
  import opened Prelude

  datatype SyncWord = Private | Public

  datatype LoraError = Timeout | CrcError | TransmitFailed | ReceiveFailed | InvalidConfig | BusyTimeout | SpiError | NotInitialised

  datatype LoraConfig = LoraConfig(
    frequencyHz: u32,
    spreadingFactor: u8,
    bandwidthKhz: u32,
    codingRate: u8,
    txPowerDbm: i8,
    syncWord: SyncWord,
    iqInverted: bool,
    crcOn: bool,
    preambleLen: u16)

  const DEFAULT_CONFIG: LoraConfig := LoraConfig(869_525_000, 11, 250, 8, 22, Private, false, true, 8)

  function RegisterBytes(syncWord: SyncWord): (u8, u8) {
    match syncWord
    case Private => (0x14, 0x24)
    case Public => (0x34, 0x44)
  }
}
