/** Hub command and response types and their byte maps (hub-protocol/src/types.rs). */
module HubTypes {
  import opened Prelude

  const MAX_SSID_LEN: nat := 32
  const MAX_PASSWORD_LEN: nat := 64
  const MAX_HOST_LEN: nat := 64
  const MAX_CLIENT_ID_LEN: nat := 32

  /** Text as its UTF-8 bytes. */
  type Text = seq<u8>

  datatype HubMode = Bridge | LorawanGateway

  datatype LinkState = Unprovisioned | Connecting | Connected | Disconnected

  datatype AckStatus = AckOk | InvalidValue | StorageError

  datatype WifiSettings = WifiSettings(ssid: Text, password: Text)

  datatype MqttSettings = MqttSettings(host: Text, port: u16, clientId: Text)

  datatype GatewaySettings = GatewaySettings(frequencyHz: u32, spreadingFactor: u8, bandwidthKhz: u32, codingRate: u8, host: Text, port: u16)

  datatype HubStatus = HubStatus(
    wifiState: LinkState,
    ip: seq<u8>,
    mqttState: LinkState,
    uplinkCount: u32,
    downlinkCount: u32,
    droppedCount: u32,
    uptimeSecs: u32)

  datatype HubCommand =
    | SetWifiConfig(wifi: WifiSettings)
    | SetMqttConfig(mqtt: MqttSettings)
    | GetNetworkConfig
    | GetHubStatus
    | SetMode(mode: HubMode)
    | ClearNetworkConfig
    | SetGatewayConfig(gateway: GatewaySettings)

  datatype HubResponse =
    | NetworkConfig(mode: HubMode, wifiSsid: Text, mqtt: MqttSettings, gateway: GatewaySettings)
    | Status(status: HubStatus)
    | ConfigAck(ack: AckStatus)

  function ModeByte(mode: HubMode): u8 {
    match mode
    case Bridge => 0
    case LorawanGateway => 1
  }

  function ModeFromByte(b: u8): Option<HubMode> {
    if b == 0 then Some(Bridge) else if b == 1 then Some(LorawanGateway) else None
  }

  function LinkByte(state: LinkState): u8 {
    match state
    case Unprovisioned => 0
    case Connecting => 1
    case Connected => 2
    case Disconnected => 3
  }

  function LinkFromByte(b: u8): Option<LinkState> {
    if b == 0 then Some(Unprovisioned) else if b == 1 then Some(Connecting)
    else if b == 2 then Some(Connected) else if b == 3 then Some(Disconnected) else None
  }

  function AckByte(ack: AckStatus): u8 {
    match ack
    case AckOk => 0
    case InvalidValue => 1
    case StorageError => 2
  }

  function AckFromByte(b: u8): Option<AckStatus> {
    if b == 0 then Some(AckOk) else if b == 1 then Some(InvalidValue) else if b == 2 then Some(StorageError) else None
  }

  function CommandId(command: HubCommand): u8 {
    match command
    case SetWifiConfig(_) => 0x20
    case SetMqttConfig(_) => 0x21
    case GetNetworkConfig => 0x22
    case GetHubStatus => 0x23
    case SetMode(_) => 0x24
    case ClearNetworkConfig => 0x25
    case SetGatewayConfig(_) => 0x26
  }

  function ResponseId(response: HubResponse): u8 {
    match response
    case NetworkConfig(_, _, _, _) => 0x20
    case Status(_) => 0x21
    case ConfigAck(_) => 0x22
  }
}
