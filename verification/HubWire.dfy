/**
 The hub protocol on the wire (hub-protocol/src/codec.rs, hub-protocol/src/types.rs): where
 each byte of a command frame comes from, and exactly which bytes get which refusal.
 */
module HubWire {
  import opened Prelude
  import opened HubTypes
  import opened HubCodec

  /** A little-endian number of `n` bytes from `at` on. */
  function LittleEndian(bytes: seq<u8>, at: nat, n: nat): nat
    requires at + n <= |bytes|
    decreases n
  {
    if n == 0 then 0 else LowFirst(bytes[at], LittleEndian(bytes, at + 1, n - 1))
  }

  function LowFirst(low: nat, rest: nat): nat {
    low + 0x100 * rest
  }

  /** A text with its length in the byte before it. */
  predicate TextAt(bytes: seq<u8>, at: nat, t: Text) {
    at + 1 + |t| <= |bytes| && bytes[at] == |t| && bytes[at + 1..at + 1 + |t|] == t
  }

  /** The twelve fixed bytes of gateway settings, from `at` on. */
  predicate GatewayAt(payload: seq<u8>, at: nat, gw: GatewaySettings) {
    && at + 12 <= |payload| && LittleEndian(payload, at, 4) == gw.frequencyHz && payload[at + 4] == gw.spreadingFactor
    && LittleEndian(payload, at + 5, 4) == gw.bandwidthKhz && payload[at + 9] == gw.codingRate
    && LittleEndian(payload, at + 10, 2) == gw.port
  }

  // ----- Command payloads ----------------------------------------------------

  /** What each command's payload holds, and where. */
  predicate LaidOut(payload: seq<u8>, command: HubCommand) {
    match command
    case SetWifiConfig(wifi) =>
      && |payload| == 2 + |wifi.ssid| + |wifi.password|
      && TextAt(payload, 0, wifi.ssid) && TextAt(payload, 1 + |wifi.ssid|, wifi.password)
    case SetMqttConfig(mqtt) =>
      && |payload| == 4 + |mqtt.host| + |mqtt.clientId| && LittleEndian(payload, 0, 2) == mqtt.port
      && TextAt(payload, 2, mqtt.host) && TextAt(payload, 3 + |mqtt.host|, mqtt.clientId)
    case SetMode(mode) => |payload| == 1 && payload[0] == if mode.Bridge? then 0 else 1
    case SetGatewayConfig(gw) =>
      |payload| == 13 + |gw.host| && GatewayAt(payload, 0, gw) && TextAt(payload, 12, gw.host)
    case _ => payload == []
  }

  function IdByte(command: HubCommand): u8 {
    match command
    case SetWifiConfig(_) => 32
    case SetMqttConfig(_) => 33
    case GetNetworkConfig => 34
    case GetHubStatus => 35
    case SetMode(_) => 36
    case ClearNetworkConfig => 37
    case SetGatewayConfig(_) => 38
  }

  lemma TwoBytesAt(bytes: seq<u8>, at: nat, x: u16)
    requires at + 2 <= |bytes| && bytes[at..at + 2] == PutU16(x)
    ensures LittleEndian(bytes, at, 2) == x
  {
    assert bytes[at] == bytes[at..at + 2][0] && bytes[at + 1] == bytes[at..at + 2][1];
    assert LittleEndian(bytes, at + 2, 0) == 0;
    assert LittleEndian(bytes, at + 1, 1) == bytes[at + 1];
  }

  lemma FourBytesAt(bytes: seq<u8>, at: nat, x: u32)
    requires at + 4 <= |bytes| && bytes[at..at + 4] == PutU32(x)
    ensures LittleEndian(bytes, at, 4) == x
  {
    assert bytes[at..at + 2] == bytes[at..at + 4][..2] && bytes[at + 2..at + 4] == bytes[at..at + 4][2..];
    TwoBytesAt(bytes, at, x % 0x1_0000);
    TwoBytesAt(bytes, at + 2, x / 0x1_0000);
    assert LittleEndian(bytes, at + 2, 2) == x / 0x1_0000;
    SplitTwo(bytes, at);
  }

  lemma SplitTwo(bytes: seq<u8>, at: nat)
    requires at + 4 <= |bytes|
    ensures LittleEndian(bytes, at, 4) == LittleEndian(bytes, at, 2) + 0x1_0000 * LittleEndian(bytes, at + 2, 2)
  {
    assert LittleEndian(bytes, at, 4) == LowFirst(bytes[at], LowFirst(bytes[at + 1], LittleEndian(bytes, at + 2, 2)));
    assert LittleEndian(bytes, at, 2) == LowFirst(bytes[at], LowFirst(bytes[at + 1], LittleEndian(bytes, at + 2, 0)));
  }

  lemma SliceOfSlice(bytes: seq<u8>, at: nat, n: nat, i: nat, j: nat)
    requires at + n <= |bytes| && i <= j <= n
    ensures bytes[at..at + n][i..j] == bytes[at + i..at + j]
  {
    var slice, direct := bytes[at..at + n][i..j], bytes[at + i..at + j];
    forall k | 0 <= k < j - i ensures slice[k] == direct[k] {
      assert bytes[at..at + n][i + k] == bytes[at + (i + k)];
    }
  }

  lemma PrefixAt(payload: seq<u8>, at: nat, gw: GatewaySettings)
    requires at + 12 <= |payload| && payload[at..at + 12] == GatewayPrefix(gw)
    ensures GatewayAt(payload, at, gw)
  {
    hide LittleEndian, PutU16, PutU32;
    WordBytes(gw.frequencyHz);
    WordBytes(gw.bandwidthKhz);
    PortBytes(gw.port);
    var p := payload[at..at + 12];
    assert p[0..4] == PutU32(gw.frequencyHz) && p[5..9] == PutU32(gw.bandwidthKhz) && p[10..12] == PutU16(gw.port);
    SliceOfSlice(payload, at, 12, 0, 4);
    SliceOfSlice(payload, at, 12, 5, 9);
    SliceOfSlice(payload, at, 12, 10, 12);
    assert payload[at + 4] == p[4] && payload[at + 9] == p[9];
    FourBytesAt(payload, at, gw.frequencyHz);
    FourBytesAt(payload, at + 5, gw.bandwidthKhz);
    TwoBytesAt(payload, at + 10, gw.port);
  }

  lemma TwelveBytes(gw: GatewaySettings)
    ensures |GatewayPrefix(gw)| == 12
  {
    hide PutU16, PutU32;
    WordBytes(gw.frequencyHz);
    WordBytes(gw.bandwidthKhz);
    PortBytes(gw.port);
  }

  lemma PayloadLayout(codec: Codec, command: HubCommand)
    requires ValidCommand(codec, command)
    ensures LaidOut(CommandPayload(codec, command), command)
  {
    hide LittleEndian, PutU16, GatewayPrefix, GatewayAt;
    var payload := CommandPayload(codec, command);
    match command {
      case SetMqttConfig(mqtt) =>
        PortBytes(mqtt.port);
        assert payload[0..2] == PutU16(mqtt.port);
        TwoBytesAt(payload, 0, mqtt.port);
      case SetGatewayConfig(gw) =>
        TwelveBytes(gw);
        assert payload[0..12] == GatewayPrefix(gw);
        PrefixAt(payload, 0, gw);
      case _ =>
    }
  }

  lemma PortBytes(x: u16)
    ensures |PutU16(x)| == 2
  {}

  lemma WordBytes(x: u32)
    ensures |PutU32(x)| == 4
  {}

  lemma RawOnTheWire(codec: Codec, id: u8, payload: seq<u8>)
    requires |payload| < U16_SIZE
    ensures var frame := BuildRaw(codec, id, payload);
            var n := |frame|;
            && n == 6 + |payload| && frame[0] == 1 && frame[1] == id && LittleEndian(frame, 2, 2) == n - 6
            && frame[4..n - 2] == payload && LittleEndian(frame, n - 2, 2) == codec.crc(frame[..n - 2])
  {
    hide LittleEndian, PutU16;
    var frame := BuildRaw(codec, id, payload);
    var n := |frame|;
    PortBytes(|payload|);
    var body := [PROTOCOL_VERSION, id] + PutU16(|payload|) + payload;
    PortBytes(codec.crc(body));
    assert frame[2..4] == PutU16(|payload|) && frame[..n - 2] == body && frame[4..n - 2] == payload && frame[n - 2..n] == PutU16(codec.crc(body));
    TwoBytesAt(frame, 2, |payload|);
    TwoBytesAt(frame, n - 2, codec.crc(body));
  }

  /**
   A command's frame, byte by byte: version 1, the id, the payload's length and the payload, then
   the CRC of all that, numbers low byte first and texts behind their lengths.
   */
  lemma CommandOnTheWire(codec: Codec, command: HubCommand)
    requires ValidCommand(codec, command)
    ensures var frame := EncodeCommand(codec, command);
            var n := |frame|;
            && n >= 6 && frame[0] == 1 && frame[1] == IdByte(command) && LittleEndian(frame, 2, 2) == n - 6
            && LaidOut(frame[4..n - 2], command) && LittleEndian(frame, n - 2, 2) == codec.crc(frame[..n - 2])
  {
    hide LittleEndian, LaidOut, CommandPayload, BuildRaw;
    PayloadLayout(codec, command);
    RawOnTheWire(codec, CommandId(command), CommandPayload(codec, command));
  }

  // ----- Responses -----------------------------------------------------------

  function ResponseIdByte(response: HubResponse): u8 {
    match response
    case NetworkConfig(_, _, _, _) => 32
    case Status(_) => 33
    case ConfigAck(_) => 34
  }

  function LinkNumber(state: LinkState): u8 {
    match state
    case Unprovisioned => 0
    case Connecting => 1
    case Connected => 2
    case Disconnected => 3
  }

  predicate CountersAt(payload: seq<u8>, at: nat, status: HubStatus) {
    && at + 16 <= |payload|
    && LittleEndian(payload, at, 4) == status.uplinkCount && LittleEndian(payload, at + 4, 4) == status.downlinkCount
    && LittleEndian(payload, at + 8, 4) == status.droppedCount && LittleEndian(payload, at + 12, 4) == status.uptimeSecs
  }

  predicate ResponseLaidOut(payload: seq<u8>, response: HubResponse) {
    match response
    case NetworkConfig(mode, ssid, mqtt, gw) =>
      var m, c, g := 16 + |ssid|, 17 + |ssid| + |mqtt.host|, 18 + |ssid| + |mqtt.host| + |mqtt.clientId|;
      && |payload| == g + 1 + |gw.host| && payload[0] == (if mode.Bridge? then 0 else 1) && LittleEndian(payload, 1, 2) == mqtt.port
      && GatewayAt(payload, 3, gw) && TextAt(payload, 15, ssid) && TextAt(payload, m, mqtt.host)
      && TextAt(payload, c, mqtt.clientId) && TextAt(payload, g, gw.host)
    case Status(status) =>
      && |payload| == 22 && payload[0] == LinkNumber(status.wifiState) && payload[1..5] == status.ip
      && payload[5] == LinkNumber(status.mqttState) && CountersAt(payload, 6, status)
    case ConfigAck(ack) => payload == [if ack.AckOk? then 0 else if ack.InvalidValue? then 1 else 2]
  }

  lemma CountersAreAt(payload: seq<u8>, at: nat, status: HubStatus)
    requires at + 16 <= |payload| && payload[at..at + 16] == Counters(status)
    ensures CountersAt(payload, at, status)
  {
    hide LittleEndian, PutU32;
    WordBytes(status.uplinkCount);
    WordBytes(status.downlinkCount);
    WordBytes(status.droppedCount);
    WordBytes(status.uptimeSecs);
    var p := payload[at..at + 16];
    assert p[0..4] == PutU32(status.uplinkCount) && p[4..8] == PutU32(status.downlinkCount);
    assert p[8..12] == PutU32(status.droppedCount) && p[12..16] == PutU32(status.uptimeSecs);
    SliceOfSlice(payload, at, 16, 0, 4);
    SliceOfSlice(payload, at, 16, 4, 8);
    SliceOfSlice(payload, at, 16, 8, 12);
    SliceOfSlice(payload, at, 16, 12, 16);
    FourBytesAt(payload, at, status.uplinkCount);
    FourBytesAt(payload, at + 4, status.downlinkCount);
    FourBytesAt(payload, at + 8, status.droppedCount);
    FourBytesAt(payload, at + 12, status.uptimeSecs);
  }

  lemma StatusLayout(status: HubStatus)
    requires |status.ip| == 4
    ensures ResponseLaidOut(StatusFields(status), Status(status))
  {
    hide LittleEndian, Counters, CountersAt;
    SixteenBytes(status);
    var payload := StatusFields(status);
    assert payload[6..22] == Counters(status);
    CountersAreAt(payload, 6, status);
  }

  lemma SixteenBytes(status: HubStatus)
    ensures |Counters(status)| == 16
  {
    hide PutU32;
    WordBytes(status.uplinkCount);
    WordBytes(status.downlinkCount);
    WordBytes(status.droppedCount);
    WordBytes(status.uptimeSecs);
  }

  lemma NetworkHead(payload: seq<u8>, mode: u8, port: u16, gw: GatewaySettings, rest: seq<u8>)
    requires payload == [mode] + (PutU16(port) + (GatewayPrefix(gw) + rest))
    ensures |payload| == 15 + |rest| && payload[0] == mode && LittleEndian(payload, 1, 2) == port && GatewayAt(payload, 3, gw)
    ensures payload[15..] == rest
  {
    hide LittleEndian, PutU16, GatewayPrefix, GatewayAt;
    PortBytes(port);
    TwelveBytes(gw);
    assert payload[1..3] == PutU16(port);
    assert payload[3..15] == GatewayPrefix(gw);
    TwoBytesAt(payload, 1, port);
    PrefixAt(payload, 3, gw);
  }

  lemma FourTexts(bytes: seq<u8>, a: Text, b: Text, c: Text, d: Text)
    requires |a| < 0x100 && |b| < 0x100 && |c| < 0x100 && |d| < 0x100
    requires |bytes| >= 15 && bytes[15..] == PutText(a) + (PutText(b) + (PutText(c) + PutText(d)))
    ensures |bytes| == 19 + |a| + |b| + |c| + |d|
    ensures TextAt(bytes, 15, a) && TextAt(bytes, 16 + |a|, b) && TextAt(bytes, 17 + |a| + |b|, c) && TextAt(bytes, 18 + |a| + |b| + |c|, d)
  {
    var n := |bytes|;
    assert n == 19 + |a| + |b| + |c| + |d|;
    hide PutText, TextAt;
    TextFollows(bytes, 15, a, PutText(b) + (PutText(c) + PutText(d)));
    TextFollows(bytes, 16 + |a|, b, PutText(c) + PutText(d));
    TextFollows(bytes, 17 + |a| + |b|, c, PutText(d));
    assert PutText(d) == PutText(d) + [];
    TextFollows(bytes, 18 + |a| + |b| + |c|, d, []);
  }

  lemma NetworkLayout(codec: Codec, r: HubResponse)
    requires r.NetworkConfig? && ValidResponse(codec, r)
    ensures ResponseLaidOut(ResponsePayload(codec, r), r)
  {
    hide LittleEndian, PutU16, GatewayPrefix, GatewayAt, PutText, TextAt;
    var texts := PutText(r.wifiSsid) + (PutText(r.mqtt.host) + (PutText(r.mqtt.clientId) + PutText(r.gateway.host)));
    NetworkHead(ResponsePayload(codec, r), ModeByte(r.mode), r.mqtt.port, r.gateway, texts);
    FourTexts(ResponsePayload(codec, r), r.wifiSsid, r.mqtt.host, r.mqtt.clientId, r.gateway.host);
  }

  /** A text at the front of what is left, and where the rest begins. */
  lemma TextFollows(bytes: seq<u8>, at: nat, t: Text, rest: seq<u8>)
    requires |t| < 0x100 && at <= |bytes| && bytes[at..] == PutText(t) + rest
    ensures TextAt(bytes, at, t) && bytes[at + 1 + |t|..] == rest
  {
    var tail := bytes[at..];
    assert bytes[at] == tail[0];
    assert bytes[at + 1..at + 1 + |t|] == tail[1..1 + |t|] == t;
    assert bytes[at + 1 + |t|..] == tail[1 + |t|..] == rest;
  }

  /** A response's frame, likewise. */
  lemma ResponseOnTheWire(codec: Codec, response: HubResponse)
    requires ValidResponse(codec, response)
    ensures var frame := EncodeResponse(codec, response);
            var n := |frame|;
            && n >= 6 && frame[0] == 1 && frame[1] == ResponseIdByte(response) && LittleEndian(frame, 2, 2) == n - 6
            && ResponseLaidOut(frame[4..n - 2], response) && LittleEndian(frame, n - 2, 2) == codec.crc(frame[..n - 2])
  {
    hide LittleEndian, ResponseLaidOut, ResponsePayload, BuildRaw;
    var payload := ResponsePayload(codec, response);
    match response {
      case NetworkConfig(_, _, _, _) => NetworkLayout(codec, response);
      case Status(status) => StatusPayload(codec, status);
      case ConfigAck(_) => AckLayout(codec, response);
    }
    RawOnTheWire(codec, ResponseId(response), payload);
  }

  lemma StatusPayload(codec: Codec, status: HubStatus)
    requires |status.ip| == 4
    ensures ResponseLaidOut(ResponsePayload(codec, Status(status)), Status(status))
  {
    hide ResponseLaidOut, StatusFields;
    StatusLayout(status);
  }

  lemma AckLayout(codec: Codec, response: HubResponse)
    requires response.ConfigAck?
    ensures ResponseLaidOut(ResponsePayload(codec, response), response)
  {}

  // ----- Refusals ------------------------------------------------------------

  /** The bytes hold a whole frame by its length field. */
  predicate Whole(data: seq<u8>) {
    |data| >= 6 && |data| >= 6 + LittleEndian(data, 2, 2)
  }

  predicate Intact(codec: Codec, data: seq<u8>)
    requires Whole(data)
  {
    var n := 4 + LittleEndian(data, 2, 2);
    codec.crc(data[..n]) == LittleEndian(data, n, 2)
  }

  lemma TwoLow(bytes: seq<u8>, at: nat)
    requires at + 2 <= |bytes|
    ensures LittleEndian(bytes, at, 2) == FromLe16(bytes[at], bytes[at + 1])
  {
    assert LittleEndian(bytes, at + 2, 0) == 0;
    assert LittleEndian(bytes, at + 1, 1) == bytes[at + 1];
  }

  /**
   Which refusal any bytes get: the version is judged before the length, the length before the
   CRC, and only then the command; what is wrong with its payload is a bad length, but for a
   mode byte that names no mode.
   */
  lemma RefusalIff(codec: Codec, data: seq<u8>)
    ensures ParseCommand(codec, data) == Err(BadVersion) <==> |data| >= 6 && data[0] != 1
    ensures ParseCommand(codec, data) == Err(BadCrc) <==> |data| >= 6 && data[0] == 1 && Whole(data) && !Intact(codec, data)
    ensures ParseCommand(codec, data) == Err(BadCommand)
            <==> |data| >= 6 && data[0] == 1 && Whole(data) && Intact(codec, data) && !(0x20 <= data[1] <= 0x26)
    ensures ParseCommand(codec, data) == Err(BadParameter)
            <==> |data| >= 7 && data[0] == 1 && Whole(data) && Intact(codec, data) && data[1] == 0x24
                 && LittleEndian(data, 2, 2) >= 1 && data[4] > 1
  {
    hide LittleEndian, GetText, GetGatewayFields, GetU16, FromLe16;
    if |data| >= 6 {
      TwoLow(data, 2);
      if Whole(data) {
        TwoLow(data, 4 + LittleEndian(data, 2, 2));
      }
    }
  }
}
