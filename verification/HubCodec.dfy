/**
 The hub protocol's frames (hub-protocol/src/codec.rs): version, id, length, payload and CRC.
 Printers and parsers as functions; parsers take what is left of the payload and return the
 value read with what is left after it. The CRC and UTF-8 validity are parameters.
 */
module HubCodec {
  import opened Prelude
  import opened HubTypes

  const PROTOCOL_VERSION: u8 := 1

  datatype ParseError = TooShort | InvalidVersion | CrcError | BadPayload | UnknownId(id: u8)

  datatype Refusal = BadVersion | BadCrc | BadLength | BadParameter | BadCommand

  datatype Codec = Codec(crc: seq<u8> -> u16, utf8: seq<u8> -> bool)

  type Read<T> = Result<(T, seq<u8>), ParseError>

  // ----- Fields --------------------------------------------------------------

  function PutU16(x: u16): seq<u8> {
    [x % 0x100, x / 0x100]
  }

  /** Little-endian: the low half first. */
  function PutU32(x: u32): seq<u8> {
    PutU16(x % 0x1_0000) + PutU16(x / 0x1_0000)
  }

  function PutText(t: Text): seq<u8>
    requires |t| < 0x100
  {
    [|t|] + t
  }

  function Take(d: seq<u8>, n: nat): Read<seq<u8>> {
    if |d| < n then Err(TooShort) else Ok((d[..n], d[n..]))
  }

  function GetU8(d: seq<u8>): Read<u8> {
    if |d| < 1 then Err(TooShort) else Ok((d[0], d[1..]))
  }

  function GetU16(d: seq<u8>): Read<u16> {
    if |d| < 2 then Err(TooShort) else Ok((FromLe16(d[0], d[1]), d[2..]))
  }

  function FromLe16(b0: int, b1: int): u16
    requires 0 <= b0 < 0x100 && 0 <= b1 < 0x100
  {
    b0 + b1 * 0x100
  }

  function FromLe32(low: int, high: int): u32
    requires 0 <= low < 0x1_0000 && 0 <= high < 0x1_0000
  {
    low + high * 0x1_0000
  }

  function GetU32(d: seq<u8>): Read<u32> {
    if |d| < 4 then Err(TooShort) else Ok((FromLe32(FromLe16(d[0], d[1]), FromLe16(d[2], d[3])), d[4..]))
  }

  /** A one-byte-length-prefixed text of at most `cap` bytes. */
  function GetText(codec: Codec, cap: nat, d: seq<u8>): Read<Text> {
    if |d| < 1 then Err(TooShort)
    else if d[0] > cap then Err(BadPayload)
    else
      var length: int := d[0];
      var n: nat := 1 + length;
      if |d| < n then Err(TooShort)
      else if codec.utf8(d[1..n]) then Ok((d[1..n], d[n..])) else Err(BadPayload)
  }

  predicate ValidText(codec: Codec, cap: nat, t: Text) {
    |t| <= cap && codec.utf8(t)
  }

  lemma U16Inverse(x: u16, rest: seq<u8>)
    ensures GetU16(PutU16(x) + rest) == Ok((x, rest))
  {}

  lemma U16Unique(d: seq<u8>)
    requires GetU16(d).Ok?
    ensures d == PutU16(GetU16(d).value.0) + GetU16(d).value.1
  {
    assert d == [d[0], d[1]] + d[2..];
  }

  lemma U32Inverse(x: u32, rest: seq<u8>)
    ensures GetU32(PutU32(x) + rest) == Ok((x, rest))
  {}

  lemma Le16Digits(b0: int, b1: int)
    requires 0 <= b0 < 0x100 && 0 <= b1 < 0x100
    ensures PutU16(FromLe16(b0, b1)) == [b0, b1]
  {}

  lemma Halves(low: int, high: int)
    requires 0 <= low < 0x1_0000 && 0 <= high < 0x1_0000
    ensures PutU32(FromLe32(low, high)) == PutU16(low) + PutU16(high)
  {
    hide PutU16;
    var x := FromLe32(low, high);
    assert x / 0x1_0000 == high && x % 0x1_0000 == low;
  }

  lemma U32Unique(d: seq<u8>)
    requires GetU32(d).Ok?
    ensures d == PutU32(GetU32(d).value.0) + GetU32(d).value.1
  {
    hide PutU16, PutU32, FromLe16, FromLe32;
    Le16Digits(d[0], d[1]);
    Le16Digits(d[2], d[3]);
    Halves(FromLe16(d[0], d[1]), FromLe16(d[2], d[3]));
    assert d == [d[0], d[1]] + [d[2], d[3]] + d[4..];
  }

  lemma TextInverse(codec: Codec, cap: nat, t: Text, rest: seq<u8>)
    requires cap < 0x100 && ValidText(codec, cap, t)
    ensures GetText(codec, cap, PutText(t) + rest) == Ok((t, rest))
  {
    var d := PutText(t) + rest;
    assert d[1..1 + |t|] == t && d[1 + |t|..] == rest;
  }

  lemma TextUnique(codec: Codec, cap: nat, d: seq<u8>)
    requires cap < 0x100 && GetText(codec, cap, d).Ok?
    ensures var (t, rest) := GetText(codec, cap, d).value; ValidText(codec, cap, t) && d == PutText(t) + rest
  {
    var n := 1 + |GetText(codec, cap, d).value.0|;
    assert d == [d[0]] + d[1..n] + d[n..];
  }

  // ----- Frames --------------------------------------------------------------

  function BuildRaw(codec: Codec, id: u8, payload: seq<u8>): seq<u8>
    requires |payload| < U16_SIZE
  {
    var frame := [PROTOCOL_VERSION, id] + PutU16(|payload|) + payload;
    frame + PutU16(codec.crc(frame))
  }

  function ParseRaw(codec: Codec, data: seq<u8>): Result<(u8, seq<u8>), ParseError> {
    if |data| < 6 then Err(TooShort)
    else if data[0] != PROTOCOL_VERSION then Err(InvalidVersion)
    else
      var length := FromLe16(data[2], data[3]);
      if |data| < 4 + length + 2 then Err(TooShort)
      else if codec.crc(data[..4 + length]) != FromLe16(data[4 + length], data[5 + length]) then Err(CrcError)
      else Ok((data[1], data[4..4 + length]))
  }

  /** A frame parses back, whatever follows its CRC. */
  lemma RawInverse(codec: Codec, id: u8, payload: seq<u8>, trailing: seq<u8>)
    requires |payload| < U16_SIZE
    ensures ParseRaw(codec, BuildRaw(codec, id, payload) + trailing) == Ok((id, payload))
  {
    var frame := [PROTOCOL_VERSION, id] + PutU16(|payload|) + payload;
    var data := BuildRaw(codec, id, payload) + trailing;
    assert data[..4 + |payload|] == frame && data[4..4 + |payload|] == payload;
    assert FromLe16(data[2], data[3]) == |payload|;
    assert data[4 + |payload|] == PutU16(codec.crc(frame))[0] && data[5 + |payload|] == PutU16(codec.crc(frame))[1];
  }

  /** Whatever parses begins with exactly the frame of the result. */
  lemma RawUnique(codec: Codec, data: seq<u8>)
    requires ParseRaw(codec, data).Ok?
    ensures var (id, payload) := ParseRaw(codec, data).value;
            |payload| < U16_SIZE && |data| >= 6 + |payload| && data[..6 + |payload|] == BuildRaw(codec, id, payload)
  {
    var (id, payload) := ParseRaw(codec, data).value;
    var n := |payload|;
    U16Unique(data[2..4]);
    assert data[2..4] == PutU16(n);
    var frame := [PROTOCOL_VERSION, id] + PutU16(n) + payload;
    assert data[..4 + n] == frame;
    U16Unique(data[4 + n..6 + n]);
    assert data[4 + n..6 + n] == PutU16(codec.crc(frame));
    assert data[..6 + n] == data[..4 + n] + data[4 + n..6 + n];
  }

  // ----- Printing ------------------------------------------------------------

  /** The fixed-width gateway fields: frequency, spreading factor, bandwidth, coding rate, port. */
  function GatewayPrefix(gw: GatewaySettings): seq<u8> {
    PutU32(gw.frequencyHz) + ([gw.spreadingFactor] + (PutU32(gw.bandwidthKhz) + ([gw.codingRate] + PutU16(gw.port))))
  }

  function GatewayFields(gw: GatewaySettings): seq<u8>
    requires |gw.host| < 0x100
  {
    GatewayPrefix(gw) + PutText(gw.host)
  }

  predicate ValidCommand(codec: Codec, command: HubCommand) {
    match command
    case SetWifiConfig(wifi) => ValidText(codec, MAX_SSID_LEN, wifi.ssid) && ValidText(codec, MAX_PASSWORD_LEN, wifi.password)
    case SetMqttConfig(mqtt) => ValidText(codec, MAX_HOST_LEN, mqtt.host) && ValidText(codec, MAX_CLIENT_ID_LEN, mqtt.clientId)
    case SetGatewayConfig(gw) => ValidText(codec, MAX_HOST_LEN, gw.host)
    case _ => true
  }

  function CommandPayload(codec: Codec, command: HubCommand): (payload: seq<u8>)
    requires ValidCommand(codec, command)
    ensures |payload| <= 211
  {
    match command
    case SetWifiConfig(wifi) => PutText(wifi.ssid) + PutText(wifi.password)
    case SetMqttConfig(mqtt) => PutU16(mqtt.port) + (PutText(mqtt.host) + PutText(mqtt.clientId))
    case SetMode(mode) => [ModeByte(mode)]
    case SetGatewayConfig(gw) => GatewayFields(gw)
    case _ => []
  }

  function EncodeCommand(codec: Codec, command: HubCommand): seq<u8>
    requires ValidCommand(codec, command)
  {
    BuildRaw(codec, CommandId(command), CommandPayload(codec, command))
  }

  // ----- Parsing commands ----------------------------------------------------

  /** The fixed-width fields; the host is read later. */
  function GetGatewayPrefix(d: seq<u8>): Read<GatewaySettings> {
    var frequency := GetU32(d);
    if frequency.Err? then Err(frequency.error) else
    var sf := GetU8(frequency.value.1);
    if sf.Err? then Err(sf.error) else
    var bandwidth := GetU32(sf.value.1);
    if bandwidth.Err? then Err(bandwidth.error) else
    var cr := GetU8(bandwidth.value.1);
    if cr.Err? then Err(cr.error) else
    var port := GetU16(cr.value.1);
    if port.Err? then Err(port.error) else
    Ok((GatewaySettings(frequency.value.0, sf.value.0, bandwidth.value.0, cr.value.0, [], port.value.0), port.value.1))
  }

  function GetGatewayFields(codec: Codec, d: seq<u8>): Read<GatewaySettings> {
    var prefix := GetGatewayPrefix(d);
    if prefix.Err? then Err(prefix.error) else
    var host := GetText(codec, MAX_HOST_LEN, prefix.value.1);
    if host.Err? then Err(host.error) else
    Ok((prefix.value.0.(host := host.value.0), host.value.1))
  }

  /** The body of one command, by id, with what is left of the payload. */
  function GetCommand(codec: Codec, id: u8, d: seq<u8>): Result<(HubCommand, seq<u8>), Refusal> {
    match id
    case 0x20 =>
      var ssid := GetText(codec, MAX_SSID_LEN, d);
      if ssid.Err? then Err(BadLength) else
      var password := GetText(codec, MAX_PASSWORD_LEN, ssid.value.1);
      if password.Err? then Err(BadLength) else
      Ok((SetWifiConfig(WifiSettings(ssid.value.0, password.value.0)), password.value.1))
    case 0x21 =>
      var port := GetU16(d);
      if port.Err? then Err(BadLength) else
      var host := GetText(codec, MAX_HOST_LEN, port.value.1);
      if host.Err? then Err(BadLength) else
      var clientId := GetText(codec, MAX_CLIENT_ID_LEN, host.value.1);
      if clientId.Err? then Err(BadLength) else
      Ok((SetMqttConfig(MqttSettings(host.value.0, port.value.0, clientId.value.0)), clientId.value.1))
    case 0x22 => Ok((GetNetworkConfig, d))
    case 0x23 => Ok((GetHubStatus, d))
    case 0x24 =>
      var mode := GetU8(d);
      if mode.Err? then Err(BadLength)
      else if ModeFromByte(mode.value.0).None? then Err(BadParameter)
      else Ok((SetMode(ModeFromByte(mode.value.0).value), mode.value.1))
    case 0x25 => Ok((ClearNetworkConfig, d))
    case 0x26 =>
      var gw := GetGatewayFields(codec, d);
      if gw.Err? then Err(BadLength) else Ok((SetGatewayConfig(gw.value.0), gw.value.1))
    case _ => Err(BadCommand)
  }

  function ParseCommand(codec: Codec, data: seq<u8>): Result<HubCommand, Refusal> {
    match ParseRaw(codec, data)
    case Err(error) => Err(if error == InvalidVersion then BadVersion else if error == CrcError then BadCrc else BadLength)
    case Ok((id, payload)) =>
      match GetCommand(codec, id, payload)
      case Err(refusal) => Err(refusal)
      case Ok((command, rest)) => if rest == [] then Ok(command) else Err(BadLength)
  }

  lemma PrefixInverse(gw: GatewaySettings, rest: seq<u8>)
    ensures GetGatewayPrefix(GatewayPrefix(gw) + rest) == Ok((gw.(host := []), rest))
  {
    var e := PutU16(gw.port) + rest;
    var d := [gw.codingRate] + e;
    var c := PutU32(gw.bandwidthKhz) + d;
    var b := [gw.spreadingFactor] + c;
    assert GatewayPrefix(gw) + rest == PutU32(gw.frequencyHz) + b;
    U32Inverse(gw.frequencyHz, b);
    U32Inverse(gw.bandwidthKhz, d);
    U16Inverse(gw.port, rest);
    assert b[1..] == c && d[1..] == e;
  }

  lemma PrefixUnique(d: seq<u8>)
    requires GetGatewayPrefix(d).Ok?
    ensures d == GatewayPrefix(GetGatewayPrefix(d).value.0) + GetGatewayPrefix(d).value.1
  {
    hide PutU32, PutU16;
    var (gw, rest) := GetGatewayPrefix(d).value;
    var d1 := GetU32(d).value.1;
    var d2 := d1[1..];
    var d3 := GetU32(d2).value.1;
    var d4 := d3[1..];
    U32Unique(d);
    U32Unique(d2);
    U16Unique(d4);
    assert d1 == [gw.spreadingFactor] + d2 && d3 == [gw.codingRate] + d4;
    Regroup(PutU32(gw.frequencyHz), [gw.spreadingFactor], PutU32(gw.bandwidthKhz), [gw.codingRate], PutU16(gw.port), rest);
  }

  lemma Regroup(a: seq<u8>, b: seq<u8>, c: seq<u8>, d: seq<u8>, e: seq<u8>, rest: seq<u8>)
    ensures (a + (b + (c + (d + e)))) + rest == a + (b + (c + (d + (e + rest))))
  {
    assert (d + e) + rest == d + (e + rest);
    assert (c + (d + e)) + rest == c + ((d + e) + rest);
    assert (b + (c + (d + e))) + rest == b + ((c + (d + e)) + rest);
  }

  lemma PrefixIgnoresHost(gw: GatewaySettings, host: Text)
    ensures GatewayPrefix(gw.(host := host)) == GatewayPrefix(gw)
  {}

  lemma GatewayInverse(codec: Codec, gw: GatewaySettings, rest: seq<u8>)
    requires ValidText(codec, MAX_HOST_LEN, gw.host)
    ensures GetGatewayFields(codec, GatewayFields(gw) + rest) == Ok((gw, rest))
  {
    hide GatewayPrefix, GetGatewayPrefix, PutText, GetText;
    assert GatewayFields(gw) + rest == GatewayPrefix(gw) + (PutText(gw.host) + rest);
    PrefixInverse(gw, PutText(gw.host) + rest);
    TextInverse(codec, MAX_HOST_LEN, gw.host, rest);
  }

  lemma GatewayUnique(codec: Codec, d: seq<u8>)
    requires GetGatewayFields(codec, d).Ok?
    ensures var (gw, rest) := GetGatewayFields(codec, d).value;
            ValidText(codec, MAX_HOST_LEN, gw.host) && d == GatewayFields(gw) + rest
  {
    hide GatewayPrefix, GetGatewayPrefix, PutText, GetText;
    var (gw, rest) := GetGatewayFields(codec, d).value;
    var (prefix, d1) := GetGatewayPrefix(d).value;
    PrefixUnique(d);
    PrefixIgnoresHost(prefix, gw.host);
    TextUnique(codec, MAX_HOST_LEN, d1);
    assert GatewayPrefix(gw) + (PutText(gw.host) + rest) == GatewayFields(gw) + rest;
  }

  lemma CommandBodyInverse(codec: Codec, command: HubCommand)
    requires ValidCommand(codec, command)
    ensures GetCommand(codec, CommandId(command), CommandPayload(codec, command)) == Ok((command, []))
  {
    hide PutText, GetText, PutU16, GetU16, GatewayFields, GetGatewayFields;
    var d := CommandPayload(codec, command);
    match command {
      case SetWifiConfig(wifi) =>
        TextInverse(codec, MAX_SSID_LEN, wifi.ssid, PutText(wifi.password));
        TextInverse(codec, MAX_PASSWORD_LEN, wifi.password, []);
        assert PutText(wifi.password) + [] == PutText(wifi.password);
      case SetMqttConfig(mqtt) =>
        U16Inverse(mqtt.port, PutText(mqtt.host) + PutText(mqtt.clientId));
        TextInverse(codec, MAX_HOST_LEN, mqtt.host, PutText(mqtt.clientId));
        TextInverse(codec, MAX_CLIENT_ID_LEN, mqtt.clientId, []);
        assert PutText(mqtt.clientId) + [] == PutText(mqtt.clientId);
      case SetGatewayConfig(gw) =>
        GatewayInverse(codec, gw, []);
        assert GatewayFields(gw) + [] == d;
      case SetMode(_) =>
        assert d[1..] == [];
      case _ =>
    }
  }

  lemma CommandBodyUnique(codec: Codec, id: u8, d: seq<u8>)
    requires GetCommand(codec, id, d).Ok? && GetCommand(codec, id, d).value.1 == []
    ensures var command := GetCommand(codec, id, d).value.0;
            ValidCommand(codec, command) && id == CommandId(command) && d == CommandPayload(codec, command)
  {
    match id {
      case 0x20 =>
        TextUnique(codec, MAX_SSID_LEN, d);
        TextUnique(codec, MAX_PASSWORD_LEN, GetText(codec, MAX_SSID_LEN, d).value.1);
      case 0x21 =>
        U16Unique(d);
        var d1 := GetU16(d).value.1;
        TextUnique(codec, MAX_HOST_LEN, d1);
        TextUnique(codec, MAX_CLIENT_ID_LEN, GetText(codec, MAX_HOST_LEN, d1).value.1);
      case 0x24 =>
        assert d == [d[0]] + d[1..];
      case 0x26 =>
        GatewayUnique(codec, d);
      case _ =>
    }
  }

  /** Every in-cap command parses back from its frame. */
  lemma CommandRoundTrip(codec: Codec, command: HubCommand, trailing: seq<u8>)
    requires ValidCommand(codec, command)
    ensures ParseCommand(codec, EncodeCommand(codec, command) + trailing) == Ok(command)
  {
    RawInverse(codec, CommandId(command), CommandPayload(codec, command), trailing);
    CommandBodyInverse(codec, command);
  }

  /** Whatever parses as a command is in cap and begins with exactly that command's frame. */
  lemma CommandEncodingUnique(codec: Codec, data: seq<u8>)
    requires ParseCommand(codec, data).Ok?
    ensures var command := ParseCommand(codec, data).value;
            ValidCommand(codec, command) && EncodeCommand(codec, command) <= data
  {
    var (id, payload) := ParseRaw(codec, data).value;
    RawUnique(codec, data);
    CommandBodyUnique(codec, id, payload);
  }

  // ----- Responses -----------------------------------------------------------

  predicate ValidResponse(codec: Codec, response: HubResponse) {
    match response
    case NetworkConfig(_, ssid, mqtt, gw) =>
      && ValidText(codec, MAX_SSID_LEN, ssid) && ValidText(codec, MAX_HOST_LEN, mqtt.host)
      && ValidText(codec, MAX_CLIENT_ID_LEN, mqtt.clientId) && ValidText(codec, MAX_HOST_LEN, gw.host)
    case Status(status) => |status.ip| == 4
    case ConfigAck(_) => true
  }

  function Counters(status: HubStatus): seq<u8> {
    PutU32(status.uplinkCount) + (PutU32(status.downlinkCount) + (PutU32(status.droppedCount) + PutU32(status.uptimeSecs)))
  }

  function StatusFields(status: HubStatus): seq<u8> {
    [LinkByte(status.wifiState)] + (status.ip + ([LinkByte(status.mqttState)] + Counters(status)))
  }

  function ResponsePayload(codec: Codec, response: HubResponse): (payload: seq<u8>)
    requires ValidResponse(codec, response)
    ensures |payload| <= 211
  {
    match response
    case NetworkConfig(mode, ssid, mqtt, gw) =>
      [ModeByte(mode)] + (PutU16(mqtt.port) + (GatewayPrefix(gw)
        + (PutText(ssid) + (PutText(mqtt.host) + (PutText(mqtt.clientId) + PutText(gw.host))))))
    case Status(status) => StatusFields(status)
    case ConfigAck(ack) => [AckByte(ack)]
  }

  function EncodeResponse(codec: Codec, response: HubResponse): seq<u8>
    requires ValidResponse(codec, response)
  {
    BuildRaw(codec, ResponseId(response), ResponsePayload(codec, response))
  }

  function GetMode(d: seq<u8>): Read<HubMode> {
    var b := GetU8(d);
    if b.Err? then Err(b.error)
    else if ModeFromByte(b.value.0).None? then Err(BadPayload)
    else Ok((ModeFromByte(b.value.0).value, b.value.1))
  }

  function GetLink(d: seq<u8>): Read<LinkState> {
    var b := GetU8(d);
    if b.Err? then Err(b.error)
    else if LinkFromByte(b.value.0).None? then Err(BadPayload)
    else Ok((LinkFromByte(b.value.0).value, b.value.1))
  }

  function GetNetwork(codec: Codec, d: seq<u8>): Read<HubResponse> {
    var mode := GetMode(d);
    if mode.Err? then Err(mode.error) else
    var port := GetU16(mode.value.1);
    if port.Err? then Err(port.error) else
    var prefix := GetGatewayPrefix(port.value.1);
    if prefix.Err? then Err(prefix.error) else
    var ssid := GetText(codec, MAX_SSID_LEN, prefix.value.1);
    if ssid.Err? then Err(ssid.error) else
    var host := GetText(codec, MAX_HOST_LEN, ssid.value.1);
    if host.Err? then Err(host.error) else
    var clientId := GetText(codec, MAX_CLIENT_ID_LEN, host.value.1);
    if clientId.Err? then Err(clientId.error) else
    var gwHost := GetText(codec, MAX_HOST_LEN, clientId.value.1);
    if gwHost.Err? then Err(gwHost.error) else
    Ok((NetworkConfig(mode.value.0, ssid.value.0, MqttSettings(host.value.0, port.value.0, clientId.value.0),
                      prefix.value.0.(host := gwHost.value.0)), gwHost.value.1))
  }

  function GetCounters(d: seq<u8>): Read<(u32, u32, u32, u32)> {
    var up := GetU32(d);
    if up.Err? then Err(up.error) else
    var down := GetU32(up.value.1);
    if down.Err? then Err(down.error) else
    var dropped := GetU32(down.value.1);
    if dropped.Err? then Err(dropped.error) else
    var uptime := GetU32(dropped.value.1);
    if uptime.Err? then Err(uptime.error) else
    Ok(((up.value.0, down.value.0, dropped.value.0, uptime.value.0), uptime.value.1))
  }

  function GetStatus(d: seq<u8>): Read<HubResponse> {
    var wifi := GetLink(d);
    if wifi.Err? then Err(wifi.error) else
    var ip := Take(wifi.value.1, 4);
    if ip.Err? then Err(ip.error) else
    var mqtt := GetLink(ip.value.1);
    if mqtt.Err? then Err(mqtt.error) else
    var counters := GetCounters(mqtt.value.1);
    if counters.Err? then Err(counters.error) else
    var (up, down, dropped, uptime) := counters.value.0;
    Ok((Status(HubStatus(wifi.value.0, ip.value.0, mqtt.value.0, up, down, dropped, uptime)), counters.value.1))
  }

  function GetResponse(codec: Codec, id: u8, d: seq<u8>): Read<HubResponse> {
    match id
    case 0x20 => GetNetwork(codec, d)
    case 0x21 => GetStatus(d)
    case 0x22 =>
      var b := GetU8(d);
      if b.Err? then Err(b.error)
      else if AckFromByte(b.value.0).None? then Err(BadPayload)
      else Ok((ConfigAck(AckFromByte(b.value.0).value), b.value.1))
    case _ => Err(UnknownId(id))
  }

  function ParseResponse(codec: Codec, data: seq<u8>): Result<HubResponse, ParseError> {
    match ParseRaw(codec, data)
    case Err(error) => Err(error)
    case Ok((id, payload)) =>
      match GetResponse(codec, id, payload)
      case Err(error) => Err(error)
      case Ok((response, rest)) => if rest == [] then Ok(response) else Err(BadPayload)
  }

  lemma NetworkInverse(codec: Codec, r: HubResponse)
    requires r.NetworkConfig? && ValidResponse(codec, r)
    ensures GetNetwork(codec, ResponsePayload(codec, r)) == Ok((r, []))
  {
    hide PutU16, GetU16, PutText, GetText, GatewayPrefix, GetGatewayPrefix;
    var f := PutText(r.mqtt.clientId) + PutText(r.gateway.host);
    var e := PutText(r.mqtt.host) + f;
    var c := PutText(r.wifiSsid) + e;
    var b := GatewayPrefix(r.gateway) + c;
    var a := PutU16(r.mqtt.port) + b;
    assert ([ModeByte(r.mode)] + a)[1..] == a;
    U16Inverse(r.mqtt.port, b);
    PrefixInverse(r.gateway, c);
    TextInverse(codec, MAX_SSID_LEN, r.wifiSsid, e);
    TextInverse(codec, MAX_HOST_LEN, r.mqtt.host, f);
    TextInverse(codec, MAX_CLIENT_ID_LEN, r.mqtt.clientId, PutText(r.gateway.host));
    TextInverse(codec, MAX_HOST_LEN, r.gateway.host, []);
    assert PutText(r.gateway.host) + [] == PutText(r.gateway.host);
  }

  lemma NetworkUnique(codec: Codec, d: seq<u8>)
    requires GetNetwork(codec, d).Ok? && GetNetwork(codec, d).value.1 == []
    ensures var r := GetNetwork(codec, d).value.0;
            r.NetworkConfig? && ValidResponse(codec, r) && d == ResponsePayload(codec, r)
  {
    hide PutU16, GetU16, PutText, GetText, GatewayPrefix, GetGatewayPrefix, PutU32;
    var d1 := d[1..];
    var d2 := GetU16(d1).value.1;
    var d3 := GetGatewayPrefix(d2).value.1;
    var d4 := GetText(codec, MAX_SSID_LEN, d3).value.1;
    var d5 := GetText(codec, MAX_HOST_LEN, d4).value.1;
    var d6 := GetText(codec, MAX_CLIENT_ID_LEN, d5).value.1;
    U16Unique(d1);
    PrefixUnique(d2);
    TextUnique(codec, MAX_SSID_LEN, d3);
    TextUnique(codec, MAX_HOST_LEN, d4);
    TextUnique(codec, MAX_CLIENT_ID_LEN, d5);
    TextUnique(codec, MAX_HOST_LEN, d6);
    assert d == [d[0]] + d1;
    var r := GetNetwork(codec, d).value.0;
    PrefixIgnoresHost(GetGatewayPrefix(d2).value.0, r.gateway.host);
  }

  lemma CountersInverse(status: HubStatus)
    ensures GetCounters(Counters(status)) == Ok(((status.uplinkCount, status.downlinkCount, status.droppedCount, status.uptimeSecs), []))
  {
    hide PutU32, GetU32;
    var f := PutU32(status.droppedCount) + PutU32(status.uptimeSecs);
    U32Inverse(status.uplinkCount, PutU32(status.downlinkCount) + f);
    U32Inverse(status.downlinkCount, f);
    U32Inverse(status.droppedCount, PutU32(status.uptimeSecs));
    U32Inverse(status.uptimeSecs, []);
    assert PutU32(status.uptimeSecs) + [] == PutU32(status.uptimeSecs);
  }

  lemma CountersUnique(d: seq<u8>)
    requires GetCounters(d).Ok? && GetCounters(d).value.1 == []
    ensures var c := GetCounters(d).value.0; d == PutU32(c.0) + PutU32(c.1) + PutU32(c.2) + PutU32(c.3)
  {
    hide PutU32, GetU32;
    var d1 := GetU32(d).value.1;
    var d2 := GetU32(d1).value.1;
    var d3 := GetU32(d2).value.1;
    var c := GetCounters(d).value.0;
    U32Unique(d);
    U32Unique(d1);
    U32Unique(d2);
    U32Unique(d3);
    assert PutU32(c.3) + [] == PutU32(c.3);
  }

  lemma StatusInverse(status: HubStatus)
    requires |status.ip| == 4
    ensures GetStatus(StatusFields(status)) == Ok((Status(status), []))
  {
    hide Counters, GetCounters;
    var b := [LinkByte(status.mqttState)] + Counters(status);
    var a := status.ip + b;
    assert StatusFields(status)[1..] == a && a[..4] == status.ip && a[4..] == b && b[1..] == Counters(status);
    CountersInverse(status);
  }

  lemma StatusUnique(d: seq<u8>)
    requires GetStatus(d).Ok? && GetStatus(d).value.1 == []
    ensures var r := GetStatus(d).value.0; r.Status? && |r.status.ip| == 4 && d == StatusFields(r.status)
  {
    hide PutU32, GetCounters;
    var d1 := d[1..];
    var d2 := d1[4..];
    var d3 := d2[1..];
    var status := GetStatus(d).value.0.status;
    assert GetLink(d).value.1 == d1 && Take(d1, 4).value.1 == d2 && GetLink(d2).value.1 == d3;
    CountersUnique(d3);
    assert d3 == Counters(status);
    assert d == [d[0]] + d1 && d1 == d1[..4] + d2 && d2 == [d2[0]] + d3;
  }

  /** Every in-cap response parses back from its frame. */
  lemma ResponseRoundTrip(codec: Codec, response: HubResponse, trailing: seq<u8>)
    requires ValidResponse(codec, response)
    ensures ParseResponse(codec, EncodeResponse(codec, response) + trailing) == Ok(response)
  {
    RawInverse(codec, ResponseId(response), ResponsePayload(codec, response), trailing);
    match response {
      case NetworkConfig(_, _, _, _) => NetworkInverse(codec, response);
      case Status(status) => StatusInverse(status);
      case ConfigAck(_) => assert ResponsePayload(codec, response)[1..] == [];
    }
  }

  /** Whatever parses as a response is in cap and begins with exactly that response's frame. */
  lemma ResponseEncodingUnique(codec: Codec, data: seq<u8>)
    requires ParseResponse(codec, data).Ok?
    ensures var response := ParseResponse(codec, data).value;
            ValidResponse(codec, response) && EncodeResponse(codec, response) <= data
  {
    var (id, payload) := ParseRaw(codec, data).value;
    RawUnique(codec, data);
    match id {
      case 0x20 => NetworkUnique(codec, payload);
      case 0x21 => StatusUnique(payload);
      case 0x22 => assert payload == [payload[0]] + payload[1..] == [payload[0]];
      case _ =>
    }
  }

  /** No frame is longer than 217 bytes before COBS. */
  lemma FramesAreShort(codec: Codec, command: HubCommand, response: HubResponse)
    requires ValidCommand(codec, command) && ValidResponse(codec, response)
    ensures |EncodeCommand(codec, command)| <= 217 && |EncodeResponse(codec, response)| <= 217
  {}
}
