/** The payload reader and the device-side parser that moves it (hub-protocol/src/codec.rs). */
module HubReader {
  import opened Prelude
  import opened HubTypes
  import opened HubCodec

  /** What one read did: the value the field parser finds, and the reader moved past it. */
  ghost predicate DidRead<T>(expected: Read<T>, r: Result<T, ParseError>, rest: seq<u8>) {
    match expected
    case Ok((value, after)) => r == Ok(value) && rest == after
    case Err(error) => r == Err(error)
  }

  ghost predicate DidReadCommand(expected: Result<(HubCommand, seq<u8>), Refusal>, r: Result<HubCommand, Refusal>, rest: seq<u8>) {
    match expected
    case Ok((value, after)) => r == Ok(value) && rest == after
    case Err(error) => r == Err(error)
  }

  class PayloadReader {
    const data: seq<u8>
    var pos: nat

    ghost predicate Valid()
      reads this
    {
      pos <= |data|
    }

    function Rest(): seq<u8>
      requires Valid()
      reads this
    {
      data[pos..]
    }

    constructor (data: seq<u8>)
      ensures Valid() && Rest() == data && this.data == data
    {
      this.data, pos := data, 0;
    }

    method Take(n: nat) returns (r: Result<seq<u8>, ParseError>)
      requires Valid()
      modifies this
      ensures Valid() && DidRead(HubCodec.Take(old(Rest()), n), r, Rest())
      ensures r.Err? ==> pos == old(pos)
    {
      if pos + n > |data| {
        return Err(TooShort);
      }
      var slice := data[pos..pos + n];
      pos := pos + n;
      assert slice == old(Rest())[..n] && Rest() == old(Rest())[n..];
      return Ok(slice);
    }

    method U8() returns (r: Result<u8, ParseError>)
      requires Valid()
      modifies this
      ensures Valid() && DidRead(GetU8(old(Rest())), r, Rest())
    {
      var b := Take(1);
      return if b.Ok? then Ok(b.value[0]) else Err(b.error);
    }

    method U16() returns (r: Result<u16, ParseError>)
      requires Valid()
      modifies this
      ensures Valid() && DidRead(GetU16(old(Rest())), r, Rest())
    {
      var b := Take(2);
      return if b.Ok? then Ok(FromLe16(b.value[0], b.value[1])) else Err(b.error);
    }

    method U32() returns (r: Result<u32, ParseError>)
      requires Valid()
      modifies this
      ensures Valid() && DidRead(GetU32(old(Rest())), r, Rest())
    {
      var b := Take(4);
      return if b.Ok? then Ok(FromLe32(FromLe16(b.value[0], b.value[1]), FromLe16(b.value[2], b.value[3]))) else Err(b.error);
    }

    /** A text field; on an error the reader may have moved past its length byte. */
    method Text(codec: Codec, cap: nat) returns (r: Result<Text, ParseError>)
      requires Valid()
      modifies this
      ensures Valid() && DidRead(GetText(codec, cap, old(Rest())), r, Rest())
    {
      ghost var d := Rest();
      var length := U8();
      if length.Err? {
        return Err(length.error);
      }
      if length.value > cap {
        return Err(BadPayload);
      }
      var bytes := Take(length.value);
      if bytes.Err? {
        return Err(bytes.error);
      }
      assert d[1..][..length.value] == d[1..1 + |bytes.value|] && Rest() == d[1 + |bytes.value|..];
      return if codec.utf8(bytes.value) then Ok(bytes.value) else Err(BadPayload);
    }

    predicate Finished()
      reads this
    {
      pos == |data|
    }
  }

  method ReadGatewayFields(codec: Codec, reader: PayloadReader) returns (r: Result<GatewaySettings, ParseError>)
    requires reader.Valid()
    modifies reader
    ensures reader.Valid() && DidRead(GetGatewayFields(codec, old(reader.Rest())), r, reader.Rest())
  {
    hide GetU8, GetU16, GetU32, GetText;
    var frequency := reader.U32();
    if frequency.Err? { return Err(frequency.error); }
    var sf := reader.U8();
    if sf.Err? { return Err(sf.error); }
    var bandwidth := reader.U32();
    if bandwidth.Err? { return Err(bandwidth.error); }
    var cr := reader.U8();
    if cr.Err? { return Err(cr.error); }
    var port := reader.U16();
    if port.Err? { return Err(port.error); }
    var host := reader.Text(codec, MAX_HOST_LEN);
    if host.Err? { return Err(host.error); }
    return Ok(GatewaySettings(frequency.value, sf.value, bandwidth.value, cr.value, host.value, port.value));
  }

  method ReadWifi(codec: Codec, reader: PayloadReader) returns (r: Result<HubCommand, Refusal>)
    requires reader.Valid()
    modifies reader
    ensures reader.Valid() && DidReadCommand(GetCommand(codec, 0x20, old(reader.Rest())), r, reader.Rest())
  {
    hide GetText;
    var ssid := reader.Text(codec, MAX_SSID_LEN);
    if ssid.Err? { return Err(BadLength); }
    var password := reader.Text(codec, MAX_PASSWORD_LEN);
    if password.Err? { return Err(BadLength); }
    return Ok(SetWifiConfig(WifiSettings(ssid.value, password.value)));
  }

  method ReadMqtt(codec: Codec, reader: PayloadReader) returns (r: Result<HubCommand, Refusal>)
    requires reader.Valid()
    modifies reader
    ensures reader.Valid() && DidReadCommand(GetCommand(codec, 0x21, old(reader.Rest())), r, reader.Rest())
  {
    hide GetText, GetU16;
    var port := reader.U16();
    if port.Err? { return Err(BadLength); }
    var host := reader.Text(codec, MAX_HOST_LEN);
    if host.Err? { return Err(BadLength); }
    var clientId := reader.Text(codec, MAX_CLIENT_ID_LEN);
    if clientId.Err? { return Err(BadLength); }
    return Ok(SetMqttConfig(MqttSettings(host.value, port.value, clientId.value)));
  }

  method ReadCommand(codec: Codec, id: u8, reader: PayloadReader) returns (r: Result<HubCommand, Refusal>)
    requires reader.Valid()
    modifies reader
    ensures reader.Valid() && DidReadCommand(GetCommand(codec, id, old(reader.Rest())), r, reader.Rest())
  {
    hide GetU8, GetText, GetU16, GetGatewayFields;
    match id {
      case 0x20 => r := ReadWifi(codec, reader);
      case 0x21 => r := ReadMqtt(codec, reader);
      case 0x22 => r := Ok(GetNetworkConfig);
      case 0x23 => r := Ok(GetHubStatus);
      case 0x24 =>
        var b := reader.U8();
        if b.Err? { return Err(BadLength); }
        var mode := ModeFromByte(b.value);
        if mode.None? { return Err(BadParameter); }
        r := Ok(SetMode(mode.value));
      case 0x25 => r := Ok(ClearNetworkConfig);
      case 0x26 =>
        var gw := ReadGatewayFields(codec, reader);
        r := if gw.Err? then Err(BadLength) else Ok(SetGatewayConfig(gw.value));
      case _ => r := Err(BadCommand);
    }
  }

  /** `parse_command`: the frame checks, then the fields of the command its id names, then nothing more. */
  method ParseCommand(codec: Codec, data: seq<u8>) returns (r: Result<HubCommand, Refusal>)
    ensures r == HubCodec.ParseCommand(codec, data)
  {
    hide GetCommand, ParseRaw;
    var raw := ParseRaw(codec, data);
    if raw.Err? {
      return Err(if raw.error == InvalidVersion then BadVersion else if raw.error == CrcError then BadCrc else BadLength);
    }
    var (id, payload) := raw.value;
    var reader := new PayloadReader(payload);
    r := ReadCommand(codec, id, reader);
    if r.Ok? && !reader.Finished() {
      r := Err(BadLength);
    }
  }

  /** A vector of fixed capacity; what does not fit is dropped whole, without a word. */
  class FrameVec {
    const capacity: nat
    var bytes: seq<u8>

    constructor (capacity: nat)
      ensures this.capacity == capacity && bytes == []
    {
      this.capacity, bytes := capacity, [];
    }

    method Extend(more: seq<u8>)
      modifies this
      ensures bytes == if |old(bytes)| + |more| <= capacity then old(bytes) + more else old(bytes)
    {
      if |bytes| + |more| <= capacity {
        bytes := bytes + more;
      }
    }

    method PushString(t: Text)
      requires |t| < 0x100
      modifies this
      ensures |old(bytes)| + 1 + |t| <= capacity ==> bytes == old(bytes) + PutText(t)
    {
      ghost var before := bytes;
      Extend([|t|]);
      Extend(t);
      assert before + [|t|] + t == before + PutText(t);
    }
  }

  /** With room for the largest frame, nothing is dropped: the frame is the encoding. */
  method BuildCommandFrame(codec: Codec, command: HubCommand, capacity: nat) returns (frame: FrameVec)
    requires ValidCommand(codec, command) && capacity >= 217
    ensures frame.bytes == HubCodec.EncodeCommand(codec, command)
  {
    var payload := new FrameVec(capacity);
    match command {
      case SetWifiConfig(wifi) =>
        payload.PushString(wifi.ssid);
        payload.PushString(wifi.password);
      case SetMqttConfig(mqtt) =>
        payload.Extend(PutU16(mqtt.port));
        payload.PushString(mqtt.host);
        payload.PushString(mqtt.clientId);
      case SetMode(mode) => payload.Extend([ModeByte(mode)]);
      case SetGatewayConfig(gw) => PushGatewayFields(payload, gw);
      case _ =>
    }
    assert payload.bytes == CommandPayload(codec, command);
    frame := BuildRawFrame(codec, CommandId(command), payload.bytes, capacity);
  }

  method PushGatewayFields(payload: FrameVec, gw: GatewaySettings)
    requires |gw.host| <= MAX_HOST_LEN && |payload.bytes| + 77 <= payload.capacity
    modifies payload
    ensures payload.bytes == old(payload.bytes) + GatewayFields(gw)
  {
    hide PutText;
    payload.Extend(PutU32(gw.frequencyHz));
    payload.Extend([gw.spreadingFactor]);
    payload.Extend(PutU32(gw.bandwidthKhz));
    payload.Extend([gw.codingRate]);
    payload.Extend(PutU16(gw.port));
    payload.PushString(gw.host);
  }

  method BuildRawFrame(codec: Codec, id: u8, payload: seq<u8>, capacity: nat) returns (frame: FrameVec)
    requires |payload| + 6 <= capacity && |payload| < U16_SIZE
    ensures fresh(frame) && frame.bytes == BuildRaw(codec, id, payload)
  {
    frame := new FrameVec(capacity);
    frame.Extend([PROTOCOL_VERSION]);
    frame.Extend([id]);
    frame.Extend(PutU16(|payload|));
    frame.Extend(payload);
    assert frame.bytes == [PROTOCOL_VERSION, id] + PutU16(|payload|) + payload;
    frame.Extend(PutU16(codec.crc(frame.bytes)));
  }
}
