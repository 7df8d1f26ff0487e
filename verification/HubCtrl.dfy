/** The control task's object (src/tasks/hub_ctrl.rs). */
module HubCtrl {
  import opened Prelude
  import opened HubTypes
  import opened HubConfig

  class HubControl {
    var pending: Config
    const storeOpen: bool
    var flash: Option<Config>
    const defaults: Config

    function View(): Device
      reads this
    {
      Device(pending, storeOpen, flash)
    }

    /** Boot with whatever the flash holds. */
    constructor (before: Device, opens: bool, loads: bool, defaults: Config)
      ensures View() == Reboot(before, opens, loads, defaults) && this.defaults == defaults
    {
      this.pending := SelectConfig(if opens && loads then before.flash else None, defaults);
      this.storeOpen, this.flash, this.defaults := opens, before.flash, defaults;
    }

    method Handle(command: HubCommand, writes: bool) returns (reply: Reply)
      modifies this
      ensures (View(), reply) == HubConfig.Handle(old(View()), command, writes, defaults)
    {
      if IsQuery(command) {
        return Answer(pending, command);
      }
      var (applied, action) := ApplyCommand(pending, command, defaults);
      pending := applied;
      match action {
        case Err(status) => return Ack(status);
        case Ok(a) =>
          var status := Persist(a, writes);
          return Ack(status);
      }
    }

    method Persist(action: Action, writes: bool) returns (status: AckStatus)
      modifies this`flash
      ensures status == (if storeOpen && writes then AckOk else StorageError)
      ensures flash == if status != AckOk then old(flash)
                       else if action.Save? then Some(pending) else if action.Clear? then None else old(flash)
    {
      if !storeOpen || !writes {
        return StorageError;
      }
      match action {
        case Save => flash := Some(pending);
        case Clear => flash := None;
        case NoAction =>
      }
      return AckOk;
    }
  }

  /** The portal's commands, pushed group by group. */
  method BuildCommands(u: Update, current: Config) returns (r: Result<seq<HubCommand>, UpdateError>)
    ensures r == CommandsFromUpdate(u, current)
  {
    var commands: seq<HubCommand> := [];
    ghost var a := if u.wifiSsid.Some? then [SetWifiConfig(WifiSettings(u.wifiSsid.value, Or(u.wifiPassword, [])))] else [];
    ghost var b := if MqttTouched(u) then [SetMqttConfig(MergedMqtt(u, current))] else [];
    ghost var c := if GatewayTouched(u) then [SetGatewayConfig(MergedGateway(u, current))] else [];
    if u.wifiSsid.Some? {
      if TooLong(u.wifiSsid, MAX_SSID_LEN) || TooLong(u.wifiPassword, MAX_PASSWORD_LEN) {
        return Err(BadUpdate);
      }
      commands := commands + [SetWifiConfig(WifiSettings(u.wifiSsid.value, Or(u.wifiPassword, [])))];
    }
    if u.mqttHost.Some? || u.mqttPort.Some? || u.clientId.Some? {
      if TooLong(u.mqttHost, MAX_HOST_LEN) || TooLong(u.clientId, MAX_CLIENT_ID_LEN) {
        return Err(BadUpdate);
      }
      commands := commands + [SetMqttConfig(MergedMqtt(u, current))];
    }
    if GatewayTouched(u) {
      if TooLong(u.gwHost, MAX_HOST_LEN) {
        return Err(BadUpdate);
      }
      commands := commands + [SetGatewayConfig(MergedGateway(u, current))];
    }
    assert commands == a + b + c;
    if u.mode.Some? {
      var mode := ModeOf(u.mode.value);
      if mode.None? {
        return Err(BadUpdate);
      }
      commands := commands + [SetMode(mode.value)];
    }
    assert commands == a + b + c + if u.mode.Some? then [SetMode(ModeOf(u.mode.value).value)] else [];
    return if commands == [] then Err(EmptyUpdate) else Ok(commands);
  }

  /** The portal's apply loop: stops at the first command that is not acknowledged Ok. */
  method ApplyUpdate(control: HubControl, commands: seq<HubCommand>, writes: nat -> bool) returns (ok: bool)
    modifies control
    ensures (control.View(), ok) == ApplyAll(old(control.View()), commands, writes, 0, control.defaults)
  {
    hide HubConfig.Handle;
    var k := 0;
    while k < |commands|
      invariant k <= |commands|
      invariant ApplyAll(control.View(), commands, writes, k, control.defaults) == ApplyAll(old(control.View()), commands, writes, 0, control.defaults)
    {
      var reply := control.Handle(commands[k], writes(k));
      if reply != Ack(AckOk) {
        return false;
      }
      k := k + 1;
    }
    return true;
  }
}
