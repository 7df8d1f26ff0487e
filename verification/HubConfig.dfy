/**
 The hub's configuration across commands, storage failures and reboots (src/hub_config/mod.rs,
 src/tasks/hub_ctrl.rs), and the portal's update of it (src/portal/http.rs,
 `commands_from_update`; src/tasks/portal.rs, the apply loop).
 */
module HubConfig {
  import opened Prelude
  import opened HubTypes

  const CONFIG_SCHEMA_VERSION: u8 := 1

  datatype Config = Config(version: u8, mode: HubMode, wifi: WifiSettings, mqtt: MqttSettings, gateway: GatewaySettings)

  datatype Action = NoAction | Save | Clear

  predicate GatewaySettingsValid(gw: GatewaySettings) {
    && 150_000_000 <= gw.frequencyHz <= 960_000_000
    && 7 <= gw.spreadingFactor <= 12
    && gw.bandwidthKhz in {125, 250, 500}
    && 5 <= gw.codingRate <= 8
    && gw.port != 0
  }

  predicate ValidConfig(c: Config) {
    c.version == CONFIG_SCHEMA_VERSION && c.mqtt.port != 0 && GatewaySettingsValid(c.gateway)
  }

  function SelectConfig(stored: Option<Config>, defaults: Config): Config {
    if stored.Some? && stored.value.version == CONFIG_SCHEMA_VERSION then stored.value else defaults
  }

  function ApplyCommand(pending: Config, command: HubCommand, defaults: Config): (Config, Result<Action, AckStatus>) {
    match command
    case SetWifiConfig(wifi) => (pending.(wifi := wifi), Ok(Save))
    case SetMqttConfig(mqtt) => if mqtt.port == 0 then (pending, Err(InvalidValue)) else (pending.(mqtt := mqtt), Ok(Save))
    case SetGatewayConfig(gw) => if !GatewaySettingsValid(gw) then (pending, Err(InvalidValue)) else (pending.(gateway := gw), Ok(Save))
    case SetMode(mode) => (pending.(mode := mode), Ok(Save))
    case ClearNetworkConfig => (defaults, Ok(Clear))
    case GetNetworkConfig => (pending, Ok(NoAction))
    case GetHubStatus => (pending, Ok(NoAction))
  }

  /** The control task's state and the flash behind it. */
  datatype Device = Device(pending: Config, storeOpen: bool, flash: Option<Config>)

  /** `Info` stands for the status reply, whose counters are not modelled. */
  datatype Reply = Ack(status: AckStatus) | Network(mode: HubMode, wifiSsid: Text, mqtt: MqttSettings, gateway: GatewaySettings) | Info

  /** The reply to a query: of the configuration, or of the hub's status. */
  function Answer(pending: Config, query: HubCommand): Reply {
    if query.GetNetworkConfig? then Network(pending.mode, pending.wifi.ssid, pending.mqtt, pending.gateway) else Info
  }

  predicate IsQuery(command: HubCommand) {
    command.GetNetworkConfig? || command.GetHubStatus?
  }

  /** One command; `writes` says whether the flash operation it may need succeeds. */
  function Handle(d: Device, command: HubCommand, writes: bool, defaults: Config): (Device, Reply) {
    if IsQuery(command) then (d, Answer(d.pending, command))
    else
      var (pending, action) := ApplyCommand(d.pending, command, defaults);
      match action
      case Err(status) => (d.(pending := pending), Ack(status))
      case Ok(a) =>
        if !d.storeOpen || !writes then (d.(pending := pending), Ack(StorageError))
        else (d.(pending := pending, flash := if a.Save? then Some(pending) else if a.Clear? then None else d.flash), Ack(AckOk))
  }

  /** Restart: the store may fail to open, or opened may fail to read. */
  function Reboot(d: Device, opens: bool, loads: bool, defaults: Config): Device {
    Device(SelectConfig(if opens && loads then d.flash else None, defaults), opens, d.flash)
  }

  // ----- Whole runs ----------------------------------------------------------

  datatype Event = Command(command: HubCommand, writes: bool) | Restart(opens: bool, loads: bool)

  function Next(d: Device, e: Event, defaults: Config): Device {
    match e
    case Command(command, writes) => Handle(d, command, writes, defaults).0
    case Restart(opens, loads) => Reboot(d, opens, loads, defaults)
  }

  function Run(d: Device, events: seq<Event>, defaults: Config): Device {
    if events == [] then d else Next(Run(d, Init(events), defaults), Last(events), defaults)
  }

  /** Whether the last event that could change the pending configuration left it stored. */
  function Stored(d: Device, events: seq<Event>, defaults: Config): bool {
    if events == [] then true
    else match Last(events)
      case Restart(opens, loads) => opens && loads
      case Command(command, writes) =>
        var before := Run(d, Init(events), defaults);
        if IsQuery(command) || ApplyCommand(before.pending, command, defaults).1.Err? then Stored(d, Init(events), defaults)
        else Handle(before, command, writes, defaults).1 == Ack(AckOk)
  }

  ghost predicate Sound(d: Device) {
    ValidConfig(d.pending) && (d.flash.Some? && d.flash.value.version == CONFIG_SCHEMA_VERSION ==> ValidConfig(d.flash.value))
  }

  /** A fresh boot from a readable flash. */
  ghost predicate Start(d: Device, defaults: Config) {
    Sound(d) && d.pending == SelectConfig(d.flash, defaults)
  }

  lemma NextKeepsSound(d: Device, e: Event, defaults: Config)
    requires Sound(d) && ValidConfig(defaults)
    ensures Sound(Next(d, e, defaults))
  {}

  /**
   Over any run of commands, storage failures and reboots the pending configuration stays
   valid and of the current schema; and whenever the last change was acknowledged Ok (or none
   was made since a boot that read the flash), rebooting loads exactly the pending one.
   */
  lemma {:induction false} AcknowledgedMeansDurable(d: Device, events: seq<Event>, defaults: Config)
    requires Start(d, defaults) && ValidConfig(defaults)
    ensures Sound(Run(d, events, defaults))
    ensures Stored(d, events, defaults) ==>
              SelectConfig(Run(d, events, defaults).flash, defaults) == Run(d, events, defaults).pending
  {
    if events != [] {
      AcknowledgedMeansDurable(d, Init(events), defaults);
      NextKeepsSound(Run(d, Init(events), defaults), Last(events), defaults);
    }
  }

  /** A change that was not stored is exactly what a reboot undoes. */
  lemma UnstoredChangeIsUndone(d: Device, events: seq<Event>, command: HubCommand, writes: bool, defaults: Config)
    requires Start(d, defaults) && ValidConfig(defaults) && Stored(d, events, defaults)
    requires Handle(Run(d, events, defaults), command, writes, defaults).1 == Ack(StorageError)
    ensures var before := Run(d, events, defaults);
            Reboot(Handle(before, command, writes, defaults).0, true, true, defaults).pending == before.pending
  {
    AcknowledgedMeansDurable(d, events, defaults);
  }

  // ----- What an acknowledgement is worth ------------------------------------

  /** What a change asks for is in a configuration. */
  predicate Holds(c: Config, command: HubCommand, defaults: Config) {
    match command
    case SetWifiConfig(wifi) => c.wifi == wifi
    case SetMqttConfig(mqtt) => c.mqtt == mqtt
    case SetGatewayConfig(gw) => c.gateway == gw
    case SetMode(mode) => c.mode == mode
    case ClearNetworkConfig => c == defaults
    case _ => true
  }

  /** And in the flash: a clear leaves nothing there. */
  predicate InForce(d: Device, command: HubCommand, defaults: Config) {
    && Holds(d.pending, command, defaults)
    && if command.ClearNetworkConfig? then d.flash.None?
       else d.flash.Some? && d.flash.value.version == CONFIG_SCHEMA_VERSION && Holds(d.flash.value, command, defaults)
  }

  /** A later valid command asks for something else: a change of the same settings, or a clear; after a clear, any change. */
  predicate Overrides(later: HubCommand, command: HubCommand) {
    Acceptable(later) &&
    match command
    case SetWifiConfig(_) => later.SetWifiConfig? || later.ClearNetworkConfig?
    case SetMqttConfig(_) => later.SetMqttConfig? || later.ClearNetworkConfig?
    case SetGatewayConfig(_) => later.SetGatewayConfig? || later.ClearNetworkConfig?
    case SetMode(_) => later.SetMode? || later.ClearNetworkConfig?
    case _ => !IsQuery(later)
  }

  /** Restarts that read the flash, for a clear any restarts; and no command that asks for something else. */
  predicate Undisturbed(after: seq<Event>, command: HubCommand) {
    forall i :: 0 <= i < |after| ==> LeavesAlone(after[i], command)
  }

  predicate LeavesAlone(e: Event, command: HubCommand) {
    match e
    case Restart(opens, loads) => command.ClearNetworkConfig? || (opens && loads)
    case Command(later, _) => !Overrides(later, command)
  }

  lemma NextKeeps(d: Device, e: Event, command: HubCommand, defaults: Config)
    requires Sound(d) && !IsQuery(command) && InForce(d, command, defaults) && LeavesAlone(e, command)
    ensures InForce(Next(d, e, defaults), command, defaults)
  {}

  lemma RunAppend(d: Device, events: seq<Event>, e: Event, defaults: Config)
    ensures Run(d, events + [e], defaults) == Next(Run(d, events, defaults), e, defaults)
  {
    assert Init(events + [e]) == events;
  }

  lemma {:induction false} RunKeeps(d: Device, events: seq<Event>, after: seq<Event>, command: HubCommand, defaults: Config)
    requires Start(d, defaults) && ValidConfig(defaults) && !IsQuery(command)
    requires InForce(Run(d, events, defaults), command, defaults) && Undisturbed(after, command)
    ensures InForce(Run(d, events + after, defaults), command, defaults)
  {
    hide Start, InForce, Next, LeavesAlone;
    if after == [] {
      assert events + after == events;
    } else {
      var e := Last(after);
      RunKeeps(d, events, Init(after), command, defaults);
      assert events + after == (events + Init(after)) + [e];
      RunAppend(d, events + Init(after), e, defaults);
      AcknowledgedMeansDurable(d, events + Init(after), defaults);
      NextKeeps(Run(d, events + Init(after), defaults), e, command, defaults);
    }
  }

  /**
   What Ok to a change means, over every run: from then on the settings it asked for are
   pending and in the flash, and after a clear the defaults are pending and the flash is empty,
   through whatever other changes, write failures and restarts, until a command overrides it.
   */
  lemma AcknowledgedChangeIsKept(d: Device, events: seq<Event>, command: HubCommand, writes: bool, after: seq<Event>, defaults: Config)
    requires Start(d, defaults) && ValidConfig(defaults) && !IsQuery(command)
    requires Handle(Run(d, events, defaults), command, writes, defaults).1 == Ack(AckOk)
    requires Undisturbed(after, command)
    ensures InForce(Run(d, events + [Command(command, writes)] + after, defaults), command, defaults)
  {
    AcknowledgedMeansDurable(d, events, defaults);
    RunAppend(d, events, Command(command, writes), defaults);
    RunKeeps(d, events + [Command(command, writes)], after, command, defaults);
  }

  /** A configuration reply shows what a change asks for; of a network, its name. */
  predicate Shows(reply: Reply, command: HubCommand, defaults: Config) {
    && reply.Network?
    && match command
       case SetWifiConfig(wifi) => reply.wifiSsid == wifi.ssid
       case SetMqttConfig(mqtt) => reply.mqtt == mqtt
       case SetGatewayConfig(gw) => reply.gateway == gw
       case SetMode(mode) => reply.mode == mode
       case ClearNetworkConfig =>
         && reply.mode == defaults.mode && reply.wifiSsid == defaults.wifi.ssid
         && reply.mqtt == defaults.mqtt && reply.gateway == defaults.gateway
       case _ => true
  }

  /** So long, the hub also says so when asked. */
  lemma AcknowledgedChangeIsShown(d: Device, events: seq<Event>, command: HubCommand, writes: bool, after: seq<Event>, asked: bool, defaults: Config)
    requires Start(d, defaults) && ValidConfig(defaults) && !IsQuery(command)
    requires Handle(Run(d, events, defaults), command, writes, defaults).1 == Ack(AckOk)
    requires Undisturbed(after, command)
    ensures Shows(Handle(Run(d, events + [Command(command, writes)] + after, defaults), GetNetworkConfig, asked, defaults).1, command, defaults)
  {
    hide Run, Start, Undisturbed;
    AcknowledgedChangeIsKept(d, events, command, writes, after, defaults);
  }

  /** Settings no hub takes: port zero, or a gateway outside 150 to 960 MHz, 7 to 12, 125, 250 or 500 kHz, 4/5 to 4/8. */
  predicate OutOfRange(command: HubCommand) {
    || (command.SetMqttConfig? && command.mqtt.port == 0)
    || (command.SetGatewayConfig? &&
        var gw := command.gateway;
        || !(150_000_000 <= gw.frequencyHz <= 960_000_000) || !(7 <= gw.spreadingFactor <= 12)
        || (gw.bandwidthKhz != 125 && gw.bandwidthKhz != 250 && gw.bandwidthKhz != 500) || !(5 <= gw.codingRate <= 8) || gw.port == 0)
  }

  /**
   How a change is answered, after any run: Ok if and only if it is in range and the flash could be
   written. Without an Ok the flash is as it was; what could not be written is pending all the
   same, until a restart.
   */
  lemma ChangeAnswerIff(d: Device, events: seq<Event>, command: HubCommand, writes: bool, defaults: Config)
    requires !IsQuery(command)
    ensures var before, after := Run(d, events, defaults), Run(d, events + [Command(command, writes)], defaults);
            var reply := Handle(before, command, writes, defaults).1;
            && (reply == Ack(AckOk) <==> !OutOfRange(command) && before.storeOpen && writes)
            && (reply == Ack(InvalidValue) <==> OutOfRange(command))
            && (reply == Ack(StorageError) <==> !OutOfRange(command) && !(before.storeOpen && writes))
            && (reply != Ack(AckOk) ==> after.flash == before.flash)
            && if !OutOfRange(command) then Holds(after.pending, command, defaults) else after == before
  {
    RunAppend(d, events, Command(command, writes), defaults);
  }

  // ----- The WiFi password stays in the hub ----------------------------------

  predicate SameButPassword(a: Config, b: Config) {
    a.(wifi := a.wifi.(password := [])) == b.(wifi := b.wifi.(password := []))
  }

  predicate DevicesSameButPassword(a: Device, b: Device) {
    && SameButPassword(a.pending, b.pending) && a.storeOpen == b.storeOpen
    && a.flash.Some? == b.flash.Some? && (a.flash.Some? ==> SameButPassword(a.flash.value, b.flash.value))
  }

  predicate EventsSameButPassword(a: Event, b: Event) {
    || a == b
    || (a.Command? && b.Command? && a.writes == b.writes && a.command.SetWifiConfig? && b.command.SetWifiConfig?
        && a.command.wifi.ssid == b.command.wifi.ssid)
  }

  /** All replies of a run, in order. */
  function Replies(d: Device, events: seq<Event>, defaults: Config): seq<Reply> {
    if events == [] then []
    else
      var e := Last(events);
      Replies(d, Init(events), defaults)
      + if e.Command? then [Handle(Run(d, Init(events), defaults), e.command, e.writes, defaults).1] else []
  }

  lemma StepTellsNoPassword(d: Device, d': Device, e: Event, e': Event, defaults: Config)
    requires DevicesSameButPassword(d, d') && EventsSameButPassword(e, e')
    ensures DevicesSameButPassword(Next(d, e, defaults), Next(d', e', defaults))
    ensures e.Command? ==> Handle(d, e.command, e.writes, defaults).1 == Handle(d', e'.command, e'.writes, defaults).1
  {}

  /**
   Two hubs that differ in nothing but WiFi passwords, and are sent the same commands but for
   the passwords in them, give the same replies for ever, through write failures and restarts.
   */
  lemma {:induction false} PasswordIsNeverTold(d: Device, d': Device, events: seq<Event>, events': seq<Event>, defaults: Config)
    requires DevicesSameButPassword(d, d') && |events| == |events'|
    requires forall i :: 0 <= i < |events| ==> EventsSameButPassword(events[i], events'[i])
    ensures Replies(d, events, defaults) == Replies(d', events', defaults)
    ensures DevicesSameButPassword(Run(d, events, defaults), Run(d', events', defaults))
  {
    hide DevicesSameButPassword, EventsSameButPassword, Next, Handle;
    if events != [] {
      PasswordIsNeverTold(d, d', Init(events), Init(events'), defaults);
      assert EventsSameButPassword(events[|events| - 1], events'[|events| - 1]);
      SameKind(Last(events), Last(events'));
      StepTellsNoPassword(Run(d, Init(events), defaults), Run(d', Init(events'), defaults), Last(events), Last(events'), defaults);
    }
  }

  lemma SameKind(e: Event, e': Event)
    requires EventsSameButPassword(e, e')
    ensures e.Command? == e'.Command?
  {}

  ghost function Effective(events: seq<Event>): seq<Event> {
    if events == [] then []
    else
      var e := Last(events);
      Effective(Init(events)) + if e.Restart? || (!IsQuery(e.command) && Acceptable(e.command)) then [e] else []
  }

  /** Over whole runs, queries and invalid commands are invisible to configuration and flash. */
  lemma {:induction false} IneffectiveAreInvisible(d: Device, events: seq<Event>, defaults: Config)
    ensures Run(d, Effective(events), defaults) == Run(d, events, defaults)
  {
    hide Reboot;
    if events != [] {
      var e := Last(events);
      IneffectiveAreInvisible(d, Init(events), defaults);
      assert Effective(events) == Effective(Init(events)) + if e.Restart? || (!IsQuery(e.command) && Acceptable(e.command)) then [e] else [];
      if e.Restart? || (!IsQuery(e.command) && Acceptable(e.command)) {
        assert Init(Effective(events)) == Effective(Init(events));
      } else {
        assert Effective(events) == Effective(Init(events));
      }
    }
  }

  // ----- The portal's update -------------------------------------------------

  /** A POST body after JSON decoding: every field optional. */
  datatype Update = Update(
    wifiSsid: Option<Text>,
    wifiPassword: Option<Text>,
    mqttHost: Option<Text>,
    mqttPort: Option<u16>,
    clientId: Option<Text>,
    mode: Option<Text>,
    gwFreqHz: Option<u32>,
    gwSf: Option<u8>,
    gwBwKhz: Option<u32>,
    gwCr: Option<u8>,
    gwHost: Option<Text>,
    gwPort: Option<u16>)

  datatype UpdateError = BadUpdate | EmptyUpdate

  /** "bridge" and "gateway" */
  const BRIDGE: Text := [98, 114, 105, 100, 103, 101]
  const GATEWAY: Text := [103, 97, 116, 101, 119, 97, 121]

  function Or<T>(field: Option<T>, current: T): T {
    if field.Some? then field.value else current
  }

  predicate TooLong(field: Option<Text>, cap: nat) {
    field.Some? && |field.value| > cap
  }

  predicate MqttTouched(u: Update) {
    u.mqttHost.Some? || u.mqttPort.Some? || u.clientId.Some?
  }

  predicate GatewayTouched(u: Update) {
    u.gwFreqHz.Some? || u.gwSf.Some? || u.gwBwKhz.Some? || u.gwCr.Some? || u.gwHost.Some? || u.gwPort.Some?
  }

  function MergedMqtt(u: Update, current: Config): MqttSettings {
    MqttSettings(Or(u.mqttHost, current.mqtt.host), Or(u.mqttPort, current.mqtt.port), Or(u.clientId, current.mqtt.clientId))
  }

  function MergedGateway(u: Update, current: Config): GatewaySettings {
    GatewaySettings(Or(u.gwFreqHz, current.gateway.frequencyHz), Or(u.gwSf, current.gateway.spreadingFactor),
                    Or(u.gwBwKhz, current.gateway.bandwidthKhz), Or(u.gwCr, current.gateway.codingRate),
                    Or(u.gwHost, current.gateway.host), Or(u.gwPort, current.gateway.port))
  }

  function ModeOf(text: Text): Option<HubMode> {
    if text == BRIDGE then Some(Bridge) else if text == GATEWAY then Some(LorawanGateway) else None
  }

  /** The commands of an update, in order. */
  function CommandsFromUpdate(u: Update, current: Config): Result<seq<HubCommand>, UpdateError> {
    if u.wifiSsid.Some? && (TooLong(u.wifiSsid, MAX_SSID_LEN) || TooLong(u.wifiPassword, MAX_PASSWORD_LEN)) then Err(BadUpdate)
    else if TooLong(u.mqttHost, MAX_HOST_LEN) || TooLong(u.clientId, MAX_CLIENT_ID_LEN) || TooLong(u.gwHost, MAX_HOST_LEN) then Err(BadUpdate)
    else if u.mode.Some? && ModeOf(u.mode.value).None? then Err(BadUpdate)
    else
      var commands :=
        (if u.wifiSsid.Some? then [SetWifiConfig(WifiSettings(u.wifiSsid.value, Or(u.wifiPassword, [])))] else [])
        + (if MqttTouched(u) then [SetMqttConfig(MergedMqtt(u, current))] else [])
        + (if GatewayTouched(u) then [SetGatewayConfig(MergedGateway(u, current))] else [])
        + (if u.mode.Some? then [SetMode(ModeOf(u.mode.value).value)] else []);
      if commands == [] then Err(EmptyUpdate) else Ok(commands)
  }

  /**
   Exactly which updates are turned away: empty are those that name no field but a password; bad
   are texts over their caps, where they would be used, and words that name no mode.
   */
  lemma UpdateRefusedIff(u: Update, current: Config)
    ensures CommandsFromUpdate(u, current) == Err(EmptyUpdate)
            <==> u == Update(None, u.wifiPassword, None, None, None, None, None, None, None, None, None, None)
    ensures CommandsFromUpdate(u, current) == Err(BadUpdate)
            <==> || (u.wifiSsid.Some? && (|u.wifiSsid.value| > 32 || (u.wifiPassword.Some? && |u.wifiPassword.value| > 64)))
                 || (u.mqttHost.Some? && |u.mqttHost.value| > 64) || (u.clientId.Some? && |u.clientId.value| > 32)
                 || (u.gwHost.Some? && |u.gwHost.value| > 64)
                 || (u.mode.Some? && u.mode.value !in {Word("bridge"), Word("gateway")})
  {
    assert Word("bridge") == BRIDGE && Word("gateway") == GATEWAY;
  }

  /** The apply loop: commands one by one until one is not acknowledged Ok. */
  function ApplyAll(d: Device, commands: seq<HubCommand>, writes: nat -> bool, k: nat, defaults: Config): (Device, bool)
    requires k <= |commands|
    decreases |commands| - k
  {
    if k == |commands| then (d, true)
    else
      var (d', reply) := Handle(d, commands[k], writes(k), defaults);
      if reply == Ack(AckOk) then ApplyAll(d', commands, writes, k + 1, defaults) else (d', false)
  }

  /** The pending configuration once every command of a list has been accepted. */
  function Applied(pending: Config, commands: seq<HubCommand>, defaults: Config): Config {
    if commands == [] then pending else ApplyCommand(Applied(pending, Init(commands), defaults), Last(commands), defaults).0
  }

  lemma {:induction false} AppliedConcat(pending: Config, a: seq<HubCommand>, b: seq<HubCommand>, defaults: Config)
    ensures Applied(pending, a + b, defaults) == Applied(Applied(pending, a, defaults), b, defaults)
  {
    if b == [] {
      assert a + b == a;
    } else {
      AppliedConcat(pending, a, Init(b), defaults);
      assert Init(a + b) == a + Init(b);
    }
  }

  predicate Acceptable(command: HubCommand) {
    match command
    case SetMqttConfig(mqtt) => mqtt.port != 0
    case SetGatewayConfig(gw) => GatewaySettingsValid(gw)
    case _ => true
  }

  /** A list of changes goes through exactly when each is valid and each write succeeds; then all of it is stored. */
  lemma {:induction false} AppliedIffAllAcceptable(d: Device, commands: seq<HubCommand>, writes: nat -> bool, k: nat, start: Config, defaults: Config)
    requires k <= |commands| && d.pending == Applied(start, commands[..k], defaults)
    requires forall j :: k <= j < |commands| ==> !IsQuery(commands[j]) && !commands[j].ClearNetworkConfig?
    ensures var (d', ok) := ApplyAll(d, commands, writes, k, defaults);
            && (ok <==> forall j :: k <= j < |commands| ==> Acceptable(commands[j]) && d.storeOpen && writes(j))
            && (ok ==> d'.pending == Applied(start, commands, defaults) && (k < |commands| ==> d'.flash == Some(d'.pending)))
    decreases |commands| - k
  {
    if k == |commands| {
      assert commands[..k] == commands;
    } else {
      var (d1, reply) := Handle(d, commands[k], writes(k), defaults);
      assert reply == Ack(AckOk) <==> Acceptable(commands[k]) && d.storeOpen && writes(k);
      assert Init(commands[..k + 1]) == commands[..k];
      if reply == Ack(AckOk) {
        AppliedIffAllAcceptable(d1, commands, writes, k + 1, start, defaults);
      }
    }
  }

  predicate GoesThrough(d: Device, commands: seq<HubCommand>, writes: nat -> bool, i: nat)
    requires i < |commands|
  {
    Acceptable(commands[i]) && d.storeOpen && writes(i)
  }

  /** The first command that is invalid or cannot be written. */
  function FirstRefused(d: Device, commands: seq<HubCommand>, writes: nat -> bool, k: nat): (j: nat)
    requires k <= |commands|
    ensures k <= j <= |commands| && (j < |commands| ==> !GoesThrough(d, commands, writes, j))
    ensures forall i :: k <= i < j ==> GoesThrough(d, commands, writes, i)
    decreases |commands| - k
  {
    if k == |commands| || !GoesThrough(d, commands, writes, k) then k else FirstRefused(d, commands, writes, k + 1)
  }

  /** The configuration the flash holds after the first `k` of some commands went through. */
  function FlashAfter(before: Device, commands: seq<HubCommand>, k: nat, defaults: Config): Option<Config>
    requires k <= |commands|
  {
    if k == 0 then before.flash else Some(Applied(before.pending, commands[..k], defaults))
  }

  /** Where an apply loop stops, and what it leaves behind. */
  lemma {:induction false} ApplyAllStops(before: Device, d: Device, commands: seq<HubCommand>, writes: nat -> bool, k: nat, defaults: Config)
    requires k <= |commands| && d.storeOpen == before.storeOpen
    requires d.pending == Applied(before.pending, commands[..k], defaults) && d.flash == FlashAfter(before, commands, k, defaults)
    requires forall i :: k <= i < |commands| ==> !IsQuery(commands[i]) && !commands[i].ClearNetworkConfig?
    ensures var (d', ok) := ApplyAll(d, commands, writes, k, defaults);
            var j := FirstRefused(before, commands, writes, k);
            && (ok <==> j == |commands|) && d'.storeOpen == before.storeOpen
            && d'.pending == Applied(before.pending, commands[..if j < |commands| && Acceptable(commands[j]) then j + 1 else j], defaults)
            && d'.flash == FlashAfter(before, commands, j, defaults)
    decreases |commands| - k
  {
    if k < |commands| {
      var (d1, reply) := Handle(d, commands[k], writes(k), defaults);
      assert reply == Ack(AckOk) <==> GoesThrough(before, commands, writes, k);
      assert Init(commands[..k + 1]) == commands[..k];
      if reply == Ack(AckOk) {
        ApplyAllStops(before, d1, commands, writes, k + 1, defaults);
      }
    }
  }

  /**
   What an update leaves behind, wherever it stops: its commands up to the first invalid or
   unwritten one are stored, that one is pending too if only its write failed, and the rest is
   as it was; the portal reports success iff none was refused.
   */
  lemma UpdateStopsAtFirstRefused(u: Update, current: Config, d: Device, writes: nat -> bool, defaults: Config)
    requires CommandsFromUpdate(u, current).Ok?
    ensures var commands := CommandsFromUpdate(u, current).value;
            var (d', ok) := ApplyAll(d, commands, writes, 0, defaults);
            var j := FirstRefused(d, commands, writes, 0);
            && (ok <==> j == |commands|)
            && d'.pending == Applied(d.pending, commands[..if j < |commands| && Acceptable(commands[j]) then j + 1 else j], defaults)
            && d'.flash == FlashAfter(d, commands, j, defaults)
  {
    hide CommandsFromUpdate, ApplyAll, Acceptable;
    var commands := CommandsFromUpdate(u, current).value;
    AppliedNothing(d.pending, commands, defaults);
    OnlyChanges(u, current);
    ApplyAllStops(d, d, commands, writes, 0, defaults);
  }

  /** So a refused update can change the device: naming a network beside an MQTT port of zero stores the network. */
  lemma RefusedUpdateStoresNetwork(ssid: Text, current: Config, d: Device, writes: nat -> bool, defaults: Config)
    requires |ssid| <= MAX_SSID_LEN && d.storeOpen && writes(0)
    ensures var u := Update(Some(ssid), None, None, Some(0), None, None, None, None, None, None, None, None);
            && CommandsFromUpdate(u, current).Ok?
            && var (d', ok) := ApplyAll(d, CommandsFromUpdate(u, current).value, writes, 0, defaults);
            && !ok && d'.pending == d.pending.(wifi := WifiSettings(ssid, [])) && d'.flash == Some(d'.pending)
  {
    var u := Update(Some(ssid), None, None, Some(0), None, None, None, None, None, None, None, None);
    var commands := CommandsFromUpdate(u, current).value;
    assert commands == [SetWifiConfig(WifiSettings(ssid, [])), SetMqttConfig(MergedMqtt(u, current))];
    UpdateStopsAtFirstRefused(u, current, d, writes, defaults);
    assert FirstRefused(d, commands, writes, 0) == 1;
    assert commands[..1] == [commands[0]];
    AppliedOne(d.pending, commands[..1], defaults);
  }

  /** The groups an update touches, merged onto the active configuration; the others stay. */
  function Updated(u: Update, current: Config, pending: Config): Config {
    Config(pending.version,
           if u.mode.Some? then Or(ModeOf(u.mode.value), pending.mode) else pending.mode,
           if u.wifiSsid.Some? then WifiSettings(u.wifiSsid.value, Or(u.wifiPassword, [])) else pending.wifi,
           if MqttTouched(u) then MergedMqtt(u, current) else pending.mqtt,
           if GatewayTouched(u) then MergedGateway(u, current) else pending.gateway)
  }

  /** The update field by field. */
  function Merge(u: Update, current: Config): Config {
    Config(current.version,
           if u.mode.Some? then Or(ModeOf(u.mode.value), current.mode) else current.mode,
           WifiSettings(Or(u.wifiSsid, current.wifi.ssid), Or(u.wifiPassword, current.wifi.password)),
           MergedMqtt(u, current),
           MergedGateway(u, current))
  }

  lemma AppliedUpdate(u: Update, current: Config, pending: Config, defaults: Config)
    requires CommandsFromUpdate(u, current).Ok?
    requires MqttTouched(u) ==> MergedMqtt(u, current).port != 0
    requires GatewayTouched(u) ==> GatewaySettingsValid(MergedGateway(u, current))
    ensures Applied(pending, CommandsFromUpdate(u, current).value, defaults) == Updated(u, current, pending)
  {
    var a := if u.wifiSsid.Some? then [SetWifiConfig(WifiSettings(u.wifiSsid.value, Or(u.wifiPassword, [])))] else [];
    var b := if MqttTouched(u) then [SetMqttConfig(MergedMqtt(u, current))] else [];
    var c := if GatewayTouched(u) then [SetGatewayConfig(MergedGateway(u, current))] else [];
    var e := if u.mode.Some? then [SetMode(ModeOf(u.mode.value).value)] else [];
    AppliedConcat(pending, a + b + c, e, defaults);
    AppliedConcat(pending, a + b, c, defaults);
    AppliedConcat(pending, a, b, defaults);
    AppliedOne(pending, a, defaults);
    AppliedOne(Applied(pending, a, defaults), b, defaults);
    AppliedOne(Applied(pending, a + b, defaults), c, defaults);
    AppliedOne(Applied(pending, a + b + c, defaults), e, defaults);
  }

  lemma AppliedOne(pending: Config, commands: seq<HubCommand>, defaults: Config)
    requires |commands| <= 1
    ensures Applied(pending, commands, defaults) == if commands == [] then pending else ApplyCommand(pending, commands[0], defaults).0
  {
    if commands != [] {
      assert Init(commands) == [];
    }
  }

  /** A word of ASCII letters as text. */
  function Word(w: string): Text
    requires forall i :: 0 <= i < |w| ==> w[i] < 128 as char
  {
    seq(|w|, i requires 0 <= i < |w| => w[i] as int)
  }

  /** The only words for a mode, and the mode each stands for. */
  lemma ModeWords(u: Update, current: Config, pending: Config)
    requires CommandsFromUpdate(u, current).Ok? && u.mode.Some?
    ensures u.mode.value == if Updated(u, current, pending).mode == Bridge then Word("bridge") else Word("gateway")
  {
    assert Word("bridge") == BRIDGE && Word("gateway") == GATEWAY;
  }

  predicate MergedValid(u: Update, current: Config) {
    && (MqttTouched(u) ==> MergedMqtt(u, current).port != 0)
    && (GatewayTouched(u) ==> GatewaySettingsValid(MergedGateway(u, current)))
  }

  /** An update is one to four commands, and goes through exactly when what it merges to is valid and every write succeeds. */
  lemma UpdateAcceptedIff(u: Update, current: Config, d: Device, writes: nat -> bool, defaults: Config)
    requires CommandsFromUpdate(u, current).Ok?
    ensures var commands := CommandsFromUpdate(u, current).value;
            var (d', ok) := ApplyAll(d, commands, writes, 0, defaults);
            && 1 <= |commands| <= 4
            && (ok <==> MergedValid(u, current) && d.storeOpen && forall j :: 0 <= j < |commands| ==> writes(j))
            && (ok ==> d'.pending == Updated(u, current, d.pending) && d'.flash == Some(d'.pending))
            && (ok && u.mode.Some? ==> u.mode.value == if d'.pending.mode == Bridge then Word("bridge") else Word("gateway"))
  {
    if u.mode.Some? {
      ModeWords(u, current, d.pending);
    }
    hide CommandsFromUpdate, MergedValid, Updated, Acceptable, ApplyAll, Applied;
    var commands := CommandsFromUpdate(u, current).value;
    AppliedNothing(d.pending, commands, defaults);
    OnlyChanges(u, current);
    AppliedIffAllAcceptable(d, commands, writes, 0, d.pending, defaults);
    EveryCommandAcceptableIff(u, current);
    var ok := ApplyAll(d, commands, writes, 0, defaults).1;
    if ok {
      assert Acceptable(commands[0]) && d.storeOpen;
      assert forall j :: 0 <= j < |commands| ==> Acceptable(commands[j]);
    }
    if MergedValid(u, current) {
      MergedValidParts(u, current);
      AppliedUpdate(u, current, d.pending, defaults);
    }
  }

  lemma MergedValidParts(u: Update, current: Config)
    requires MergedValid(u, current)
    ensures (MqttTouched(u) ==> MergedMqtt(u, current).port != 0) && (GatewayTouched(u) ==> GatewaySettingsValid(MergedGateway(u, current)))
  {}

  lemma AppliedNothing(pending: Config, commands: seq<HubCommand>, defaults: Config)
    ensures Applied(pending, commands[..0], defaults) == pending
  {}

  lemma OnlyChanges(u: Update, current: Config)
    requires CommandsFromUpdate(u, current).Ok?
    ensures var commands := CommandsFromUpdate(u, current).value;
            1 <= |commands| <= 4 && forall j :: 0 <= j < |commands| ==> !IsQuery(commands[j]) && !commands[j].ClearNetworkConfig?
  {}

  lemma EveryCommandAcceptableIff(u: Update, current: Config)
    requires CommandsFromUpdate(u, current).Ok?
    ensures (forall j :: 0 <= j < |CommandsFromUpdate(u, current).value| ==> Acceptable(CommandsFromUpdate(u, current).value[j]))
            <==> MergedValid(u, current)
  {
    var commands := CommandsFromUpdate(u, current).value;
    if MqttTouched(u) {
      assert SetMqttConfig(MergedMqtt(u, current)) == commands[if u.wifiSsid.Some? then 1 else 0];
    }
    if GatewayTouched(u) {
      assert SetGatewayConfig(MergedGateway(u, current)) == commands[(if u.wifiSsid.Some? then 1 else 0) + if MqttTouched(u) then 1 else 0];
    }
  }

  /**
   Applied to a hub whose pending configuration is the active one, an update is the
   field-by-field merge, except in what it does to the WiFi password: exactly when naming a
   network comes with a password (or the network was open), and no password comes alone.
   */
  lemma UpdateIsMergeIff(u: Update, current: Config)
    ensures Updated(u, current, current) == Merge(u, current)
            <==> if u.wifiSsid.Some? then u.wifiPassword.Some? || current.wifi.password == []
                 else u.wifiPassword.None? || u.wifiPassword.value == current.wifi.password
  {}

  /** What the second of two updates does to a field of a group it touches: it names it, or the first left it as it was. */
  predicate Kept<T(==)>(second: Option<T>, first: Option<T>, current: T) {
    second.Some? || first.None? || first.value == current
  }

  predicate KeepsMqtt(u1: Update, u2: Update, current: Config) {
    MqttTouched(u2) ==>
      && Kept(u2.mqttHost, u1.mqttHost, current.mqtt.host)
      && Kept(u2.mqttPort, u1.mqttPort, current.mqtt.port)
      && Kept(u2.clientId, u1.clientId, current.mqtt.clientId)
  }

  predicate KeepsGateway(u1: Update, u2: Update, current: Config) {
    GatewayTouched(u2) ==>
      && Kept(u2.gwFreqHz, u1.gwFreqHz, current.gateway.frequencyHz)
      && Kept(u2.gwSf, u1.gwSf, current.gateway.spreadingFactor)
      && Kept(u2.gwBwKhz, u1.gwBwKhz, current.gateway.bandwidthKhz)
      && Kept(u2.gwCr, u1.gwCr, current.gateway.codingRate)
      && Kept(u2.gwHost, u1.gwHost, current.gateway.host)
      && Kept(u2.gwPort, u1.gwPort, current.gateway.port)
  }

  lemma SecondUpdatedIff(u1: Update, u2: Update, current: Config)
    ensures var between := Updated(u1, current, current);
            Updated(u2, current, between) == Updated(u2, between, between) <==> KeepsMqtt(u1, u2, current) && KeepsGateway(u1, u2, current)
  {}

  /**
   Two updates in a row that both go through, with no restart between them: the portal merges
   the second onto the configuration active at boot, so what is pending and stored is the
   second applied to the result of the first if and only if no group the second touches has a
   field that the first changed and the second does not name.
   */
  lemma SecondUpdateKeepsFirstIff(u1: Update, u2: Update, current: Config, d: Device, writes1: nat -> bool, writes2: nat -> bool, defaults: Config)
    requires CommandsFromUpdate(u1, current).Ok? && CommandsFromUpdate(u2, current).Ok? && d.pending == current
    requires ApplyAll(d, CommandsFromUpdate(u1, current).value, writes1, 0, defaults).1
    requires var d1 := ApplyAll(d, CommandsFromUpdate(u1, current).value, writes1, 0, defaults).0;
             ApplyAll(d1, CommandsFromUpdate(u2, current).value, writes2, 0, defaults).1
    ensures var d1 := ApplyAll(d, CommandsFromUpdate(u1, current).value, writes1, 0, defaults).0;
            var d2 := ApplyAll(d1, CommandsFromUpdate(u2, current).value, writes2, 0, defaults).0;
            && d2.flash == Some(d2.pending)
            && (d2.pending == Updated(u2, d1.pending, d1.pending) <==> KeepsMqtt(u1, u2, current) && KeepsGateway(u1, u2, current))
  {
    hide CommandsFromUpdate, ApplyAll, Updated, KeepsMqtt, KeepsGateway, MergedValid;
    var d1 := ApplyAll(d, CommandsFromUpdate(u1, current).value, writes1, 0, defaults).0;
    UpdateAcceptedIff(u1, current, d, writes1, defaults);
    UpdateAcceptedIff(u2, current, d1, writes2, defaults);
    SecondUpdatedIff(u1, u2, current);
  }
}
