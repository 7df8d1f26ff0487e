/**
 The host command dispatcher (src/dispatcher/handler.rs): airtime is claimed before every
 transmission at the spreading factor the dispatcher believes the radio has.
 */
module Dispatch {
  import opened Prelude
  import opened LoraTypes
  import opened Airtime
  import DutyCycle

  const MAX_LORA_PAYLOAD: nat := 256
  const U32_MAX: u32 := 0xFFFF_FFFF

  /** A LoraTx payload; the command type caps it at 256 bytes. */
  type Payload = data: seq<u8> | |data| <= MAX_LORA_PAYLOAD

  datatype Command = GetVersion | Reboot | LoraTx(data: Payload) | SetSpreadingFactor(spreadingFactor: u8) | GetRadioConfig

  datatype CommandId = LoraTxId | SetSpreadingFactorId | RebootId

  datatype Status = InvalidCommand | InvalidParameter | InvalidLength | TimeoutStatus | RadioFault

  datatype Response =
    | Version(major: u8, minor: u8, patch: u8)
    | TxComplete
    | TxRefused(retryAfterSecs: u32)
    | RadioConfig(config: LoraConfig)
    | Error(status: Status, command: CommandId)

  /**
   What the radio answers to the one call a command may make on it, and, should that be an
   error, whether the call had reached the chip all the same: its packet went out, or its
   modulation was set.
   */
  datatype RadioAnswer = RadioAnswer(result: Result<(), LoraError>, reached: bool) {
    predicate Landed() {
      result.Ok? || reached
    }
  }

  // ----- The dispatcher as functions -----------------------------------------

  /**
   A packet handed to the radio: the configuration it was charged at, the settings the radio
   had at that moment, and whether it went out.
   */
  datatype Handed = Handed(at: nat, charged: LoraConfig, settings: LoraConfig, length: nat, sent: bool)

  /** The dispatcher's settings and budget, and the radio's settings and transmissions. */
  datatype Station = Station(config: LoraConfig, budget: DutyCycle.Window, radio: LoraConfig, handed: seq<Handed>)

  function PacketAirtime(config: LoraConfig, length: nat): nat {
    TimeOnAirMs(config.spreadingFactor, config.bandwidthKhz, config.codingRate, length)
  }

  function RetrySeconds(retryAfterMs: Option<nat>): u32 {
    match retryAfterMs
    case Some(ms) => Min(DivCeil(ms, 1000), U32_MAX - 1)
    case None => U32_MAX
  }

  function FaultResponse(error: LoraError, command: CommandId): Response {
    Error(match error
          case Timeout => TimeoutStatus
          case InvalidConfig => InvalidLength
          case _ => RadioFault, command)
  }

  ghost function Handle(s: Station, command: Command, now: nat, answer: RadioAnswer): (Station, Response)
    requires s.budget.Valid()
  {
    match command
    case GetVersion => (s, Version(0, 1, 0))
    case Reboot => (s, Error(InvalidCommand, RebootId))
    case GetRadioConfig => (s, RadioConfig(s.config))
    case LoraTx(data) =>
      var (budget, claim) := DutyCycle.TryClaim(s.budget, now, PacketAirtime(s.config, |data|));
      if claim.Refused? then (s.(budget := budget), TxRefused(RetrySeconds(claim.retryAfterMs)))
      else (s.(budget := budget, handed := s.handed + [Handed(now, s.config, s.radio, |data|, answer.Landed())]),
            if answer.result.Ok? then TxComplete else FaultResponse(answer.result.error, LoraTxId))
    case SetSpreadingFactor(sf) =>
      if !(7 <= sf <= 12) then (s, Error(InvalidParameter, SetSpreadingFactorId))
      else
        var config := s.config.(spreadingFactor := sf);
        var s1 := s.(radio := if answer.Landed() then config else s.radio);
        if answer.result.Err? then (s1, FaultResponse(answer.result.error, SetSpreadingFactorId))
        else (s1.(config := config), RadioConfig(config))
  }

  ghost function Boot(): Station {
    Station(DEFAULT_CONFIG, DutyCycle.Fresh(DEFAULT_CONFIG.frequencyHz), DEFAULT_CONFIG, [])
  }

  // ----- Whole runs ----------------------------------------------------------

  datatype Event = Event(command: Command, now: nat, answer: RadioAnswer)

  ghost predicate Nondecreasing(events: seq<Event>) {
    forall i, j :: 0 <= i < j < |events| ==> events[i].now <= events[j].now
  }

  ghost function Run(events: seq<Event>): (s: Station)
    ensures s.budget.Valid()
  {
    DutyCycle.FreshIsValid(DutyCycle.BUCKET_COUNT, DutyCycle.AllowanceMs(DEFAULT_CONFIG.frequencyHz));
    if events == [] then Boot()
    else
      var s, e := Run(Init(events)), Last(events);
      HandleKeepsValid(s, e);
      Handle(s, e.command, e.now, e.answer).0
  }

  lemma HandleKeepsValid(s: Station, e: Event)
    requires s.budget.Valid()
    ensures Handle(s, e.command, e.now, e.answer).0.budget.Valid()
  {
    if e.command.LoraTx? {
      DutyCycle.ClaimKeepsValid(s.budget, e.now, PacketAirtime(s.config, |e.command.data|));
    }
  }

  /** The packets as the budget was charged for them. */
  ghost function Charges(handed: seq<Handed>): seq<DutyCycle.Charge> {
    if handed == [] then []
    else Charges(Init(handed)) + [DutyCycle.Charge(Last(handed).at, PacketAirtime(Last(handed).charged, Last(handed).length))]
  }

  /** The packets with the airtime each has at the radio's own settings. */
  ghost function OnAir(handed: seq<Handed>): seq<DutyCycle.Charge> {
    if handed == [] then []
    else OnAir(Init(handed)) + [DutyCycle.Charge(Last(handed).at, PacketAirtime(Last(handed).settings, Last(handed).length))]
  }

  lemma HandOver(handed: seq<Handed>, h: Handed)
    ensures Charges(handed + [h]) == Charges(handed) + [DutyCycle.Charge(h.at, PacketAirtime(h.charged, h.length))]
    ensures OnAir(handed + [h]) == OnAir(handed) + [DutyCycle.Charge(h.at, PacketAirtime(h.settings, h.length))]
  {
    assert Init(handed + [h]) == handed;
  }

  /** Only the spreading factor ever changes, within 7 to 12. */
  predicate PermittedConfig(config: LoraConfig) {
    config == DEFAULT_CONFIG.(spreadingFactor := config.spreadingFactor) && 7 <= config.spreadingFactor <= 12
  }

  ghost predicate Reachable(s: Station, last: nat) {
    && PermittedConfig(s.config) && PermittedConfig(s.radio)
    && (forall h :: h in s.handed ==> PermittedConfig(h.charged) && PermittedConfig(h.settings) && h.at <= last)
    && s.budget.allowance == Some(360_000) && |s.budget.ages| == DutyCycle.BUCKET_COUNT
    && DutyCycle.Reachable(s.budget, Charges(s.handed), last)
  }

  lemma HandleKeepsReachable(s: Station, last: nat, e: Event)
    requires Reachable(s, last) && last <= e.now
    ensures Reachable(Handle(s, e.command, e.now, e.answer).0, e.now)
  {
    hide DutyCycle.TryClaim, DutyCycle.Reachable, PacketAirtime;
    WaitKeepsReachable(s.budget, Charges(s.handed), last, e.now);
    if e.command.LoraTx? {
      var airtime := PacketAirtime(s.config, |e.command.data|);
      DutyCycle.ClaimKeepsReachable(s.budget, Charges(s.handed), last, DutyCycle.Request(e.now, airtime));
      DutyCycle.ClaimKeepsValid(s.budget, e.now, airtime);
      HandOver(s.handed, Handed(e.now, s.config, s.radio, |e.command.data|, e.answer.Landed()));
    }
  }

  lemma WaitKeepsReachable(w: DutyCycle.Window, log: seq<DutyCycle.Charge>, last: nat, now: nat)
    requires DutyCycle.Reachable(w, log, last) && last <= now
    ensures DutyCycle.Reachable(w, log, now)
  {}

  function LastTime(events: seq<Event>): nat {
    if events == [] then 0 else Last(events).now
  }

  lemma {:induction false} RunIsReachable(events: seq<Event>)
    requires Nondecreasing(events)
    ensures Reachable(Run(events), LastTime(events))
  {
    hide DutyCycle.Reachable;
    if events == [] {
      DutyCycle.RunIsReachable(DutyCycle.BUCKET_COUNT, 360_000, []);
    } else {
      RunIsReachable(Init(events));
      HandleKeepsReachable(Run(Init(events)), LastTime(Init(events)), Last(events));
    }
  }

  // ----- Charged and on the air ----------------------------------------------

  /** The radio never had a higher spreading factor than a packet was charged at. */
  ghost predicate NeverSlower(handed: seq<Handed>) {
    forall h :: h in handed ==> h.settings.spreadingFactor <= h.charged.spreadingFactor
  }

  /** Of the packets from `at` on, what is on the air is within what was charged. */
  lemma {:induction false} OnAirWithinCharges(handed: seq<Handed>, at: int, lo: int, hi: int)
    requires forall h :: h in handed ==> PermittedConfig(h.charged) && PermittedConfig(h.settings)
    requires forall h :: h in handed && h.at >= at ==> h.settings.spreadingFactor <= h.charged.spreadingFactor
    requires at <= lo
    ensures DutyCycle.SumIn(OnAir(handed), lo, hi) <= DutyCycle.SumIn(Charges(handed), lo, hi)
  {
    hide PacketAirtime, PermittedConfig;
    if handed != [] {
      var h := Last(handed);
      OnAirWithinCharges(Init(handed), at, lo, hi);
      assert handed == Init(handed) + [h];
      HandOver(Init(handed), h);
      DutyCycle.SumInAppend(OnAir(Init(handed)), DutyCycle.Charge(h.at, PacketAirtime(h.settings, h.length)), lo, hi);
      DutyCycle.SumInAppend(Charges(Init(handed)), DutyCycle.Charge(h.at, PacketAirtime(h.charged, h.length)), lo, hi);
      assert h in handed;
      if h.at >= at {
        NotSlowerIsNotLonger(h.charged, h.settings, h.length);
      }
    }
  }

  lemma NotSlowerIsNotLonger(charged: LoraConfig, settings: LoraConfig, length: nat)
    requires PermittedConfig(charged) && PermittedConfig(settings) && settings.spreadingFactor <= charged.spreadingFactor
    ensures PacketAirtime(settings, length) <= PacketAirtime(charged, length)
  {
    hide PacketAirtime;
    UnderchargedIffRadioIsSlower(charged, settings.spreadingFactor, length);
    assert settings == charged.(spreadingFactor := settings.spreadingFactor);
  }

  /** A change to a higher spreading factor that failed but had reached the modem. */
  ghost predicate RaiseCutShort(s: Station, e: Event) {
    && e.command.SetSpreadingFactor? && e.answer.result.Err? && e.answer.reached
    && s.config.spreadingFactor < e.command.spreadingFactor <= 12
  }

  ghost predicate NoRaiseCutShort(events: seq<Event>) {
    forall i :: 0 <= i < |events| ==> !RaiseCutShort(Run(events[..i]), events[i])
  }

  lemma PrefixWithoutRaise(events: seq<Event>)
    requires events != [] && NoRaiseCutShort(events)
    ensures NoRaiseCutShort(Init(events)) && !RaiseCutShort(Run(Init(events)), Last(events))
  {
    hide RaiseCutShort, Run;
    var before := Init(events);
    forall i | 0 <= i < |before| ensures !RaiseCutShort(Run(before[..i]), before[i]) {
      assert before[..i] == events[..i];
    }
    assert events[..|before|] == before;
  }

  lemma HandleStaysNotSlower(s: Station, e: Event)
    requires s.budget.Valid() && NeverSlower(s.handed) && s.radio.spreadingFactor <= s.config.spreadingFactor && !RaiseCutShort(s, e)
    ensures var s' := Handle(s, e.command, e.now, e.answer).0;
            NeverSlower(s'.handed) && s'.radio.spreadingFactor <= s'.config.spreadingFactor
  {
    hide DutyCycle.TryClaim, PacketAirtime;
  }

  lemma {:induction false} NoRaiseMeansNeverSlower(events: seq<Event>)
    requires NoRaiseCutShort(events)
    ensures NeverSlower(Run(events).handed) && Run(events).radio.spreadingFactor <= Run(events).config.spreadingFactor
  {
    hide Handle, RaiseCutShort, NoRaiseCutShort;
    if events != [] {
      PrefixWithoutRaise(events);
      NoRaiseMeansNeverSlower(Init(events));
      HandleStaysNotSlower(Run(Init(events)), Last(events));
    }
  }

  /**
   Over any run of commands and whatever the radio answers, the airtime charged is at most
   360 s in any closed 59 minutes; and so is the airtime the packets take at the settings the
   radio then has, unless a change to a higher spreading factor was cut short.
   */
  lemma TransmittedAirtimeIsWithinAllowance(events: seq<Event>, lo: int)
    requires Nondecreasing(events)
    ensures DutyCycle.SumIn(Charges(Run(events).handed), lo, lo + DutyCycle.GUARANTEED_MS + 1) <= 360_000
    ensures NoRaiseCutShort(events) ==> DutyCycle.SumIn(OnAir(Run(events).handed), lo, lo + DutyCycle.GUARANTEED_MS + 1) <= 360_000
  {
    hide DutyCycle.TryClaim;
    RunIsReachable(events);
    assert DutyCycle.SumFrom(Charges(Run(events).handed), lo, DutyCycle.GUARANTEED_MS) <= 360_000;
    if NoRaiseCutShort(events) {
      NoRaiseMeansNeverSlower(events);
      OnAirWithinCharges(Run(events).handed, lo, lo, lo + DutyCycle.GUARANTEED_MS + 1);
    }
  }

  lemma {:induction false} SlowerIsLonger(config: LoraConfig, sf: u8, length: nat)
    requires PermittedConfig(config) && config.spreadingFactor < sf <= 12
    ensures PacketAirtime(config, length) < PacketAirtime(config.(spreadingFactor := sf), length)
    decreases sf - config.spreadingFactor
  {
    AirtimeGrowsWithSf(config.spreadingFactor, config.bandwidthKhz, config.codingRate, length, PREAMBLE_SYMBOLS, true);
    if config.spreadingFactor + 1 < sf {
      SlowerIsLonger(config.(spreadingFactor := config.spreadingFactor + 1), sf, length);
    }
  }

  /**
   Why `configure` must be atomic for the accounting: a radio left at another spreading factor
   is undercharged exactly when that factor is the higher one.
   */
  lemma UnderchargedIffRadioIsSlower(config: LoraConfig, radioSf: u8, length: nat)
    requires PermittedConfig(config) && 7 <= radioSf <= 12
    ensures PacketAirtime(config, length) < PacketAirtime(config.(spreadingFactor := radioSf), length) <==> radioSf > config.spreadingFactor
  {
    var radio := config.(spreadingFactor := radioSf);
    assert radio.(spreadingFactor := config.spreadingFactor) == config;
    if radioSf > config.spreadingFactor {
      SlowerIsLonger(config, radioSf, length);
    } else if radioSf < config.spreadingFactor {
      SlowerIsLonger(radio, config.spreadingFactor, length);
    }
  }

  lemma LongestInSymbols()
    ensures LdroEnabled(12, 250) && SymbolTimeUs(12, 250) == 16_384 && QuarterSymbols(12, true, 4, 256, 8, true) == 1_745
  {
    Pow2Table();
  }

  /** No packet comes near the hourly allowance, so no refusal is for ever. */
  lemma LongestPacket(config: LoraConfig, length: nat)
    requires PermittedConfig(config) && length <= MAX_LORA_PAYLOAD
    ensures PacketAirtime(config, length) <= 7_148
  {
    hide QuarterSymbols, SymbolTimeUs, LdroEnabled;
    if config.spreadingFactor < 12 {
      SlowerIsLonger(config, 12, length);
    }
    AirtimeMonotone(12, 250, 8, 8, length, MAX_LORA_PAYLOAD, PREAMBLE_SYMBOLS, PREAMBLE_SYMBOLS, true, true);
    assert TimeOnAirMs(12, 250, 8, MAX_LORA_PAYLOAD) == 7_148 by { LongestInSymbols(); }
  }

  /**
   A refusal's hint is between one second and an hour, and it is exact: after that many whole
   seconds with no other traffic the same payload is admitted, and after fewer it is not.
   */
  lemma RefusalHintIsExact(s: Station, last: nat, data: Payload, now: nat, answer: RadioAnswer, secs: nat, answer': RadioAnswer)
    requires Reachable(s, last) && last <= now
    ensures var (s', response) := Handle(s, LoraTx(data), now, answer);
            response.TxRefused? ==>
              && 1 <= response.retryAfterSecs <= 3_600
              && s'.handed == s.handed
              && (HandleKeepsValid(s, Event(LoraTx(data), now, answer));
                  !Handle(s', LoraTx(data), now + 1000 * secs, answer').1.TxRefused? <==> secs >= response.retryAfterSecs)
  {
    var airtime := PacketAirtime(s.config, |data|);
    LongestPacket(s.config, |data|);
    DutyCycle.ClaimKeepsValid(s.budget, now, airtime);
    if DutyCycle.TryClaim(s.budget, now, airtime).1.Refused? {
      DutyCycle.RetryHintIsExact(s.budget, now, airtime, 1000 * secs);
    }
  }

  /** Only a transmission touches the budget, only a new spreading factor the settings. */
  lemma OtherCommandsAreFree(s: Station, command: Command, now: nat, answer: RadioAnswer)
    requires s.budget.Valid()
    ensures var s' := Handle(s, command, now, answer).0;
            && (!command.LoraTx? ==> s'.budget == s.budget && s'.handed == s.handed)
            && (s'.config != s.config ==> command.SetSpreadingFactor? && answer.result.Ok? && 7 <= command.spreadingFactor <= 12)
            && (!command.LoraTx? && !command.SetSpreadingFactor? ==> s' == s)
  {}

  ghost function RadioCommands(events: seq<Event>): seq<Event> {
    if events == [] then []
    else
      var e := Last(events);
      RadioCommands(Init(events)) + if e.command.LoraTx? || e.command.SetSpreadingFactor? then [e] else []
  }

  /** Over whole runs, every other command is invisible to radio, settings and budget. */
  lemma {:induction false} OtherCommandsAreInvisible(events: seq<Event>)
    ensures Run(RadioCommands(events)) == Run(events)
  {
    hide Handle;
    if events != [] {
      var e := Last(events);
      OtherCommandsAreInvisible(Init(events));
      OtherCommandsAreFree(Run(Init(events)), e.command, e.now, e.answer);
      assert RadioCommands(events) == RadioCommands(Init(events)) + if e.command.LoraTx? || e.command.SetSpreadingFactor? then [e] else [];
      if e.command.LoraTx? || e.command.SetSpreadingFactor? {
        assert Init(RadioCommands(events)) == RadioCommands(Init(events));
      } else {
        assert RadioCommands(events) == RadioCommands(Init(events));
      }
    }
  }

  /** The spreading factor of the last change reported as done; at boot, the default's 11. */
  ghost function ReportedSf(events: seq<Event>): u8 {
    if events == [] then 11
    else
      var e := Last(events);
      if e.command.SetSpreadingFactor? && Handle(Run(Init(events)), e.command, e.now, e.answer).1.RadioConfig?
      then e.command.spreadingFactor else ReportedSf(Init(events))
  }

  /** The settings a host reads are the default's with the spreading factor of the last change reported as done. */
  lemma {:induction false} GetRadioConfigTellsLastChange(events: seq<Event>, now: nat, answer: RadioAnswer)
    ensures Handle(Run(events), GetRadioConfig, now, answer).1 == RadioConfig(DEFAULT_CONFIG.(spreadingFactor := ReportedSf(events)))
  {
    hide DutyCycle.TryClaim, PacketAirtime;
    if events != [] {
      GetRadioConfigTellsLastChange(Init(events), now, answer);
    }
  }

  // ----- Exactly when the allowance is kept ----------------------------------

  /** `n` times the same payload at one moment, each sent. */
  function Burst(n: nat, data: Payload, at: nat): seq<Event> {
    seq(n, i => Event(LoraTx(data), at, RadioAnswer(Ok(()), true)))
  }

  lemma RunAppend(events: seq<Event>, e: Event)
    ensures Run(events + [e]) == Handle(Run(events), e.command, e.now, e.answer).0
  {
    hide Handle;
    assert Init(events + [e]) == events;
  }

  lemma BurstStep(events: seq<Event>, n: nat, data: Payload, at: nat)
    requires n > 0
    ensures events + Burst(n, data, at) == (events + Burst(n - 1, data, at)) + [Event(LoraTx(data), at, RadioAnswer(Ok(()), true))]
  {}

  lemma {:induction false} BurstIsNondecreasing(events: seq<Event>, n: nat, data: Payload, at: nat)
    requires Nondecreasing(events) && LastTime(events) <= at
    ensures Nondecreasing(events + Burst(n, data, at)) && LastTime(events + Burst(n, data, at)) <= at
  {
    var all := events + Burst(n, data, at);
    forall i, j | 0 <= i < j < |all| ensures all[i].now <= all[j].now {
      assert i < |events| ==> events[i].now <= LastTime(events);
    }
  }

  /** Neither the dispatcher's nor the radio's settings move, and every packet is charged and sent with them. */
  lemma {:induction false} BurstKeepsSettings(events: seq<Event>, n: nat, data: Payload, at: nat)
    requires Nondecreasing(events) && LastTime(events) < at
    ensures var s, s' := Run(events), Run(events + Burst(n, data, at));
            && s'.config == s.config && s'.radio == s.radio
            && (forall h :: h in s'.handed && h.at >= at ==> h.charged == s.config && h.settings == s.radio)
  {
    hide DutyCycle.TryClaim, PacketAirtime, Burst;
    if n == 0 {
      assert events + Burst(0, data, at) == events by { NoBurst(data, at); }
      RunIsReachable(events);
    } else {
      BurstKeepsSettings(events, n - 1, data, at);
      BurstStep(events, n, data, at);
      RunAppend(events + Burst(n - 1, data, at), Event(LoraTx(data), at, RadioAnswer(Ok(()), true)));
    }
  }

  lemma NoBurst(data: Payload, at: nat)
    ensures Burst(0, data, at) == []
  {}

  /** After an idle hour, as many equal packets as the allowance holds are admitted at once. */
  lemma {:induction false} BurstIsAdmitted(events: seq<Event>, n: nat, data: Payload, at: nat)
    requires Nondecreasing(events) && LastTime(events) + DutyCycle.HOUR_MS <= at
    requires n * PacketAirtime(Run(events).config, |data|) <= 360_000
    ensures var s, s' := Run(events), Run(events + Burst(n, data, at));
            && s'.config == s.config && s'.radio == s.radio
            && DutyCycle.SumIn(Charges(s'.handed), at - DutyCycle.HOUR_MS + 1, at + 1) == n * PacketAirtime(s.config, |data|)
            && DutyCycle.SumIn(OnAir(s'.handed), at, at + DutyCycle.GUARANTEED_MS + 1) == n * PacketAirtime(s.radio, |data|)
  {
    hide Handle, PacketAirtime, Reachable, Burst;
    var s := Run(events);
    if n == 0 {
      NoBurst(data, at);
      assert events + Burst(0, data, at) == events;
      RunIsReachable(events);
      OldPacketsAreOut(s, LastTime(events), at);
    } else {
      var before, e := events + Burst(n - 1, data, at), Event(LoraTx(data), at, RadioAnswer(Ok(()), true));
      OneMore(n, PacketAirtime(s.config, |data|));
      OneMore(n, PacketAirtime(s.radio, |data|));
      BurstIsAdmitted(events, n - 1, data, at);
      BurstStep(events, n, data, at);
      BurstIsNondecreasing(events, n - 1, data, at);
      RunIsReachable(before);
      RunAppend(before, e);
      AdmittedStep(Run(before), LastTime(before), data, at);
    }
  }

  lemma {:induction false} HandedBefore(handed: seq<Handed>, last: nat)
    requires forall h :: h in handed ==> h.at <= last
    ensures (forall c :: c in Charges(handed) ==> c.at <= last) && (forall c :: c in OnAir(handed) ==> c.at <= last)
  {
    hide PacketAirtime;
    if handed != [] {
      HandedBefore(Init(handed), last);
    }
  }

  lemma OldPacketsAreOut(s: Station, last: nat, at: nat)
    requires Reachable(s, last) && last + DutyCycle.HOUR_MS <= at
    ensures DutyCycle.SumIn(Charges(s.handed), at - DutyCycle.HOUR_MS + 1, at + 1) == 0
    ensures DutyCycle.SumIn(OnAir(s.handed), at, at + DutyCycle.GUARANTEED_MS + 1) == 0
  {
    hide DutyCycle.Reachable, PermittedConfig, DutyCycle.SumIn, Charges, OnAir;
    HandedBefore(s.handed, last);
    DutyCycle.SumInOutside(Charges(s.handed), at - DutyCycle.HOUR_MS + 1, at + 1);
    DutyCycle.SumInOutside(OnAir(s.handed), at, at + DutyCycle.GUARANTEED_MS + 1);
  }

  lemma AdmittedStep(s: Station, last: nat, data: Payload, at: nat)
    requires Reachable(s, last) && last <= at && s.budget.Valid()
    requires DutyCycle.SumIn(Charges(s.handed), at - DutyCycle.HOUR_MS + 1, at + 1) + PacketAirtime(s.config, |data|) <= 360_000
    ensures var s' := Handle(s, LoraTx(data), at, RadioAnswer(Ok(()), true)).0;
            && s'.config == s.config && s'.radio == s.radio
            && DutyCycle.SumIn(Charges(s'.handed), at - DutyCycle.HOUR_MS + 1, at + 1)
               == DutyCycle.SumIn(Charges(s.handed), at - DutyCycle.HOUR_MS + 1, at + 1) + PacketAirtime(s.config, |data|)
            && DutyCycle.SumIn(OnAir(s'.handed), at, at + DutyCycle.GUARANTEED_MS + 1)
               == DutyCycle.SumIn(OnAir(s.handed), at, at + DutyCycle.GUARANTEED_MS + 1) + PacketAirtime(s.radio, |data|)
  {
    hide Handle, Reachable, DutyCycle.SumIn, DutyCycle.TryClaim, PacketAirtime;
    var airtime := PacketAirtime(s.config, |data|);
    BudgetOf(s, last);
    DutyCycle.NeverStricterThanExactWindow(s.budget, Charges(s.handed), last, DutyCycle.Request(at, airtime));
    AcceptedIsHandedOver(s, data, at);
    HandOver(s.handed, Handed(at, s.config, s.radio, |data|, true));
    DutyCycle.SumInAppend(Charges(s.handed), DutyCycle.Charge(at, airtime), at - DutyCycle.HOUR_MS + 1, at + 1);
    DutyCycle.SumInAppend(OnAir(s.handed), DutyCycle.Charge(at, PacketAirtime(s.radio, |data|)), at, at + DutyCycle.GUARANTEED_MS + 1);
  }

  lemma BudgetOf(s: Station, last: nat)
    requires Reachable(s, last)
    ensures s.budget.Valid() && s.budget.allowance == Some(360_000) && |s.budget.ages| == DutyCycle.BUCKET_COUNT && DutyCycle.Reachable(s.budget, Charges(s.handed), last)
  {}

  lemma AcceptedIsHandedOver(s: Station, data: Payload, at: nat)
    requires s.budget.Valid() && DutyCycle.TryClaim(s.budget, at, PacketAirtime(s.config, |data|)).1.Accepted?
    ensures var s' := Handle(s, LoraTx(data), at, RadioAnswer(Ok(()), true)).0;
            && s'.config == s.config && s'.radio == s.radio
            && s'.handed == s.handed + [Handed(at, s.config, s.radio, |data|, true)]
  {
    hide DutyCycle.TryClaim, PacketAirtime;
  }

  /** So many short packets fit that one more millisecond each passes the allowance. */
  lemma ManyShortPackets(config: LoraConfig, radio: LoraConfig) returns (n: nat)
    requires PermittedConfig(config) && PermittedConfig(radio) && radio.spreadingFactor > config.spreadingFactor
    ensures n * PacketAirtime(config, 0) <= 360_000 < n * PacketAirtime(radio, 0)
  {
    hide PacketAirtime;
    var a, b := PacketAirtime(config, 0), PacketAirtime(radio, 0);
    ShortPacket(config);
    SlowerIsLonger(config, radio.spreadingFactor, 0);
    assert radio == config.(spreadingFactor := radio.spreadingFactor);
    n := 360_000 / a;
    DivBounds(360_000, a);
    QuotientAbove(n, a);
    MulMonotone(a + 1, b, n);
    assert n * (a + 1) == n * a + n;
  }

  lemma QuotientAbove(n: nat, a: nat)
    requires 0 < a <= 599 && 360_000 < n * a + a
    ensures n >= a
  {
    MulMonotone(a, 599, a);
    MulMonotone(a, 599, 599);
    assert (n + 1) * a == n * a + a;
    if n < a {
      MulMonotone(n + 1, a, a);
      assert false;
    }
  }

  lemma ShortPacket(config: LoraConfig)
    requires PermittedConfig(config) && config.spreadingFactor < 12
    ensures 0 < PacketAirtime(config, 0) <= 599
  {
    hide PacketAirtime;
    assert PacketAirtime(DEFAULT_CONFIG, 0) == 166 by { DefaultShortPacket(); }
    assert config == DEFAULT_CONFIG.(spreadingFactor := config.spreadingFactor);
    assert DEFAULT_CONFIG.(spreadingFactor := 11) == DEFAULT_CONFIG;
    if config.spreadingFactor < 11 {
      SlowerIsLonger(config, 11, 0);
      assert config.(spreadingFactor := 11) == DEFAULT_CONFIG;
    }
    NoPacketIsFree(config, 0);
  }

  lemma DefaultShortPacket()
    ensures PacketAirtime(DEFAULT_CONFIG, 0) == 166
  {
    Pow2Table();
  }

  lemma NoPacketIsFree(config: LoraConfig, length: nat)
    requires PermittedConfig(config)
    ensures PacketAirtime(config, length) > 0
  {
    hide Blocks;
    SymbolTimeDoubles(if config.spreadingFactor < 12 then config.spreadingFactor else 11, config.bandwidthKhz);
    LongEnough(QuarterSymbols(config.spreadingFactor, LdroEnabled(config.spreadingFactor, 250), 4, length, 8, true),
               SymbolTimeUs(config.spreadingFactor, 250));
  }

  lemma LongEnough(q: nat, st: nat)
    requires q >= 17 && st >= 256
    ensures DivCeil(QuartersUs(q, st), 1000) > 0
  {
    MulMonotone(17, q, st);
  }

  /**
   Exactly when the budget still bounds what is on the air: after any run, whatever payload
   is sent however often after an idle hour, the 59 minutes from then on hold at most 360 s
   if and only if the radio's spreading factor is not above the dispatcher's.
   */
  lemma AllowanceKeptIffNotSlower(events: seq<Event>)
    requires Nondecreasing(events)
    ensures Run(events).radio.spreadingFactor <= Run(events).config.spreadingFactor <==>
            forall n: nat, data: Payload, at: nat :: LastTime(events) + DutyCycle.HOUR_MS <= at ==>
              DutyCycle.SumIn(OnAir(Run(events + Burst(n, data, at)).handed), at, at + DutyCycle.GUARANTEED_MS + 1) <= 360_000
  {
    hide PacketAirtime, Burst, Reachable;
    var s := Run(events);
    if s.radio.spreadingFactor <= s.config.spreadingFactor {
      forall n: nat, data: Payload, at: nat | LastTime(events) + DutyCycle.HOUR_MS <= at
        ensures DutyCycle.SumIn(OnAir(Run(events + Burst(n, data, at)).handed), at, at + DutyCycle.GUARANTEED_MS + 1) <= 360_000
      {
        NotSlowerKeepsAllowance(events, n, data, at);
      }
    } else {
      RunIsReachable(events);
      SettingsArePermitted(s, LastTime(events));
      var n := ManyShortPackets(s.config, s.radio);
      var at := LastTime(events) + DutyCycle.HOUR_MS;
      BurstIsAdmitted(events, n, [], at);
    }
  }

  lemma SettingsArePermitted(s: Station, last: nat)
    requires Reachable(s, last)
    ensures PermittedConfig(s.config) && PermittedConfig(s.radio)
    ensures forall h :: h in s.handed ==> PermittedConfig(h.charged) && PermittedConfig(h.settings)
  {}

  lemma NotSlowerKeepsAllowance(events: seq<Event>, n: nat, data: Payload, at: nat)
    requires Nondecreasing(events) && LastTime(events) + DutyCycle.HOUR_MS <= at
    requires Run(events).radio.spreadingFactor <= Run(events).config.spreadingFactor
    ensures DutyCycle.SumIn(OnAir(Run(events + Burst(n, data, at)).handed), at, at + DutyCycle.GUARANTEED_MS + 1) <= 360_000
  {
    hide PacketAirtime, Burst, Reachable, NoRaiseCutShort;
    var all := events + Burst(n, data, at);
    BurstKeepsSettings(events, n, data, at);
    BurstIsNondecreasing(events, n, data, at);
    RunIsReachable(all);
    SettingsArePermitted(Run(all), LastTime(all));
    OnAirWithinCharges(Run(all).handed, at, at, at + DutyCycle.GUARANTEED_MS + 1);
    TransmittedAirtimeIsWithinAllowance(all, at);
  }
}
