/**
 The dispatcher object on the SX1262 driver (src/dispatcher/handler.rs), and the radio task
 that serves it (src/tasks/lora.rs): down to the register bytes of the packets sent, over a
 bus that may fail at any command.
 */
module Dispatcher {
  import opened Prelude
  import opened LoraTypes
  import opened Limiter
  import opened Dispatch
  import opened Sx1262
  import opened Driver
  import DutyCycle
  import EndToEnd

  // ----- Packets handed over and packets sent --------------------------------

  /** Those of the packets handed over that went out. */
  ghost function WentOut(handed: seq<Handed>): seq<Handed> {
    if handed == [] then []
    else WentOut(Init(handed)) + if Last(handed).sent then [Last(handed)] else []
  }

  /** A transmission with the bytes of the radio's settings at the hand-over. */
  ghost predicate Shaped(t: Transmission, h: Handed) {
    && |t.payload| == h.length <= HW_MAX_PAYLOAD_LEN
    && t.modulation == SetModulationParams(h.settings).data
    && t.packetParams == PacketBytes(Some(h.charged), h.length)
  }

  /** The chip's transmissions after the first ones are exactly the packets that went out. */
  ghost predicate OnChip(sent: seq<Transmission>, first: seq<Transmission>, out: seq<Handed>) {
    && |sent| == |first| + |out| && sent[..|first|] == first
    && forall j :: 0 <= j < |out| ==> Shaped(sent[|first| + j], out[j])
  }

  /** The log of the chip: each transmission's airtime by its register bytes, at the given times. */
  ghost function RegisterLog(sent: seq<Transmission>, times: seq<nat>): seq<DutyCycle.Charge>
    requires |sent| == |times|
  {
    if sent == [] then []
    else RegisterLog(Init(sent), Init(times)) + [DutyCycle.Charge(Last(times), RegisterAirtime(Last(sent)))]
  }

  /** That log for the transmissions after the first ones, at the times of their hand-over. */
  ghost function ChipLog(sent: seq<Transmission>, first: seq<Transmission>, out: seq<Handed>): seq<DutyCycle.Charge>
    requires OnChip(sent, first, out)
  {
    RegisterLog(sent[|first|..], Times(out))
  }

  function Times(out: seq<Handed>): (times: seq<nat>)
    ensures |times| == |out|
  {
    seq(|out|, i requires 0 <= i < |out| => out[i].at)
  }

  lemma ShapedAirtime(t: Transmission, h: Handed)
    requires Shaped(t, h) && PermittedConfig(h.charged) && PermittedConfig(h.settings)
    ensures Meaningful(t.modulation) && |t.packetParams| == 6
    ensures RegisterAirtime(t) == PacketAirtime(h.settings, h.length)
  {
    hide AirtimeOfRegisters, PacketAirtime, SetModulationParams;
    EndToEnd.HostAirtime(h.settings, h.length);
    EndToEnd.SamePacketBytes(h.charged, h.settings, h.length);
  }

  ghost predicate AllPermitted(handed: seq<Handed>) {
    forall h :: h in handed ==> PermittedConfig(h.charged) && PermittedConfig(h.settings)
  }

  lemma {:induction false} OutArePermitted(handed: seq<Handed>)
    requires AllPermitted(handed)
    ensures AllPermitted(WentOut(handed))
  {
    hide PermittedConfig;
    if handed != [] {
      OutArePermitted(Init(handed));
    }
  }

  /** What the chip's registers say it sent is what the packets that went out take on the air. */
  lemma {:induction false} RegistersTellAirtime(sent: seq<Transmission>, out: seq<Handed>)
    requires OnChip(sent, [], out) && AllPermitted(out)
    ensures RegisterLog(sent, Times(out)) == OnAir(out)
  {
    hide Shaped, PermittedConfig, PacketAirtime, RegisterAirtime;
    if out != [] {
      assert sent[|out| - 1] == Last(sent);
      RegistersTellAirtime(Init(sent), Init(out));
      ShapedAirtime(Last(sent), Last(out));
      assert Init(Times(out)) == Times(Init(out));
    } else {
      assert sent == [];
    }
  }

  /** Packets that never went out only make room. */
  lemma {:induction false} OutWithinHanded(handed: seq<Handed>, lo: int, hi: int)
    ensures DutyCycle.SumIn(OnAir(WentOut(handed)), lo, hi) <= DutyCycle.SumIn(OnAir(handed), lo, hi)
  {
    hide PacketAirtime;
    if handed != [] {
      var h := Last(handed);
      OutWithinHanded(Init(handed), lo, hi);
      assert handed == Init(handed) + [h];
      HandOver(Init(handed), h);
      DutyCycle.SumInAppend(OnAir(Init(handed)), DutyCycle.Charge(h.at, PacketAirtime(h.settings, h.length)), lo, hi);
      if h.sent {
        HandOver(WentOut(Init(handed)), h);
        DutyCycle.SumInAppend(OnAir(WentOut(Init(handed))), DutyCycle.Charge(h.at, PacketAirtime(h.settings, h.length)), lo, hi);
      } else {
        assert WentOut(handed) == WentOut(Init(handed));
      }
    }
  }

  // ----- The dispatcher ------------------------------------------------------

  /** What the driver is to a station while it serves: the two agree on everything that was set and sent. */
  ghost predicate Serves(driver: Sx1262Driver, s: Station, first: seq<Transmission>)
    reads driver, driver.spi
  {
    && driver.Valid() && PermittedConfig(s.config) && PermittedConfig(s.radio) && AllPermitted(s.handed)
    && (driver.initialised ==> driver.config == Some(s.config) && driver.spi.chip.modulation == SetModulationParams(s.radio).data)
    && OnChip(driver.spi.chip.sent, first, WentOut(s.handed))
  }

  /**
   What became of a host's packet, against what it is told: refused without touching the radio,
   or, unless a wait, a read or a write failed, `TxComplete` if and only if the chip raised
   TX_DONE for it. Only a wait that ran out is a timeout, only an unsendable length an invalid one.
   */
  ghost predicate Told(before: Chip, after: Chip, response: Response, result: Outcome) {
    || (response.TxRefused? && after == before)
    || (&& AnswerTells(before, after, result) && (response.TxComplete? <==> result.Ok?)
        && (response == Error(TimeoutStatus, LoraTxId) <==> result == Err(Timeout))
        && (response == Error(InvalidLength, LoraTxId) <==> result == Err(InvalidConfig)))
  }

  /** Other commands send nothing, and are never told that a packet is complete. */
  ghost predicate TurnTold(before: Chip, after: Chip, command: Command, response: Response, result: Outcome) {
    if command.LoraTx? then Told(before, after, response, result) else NothingSent(before, after) && !response.TxComplete?
  }

  /** What a command comes to while nothing on the bus fails: a permitted change is done, a packet that is not refused and can be sent goes out. */
  ghost predicate CarriedOut(command: Command, response: Response, answer: RadioAnswer) {
    match command
    case SetSpreadingFactor(sf) => 7 <= sf <= 12 ==> response.RadioConfig?
    case LoraTx(data) => 1 <= |data| <= HW_MAX_PAYLOAD_LEN ==> response.TxRefused? || answer.Landed()
    case _ => true
  }

  class CommandDispatcher {
    var config: LoraConfig
    const dutyCycle: DutyCycleLimiter

    ghost predicate Valid()
      reads this, dutyCycle, dutyCycle.buckets
    {
      dutyCycle.Valid()
    }

    /** The dispatcher and its radio are in the state `s`; the chip had sent `first` before. */
    ghost predicate Runs(driver: Sx1262Driver, s: Station, first: seq<Transmission>)
      reads this, dutyCycle, dutyCycle.buckets, driver, driver.spi
    {
      Valid() && config == s.config && dutyCycle.View() == s.budget && Serves(driver, s, first)
    }

    constructor ()
      ensures Valid() && config == DEFAULT_CONFIG && fresh(dutyCycle) && fresh(dutyCycle.buckets)
      ensures dutyCycle.View() == DutyCycle.Fresh(DEFAULT_CONFIG.frequencyHz)
    {
      config := DEFAULT_CONFIG;
      dutyCycle := new DutyCycleLimiter.ForFrequency(DEFAULT_CONFIG.frequencyHz);
    }

    /** One command; `answer` is what the radio made of it, as far as the chip can tell. */
    method Dispatch(driver: Sx1262Driver, command: Command, now: nat, ghost s: Station, ghost first: seq<Transmission>)
      returns (response: Response, ghost answer: RadioAnswer)
      requires Runs(driver, s, first)
      modifies this, dutyCycle, dutyCycle.buckets, driver`inContinuousRx, driver`config, driver.spi
      ensures !driver.initialised ==> driver.spi.chip.sent == old(driver.spi.chip).sent
      ensures Runs(driver, Handle(s, command, now, answer).0, first) && response == Handle(s, command, now, answer).1
      ensures Valid()
      ensures TurnTold(old(driver.spi.chip), driver.spi.chip, command, response, answer.result)
      ensures old(driver.spi.faults) <= driver.spi.faults
      ensures driver.initialised && driver.spi.faults == old(driver.spi.faults) ==> CarriedOut(command, response, answer)
    {
      hide DutyCycle.TryClaim, DutyCycleLimiter.View, DutyCycleLimiter.Valid, PacketAirtime, FaultResponse, RetrySeconds, Serves;
      answer := RadioAnswer(Ok(()), true);
      match command {
        case GetVersion =>
          response := Version(0, 1, 0);
        case Reboot =>
          response := Error(InvalidCommand, RebootId);
        case GetRadioConfig =>
          response := RadioConfig(config);
        case LoraTx(data) =>
          response, answer := HandleLoraTx(driver, data, now, s, first);
        case SetSpreadingFactor(sf) =>
          response, answer := HandleSetSpreadingFactor(driver, sf, now, s, first);
      }
    }

    /** The claim comes first: what is refused never reaches the driver, what fails later is not refunded. */
    method HandleLoraTx(driver: Sx1262Driver, data: Payload, now: nat, ghost s: Station, ghost first: seq<Transmission>)
      returns (response: Response, ghost answer: RadioAnswer)
      requires Runs(driver, s, first)
      modifies dutyCycle, dutyCycle.buckets, driver`inContinuousRx, driver.spi
      ensures !driver.initialised ==> driver.spi.chip.sent == old(driver.spi.chip).sent
      ensures Runs(driver, Handle(s, LoraTx(data), now, answer).0, first) && response == Handle(s, LoraTx(data), now, answer).1
      ensures Told(old(driver.spi.chip), driver.spi.chip, response, answer.result)
      ensures old(driver.spi.faults) <= driver.spi.faults
      ensures driver.initialised && driver.spi.faults == old(driver.spi.faults) ==> CarriedOut(LoraTx(data), response, answer)
      ensures driver.initialised && !(1 <= |data| <= HW_MAX_PAYLOAD_LEN) ==> response.TxRefused? || response == Error(InvalidLength, LoraTxId)
    {
      hide DutyCycle.TryClaim, DutyCycleLimiter.View, DutyCycleLimiter.Valid, PacketAirtime, RetrySeconds;
      hide TuningOf, SetModulationParams, Listening, WellSent, OnChip, PermittedConfig, AllPermitted, WentOut, AtMostOneSent;
      answer := RadioAnswer(Ok(()), true);
      var claim := dutyCycle.TryClaim(now, PacketAirtime(config, |data|));
      if claim.Refused? {
        return TxRefused(RetrySeconds(claim.retryAfterMs)), answer;
      }
      ghost var before := driver.spi.chip;
      var r := driver.Transmit(data);
      answer := RadioAnswer(r, driver.spi.chip.sent != before.sent);
      SameModulation(before, driver.spi.chip);
      TransmittedIsHandedOver(before, driver.spi.chip, driver.initialised, driver.config, s, first, data, now, answer);
      return if r.Ok? then TxComplete else FaultResponse(r.error, LoraTxId), answer;
    }

    method HandleSetSpreadingFactor(driver: Sx1262Driver, spreadingFactor: u8, now: nat, ghost s: Station, ghost first: seq<Transmission>)
      returns (response: Response, ghost answer: RadioAnswer)
      requires Runs(driver, s, first)
      modifies `config, driver`inContinuousRx, driver`config, driver.spi
      ensures NothingSent(old(driver.spi.chip), driver.spi.chip) && !response.TxComplete?
      ensures old(driver.spi.faults) <= driver.spi.faults
      ensures driver.spi.faults == old(driver.spi.faults) ==> CarriedOut(SetSpreadingFactor(spreadingFactor), response, answer)
      ensures Runs(driver, Handle(s, SetSpreadingFactor(spreadingFactor), now, answer).0, first)
      ensures response == Handle(s, SetSpreadingFactor(spreadingFactor), now, answer).1
    {
      hide DutyCycle.TryClaim, DutyCycleLimiter.View, DutyCycleLimiter.Valid, PacketAirtime, RetrySeconds;
      hide TuningOf, SetModulationParams, Listening, WellSent, OnChip, AllPermitted, WentOut, Play, Partway, ConfigureScript;
      answer := RadioAnswer(Ok(()), true);
      if !(7 <= spreadingFactor <= 12) {
        return Error(InvalidParameter, SetSpreadingFactorId), answer;
      }
      var candidate := config.(spreadingFactor := spreadingFactor);
      ghost var before := driver.spi.chip;
      var r := driver.Configure(candidate);
      ghost var landed := Landed(before, candidate, driver.spi.chip, r.Ok?);
      CutShortConfigureModulation(before, candidate, before.Register(IQ_POLARITY), landed);
      answer := RadioAnswer(r, landed >= 4);
      if r.Err? {
        return FaultResponse(r.error, SetSpreadingFactorId), answer;
      }
      config := candidate;
      return RadioConfig(config), answer;
    }
  }

  /** The one packet `Transmit` sends, if any, is the one handed over. */
  lemma TransmittedIsHandedOver(before: Chip, after: Chip, initialised: bool, stored: Option<LoraConfig>,
                                s: Station, first: seq<Transmission>, data: Payload, now: nat, answer: RadioAnswer)
    requires PermittedConfig(s.config) && PermittedConfig(s.radio) && AllPermitted(s.handed)
    requires OnChip(before.sent, first, WentOut(s.handed))
    requires initialised ==> stored == Some(s.config) && before.modulation == SetModulationParams(s.radio).data
    requires AtMostOneSent(before, after, stored, data, answer.result)
    requires !initialised ==> after.sent == before.sent
    requires answer.reached == (after.sent != before.sent)
    ensures var handed := s.handed + [Handed(now, s.config, s.radio, |data|, answer.Landed())];
            AllPermitted(handed) && OnChip(after.sent, first, WentOut(handed))
  {
    hide SetModulationParams, WellSent, PermittedConfig, PacketBytes;
    var h := Handed(now, s.config, s.radio, |data|, answer.Landed());
    var handed := s.handed + [h];
    assert Init(handed) == s.handed;
    if after.sent != before.sent {
      SentIsShaped(Last(after.sent), before, stored, data, h);
      forall j | 0 <= j < |WentOut(handed)| ensures Shaped(after.sent[|first| + j], WentOut(handed)[j]) {
        if j < |WentOut(s.handed)| {
          assert after.sent[|first| + j] == after.sent[..|before.sent|][|first| + j];
        }
      }
    }
  }

  lemma SentIsShaped(t: Transmission, before: Chip, stored: Option<LoraConfig>, data: seq<u8>, h: Handed)
    requires SentAsStored(t, before, stored, data) && stored == Some(h.charged) && h.length == |data|
    requires before.modulation == SetModulationParams(h.settings).data
    ensures Shaped(t, h)
  {
    hide SetModulationParams;
  }

  // ----- The radio task ------------------------------------------------------

  /** A command from the channel, and whether a received packet is read first. */
  datatype Turn = Turn(command: Command, now: nat, packetFirst: bool)

  /** Reboots go to the admin task: they are not dispatched and get no response. */
  function Dispatched(turns: seq<Turn>): seq<Turn> {
    if turns == [] then []
    else Dispatched(Init(turns)) + if Last(turns).command.Reboot? then [] else [Last(turns)]
  }

  ghost predicate Records(turns: seq<Turn>, events: seq<Event>) {
    |events| == |turns| && forall i :: 0 <= i < |turns| ==> events[i].command == turns[i].command && events[i].now == turns[i].now
  }

  ghost predicate InOrder(turns: seq<Turn>) {
    forall i, j :: 0 <= i < j < |turns| ==> turns[i].now <= turns[j].now
  }

  /** Every change to a permitted spreading factor was reported as done. */
  predicate ChangesSucceed(turns: seq<Turn>, responses: seq<Response>)
    requires |turns| == |responses|
  {
    forall i :: 0 <= i < |turns| && turns[i].command.SetSpreadingFactor? && 7 <= turns[i].command.spreadingFactor <= 12 ==>
                  responses[i].RadioConfig?
  }

  ghost function ResponseAt(events: seq<Event>, i: nat): Response
    requires i < |events|
  {
    Handle(Run(events[..i]), events[i].command, events[i].now, events[i].answer).1
  }

  lemma ResponsesStay(events: seq<Event>, e: Event)
    ensures forall k :: 0 <= k < |events| ==> ResponseAt(events + [e], k) == ResponseAt(events, k)
    ensures ResponseAt(events + [e], |events|) == Handle(Run(events), e.command, e.now, e.answer).1
  {
    hide Handle, Run;
    forall k | 0 <= k < |events| ensures ResponseAt(events + [e], k) == ResponseAt(events, k) {
      assert (events + [e])[..k] == events[..k];
    }
    assert (events + [e])[..|events|] == events;
  }

  lemma {:induction false} SettingsStayPermitted(events: seq<Event>)
    ensures PermittedConfig(Run(events).config)
  {
    hide DutyCycle.TryClaim, PacketAirtime;
    if events != [] {
      SettingsStayPermitted(Init(events));
    }
  }

  /** How many transmissions the host was told are complete. */
  function Completions(responses: seq<Response>): nat {
    if responses == [] then 0 else Completions(Init(responses)) + if Last(responses).TxComplete? then 1 else 0
  }

  ghost predicate AllCarriedOut(events: seq<Event>, responses: seq<Response>)
    requires |responses| == |events|
  {
    forall i :: 0 <= i < |events| ==> CarriedOut(events[i].command, responses[i], events[i].answer)
  }

  lemma CarriedOutMeansChanged(turns: seq<Turn>, events: seq<Event>, responses: seq<Response>)
    requires |responses| == |events| && Records(turns, events) && AllCarriedOut(events, responses)
    ensures ChangesSucceed(turns, responses)
  {
    forall i | 0 <= i < |turns| && turns[i].command.SetSpreadingFactor? && 7 <= turns[i].command.spreadingFactor <= 12
      ensures responses[i].RadioConfig?
    {
      assert CarriedOut(events[i].command, responses[i], events[i].answer);
    }
  }

  lemma OneMoreTurn(before: Chip, after: Chip, command: Command, responses: seq<Response>, response: Response, result: Outcome)
    requires TurnTold(before, after, command, response, result)
    ensures Completions(responses + [response]) - Completions(responses) <= after.completed - before.completed
  {
    assert Init(responses + [response]) == responses;
  }

  /** Then none was cut short at a higher one. */
  lemma SucceededMeansNotCutShort(turns: seq<Turn>, events: seq<Event>, responses: seq<Response>)
    requires Records(turns, events) && |responses| == |turns| && ChangesSucceed(turns, responses)
    requires forall i :: 0 <= i < |turns| ==> responses[i] == ResponseAt(events, i)
    ensures NoRaiseCutShort(events)
  {
    hide Run, DutyCycle.TryClaim, PacketAirtime;
    forall i | 0 <= i < |events| ensures !RaiseCutShort(Run(events[..i]), events[i]) {
      SettingsStayPermitted(events[..i]);
      assert responses[i] == ResponseAt(events, i);
    }
  }

  /**
   By the register bytes of the packets the chip sent, any closed 59 minutes hold at most
   360 s of them, unless a change to a higher spreading factor was cut short.
   */
  lemma RegisterAirtimeIsWithinAllowance(sent: seq<Transmission>, first: seq<Transmission>, events: seq<Event>)
    requires OnChip(sent, first, WentOut(Run(events).handed)) && Nondecreasing(events) && NoRaiseCutShort(events)
    ensures DutyCycle.WindowSafe(ChipLog(sent, first, WentOut(Run(events).handed)), 360_000, DutyCycle.GUARANTEED_MS)
  {
    hide Run, Nondecreasing, NoRaiseCutShort, Shaped, PacketAirtime, PermittedConfig, WentOut, Reachable;
    var handed := Run(events).handed;
    RunIsReachable(events);
    SettingsArePermitted(Run(events), LastTime(events));
    OutArePermitted(handed);
    RegistersTellAirtime(sent[|first|..], WentOut(handed));
    forall lo: int ensures DutyCycle.SumFrom(OnAir(WentOut(handed)), lo, DutyCycle.GUARANTEED_MS) <= 360_000 {
      OutWithinHanded(handed, lo, lo + DutyCycle.GUARANTEED_MS + 1);
      TransmittedAirtimeIsWithinAllowance(events, lo);
    }
  }

  /** Arms the receiver and, if a packet arrives before the next command, reads it. */
  method Listen(driver: Sx1262Driver, packetFirst: bool)
    requires driver.Valid()
    modifies driver`inContinuousRx, driver.spi
    ensures driver.Valid() && NothingSent(old(driver.spi.chip), driver.spi.chip)
    ensures driver.spi.chip.modulation == old(driver.spi.chip).modulation
    ensures old(driver.spi.faults) <= driver.spi.faults
  {
    hide TuningOf, Listening, WellSent;
    ghost var c := driver.spi.chip;
    var armed := driver.ArmReceive();
    SameModulation(c, driver.spi.chip);
    if packetFirst {
      var packet := driver.ReadPacket();
    }
  }

  /**
   The radio task: bring the radio up, and whether or not that worked serve commands for ever,
   arming the receiver before each. The responses, none of them to a reboot, are those of a run
   of the dispatcher, and the chip sent exactly the packets of that run that went out; none, if the radio never came
   up; and for each packet the host is told is complete, one transmission ended with TX_DONE.
   If nothing on the bus fails, every permitted change is done and every packet that is not
   refused and can be sent goes out. If no change of spreading factor was answered with an error, the chip's own registers
   say that no closed 59 minutes hold more than 360 s of air.
   */
  method ServeCommands(driver: Sx1262Driver, turns: seq<Turn>)
    returns (ghost events: seq<Event>, responses: seq<Response>)
    requires driver.Valid() && !driver.initialised
    modifies driver, driver.spi
    ensures driver.Valid()
    ensures Records(Dispatched(turns), events) && |responses| == |events|
    ensures forall i :: 0 <= i < |events| ==> responses[i] == ResponseAt(events, i)
    ensures OnChip(driver.spi.chip.sent, old(driver.spi.chip).sent, WentOut(Run(events).handed))
    ensures !driver.initialised ==> driver.spi.chip.sent == old(driver.spi.chip).sent
    ensures driver.spi.faults == old(driver.spi.faults) ==>
              driver.initialised && AllCarriedOut(events, responses) && ChangesSucceed(Dispatched(turns), responses)
    ensures old(driver.spi.chip).completed + Completions(responses) <= driver.spi.chip.completed
    ensures InOrder(turns) && ChangesSucceed(Dispatched(turns), responses) ==>
              DutyCycle.WindowSafe(ChipLog(driver.spi.chip.sent, old(driver.spi.chip).sent, WentOut(Run(events).handed)), 360_000, DutyCycle.GUARANTEED_MS)
  {
    hide DutyCycleLimiter.View, DutyCycleLimiter.Valid, TuningOf, TuningFor, SetModulationParams, Listening, WellSent, Handle;
    hide OnChip, AllPermitted, WentOut, ResponseAt, Run, ChipLog, DutyCycle.WindowSafe, NoRaiseCutShort, InOrder, Nondecreasing, PermittedConfig, ChangesSucceed, Dispatched;
    hide TurnTold, Completions, CarriedOut;
    var dispatcher := new CommandDispatcher();
    ghost var first, completed, faults := driver.spi.chip.sent, driver.spi.chip.completed, driver.spi.faults;
    var up := driver.Initialise();
    if up.Ok? {
      TunedModulation(driver.spi.chip, DEFAULT_CONFIG);
    }
    NothingServedYet(first);
    assert turns[..0] == [];
    events, responses := [], [];
    for i := 0 to |turns|
      invariant dispatcher.Runs(driver, Run(events), first)
      invariant fresh(dispatcher) && fresh(dispatcher.dutyCycle) && fresh(dispatcher.dutyCycle.buckets)
      invariant |responses| == |events| && Records(Dispatched(turns[..i]), events)
      invariant forall k :: 0 <= k < |events| ==> responses[k] == ResponseAt(events, k)
      invariant !driver.initialised ==> driver.spi.chip.sent == first
      invariant faults <= driver.spi.faults && (driver.spi.faults == faults ==> driver.initialised && AllCarriedOut(events, responses))
      invariant completed + Completions(responses) <= driver.spi.chip.completed
    {
      Listen(driver, turns[i].packetFirst);
      DispatchedStep(turns, i);
      if turns[i].command.Reboot? {
        continue;
      }
      ghost var s, before := Run(events), driver.spi.chip;
      var response, answer := dispatcher.Dispatch(driver, turns[i].command, turns[i].now, s, first);
      ghost var e := Event(turns[i].command, turns[i].now, answer);
      RunAppend(events, e);
      ResponsesStay(events, e);
      OneMoreTurn(before, driver.spi.chip, turns[i].command, responses, response, answer.result);
      events, responses := events + [e], responses + [response];
    }
    assert turns[..|turns|] == turns;
    if driver.spi.faults == faults {
      CarriedOutMeansChanged(Dispatched(turns), events, responses);
    }
    if InOrder(turns) && ChangesSucceed(Dispatched(turns), responses) {
      SucceededMeansNotCutShort(Dispatched(turns), events, responses);
      DispatchedInOrder(turns);
      RecordsAreOrdered(Dispatched(turns), events);
      RegisterAirtimeIsWithinAllowance(driver.spi.chip.sent, first, events);
    }
  }

  lemma DispatchedStep(turns: seq<Turn>, i: nat)
    requires i < |turns|
    ensures Dispatched(turns[..i + 1]) == Dispatched(turns[..i]) + if turns[i].command.Reboot? then [] else [turns[i]]
  {
    assert Init(turns[..i + 1]) == turns[..i];
  }

  lemma {:induction false} DispatchedInOrder(turns: seq<Turn>)
    requires InOrder(turns)
    ensures InOrder(Dispatched(turns))
    ensures forall t :: t in Dispatched(turns) ==> t.now <= Last(turns).now
  {
    if |turns| > 1 {
      DispatchedInOrder(Init(turns));
      assert Last(Init(turns)).now <= Last(turns).now;
    } else if |turns| == 1 {
      assert Dispatched(Init(turns)) == [];
    }
  }

  lemma RecordsAreOrdered(turns: seq<Turn>, events: seq<Event>)
    requires Records(turns, events) && InOrder(turns)
    ensures Nondecreasing(events)
  {}

  lemma NothingServedYet(first: seq<Transmission>)
    ensures OnChip(first, first, WentOut(Run([]).handed)) && Run([]) == Boot() && AllPermitted(Run([]).handed)
    ensures PermittedConfig(DEFAULT_CONFIG) && Dispatched([]) == [] && Completions([]) == 0
  {}
}
