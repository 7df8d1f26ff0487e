/**
 The bridge's correlation protocol as steps of the whole pipeline: MQTT downlinks, the bridge
 task (src/tasks/bridge.rs), the bounded command channel, the radio task (src/tasks/lora.rs)
 and the response channel, which drops its oldest message when it is full.

 The first four fields of `System` are the running program; the others record its history.
 */
module BridgeProtocol {
  import opened Prelude
  import opened Correlation

  const COMMAND_CHANNEL_SIZE: nat := 8
  const RESPONSE_CHANNEL_SIZE: nat := 8

  datatype Source = Serial | WiFi

  /** A command on its way to the radio; only a serial host sends reboots. */
  datatype Envelope = Envelope(source: Source, sequenceId: u16, reboot: bool, payload: seq<u8>)

  datatype Message = CommandResponse(source: Source, sequenceId: u16, response: Response) | RxPacket(data: seq<u8>) | HubRaw

  /** An answer given to the downlink that arrived as number `ticket`. */
  datatype Answer = Answer(ticket: nat, publication: Publication)

  /** A downlink, with how many entries were in flight and how many commands queued when it arrived. */
  datatype Arrival = Arrival(parsed: Parsed, inFlight: nat, queued: nat)

  /** What the radio executed for an arrival, and how it went. */
  datatype Execution = Execution(payload: seq<u8>, response: Response)

  datatype System = System(
    bridge: State,
    commands: seq<Envelope>,
    executing: Option<Envelope>,
    responses: seq<Message>,
    // History: what arrived, which arrival and issue number each entry in flight has, what
    // was answered, whose response was dropped and what the radio executed for which arrival.
    arrivals: seq<Arrival>,
    issued: nat,
    ticket: map<u16, nat>,
    number: map<u16, nat>,
    answers: seq<Answer>,
    lost: set<u16>,
    executed: map<nat, Execution>)

  /** `OthersPublish`: received packets, hub frames, and the serial task's own error replies. */
  datatype Step =
    | DownlinkArrives(parsed: Parsed)
    | SerialSends(sequenceId: u16, reboot: bool, payload: seq<u8>)
    | RadioTakes
    | RadioFinishes(response: Response)
    | OthersPublish(message: Message)
    | BridgeReads

  ghost function Boot(): System {
    System(State(map[], 0, 0), [], None, [], [], 0, map[], map[], [], {}, map[])
  }

  ghost predicate Enabled(s: System, step: Step) {
    match step
    case DownlinkArrives(_) => true
    case SerialSends(_, _, _) => |s.commands| < COMMAND_CHANNEL_SIZE
    case RadioTakes => s.executing.None? && s.commands != []
    case RadioFinishes(_) => s.executing.Some?
    case OthersPublish(message) => Tokens(message) == {}
    case BridgeReads => s.responses != []
  }

  /** `publish_immediate`: a full channel drops its oldest message. */
  ghost function Publish(s: System, message: Message): System {
    if |s.responses| < RESPONSE_CHANNEL_SIZE then s.(responses := s.responses + [message])
    else s.(responses := s.responses[1..] + [message], lost := s.lost + Tokens(s.responses[0]))
  }

  ghost function Reply(s: System, ticket: nat, publication: Publication): System {
    s.(answers := s.answers + [Answer(ticket, publication)])
  }

  ghost function Settle(s: System, sequenceId: u16): System {
    s.(ticket := s.ticket - {sequenceId}, number := s.number - {sequenceId})
  }

  ghost function Met(s: System, parsed: Parsed): Arrival {
    Arrival(parsed, |s.bridge.inFlight|, |s.commands|)
  }

  ghost function Arrive(s: System, parsed: Parsed): System {
    var t := |s.arrivals|;
    var (bridge, outcome) := OnDownlink(s.bridge, parsed);
    var s1 := s.(bridge := bridge, arrivals := s.arrivals + [Met(s, parsed)],
                 issued := if bridge.nextSequence != s.bridge.nextSequence then s.issued + 1 else s.issued);
    match outcome
    case Reject(publication) => Reply(s1, t, publication)
    case Send(sequenceId, payload) =>
      if |s.commands| < COMMAND_CHANNEL_SIZE then
        s1.(commands := s.commands + [Envelope(WiFi, sequenceId, false, payload)], ticket := s.ticket[sequenceId := t],
            number := s.number[sequenceId := s.issued])
      else
        var (abandoned, publication) := Abandon(bridge, sequenceId, QueueFull);
        Reply(s1.(bridge := abandoned), t, publication)
  }

  ghost function Read(s: System): System
    requires s.responses != []
  {
    var s1 := s.(responses := s.responses[1..]);
    match s.responses[0]
    case HubRaw => s1
    case RxPacket(data) => s1.(bridge := OnRxPacket(s.bridge, data).0)
    case CommandResponse(source, sequenceId, response) =>
      if source.Serial? then s1
      else
        var (bridge, publication) := OnCommandResponse(s.bridge, sequenceId, response);
        var s2 := s1.(bridge := bridge);
        if publication.Some? && sequenceId in s.ticket then Settle(Reply(s2, s.ticket[sequenceId], publication.value), sequenceId) else s2
  }

  ghost function Executed(s: System, e: Envelope, response: Response): System {
    s.(executing := None,
       executed := if e.source.WiFi? && e.sequenceId in s.ticket then s.executed[s.ticket[e.sequenceId] := Execution(e.payload, response)]
                   else s.executed)
  }

  ghost function Next(s: System, step: Step): System
    requires Enabled(s, step)
  {
    match step
    case DownlinkArrives(parsed) => Arrive(s, parsed)
    case SerialSends(sequenceId, reboot, payload) => s.(commands := s.commands + [Envelope(Serial, sequenceId, reboot, payload)])
    case RadioTakes => s.(executing := Some(s.commands[0]), commands := s.commands[1..])
    case RadioFinishes(response) =>
      var e := s.executing.value;
      if e.reboot then s.(executing := None)
      else Publish(Executed(s, e, response), CommandResponse(e.source, e.sequenceId, response))
    case OthersPublish(message) => Publish(s, message)
    case BridgeReads => Read(s)
  }

  // ----- Tokens: where the entries in flight are -----------------------------

  ghost function Tokens(message: Message): set<u16> {
    if message.CommandResponse? && message.source.WiFi? then {message.sequenceId} else {}
  }

  ghost function EnvelopeToken(e: Envelope): multiset<u16> {
    if e.source.WiFi? then multiset{e.sequenceId} else multiset{}
  }

  ghost function MessageToken(m: Message): multiset<u16> {
    multiset(Tokens(m))
  }

  ghost function Queued(commands: seq<Envelope>): multiset<u16> {
    if commands == [] then multiset{} else EnvelopeToken(commands[0]) + Queued(commands[1..])
  }

  ghost function Running(executing: Option<Envelope>): multiset<u16> {
    if executing.Some? then EnvelopeToken(executing.value) else multiset{}
  }

  ghost function Responded(responses: seq<Message>): multiset<u16> {
    if responses == [] then multiset{} else MessageToken(responses[0]) + Responded(responses[1..])
  }

  lemma {:induction false} QueuedAppend(commands: seq<Envelope>, e: Envelope)
    ensures Queued(commands + [e]) == Queued(commands) + EnvelopeToken(e)
  {
    if commands != [] {
      QueuedAppend(commands[1..], e);
      assert (commands + [e])[1..] == commands[1..] + [e];
    }
  }

  lemma {:induction false} RespondedAppend(responses: seq<Message>, m: Message)
    ensures Responded(responses + [m]) == Responded(responses) + MessageToken(m)
  {
    if responses != [] {
      RespondedAppend(responses[1..], m);
      assert (responses + [m])[1..] == responses[1..] + [m];
    }
  }

  /** Every entry in flight is in exactly one place, and nothing else is anywhere. */
  ghost predicate Located(places: multiset<u16>, lost: set<u16>, entries: set<u16>) {
    places + multiset(lost) == multiset(entries)
  }

  ghost function Places(s: System): multiset<u16> {
    Queued(s.commands) + Running(s.executing) + Responded(s.responses)
  }

  ghost predicate Numbered(nextSequence: u16, issued: nat, number: map<u16, nat>) {
    && nextSequence == issued % U16_SIZE
    && forall q :: q in number ==> number[q] < issued && number[q] % U16_SIZE == q
  }

  /** Every entry in flight stands for one arrival and holds its id. */
  ghost predicate Ticketed(ticket: map<u16, nat>, inFlight: map<u16, Option<u32>>, arrivals: seq<Arrival>) {
    && ticket.Keys == inFlight.Keys
    && (forall q :: q in ticket ==> ticket[q] < |arrivals| && inFlight[q] == IdOf(arrivals[ticket[q]].parsed))
    && (forall q, r :: q in ticket && r in ticket && q != r ==> ticket[q] != ticket[r])
  }

  /** Arrivals are answered at most once, with their own id, and the unanswered ones are in flight. */
  ghost predicate Answered(answers: seq<Answer>, arrivals: seq<Arrival>, ticket: map<u16, nat>) {
    && (forall i :: 0 <= i < |answers| ==> OwnAnswer(answers[i], arrivals) && !Holds(ticket, answers[i].ticket))
    && (forall i, j :: 0 <= i < j < |answers| ==> answers[i].ticket != answers[j].ticket)
    && (forall t: nat :: t < |arrivals| ==> HasAnswer(answers, t) || Holds(ticket, t))
  }

  ghost predicate OwnAnswer(a: Answer, arrivals: seq<Arrival>) {
    a.ticket < |arrivals| && a.publication.TxResult? && a.publication.id == IdOf(arrivals[a.ticket].parsed)
  }

  ghost predicate Holds(ticket: map<u16, nat>, t: nat) {
    exists q :: q in ticket && ticket[q] == t
  }

  ghost predicate HasAnswer(answers: seq<Answer>, t: nat) {
    exists i :: 0 <= i < |answers| && answers[i].ticket == t
  }

  ghost predicate Bounded(s: System) {
    && |s.bridge.inFlight| <= MAX_IN_FLIGHT && |s.commands| <= COMMAND_CHANNEL_SIZE && |s.responses| <= RESPONSE_CHANNEL_SIZE
    && (s.executing.Some? && s.executing.value.reboot ==> s.executing.value.source.Serial?)
    && (forall e :: e in s.commands && e.reboot ==> e.source.Serial?)
  }

  ghost predicate Invariant(s: System) {
    && Bounded(s)
    && Located(Places(s), s.lost, s.bridge.inFlight.Keys)
    && Numbered(s.bridge.nextSequence, s.issued, s.number) && s.number.Keys == s.bridge.inFlight.Keys
    && Ticketed(s.ticket, s.bridge.inFlight, s.arrivals)
    && Answered(s.answers, s.arrivals, s.ticket)
  }

  /** Fewer than 65,536 ids have been issued since each entry in flight was. */
  ghost predicate Young(s: System) {
    forall q :: q in s.number ==> s.issued - s.number[q] < U16_SIZE
  }

  lemma BootInvariant()
    ensures Invariant(Boot())
  {}

  /** Then the next sequence id is free. */
  lemma YoungMeansFresh(s: System)
    requires Invariant(s) && Young(s)
    ensures s.bridge.nextSequence !in s.bridge.inFlight
  {
    forall q | q in s.number ensures q != s.bridge.nextSequence {
      DifferentResidues(s.number[q], s.issued);
    }
  }

  lemma DifferentResidues(n: nat, m: nat)
    requires 0 < m - n < U16_SIZE
    ensures n % U16_SIZE != m % U16_SIZE
  {}

  // ----- What happens to each part -------------------------------------------

  lemma EnterLocated(places: multiset<u16>, lost: set<u16>, entries: set<u16>, q: u16)
    requires Located(places, lost, entries) && q !in entries
    ensures Located(places + multiset{q}, lost, entries + {q})
  {
    assert multiset(entries + {q}) == multiset(entries) + multiset{q};
  }

  lemma LeaveLocated(places: multiset<u16>, places': multiset<u16>, lost: set<u16>, entries: set<u16>, q: u16)
    requires Located(places, lost, entries) && places == places' + multiset{q}
    ensures q in entries && Located(places', lost, entries - {q})
  {
    assert multiset(entries)[q] >= 1;
    assert multiset(entries) == multiset(entries - {q}) + multiset{q};
    assert places' + multiset(lost) + multiset{q} == multiset(entries - {q}) + multiset{q};
    forall r ensures (places' + multiset(lost))[r] == multiset(entries - {q})[r] {
      assert (places' + multiset(lost) + multiset{q})[r] == (multiset(entries - {q}) + multiset{q})[r];
    }
  }

  lemma LoseLocated(places: multiset<u16>, places': multiset<u16>, lost: set<u16>, entries: set<u16>, dropped: set<u16>)
    requires Located(places, lost, entries) && places == places' + multiset(dropped)
    ensures Located(places', lost + dropped, entries)
  {
    forall q ensures (multiset(lost) + multiset(dropped))[q] == multiset(lost + dropped)[q] {
      assert multiset(entries)[q] <= 1;
    }
    assert multiset(lost) + multiset(dropped) == multiset(lost + dropped);
  }

  lemma IssueNumbered(nextSequence: u16, issued: nat, number: map<u16, nat>)
    requires Numbered(nextSequence, issued, number)
    ensures Numbered((nextSequence + 1) % U16_SIZE, issued + 1, number)
    ensures Numbered((nextSequence + 1) % U16_SIZE, issued + 1, number[nextSequence := issued])
  {}

  lemma EnterTicketed(ticket: map<u16, nat>, inFlight: map<u16, Option<u32>>, arrivals: seq<Arrival>, q: u16, arrival: Arrival)
    requires Ticketed(ticket, inFlight, arrivals) && q !in inFlight
    ensures Ticketed(ticket, inFlight, arrivals + [arrival])
    ensures Ticketed(ticket[q := |arrivals|], inFlight[q := IdOf(arrival.parsed)], arrivals + [arrival])
  {}

  lemma LeaveTicketed(ticket: map<u16, nat>, inFlight: map<u16, Option<u32>>, arrivals: seq<Arrival>, q: u16)
    requires Ticketed(ticket, inFlight, arrivals)
    ensures Ticketed(ticket - {q}, inFlight - {q}, arrivals)
  {}

  lemma HasAnswerGrows(answers: seq<Answer>, a: Answer, t: nat)
    ensures HasAnswer(answers + [a], t) <==> HasAnswer(answers, t) || t == a.ticket
  {
    if HasAnswer(answers, t) {
      var i :| 0 <= i < |answers| && answers[i].ticket == t;
      assert (answers + [a])[i].ticket == t;
    }
    assert (answers + [a])[|answers|] == a;
  }

  /** A new arrival that is answered on the spot. */
  lemma AnswerAtOnce(answers: seq<Answer>, arrivals: seq<Arrival>, ticket: map<u16, nat>, inFlight: map<u16, Option<u32>>, arrival: Arrival, p: Publication)
    requires Answered(answers, arrivals, ticket) && Ticketed(ticket, inFlight, arrivals) && p.TxResult? && p.id == IdOf(arrival.parsed)
    ensures Answered(answers + [Answer(|arrivals|, p)], arrivals + [arrival], ticket)
  {
    forall t: nat ensures HasAnswer(answers + [Answer(|arrivals|, p)], t) <==> HasAnswer(answers, t) || t == |arrivals| {
      HasAnswerGrows(answers, Answer(|arrivals|, p), t);
    }
  }

  /** A new arrival that goes in flight. */
  lemma AnswerLater(answers: seq<Answer>, arrivals: seq<Arrival>, ticket: map<u16, nat>, arrival: Arrival, q: u16)
    requires Answered(answers, arrivals, ticket) && q !in ticket
    ensures Answered(answers, arrivals + [arrival], ticket[q := |arrivals|])
  {
    var ticket' := ticket[q := |arrivals|];
    assert q in ticket' && ticket'[q] == |arrivals|;
    forall t: nat | t < |arrivals| && Holds(ticket, t) ensures Holds(ticket', t) {
      var r :| r in ticket && ticket[r] == t;
      assert r in ticket' && ticket'[r] == t;
    }
  }

  /** An entry in flight is answered and leaves. */
  lemma AnswerNow(answers: seq<Answer>, arrivals: seq<Arrival>, ticket: map<u16, nat>, inFlight: map<u16, Option<u32>>, q: u16, p: Publication)
    requires Answered(answers, arrivals, ticket) && Ticketed(ticket, inFlight, arrivals)
    requires q in ticket && p.TxResult? && p.id == inFlight[q]
    ensures Answered(answers + [Answer(ticket[q], p)], arrivals, ticket - {q})
  {
    var a, ticket' := Answer(ticket[q], p), ticket - {q};
    forall t: nat ensures HasAnswer(answers + [a], t) <==> HasAnswer(answers, t) || t == ticket[q] {
      HasAnswerGrows(answers, a, t);
    }
    forall t: nat | t != ticket[q] && Holds(ticket, t) ensures Holds(ticket', t) {
      var r :| r in ticket && ticket[r] == t;
      assert r in ticket' && ticket'[r] == t;
    }
  }

  // ----- Each step keeps the invariant ---------------------------------------

  /** The conjuncts of the invariant, one by one. */
  lemma Assemble(s: System)
    requires Bounded(s)
    requires Located(Places(s), s.lost, s.bridge.inFlight.Keys)
    requires Numbered(s.bridge.nextSequence, s.issued, s.number)
    requires s.number.Keys == s.bridge.inFlight.Keys
    requires Ticketed(s.ticket, s.bridge.inFlight, s.arrivals)
    requires Answered(s.answers, s.arrivals, s.ticket)
    ensures Invariant(s)
  {}

  lemma Disassemble(s: System)
    requires Invariant(s)
    ensures Bounded(s)
    ensures Located(Places(s), s.lost, s.bridge.inFlight.Keys)
    ensures Numbered(s.bridge.nextSequence, s.issued, s.number)
    ensures s.number.Keys == s.bridge.inFlight.Keys
    ensures Ticketed(s.ticket, s.bridge.inFlight, s.arrivals)
    ensures Answered(s.answers, s.arrivals, s.ticket)
  {}

  ghost function Entered(s: System, parsed: Parsed, q: u16): System {
    s.(bridge := s.bridge.(inFlight := s.bridge.inFlight[q := IdOf(parsed)], nextSequence := (q + 1) % U16_SIZE),
       commands := s.commands + [Envelope(WiFi, q, false, PayloadOf(parsed))], arrivals := s.arrivals + [Met(s, parsed)], issued := s.issued + 1,
       ticket := s.ticket[q := |s.arrivals|], number := s.number[q := s.issued])
  }

  lemma EnterIsLocated(s: System, s': System, q: u16, payload: seq<u8>)
    requires Invariant(s) && q !in s.bridge.inFlight
    requires s'.commands == s.commands + [Envelope(WiFi, q, false, payload)] && s'.executing == s.executing
    requires s'.responses == s.responses && s'.lost == s.lost && s'.bridge.inFlight.Keys == s.bridge.inFlight.Keys + {q}
    ensures Located(Places(s'), s'.lost, s'.bridge.inFlight.Keys)
  {
    hide Located, Numbered, Ticketed, Answered, Queued, Running, Responded;
    QueuedAppend(s.commands, Envelope(WiFi, q, false, payload));
    EnterLocated(Places(s), s.lost, s.bridge.inFlight.Keys, q);
    assert Places(s') == Places(s) + multiset{q};
  }

  /** A downlink that is sent on takes a fresh entry, envelope and ticket. */
  lemma EnterKeeps(s: System, parsed: Parsed, q: u16)
    requires Invariant(s) && q == s.bridge.nextSequence && q !in s.bridge.inFlight
    requires |s.bridge.inFlight| < MAX_IN_FLIGHT && |s.commands| < COMMAND_CHANNEL_SIZE
    ensures Invariant(Entered(s, parsed, q))
  {
    hide Located, Numbered, Ticketed, Answered, Places, Invariant;
    Disassemble(s);
    var s' := Entered(s, parsed, q);
    assert s'.bridge.inFlight.Keys == s.bridge.inFlight.Keys + {q};
    EnterIsLocated(s, s', q, PayloadOf(parsed));
    EnterHistory(s, s', parsed, q);
    Assemble(s');
  }

  lemma EnterHistory(s: System, s': System, parsed: Parsed, q: u16)
    requires Invariant(s) && q == s.bridge.nextSequence && q !in s.bridge.inFlight && s' == Entered(s, parsed, q)
    ensures Numbered(s'.bridge.nextSequence, s'.issued, s'.number) && s'.number.Keys == s'.bridge.inFlight.Keys
    ensures Ticketed(s'.ticket, s'.bridge.inFlight, s'.arrivals)
    ensures Answered(s'.answers, s'.arrivals, s'.ticket)
  {
    hide Located, Numbered, Ticketed, Answered, Places, Bounded;
    IssueNumbered(q, s.issued, s.number);
    EnterTicketed(s.ticket, s.bridge.inFlight, s.arrivals, q, Met(s, parsed));
    TicketIsEntry(s.ticket, s.bridge.inFlight, s.arrivals);
    AnswerLater(s.answers, s.arrivals, s.ticket, Met(s, parsed), q);
  }

  ghost function TurnedAway(s: System, parsed: Parsed, p: Publication, issues: bool): System {
    s.(bridge := if issues then s.bridge.(nextSequence := (s.bridge.nextSequence + 1) % U16_SIZE) else s.bridge,
       arrivals := s.arrivals + [Met(s, parsed)], issued := if issues then s.issued + 1 else s.issued,
       answers := s.answers + [Answer(|s.arrivals|, p)])
  }

  lemma PlacesDependOn(s: System, s': System)
    requires s'.commands == s.commands && s'.executing == s.executing && s'.responses == s.responses
    ensures Places(s') == Places(s)
    ensures Bounded(s) && |s'.bridge.inFlight| == |s.bridge.inFlight| ==> Bounded(s')
  {}

  lemma TurnedAwayParts(s: System, parsed: Parsed, p: Publication, issues: bool)
    ensures var s' := TurnedAway(s, parsed, p, issues);
            && s'.commands == s.commands && s'.executing == s.executing && s'.responses == s.responses
            && s'.bridge.inFlight == s.bridge.inFlight && s'.ticket == s.ticket && s'.number == s.number && s'.lost == s.lost
            && s'.arrivals == s.arrivals + [Met(s, parsed)] && s'.answers == s.answers + [Answer(|s.arrivals|, p)]
            && (if issues then s'.bridge.nextSequence == (s.bridge.nextSequence + 1) % U16_SIZE && s'.issued == s.issued + 1
                else s'.bridge.nextSequence == s.bridge.nextSequence && s'.issued == s.issued)
            && Met(s, parsed).parsed == parsed
  {}

  /** A downlink that is turned away, or abandoned for want of room, leaves nothing in flight. */
  lemma TurnAwayKeeps(s: System, parsed: Parsed, p: Publication, issues: bool)
    requires Invariant(s) && s.bridge.nextSequence !in s.bridge.inFlight
    requires p.TxResult? && p.id == IdOf(parsed)
    ensures Invariant(TurnedAway(s, parsed, p, issues))
  {
    hide Located, Numbered, Ticketed, Answered, Places, Invariant, Bounded, IdOf, TurnedAway, Met;
    Disassemble(s);
    TurnedAwayParts(s, parsed, p, issues);
    var s', q := TurnedAway(s, parsed, p, issues), s.bridge.nextSequence;
    PlacesDependOn(s, s');
    IssueNumbered(q, s.issued, s.number);
    EnterTicketed(s.ticket, s.bridge.inFlight, s.arrivals, q, Met(s, parsed));
    AnswerAtOnce(s.answers, s.arrivals, s.ticket, s.bridge.inFlight, Met(s, parsed), p);
    Assemble(s');
  }

  lemma ArriveEnters(s: System, parsed: Parsed)
    requires OnDownlink(s.bridge, parsed).1.Send? && |s.commands| < COMMAND_CHANNEL_SIZE && s.bridge.nextSequence == s.issued % U16_SIZE
    ensures Arrive(s, parsed) == Entered(s, parsed, s.bridge.nextSequence)
  {}

  lemma NotInFlight(inFlight: map<u16, Option<u32>>, q: u16, id: Option<u32>)
    requires q !in inFlight
    ensures inFlight - {q} == inFlight && inFlight[q := id] - {q} == inFlight
  {}

  lemma RejectedOutcome(s: State, parsed: Parsed)
    requires OnDownlink(s, parsed).1.Reject? && s.nextSequence !in s.inFlight
    ensures var (s', outcome) := OnDownlink(s, parsed);
            && outcome.publication.TxResult? && outcome.publication.id == IdOf(parsed)
            && s' == if s'.nextSequence != s.nextSequence then s.(nextSequence := (s.nextSequence + 1) % U16_SIZE) else s
  {
    NotInFlight(s.inFlight, s.nextSequence, None);
  }

  lemma SentOutcome(s: State, parsed: Parsed)
    requires OnDownlink(s, parsed).1.Send? && s.nextSequence !in s.inFlight
    ensures var (s', outcome) := OnDownlink(s, parsed);
            var (s'', p) := Abandon(s', outcome.sequenceId, QueueFull);
            && s'.nextSequence != s.nextSequence && p.TxResult? && p.id == IdOf(parsed)
            && s'' == s.(nextSequence := (s.nextSequence + 1) % U16_SIZE)
  {
    NotInFlight(s.inFlight, s.nextSequence, IdOf(parsed));
  }

  lemma ArriveTurnsAway(s: System, parsed: Parsed)
    requires !(OnDownlink(s.bridge, parsed).1.Send? && |s.commands| < COMMAND_CHANNEL_SIZE) && s.bridge.nextSequence !in s.bridge.inFlight
    ensures var p := Last(Arrive(s, parsed).answers).publication;
            && p.TxResult? && p.id == IdOf(parsed)
            && Arrive(s, parsed) == TurnedAway(s, parsed, p, OnDownlink(s.bridge, parsed).0.nextSequence != s.bridge.nextSequence)
  {
    hide OnDownlink, Abandon;
    if OnDownlink(s.bridge, parsed).1.Reject? {
      RejectedOutcome(s.bridge, parsed);
    } else {
      SentOutcome(s.bridge, parsed);
    }
  }

  lemma ArriveKeeps(s: System, parsed: Parsed)
    requires Invariant(s) && Young(s)
    ensures Invariant(Arrive(s, parsed))
  {
    YoungMeansFresh(s);
    hide Invariant, Arrive, Entered, TurnedAway, Located, Answered, Ticketed;
    Disassemble(s);
    if OnDownlink(s.bridge, parsed).1.Send? && |s.commands| < COMMAND_CHANNEL_SIZE {
      EnterKeeps(s, parsed, s.bridge.nextSequence);
      ArriveEnters(s, parsed);
    } else {
      ArriveTurnsAway(s, parsed);
      TurnAwayKeeps(s, parsed, Last(Arrive(s, parsed).answers).publication, OnDownlink(s.bridge, parsed).0.nextSequence != s.bridge.nextSequence);
    }
  }

  lemma PublishPlaces(s: System, m: Message)
    ensures var s' := Publish(s, m);
            if |s.responses| < RESPONSE_CHANNEL_SIZE then Places(s') == Places(s) + MessageToken(m)
            else Places(s) + MessageToken(m) == Places(s') + MessageToken(s.responses[0])
  {
    hide Queued, Running;
    if |s.responses| < RESPONSE_CHANNEL_SIZE {
      RespondedAppend(s.responses, m);
    } else {
      RespondedAppend(s.responses[1..], m);
    }
  }

  lemma PublishKeeps(s: System, m: Message)
    requires Bounded(s) && Located(Places(s) + MessageToken(m), s.lost, s.bridge.inFlight.Keys)
    ensures var s' := Publish(s, m); Bounded(s') && Located(Places(s'), s'.lost, s.bridge.inFlight.Keys)
  {
    hide Located, Places, Tokens;
    PublishPlaces(s, m);
    if |s.responses| >= RESPONSE_CHANNEL_SIZE {
      LoseLocated(Places(s) + MessageToken(m), Places(Publish(s, m)), s.lost, s.bridge.inFlight.Keys, Tokens(s.responses[0]));
    }
  }

  ghost function Settled(s: System, q: u16, p: Publication): System
    requires s.responses != [] && q in s.ticket
  {
    s.(responses := s.responses[1..], bridge := s.bridge.(inFlight := s.bridge.inFlight - {q}),
       answers := s.answers + [Answer(s.ticket[q], p)], ticket := s.ticket - {q}, number := s.number - {q})
  }

  /** A WiFi response always finds its entry still in flight. */
  lemma ResponseFindsItsEntry(s: System, q: u16, response: Response)
    requires Invariant(s) && s.responses != [] && s.responses[0] == CommandResponse(WiFi, q, response)
    ensures q in s.bridge.inFlight && q in s.ticket && q in s.number
    ensures Places(s) == Places(s.(responses := s.responses[1..])) + multiset{q}
  {
    hide Located, Numbered, Ticketed, Answered, Invariant, Queued, Running;
    Disassemble(s);
    LeaveLocated(Places(s), Places(s.(responses := s.responses[1..])), s.lost, s.bridge.inFlight.Keys, q);
    TicketIsEntry(s.ticket, s.bridge.inFlight, s.arrivals);
    assert q in s.bridge.inFlight.Keys;
  }

  /** Reading it settles that entry. */
  lemma SettleKeeps(s: System, q: u16, response: Response, p: Publication)
    requires Invariant(s) && s.responses != [] && s.responses[0] == CommandResponse(WiFi, q, response)
    requires q in s.ticket && q in s.bridge.inFlight && p.TxResult? && p.id == s.bridge.inFlight[q]
    ensures Invariant(Settled(s, q, p))
  {
    hide Located, Numbered, Ticketed, Answered, Queued, Running, Responded, Invariant;
    Disassemble(s);
    var s' := Settled(s, q, p);
    ResponseFindsItsEntry(s, q, response);
    assert Places(s) == Places(s') + multiset{q};
    LeaveLocated(Places(s), Places(s'), s.lost, s.bridge.inFlight.Keys, q);
    assert s'.bridge.inFlight.Keys == s.bridge.inFlight.Keys - {q};
    assert s'.number.Keys == s.number.Keys - {q};
    LeaveTicketed(s.ticket, s.bridge.inFlight, s.arrivals, q);
    AnswerNow(s.answers, s.arrivals, s.ticket, s.bridge.inFlight, q, p);
    LeaveNumbered(s.bridge.nextSequence, s.issued, s.number, q);
    Assemble(s');
  }

  lemma ReadSettles(s: System, q: u16, response: Response)
    requires s.responses != [] && s.responses[0] == CommandResponse(WiFi, q, response) && q in s.bridge.inFlight && q in s.ticket
    ensures var p := OnCommandResponse(s.bridge, q, response).1.value;
            p.TxResult? && p.id == s.bridge.inFlight[q] && Read(s) == Settled(s, q, p)
  {}

  lemma OtherReadKeeps(s: System)
    requires Invariant(s) && s.responses != [] && !(s.responses[0].CommandResponse? && s.responses[0].source.WiFi?)
    ensures Invariant(Read(s))
  {
    hide Located, Numbered, Ticketed, Answered, Queued, Running;
    var s' := Read(s);
    assert Places(s') == Places(s);
    assert s' == s.(responses := s'.responses, bridge := s.bridge.(rxSeq := s'.bridge.rxSeq));
  }

  lemma ReadKeeps(s: System)
    requires Invariant(s) && s.responses != []
    ensures Invariant(Read(s))
  {
    hide Invariant, Settled, Read;
    var m := s.responses[0];
    if m.CommandResponse? && m.source.WiFi? {
      ResponseFindsItsEntry(s, m.sequenceId, m.response);
      ReadSettles(s, m.sequenceId, m.response);
      SettleKeeps(s, m.sequenceId, m.response, OnCommandResponse(s.bridge, m.sequenceId, m.response).1.value);
    } else {
      OtherReadKeeps(s);
    }
  }

  lemma TicketIsEntry(ticket: map<u16, nat>, inFlight: map<u16, Option<u32>>, arrivals: seq<Arrival>)
    requires Ticketed(ticket, inFlight, arrivals)
    ensures ticket.Keys == inFlight.Keys
  {}

  lemma LeaveNumbered(nextSequence: u16, issued: nat, number: map<u16, nat>, q: u16)
    requires Numbered(nextSequence, issued, number)
    ensures Numbered(nextSequence, issued, number - {q})
  {}

  lemma SamePlaces(s: System, s': System)
    requires Invariant(s) && Bounded(s') && Places(s') == Places(s)
    requires s' == s.(commands := s'.commands, executing := s'.executing)
    ensures Invariant(s')
  {
    hide Located, Numbered, Ticketed, Answered, Places, Bounded;
    Assemble(s');
  }

  lemma Published(s: System, s': System, responses: seq<Message>, lost: set<u16>)
    requires Invariant(s) && Bounded(s') && Located(Places(s'), s'.lost, s.bridge.inFlight.Keys)
    requires s' == s.(executing := s'.executing, responses := responses, lost := lost, executed := s'.executed)
    ensures Invariant(s')
  {
    hide Located, Numbered, Ticketed, Answered, Places, Bounded;
    Assemble(s');
  }

  lemma SerialKeeps(s: System, q: u16, reboot: bool, payload: seq<u8>)
    requires Invariant(s) && |s.commands| < COMMAND_CHANNEL_SIZE
    ensures Invariant(Next(s, SerialSends(q, reboot, payload)))
  {
    hide Located, Numbered, Ticketed, Answered, Queued, Running, Responded;
    var s' := Next(s, SerialSends(q, reboot, payload));
    QueuedAppend(s.commands, Envelope(Serial, q, reboot, payload));
    assert Places(s') == Places(s);
    SamePlaces(s, s');
  }

  lemma TakeKeeps(s: System)
    requires Invariant(s) && s.executing.None? && s.commands != []
    ensures Invariant(Next(s, RadioTakes))
  {
    hide Located, Numbered, Ticketed, Answered, Responded;
    SamePlaces(s, Next(s, RadioTakes));
  }

  lemma FinishMovesToken(s: System, response: Response)
    requires s.executing.Some?
    ensures var e := s.executing.value;
            Places(s) == Places(Executed(s, e, response)) + MessageToken(CommandResponse(e.source, e.sequenceId, response))
  {
    hide Queued, Responded;
  }

  lemma FinishKeeps(s: System, response: Response)
    requires Invariant(s) && s.executing.Some?
    ensures Invariant(Next(s, RadioFinishes(response)))
  {
    hide Located, Numbered, Ticketed, Answered, Places, MessageToken, Tokens;
    var e, s' := s.executing.value, Next(s, RadioFinishes(response));
    if e.reboot {
      RebootLeavesPlaces(s);
      SamePlaces(s, s');
    } else {
      FinishMovesToken(s, response);
      PublishKeeps(Executed(s, e, response), CommandResponse(e.source, e.sequenceId, response));
      Published(s, s', s'.responses, s'.lost);
    }
  }

  /** Reboots come from the serial host, so no entry goes with them. */
  lemma RebootLeavesPlaces(s: System)
    requires Bounded(s) && s.executing.Some? && s.executing.value.reboot
    ensures Places(s.(executing := None)) == Places(s)
  {
    hide Queued, Responded;
  }

  lemma OthersKeep(s: System, m: Message)
    requires Invariant(s) && Tokens(m) == {}
    ensures Invariant(Publish(s, m))
  {
    hide Located, Numbered, Ticketed, Answered, Responded, Queued;
    var s' := Publish(s, m);
    assert Places(s) == Places(s) + MessageToken(m);
    PublishKeeps(s, m);
    Published(s, s', s'.responses, s'.lost);
  }

  lemma NextKeepsInvariant(s: System, step: Step)
    requires Invariant(s) && Enabled(s, step) && (step.DownlinkArrives? ==> Young(s))
    ensures Invariant(Next(s, step))
  {
    hide Invariant, Publish, Read, Arrive;
    match step {
      case DownlinkArrives(parsed) => ArriveKeeps(s, parsed);
      case SerialSends(q, reboot, payload) => SerialKeeps(s, q, reboot, payload);
      case RadioTakes => TakeKeeps(s);
      case RadioFinishes(response) => FinishKeeps(s, response);
      case OthersPublish(m) => OthersKeep(s, m);
      case BridgeReads => ReadKeeps(s);
    }
  }

  // ----- Whole runs ----------------------------------------------------------

  /** The steps of a run, each enabled where it is taken, no entry outlived by 65,536 ids. */
  ghost predicate Possible(steps: seq<Step>)
    decreases |steps|, 0
  {
    steps == [] ||
    (Possible(Init(steps)) && Enabled(Run(Init(steps)), Last(steps)) && (Last(steps).DownlinkArrives? ==> Young(Run(Init(steps)))))
  }

  ghost function Run(steps: seq<Step>): System
    requires Possible(steps)
    decreases |steps|, 1
  {
    if steps == [] then Boot() else Next(Run(Init(steps)), Last(steps))
  }

  lemma {:induction false} RunInvariant(steps: seq<Step>)
    requires Possible(steps)
    ensures Invariant(Run(steps))
  {
    if steps == [] {
      BootInvariant();
    } else {
      RunInvariant(Init(steps));
      NextKeepsInvariant(Run(Init(steps)), Last(steps));
    }
  }

  /**
   Conservation: every downlink that ever arrived is either answered, once and with its own
   id, or stands for one entry in flight that is in exactly one of four places.
   */
  lemma EveryDownlinkIsAccountedFor(steps: seq<Step>, t: nat)
    requires Possible(steps) && t < |Run(steps).arrivals|
    ensures var s := Run(steps);
            && |s.bridge.inFlight| <= MAX_IN_FLIGHT
            && (HasAnswer(s.answers, t) <==> !Holds(s.ticket, t))
            && (forall i, j :: 0 <= i < |s.answers| && 0 <= j < |s.answers| && s.answers[i].ticket == t == s.answers[j].ticket ==> i == j)
            && (forall i :: 0 <= i < |s.answers| && s.answers[i].ticket == t ==> OwnAnswer(s.answers[i], s.arrivals))
            && (forall q :: q in s.ticket && s.ticket[q] == t ==>
                  q in s.bridge.inFlight && s.bridge.inFlight[q] == IdOf(s.arrivals[t].parsed) && PlaceCount(s, q) == 1)
  {
    RunInvariant(steps);
    var s := Run(steps);
    forall q | q in s.ticket && s.ticket[q] == t
      ensures q in s.bridge.inFlight && PlaceCount(s, q) == 1
    {
      assert q in s.bridge.inFlight.Keys;
      assert (Places(s) + multiset(s.lost))[q] == multiset(s.bridge.inFlight.Keys)[q] == 1;
    }
  }

  /** The received packets a run's bridge reads, and what it publishes for them. */
  ghost function PacketsRead(steps: seq<Step>): seq<seq<u8>>
    requires Possible(steps)
  {
    if steps == [] then []
    else
      var s := Run(Init(steps));
      PacketsRead(Init(steps)) + if ReadsPacket(s, Last(steps)) then [s.responses[0].data] else []
  }

  ghost function RxPublished(steps: seq<Step>): seq<Publication>
    requires Possible(steps)
  {
    if steps == [] then []
    else
      var s := Run(Init(steps));
      RxPublished(Init(steps)) + if ReadsPacket(s, Last(steps)) then [OnRxPacket(s.bridge, s.responses[0].data).1] else []
  }

  predicate ReadsPacket(s: System, step: Step) {
    step.BridgeReads? && s.responses != [] && s.responses[0].RxPacket?
  }

  lemma ArrivalKeepsNumber(s: System, parsed: Parsed)
    ensures Arrive(s, parsed).bridge.rxSeq == s.bridge.rxSeq
  {}

  lemma ReadNumbers(s: System)
    requires s.responses != []
    ensures Read(s).bridge.rxSeq == if s.responses[0].RxPacket? then (s.bridge.rxSeq + 1) % U32_SIZE else s.bridge.rxSeq
  {}

  lemma PublishKeepsBridge(s: System, message: Message)
    ensures Publish(s, message).bridge == s.bridge
  {}

  lemma StepNumbersReceived(s: System, step: Step)
    requires Enabled(s, step)
    ensures Next(s, step).bridge.rxSeq == if ReadsPacket(s, step) then (s.bridge.rxSeq + 1) % U32_SIZE else s.bridge.rxSeq
  {
    hide Arrive, Read, Publish, Executed;
    match step {
      case DownlinkArrives(parsed) => ArrivalKeepsNumber(s, parsed);
      case RadioFinishes(response) =>
        var e := s.executing.value;
        PublishKeepsBridge(Executed(s, e, response), CommandResponse(e.source, e.sequenceId, response));
        ExecutedKeepsBridge(s, e, response);
      case OthersPublish(message) => PublishKeepsBridge(s, message);
      case BridgeReads => ReadNumbers(s);
      case _ =>
    }
  }

  lemma ExecutedKeepsBridge(s: System, e: Envelope, response: Response)
    ensures Executed(s, e, response).bridge == s.bridge
  {}

  lemma NextNumber(n: nat)
    ensures (n % U32_SIZE + 1) % U32_SIZE == (n + 1) % U32_SIZE
  {}

  /** Over every run, the packets published carry what was read, numbered in order from zero, modulo 2^32. */
  lemma {:induction false} ReceivedAreNumbered(steps: seq<Step>)
    requires Possible(steps)
    ensures Run(steps).bridge.rxSeq == |PacketsRead(steps)| % U32_SIZE
    ensures RxPublished(steps) == seq(|PacketsRead(steps)|, i requires 0 <= i < |PacketsRead(steps)| => Rx(PacketsRead(steps)[i], i % U32_SIZE))
  {
    hide Next, Enabled;
    if steps != [] {
      ReceivedAreNumbered(Init(steps));
      StepNumbersReceived(Run(Init(steps)), Last(steps));
      NextNumber(|PacketsRead(Init(steps))|);
    }
  }

  /** How often an entry is queued, executing, waiting as a response, or lost. */
  ghost function PlaceCount(s: System, q: u16): nat {
    Queued(s.commands)[q] + Running(s.executing)[q] + Responded(s.responses)[q] + if q in s.lost then 1 else 0
  }
}
