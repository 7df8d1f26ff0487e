/**
 What the bridge's answers are worth: every verdict on a downlink is what became of it, over
 every run of the protocol.
 */
module BridgeHonesty {
  import opened Prelude
  import opened Correlation
  import opened BridgeProtocol

  /** A WiFi command carries its own arrival's payload and has not been executed yet. */
  ghost predicate Carries(e: Envelope, arrivals: seq<Arrival>, ticket: map<u16, nat>, executed: map<nat, Execution>) {
    e.source.WiFi? ==>
      && e.sequenceId in ticket && ticket[e.sequenceId] < |arrivals| && ticket[e.sequenceId] !in executed
      && Sendable(arrivals[ticket[e.sequenceId]], e.payload)
  }

  /** There was room for the downlink when it arrived, and its command could be built. */
  ghost predicate Admitted(arrival: Arrival) {
    && arrival.parsed.Downlink? && arrival.parsed.encodable
    && arrival.inFlight < MAX_IN_FLIGHT && arrival.queued < COMMAND_CHANNEL_SIZE
  }

  ghost predicate Sendable(arrival: Arrival, payload: seq<u8>) {
    Admitted(arrival) && arrival.parsed.payload == payload
  }

  /** A WiFi response says how its arrival's command went. */
  ghost predicate Reports(m: Message, ticket: map<u16, nat>, executed: map<nat, Execution>) {
    m.CommandResponse? && m.source.WiFi? ==>
      m.sequenceId in ticket && ticket[m.sequenceId] in executed && executed[ticket[m.sequenceId]].response == m.response
  }

  /** The verdict on a downlink is what became of it. */
  ghost predicate Truthful(a: Answer, arrivals: seq<Arrival>, executed: map<nat, Execution>) {
    && a.ticket < |arrivals| && a.publication.TxResult?
    && (if a.ticket in executed then Outcome(executed[a.ticket].response, a.publication) else TurnedAwayFor(arrivals[a.ticket], a.publication))
  }

  /** `sent` iff the radio sent it; `refused`, with the radio's hint, iff the budget refused it. */
  ghost predicate Outcome(response: Response, p: Publication)
    requires p.TxResult?
  {
    && p.verdict in {Sent, Refused, Failed}
    && (p.verdict == Sent <==> response == TxComplete)
    && (p.verdict == Refused <==> response.TxRefused?)
    && p.retryAfterSecs == (if response.TxRefused? then Some(response.retryAfterSecs) else None)
  }

  /** Each reason for turning a downlink away is given iff it is the first that applies. */
  ghost predicate TurnedAwayFor(arrival: Arrival, p: Publication)
    requires p.TxResult?
  {
    var d := arrival.parsed;
    && p.verdict !in {Sent, Refused, Failed} && p.retryAfterSecs == None
    && (p.verdict == BadJsonVerdict <==> d.BadJson?)
    && (p.verdict == Busy <==> d.Downlink? && arrival.inFlight == MAX_IN_FLIGHT)
    && (p.verdict == BadPayload <==> d.BadHex? || (d.Downlink? && arrival.inFlight < MAX_IN_FLIGHT && !d.encodable))
    && (p.verdict == QueueFull <==> d.Downlink? && arrival.inFlight < MAX_IN_FLIGHT && d.encodable && arrival.queued == COMMAND_CHANNEL_SIZE)
  }

  /** Beside the invariant: what every command, response, execution and answer is about. */
  ghost predicate Honest(s: System) {
    && (forall e :: e in s.commands ==> Carries(e, s.arrivals, s.ticket, s.executed))
    && (s.executing.Some? ==> Carries(s.executing.value, s.arrivals, s.ticket, s.executed))
    && (forall m :: m in s.responses ==> Reports(m, s.ticket, s.executed))
    && (forall a :: a in s.answers ==> Truthful(a, s.arrivals, s.executed))
    && (forall t :: t in s.executed ==> t < |s.arrivals| && Sendable(s.arrivals[t], s.executed[t].payload))
    && (forall q :: q in s.ticket ==> s.ticket[q] < |s.arrivals| && Admitted(s.arrivals[s.ticket[q]]))
  }

  lemma {:induction false} QueuedMember(commands: seq<Envelope>, e: Envelope)
    requires e in commands && e.source.WiFi?
    ensures Queued(commands)[e.sequenceId] >= 1
  {
    if e != commands[0] {
      QueuedMember(commands[1..], e);
    }
  }

  lemma {:induction false} RespondedMember(responses: seq<Message>, m: Message)
    requires m in responses && m.CommandResponse? && m.source.WiFi?
    ensures Responded(responses)[m.sequenceId] >= 1
  {
    if m != responses[0] {
      RespondedMember(responses[1..], m);
    }
  }

  lemma AtMostOnePlace(s: System, q: u16)
    requires Invariant(s)
    ensures Queued(s.commands)[q] + Running(s.executing)[q] + Responded(s.responses)[q] <= if q in s.ticket then 1 else 0
  {
    hide Numbered, Answered;
    assert (Places(s) + multiset(s.lost))[q] == multiset(s.bridge.inFlight.Keys)[q];
    assert q in s.ticket.Keys <==> q in s.bridge.inFlight.Keys;
  }

  /** The place of the executing command's entry is the radio and no other. */
  lemma OnlyExecuting(s: System)
    requires Invariant(s) && s.executing.Some? && s.executing.value.source.WiFi?
    ensures forall f :: f in s.commands && f.source.WiFi? ==> f.sequenceId != s.executing.value.sequenceId
    ensures forall m :: m in s.responses && m.CommandResponse? && m.source.WiFi? ==> m.sequenceId != s.executing.value.sequenceId
  {
    hide Invariant, Queued, Responded;
    AtMostOnePlace(s, s.executing.value.sequenceId);
    forall f | f in s.commands && f.source.WiFi? ensures f.sequenceId != s.executing.value.sequenceId {
      QueuedMember(s.commands, f);
    }
    forall m | m in s.responses && m.CommandResponse? && m.source.WiFi? ensures m.sequenceId != s.executing.value.sequenceId {
      RespondedMember(s.responses, m);
    }
  }

  /** So is the place of the oldest response's entry that response. */
  lemma OnlyOldestResponse(s: System, q: u16)
    requires Invariant(s) && s.responses != [] && Tokens(s.responses[0]) == {q}
    ensures forall f :: f in s.commands && f.source.WiFi? ==> f.sequenceId != q
    ensures s.executing.Some? && s.executing.value.source.WiFi? ==> s.executing.value.sequenceId != q
    ensures forall m :: m in s.responses[1..] && m.CommandResponse? && m.source.WiFi? ==> m.sequenceId != q
  {
    hide Invariant, Queued;
    AtMostOnePlace(s, q);
    forall f | f in s.commands && f.source.WiFi? ensures f.sequenceId != q {
      QueuedMember(s.commands, f);
    }
    forall m | m in s.responses[1..] && m.CommandResponse? && m.source.WiFi? ensures m.sequenceId != q {
      RespondedMember(s.responses[1..], m);
    }
  }

  lemma TicketsDiffer(s: System)
    requires Invariant(s)
    ensures s.ticket.Keys == s.bridge.inFlight.Keys
    ensures forall q, r :: q in s.ticket && r in s.ticket && q != r ==> s.ticket[q] != s.ticket[r]
    ensures forall a, q :: a in s.answers && q in s.ticket ==> a.ticket != s.ticket[q]
  {
    hide Located, Bounded, Numbered;
    forall a, q | a in s.answers && q in s.ticket ensures a.ticket != s.ticket[q] {
      assert !Holds(s.ticket, a.ticket);
    }
  }

  /** How each fact survives a new arrival, an execution and a settled entry elsewhere. */
  lemma CarriesStill(e: Envelope, arrivals: seq<Arrival>, ticket: map<u16, nat>, executed: map<nat, Execution>, arrival: Arrival, q: u16, x: Execution)
    requires Carries(e, arrivals, ticket, executed) && (e.source.WiFi? ==> e.sequenceId != q)
    ensures Carries(e, arrivals + [arrival], ticket, executed) && Carries(e, arrivals + [arrival], ticket[q := |arrivals|], executed)
    ensures Carries(e, arrivals, ticket - {q}, executed)
    ensures e.source.WiFi? && q in ticket && ticket[e.sequenceId] != ticket[q] ==> Carries(e, arrivals, ticket, executed[ticket[q] := x])
  {}

  lemma ReportsStill(m: Message, ticket: map<u16, nat>, executed: map<nat, Execution>, q: u16, t: nat, x: Execution)
    requires Reports(m, ticket, executed) && (m.CommandResponse? && m.source.WiFi? ==> m.sequenceId != q)
    ensures Reports(m, ticket[q := t], executed) && Reports(m, ticket - {q}, executed)
    ensures m.CommandResponse? && m.source.WiFi? && q in ticket && ticket[m.sequenceId] != ticket[q] ==> Reports(m, ticket, executed[ticket[q] := x])
  {}

  lemma TruthfulStill(a: Answer, arrivals: seq<Arrival>, executed: map<nat, Execution>, arrival: Arrival, t: nat, x: Execution)
    requires Truthful(a, arrivals, executed)
    ensures Truthful(a, arrivals + [arrival], executed)
    ensures a.ticket != t ==> Truthful(a, arrivals, executed[t := x])
  {
    hide Outcome, TurnedAwayFor;
  }

  lemma EnterHonest(s: System, parsed: Parsed, q: u16)
    requires Invariant(s) && Honest(s) && q !in s.bridge.inFlight && Admitted(Met(s, parsed))
    ensures Honest(Entered(s, parsed, q))
  {
    hide Invariant, Truthful, Reports, Carries, Admitted, Sendable, Met;
    var s' := Entered(s, parsed, q);
    TicketsDiffer(s);
    assert q !in s.ticket.Keys;
    var x := Execution([], OtherResponse);
    assert |s.arrivals| !in s.executed;
    NewCarries(s, parsed, q);
    forall e | e in s.commands ensures Carries(e, s'.arrivals, s'.ticket, s'.executed) {
      CarriesNames(e, s.arrivals, s.ticket, s.executed);
      CarriesStill(e, s.arrivals, s.ticket, s.executed, Met(s, parsed), q, x);
    }
    if s.executing.Some? {
      CarriesNames(s.executing.value, s.arrivals, s.ticket, s.executed);
      CarriesStill(s.executing.value, s.arrivals, s.ticket, s.executed, Met(s, parsed), q, x);
    }
    forall m | m in s.responses ensures Reports(m, s'.ticket, s'.executed) {
      ReportsNames(m, s.ticket, s.executed);
      ReportsStill(m, s.ticket, s.executed, q, |s.arrivals|, x);
    }
    forall a | a in s.answers ensures Truthful(a, s'.arrivals, s'.executed) {
      TruthfulStill(a, s.arrivals, s.executed, Met(s, parsed), 0, x);
    }
  }

  lemma NewCarries(s: System, parsed: Parsed, q: u16)
    requires Admitted(Met(s, parsed)) && |s.arrivals| !in s.executed
    ensures Carries(Envelope(WiFi, q, false, PayloadOf(parsed)), s.arrivals + [Met(s, parsed)], s.ticket[q := |s.arrivals|], s.executed)
  {}

  lemma CarriesNames(e: Envelope, arrivals: seq<Arrival>, ticket: map<u16, nat>, executed: map<nat, Execution>)
    requires Carries(e, arrivals, ticket, executed)
    ensures e.source.WiFi? ==> e.sequenceId in ticket
  {}

  lemma ReportsNames(m: Message, ticket: map<u16, nat>, executed: map<nat, Execution>)
    requires Reports(m, ticket, executed)
    ensures m.CommandResponse? && m.source.WiFi? ==> m.sequenceId in ticket && ticket[m.sequenceId] in executed
  {}

  lemma TurnAwayHonest(s: System, parsed: Parsed, p: Publication, issues: bool)
    requires Honest(s) && p.TxResult? && TurnedAwayFor(Met(s, parsed), p)
    ensures Honest(TurnedAway(s, parsed, p, issues))
  {
    hide TurnedAwayFor, Outcome, Reports;
    var s' := TurnedAway(s, parsed, p, issues);
    assert |s.arrivals| !in s.executed;
    forall a | a in s.answers ensures Truthful(a, s'.arrivals, s'.executed) {
      TruthfulStill(a, s.arrivals, s.executed, Met(s, parsed), 0, Execution([], OtherResponse));
    }
    assert Truthful(Answer(|s.arrivals|, p), s'.arrivals, s'.executed);
  }

  lemma TurnAwayReason(s: State, parsed: Parsed, queued: nat)
    requires |s.inFlight| <= MAX_IN_FLIGHT && queued <= COMMAND_CHANNEL_SIZE
    ensures var (s', outcome) := OnDownlink(s, parsed);
            var arrival := Arrival(parsed, |s.inFlight|, queued);
            && (outcome.Send? ==> var p := Abandon(s', outcome.sequenceId, QueueFull).1;
                if queued < COMMAND_CHANNEL_SIZE then Sendable(arrival, outcome.payload) else p.TxResult? && TurnedAwayFor(arrival, p))
            && (outcome.Reject? ==> outcome.publication.TxResult? && TurnedAwayFor(arrival, outcome.publication))
  {}

  lemma ArriveHonest(s: System, parsed: Parsed)
    requires Invariant(s) && Young(s) && Honest(s)
    ensures Honest(Arrive(s, parsed))
  {
    YoungMeansFresh(s);
    Disassemble(s);
    TurnAwayReason(s.bridge, parsed, |s.commands|);
    if OnDownlink(s.bridge, parsed).1.Send? && |s.commands| < COMMAND_CHANNEL_SIZE {
      hide Honest, Entered;
      EnterHonest(s, parsed, s.bridge.nextSequence);
      ArriveEnters(s, parsed);
    } else {
      hide Honest, TurnedAway, TurnedAwayFor;
      ArriveTurnsAway(s, parsed);
      TurnAwayHonest(s, parsed, Last(Arrive(s, parsed).answers).publication, OnDownlink(s.bridge, parsed).0.nextSequence != s.bridge.nextSequence);
    }
  }

  lemma PublishHonest(s: System, m: Message)
    requires Honest(s) && Reports(m, s.ticket, s.executed)
    ensures Honest(Publish(s, m))
  {
    hide Carries, Reports, Truthful, Sendable;
  }

  /** The radio executes a command for the one arrival it carries. */
  lemma ExecuteHonest(s: System, response: Response)
    requires Invariant(s) && Honest(s) && s.executing.Some?
    ensures Honest(Executed(s, s.executing.value, response))
    ensures Reports(CommandResponse(s.executing.value.source, s.executing.value.sequenceId, response), s.ticket,
                    Executed(s, s.executing.value, response).executed)
  {
    hide Invariant, Truthful, Sendable, Admitted;
    var e := s.executing.value;
    if e.source.WiFi? {
      var s', x := Executed(s, e, response), Execution(e.payload, response);
      OnlyExecuting(s);
      TicketsDiffer(s);
      ExecuteOthersHonest(s, e.sequenceId, x);
    }
  }

  lemma ExecuteOthersHonest(s: System, q: u16, x: Execution)
    requires Honest(s) && q in s.ticket
    requires forall f :: f in s.commands && f.source.WiFi? ==> f.sequenceId != q
    requires forall m :: m in s.responses && m.CommandResponse? && m.source.WiFi? ==> m.sequenceId != q
    requires forall r, r' :: r in s.ticket && r' in s.ticket && r != r' ==> s.ticket[r] != s.ticket[r']
    requires forall a :: a in s.answers ==> a.ticket != s.ticket[q]
    ensures var executed := s.executed[s.ticket[q] := x];
            && (forall f :: f in s.commands ==> Carries(f, s.arrivals, s.ticket, executed))
            && (forall m :: m in s.responses ==> Reports(m, s.ticket, executed))
            && (forall a :: a in s.answers ==> Truthful(a, s.arrivals, executed))
  {
    hide Truthful, Sendable;
    var executed := s.executed[s.ticket[q] := x];
    forall f | f in s.commands ensures Carries(f, s.arrivals, s.ticket, executed) {
      CarriesStill(f, s.arrivals, s.ticket, s.executed, Arrival(BadJson, 0, 0), q, x);
    }
    forall m | m in s.responses ensures Reports(m, s.ticket, executed) {
      ReportsStill(m, s.ticket, s.executed, q, 0, x);
    }
    forall a | a in s.answers ensures Truthful(a, s.arrivals, executed) {
      TruthfulStill(a, s.arrivals, s.executed, Arrival(BadJson, 0, 0), s.ticket[q], x);
    }
  }

  lemma SettleHonest(s: System, q: u16, response: Response, p: Publication)
    requires Invariant(s) && Honest(s) && s.responses != [] && s.responses[0] == CommandResponse(WiFi, q, response)
    requires q in s.ticket && p.TxResult? && Outcome(response, p)
    ensures Honest(Settled(s, q, p))
  {
    hide Invariant, Truthful, Sendable, Outcome, Carries;
    var s', x := Settled(s, q, p), Execution([], response);
    OnlyOldestResponse(s, q);
    assert s.responses[0] in s.responses;
    forall e | e in s.commands ensures Carries(e, s'.arrivals, s'.ticket, s'.executed) {
      CarriesStill(e, s.arrivals, s.ticket, s.executed, Arrival(BadJson, 0, 0), q, x);
    }
    if s.executing.Some? {
      CarriesStill(s.executing.value, s.arrivals, s.ticket, s.executed, Arrival(BadJson, 0, 0), q, x);
    }
    forall m | m in s'.responses ensures Reports(m, s'.ticket, s'.executed) {
      ReportsStill(m, s.ticket, s.executed, q, 0, x);
    }
    OutcomeIsTruthful(s.ticket[q], p, s.arrivals, s.executed);
  }

  lemma OutcomeIsTruthful(t: nat, p: Publication, arrivals: seq<Arrival>, executed: map<nat, Execution>)
    requires t < |arrivals| && t in executed && p.TxResult? && Outcome(executed[t].response, p)
    ensures Truthful(Answer(t, p), arrivals, executed)
  {}

  lemma ReadHonest(s: System)
    requires Invariant(s) && Honest(s) && s.responses != []
    ensures Honest(Read(s))
  {
    hide Invariant, Honest, Settled, Read, Outcome, OnCommandResponse;
    var m := s.responses[0];
    if m.CommandResponse? && m.source.WiFi? {
      ResponseFindsItsEntry(s, m.sequenceId, m.response);
      ReadSettles(s, m.sequenceId, m.response);
      PublishedOutcome(s.bridge, m.sequenceId, m.response);
      SettleHonest(s, m.sequenceId, m.response, OnCommandResponse(s.bridge, m.sequenceId, m.response).1.value);
    } else {
      OtherReadHonest(s);
    }
  }

  lemma PublishedOutcome(s: State, q: u16, response: Response)
    requires q in s.inFlight
    ensures var p := OnCommandResponse(s, q, response).1; p.Some? && p.value.TxResult? && Outcome(response, p.value)
  {}

  lemma OtherReadHonest(s: System)
    requires Honest(s) && s.responses != [] && !(s.responses[0].CommandResponse? && s.responses[0].source.WiFi?)
    ensures Honest(Read(s))
  {
    hide Carries, Reports, Truthful, Sendable;
    var s' := Read(s);
    assert s' == s.(responses := s.responses[1..], bridge := s'.bridge);
  }

  lemma FinishHonest(s: System, response: Response)
    requires Invariant(s) && Honest(s) && s.executing.Some?
    ensures Honest(Next(s, RadioFinishes(response)))
  {
    hide Invariant, Publish, Executed, Honest, Reports;
    var e := s.executing.value;
    if e.reboot {
      RebootHonest(s);
    } else {
      ExecuteHonest(s, response);
      assert Executed(s, e, response).ticket == s.ticket by { ExecutedKeepsTickets(s, e, response); }
      PublishHonest(Executed(s, e, response), CommandResponse(e.source, e.sequenceId, response));
    }
  }

  lemma ExecutedKeepsTickets(s: System, e: Envelope, response: Response)
    ensures Executed(s, e, response).ticket == s.ticket
  {}

  lemma RebootHonest(s: System)
    requires Honest(s)
    ensures Honest(s.(executing := None))
  {}

  lemma CommandsMoveHonest(s: System, q: u16, reboot: bool, payload: seq<u8>)
    requires Honest(s)
    ensures Enabled(s, SerialSends(q, reboot, payload)) ==> Honest(Next(s, SerialSends(q, reboot, payload)))
    ensures Enabled(s, RadioTakes) ==> Honest(Next(s, RadioTakes))
  {
    hide Reports, Truthful, Sendable;
  }

  lemma NextKeepsHonest(s: System, step: Step)
    requires Invariant(s) && Honest(s) && Enabled(s, step) && (step.DownlinkArrives? ==> Young(s))
    ensures Honest(Next(s, step))
  {
    hide Invariant, Honest, Publish, Read, Arrive, Executed;
    match step {
      case DownlinkArrives(parsed) => ArriveHonest(s, parsed);
      case SerialSends(q, reboot, payload) => CommandsMoveHonest(s, q, reboot, payload);
      case RadioTakes => CommandsMoveHonest(s, 0, false, []);
      case RadioFinishes(response) => FinishHonest(s, response);
      case OthersPublish(m) => PublishHonest(s, m);
      case BridgeReads => ReadHonest(s);
    }
  }

  // ----- Whole runs ----------------------------------------------------------

  lemma {:induction false} RunHonest(steps: seq<Step>)
    requires Possible(steps)
    ensures Honest(Run(steps))
  {
    if steps != [] {
      RunHonest(Init(steps));
      RunInvariant(Init(steps));
      NextKeepsHonest(Run(Init(steps)), Last(steps));
    }
  }

  /**
   Every tx/result tells what became of its own downlink: the radio executed exactly that
   payload and answered so, or the downlink was turned away for a reason it really had.
   */
  lemma AnswersAreTruthful(steps: seq<Step>, i: nat)
    requires Possible(steps) && i < |Run(steps).answers|
    ensures var s := Run(steps);
            var a := s.answers[i];
            && Truthful(a, s.arrivals, s.executed)
            && (a.ticket in s.executed ==> Sendable(s.arrivals[a.ticket], s.executed[a.ticket].payload))
  {
    RunHonest(steps);
    assert Run(steps).answers[i] in Run(steps).answers;
  }

  /** No downlink is executed twice: what the radio starts on has not been executed before. */
  lemma ExecutedAtMostOnce(steps: seq<Step>)
    requires Possible(steps) && Run(steps).executing.Some? && Run(steps).executing.value.source.WiFi?
    ensures var s := Run(steps);
            var q := s.executing.value.sequenceId;
            q in s.ticket && s.ticket[q] !in s.executed && !HasAnswer(s.answers, s.ticket[q])
  {
    RunHonest(steps);
    RunInvariant(steps);
    var s := Run(steps);
    Disassemble(s);
    hide Invariant, Honest, Located, Bounded, Numbered, Ticketed;
    var t := s.ticket[s.executing.value.sequenceId];
    assert Holds(s.ticket, t);
  }

  ghost predicate HasVerdict(answers: seq<Answer>, t: nat, verdict: Verdict) {
    exists i :: 0 <= i < |answers| && answers[i].ticket == t && answers[i].publication.TxResult? && answers[i].publication.verdict == verdict
  }

  /** An arrival's one answer is the only source of its verdict. */
  lemma AnswerDecides(answers: seq<Answer>, i: nat, verdict: Verdict)
    requires i < |answers| && answers[i].publication.TxResult?
    requires forall j, k :: 0 <= j < k < |answers| ==> answers[j].ticket != answers[k].ticket
    ensures HasVerdict(answers, answers[i].ticket, verdict) <==> answers[i].publication.verdict == verdict
  {
    if HasVerdict(answers, answers[i].ticket, verdict) {
      var j :| 0 <= j < |answers| && answers[j].ticket == answers[i].ticket
               && answers[j].publication.TxResult? && answers[j].publication.verdict == verdict;
      assert !(i < j) && !(j < i);
    }
  }

  lemma AnswersDiffer(steps: seq<Step>)
    requires Possible(steps)
    ensures var answers := Run(steps).answers; forall j, k :: 0 <= j < k < |answers| ==> answers[j].ticket != answers[k].ticket
  {
    RunInvariant(steps);
    Disassemble(Run(steps));
    hide Invariant, Located, Bounded, Numbered, Ticketed;
  }

  /**
   Every downlink of every run is told exactly what stood in its way when it arrived: busy
   iff four entries were in flight, queue_full iff there were fewer, its command could be
   built and eight commands were queued, and so on; with nothing in its way it is told none
   of these.
   */
  lemma VerdictIffCause(steps: seq<Step>, t: nat)
    requires Possible(steps) && t < |Run(steps).arrivals|
    ensures var s := Run(steps);
            var a := s.arrivals[t];
            && (HasVerdict(s.answers, t, BadJsonVerdict) <==> a.parsed.BadJson?)
            && (HasVerdict(s.answers, t, Busy) <==> a.parsed.Downlink? && a.inFlight == MAX_IN_FLIGHT)
            && (HasVerdict(s.answers, t, BadPayload)
                <==> a.parsed.BadHex? || (a.parsed.Downlink? && a.inFlight < MAX_IN_FLIGHT && !a.parsed.encodable))
            && (HasVerdict(s.answers, t, QueueFull)
                <==> a.parsed.Downlink? && a.inFlight < MAX_IN_FLIGHT && a.parsed.encodable && a.queued == COMMAND_CHANNEL_SIZE)
  {
    hide HasVerdict, Run, Possible;
    var s := Run(steps);
    AnsweredOrAdmitted(steps, t);
    NoAnswerNoVerdict(s.answers, t);
    if HasAnswer(s.answers, t) {
      var i :| 0 <= i < |s.answers| && s.answers[i].ticket == t;
      AnswersAreTruthful(steps, i);
      AnswersDiffer(steps);
      AnswerDecides(s.answers, i, BadJsonVerdict);
      AnswerDecides(s.answers, i, Busy);
      AnswerDecides(s.answers, i, BadPayload);
      AnswerDecides(s.answers, i, QueueFull);
    }
  }

  lemma NoAnswerNoVerdict(answers: seq<Answer>, t: nat)
    ensures forall verdict :: HasVerdict(answers, t, verdict) ==> HasAnswer(answers, t)
  {}

  lemma AnsweredOrAdmitted(steps: seq<Step>, t: nat)
    requires Possible(steps) && t < |Run(steps).arrivals|
    ensures HasAnswer(Run(steps).answers, t) || Admitted(Run(steps).arrivals[t])
  {
    RunHonest(steps);
    RunInvariant(steps);
    Disassemble(Run(steps));
    hide Invariant, Located, Bounded, Numbered, Ticketed, Admitted;
  }
}
