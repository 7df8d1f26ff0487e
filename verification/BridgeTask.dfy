/** The bridge task's loop body (src/tasks/bridge.rs), on the bridge state it owns. */
module BridgeTask {
  import opened Prelude
  import opened Correlation
  import opened BridgeProtocol
  import opened Bridge

  class Task {
    const state: BridgeState
    var commands: seq<Envelope>
    var responses: seq<Message>
    /** The tx/result publications made so far. */
    var results: seq<Publication>

    /** The running part of a system. */
    ghost predicate Runs(s: System)
      reads this, state
    {
      state.View() == s.bridge && commands == s.commands && responses == s.responses && results == Results(s.answers)
    }

    constructor ()
      ensures Runs(Boot())
    {
      state := new BridgeState();
      commands, responses, results := [], [], [];
    }

    /** A downlink from MQTT: sent on, or answered at once. */
    method OnMqtt(parsed: Parsed, ghost s: System)
      requires Runs(s)
      modifies this, state
      ensures Runs(Arrive(s, parsed))
    {
      var outcome := state.OnDownlink(parsed);
      match outcome {
        case Reject(publication) => results := results + [publication];
        case Send(sequenceId, payload) =>
          if |commands| < COMMAND_CHANNEL_SIZE {
            commands := commands + [Envelope(WiFi, sequenceId, false, payload)];
          } else {
            var publication := state.Abandon(sequenceId, QueueFull);
            results := results + [publication];
          }
      }
      AnswersGrow(s, parsed);
    }

    /** The next message of the response channel; only WiFi responses can end a downlink. */
    method OnResponse(ghost s: System)
      requires Runs(s) && Invariant(s) && responses != []
      modifies this, state
      ensures Runs(Read(s))
    {
      var message := responses[0];
      responses := responses[1..];
      match message {
        case HubRaw =>
        case RxPacket(data) => var publication := state.OnRxPacket(data);
        case CommandResponse(source, sequenceId, response) =>
          if source.WiFi? {
            ResponseFindsItsEntry(s, sequenceId, response);
            var publication := state.OnCommandResponse(sequenceId, response);
            if publication.Some? {
              results := results + [publication.value];
              ResultsAppend(s.answers, Answer(s.ticket[sequenceId], publication.value));
            }
          }
      }
    }
  }

  ghost function Results(answers: seq<Answer>): seq<Publication> {
    seq(|answers|, i requires 0 <= i < |answers| => answers[i].publication)
  }

  lemma ResultsAppend(answers: seq<Answer>, a: Answer)
    ensures Results(answers + [a]) == Results(answers) + [a.publication]
  {}

  lemma AnswersGrow(s: System, parsed: Parsed)
    ensures var after := Arrive(s, parsed).answers;
            after == s.answers || (after == s.answers + [Last(after)] && Results(after) == Results(s.answers) + [Last(after).publication])
  {}
}
