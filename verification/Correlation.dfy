/** The LoRa-MQTT bridge's correlation state (src/bridge/mod.rs). */
module Correlation {
  import opened Prelude

  const MAX_IN_FLIGHT: nat := 4

  /** A downlink as it comes out of the JSON and hex codecs; `encodable` is what building the command says. */
  datatype Parsed = BadJson | BadHex | Downlink(payload: seq<u8>, id: Option<u32>, encodable: bool)

  datatype Response = TxComplete | TxRefused(retryAfterSecs: u32) | OtherResponse

  datatype Verdict = BadJsonVerdict | BadPayload | Busy | QueueFull | Sent | Refused | Failed

  /** A publication for the MQTT task. */
  datatype Publication = TxResult(verdict: Verdict, id: Option<u32>, retryAfterSecs: Option<u32>) | Rx(data: seq<u8>, seqNo: u32)

  datatype State = State(inFlight: map<u16, Option<u32>>, nextSequence: u16, rxSeq: u32)

  datatype DownlinkOutcome = Send(sequenceId: u16, payload: seq<u8>) | Reject(publication: Publication)

  function IdOf(parsed: Parsed): Option<u32> {
    if parsed.Downlink? then parsed.id else None
  }

  function PayloadOf(parsed: Parsed): seq<u8> {
    if parsed.Downlink? then parsed.payload else []
  }

  function OnDownlink(s: State, parsed: Parsed): (State, DownlinkOutcome) {
    match parsed
    case BadJson => (s, Reject(TxResult(BadJsonVerdict, None, None)))
    case BadHex => (s, Reject(TxResult(BadPayload, None, None)))
    case Downlink(payload, id, encodable) =>
      if |s.inFlight| == MAX_IN_FLIGHT then (s, Reject(TxResult(Busy, id, None)))
      else
        var advanced := s.(nextSequence := (s.nextSequence + 1) % U16_SIZE);
        if encodable then (advanced.(inFlight := s.inFlight[s.nextSequence := id]), Send(s.nextSequence, payload))
        else (advanced.(inFlight := s.inFlight - {s.nextSequence}), Reject(TxResult(BadPayload, id, None)))
  }

  function Forget(s: State, sequenceId: u16): State {
    s.(inFlight := s.inFlight - {sequenceId})
  }

  function Abandon(s: State, sequenceId: u16, verdict: Verdict): (State, Publication) {
    (Forget(s, sequenceId), TxResult(verdict, if sequenceId in s.inFlight then s.inFlight[sequenceId] else None, None))
  }

  function OnCommandResponse(s: State, sequenceId: u16, response: Response): (State, Option<Publication>) {
    if sequenceId !in s.inFlight then (s, None)
    else
      var id := s.inFlight[sequenceId];
      (Forget(s, sequenceId),
       Some(match response
            case TxComplete => TxResult(Sent, id, None)
            case TxRefused(secs) => TxResult(Refused, id, Some(secs))
            case OtherResponse => TxResult(Failed, id, None)))
  }

  function OnRxPacket(s: State, data: seq<u8>): (State, Publication) {
    (s.(rxSeq := (s.rxSeq + 1) % U32_SIZE), Rx(data, s.rxSeq))
  }
}
