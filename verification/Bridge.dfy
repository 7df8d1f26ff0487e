/** The bridge state object (src/bridge/mod.rs). */
module Bridge {
  import opened Prelude
  import opened Correlation

  class BridgeState {
    var inFlight: map<u16, Option<u32>>
    var nextSequence: u16
    var rxSeq: u32

    function View(): State
      reads this
    {
      State(inFlight, nextSequence, rxSeq)
    }

    constructor ()
      ensures View() == State(map[], 0, 0)
    {
      inFlight, nextSequence, rxSeq := map[], 0, 0;
    }

    method OnDownlink(parsed: Parsed) returns (outcome: DownlinkOutcome)
      modifies this
      ensures (View(), outcome) == Correlation.OnDownlink(old(View()), parsed)
    {
      match parsed {
        case BadJson => return Reject(TxResult(BadJsonVerdict, None, None));
        case BadHex => return Reject(TxResult(BadPayload, None, None));
        case Downlink(payload, id, encodable) =>
          if |inFlight| == MAX_IN_FLIGHT {
            return Reject(TxResult(Busy, id, None));
          }
          var sequenceId := nextSequence;
          nextSequence := (nextSequence + 1) % U16_SIZE;
          inFlight := inFlight[sequenceId := id];
          if encodable {
            return Send(sequenceId, payload);
          }
          inFlight := inFlight - {sequenceId};
          assert inFlight == old(inFlight) - {sequenceId};
          return Reject(TxResult(BadPayload, id, None));
      }
    }

    /** For a downlink that never reached the command channel. */
    method Abandon(sequenceId: u16, verdict: Verdict) returns (publication: Publication)
      modifies this
      ensures (View(), publication) == Correlation.Abandon(old(View()), sequenceId, verdict)
    {
      var id := if sequenceId in inFlight then inFlight[sequenceId] else None;
      inFlight := inFlight - {sequenceId};
      return TxResult(verdict, id, None);
    }

    method OnCommandResponse(sequenceId: u16, response: Response) returns (publication: Option<Publication>)
      modifies this
      ensures (View(), publication) == Correlation.OnCommandResponse(old(View()), sequenceId, response)
    {
      if sequenceId !in inFlight {
        return None;
      }
      var id := inFlight[sequenceId];
      inFlight := inFlight - {sequenceId};
      match response {
        case TxComplete => return Some(TxResult(Sent, id, None));
        case TxRefused(secs) => return Some(TxResult(Refused, id, Some(secs)));
        case OtherResponse => return Some(TxResult(Failed, id, None));
      }
    }

    method OnRxPacket(data: seq<u8>) returns (publication: Publication)
      modifies this
      ensures (View(), publication) == Correlation.OnRxPacket(old(View()), data)
    {
      var seqNo := rxSeq;
      rxSeq := (rxSeq + 1) % U32_SIZE;
      return Rx(data, seqNo);
    }
  }
}
