/** Writing datagrams into fixed buffers (src/gateway/udp_protocol.rs, `SliceWriter`). */
module DatagramWriter {
  import opened Prelude
  import opened Decimal
  import opened Datagram
  import Reader = DatagramReader
  import opened DownlinkPolicy

  class SliceWriter {
    const buf: array<u8>
    var len: nat

    ghost predicate Valid()
      reads this
    {
      len <= buf.Length
    }

    ghost function Written(): Bytes
      requires Valid()
      reads this, buf
    {
      buf[..len]
    }

    constructor (buf: array<u8>)
      ensures Valid() && this.buf == buf && Written() == []
    {
      this.buf, len := buf, 0;
    }

    /** Appends as many of the bytes as fit. */
    method PushBytes(bytes: Bytes)
      requires Valid()
      modifies this`len, buf
      ensures Valid() && Written() == old(Written()) + bytes[..Min(|bytes|, buf.Length - old(len))]
    {
      var end := Min(len + |bytes|, buf.Length);
      var start := len;
      forall i | start <= i < end {
        buf[i] := bytes[i - start];
      }
      len := end;
      assert buf[..start] == old(buf[..len]);
      assert buf[start..end] == bytes[..end - start];
    }

    /** Appends all of the text or, when it does not fit, nothing. */
    method WriteStr(s: Bytes) returns (ok: bool)
      requires Valid()
      modifies this`len, buf
      ensures Valid() && ok == (old(len) + |s| <= buf.Length)
      ensures Written() == if ok then old(Written()) + s else old(Written())
    {
      if len + |s| > buf.Length {
        return false;
      }
      PushBytes(s);
      assert s[..|s|] == s;
      return true;
    }

    /** A formatted write: fragment by fragment, giving up at the first that does not fit. */
    method WriteFormat(fragments: seq<Bytes>)
      requires Valid()
      modifies this`len, buf
      ensures Valid()
      ensures exists k: nat :: k <= |fragments| && Written() == old(Written()) + Flatten(fragments[..k])
      ensures old(len) + |Flatten(fragments)| <= buf.Length ==> Written() == old(Written()) + Flatten(fragments)
    {
      hide Flatten;
      FlattenNext(fragments, 0);
      for i := 0 to |fragments|
        invariant Valid() && Written() == old(Written()) + Flatten(fragments[..i])
      {
        FlattenNext(fragments, i);
        PrefixIsShorter(fragments, i + 1);
        var ok := WriteStr(fragments[i]);
        if !ok {
          return;
        }
      }
      assert fragments[..|fragments|] == fragments;
    }
  }

  lemma FlattenNext(fragments: seq<Bytes>, i: nat)
    requires i <= |fragments|
    ensures i < |fragments| ==> Flatten(fragments[..i + 1]) == Flatten(fragments[..i]) + fragments[i]
    ensures Flatten(fragments[..0]) == []
  {
    if i < |fragments| {
      assert Init(fragments[..i + 1]) == fragments[..i];
    }
  }

  lemma PrefixIsShorter(fragments: seq<Bytes>, k: nat)
    requires k <= |fragments|
    ensures |Flatten(fragments[..k])| <= |Flatten(fragments)|
  {
    assert fragments[..k] + fragments[k..] == fragments;
    FlattenLength(fragments[..k], fragments[k..]);
  }

  /** Every PUSH_DATA with one received packet is written whole. */
  method BuildPushData(out: array<u8>, token: u16, eui: seq<u8>, meta: RxMeta, payload: Bytes, base64: Bytes -> Bytes) returns (length: nat)
    requires out.Length == PUSH_BUF && |eui| == 8 && ValidMeta(meta) && |payload| <= 256
    requires |base64(payload)| == 4 * DivCeil(|payload|, 3)
    modifies out
    ensures length <= out.Length
    ensures out[..length] == Header(token, PUSH_DATA, eui) + Flatten(RxpkFragments(meta, |payload|, base64(payload)))
    ensures Reader.QUOTE !in base64(payload) ==> Reader.GivesReception(out[..length], token, eui, meta, |payload|, base64(payload))
  {
    hide RxpkFragments, Flatten, Reader.GivesReception;
    if Reader.QUOTE !in base64(payload) {
      Reader.PushDataReadsBack(token, eui, meta, |payload|, base64(payload));
    }
    var writer := new SliceWriter(out);
    writer.PushBytes(Header(token, PUSH_DATA, eui));
    RxpkFits(meta, |payload|, base64(payload));
    writer.WriteFormat(RxpkFragments(meta, |payload|, base64(payload)));
    return writer.len;
  }

  /** Every TX_ACK, whose longest error name has 19 letters, is written whole. */
  method BuildTxAck(out: array<u8>, token: u16, eui: seq<u8>, error: TxAckError) returns (length: nat)
    requires out.Length == ACK_BUF && |eui| == 8
    modifies out
    ensures length <= out.Length
    ensures out[..length] == Header(token, TX_ACK, eui) + Flatten(AckFragments(error))
    ensures Reader.GivesAck(out[..length], token, eui, error)
  {
    hide AckFragments, Flatten, Reader.GivesAck;
    Reader.TxAckReadsBack(token, eui, error);
    var writer := new SliceWriter(out);
    writer.PushBytes(Header(token, TX_ACK, eui));
    AckFits(error);
    writer.WriteFormat(AckFragments(error));
    return writer.len;
  }
}
