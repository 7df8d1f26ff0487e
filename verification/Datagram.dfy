/** The Semtech UDP forwarder's datagrams (src/gateway/udp_protocol.rs). */
module Datagram {
  import opened Prelude
  import opened Decimal
  import opened DownlinkPolicy

  const PROTOCOL_VERSION: u8 := 2
  const PUSH_BUF: nat := 600
  const ACK_BUF: nat := 64
  const B: u8 := 66
  const W: u8 := 87

  // ----- Data rates ----------------------------------------------------------

  /** "SF" sf "BW" bw */
  function PrintDatr(sf: nat, bw: nat): Bytes {
    [83, 70] + Digits(sf) + [B, W] + Digits(bw)
  }

  /** The first index at which "BW" occurs, or the length. */
  function FindBw(s: Bytes): (i: nat)
    ensures i == |s| || i + 2 <= |s|
  {
    if |s| < 2 then |s|
    else if s[0] == B && s[1] == W then 0
    else var i := FindBw(s[1..]); i + 1
  }

  function ParseDatr(datr: Bytes): Option<(u8, u32)> {
    if |datr| < 2 || datr[..2] != [83, 70] then None
    else
      var rest := datr[2..];
      var bwAt := FindBw(rest);
      if bwAt == |rest| then None
      else match (ParseUnsigned(rest[..bwAt], 0x100), ParseUnsigned(rest[bwAt + 2..], U32_SIZE))
        case (Some(sf), Some(bw)) => if 5 <= sf <= 12 then Some((sf, bw)) else None
        case _ => None
  }

  lemma {:induction false} FindBwAfterDigits(a: Bytes, rest: Bytes)
    requires AllDigits(a)
    ensures FindBw(a + [B, W] + rest) == |a|
  {
    if a == [] {
      assert a + [B, W] + rest == [B, W] + rest;
    } else {
      FindBwAfterDigits(a[1..], rest);
      assert (a + [B, W] + rest)[1..] == a[1..] + [B, W] + rest;
    }
  }

  /** A printed data rate reads back for every 32-bit bandwidth and exactly the spreading factors 5 to 12. */
  lemma PrintedDatrParsesIff(sf: nat, bw: u32)
    ensures ParseDatr(PrintDatr(sf, bw)) == if 5 <= sf <= 12 then Some((sf, bw)) else None
  {
    var rest := Digits(sf) + [B, W] + Digits(bw);
    assert PrintDatr(sf, bw) == [83, 70] + rest;
    assert ([83, 70] + rest)[..2] == [83, 70] && ([83, 70] + rest)[2..] == rest;
    FindBwAfterDigits(Digits(sf), Digits(bw));
    assert rest[..|Digits(sf)|] == Digits(sf) && rest[|Digits(sf)| + 2..] == Digits(bw);
    PrintedNumberParses(sf, 0x100);
    PrintedNumberParses(bw, U32_SIZE);
  }

  // ----- Datagrams as text ---------------------------------------------------

  const PUSH_DATA: u8 := 0x00
  const TX_ACK: u8 := 0x05

  datatype RxMeta = RxMeta(tmst: u32, freqHz: u32, spreadingFactor: u8, bandwidthKhz: u32, codingRate: u8, rssi: int, snr: int)

  predicate ValidMeta(meta: RxMeta) {
    -0x8000 <= meta.rssi < 0x8000 && -0x80 <= meta.snr < 0x80
  }

  function Ascii(text: string): (b: Bytes)
    requires IsAscii(text)
    ensures |b| == |text|
  {
    seq(|text|, i requires 0 <= i < |text| => text[i] as int)
  }

  function Signed(n: int): Bytes {
    if n < 0 then [45] + Digits(-n) else Digits(n)
  }

  /** Six digits, zero-padded. */
  function Padded6(n: nat): Bytes
    requires n < 1_000_000
  {
    [DigitByte(n / 100_000), DigitByte(n / 10_000 % 10), DigitByte(n / 1_000 % 10),
     DigitByte(n / 100 % 10), DigitByte(n / 10 % 10), DigitByte(n % 10)]
  }

  function Header(token: u16, id: u8, eui: seq<u8>): Bytes {
    [PROTOCOL_VERSION, token / 0x100, token % 0x100, id] + eui
  }

  /** The fragments of the rxpk object, as the formatter hands them to the writer. */
  function RxpkFragments(meta: RxMeta, size: nat, data: Bytes): seq<Bytes> {
    TimeAndFrequency(meta) + Modulation(meta) + SignalAndData(meta, size, data)
  }

  function TimeAndFrequency(meta: RxMeta): seq<Bytes> {
    [Ascii("{\"rxpk\":[{\"tmst\":"), Digits(meta.tmst),
     Ascii(",\"chan\":0,\"rfch\":0,\"freq\":"), Digits(meta.freqHz / 1_000_000), Ascii("."), Padded6(meta.freqHz % 1_000_000),
     Ascii(",\"stat\":1,\"modu\":\"LORA\",\"datr\":\"SF")]
  }

  function Modulation(meta: RxMeta): seq<Bytes> {
    [Digits(meta.spreadingFactor), Ascii("BW"), Digits(meta.bandwidthKhz), Ascii("\",\"codr\":\"4/"), Digits(meta.codingRate),
     Ascii("\",\"rssi\":"), Signed(meta.rssi)]
  }

  function SignalAndData(meta: RxMeta, size: nat, data: Bytes): seq<Bytes> {
    [Ascii(",\"lsnr\":"), Signed(meta.snr), Ascii(",\"size\":"), Digits(size), Ascii(",\"data\":\""), data, Ascii("\"}]}")]
  }

  predicate IsAscii(text: string) {
    forall i :: 0 <= i < |text| ==> text[i] < 128 as char
  }

  function ErrorName(error: TxAckError): (name: string)
    ensures |name| <= 19 && IsAscii(name)
  {
    match error
    case NoError => "NONE"
    case TooLate => "TOO_LATE"
    case TooEarly => "TOO_EARLY"
    case CollisionPacket => "COLLISION_PACKET"
    case TxFreq => "TX_FREQ"
    case DutyCycleOverflow => "DUTY_CYCLE_OVERFLOW"
  }

  function AckFragments(error: TxAckError): seq<Bytes> {
    [Ascii("{\"txpk_ack\":{\"error\":\""), Ascii(ErrorName(error)), Ascii("\"}}")]
  }

  lemma AckFits(error: TxAckError)
    ensures |Flatten(AckFragments(error))| <= ACK_BUF - 12
  {
    var f := AckFragments(error);
    FlattenLength([], f);
    assert [] + f == f;
  }

  function Flatten(fragments: seq<Bytes>): Bytes {
    if fragments == [] then [] else Flatten(Init(fragments)) + Last(fragments)
  }

  function TotalLength(fragments: seq<Bytes>): nat {
    if fragments == [] then 0 else |fragments[0]| + TotalLength(fragments[1..])
  }

  lemma {:induction false} FlattenLength(a: seq<Bytes>, b: seq<Bytes>)
    ensures |Flatten(a + b)| == |Flatten(a)| + TotalLength(b)
    decreases |b|
  {
    if b == [] {
      assert a + b == a;
    } else {
      assert a + b == (a + [b[0]]) + b[1..];
      FlattenLength(a + [b[0]], b[1..]);
      assert Init(a + [b[0]]) == a;
    }
  }

  lemma NumbersAreShort(meta: RxMeta, size: nat)
    requires ValidMeta(meta) && size <= 256
    ensures |Digits(meta.tmst)| <= 10 && |Digits(meta.freqHz / 1_000_000)| <= 4
    ensures |Digits(meta.spreadingFactor)| <= 3 && |Digits(meta.bandwidthKhz)| <= 10 && |Digits(meta.codingRate)| <= 3
    ensures |Signed(meta.rssi)| <= 6 && |Signed(meta.snr)| <= 4 && |Digits(size)| <= 3
  {
    assert Power10(3) == 1_000 && Power10(4) == 10_000 && Power10(5) == 100_000 && Power10(10) == 10_000_000_000;
    DigitCount(meta.tmst, 10);
    DigitCount(meta.freqHz / 1_000_000, 4);
    DigitCount(meta.spreadingFactor, 3);
    DigitCount(meta.bandwidthKhz, 10);
    DigitCount(meta.codingRate, 3);
    DigitCount(if meta.rssi < 0 then -meta.rssi else meta.rssi, 5);
    DigitCount(if meta.snr < 0 then -meta.snr else meta.snr, 3);
    DigitCount(size, 3);
  }

  lemma PartsAreShort(meta: RxMeta, size: nat, data: Bytes)
    requires ValidMeta(meta) && size <= 256 && |data| <= 344
    ensures TotalLength(TimeAndFrequency(meta)) <= 105
    ensures TotalLength(Modulation(meta)) <= 45
    ensures TotalLength(SignalAndData(meta, size, data)) <= 380
  {
    NumbersAreShort(meta, size);
    SevenLengths(TimeAndFrequency(meta));
    SevenLengths(Modulation(meta));
    SevenLengths(SignalAndData(meta, size, data));
  }

  /** Whatever was received, the rxpk object is short enough for the datagram buffer. */
  lemma RxpkFits(meta: RxMeta, size: nat, data: Bytes)
    requires ValidMeta(meta) && size <= 256 && |data| <= 344
    ensures |Flatten(RxpkFragments(meta, size, data))| <= PUSH_BUF - 12
  {
    hide TimeAndFrequency, Modulation, SignalAndData, TotalLength;
    PartsAreShort(meta, size, data);
    FlattenLength([], TimeAndFrequency(meta));
    assert [] + TimeAndFrequency(meta) == TimeAndFrequency(meta);
    FlattenLength(TimeAndFrequency(meta), Modulation(meta));
    FlattenLength(TimeAndFrequency(meta) + Modulation(meta), SignalAndData(meta, size, data));
  }

  lemma SevenLengths(f: seq<Bytes>)
    requires |f| == 7
    ensures TotalLength(f) == |f[0]| + |f[1]| + |f[2]| + |f[3]| + |f[4]| + |f[5]| + |f[6]|
  {
    SplitLength(f, 2);
    SplitLength(f[2..], 2);
    SplitLength(f[2..][2..], 2);
  }

  lemma {:induction false} SplitLength(f: seq<Bytes>, k: nat)
    requires k <= |f|
    ensures TotalLength(f) == TotalLength(f[..k]) + TotalLength(f[k..])
  {
    if k > 0 {
      SplitLength(f[1..], k - 1);
      assert f[1..][..k - 1] == f[..k][1..] && f[1..][k - 1..] == f[k..];
    }
  }
}
