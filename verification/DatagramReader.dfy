/**
 The server's side of the forwarder's datagrams (src/gateway/udp_protocol.rs): a reader written
 from the protocol, and that it gives back what `build_push_data_rxpk` and `build_tx_ack` were
 asked to send.
 */
module DatagramReader {
  import opened Prelude
  import opened Decimal
  import opened Datagram
  import DownlinkPolicy

  const QUOTE: u8 := 34
  const MINUS: u8 := 45

  /** How a stretch of text is read: as fixed text, a number, a signed one, millionths, or up to a quote. */
  datatype Shape = Fixed(text: Bytes) | Number | SignedNumber | Millionths | Quoted

  datatype Item = Nothing | Num(n: int) | Text(text: Bytes)

  function DigitRun(s: Bytes): (k: nat)
    ensures k <= |s| && AllDigits(s[..k])
  {
    if s == [] || !IsDigit(s[0]) then 0
    else
      var k := 1 + DigitRun(s[1..]);
      assert s[..k] == [s[0]] + s[1..][..k - 1];
      k
  }

  function ReadNumber(s: Bytes): Option<(int, Bytes)> {
    var k := DigitRun(s);
    if k == 0 then None else Some((Value(s[..k]), s[k..]))
  }

  /** One item off the front, and what follows it. */
  function ReadItem(shape: Shape, s: Bytes): Option<(Item, Bytes)> {
    match shape
    case Fixed(text) => if text <= s then Some((Nothing, s[|text|..])) else None
    case Number =>
      (match ReadNumber(s)
       case Some((n, rest)) => Some((Num(n), rest))
       case None => None)
    case SignedNumber =>
      if s != [] && s[0] == MINUS then
        match ReadNumber(s[1..])
        case Some((n, rest)) => Some((Num(-n), rest))
        case None => None
      else
        (match ReadNumber(s)
         case Some((n, rest)) => Some((Num(n), rest))
         case None => None)
    case Millionths =>
      var k := DigitRun(s);
      if 0 < k <= 6 then Some((Num(Value(s[..k]) * Power10(6 - k)), s[k..])) else None
    case Quoted => var i := IndexOf(s, QUOTE); Some((Text(s[..i]), s[i..]))
  }

  /** All of a text, by the shapes of its parts. */
  function ReadItems(shapes: seq<Shape>, s: Bytes): (r: Option<seq<Item>>)
    ensures r.Some? ==> |r.value| == |shapes|
  {
    if shapes == [] then (if s == [] then Some([]) else None)
    else match ReadItem(shapes[0], s)
      case None => None
      case Some((item, rest)) =>
        match ReadItems(shapes[1..], rest)
        case None => None
        case Some(items) => Some([item] + items)
  }

  // ----- The datagrams -------------------------------------------------------

  function TimeShapes(): (shapes: seq<Shape>)
    ensures |shapes| == 7
  {
    [Fixed(Ascii("{\"rxpk\":[{\"tmst\":")), Number,
     Fixed(Ascii(",\"chan\":0,\"rfch\":0,\"freq\":")), Number, Fixed(Ascii(".")), Millionths,
     Fixed(Ascii(",\"stat\":1,\"modu\":\"LORA\",\"datr\":\"SF"))]
  }

  function ModulationShapes(): (shapes: seq<Shape>)
    ensures |shapes| == 7
  {
    [Number, Fixed(Ascii("BW")), Number, Fixed(Ascii("\",\"codr\":\"4/")), Number, Fixed(Ascii("\",\"rssi\":")), SignedNumber]
  }

  function DataShapes(): (shapes: seq<Shape>)
    ensures |shapes| == 7
  {
    [Fixed(Ascii(",\"lsnr\":")), SignedNumber, Fixed(Ascii(",\"size\":")), Number, Fixed(Ascii(",\"data\":\"")), Quoted, Fixed(Ascii("\"}]}"))]
  }

  function RxpkShapes(): (shapes: seq<Shape>)
    ensures |shapes| == 21
  {
    TimeShapes() + ModulationShapes() + DataShapes()
  }

  function TxAckShapes(): (shapes: seq<Shape>)
    ensures |shapes| == 3
  {
    [Fixed(Ascii("{\"txpk_ack\":{\"error\":\"")), Quoted, Fixed(Ascii("\"}}"))]
  }

  /** A datagram of version 2 from a gateway: its token, its identifier, the gateway and the text. */
  datatype Upstream = Upstream(token: int, id: u8, eui: seq<u8>, text: Bytes)

  function ReadUpstream(datagram: Bytes): Option<Upstream> {
    if |datagram| < 12 || datagram[0] != 2 then None
    else
      var msb: int, lsb: int := datagram[1], datagram[2];
      Some(Upstream(msb * 0x100 + lsb, datagram[3], datagram[4..12], datagram[12..]))
  }

  /** A received packet as the server sees it; the frequency in hertz. */
  datatype Reception = Reception(
    tmst: int, freqHz: int, spreadingFactor: int, bandwidthKhz: int, codingRate: int, rssi: int, snr: int, size: int, data: Bytes)

  function ReadRxpk(text: Bytes): Option<Reception> {
    match ReadItems(RxpkShapes(), text)
    case None => None
    case Some(items) =>
      if items[1].Num? && items[3].Num? && items[5].Num? && items[7].Num? && items[9].Num?
         && items[11].Num? && items[13].Num? && items[15].Num? && items[17].Num? && items[19].Text?
      then Some(Reception(items[1].n, items[3].n * 1_000_000 + items[5].n, items[7].n, items[9].n, items[11].n,
                          items[13].n, items[15].n, items[17].n, items[19].text))
      else None
  }

  function ErrorNamed(name: Bytes): Option<DownlinkPolicy.TxAckError> {
    if name == Ascii("NONE") then Some(DownlinkPolicy.NoError)
    else if name == Ascii("TOO_LATE") then Some(DownlinkPolicy.TxAckError.TooLate)
    else if name == Ascii("TOO_EARLY") then Some(DownlinkPolicy.TxAckError.TooEarly)
    else if name == Ascii("COLLISION_PACKET") then Some(DownlinkPolicy.CollisionPacket)
    else if name == Ascii("TX_FREQ") then Some(DownlinkPolicy.TxFreq)
    else if name == Ascii("DUTY_CYCLE_OVERFLOW") then Some(DownlinkPolicy.DutyCycleOverflow)
    else None
  }

  function ReadAck(text: Bytes): Option<DownlinkPolicy.TxAckError> {
    match ReadItems(TxAckShapes(), text)
    case Some(items) => if items[1].Text? then ErrorNamed(items[1].text) else None
    case None => None
  }

  // ----- What is written is read back ----------------------------------------

  lemma {:induction false} DigitRunOf(a: Bytes, rest: Bytes)
    requires AllDigits(a) && (rest != [] ==> !IsDigit(rest[0]))
    ensures DigitRun(a + rest) == |a|
  {
    if a == [] {
      assert a + rest == rest;
    } else {
      DigitRunOf(a[1..], rest);
      assert (a + rest)[1..] == a[1..] + rest;
    }
  }

  /** The text that an item of a shape is written as. */
  ghost predicate WrittenAs(shape: Shape, fragment: Bytes, item: Item) {
    match shape
    case Fixed(text) => fragment == text && item == Nothing
    case Number => item.Num? && item.n >= 0 && fragment == Digits(item.n)
    case SignedNumber => item.Num? && fragment == Signed(item.n)
    case Millionths => item.Num? && 0 <= item.n < 1_000_000 && fragment == Padded6(item.n)
    case Quoted => item.Text? && fragment == item.text && QUOTE !in fragment
  }

  /** Where a shape ends: numbers before anything that is no digit, quoted text before its quote. */
  ghost predicate EndsBefore(shape: Shape, rest: Bytes) {
    match shape
    case Fixed(_) => true
    case Quoted => rest != [] && rest[0] == QUOTE
    case _ => rest != [] ==> !IsDigit(rest[0])
  }

  lemma NumberIsRead(n: nat, rest: Bytes)
    requires rest != [] ==> !IsDigit(rest[0])
    ensures ReadNumber(Digits(n) + rest) == Some((n, rest))
  {
    DigitRunOf(Digits(n), rest);
    ValueOfDigits(n);
    assert (Digits(n) + rest)[..|Digits(n)|] == Digits(n) && (Digits(n) + rest)[|Digits(n)|..] == rest;
  }

  lemma ValueAppend(s: Bytes, d: u8)
    requires AllDigits(s) && IsDigit(d)
    ensures Value(s + [d]) == Value(s) * 10 + DigitValue(d)
  {
    assert Init(s + [d]) == s;
  }

  lemma ValueOfPadded(n: nat)
    requires n < 1_000_000
    ensures AllDigits(Padded6(n)) && |Padded6(n)| == 6 && Value(Padded6(n)) == n
  {
    hide Value;
    var p := Padded6(n);
    NoValue();
    assert p[..0] == [] && p[..6] == p;
    forall k: nat | k < 6 ensures p[..k] + [p[k]] == p[..k + 1] {}
    ValueAppend(p[..0], p[0]);
    OneMoreDigit(p, 1, n / 100_000, n / 10_000);
    OneMoreDigit(p, 2, n / 10_000, n / 1_000);
    OneMoreDigit(p, 3, n / 1_000, n / 100);
    OneMoreDigit(p, 4, n / 100, n / 10);
    OneMoreDigit(p, 5, n / 10, n);
  }

  lemma OneMoreDigit(p: Bytes, k: nat, before: nat, after: nat)
    requires k < |p| && AllDigits(p) && Value(p[..k]) == before && before == after / 10 && p[k] == DigitByte(after % 10)
    ensures Value(p[..k + 1]) == after
  {
    ValueAppend(p[..k], p[k]);
    assert p[..k] + [p[k]] == p[..k + 1];
  }

  lemma NoValue()
    ensures Value([]) == 0
  {}

  lemma ItemIsRead(shape: Shape, fragment: Bytes, item: Item, rest: Bytes)
    requires WrittenAs(shape, fragment, item) && EndsBefore(shape, rest)
    ensures ReadItem(shape, fragment + rest) == Some((item, rest))
  {
    hide Digits, DigitRun, Value, IndexOf, Padded6, ReadNumber;
    assert (fragment + rest)[..|fragment|] == fragment && (fragment + rest)[|fragment|..] == rest;
    match shape {
      case Fixed(_) =>
      case Number => NumberIsRead(item.n, rest);
      case SignedNumber =>
        NumberIsRead(if item.n < 0 then -item.n else item.n, rest);
        assert item.n < 0 ==> (fragment + rest)[1..] == Digits(-item.n) + rest;
        assert item.n >= 0 ==> IsDigit(fragment[0]);
      case Millionths =>
        ValueOfPadded(item.n);
        DigitRunOf(fragment, rest);
        assert Power10(6 - |fragment|) == 1;
      case Quoted =>
        FirstAfter(fragment, QUOTE, rest[1..]);
        assert fragment + rest == fragment + [QUOTE] + rest[1..];
    }
  }

  lemma {:induction false} FlattenConcat(a: seq<Bytes>, b: seq<Bytes>)
    ensures Flatten(a + b) == Flatten(a) + Flatten(b)
  {
    if b == [] {
      assert a + b == a;
    } else {
      FlattenConcat(a, Init(b));
      assert Init(a + b) == a + Init(b);
    }
  }

  lemma FlattenFirst(f: seq<Bytes>)
    requires f != []
    ensures Flatten(f) == f[0] + Flatten(f[1..])
  {
    FlattenConcat([f[0]], f[1..]);
    assert [f[0]] + f[1..] == f;
    assert Init([f[0]]) == [];
  }

  /** Every shape but the last ends before fixed text that ends it. */
  ghost predicate Separated(shapes: seq<Shape>) {
    && shapes != [] && Last(shapes).Fixed?
    && forall i :: 0 <= i < |shapes| && !shapes[i].Fixed? ==> SeparatedBy(shapes[i], shapes[i + 1])
  }

  predicate SeparatedBy(shape: Shape, next: Shape) {
    && next.Fixed? && next.text != []
    && if shape.Quoted? then next.text[0] == QUOTE else !IsDigit(next.text[0])
  }

  ghost predicate AllWritten(shapes: seq<Shape>, fragments: seq<Bytes>, items: seq<Item>) {
    && |fragments| == |shapes| == |items|
    && forall i :: 0 <= i < |shapes| ==> WrittenAs(shapes[i], fragments[i], items[i])
  }

  lemma {:induction false} ItemsAreRead(shapes: seq<Shape>, fragments: seq<Bytes>, items: seq<Item>)
    requires Separated(shapes) && AllWritten(shapes, fragments, items)
    ensures ReadItems(shapes, Flatten(fragments)) == Some(items)
  {
    hide ReadItem, Flatten;
    var rest := Flatten(fragments[1..]);
    FlattenFirst(fragments);
    if |shapes| == 1 {
      assert fragments[1..] == [];
      NothingFlat();
    } else {
      FlattenFirst(fragments[1..]);
      SeparatedTail(shapes);
      ItemsAreRead(shapes[1..], fragments[1..], items[1..]);
      assert WrittenAs(shapes[1], fragments[1], items[1]);
    }
    ItemIsRead(shapes[0], fragments[0], items[0], rest);
    assert items == [items[0]] + items[1..];
  }

  lemma NothingFlat()
    ensures Flatten([]) == []
  {}

  lemma SeparatedTail(shapes: seq<Shape>)
    requires Separated(shapes) && |shapes| > 1
    ensures Separated(shapes[1..])
  {}

  // The two datagrams.

  function TimeItems(meta: RxMeta): seq<Item> {
    [Nothing, Num(meta.tmst), Nothing, Num(meta.freqHz / 1_000_000), Nothing, Num(meta.freqHz % 1_000_000), Nothing]
  }

  function ModulationItems(meta: RxMeta): seq<Item> {
    [Num(meta.spreadingFactor), Nothing, Num(meta.bandwidthKhz), Nothing, Num(meta.codingRate), Nothing, Num(meta.rssi)]
  }

  function DataItems(meta: RxMeta, size: nat, data: Bytes): seq<Item> {
    [Nothing, Num(meta.snr), Nothing, Num(size), Nothing, Text(data), Nothing]
  }

  function RxpkItems(meta: RxMeta, size: nat, data: Bytes): seq<Item> {
    TimeItems(meta) + ModulationItems(meta) + DataItems(meta, size, data)
  }

  /** Fixed text, or a value that the next fixed text ends. */
  predicate Ends(shape: Shape, next: Shape) {
    shape.Fixed? || SeparatedBy(shape, next)
  }

  lemma TimeIsSeparated()
    ensures forall i :: 0 <= i < 6 ==> Ends(TimeShapes()[i], TimeShapes()[i + 1])
    ensures TimeShapes()[6].Fixed?
  {}

  lemma ModulationIsSeparated()
    ensures forall i :: 0 <= i < 6 ==> Ends(ModulationShapes()[i], ModulationShapes()[i + 1])
    ensures Ends(ModulationShapes()[6], DataShapes()[0])
  {
    hide TimeShapes;
  }

  lemma DataIsSeparated()
    ensures forall i :: 0 <= i < 6 ==> Ends(DataShapes()[i], DataShapes()[i + 1])
    ensures DataShapes()[6].Fixed?
  {}

  lemma RxpkIsSeparated()
    ensures Separated(RxpkShapes())
  {
    hide TimeShapes, ModulationShapes, DataShapes, SeparatedBy;
    TimeIsSeparated();
    ModulationIsSeparated();
    DataIsSeparated();
    var s := RxpkShapes();
    assert forall i :: 0 <= i < 7 ==> s[i] == TimeShapes()[i] && s[7 + i] == ModulationShapes()[i] && s[14 + i] == DataShapes()[i];
    forall i | 0 <= i < 20 ensures Ends(s[i], s[i + 1]) {
      if i < 6 {
        assert Ends(TimeShapes()[i], TimeShapes()[i + 1]);
      } else if 7 <= i < 13 {
        assert Ends(ModulationShapes()[i - 7], ModulationShapes()[i - 6]);
      } else if i >= 14 {
        assert Ends(DataShapes()[i - 14], DataShapes()[i - 13]);
      }
    }
  }

  lemma TimeIsWritten(meta: RxMeta)
    ensures AllWritten(TimeShapes(), TimeAndFrequency(meta), TimeItems(meta))
  {
    hide Digits, Padded6, Ascii;
  }

  lemma ModulationIsWritten(meta: RxMeta)
    ensures AllWritten(ModulationShapes(), Modulation(meta), ModulationItems(meta))
  {
    hide Digits, Signed, Ascii;
  }

  lemma DataIsWritten(meta: RxMeta, size: nat, data: Bytes)
    requires QUOTE !in data
    ensures AllWritten(DataShapes(), SignalAndData(meta, size, data), DataItems(meta, size, data))
  {
    hide Digits, Signed, Ascii;
  }

  lemma WrittenConcat(shapes: seq<Shape>, fragments: seq<Bytes>, items: seq<Item>,
                      shapes': seq<Shape>, fragments': seq<Bytes>, items': seq<Item>)
    requires AllWritten(shapes, fragments, items) && AllWritten(shapes', fragments', items')
    ensures AllWritten(shapes + shapes', fragments + fragments', items + items')
  {}

  lemma RxpkIsWritten(meta: RxMeta, size: nat, data: Bytes)
    requires QUOTE !in data
    ensures AllWritten(RxpkShapes(), RxpkFragments(meta, size, data), RxpkItems(meta, size, data))
  {
    hide TimeShapes, ModulationShapes, DataShapes, TimeAndFrequency, Modulation, SignalAndData, TimeItems, ModulationItems, DataItems, AllWritten;
    TimeIsWritten(meta);
    ModulationIsWritten(meta);
    DataIsWritten(meta, size, data);
    WrittenConcat(TimeShapes(), TimeAndFrequency(meta), TimeItems(meta), ModulationShapes(), Modulation(meta), ModulationItems(meta));
    WrittenConcat(TimeShapes() + ModulationShapes(), TimeAndFrequency(meta) + Modulation(meta), TimeItems(meta) + ModulationItems(meta),
                  DataShapes(), SignalAndData(meta, size, data), DataItems(meta, size, data));
  }

  lemma HeaderIsRead(token: u16, id: u8, eui: seq<u8>, text: Bytes)
    requires |eui| == 8
    ensures ReadUpstream(Header(token, id, eui) + text) == Some(Upstream(token, id, eui, text))
  {
    var d := Header(token, id, eui) + text;
    assert d[4..12] == eui && d[12..] == text;
  }

  /** The server reads a PUSH_DATA of this gateway with this packet in it. */
  ghost predicate GivesReception(datagram: Bytes, token: u16, eui: seq<u8>, meta: RxMeta, size: nat, data: Bytes) {
    var upstream := ReadUpstream(datagram);
    && upstream.Some? && upstream.value.token == token && upstream.value.id == 0 && upstream.value.eui == eui
    && ReadRxpk(upstream.value.text)
       == Some(Reception(meta.tmst, meta.freqHz, meta.spreadingFactor, meta.bandwidthKhz, meta.codingRate, meta.rssi, meta.snr, size, data))
  }

  /** The server reads a TX_ACK of this gateway with this error. */
  ghost predicate GivesAck(datagram: Bytes, token: u16, eui: seq<u8>, error: DownlinkPolicy.TxAckError) {
    var upstream := ReadUpstream(datagram);
    && upstream.Some? && upstream.value.token == token && upstream.value.id == 5 && upstream.value.eui == eui
    && ReadAck(upstream.value.text) == Some(error)
  }

  /** A PUSH_DATA gives the server the packet that was received, field by field. */
  lemma PushDataReadsBack(token: u16, eui: seq<u8>, meta: RxMeta, size: nat, data: Bytes)
    requires |eui| == 8 && QUOTE !in data
    ensures GivesReception(Header(token, PUSH_DATA, eui) + Flatten(RxpkFragments(meta, size, data)), token, eui, meta, size, data)
  {
    hide RxpkFragments, RxpkShapes, ReadItems, Flatten, Separated, AllWritten;
    HeaderIsRead(token, PUSH_DATA, eui, Flatten(RxpkFragments(meta, size, data)));
    RxpkIsSeparated();
    RxpkIsWritten(meta, size, data);
    ItemsAreRead(RxpkShapes(), RxpkFragments(meta, size, data), RxpkItems(meta, size, data));
  }

  /** A TX_ACK gives the server the token of its request and the very error. */
  lemma TxAckReadsBack(token: u16, eui: seq<u8>, error: DownlinkPolicy.TxAckError)
    requires |eui| == 8
    ensures GivesAck(Header(token, TX_ACK, eui) + Flatten(AckFragments(error)), token, eui, error)
  {
    hide AckFragments, TxAckShapes, ReadItems, Flatten, Separated, AllWritten, Ascii, ErrorName, ErrorNamed;
    HeaderIsRead(token, TX_ACK, eui, Flatten(AckFragments(error)));
    AckIsSeparated();
    AckIsWritten(error);
    ItemsAreRead(TxAckShapes(), AckFragments(error), [Nothing, Text(Ascii(ErrorName(error))), Nothing]);
    NameIsRead(error);
  }

  lemma AckIsWritten(error: DownlinkPolicy.TxAckError)
    ensures AllWritten(TxAckShapes(), AckFragments(error), [Nothing, Text(Ascii(ErrorName(error))), Nothing])
  {
    NoQuoteInName(error);
    hide Ascii, ErrorName;
  }

  lemma NoQuoteInName(error: DownlinkPolicy.TxAckError)
    ensures QUOTE !in Ascii(ErrorName(error))
  {}

  lemma AckIsSeparated()
    ensures Separated(TxAckShapes())
  {}

  lemma NameIsRead(error: DownlinkPolicy.TxAckError)
    ensures ErrorNamed(Ascii(ErrorName(error))) == Some(error)
  {}
}
