/**
 The portal's incremental HTTP parser (src/portal/http.rs, `try_parse`) and the connection's
 read loop (src/tasks/portal.rs, `serve_connection`). UTF-8 validity is a parameter.
 */
module Http {
  import opened Prelude
  import opened Decimal

  const MAX_REQUEST: nat := 2048
  const CR: u8 := 13
  const LF: u8 := 10
  const SPACE: u8 := 32
  const COLON: u8 := 58

  datatype HttpRequest = HttpRequest(verb: Bytes, path: Bytes, body: Bytes)

  datatype ParseOutcome = Complete(request: HttpRequest) | Incomplete | Bad

  // ----- Finding the end of the headers --------------------------------------

  /** A blank line starts at `i`. */
  predicate BlankLineAt(buf: Bytes, i: nat) {
    i + 4 <= |buf| && buf[i] == CR && buf[i + 1] == LF && buf[i + 2] == CR && buf[i + 3] == LF
  }

  function FindHeadersEnd(buf: Bytes, from: nat): (r: Option<nat>)
    ensures r.Some? ==> from <= r.value && BlankLineAt(buf, r.value) && forall i :: from <= i < r.value ==> !BlankLineAt(buf, i)
    ensures r.None? ==> forall i :: from <= i ==> !BlankLineAt(buf, i)
    decreases |buf| - from
  {
    if from + 4 > |buf| then None
    else if BlankLineAt(buf, from) then Some(from)
    else FindHeadersEnd(buf, from + 1)
  }

  // ----- Reading the head ----------------------------------------------------

  /** The first index at which CR LF occurs, or the length. */
  function IndexOfLineEnd(s: Bytes): (i: nat)
    ensures i == |s| || i + 2 <= |s|
  {
    if |s| < 2 then |s|
    else if s[0] == CR && s[1] == LF then 0
    else var i := IndexOfLineEnd(s[1..]); i + 1
  }

  /** The lines between CR LFs. */
  function Lines(head: Bytes): (lines: seq<Bytes>)
    ensures lines != []
  {
    var i := IndexOfLineEnd(head);
    if i == |head| then [head] else [head[..i]] + Lines(head[i + 2..])
  }

  function Lower(b: u8): u8 {
    if 65 <= b <= 90 then b + 32 else b
  }

  predicate EqIgnoreAsciiCase(a: Bytes, b: Bytes) {
    |a| == |b| && forall i :: 0 <= i < |a| ==> Lower(a[i]) == Lower(b[i])
  }

  /** "content-length" */
  const CONTENT_LENGTH: Bytes := [99, 111, 110, 116, 101, 110, 116, 45, 108, 101, 110, 103, 116, 104]

  predicate IsSpace(b: u8) {
    b == 32 || 9 <= b <= 13
  }

  function TrimStart(s: Bytes): Bytes {
    if s != [] && IsSpace(s[0]) then TrimStart(s[1..]) else s
  }

  function TrimEnd(s: Bytes): Bytes {
    if s != [] && IsSpace(Last(s)) then TrimEnd(Init(s)) else s
  }

  /** `str::parse::<usize>().unwrap_or(0)`, `usize` being 32 bits wide. */
  function ParseLength(s: Bytes): nat {
    match ParseUnsigned(s, U32_SIZE)
    case Some(n) => n
    case None => 0
  }

  /** The length a header line announces, if it is a content-length line. */
  function AnnouncedLength(line: Bytes): Option<nat> {
    var colon := IndexOf(line, COLON);
    if colon < |line| && EqIgnoreAsciiCase(line[..colon], CONTENT_LENGTH)
    then Some(ParseLength(TrimEnd(TrimStart(line[colon + 1..])))) else None
  }

  /** The last content-length line wins; none at all means zero. */
  function ContentLength(lines: seq<Bytes>): nat {
    if lines == [] then 0
    else match AnnouncedLength(Last(lines))
      case Some(n) => n
      case None => ContentLength(Init(lines))
  }

  function TryParse(utf8: Bytes -> bool, buf: Bytes): ParseOutcome
    requires |buf| <= MAX_REQUEST
  {
    match FindHeadersEnd(buf, 0)
    case None => if |buf| >= MAX_REQUEST then Bad else Incomplete
    case Some(headersEnd) =>
      if !utf8(buf[..headersEnd]) then Bad
      else
        var lines := Lines(buf[..headersEnd]);
        var space := IndexOf(lines[0], SPACE);
        if space == |lines[0]| then Bad
        else
          var afterVerb := lines[0][space + 1..];
          var length := ContentLength(lines[1..]);
          if length > MAX_REQUEST - headersEnd then Bad
          else if |buf| < headersEnd + 4 + length then Incomplete
          else Complete(HttpRequest(lines[0][..space], afterVerb[..IndexOf(afterVerb, SPACE)], buf[headersEnd + 4..headersEnd + 4 + length]))
  }

  // ----- More bytes never change a decision ----------------------------------

  lemma BlankLineStays(buf: Bytes, more: Bytes, i: nat)
    requires i + 4 <= |buf|
    ensures BlankLineAt(buf + more, i) <==> BlankLineAt(buf, i)
  {}

  lemma HeadersEndStays(buf: Bytes, more: Bytes)
    requires FindHeadersEnd(buf, 0).Some?
    ensures FindHeadersEnd(buf + more, 0) == FindHeadersEnd(buf, 0)
  {
    var h := FindHeadersEnd(buf, 0).value;
    forall i: nat | i <= h ensures BlankLineAt(buf + more, i) <==> BlankLineAt(buf, i) {
      BlankLineStays(buf, more, i);
    }
    var h' := FindHeadersEnd(buf + more, 0);
    if h'.Some? {
      assert !(h'.value < h) && !(h < h'.value);
    }
  }

  /** Complete and Bad are final: appending bytes, up to the buffer's size, changes neither. */
  lemma DecisionIsStable(utf8: Bytes -> bool, buf: Bytes, more: Bytes)
    requires |buf + more| <= MAX_REQUEST && !TryParse(utf8, buf).Incomplete?
    ensures TryParse(utf8, buf + more) == TryParse(utf8, buf)
  {
    if FindHeadersEnd(buf, 0).None? {
      assert buf + more == buf;
    } else {
      HeadersEndStays(buf, more);
      var h := FindHeadersEnd(buf, 0).value;
      assert (buf + more)[..h] == buf[..h];
      if TryParse(utf8, buf).Complete? {
        var length := ContentLength(Lines(buf[..h])[1..]);
        assert (buf + more)[h + 4..h + 4 + length] == buf[h + 4..h + 4 + length];
      }
    }
  }

  // ----- The connection ------------------------------------------------------

  /** What a connection that sends `stream` and then closes comes to: a request, or a drop. */
  function Decision(utf8: Bytes -> bool, stream: Bytes): Option<HttpRequest> {
    match TryParse(utf8, stream[..Min(|stream|, MAX_REQUEST)])
    case Complete(request) => Some(request)
    case _ => None
  }

  method FindEnd(buf: Bytes) returns (r: Option<nat>)
    ensures r == FindHeadersEnd(buf, 0)
  {
    var i := 0;
    while i + 4 <= |buf|
      invariant FindHeadersEnd(buf, i) == FindHeadersEnd(buf, 0)
    {
      if buf[i..i + 4] == [CR, LF, CR, LF] {
        return Some(i);
      }
      i := i + 1;
    }
    return None;
  }

  /** `try_parse` with its loop over the header lines. */
  method Parse(utf8: Bytes -> bool, buf: Bytes) returns (outcome: ParseOutcome)
    requires |buf| <= MAX_REQUEST
    ensures outcome == TryParse(utf8, buf)
  {
    var end := FindEnd(buf);
    if end.None? {
      return if |buf| >= MAX_REQUEST then Bad else Incomplete;
    }
    var head := buf[..end.value];
    if !utf8(head) {
      return Bad;
    }
    var lines := Lines(head);
    var space := IndexOf(lines[0], SPACE);
    if space == |lines[0]| {
      return Bad;
    }
    var length := 0;
    for i := 1 to |lines|
      invariant length == ContentLength(lines[1..i])
    {
      assert Init(lines[1..i + 1]) == lines[1..i];
      var announced := AnnouncedLength(lines[i]);
      if announced.Some? {
        length := announced.value;
      }
    }
    assert lines[1..|lines|] == lines[1..];
    if length > MAX_REQUEST - end.value {
      return Bad;
    }
    var bodyEnd := end.value + 4 + length;
    if |buf| < bodyEnd {
      return Incomplete;
    }
    var afterVerb := lines[0][space + 1..];
    return Complete(HttpRequest(lines[0][..space], afterVerb[..IndexOf(afterVerb, SPACE)], buf[end.value + 4..bodyEnd]));
  }

  /**
   The read loop over a socket that delivers `stream` in pieces of whatever sizes and then
   closes or fails. However the bytes are split into reads, the outcome is the stream's.
   */
  method ServeConnection(utf8: Bytes -> bool, stream: Bytes, readSize: nat -> nat) returns (request: Option<HttpRequest>)
    requires forall k: nat :: readSize(k) > 0
    ensures request == Decision(utf8, stream)
  {
    var have, count := 0, 0;
    while true
      invariant have <= Min(|stream|, MAX_REQUEST)
      invariant TryParse(utf8, stream[..have]).Incomplete?
      decreases |stream| - have
    {
      if have == |stream| {
        return None;
      }
      if have == MAX_REQUEST {
        return None;
      }
      var n := Min(readSize(count), Min(MAX_REQUEST - have, |stream| - have));
      have, count := have + n, count + 1;
      var outcome := Parse(utf8, stream[..have]);
      if !outcome.Incomplete? {
        var all := Min(|stream|, MAX_REQUEST);
        assert stream[..all] == stream[..have] + stream[have..all];
        DecisionIsStable(utf8, stream[..have], stream[have..all]);
        return if outcome.Complete? then Some(outcome.request) else None;
      }
    }
  }

  // ----- A well-formed request is understood ---------------------------------

  /** " HTTP/1.1" */
  const HTTP_VERSION: Bytes := [32, 72, 84, 84, 80, 47, 49, 46, 49]
  const FIELD_NAME: string := "content-length"
  const LINE_END: Bytes := [CR, LF]

  /** No space and no control character. */
  predicate Plain(s: Bytes) {
    forall i :: 0 <= i < |s| ==> s[i] > 32
  }

  predicate Blank(s: Bytes) {
    forall i :: 0 <= i < |s| ==> IsSpace(s[i])
  }

  /** Header fields as a client may send them: anything on lines of their own. */
  predicate HeaderLines(fields: seq<Bytes>) {
    forall i :: 0 <= i < |fields| ==> fields[i] != [] && CR !in fields[i]
  }

  function RequestLine(verb: Bytes, path: Bytes): Bytes {
    verb + [SPACE] + path + HTTP_VERSION
  }

  /** Lines with a line end between any two. */
  function Joined(lines: seq<Bytes>): Bytes
    requires lines != []
  {
    if |lines| == 1 then lines[0] else lines[0] + LINE_END + Joined(lines[1..])
  }

  function Head(verb: Bytes, path: Bytes, fields: seq<Bytes>): Bytes {
    Joined([RequestLine(verb, path)] + fields)
  }

  /** What a client sends for one request. */
  function PrintRequest(verb: Bytes, path: Bytes, fields: seq<Bytes>, body: Bytes): Bytes {
    Head(verb, path, fields) + LINE_END + LINE_END + body
  }

  /** The field's name, each letter in either case. */
  predicate NamesLength(name: Bytes) {
    && |name| == |FIELD_NAME|
    && forall i :: 0 <= i < |name| ==> SpellsLetter(name[i], FIELD_NAME[i])
  }

  predicate SpellsLetter(b: u8, letter: char) {
    b == letter as int || ('a' <= letter <= 'z' && b == letter as int - 32)
  }

  predicate LengthFieldParts(line: Bytes, name: Bytes, before: Bytes, after: Bytes, n: nat) {
    NamesLength(name) && Blank(before) && Blank(after) && line == name + [COLON] + (before + Digits(n) + after)
  }

  /** A content-length field for `n` bytes, with or without blanks around the number. */
  ghost predicate LengthField(line: Bytes, n: nat) {
    exists name, before, after :: LengthFieldParts(line, name, before, after, n)
  }

  predicate UnreadableParts(line: Bytes, name: Bytes, value: Bytes, i: nat) {
    && NamesLength(name) && line == name + [COLON] + value
    && i < |value| && !IsSpace(value[i]) && !IsDigit(value[i]) && value[i] != PLUS
  }

  /** A content-length field whose value has something in it that belongs to no number. */
  ghost predicate Unreadable(line: Bytes) {
    exists name, value, i :: UnreadableParts(line, name, value, i)
  }

  ghost predicate Gives(line: Bytes, n: nat) {
    LengthField(line, n) || (n == 0 && Unreadable(line))
  }

  /** What stands before its first colon, if it has one, is another name. */
  ghost predicate OtherField(line: Bytes) {
    forall name: Bytes, rest: Bytes :: line == name + [COLON] + rest && COLON !in name ==> !NamesLength(name)
  }

  /**
   The fields give the body `n` bytes: the last content-length field does, an unreadable one
   counting as zero, or there is none and no body.
   */
  ghost predicate Says(fields: seq<Bytes>, n: nat) {
    || (n == 0 && forall i :: 0 <= i < |fields| ==> OtherField(fields[i]))
    || exists k :: 0 <= k < |fields| && Gives(fields[k], n) && forall i :: k < i < |fields| ==> OtherField(fields[i])
  }

  lemma {:induction false} FirstLineEnd(a: Bytes, rest: Bytes)
    requires CR !in a
    ensures IndexOfLineEnd(a + LINE_END + rest) == |a|
  {
    if a == [] {
      assert a + LINE_END + rest == LINE_END + rest;
    } else {
      FirstLineEnd(a[1..], rest);
      assert (a + LINE_END + rest)[1..] == a[1..] + LINE_END + rest;
    }
  }

  lemma {:induction false} NoLineEnd(a: Bytes)
    requires CR !in a
    ensures IndexOfLineEnd(a) == |a|
  {
    if |a| >= 2 {
      NoLineEnd(a[1..]);
    }
  }

  lemma {:induction false} LinesOfJoined(lines: seq<Bytes>)
    requires lines != [] && HeaderLines(lines)
    ensures Lines(Joined(lines)) == lines
  {
    hide IndexOfLineEnd;
    var a := lines[0];
    if |lines| == 1 {
      NoLineEnd(a);
    } else {
      var rest := Joined(lines[1..]);
      LinesOfJoined(lines[1..]);
      FirstLineEnd(a, rest);
      assert (a + LINE_END + rest)[..|a|] == a && (a + LINE_END + rest)[|a| + 2..] == rest;
    }
  }

  lemma JoinedStartsPlain(lines: seq<Bytes>)
    requires lines != [] && HeaderLines(lines)
    ensures Joined(lines) != [] && Joined(lines)[0] != CR
  {}

  /** No blank line inside non-empty lines. */
  lemma {:induction false} NoBlankLine(lines: seq<Bytes>, more: Bytes, i: nat)
    requires lines != [] && HeaderLines(lines) && i < |Joined(lines)|
    ensures !BlankLineAt(Joined(lines) + more, i)
  {
    var a := lines[0];
    if i < |a| {
      assert (Joined(lines) + more)[i] == a[i];
    } else {
      var rest := Joined(lines[1..]);
      JoinedStartsPlain(lines[1..]);
      assert Joined(lines) + more == a + LINE_END + (rest + more);
      if i >= |a| + 2 {
        NoBlankLine(lines[1..], more, i - |a| - 2);
        ShiftedBlankLine(a + LINE_END, rest + more, i - |a| - 2);
      }
    }
  }

  lemma ShiftedBlankLine(before: Bytes, buf: Bytes, i: nat)
    ensures BlankLineAt(before + buf, |before| + i) <==> BlankLineAt(buf, i)
  {}

  lemma HeadersEndAfterJoined(lines: seq<Bytes>, body: Bytes)
    requires lines != [] && HeaderLines(lines)
    ensures FindHeadersEnd(Joined(lines) + LINE_END + LINE_END + body, 0) == Some(|Joined(lines)|)
  {
    hide Joined, FindHeadersEnd;
    var more := LINE_END + LINE_END + body;
    var buf := Joined(lines) + more;
    assert Joined(lines) + LINE_END + LINE_END + body == buf;
    assert BlankLineAt(buf, |Joined(lines)|);
    forall i: nat | i < |Joined(lines)| ensures !BlankLineAt(buf, i) {
      NoBlankLine(lines, more, i);
    }
  }

  // What a header field announces.

  lemma LettersInEitherCase(name: Bytes)
    ensures EqIgnoreAsciiCase(name, CONTENT_LENGTH) <==> NamesLength(name)
    ensures NamesLength(name) ==> COLON !in name
  {
    assert |CONTENT_LENGTH| == |FIELD_NAME|;
    forall i | 0 <= i < |FIELD_NAME|
      ensures CONTENT_LENGTH[i] == FIELD_NAME[i] as int && (FIELD_NAME[i] == '-' || 'a' <= FIELD_NAME[i] <= 'z')
    {
      LettersOfTheName(i);
    }
    forall i | 0 <= i < |name| && i < |FIELD_NAME| ensures Lower(name[i]) == Lower(CONTENT_LENGTH[i]) <==> SpellsLetter(name[i], FIELD_NAME[i]) {
      assert CONTENT_LENGTH[i] == FIELD_NAME[i] as int;
    }
  }

  lemma LettersOfTheName(i: nat)
    requires i < |FIELD_NAME|
    ensures |CONTENT_LENGTH| == |FIELD_NAME|
    ensures CONTENT_LENGTH[i] == FIELD_NAME[i] as int && (FIELD_NAME[i] == '-' || 'a' <= FIELD_NAME[i] <= 'z')
  {}

  lemma {:induction false} TrimmedStart(blanks: Bytes, s: Bytes)
    requires Blank(blanks) && s != [] && !IsSpace(s[0])
    ensures TrimStart(blanks + s) == s
  {
    if blanks == [] {
      assert blanks + s == s;
    } else {
      TrimmedStart(blanks[1..], s);
      assert (blanks + s)[1..] == blanks[1..] + s;
    }
  }

  lemma {:induction false} TrimmedEnd(s: Bytes, blanks: Bytes)
    requires Blank(blanks) && s != [] && !IsSpace(Last(s))
    ensures TrimEnd(s + blanks) == s
  {
    if blanks == [] {
      assert s + blanks == s;
    } else {
      TrimmedEnd(s, Init(blanks));
      assert Init(s + blanks) == s + Init(blanks);
    }
  }

  lemma LengthFieldAnnounces(line: Bytes, n: nat)
    requires LengthField(line, n) && n < U32_SIZE
    ensures AnnouncedLength(line) == Some(n)
  {
    hide Digits, NamesLength, EqIgnoreAsciiCase, ParseUnsigned, TrimStart, TrimEnd, IndexOf;
    var name, before, after :| LengthFieldParts(line, name, before, after, n);
    var digits, value := Digits(n), before + Digits(n) + after;
    LettersInEitherCase(name);
    FirstAfter(name, COLON, value);
    assert line[..|name|] == name && line[|name| + 1..] == value;
    assert value == before + (digits + after);
    TrimmedStart(before, digits + after);
    assert IsDigit(Last(digits));
    TrimmedEnd(digits, after);
    PrintedNumberParses(n, U32_SIZE);
  }

  lemma {:induction false} TrimStartKeeps(s: Bytes, b: u8)
    requires b in s && !IsSpace(b)
    ensures b in TrimStart(s)
  {
    if IsSpace(s[0]) {
      TrimStartKeeps(s[1..], b);
    }
  }

  lemma {:induction false} TrimEndKeeps(s: Bytes, b: u8)
    requires b in s && !IsSpace(b)
    ensures b in TrimEnd(s)
  {
    if IsSpace(Last(s)) {
      TrimEndKeeps(Init(s), b);
    }
  }

  lemma UnreadableAnnouncesZero(line: Bytes)
    requires Unreadable(line)
    ensures AnnouncedLength(line) == Some(0)
  {
    hide NamesLength, EqIgnoreAsciiCase, TrimStart, TrimEnd, IndexOf;
    var name, value, i: nat :| UnreadableParts(line, name, value, i);
    LettersInEitherCase(name);
    FirstAfter(name, COLON, value);
    assert line[..|name|] == name && line[|name| + 1..] == value;
    TrimStartKeeps(value, value[i]);
    TrimEndKeeps(TrimStart(value), value[i]);
    NotANumber(TrimEnd(TrimStart(value)), value[i]);
  }

  lemma NotANumber(s: Bytes, b: u8)
    requires b in s && !IsDigit(b) && b != PLUS
    ensures ParseLength(s) == 0
  {
    if s[0] == PLUS {
      assert b in s[1..];
    }
  }

  lemma GivesAnnounces(line: Bytes, n: nat)
    requires Gives(line, n) && n < U32_SIZE
    ensures AnnouncedLength(line) == Some(n)
  {
    hide LengthField, Unreadable, AnnouncedLength;
    if LengthField(line, n) {
      LengthFieldAnnounces(line, n);
    } else {
      UnreadableAnnouncesZero(line);
    }
  }

  lemma OtherFieldAnnouncesNothing(line: Bytes)
    requires OtherField(line)
    ensures AnnouncedLength(line) == None
  {
    hide NamesLength, EqIgnoreAsciiCase;
    var colon := IndexOf(line, COLON);
    if colon < |line| {
      assert line == line[..colon] + [COLON] + line[colon + 1..];
      LettersInEitherCase(line[..colon]);
    }
  }

  /** The loop over the header lines finds the length the fields give. */
  lemma {:induction false} SaysIsContentLength(fields: seq<Bytes>, n: nat)
    requires Says(fields, n) && n < U32_SIZE
    ensures ContentLength(fields) == n
  {
    hide Gives, OtherField, AnnouncedLength;
    if fields != [] {
      var before := Init(fields);
      if Gives(Last(fields), n) {
        GivesAnnounces(Last(fields), n);
      } else {
        assert OtherField(fields[|fields| - 1]);
        OtherFieldAnnouncesNothing(Last(fields));
        SaysWithoutLast(fields, n);
        SaysIsContentLength(before, n);
      }
    }
  }

  lemma SaysWithoutLast(fields: seq<Bytes>, n: nat)
    requires fields != [] && Says(fields, n) && !Gives(Last(fields), n)
    ensures OtherField(Last(fields)) && Says(Init(fields), n)
  {
    hide Gives, OtherField;
    if !(n == 0 && forall i :: 0 <= i < |fields| ==> OtherField(fields[i])) {
      var k :| 0 <= k < |fields| && Gives(fields[k], n) && forall i :: k < i < |fields| ==> OtherField(fields[i]);
      assert k != |fields| - 1;
      assert Gives(Init(fields)[k], n);
    }
  }

  lemma VersionStartsWithSpace()
    ensures HTTP_VERSION != [] && HTTP_VERSION[0] == SPACE
  {}

  lemma PathSplits(path: Bytes, version: Bytes)
    requires SPACE !in path && version != [] && version[0] == SPACE
    ensures IndexOf(path + version, SPACE) == |path| && (path + version)[..|path|] == path
  {
    hide IndexOf;
    FirstAfter(path, SPACE, version[1..]);
    assert version == [SPACE] + version[1..];
    assert path + version == path + [SPACE] + version[1..];
  }

  lemma RequestLineSplits(verb: Bytes, path: Bytes)
    requires Plain(verb) && Plain(path)
    ensures var line := RequestLine(verb, path);
            && CR !in line && IndexOf(line, SPACE) == |verb| < |line|
            && line[..|verb|] == verb
            && line[|verb| + 1..][..IndexOf(line[|verb| + 1..], SPACE)] == path
  {
    hide IndexOf;
    var line := RequestLine(verb, path);
    assert SPACE !in verb;
    assert line == verb + [SPACE] + (path + HTTP_VERSION);
    FirstAfter(verb, SPACE, path + HTTP_VERSION);
    assert line[|verb| + 1..] == path + HTTP_VERSION;
    VersionStartsWithSpace();
    PathSplits(path, HTTP_VERSION);
  }

  /** A request whose fields are on lines of their own and give its body's length. */
  ghost predicate WellFormed(verb: Bytes, path: Bytes, fields: seq<Bytes>, body: Bytes) {
    Plain(verb) && Plain(path) && HeaderLines(fields) && |body| < U32_SIZE && Says(fields, |body|)
  }

  /** Its head, taken apart again. */
  lemma HeadIsRead(verb: Bytes, path: Bytes, fields: seq<Bytes>, body: Bytes)
    requires WellFormed(verb, path, fields, body)
    ensures var head := Head(verb, path, fields);
            && FindHeadersEnd(PrintRequest(verb, path, fields, body), 0) == Some(|head|)
            && Lines(head) == [RequestLine(verb, path)] + fields && ContentLength(Lines(head)[1..]) == |body|
  {
    hide Lines, FindHeadersEnd, IndexOf, ContentLength, Joined, RequestLine;
    var first := RequestLine(verb, path);
    var lines := [first] + fields;
    RequestLineSplits(verb, path);
    HeadersEndAfterJoined(lines, body);
    LinesOfJoined(lines);
    assert lines[1..] == fields;
    SaysIsContentLength(fields, |body|);
  }

  /** Every request that fits the buffer, whatever its other header fields, is parsed back into what was sent. */
  lemma PrintedRequestParses(utf8: Bytes -> bool, verb: Bytes, path: Bytes, fields: seq<Bytes>, body: Bytes)
    requires WellFormed(verb, path, fields, body) && utf8(Head(verb, path, fields))
    requires |PrintRequest(verb, path, fields, body)| <= MAX_REQUEST
    ensures TryParse(utf8, PrintRequest(verb, path, fields, body)) == Complete(HttpRequest(verb, path, body))
  {
    hide RequestLine, Lines, FindHeadersEnd, IndexOf, ContentLength, Head;
    var buf, head := PrintRequest(verb, path, fields, body), Head(verb, path, fields);
    RequestLineSplits(verb, path);
    HeadIsRead(verb, path, fields, body);
    assert buf[..|head|] == head && buf[|head| + 4..] == body;
  }

  // ----- A request longer than the buffer ------------------------------------

  /** A full buffer is left undecided exactly when it announces a request that ends one to four bytes past it. */
  lemma FullBufferUndecidedIff(utf8: Bytes -> bool, buf: Bytes)
    requires |buf| == MAX_REQUEST
    ensures TryParse(utf8, buf).Incomplete? <==>
            exists headersEnd: nat, length: nat :: Announces(utf8, buf, headersEnd, length) && 1 <= headersEnd + 4 + length - MAX_REQUEST <= 4
  {
    hide Lines, IndexOf, ContentLength;
    if TryParse(utf8, buf).Incomplete? {
      var headersEnd := FindHeadersEnd(buf, 0).value;
      assert Announces(utf8, buf, headersEnd, ContentLength(Lines(buf[..headersEnd])[1..]));
    }
  }

  /** The headers end there, make a request line, and announce a body of that length. */
  ghost predicate Announces(utf8: Bytes -> bool, buf: Bytes, headersEnd: nat, length: nat) {
    && FindHeadersEnd(buf, 0) == Some(headersEnd) && utf8(buf[..headersEnd])
    && SPACE in Lines(buf[..headersEnd])[0]
    && ContentLength(Lines(buf[..headersEnd])[1..]) == length
  }

  /** A prefix has its headers end where the whole has it, if the blank line is in it. */
  lemma HeadersEndInPrefix(buf: Bytes, n: nat)
    requires n <= |buf| && FindHeadersEnd(buf, 0).Some?
    ensures var h := FindHeadersEnd(buf, 0).value;
            FindHeadersEnd(buf[..n], 0) == if h + 4 <= n then Some(h) else None
  {
    var h, r := FindHeadersEnd(buf, 0).value, FindHeadersEnd(buf[..n], 0);
    assert buf[..n] + buf[n..] == buf;
    if r.Some? {
      BlankLineStays(buf[..n], buf[n..], r.value);
      assert r.value >= h;
    }
    if h + 4 <= n {
      BlankLineStays(buf[..n], buf[n..], h);
    }
  }

  /** What the parser makes of the first 2048 bytes of a longer request. */
  lemma LongRequestOutcome(utf8: Bytes -> bool, verb: Bytes, path: Bytes, fields: seq<Bytes>, body: Bytes)
    requires WellFormed(verb, path, fields, body) && utf8(Head(verb, path, fields))
    requires |PrintRequest(verb, path, fields, body)| > MAX_REQUEST
    ensures TryParse(utf8, PrintRequest(verb, path, fields, body)[..MAX_REQUEST])
            == if |Head(verb, path, fields)| + 4 <= MAX_REQUEST && |PrintRequest(verb, path, fields, body)| <= MAX_REQUEST + 4 then Incomplete else Bad
  {
    hide RequestLine, Lines, FindHeadersEnd, IndexOf, ContentLength, Head;
    var whole, head := PrintRequest(verb, path, fields, body), Head(verb, path, fields);
    RequestLineSplits(verb, path);
    HeadIsRead(verb, path, fields, body);
    HeadersEndInPrefix(whole, MAX_REQUEST);
    if |head| + 4 <= MAX_REQUEST {
      assert whole[..MAX_REQUEST][..|head|] == head;
    }
  }

  /** A well-formed request gets an answer if and only if it is at most 2048 bytes long. */
  lemma RequestServedIff(utf8: Bytes -> bool, verb: Bytes, path: Bytes, fields: seq<Bytes>, body: Bytes)
    requires WellFormed(verb, path, fields, body) && utf8(Head(verb, path, fields))
    ensures Decision(utf8, PrintRequest(verb, path, fields, body))
            == if |PrintRequest(verb, path, fields, body)| <= MAX_REQUEST then Some(HttpRequest(verb, path, body)) else None
  {
    hide PrintRequest, Head, TryParse;
    var whole := PrintRequest(verb, path, fields, body);
    if |whole| <= MAX_REQUEST {
      assert whole[..|whole|] == whole;
      PrintedRequestParses(utf8, verb, path, fields, body);
    } else {
      LongRequestOutcome(utf8, verb, path, fields, body);
    }
  }
}
