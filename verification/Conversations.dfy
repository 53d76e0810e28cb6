/** Whole exchanges: what a client that writes a request gets, and what it can read in the answer. */
module Conversations {
  import opened Domain
  import opened Octets
  import opened PacketParser
  import opened RoundTrip
  import opened RequestReader
  import opened Requests
  import opened Sending
  import opened Responses
  import opened Descriptors
  import Decimal
  import FieldForms
  import WebSocketAccept

  // ---------- Header fields ----------

  datatype HeaderField = HeaderField(name: string, value: string)

  predicate GoodField(f: HeaderField) {
    && Tight(f.name) && ':' !in f.name && '\r' !in f.name && '\n' !in f.name
    && Tight(f.value) && '\r' !in f.value && '\n' !in f.value
  }

  function Lines(fields: seq<HeaderField>): (lines: seq<string>)
    ensures |lines| == |fields|
  {
    seq(|fields|, i requires 0 <= i < |fields| => fields[i].name + ": " + fields[i].value)
  }

  function HeadersText(fields: seq<HeaderField>): string {
    JoinLines(Lines(fields))
  }

  /** The value of the first field with the name, in any case. */
  function LookUp(fields: seq<HeaderField>, name: string): string {
    if fields == [] then ""
    else if LowerAll(fields[0].name) == LowerAll(name) then fields[0].value
    else LookUp(fields[1..], name)
  }

  lemma {:induction false} WholeLine(s: string)
    requires '\n' !in s
    ensures Line(s) == s && Responses.Behind(s) == ""
  {
    if s == "" {
    } else {
      assert s[0] in s;
      WholeLine(s[1..]);
      assert s == [s[0]] + s[1..];
    }
  }

  lemma LastHeaderIsFound(f: HeaderField, key: string)
    requires GoodField(f)
    ensures HeaderValue(f.name + ": " + f.value, key) == if LowerAll(f.name) == LowerAll(key) then f.value else ""
  {
    hide Line, IndexOf, Trimmed, LowerAll, Responses.Behind, Tight;
    var line := f.name + ":" + (" " + f.value);
    assert line == f.name + ": " + f.value;
    WholeLine(line);
    NoReturnAtEnd(f);
    ColonAt(f.name, " " + f.value);
    TightIsTrimmed(f.name);
    TightIsTrimmed(f.value);
    assert line[..|f.name|] == f.name && line[|f.name| + 1..] == " " + f.value;
    NothingBehind(key);
  }

  lemma NoReturnAtEnd(f: HeaderField)
    requires GoodField(f)
    ensures WithoutReturn(f.name + ":" + (" " + f.value)) == f.name + ":" + (" " + f.value)
  {
    var line := f.name + ":" + (" " + f.value);
    assert line[|line| - 1] == f.value[|f.value| - 1];
  }

  lemma NothingBehind(key: string)
    ensures HeaderValue("", key) == ""
  {
  }

  /** The server's lookup in written headers finds the first field with the name. */
  lemma {:induction false} LookUpIsRead(fields: seq<HeaderField>, key: string)
    requires forall i :: 0 <= i < |fields| ==> GoodField(fields[i])
    ensures HeaderValue(HeadersText(fields), key) == LookUp(fields, key)
  {
    hide HeaderValue, LowerAll, GoodField;
    if fields == [] {
      NothingBehind(key);
    } else if |fields| == 1 {
      LastHeaderIsFound(fields[0], key);
    } else {
      var f, rest := fields[0], HeadersText(fields[1..]);
      assert Lines(fields)[1..] == Lines(fields[1..]);
      assert HeadersText(fields) == Header(f.name, f.value) + rest;
      FieldIsGood(f);
      HeaderIsFound(f.name, f.value, rest, key);
      LookUpIsRead(fields[1..], key);
    }
  }

  lemma FieldIsGood(f: HeaderField)
    requires GoodField(f)
    ensures Tight(f.name) && Tight(f.value) && ':' !in f.name && '\n' !in f.name && '\n' !in f.value
    ensures GoodLine(f.name + ": " + f.value)
  {
    var line := f.name + ": " + f.value;
    assert forall c :: c in line ==> c in f.name || c in ": " || c in f.value;
    assert '\r' !in ": " && '\n' !in ": ";
  }

  lemma LinesAreGood(fields: seq<HeaderField>)
    requires forall i :: 0 <= i < |fields| ==> GoodField(fields[i])
    ensures forall i :: 0 <= i < |fields| ==> GoodLine(Lines(fields)[i])
  {
    hide GoodField, GoodLine;
    forall i | 0 <= i < |fields| ensures GoodLine(Lines(fields)[i]) {
      FieldIsGood(fields[i]);
    }
  }

  // ---------- Answers ----------

  function ResponseFields(response: HttpResponse): seq<HeaderField> {
    [HeaderField("Content-Type", response.contentType), HeaderField("Content-Length", Decimal.Print(|response.body|)),
     HeaderField("Connection", "close")]
  }

  lemma ResponseLayout(response: HttpResponse)
    ensures RawResponse(response) ==
            JoinLines([StatusLine(response)] + Lines(ResponseFields(response))) + (BLANK_LINE + response.body)
  {
    hide JoinLines, StatusLine, Decimal.Print;
    var a, b, c, d := StatusLine(response), "Content-Type: " + response.contentType,
                      "Content-Length: " + Decimal.Print(|response.body|), "Connection: close";
    LinesOfResponse(response);
    FourLines(a, b, c, d);
    FourLinesAppend(a, b, c, d, "\r\n", BLANK_LINE + response.body);
  }

  lemma LinesOfResponse(response: HttpResponse)
    ensures Lines(ResponseFields(response)) ==
            ["Content-Type: " + response.contentType, "Content-Length: " + Decimal.Print(|response.body|), "Connection: close"]
  {
    hide Decimal.Print;
    assert "Content-Type" + ": " == "Content-Type: " && "Content-Length" + ": " == "Content-Length: ";
    assert "Connection" + ": " + "close" == "Connection: close";
  }

  lemma FourLines(a: string, b: string, c: string, d: string)
    ensures JoinLines([a] + [b, c, d]) == a + "\r\n" + (b + "\r\n" + (c + "\r\n" + d))
  {
    assert [a] + [b, c, d] == [a, b, c, d];
    assert [c, d][1..] == [d] && JoinLines([c, d]) == c + "\r\n" + d;
    assert [b, c, d][1..] == [c, d] && JoinLines([b, c, d]) == b + "\r\n" + (c + "\r\n" + d);
    assert [a, b, c, d][1..] == [b, c, d];
  }

  lemma FourLinesAppend(a: string, b: string, c: string, d: string, e: string, x: string)
    ensures (a + e + (b + e + (c + e + d))) + x == a + (e + (b + (e + (c + (e + (d + x))))))
  {
  }

  lemma ResponseFieldsAreGood(response: HttpResponse)
    requires Tight(response.contentType) && '\r' !in response.contentType && '\n' !in response.contentType
    ensures forall i :: 0 <= i < 3 ==> GoodField(ResponseFields(response)[i])
  {
    hide Tight, Decimal.Print;
    ResponseNamesAreGood();
    NumberIsGood(|response.body|);
  }

  /** Text without colons and line ends. */
  predicate PlainText(s: string) {
    Tight(s) && ':' !in s && '\r' !in s && '\n' !in s
  }

  lemma ResponseNamesAreGood()
    ensures PlainText("Content-Type") && PlainText("Content-Length") && PlainText("Connection") && PlainText("close")
  {
    hide PlainText;
    ContentNamesAreGood();
    ConnectionIsGood();
  }

  lemma ContentNamesAreGood()
    ensures PlainText("Content-Type") && PlainText("Content-Length")
  {
  }

  lemma ConnectionIsGood()
    ensures PlainText("Connection") && PlainText("close")
  {
  }

  lemma NumberIsGood(n: nat)
    ensures PlainText(Decimal.Print(n))
  {
    var number := Decimal.Print(n);
    assert forall i :: 0 <= i < |number| ==> Decimal.IsDigit(number[i]);
  }

  lemma StatusLineIsGood(response: HttpResponse)
    ensures GoodLine(StatusLine(response)) && ':' !in StatusLine(response)
  {
    var number := Decimal.Print(response.statusCode);
    assert forall i :: 0 <= i < |number| ==> Decimal.IsDigit(number[i]);
    var a, b := "HTTP/1.1 ", StatusText(response.statusCode);
    assert forall c :: c in StatusLine(response) ==> c in a || c in number || c in " " || c in b;
    PartsAreGood(response.statusCode);
  }

  /** The status lines of the codes the gateway answers with. */
  lemma StatusLines(response: HttpResponse)
    ensures response.statusCode == 200 ==> StatusLine(response) == "HTTP/1.1 200 OK"
    ensures response.statusCode == 202 ==> StatusLine(response) == "HTTP/1.1 202 Accepted"
    ensures response.statusCode == 400 ==> StatusLine(response) == "HTTP/1.1 400 Bad Request"
    ensures response.statusCode == 404 ==> StatusLine(response) == "HTTP/1.1 404 Not Found"
  {
    PrintedCodes();
    hide Decimal.Print;
    assert response.statusCode == 200 ==> "HTTP/1.1 " + "200" + " " + "OK" == "HTTP/1.1 200 OK";
    assert response.statusCode == 202 ==> "HTTP/1.1 " + "202" + " " + "Accepted" == "HTTP/1.1 202 Accepted";
    assert response.statusCode == 400 ==> "HTTP/1.1 " + "400" + " " + "Bad Request" == "HTTP/1.1 400 Bad Request";
    assert response.statusCode == 404 ==> "HTTP/1.1 " + "404" + " " + "Not Found" == "HTTP/1.1 404 Not Found";
  }

  lemma PrintedCodes()
    ensures Decimal.Print(200) == "200" && Decimal.Print(202) == "202" && Decimal.Print(400) == "400" && Decimal.Print(404) == "404"
  {
    assert Decimal.Print(20) == "20" && Decimal.Print(40) == "40";
  }

  lemma PartsAreGood(code: nat)
    ensures forall c :: c in "HTTP/1.1 " || c in StatusText(code) ==> c != ':' && c != '\r' && c != '\n'
  {
  }

  /**
    A client that reads an answer finds the end of the headers, the content type, the length of the
    body under Content-Length, and behind the headers the body.
   */
  lemma ResponseIsRead(response: HttpResponse)
    requires Tight(response.contentType) && '\r' !in response.contentType && '\n' !in response.contentType
    ensures
      var text := RawResponse(response);
      var end := IndexOf(text, BLANK_LINE);
      && end.Some? && StatusLine(response) <= text
      && HeaderValue(text[..end.value], "Content-Type") == response.contentType
      && HeaderValue(text[..end.value], "Content-Length") == Decimal.Print(|response.body|)
      && text[end.value + 4..] == response.body
  {
    hide HeaderValue, GoodLine, GoodField, StatusLine, NoTokenIn, IndexOf, LowerAll;
    var fs, line, text := ResponseFields(response), StatusLine(response), RawResponse(response);
    var lines := [line] + Lines(fs);
    ResponseLayout(response);
    ResponseFieldsAreGood(response);
    StatusLineIsGood(response);
    LinesAreGood(fs);
    NoBlankLineInside(lines, response.body);
    var block := JoinLines(lines);
    FoundBehind(block, BLANK_LINE, response.body);
    assert text[..|block|] == block && text[|block| + 4..] == response.body;
    assert lines[1..] == Lines(fs) && block == line + "\r\n" + HeadersText(fs);
    GoodLineParts(line);
    PlainLineIsPassed(line, HeadersText(fs), "Content-Type");
    PlainLineIsPassed(line, HeadersText(fs), "Content-Length");
    LookUpIsRead(fs, "Content-Type");
    LookUpIsRead(fs, "Content-Length");
    ResponseLookUp(response);
  }

  lemma GoodLineParts(line: string)
    requires GoodLine(line)
    ensures line != "" && '\r' !in line && '\n' !in line
  {
  }

  lemma ResponseLookUp(response: HttpResponse)
    ensures LookUp(ResponseFields(response), "Content-Type") == response.contentType
    ensures LookUp(ResponseFields(response), "Content-Length") == Decimal.Print(|response.body|)
  {
    hide LowerAll;
    assert |LowerAll("Content-Type")| == 12 && |LowerAll("Content-Length")| == 14;
    assert ResponseFields(response)[1..][0] == ResponseFields(response)[1];
  }

  // ---------- Handshakes ----------

  ghost predicate Contains(s: string, t: string) {
    exists i :: 0 <= i <= |s| && t <= s[i..]
  }

  lemma {:induction false} ContainsIsFound(s: string, t: string)
    ensures IndexOf(s, t).Some? <==> Contains(s, t)
  {
    if t <= s {
      assert s[0..] == s;
    } else if s == "" {
    } else {
      ContainsIsFound(s[1..], t);
      if i :| 0 <= i <= |s| && t <= s[i..] {
        assert i > 0 by { assert s[0..] == s; }
        assert s[1..][i - 1..] == s[i..];
      }
      if j :| 0 <= j <= |s| - 1 && t <= s[1..][j..] {
        assert s[1..][j..] == s[j + 1..];
      }
    }
  }

  /** The headers of a handshake: an upgrade to websocket, and a key. */
  ghost predicate AsksForUpgrade(fields: seq<HeaderField>) {
    && LowerAll(LookUp(fields, "Upgrade")) == "websocket"
    && Contains(LowerAll(LookUp(fields, "Connection")), "upgrade")
    && LookUp(fields, "Sec-WebSocket-Key") != ""
  }

  lemma {:induction false} LookUpIsTight(fields: seq<HeaderField>, name: string)
    requires forall i :: 0 <= i < |fields| ==> GoodField(fields[i])
    ensures LookUp(fields, name) == "" || Tight(LookUp(fields, name))
  {
    hide LowerAll;
    if fields == [] {
    } else {
      LookUpIsTight(fields[1..], name);
    }
  }

  /** The server takes a key from exactly the headers that ask for an upgrade, and it is their Sec-WebSocket-Key. */
  lemma UpgradeKeyIs(fields: seq<HeaderField>)
    requires forall i :: 0 <= i < |fields| ==> GoodField(fields[i])
    ensures UpgradeKey(HeadersText(fields)) ==
            if AsksForUpgrade(fields) then Some(LookUp(fields, "Sec-WebSocket-Key")) else None
  {
    hide HeaderValue, HeadersText, GoodField, LowerAll, IndexOf, LookUp, Contains, Trimmed;
    LookUpIsRead(fields, "Upgrade");
    LookUpIsRead(fields, "Connection");
    LookUpIsRead(fields, "Sec-WebSocket-Key");
    ContainsIsFound(LowerAll(LookUp(fields, "Connection")), "upgrade");
    LookUpIsTight(fields, "Sec-WebSocket-Key");
    if LookUp(fields, "Sec-WebSocket-Key") != "" { TightIsTrimmed(LookUp(fields, "Sec-WebSocket-Key")); }
    NothingIsTrimmed();
  }

  lemma NothingIsTrimmed()
    ensures Trimmed("") == ""
  {
  }

  /** The request is written without a body, does not announce one, and arrives in any chunks. */
  ghost predicate Arrives(chunks: seq<string>, verb: string, path: string, version: string, fields: seq<HeaderField>) {
    && Word(verb) && Word(path) && Word(version)
    && fields != [] && (forall i :: 0 <= i < |fields| ==> GoodField(fields[i]))
    && !Announces(HeaderBlock(verb, path, version, HeadersText(fields)))
    && |RequestText(verb, path, version, HeadersText(fields), "")| <= 0x10_0000
    && Received(chunks) && Joined(chunks) == RequestText(verb, path, version, HeadersText(fields), "")
  }

  /** What the server makes of a request that arrives. */
  lemma ArrivalIsParsed(chunks: seq<string>, verb: string, path: string, version: string, fields: seq<HeaderField>)
    requires Arrives(chunks, verb, path, version, fields)
    ensures Request(chunks) != "" && ParseHttpRequest(Request(chunks)) == Some(HttpRequest(verb, path, HeadersText(fields), ""))
  {
    hide Word, GoodField, GoodLine, NoTokenIn, Announces, Joined, Request, ParseHttpRequest, HeaderBlock, JoinLines, Lines;
    LinesAreGood(fields);
    LinesBringNoBlank(verb, path, version, Lines(fields), "");
    RequestWithoutBodyIsRead(chunks, verb, path, version, HeadersText(fields));
  }

  /** A path, with or without a query. */
  function WithQuery(path: string, query: Option<string>): string {
    if query.None? then path else path + ("?" + query.value)
  }

  lemma QueryIsStripped(path: string, query: Option<string>)
    requires '?' !in path
    ensures StripQuery(WithQuery(path, query)) == path
  {
    hide IndexOf, NoTokenIn;
    if query.None? {
      NoQuestionMark(path);
    } else {
      NoTokenWithoutFirst(path, "?" + query.value, "?");
      FoundBehind(path, "?", query.value);
      assert (path + ("?" + query.value))[..|path|] == path;
    }
  }

  lemma {:induction false} NoQuestionMark(path: string)
    requires '?' !in path
    ensures IndexOf(path, "?") == None
  {
    if path == "" {
    } else {
      assert path[0] in path && !("?" <= path);
      NoQuestionMark(path[1..]);
    }
  }

  lemma ChannelPaths()
    ensures '?' !in "/ws/telemetry" && '?' !in "/ws/alerts" && "/ws/telemetry" != "/ws/alerts"
  {
    assert |"/ws/telemetry"| == 13 && |"/ws/alerts"| == 10;
  }

  function PathOf(channel: Channel): string {
    if channel == Telemetry then "/ws/telemetry" else "/ws/alerts"
  }

  lemma HandshakeKind(
    chunks: seq<string>, verb: string, channel: Channel, query: Option<string>, version: string, fields: seq<HeaderField>)
    requires Arrives(chunks, verb, WithQuery(PathOf(channel), query), version, fields)
    ensures Classify(Request(chunks)) ==
            Upgrade(channel, verb == "GET",
                    if AsksForUpgrade(fields) then Some(LookUp(fields, "Sec-WebSocket-Key")) else None)
  {
    ChannelPaths();
    ArrivalIsParsed(chunks, verb, WithQuery(PathOf(channel), query), version, fields);
    QueryIsStripped(PathOf(channel), query);
    FieldsOfArrival(chunks, verb, WithQuery(PathOf(channel), query), version, fields);
    hide Request, ParseHttpRequest, StripQuery, UpgradeKey, HeadersText, GoodField, AsksForUpgrade, LookUp, Arrives, WithQuery;
    UpgradeKeyIs(fields);
  }

  lemma FieldsOfArrival(chunks: seq<string>, verb: string, path: string, version: string, fields: seq<HeaderField>)
    requires Arrives(chunks, verb, path, version, fields)
    ensures forall i :: 0 <= i < |fields| ==> GoodField(fields[i])
  {
  }

  /**
    A handshake for /ws/telemetry ends with the client at the end of the telemetry list and one for
    /ws/alerts at the end of the alert list, with or without a query and under every chunking; the
    client was sent, before it was listed, an answer in which it finds the accept value of its own key.
   */
  lemma HandshakeIsListed(
    s: State, fd: int, turn: Turn, channel: Channel, query: Option<string>, version: string, fields: seq<HeaderField>)
    requires Arrives(turn.chunks, "GET", WithQuery(if channel == Telemetry then "/ws/telemetry" else "/ws/alerts", query), version, fields)
    requires AsksForUpgrade(fields)
    requires Delivers(turn.toClient, Bytes(SwitchingProtocols(LookUp(fields, "Sec-WebSocket-Key"))))
    ensures
      var key := LookUp(fields, "Sec-WebSocket-Key");
      var after := AfterClient(s, fd, turn);
      && after.telemetry == s.telemetry + (if channel == Telemetry then [fd] else [])
      && after.alerts == s.alerts + (if channel == Telemetry then [] else [fd])
      && after.trace == s.trace + [Accepted(fd), Sent(fd, Bytes(SwitchingProtocols(key))), Listed(fd, channel)]
      && HeaderValue(SwitchingProtocols(key), "Sec-WebSocket-Accept") == WebSocketAccept.Accept(Bytes(key))
  {
    hide Arrives, Classify, RequestReader.Request, SwitchingProtocols, HeaderValue, Delivers, Delivered, Bytes, AsksForUpgrade, LookUp, WithQuery;
    var key := LookUp(fields, "Sec-WebSocket-Key");
    HandshakeKind(turn.chunks, "GET", channel, query, version, fields);
    AnswerCarriesAccept(key);
    assert s.trace + [Accepted(fd)] + [Sent(fd, Bytes(SwitchingProtocols(key)))] + [Listed(fd, channel)]
        == s.trace + [Accepted(fd), Sent(fd, Bytes(SwitchingProtocols(key))), Listed(fd, channel)];
  }

  /** A handshake without the right headers is answered 400 and closed; both lists stay as they were. */
  lemma BadHandshakeIsRefused(
    s: State, fd: int, turn: Turn, channel: Channel, query: Option<string>, version: string, fields: seq<HeaderField>)
    requires Arrives(turn.chunks, "GET", WithQuery(PathOf(channel), query), version, fields) && !AsksForUpgrade(fields)
    ensures
      var refusal := RawResponse(HttpResponse(400, "{\"error\":\"invalid websocket upgrade\"}", "application/json"));
      AfterClient(s, fd, turn) ==
      s.(trace := s.trace + [Accepted(fd), Sent(fd, Delivered(turn.toClient, Bytes(refusal))), Closed(fd)])
  {
    hide Arrives, Classify, RequestReader.Request, RawResponse, Delivers, Delivered, Bytes, AsksForUpgrade, LookUp, WithQuery;
    HandshakeKind(turn.chunks, "GET", channel, query, version, fields);
    var sent := Sent(fd, Delivered(turn.toClient, Bytes(RawResponse(INVALID_UPGRADE))));
    assert s.trace + [Accepted(fd)] + [sent] + [Closed(fd)] == s.trace + [Accepted(fd), sent, Closed(fd)];
  }

  /** Any other method on the two paths is closed without an answer. */
  lemma OtherMethodIsClosed(
    s: State, fd: int, turn: Turn, verb: string, channel: Channel, query: Option<string>, version: string, fields: seq<HeaderField>)
    requires Arrives(turn.chunks, verb, WithQuery(PathOf(channel), query), version, fields) && verb != "GET"
    ensures AfterClient(s, fd, turn) == s.(trace := s.trace + [Accepted(fd), Closed(fd)])
  {
    hide Arrives, Classify, RequestReader.Request, RawResponse, Delivers, Delivered, Bytes, AsksForUpgrade, LookUp, WithQuery;
    HandshakeKind(turn.chunks, verb, channel, query, version, fields);
    assert s.trace + [Accepted(fd)] + [Closed(fd)] == s.trace + [Accepted(fd), Closed(fd)];
  }

  /** What cannot be parsed is answered 400 and closed; a client that sends nothing is closed. */
  lemma UnparsedIsRefused(s: State, fd: int, turn: Turn)
    requires ParseHttpRequest(Request(turn.chunks)).None?
    ensures
      var refusal := RawResponse(HttpResponse(400, "{\"error\":\"invalid HTTP request\"}", "application/json"));
      AfterClient(s, fd, turn) ==
      s.(trace := s.trace + (if Request(turn.chunks) == "" then [Accepted(fd), Closed(fd)]
                             else [Accepted(fd), Sent(fd, Delivered(turn.toClient, Bytes(refusal))), Closed(fd)]))
  {
    hide ParseHttpRequest, RequestReader.Request, RawResponse, Delivers, Delivered, Bytes;
    var sent := Sent(fd, Delivered(turn.toClient, Bytes(RawResponse(INVALID_REQUEST))));
    assert s.trace + [Accepted(fd)] + [sent] + [Closed(fd)] == s.trace + [Accepted(fd), sent, Closed(fd)];
    assert s.trace + [Accepted(fd)] + [Closed(fd)] == s.trace + [Accepted(fd), Closed(fd)];
  }

  /** Every other request is routed, answered with what routing gives, and closed. */
  lemma OtherPathIsRouted(
    s: State, fd: int, turn: Turn, verb: string, path: string, query: Option<string>, version: string, fields: seq<HeaderField>)
    requires Arrives(turn.chunks, verb, WithQuery(path, query), version, fields)
    requires '?' !in path && path != "/ws/telemetry" && path != "/ws/alerts" && turn.routed.event.None?
    ensures
      AfterClient(s, fd, turn) ==
      s.(trace := s.trace + [Accepted(fd), Sent(fd, Delivered(turn.toClient, Bytes(RawResponse(turn.routed.response)))), Closed(fd)])
  {
    hide Arrives, Classify, RequestReader.Request, RawResponse, Delivers, Delivered, Bytes, WithQuery;
    OtherKind(turn.chunks, verb, path, query, version, fields);
    var sent := Sent(fd, Delivered(turn.toClient, Bytes(RawResponse(turn.routed.response))));
    assert s.trace + [Accepted(fd)] + [sent] + [Closed(fd)] == s.trace + [Accepted(fd), sent, Closed(fd)];
  }

  lemma OtherKind(chunks: seq<string>, verb: string, path: string, query: Option<string>, version: string, fields: seq<HeaderField>)
    requires Arrives(chunks, verb, WithQuery(path, query), version, fields)
    requires '?' !in path && path != "/ws/telemetry" && path != "/ws/alerts"
    ensures Classify(Request(chunks)) == Other
  {
    ArrivalIsParsed(chunks, verb, WithQuery(path, query), version, fields);
    QueryIsStripped(path, query);
    hide Arrives, ParseHttpRequest, StripQuery, RequestReader.Request, WithQuery, HeadersText, UpgradeKey;
  }
}
