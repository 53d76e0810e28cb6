/** Header lookup, the answers the server sends and the events it broadcasts. */
module Responses {
  import opened Domain
  import opened Octets
  import opened PacketParser
  import opened PacketPrinter
  import Decimal
  import Base64
  import WebSocketAccept

  // ---------- Header lookup ----------

  /** Text without the white space at its end. */
  function TrimEnd(s: string): (r: string)
    ensures r <= s && (r != "" ==> !IsSpace(r[|r| - 1]))
  {
    if s != "" && IsSpace(s[|s| - 1]) then TrimEnd(s[..|s| - 1]) else s
  }

  function Trimmed(s: string): string {
    TrimEnd(DropSpaces(s))
  }

  predicate AllSpace(s: string) {
    forall i :: 0 <= i < |s| ==> IsSpace(s[i])
  }

  /** What is left is the text between white space at its ends, and has none at its own. */
  ghost predicate IsTrimOf(r: string, s: string, i: nat, j: nat) {
    && i <= j <= |s| && r == s[i..j] && AllSpace(s[..i]) && AllSpace(s[j..])
    && (i < j ==> !IsSpace(s[i]) && !IsSpace(s[j - 1]))
  }

  lemma TrimmedMeans(s: string)
    ensures exists i, j :: IsTrimOf(Trimmed(s), s, i, j)
  {
    hide AllSpace, TrimEnd, DropSpaces;
    var t := DropSpaces(s);
    var i := |s| - |t|;
    var j := i + |Trimmed(s)|;
    DroppedIsSpace(s);
    TrimmedOffIsSpace(t);
    assert t == s[i..] && t[|Trimmed(s)|..] == s[j..] && t[..|Trimmed(s)|] == s[i..j];
    assert IsTrimOf(Trimmed(s), s, i, j);
  }

  lemma {:induction false} DroppedIsSpace(s: string)
    ensures AllSpace(s[..|s| - |DropSpaces(s)|])
  {
    if s == "" || !IsSpace(s[0]) {
    } else {
      DroppedIsSpace(s[1..]);
      var n := |s| - |DropSpaces(s)|;
      assert s[..n] == [s[0]] + s[1..][..n - 1];
    }
  }

  lemma {:induction false} TrimmedOffIsSpace(s: string)
    ensures AllSpace(s[|TrimEnd(s)|..])
  {
    if s == "" || !IsSpace(s[|s| - 1]) {
      assert s[|TrimEnd(s)|..] == "";
    } else {
      TrimmedOffIsSpace(s[..|s| - 1]);
      assert s[|TrimEnd(s)|..] == s[..|s| - 1][|TrimEnd(s)|..] + [s[|s| - 1]];
    }
  }

  method Trim(text: string) returns (r: string)
    ensures r == Trimmed(text)
  {
    hide TrimEnd;
    var begin := 0;
    while begin < |text| && IsSpace(text[begin])
      invariant begin <= |text| && DropSpaces(text[begin..]) == DropSpaces(text)
    {
      assert text[begin..][1..] == text[begin + 1..];
      begin := begin + 1;
    }
    assert DropSpaces(text) == text[begin..];
    r := TrimBack(text, begin);
  }

  /** The second loop of the trim. */
  method TrimBack(text: string, begin: nat) returns (r: string)
    requires begin <= |text|
    ensures r == TrimEnd(text[begin..])
  {
    var end := |text|;
    assert text[begin..end] == text[begin..];
    while end > begin && IsSpace(text[end - 1])
      invariant begin <= end <= |text| && TrimEnd(text[begin..end]) == TrimEnd(text[begin..])
    {
      assert text[begin..end][..end - 1 - begin] == text[begin..end - 1];
      end := end - 1;
    }
    r := text[begin..end];
  }

  /** What std::getline reads: up to the next line feed. */
  function Line(s: string): (line: string)
    ensures line <= s && '\n' !in line
    ensures |line| < |s| ==> s[|line|] == '\n'
  {
    if s == "" || s[0] == '\n' then "" else [s[0]] + Line(s[1..])
  }

  /** The text behind the line and its line feed. */
  function Behind(s: string): (rest: string)
    ensures s != "" ==> |rest| < |s|
  {
    if |Line(s)| < |s| then s[|Line(s)| + 1..] else ""
  }

  function WithoutReturn(line: string): string {
    if line != "" && line[|line| - 1] == '\r' then line[..|line| - 1] else line
  }

  /** The value of a header line when its name is the key, in any case. */
  function LineValue(line: string, key: string): Option<string> {
    match IndexOf(line, ":")
    case None => None
    case Some(colon) => if LowerAll(Trimmed(line[..colon])) == LowerAll(key) then Some(Trimmed(line[colon + 1..])) else None
  }

  /** The value of the first line with the key, or nothing. */
  function HeaderValue(headers: string, key: string): string
    decreases |headers|
  {
    if headers == "" then "" else
    match LineValue(WithoutReturn(Line(headers)), key)
    case Some(value) => value
    case None => HeaderValue(Behind(headers), key)
  }

  method GetHeaderValue(headers: string, key: string) returns (value: string)
    ensures value == HeaderValue(headers, key)
  {
    hide Line, IndexOf, Trimmed, LowerAll;
    var target := LowerAll(key);
    var stream := headers;
    while stream != ""
      invariant HeaderValue(stream, key) == HeaderValue(headers, key)
      decreases |stream|
    {
      var line := WithoutReturn(Line(stream));
      var next := Behind(stream);
      var colon := IndexOf(line, ":");
      if colon.Some? {
        var name := Trim(line[..colon.value]);
        if LowerAll(name) == target {
          value := Trim(line[colon.value + 1..]);
          return;
        }
      }
      stream := next;
    }
    return "";
  }

  /** The key of a request that may be upgraded: the headers ask for it and bring a key. */
  function UpgradeKey(headers: string): Option<string> {
    var key := Trimmed(HeaderValue(headers, "Sec-WebSocket-Key"));
    if LowerAll(HeaderValue(headers, "Upgrade")) != "websocket"
       || IndexOf(LowerAll(HeaderValue(headers, "Connection")), "upgrade").None? || key == ""
    then None else Some(key)
  }

  method ReadUpgradeKey(headers: string) returns (key: Option<string>)
    ensures key == UpgradeKey(headers)
  {
    hide HeaderValue, Trimmed, LowerAll, IndexOf;
    var upgrade := GetHeaderValue(headers, "Upgrade");
    var connection := GetHeaderValue(headers, "Connection");
    var value := GetHeaderValue(headers, "Sec-WebSocket-Key");
    var trimmed := Trim(value);
    if LowerAll(upgrade) != "websocket" || IndexOf(LowerAll(connection), "upgrade").None? || trimmed == "" {
      return None;
    }
    return Some(trimmed);
  }

  // ---------- Answers ----------

  datatype HttpResponse = HttpResponse(statusCode: nat, body: string, contentType: string)

  function StatusText(statusCode: nat): string {
    if statusCode == 200 then "OK"
    else if statusCode == 202 then "Accepted"
    else if statusCode == 400 then "Bad Request"
    else if statusCode == 404 then "Not Found"
    else "Internal Server Error"
  }

  function StatusLine(response: HttpResponse): string {
    "HTTP/1.1 " + Decimal.Print(response.statusCode) + " " + StatusText(response.statusCode)
  }

  /** BuildRawResponse. */
  function RawResponse(response: HttpResponse): string {
    StatusLine(response) + ("\r\n"
    + ("Content-Type: " + response.contentType + ("\r\n"
    + ("Content-Length: " + Decimal.Print(|response.body|) + ("\r\n"
    + ("Connection: close" + ("\r\n\r\n" + response.body)))))))
  }

  const INVALID_REQUEST := HttpResponse(400, "{\"error\":\"invalid HTTP request\"}", "application/json")
  const INVALID_UPGRADE := HttpResponse(400, "{\"error\":\"invalid websocket upgrade\"}", "application/json")

  /** A header line as it is sent. */
  function Header(name: string, value: string): string {
    name + ": " + value + "\r\n"
  }

  const STATUS_101 := "HTTP/1.1 101 Switching Protocols"

  /** The answer that accepts an upgrade. */
  function SwitchingProtocols(key: string): string {
    STATUS_101 + "\r\n" + (Header("Upgrade", "websocket") + (Header("Connection", "Upgrade")
    + (Header("Sec-WebSocket-Accept", WebSocketAccept.Accept(Bytes(key))) + "\r\n")))
  }

  method AnswerUpgrade(key: string) returns (response: string)
    ensures response == SwitchingProtocols(key)
  {
    hide Header, WebSocketAccept.Accept;
    var accept := WebSocketAccept.BuildWebSocketAccept(Bytes(key));
    response := STATUS_101 + "\r\n" + (Header("Upgrade", "websocket") + (Header("Connection", "Upgrade")
      + (Header("Sec-WebSocket-Accept", accept) + "\r\n")));
  }

  // ---------- A sent header is found again ----------

  lemma {:induction false} LineOf(line: string, rest: string)
    requires '\n' !in line
    ensures Line(line + "\n" + rest) == line && Behind(line + "\n" + rest) == rest
  {
    var text := line + "\n" + rest;
    if line == "" {
      assert text[1..] == rest;
    } else {
      LineOf(line[1..], rest);
      assert text[1..] == line[1..] + "\n" + rest && line == [line[0]] + line[1..];
      assert text[|line| + 1..] == rest;
    }
  }

  lemma {:induction false} ColonAt(name: string, behind: string)
    requires ':' !in name
    ensures IndexOf(name + ":" + behind, ":") == Some(|name|)
  {
    var text := name + ":" + behind;
    if name == "" {
      assert ":" <= text;
    } else {
      assert text[0] == name[0] && text[1..] == name[1..] + ":" + behind;
      ColonAt(name[1..], behind);
    }
  }

  /** A name or value without white space at its ends. */
  predicate Tight(s: string) {
    s != "" && !IsSpace(s[0]) && !IsSpace(s[|s| - 1])
  }

  lemma TightIsTrimmed(s: string)
    requires Tight(s)
    ensures Trimmed(s) == s && Trimmed(" " + s) == s
  {
    assert (" " + s)[1..] == s;
    assert DropSpaces(" " + s) == DropSpaces(s);
  }

  /** A search for a header passes over the lines of other headers and ends at its own. */
  lemma HeaderIsFound(name: string, value: string, rest: string, key: string)
    requires Tight(name) && Tight(value) && ':' !in name && '\n' !in name && '\n' !in value
    ensures HeaderValue(Header(name, value) + rest, key) ==
            if LowerAll(name) == LowerAll(key) then value else HeaderValue(rest, key)
  {
    hide Line, IndexOf, Trimmed, LowerAll, Behind, Tight;
    var line := name + ":" + (" " + value);
    assert Header(name, value) + rest == (line + "\r") + "\n" + rest;
    LineOf(line + "\r", rest);
    assert WithoutReturn(line + "\r") == line;
    ColonAt(name, " " + value);
    TightIsTrimmed(name);
    TightIsTrimmed(value);
    assert line[..|name|] == name && line[|name| + 1..] == " " + value;
  }

  lemma {:induction false} NoColon(line: string)
    requires ':' !in line
    ensures IndexOf(line, ":") == None
  {
    if line == "" {
    } else {
      assert line[0] in line && !(":" <= line);
      NoColon(line[1..]);
    }
  }

  /** A line without a colon is passed over. */
  lemma PlainLineIsPassed(line: string, rest: string, key: string)
    requires ':' !in line && '\n' !in line
    ensures HeaderValue(line + "\r\n" + rest, key) == HeaderValue(rest, key)
  {
    hide Line, Behind, IndexOf;
    assert line + "\r\n" + rest == (line + "\r") + "\n" + rest;
    LineOf(line + "\r", rest);
    assert WithoutReturn(line + "\r") == line;
    NoColon(line);
  }

  lemma StatusLineHasNoColon()
    ensures ':' !in STATUS_101 && '\n' !in STATUS_101
  {
  }

  /** Looking the headers up in the answer gives an upgrade to websocket and the accept value of the key. */
  lemma AnswerCarriesAccept(key: string)
    ensures "HTTP/1.1 101 " <= SwitchingProtocols(key)
    ensures HeaderValue(SwitchingProtocols(key), "Upgrade") == "websocket"
    ensures HeaderValue(SwitchingProtocols(key), "Connection") == "Upgrade"
    ensures HeaderValue(SwitchingProtocols(key), "Sec-WebSocket-Accept") == WebSocketAccept.Accept(Bytes(key))
  {
    hide HeaderValue, WebSocketAccept.Accept, LowerAll;
    StatusStarts();
    AnswerLookUp(key, "Upgrade");
    AnswerLookUp(key, "Connection");
    AnswerLookUp(key, "Sec-WebSocket-Accept");
    assert |LowerAll("Upgrade")| == 7 && |LowerAll("Connection")| == 10 && |LowerAll("Sec-WebSocket-Accept")| == 20;
  }

  lemma StatusStarts()
    ensures "HTTP/1.1 101 " <= STATUS_101
  {
  }

  lemma AnswerLookUp(key: string, name: string)
    ensures HeaderValue(SwitchingProtocols(key), name) ==
            if LowerAll("Upgrade") == LowerAll(name) then "websocket"
            else if LowerAll("Connection") == LowerAll(name) then "Upgrade"
            else if LowerAll("Sec-WebSocket-Accept") == LowerAll(name) then WebSocketAccept.Accept(Bytes(key))
            else HeaderValue("\r\n", name)
  {
    hide HeaderValue, WebSocketAccept.Accept, LowerAll, Header;
    var accept := WebSocketAccept.Accept(Bytes(key));
    AcceptIsTight(key);
    var last := Header("Sec-WebSocket-Accept", accept) + "\r\n";
    var connection := Header("Connection", "Upgrade") + last;
    StatusLineHasNoColon();
    PlainLineIsPassed(STATUS_101, Header("Upgrade", "websocket") + connection, name);
    HeaderIsFound("Upgrade", "websocket", connection, name);
    HeaderIsFound("Connection", "Upgrade", last, name);
    HeaderIsFound("Sec-WebSocket-Accept", accept, "\r\n", name);
  }

  lemma AcceptIsTight(key: string)
    ensures Tight(WebSocketAccept.Accept(Bytes(key))) && '\n' !in WebSocketAccept.Accept(Bytes(key))
  {
    hide Base64.Encode, WebSocketAccept.DigestOfKey;
    WebSocketAccept.AcceptShape(Bytes(key));
    Base64.EncodedCharacters(WebSocketAccept.Unsigned(WebSocketAccept.DigestOfKey(Bytes(key))));
  }

  // ---------- Events ----------

  const INGESTED := "telemetry.ingested"
  const REJECTED := "ingest.rejected"

  function TxHashOf(result: IngestResult): string {
    if result.receipt.Some? then result.receipt.value.txHash else ""
  }

  function EventFields(packet: TelemetryPacket, result: IngestResult): seq<Field> {
    if result.accepted then
      [Raw("type", Quoted(INGESTED)), Text("deviceId", packet.deviceId), Number("recordId", result.recordId),
       Number("timestamp", packet.timestamp), Text("transport", packet.transport),
       Text("txHash", TxHashOf(result))]
    else
      [Raw("type", Quoted(REJECTED)), Text("deviceId", packet.deviceId), Text("message", result.message)]
  }

  /** The event a call is announced with. */
  function EventText(packet: TelemetryPacket, result: IngestResult): string {
    "{" + FieldsText(EventFields(packet, result)) + "}"
  }

  method EventToJson(packet: TelemetryPacket, result: IngestResult) returns (body: string)
    ensures body == EventText(packet, result)
  {
    hide FieldsText;
    ghost var fs;
    if result.accepted {
      body, fs := PutAccepted(packet, result);
    } else {
      body, fs := PutRejected(packet, result);
    }
    body := body + "}";
  }

  method PutAccepted(packet: TelemetryPacket, result: IngestResult) returns (body: string, ghost fs: seq<Field>)
    requires result.accepted
    ensures fs == EventFields(packet, result) && body == "{" + FieldsText(fs)
  {
    assert "{" + FieldsText([]) == "{";
    hide FieldsText, Quoted, INGESTED, REJECTED;
    ghost var done;
    body, fs := PutMember("{", Raw("type", Quoted(INGESTED)), [], false);
    body, fs := PutMember(body, Text("deviceId", packet.deviceId), fs, true);
    body, fs := PutMember(body, Number("recordId", result.recordId), fs, true);
    done := [Raw("type", Quoted(INGESTED)), Text("deviceId", packet.deviceId), Number("recordId", result.recordId)];
    assert fs == done;
    body, fs := PutAcceptedRest(body, packet, result, done);
  }

  method PutAcceptedRest(head: string, packet: TelemetryPacket, result: IngestResult, ghost done: seq<Field>)
    returns (body: string, ghost fs: seq<Field>)
    requires done != [] && head == "{" + FieldsText(done)
    ensures fs == done + [Number("timestamp", packet.timestamp), Text("transport", packet.transport), Text("txHash", TxHashOf(result))]
    ensures body == "{" + FieldsText(fs)
  {
    hide FieldsText;
    body, fs := PutMember(head, Number("timestamp", packet.timestamp), done, true);
    body, fs := PutMember(body, Text("transport", packet.transport), fs, true);
    body, fs := PutMember(body, Text("txHash", TxHashOf(result)), fs, true);
  }

  method PutRejected(packet: TelemetryPacket, result: IngestResult) returns (body: string, ghost fs: seq<Field>)
    requires !result.accepted
    ensures fs == EventFields(packet, result) && body == "{" + FieldsText(fs)
  {
    assert "{" + FieldsText([]) == "{";
    hide FieldsText, Quoted, INGESTED, REJECTED;
    body, fs := PutMember("{", Raw("type", Quoted(REJECTED)), [], false);
    body, fs := PutMember(body, Text("deviceId", packet.deviceId), fs, true);
    body, fs := PutMember(body, Text("message", result.message), fs, true);
  }
}
