/**
  The hand-written packet reader: three kinds of field extraction and the parser built on them.
  A regular expression search is modelled as the leftmost suffix of the text that the pattern
  matches at its start; every pattern here has at most one match at a given start.
*/
module PacketParser {
  import opened Domain
  import Decimal

  datatype ParseResult = Parsed(packet: TelemetryPacket) | Rejected(error: string)

  // ---------- Character classes and prefixes ----------

  function Quoted(v: string): string {
    "\"" + v + "\""
  }

  /** The class \s: std::isspace in the C locale. */
  predicate IsSpace(c: char) {
    c == ' ' || c == '\t' || c == '\n' || c == '\r' || c == '\U{0B}' || c == '\U{0C}'
  }

  /** std::tolower in the C locale. */
  function Lower(c: char): char {
    if 'A' <= c <= 'Z' then c - 'A' + 'a' else c
  }

  function LowerAll(s: string): (lower: string)
    ensures |lower| == |s|
  {
    seq(|s|, i requires 0 <= i < |s| => Lower(s[i]))
  }

  ghost predicate QuoteFree(s: string) {
    forall i :: 0 <= i < |s| ==> s[i] != '"'
  }

  function DropSpaces(s: string): (r: string)
    ensures |r| <= |s| && r == s[|s| - |r|..]
    ensures r != "" ==> !IsSpace(r[0])
  {
    if s != "" && IsSpace(s[0]) then DropSpaces(s[1..]) else s
  }

  /** The longest prefix without a quote: what ([^"]*) captures. */
  function UntilQuote(s: string): (v: string)
    ensures v <= s && QuoteFree(v)
    ensures |v| < |s| ==> s[|v|] == '"'
  {
    if s == "" || s[0] == '"' then "" else [s[0]] + UntilQuote(s[1..])
  }

  /** The longest prefix of digits: what ([0-9]+) captures. */
  function DigitRun(s: string): (d: string)
    ensures d <= s && Decimal.AllDigits(d)
    ensures |d| < |s| ==> !Decimal.IsDigit(s[|d|])
  {
    if s == "" || !Decimal.IsDigit(s[0]) then "" else [s[0]] + DigitRun(s[1..])
  }

  // ---------- String and number fields ----------

  /** The text after \s*:\s* when s starts with a match of it. */
  function BehindColon(s: string): (r: Option<string>)
    ensures r.Some? ==> |r.value| < |s|
  {
    var colon := DropSpaces(s);
    if colon != "" && colon[0] == ':' then Some(DropSpaces(colon[1..])) else None
  }

  /** The text after "key"\s*:\s* when s starts with a match of it. */
  function MatchKey(s: string, key: string): (r: Option<string>)
    ensures r.Some? ==> |r.value| < |s|
  {
    var token := Quoted(key);
    if token <= s then BehindColon(s[|token|..]) else None
  }

  /** The capture of "key"\s*:\s*"([^"]*)" when s starts with a match of it. */
  function MatchString(s: string, key: string): (r: Option<string>)
    ensures r.Some? ==> QuoteFree(r.value)
  {
    var value := MatchKey(s, key);
    if value.None? || value.value == "" || value.value[0] != '"' then None else
    var text := UntilQuote(value.value[1..]);
    if |text| < |value.value| - 1 then Some(text) else None
  }

  /** The capture of "key"\s*:\s*([0-9]+) when s starts with a match of it. */
  function MatchDigits(s: string, key: string): (r: Option<string>)
    ensures r.Some? ==> Decimal.AllDigits(r.value)
  {
    var value := MatchKey(s, key);
    if value.None? then None else
    var digits := DigitRun(value.value);
    if digits == "" then None else Some(digits)
  }

  /** ExtractStringValue: the capture at the leftmost match. */
  function ExtractString(s: string, key: string): (r: Option<string>)
    ensures r.Some? ==> QuoteFree(r.value)
  {
    if MatchString(s, key).Some? then MatchString(s, key)
    else if s == "" then None
    else ExtractString(s[1..], key)
  }

  /** The digits at the leftmost match of a number pattern. */
  function ExtractDigits(s: string, key: string): (r: Option<string>)
    ensures r.Some? ==> Decimal.AllDigits(r.value)
  {
    if MatchDigits(s, key).Some? then MatchDigits(s, key)
    else if s == "" then None
    else ExtractDigits(s[1..], key)
  }

  /** ExtractUnsignedValue: a leftmost match whose number does not fit 64 bits is no value. */
  function ExtractUnsigned(s: string, key: string): (r: Option<u64>) {
    match ExtractDigits(s, key)
    case None => None
    case Some(digits) => Decimal.ToU64(digits)
  }

  /** The first match of the pattern in s is at i and captures v. */
  ghost predicate FirstMatch(s: string, key: string, i: nat, v: string) {
    i <= |s| && MatchString(s[i..], key) == Some(v) && forall j :: 0 <= j < i ==> MatchString(s[j..], key) == None
  }

  /** A search passes over a stretch in which nothing matches. */
  lemma {:induction false} SearchPasses(s: string, key: string, i: nat)
    requires i <= |s| && forall j :: 0 <= j < i ==> MatchString(s[j..], key) == None
    ensures ExtractString(s, key) == ExtractString(s[i..], key)
    decreases i
  {
    hide MatchString;
    if i == 0 {
      assert s[0..] == s;
    } else {
      SearchPasses(s, key, i - 1);
      assert MatchString(s[i - 1..], key) == None && s[i - 1..][1..] == s[i..];
    }
  }

  lemma {:induction false} SearchStops(s: string, key: string, i: nat) returns (k: nat)
    requires i <= |s| && forall j :: 0 <= j < i ==> MatchString(s[j..], key) == None
    ensures ExtractString(s[i..], key).Some? ==> FirstMatch(s, key, k, ExtractString(s[i..], key).value)
    decreases |s| - i
  {
    hide MatchString;
    k := i;
    if MatchString(s[i..], key).Some? || i == |s| {
    } else {
      assert s[i..][1..] == s[i + 1..];
      k := SearchStops(s, key, i + 1);
    }
  }

  /** A string search answers with a value exactly when the first match captures it. */
  lemma ExtractStringIsLeftmost(s: string, key: string, v: string)
    ensures ExtractString(s, key) == Some(v) <==> exists i :: FirstMatch(s, key, i, v)
  {
    assert s[0..] == s;
    var k := SearchStops(s, key, 0);
    forall i | FirstMatch(s, key, i, v) ensures ExtractString(s, key) == Some(v) {
      SearchPasses(s, key, i);
    }
  }

  // ---------- Object fields ----------

  /** std::string::find: where t first occurs in s. */
  function IndexOf(s: string, t: string): (r: Option<nat>)
    ensures r.Some? ==> r.value + |t| <= |s| && s[r.value..r.value + |t|] == t
  {
    if t <= s then Some(0)
    else if s == "" then None
    else match IndexOf(s[1..], t)
      case None => None
      case Some(k) => Some(k + 1)
  }

  datatype Scanner = Scanner(depth: int, inString: bool, escape: bool)

  const START := Scanner(0, false, false)

  predicate Opens(st: Scanner, c: char) {
    !st.escape && !st.inString && c == '{'
  }

  predicate Closes(st: Scanner, c: char) {
    !st.escape && !st.inString && c == '}'
  }

  function Step(st: Scanner, c: char): Scanner {
    if st.escape then st.(escape := false)
    else if c == '\\' then st.(escape := true)
    else if c == '"' then st.(inString := !st.inString)
    else if Opens(st, c) then st.(depth := st.depth + 1)
    else if Closes(st, c) then st.(depth := st.depth - 1)
    else st
  }

  /** How many characters the scan reads up to and including the brace that brings it to depth 0. */
  function ScanEnd(s: string, st: Scanner): (r: Option<nat>)
    ensures r.Some? ==> 0 < r.value <= |s| && s[r.value - 1] == '}'
  {
    if s == "" then None
    else if Closes(st, s[0]) && st.depth == 1 then Some(1)
    else match ScanEnd(s[1..], Step(st, s[0]))
      case None => None
      case Some(n) => Some(n + 1)
  }

  /** The text behind the first occurrence of t. */
  function After(s: string, t: string): (r: Option<string>)
    ensures r.Some? ==> |r.value| + |t| <= |s| && r.value == s[|s| - |r.value|..]
  {
    match IndexOf(s, t)
    case None => None
    case Some(k) => Some(s[k + |t|..])
  }

  /** The rest of the text from the brace the scan starts at. */
  function ObjectStart(json: string, key: string): (r: Option<string>)
    ensures r.Some? ==> r.value != "" && r.value[0] == '{'
  {
    var afterKey := After(json, Quoted(key));
    if afterKey.None? then None else
    var afterColon := After(afterKey.value, ":");
    if afterColon.None? then None else
    match IndexOf(afterColon.value, "{")
    case None => None
    case Some(b) => assert afterColon.value[b..b + 1] == "{"; Some(afterColon.value[b..])
  }

  function ExtractObject(json: string, key: string): (r: Option<string>)
    ensures r.Some? ==> ScanComplete(r.value)
  {
    match ObjectStart(json, key)
    case None => None
    case Some(text) =>
      match ScanEnd(text, START)
      case None => None
      case Some(n) => ScanOfPrefix(text, START, n); Some(text[..n])
  }

  /** Text that starts with a brace and first returns to depth 0 at its last character. */
  ghost predicate ScanComplete(t: string) {
    t != "" && t[0] == '{' && ScanEnd(t, START) == Some(|t|)
  }

  lemma {:induction false} ScanOfPrefix(s: string, st: Scanner, n: nat)
    requires ScanEnd(s, st) == Some(n)
    ensures ScanEnd(s[..n], st) == Some(n)
  {
    if Closes(st, s[0]) && st.depth == 1 {
    } else {
      ScanOfPrefix(s[1..], Step(st, s[0]), n - 1);
      assert s[..n][1..] == s[1..][..n - 1];
    }
  }

  function Shift(r: Option<nat>, offset: nat): Option<nat> {
    if r.None? then None else Some(r.value + offset)
  }

  /** What the scan from i on comes to, by the character at i. */
  lemma ScanFrom(json: string, i: nat, st: Scanner)
    requires i <= |json|
    ensures i == |json| ==> ScanEnd(json[i..], st) == None
    ensures i < |json| && Closes(st, json[i]) && st.depth == 1 ==> Shift(ScanEnd(json[i..], st), i) == Some(i + 1)
    ensures i < |json| && !(Closes(st, json[i]) && st.depth == 1) ==>
              Shift(ScanEnd(json[i..], st), i) == Shift(ScanEnd(json[i + 1..], Step(st, json[i])), i + 1)
  {
    hide Step;
    if i < |json| { assert json[i..][1..] == json[i + 1..]; }
  }

  /** The scanning loop of ExtractObjectValue, in the variables it updates. */
  method ScanObject(json: string, objectStart: nat) returns (end: Option<nat>)
    requires objectStart <= |json|
    ensures end == Shift(ScanEnd(json[objectStart..], START), objectStart)
  {
    hide ScanEnd, Shift;
    var depth, inString, escape := 0, false, false;
    ghost var answer := Shift(ScanEnd(json[objectStart..], START), objectStart);
    for i := objectStart to |json|
      invariant answer == Shift(ScanEnd(json[i..], Scanner(depth, inString, escape)), i)
    {
      ScanFrom(json, i, Scanner(depth, inString, escape));
      var c := json[i];
      if escape {
        escape := false;
        continue;
      }
      if c == '\\' {
        escape := true;
        continue;
      }
      if c == '"' {
        inString := !inString;
        continue;
      }
      if inString {
        continue;
      }
      if c == '{' {
        depth := depth + 1;
      } else if c == '}' {
        depth := depth - 1;
        if depth == 0 {
          return Some(i + 1);
        }
      }
    }
    ScanFrom(json, |json|, Scanner(depth, inString, escape));
    ShiftedNothing(|json|);
    return None;
  }

  lemma ShiftedNothing(offset: nat)
    ensures Shift(None, offset) == None
  {
  }

  /** find(t, from) + t.size(): where the text behind the next occurrence starts. */
  method FindBehind(json: string, from: nat, t: string) returns (r: Option<nat>)
    requires from <= |json|
    ensures r.Some? ==> r.value <= |json|
    ensures After(json[from..], t) == if r.None? then None else Some(json[r.value..])
  {
    hide IndexOf;
    var found := IndexOf(json[from..], t);
    if found.None? { return None; }
    assert json[from..][found.value + |t|..] == json[from + found.value + |t|..];
    return Some(from + found.value + |t|);
  }

  /** The three finds before the loop: the key token, the colon after it, the brace after that. */
  method FindObjectStart(json: string, key: string) returns (start: Option<nat>)
    ensures start.Some? ==> start.value <= |json|
    ensures ObjectStart(json, key) == if start.None? then None else Some(json[start.value..])
  {
    hide IndexOf, After, Quoted;
    assert json[0..] == json;
    var afterKey := FindBehind(json, 0, Quoted(key));
    if afterKey.None? { return None; }
    var afterColon := FindBehind(json, afterKey.value, ":");
    if afterColon.None? { return None; }
    var brace := IndexOf(json[afterColon.value..], "{");
    if brace.None? { return None; }
    assert json[afterColon.value..][brace.value..] == json[afterColon.value + brace.value..];
    return Some(afterColon.value + brace.value);
  }

  method ExtractObjectValue(json: string, key: string) returns (r: Option<string>)
    ensures r == ExtractObject(json, key)
  {
    hide ObjectStart, ScanEnd;
    var objectStart := FindObjectStart(json, key);
    if objectStart.None? { return None; }
    var end := ScanObject(json, objectStart.value);
    if end.None? { return None; }
    assert json[objectStart.value..][..end.value - objectStart.value] == json[objectStart.value..end.value];
    return Some(json[objectStart.value..end.value]);
  }

  // ---------- The packet parser ----------

  function OrElse(value: Option<string>, default: string): string {
    if value.Some? then value.value else default
  }

  function Parse(payload: string): (r: ParseResult) {
    var deviceId := ExtractString(payload, "deviceId");
    if deviceId.None? then Rejected("missing deviceId") else
    var timestamp := ExtractUnsigned(payload, "timestamp");
    if timestamp.None? then Rejected("missing timestamp") else
    var telemetry := ExtractObject(payload, "telemetry");
    if telemetry.None? then Rejected("missing telemetry object") else
    var hashHex := ExtractString(payload, "hash");
    if hashHex.None? then Rejected("missing hash") else
    var signature := ExtractString(payload, "signature");
    if signature.None? then Rejected("missing signature") else
    Parsed(TelemetryPacket(
             deviceId.value, timestamp.value, telemetry.value, hashHex.value, signature.value,
             OrElse(ExtractString(payload, "pubKeyId"), "default-pubkey"),
             OrElse(ExtractString(payload, "transport"), "wifi"),
             OrElse(ExtractString(payload, "batchCode"), "")))
  }

  method ParseTelemetryPacketJson(payload: string) returns (result: ParseResult)
    ensures result == Parse(payload)
  {
    var deviceId := ExtractString(payload, "deviceId");
    if deviceId.None? { return Rejected("missing deviceId"); }
    var timestamp := ExtractUnsigned(payload, "timestamp");
    if timestamp.None? { return Rejected("missing timestamp"); }
    var telemetry := ExtractObjectValue(payload, "telemetry");
    if telemetry.None? { return Rejected("missing telemetry object"); }
    var hashHex := ExtractString(payload, "hash");
    if hashHex.None? { return Rejected("missing hash"); }
    var signature := ExtractString(payload, "signature");
    if signature.None? { return Rejected("missing signature"); }
    var pubKeyId := OrElse(ExtractString(payload, "pubKeyId"), "default-pubkey");
    var transport := OrElse(ExtractString(payload, "transport"), "wifi");
    var batchCode := OrElse(ExtractString(payload, "batchCode"), "");
    return Parsed(TelemetryPacket(
                    deviceId.value, timestamp.value, telemetry.value, hashHex.value, signature.value,
                    pubKeyId, transport, batchCode));
  }

  // ---------- Hash text ----------

  /** std::isxdigit. */
  predicate IsHexDigit(c: char) {
    '0' <= c <= '9' || 'a' <= c <= 'f' || 'A' <= c <= 'F'
  }

  predicate Hex64(value: string) {
    |value| == 64 && forall i :: 0 <= i < |value| ==> IsHexDigit(value[i])
  }

  method IsHex64(value: string) returns (r: bool)
    ensures r == Hex64(value)
  {
    if |value| != 64 { return false; }
    for i := 0 to |value|
      invariant forall j :: 0 <= j < i ==> IsHexDigit(value[j])
    {
      if !IsHexDigit(value[i]) { return false; }
    }
    return true;
  }
}
