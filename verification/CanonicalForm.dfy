/**
  The text a device hashes: deviceId|timestamp|telemetryJson. Both '|' and '{' may occur inside
  a device id and inside telemetry, yet for packets the parser produced the text is read back in
  one way only.
*/
module CanonicalForm {
  import opened Domain
  import opened PacketParser
  import opened ScannerLaws
  import Decimal

  function Canonical(p: TelemetryPacket): string {
    p.deviceId + "|" + Decimal.Print(p.timestamp) + "|" + p.telemetryJson
  }

  ghost predicate SameReading(p: TelemetryPacket, q: TelemetryPacket) {
    p.deviceId == q.deviceId && p.timestamp == q.timestamp && p.telemetryJson == q.telemetryJson
  }

  /** What the parser guarantees of the fields that are hashed. */
  lemma ParsedFields(payload: string)
    requires Parse(payload).Parsed?
    ensures QuoteFree(Parse(payload).packet.deviceId)
    ensures ScanComplete(Parse(payload).packet.telemetryJson)
  {
    hide ExtractString, ExtractObject, ExtractUnsigned, ScanComplete;
  }

  /** Behind quote-free text that opened an object and ends in a bar the scanner is inside the object and outside strings. */
  lemma InsideBehindHead(head: string)
    requires head != "" && head[0] == '{' && head[|head| - 1] == '|' && QuoteFree(head)
    requires ScanEnd(head, START) == None
    ensures var st := Run(head, START); st == Scanner(st.depth, false, false) && st.depth >= 1
  {
    QuoteFreeStaysOutside(head, START);
    LastDecidesEscape(head, START);
    UnfinishedIsInside(head[1..], Step(START, head[0]));
  }

  lemma DeeperThanComplete(inner: string, depth: nat)
    requires ScanComplete(inner) && depth >= 1
    ensures ScanEnd(inner, Scanner(depth, false, false)) == None
  {
    DeeperScanDoesNotFinish(inner[1..], Step(START, inner[0]), depth);
  }

  /** A complete object is never a proper tail of another one that is cut in quote-free text. */
  lemma NoObjectAfterQuoteFreeHead(head: string, inner: string)
    requires head != "" && head[|head| - 1] == '|' && QuoteFree(head)
    requires ScanComplete(inner)
    ensures !ScanComplete(head + inner)
  {
    if ScanComplete(head + inner) {
      assert head[0] == (head + inner)[0] == '{';
      hide Step, QuoteFree;
      if ScanEnd(head, START).Some? {
        ScanFinishedAppend(head, inner, START);
        assert false;
      }
      ScanAppend(head, inner, START);
      InsideBehindHead(head);
      DeeperThanComplete(inner, Run(head, START).depth);
      assert false;
    }
  }

  /** Text cut at an earlier bar: the longer head goes on behind the bar. */
  lemma LongerHead(d: string, rest: string, e: string, tail: string)
    requires |d| < |e| && d + ("|" + rest) == e + tail
    ensures rest == e[|d| + 1..] + tail
  {
    var text := d + ("|" + rest);
    assert rest == text[|d| + 1..];
    assert e + tail == e[..|d| + 1] + (e[|d| + 1..] + tail);
  }

  /** A number in front of an object is shorter than any text in front of a bar and another number. */
  lemma NumberIsShorter(m: string, t: string, y: string, number: string)
    requires Decimal.AllDigits(m) && t != "" && t[0] == '{'
    requires number != "" && Decimal.IsDigit(number[0])
    requires m + ("|" + t) == y + ("|" + number)
    ensures |m| < |y|
  {
    var text := m + ("|" + t);
    assert text[|y|] == '|' && text[|y| + 1] == number[0];
    assert text[|m| + 1] == t[0];
    assert forall i :: 0 <= i < |m| ==> text[i] == m[i];
  }

  /** If one reading has the shorter id, the other's last part is a proper tail of its last part. */
  lemma ShorterIdLeavesTail(d: string, m: string, t: string, e: string, n: string, u: string) returns (head: string)
    requires |d| < |e| && QuoteFree(e)
    requires m != "" && n != "" && Decimal.AllDigits(m) && Decimal.AllDigits(n)
    requires t != "" && t[0] == '{'
    requires d + "|" + m + "|" + t == e + "|" + n + "|" + u
    ensures t == head + u && QuoteFree(head) && head != "" && head[|head| - 1] == '|'
  {
    var tail := "|" + (n + "|" + u);
    assert d + ("|" + (m + "|" + t)) == e + tail by {
      assert d + "|" + m + "|" + t == d + ("|" + (m + "|" + t)) && e + "|" + n + "|" + u == e + tail;
    }
    LongerHead(d, m + "|" + t, e, tail);
    var y := e[|d| + 1..];
    assert m + "|" + t == m + ("|" + t);
    NumberIsShorter(m, t, y, n + "|" + u);
    LongerHead(m, t, y, tail);
    var z := y[|m| + 1..];
    head := z + "|" + n + "|";
    assert z + tail == head + u;
  }

  /** Two readings of one text have device ids of the same length. */
  lemma DeviceIdNotShorter(p: TelemetryPacket, q: TelemetryPacket)
    requires QuoteFree(p.deviceId) && QuoteFree(q.deviceId)
    requires ScanComplete(p.telemetryJson) && ScanComplete(q.telemetryJson)
    requires Canonical(p) == Canonical(q)
    ensures |p.deviceId| >= |q.deviceId|
  {
    if |p.deviceId| < |q.deviceId| {
      var head := ShorterIdLeavesTail(
        p.deviceId, Decimal.Print(p.timestamp), p.telemetryJson,
        q.deviceId, Decimal.Print(q.timestamp), q.telemetryJson);
      NoObjectAfterQuoteFreeHead(head, q.telemetryJson);
      assert false;
    }
  }

  lemma SameHead(a: string, s: string, b: string, t: string)
    requires |a| == |b| && a + s == b + t
    ensures a == b && s == t
  {
    assert a == (a + s)[..|a|] && b == (b + t)[..|b|];
    assert s == (a + s)[|a|..] && t == (b + t)[|b|..];
  }

  lemma SameUpToBar(a: string, s: string, b: string, t: string)
    requires '|' !in a && '|' !in b && a + "|" + s == b + "|" + t
    ensures a == b && s == t
  {
    var text := a + "|" + s;
    assert text[|a|] == '|' && text[|b|] == '|';
    assert forall i :: 0 <= i < |a| ==> text[i] == a[i] && a[i] in a;
    assert forall i :: 0 <= i < |b| ==> text[i] == b[i] && b[i] in b;
    assert |a| == |b| && text == a + ("|" + s) == b + ("|" + t);
    SameHead(a, "|" + s, b, "|" + t);
    SameHead("|", s, "|", t);
  }

  /** The canonical text determines the fields it was made of. */
  lemma CanonicalDetermines(p: TelemetryPacket, q: TelemetryPacket)
    requires QuoteFree(p.deviceId) && QuoteFree(q.deviceId)
    requires ScanComplete(p.telemetryJson) && ScanComplete(q.telemetryJson)
    requires Canonical(p) == Canonical(q)
    ensures SameReading(p, q)
  {
    hide Decimal.Print, ScanComplete, QuoteFree;
    DeviceIdNotShorter(p, q);
    DeviceIdNotShorter(q, p);
    var m, n := Decimal.Print(p.timestamp), Decimal.Print(q.timestamp);
    var rest, other := m + "|" + p.telemetryJson, n + "|" + q.telemetryJson;
    assert Canonical(p) == p.deviceId + ("|" + rest) && Canonical(q) == q.deviceId + ("|" + other);
    SameHead(p.deviceId, "|" + rest, q.deviceId, "|" + other);
    SameHead("|", rest, "|", other);
    Decimal.PrintHoldsDigits(p.timestamp);
    Decimal.PrintHoldsDigits(q.timestamp);
    SameUpToBar(m, p.telemetryJson, n, q.telemetryJson);
    Decimal.PrintInjective(p.timestamp, q.timestamp);
  }

  /** The canonical form is uniquely readable on everything the parser lets through. */
  lemma CanonicalUniquelyReadable(payload1: string, payload2: string)
    requires Parse(payload1).Parsed? && Parse(payload2).Parsed?
    requires Canonical(Parse(payload1).packet) == Canonical(Parse(payload2).packet)
    ensures SameReading(Parse(payload1).packet, Parse(payload2).packet)
  {
    ParsedFields(payload1);
    ParsedFields(payload2);
    CanonicalDetermines(Parse(payload1).packet, Parse(payload2).packet);
  }
}
