/** Reading back what the gateway prints: exactly which records survive. */
module RoundTrip {
  import opened Domain
  import opened PacketParser
  import opened PacketPrinter
  import opened SearchLaws
  import opened ScannerLaws
  import Decimal

  // ---------- The search arrives at a member ----------

  function RestAfter(fs: seq<Field>, i: nat, close: string): string
    requires i < |fs|
  {
    if i + 1 == |fs| then close else "," + FieldsText(fs[i + 1..]) + close
  }

  lemma {:induction false} SearchReachesMember(fs: seq<Field>, i: nat, close: string, key: string)
    requires i < |fs| && Plain(key) && Follows(close)
    requires forall j :: 0 <= j < i ==> Avoids(fs[j], key)
    ensures ExtractString(FieldsText(fs) + close, key) == ExtractString(MemberText(fs[i]) + RestAfter(fs, i, close), key)
    ensures ExtractDigits(FieldsText(fs) + close, key) == ExtractDigits(MemberText(fs[i]) + RestAfter(fs, i, close), key)
  {
    hide ExtractString, ExtractDigits, MemberText, Avoids, Plain;
    if i == 0 {
      if |fs| > 1 {
        assert FieldsText(fs) + close == MemberText(fs[0]) + ("," + FieldsText(fs[1..]) + close);
      }
    } else {
      var head, tail := MemberText(fs[0]), FieldsText(fs[1..]) + close;
      assert FieldsText(fs) + close == head + ("," + tail);
      NoKeyInMember(fs[0], "," + tail, key);
      SearchSkips(head, "," + tail, key);
      NoKeyInQuoteFree(",", tail, key);
      SearchSkips(",", tail, key);
      SearchReachesMember(fs[1..], i - 1, close, key);
      assert fs[1..][i..] == fs[i + 1..];
    }
  }

  lemma SearchFindsNothing(fs: seq<Field>, key: string)
    requires Plain(key) && forall j :: 0 <= j < |fs| ==> Avoids(fs[j], key)
    ensures ExtractString(FieldsText(fs) + "}", key) == None
  {
    NoKeyInFields(fs, "}", key);
    SearchSkips(FieldsText(fs), "}", key);
    NoKeyInQuoteFree("}", "", key);
    SearchSkips("}", "", key);
    assert "}" + "" == "}";
  }

  lemma {:induction false} UntilQuoteStops(a: string, b: string)
    ensures UntilQuote(a + "\"" + b) == UntilQuote(a + "\"")
  {
    if a == "" || a[0] == '"' {
    } else {
      UntilQuoteStops(a[1..], b);
      assert (a + "\"" + b)[1..] == a[1..] + "\"" + b;
      assert (a + "\"")[1..] == a[1..] + "\"";
    }
  }

  lemma {:induction false} UntilQuoteOfQuoteFree(v: string)
    requires QuoteFree(v)
    ensures UntilQuote(v + "\"") == v
  {
    if v == "" {
    } else {
      UntilQuoteOfQuoteFree(v[1..]);
      assert (v + "\"")[1..] == v[1..] + "\"";
    }
  }

  lemma NoSpacesToDrop(s: string)
    requires s != "" && !IsSpace(s[0])
    ensures DropSpaces(s) == s
  {
  }

  /** What a search that arrives at a member named by its key sees behind the colon. */
  lemma MemberKeyMatches(f: Field, rest: string)
    requires ValueText(f) != "" && !IsSpace(ValueText(f)[0])
    ensures MatchKey(MemberText(f) + rest, f.name) == Some(ValueText(f) + rest)
  {
    hide ValueText, Quoted, MatchKey;
    MatchKeyOf(f.name, ValueText(f) + rest);
    assert MemberText(f) + rest == Quoted(f.name) + (":" + (ValueText(f) + rest));
  }

  lemma MatchKeyOf(key: string, behind: string)
    requires behind != "" && !IsSpace(behind[0])
    ensures MatchKey(Quoted(key) + (":" + behind), key) == Some(behind)
  {
    hide Quoted, DropSpaces;
    DropHead(Quoted(key), ":" + behind);
    DropHead(":", behind);
    NoSpacesToDrop(":" + behind);
    NoSpacesToDrop(behind);
  }

  lemma DropHead(a: string, b: string)
    ensures a <= a + b && (a + b)[|a|..] == b
  {
  }

  lemma TextMemberFound(key: string, v: string, rest: string)
    ensures ExtractString(MemberText(Text(key, v)) + rest, key) == Some(UntilQuote(Escape(v) + "\""))
  {
    hide Escape, MatchKey, MemberText;
    var f, text := Text(key, v), Escape(v) + "\"";
    MemberKeyMatches(f, rest);
    assert (ValueText(f) + rest)[1..] == text + rest;
    UntilQuoteStops(Escape(v), rest);
    assert text[|Escape(v)|] == '"';
    assert MatchString(MemberText(f) + rest, key) == Some(UntilQuote(text));
  }

  lemma {:induction false} DigitRunOfDigits(d: string, rest: string)
    requires Decimal.AllDigits(d) && (rest != "" ==> !Decimal.IsDigit(rest[0]))
    ensures DigitRun(d + rest) == d
  {
    if d == "" {
      assert d + rest == rest;
    } else {
      assert (d + rest)[1..] == d[1..] + rest;
      DigitRunOfDigits(d[1..], rest);
    }
  }

  lemma NumberMemberFound(key: string, n: nat, rest: string)
    requires Follows(rest)
    ensures ExtractDigits(MemberText(Number(key, n)) + rest, key) == Some(Decimal.Print(n))
  {
    MemberKeyMatches(Number(key, n), rest);
    DigitRunOfDigits(Decimal.Print(n), rest);
  }

  // ---------- The fields before telemetry ----------

  lemma SearchPassesBrace(text: string, key: string)
    ensures ExtractString("{" + text, key) == ExtractString(text, key)
    ensures ExtractDigits("{" + text, key) == ExtractDigits(text, key)
  {
    NoKeyInQuoteFree("{", text, key);
    SearchSkips("{", text, key);
  }

  lemma DeviceIdFound(r: TelemetryRecord)
    ensures ExtractString(RecordText(r), "deviceId") == Some(UntilQuote(Escape(r.packet.deviceId) + "\""))
  {
    hide ExtractString, ExtractDigits, MemberText, FieldsText, UntilQuote, Escape;
    var fs, key := RecordFields(r), "deviceId";
    assert RecordText(r) == "{" + (FieldsText(fs) + "}");
    SearchPassesBrace(FieldsText(fs) + "}", key);
    SearchReachesMember(fs, 1, "}", key);
    TextMemberFound(key, r.packet.deviceId, RestAfter(fs, 1, "}"));
  }

  lemma TimestampFound(r: TelemetryRecord)
    ensures ExtractUnsigned(RecordText(r), "timestamp") == Some(r.packet.timestamp)
  {
    hide ExtractString, ExtractDigits, MemberText, FieldsText, UntilQuote, Escape;
    var fs, key := RecordFields(r), "timestamp";
    assert RecordText(r) == "{" + (FieldsText(fs) + "}");
    SearchPassesBrace(FieldsText(fs) + "}", key);
    SearchReachesMember(fs, 2, "}", key);
    NumberMemberFound(key, r.packet.timestamp, RestAfter(fs, 2, "}"));
    Decimal.ValueOfPrint(r.packet.timestamp);
  }

  // ---------- The fields after telemetry ----------

  /** What a string search for key would capture from the telemetry text itself. */
  function Shadow(telemetry: string, key: string): Option<string> {
    ExtractString(telemetry + ",\"", key)
  }

  ghost predicate EndsWithBrace(t: string) {
    t != "" && t[|t| - 1] == '}'
  }

  lemma {:induction false} DropSpacesAppend(a: string, x: string)
    requires EndsWithBrace(a)
    ensures DropSpaces(a + x) == DropSpaces(a) + x && EndsWithBrace(DropSpaces(a))
  {
    if IsSpace(a[0]) {
      assert (a + x)[1..] == a[1..] + x;
      DropSpacesAppend(a[1..], x);
      assert DropSpaces(a + x) == DropSpaces((a + x)[1..]) && DropSpaces(a) == DropSpaces(a[1..]);
    } else {
      NoSpacesToDrop(a + x);
      NoSpacesToDrop(a);
    }
  }

  lemma TokenAppend(u: string, x: string, key: string)
    requires EndsWithBrace(u) && Plain(key)
    ensures Quoted(key) <= u + x <==> Quoted(key) <= u
    ensures Quoted(key) <= u ==> |Quoted(key)| < |u|
  {
    var token := Quoted(key);
    assert forall i :: 0 <= i < |token| ==> token[i] != '}';
    assert (u + x)[|u| - 1] == u[|u| - 1] == '}';
    assert forall i :: 0 <= i < |u| ==> (u + x)[i] == u[i];
  }

  lemma ColonAppend(a: string, x: string)
    requires EndsWithBrace(a)
    ensures BehindColon(a + x) ==
            match BehindColon(a) case None => None case Some(value) => Some(value + x)
    ensures BehindColon(a).Some? ==> EndsWithBrace(BehindColon(a).value)
  {
    hide DropSpaces;
    DropSpacesAppend(a, x);
    var b := DropSpaces(a);
    if b[0] == ':' {
      assert (b + x)[1..] == b[1..] + x;
      DropSpacesAppend(b[1..], x);
    }
  }

  /** Behind a closing brace the text no longer decides whether a key matches before it. */
  lemma MatchKeyAppend(u: string, x: string, key: string)
    requires EndsWithBrace(u) && Plain(key)
    ensures MatchKey(u + x, key) ==
            match MatchKey(u, key) case None => None case Some(value) => Some(value + x)
    ensures MatchKey(u, key).Some? ==> EndsWithBrace(MatchKey(u, key).value)
  {
    hide BehindColon, Quoted, Plain;
    TokenAppend(u, x, key);
    if Quoted(key) <= u {
      var a := u[|Quoted(key)|..];
      assert (u + x)[|Quoted(key)|..] == a + x;
      ColonAppend(a, x);
    }
  }

  lemma MatchStringLocal(u: string, more: string, key: string)
    requires EndsWithBrace(u) && Plain(key)
    ensures MatchString(u + (",\"" + more), key) == MatchString(u + ",\"", key)
  {
    hide MatchKey, UntilQuote;
    MatchKeyAppend(u, ",\"" + more, key);
    MatchKeyAppend(u, ",\"", key);
    if MatchKey(u, key).Some? {
      var value := MatchKey(u, key).value;
      var long, short := value + (",\"" + more), value + ",\"";
      var inner := value[1..] + ",";
      assert long[1..] == inner + "\"" + more && short[1..] == inner + "\"";
      assert (inner + "\"" + more)[|inner|] == '"' && (inner + "\"")[|inner|] == '"';
      UntilQuoteStops(inner, more);
    }
  }

  /** A search that enters telemetry ends with what it finds there, or goes on behind it. */
  lemma {:induction false} SearchThroughTelemetry(telemetry: string, more: string, key: string)
    requires EndsWithBrace(telemetry) && Plain(key)
    ensures ExtractString(telemetry + (",\"" + more), key) ==
            if Shadow(telemetry, key).Some? then Shadow(telemetry, key) else ExtractString(",\"" + more, key)
  {
    hide MatchString, Plain;
    var whole, alone := telemetry + (",\"" + more), telemetry + ",\"";
    MatchStringLocal(telemetry, more, key);
    if MatchString(alone, key).Some? {
    } else {
      assert whole[1..] == telemetry[1..] + (",\"" + more);
      assert alone[1..] == telemetry[1..] + ",\"";
      if |telemetry| == 1 {
        assert whole[1..] == ",\"" + more && alone[1..] == ",\"";
        NothingInCommaQuote(key);
      } else {
        SearchThroughTelemetry(telemetry[1..], more, key);
      }
    }
  }

  lemma NothingInCommaQuote(key: string)
    ensures ExtractString(",\"", key) == None
  {
    NoKeyInQuoteFree(",", "\"", key);
    SearchSkips(",", "\"", key);
    assert "," + "\"" == ",\"";
    assert "\""[1..] == "";
  }

  lemma FieldsStartWithQuote(fs: seq<Field>)
    requires fs != []
    ensures FieldsText(fs) != "" && FieldsText(fs)[0] == '"'
  {
  }

  /** The first four fields of a record have names of their own. */
  lemma HeadAvoids(r: TelemetryRecord, key: string)
    requires key !in ["recordId", "deviceId", "timestamp", "telemetry"]
    ensures
      var fs := RecordFields(r);
      && |fs| > 4 && fs[3] == Raw("telemetry", r.packet.telemetryJson) && fs[4..] == TailFields(r)
      && key != "telemetry" && forall j :: 0 <= j < 3 ==> Avoids(fs[j], key)
  {
    var others := ["recordId", "deviceId", "timestamp", "telemetry"];
    assert others[0] != key && others[1] != key && others[2] != key && others[3] != key;
    HeadNamesArePlain();
    hide Plain;
  }

  lemma HeadNamesArePlain()
    ensures Plain("recordId") && Plain("deviceId") && Plain("timestamp") && Plain("telemetry")
  {
  }

  /** A search for a key of the second half reaches that half unless telemetry captures it. */
  lemma LaterSearch(r: TelemetryRecord, key: string)
    requires EndsWithBrace(r.packet.telemetryJson) && Plain(key)
    requires key !in ["recordId", "deviceId", "timestamp", "telemetry"]
    ensures ExtractString(RecordText(r), key) ==
            if Shadow(r.packet.telemetryJson, key).Some? then Shadow(r.packet.telemetryJson, key)
            else ExtractString(FieldsText(TailFields(r)) + "}", key)
  {
    hide ExtractString, ExtractDigits, FieldsText, UntilQuote, Escape, NoKeyIn, Plain, Quoted;
    var fs, tail, telemetry := RecordFields(r), TailFields(r), r.packet.telemetryJson;
    HeadAvoids(r, key);
    assert RecordText(r) == "{" + (FieldsText(fs) + "}");
    SearchPassesBrace(FieldsText(fs) + "}", key);
    SearchReachesMember(fs, 3, "}", key);
    var text := FieldsText(tail) + "}";
    assert RestAfter(fs, 3, "}") == "," + text;
    assert MemberText(fs[3]) + ("," + text) == Quoted("telemetry") + (":" + (telemetry + ("," + text)));
    FieldsStartWithQuote(tail);
    SearchThroughMember(telemetry, text, key);
  }

  /** A search that starts at the telemetry member goes through telemetry and the comma behind it. */
  lemma SearchThroughMember(telemetry: string, text: string, key: string)
    requires EndsWithBrace(telemetry) && Plain(key) && key != "telemetry"
    requires text != "" && text[0] == '"'
    ensures ExtractString(Quoted("telemetry") + (":" + (telemetry + ("," + text))), key) ==
            if Shadow(telemetry, key).Some? then Shadow(telemetry, key) else ExtractString(text, key)
  {
    hide ExtractString, ExtractDigits, UntilQuote, NoKeyIn, MatchKey;
    var rest := "," + text;
    NoKeyInOtherName("telemetry", ":" + (telemetry + rest), key);
    SearchSkips(Quoted("telemetry"), ":" + (telemetry + rest), key);
    NoKeyInQuoteFree(":", telemetry + rest, key);
    SearchSkips(":", telemetry + rest, key);
    assert rest == ",\"" + text[1..];
    SearchThroughTelemetry(telemetry, text[1..], key);
    NoKeyInQuoteFree(",", text, key);
    SearchSkips(",", text, key);
  }

  /** Position of a later field in the second half of the record. */
  lemma TailFieldFound(r: TelemetryRecord, i: nat)
    requires i < |TailFields(r)| - 1
    ensures TailFields(r)[i].Text?
    ensures ExtractString(FieldsText(TailFields(r)) + "}", TailFields(r)[i].name)
            == Some(UntilQuote(Escape(TailFields(r)[i].value) + "\""))
  {
    hide ExtractString, FieldsText, KeyFree, ReceiptText, Escape, UntilQuote, MemberText;
    var tail := TailFields(r);
    var key := tail[i].name;
    TailNames(r);
    SearchReachesMember(tail, i, "}", key);
    TextMemberFound(key, tail[i].value, RestAfter(tail, i, "}"));
  }

  /** Every later field is a text with a name of its own, but for the receipt at the end. */
  lemma TailNames(r: TelemetryRecord)
    ensures
      var tail := TailFields(r);
      && Plain("batchCode") && tail != [] && tail[|tail| - 1] == Raw("receipt", ReceiptText(r.receipt)) && Plain("receipt")
      && (forall j :: 0 <= j < |tail| - 1 ==> tail[j].Text? && Plain(tail[j].name))
      && (forall i, j :: 0 <= j < i < |tail| - 1 ==> tail[j].name != tail[i].name)
      && (r.packet.batchCode == "" ==> forall j :: 0 <= j < |tail| - 1 ==> tail[j].name != "batchCode")
  {
    hide ReceiptText, Plain;
    TailNamesArePlain();
    assert "hash"[0] == 'h' && "signature"[0] == 's' && "pubKeyId"[0] == 'p' && "transport"[0] == 't' && "batchCode"[0] == 'b';
  }

  lemma TailNamesArePlain()
    ensures Plain("hash") && Plain("signature") && Plain("pubKeyId") && Plain("transport")
    ensures Plain("batchCode") && Plain("receipt")
  {
  }

  lemma NoBatchCodeFound(r: TelemetryRecord)
    requires r.packet.batchCode == ""
    ensures ExtractString(FieldsText(TailFields(r)) + "}", "batchCode") == None
  {
    hide ExtractString, FieldsText, KeyFree, ReceiptText, Escape, UntilQuote, MemberText, Plain, TailFields;
    TailNames(r);
    ReceiptKeyFree(r.receipt, "batchCode");
    SearchFindsNothing(TailFields(r), "batchCode");
  }

  // ---------- The telemetry object ----------

  /** In head + rest the token starts nowhere inside head. */
  ghost predicate NoTokenIn(head: string, rest: string, token: string) {
    forall i :: 0 <= i < |head| ==> !(token <= (head + rest)[i..])
  }

  lemma NoTokenInTail(head: string, rest: string, token: string)
    requires NoTokenIn(head, rest, token) && head != ""
    ensures NoTokenIn(head[1..], rest, token)
    ensures IndexOf(head + rest, token) == Shift(IndexOf(head[1..] + rest, token), 1)
  {
    var whole := head + rest;
    assert whole[0..] == whole && whole[1..] == head[1..] + rest;
    forall i | 0 <= i < |head| - 1 ensures !(token <= (head[1..] + rest)[i..]) {
      assert (head[1..] + rest)[i..] == whole[i + 1..];
    }
  }

  lemma {:induction false} FindSkips(head: string, rest: string, token: string)
    requires NoTokenIn(head, rest, token)
    ensures IndexOf(head + rest, token) == Shift(IndexOf(rest, token), |head|)
  {
    hide NoTokenIn, IndexOf;
    if head == "" {
      assert head + rest == rest;
    } else {
      NoTokenInTail(head, rest, token);
      FindSkips(head[1..], rest, token);
    }
  }

  lemma NoTokenAppend(a: string, b: string, rest: string, token: string)
    requires NoTokenIn(a, b + rest, token) && NoTokenIn(b, rest, token)
    ensures NoTokenIn(a + b, rest, token)
  {
    var whole := (a + b) + rest;
    assert whole == a + (b + rest);
    forall i | 0 <= i < |a + b| ensures !(token <= whole[i..]) {
      if i >= |a| {
        assert whole[i..] == (b + rest)[i - |a|..];
      }
    }
  }

  lemma NoTokenWithoutFirst(head: string, rest: string, token: string)
    requires token != "" && token[0] !in head
    ensures NoTokenIn(head, rest, token)
  {
    forall i | 0 <= i < |head| ensures !(token <= (head + rest)[i..]) {
      assert (head + rest)[i..][0] == head[i];
    }
  }

  lemma NoTokenInOtherText(v: string, rest: string, key: string)
    requires QuoteFree(v) && v != key && Plain(key)
    requires rest != "" && rest[0] != key[0]
    ensures NoTokenIn(Quoted(v), rest, Quoted(key))
  {
    assert |Quoted(v)| == |v| + 2;
    hide Quoted, QuoteFree, Plain;
    forall i | 0 <= i < |Quoted(v)| ensures !(Quoted(key) <= (Quoted(v) + rest)[i..]) {
      NoTokenAt(v, rest, key, i);
    }
  }

  lemma NoTokenAt(v: string, rest: string, key: string, i: nat)
    requires QuoteFree(v) && v != key && Plain(key) && rest != "" && rest[0] != key[0] && i < |v| + 2
    ensures !(Quoted(key) <= (Quoted(v) + rest)[i..])
  {
    var token, text, end := Quoted(key), Quoted(v) + rest, |v| + 1;
    assert text[end] == '"' && text[end + 1] == rest[0];
    assert forall j :: 0 < j < end ==> text[j] == v[j - 1];
    assert token <= text[i..] ==> forall j :: 0 <= j < |token| ==> token[j] == text[i..][j] == text[i + j];
    assert token[1] == key[0] && token[|key| + 1] == '"';
    if i == end {
      assert text[i + 1] != token[1];
    } else if i > 0 {
      assert text[i] != token[0];
    } else if |v| < |key| {
      assert text[end] != token[end];
    } else if |v| > |key| {
      assert text[|key| + 1] != token[|key| + 1];
    } else {
      var j :| 0 <= j < |key| && v[j] != key[j];
      assert text[j + 1] != token[j + 1];
    }
  }

  lemma FoundBehind(pre: string, token: string, rest: string)
    requires NoTokenIn(pre, token + rest, token)
    ensures IndexOf(pre + (token + rest), token) == Some(|pre|)
    ensures After(pre + (token + rest), token) == Some(rest)
  {
    FindSkips(pre, token + rest, token);
    assert token <= token + rest;
    assert (pre + (token + rest))[|pre| + |token|..] == rest;
  }

  /** Where the scan starts when the token stands first after pre, then a colon, then a brace. */
  lemma ObjectStartAt(pre: string, gap: string, gap2: string, obj: string, key: string)
    requires NoTokenIn(pre, Quoted(key) + (gap + (":" + (gap2 + obj))), Quoted(key))
    requires ':' !in gap && '{' !in gap2 && obj != "" && obj[0] == '{'
    ensures ObjectStart(pre + (Quoted(key) + (gap + (":" + (gap2 + obj)))), key) == Some(obj)
  {
    hide IndexOf, After, Quoted, NoTokenIn;
    FoundBehind(pre, Quoted(key), gap + (":" + (gap2 + obj)));
    NoTokenWithoutFirst(gap, ":" + (gap2 + obj), ":");
    FoundBehind(gap, ":", gap2 + obj);
    assert obj == "{" + obj[1..];
    NoTokenWithoutFirst(gap2, "{" + obj[1..], "{");
    FoundBehind(gap2, "{", obj[1..]);
    assert (gap2 + obj)[|gap2|..] == obj;
  }

  /** The text of the record before the value of deviceId, and between it and the telemetry key. */
  function BeforeId(r: TelemetryRecord): string {
    "{" + Quoted("recordId") + (":" + Decimal.Print(r.recordId) + ",") + Quoted("deviceId") + ":"
  }

  function Timestamp(r: TelemetryRecord): string {
    ":" + Decimal.Print(r.packet.timestamp) + ","
  }

  function Behind(r: TelemetryRecord): string {
    "," + FieldsText(TailFields(r)) + "}"
  }

  lemma FieldsCons(f: Field, fs: seq<Field>, rest: string)
    requires fs != []
    ensures FieldsText([f] + fs) + rest == Quoted(f.name) + (":" + (ValueText(f) + ("," + (FieldsText(fs) + rest))))
  {
    hide Quoted, ValueText;
    assert ([f] + fs)[1..] == fs;
  }

  lemma RecordLayout(r: TelemetryRecord)
    ensures RecordText(r) ==
            BeforeId(r) + (Quoted(Escape(r.packet.deviceId)) + ("," + (Quoted("timestamp") + (Timestamp(r)
            + (Quoted("telemetry") + (":" + (r.packet.telemetryJson + Behind(r))))))))
  {
    hide Escape, FieldsText, Quoted, Timestamp, Behind;
    var fs, fs1 := RecordFields(r), RecordFields(r)[1..];
    LayoutFromTimestamp(r);
    assert fs == [fs[0]] + fs1 && fs1 == [fs[1]] + fs[2..];
    FieldsCons(fs[1], fs[2..], "}");
    FieldsCons(fs[0], fs1, "}");
    var text2, text1 := FieldsText(fs[2..]) + "}", FieldsText(fs1) + "}";
    var text := Quoted(Escape(r.packet.deviceId)) + ("," + text2);
    assert text1 == Quoted("deviceId") + (":" + text);
    assert FieldsText(fs) + "}" == Quoted("recordId") + (":" + (Decimal.Print(r.recordId) + ("," + text1)));
    LayoutOfHead(Quoted("recordId"), Decimal.Print(r.recordId), Quoted("deviceId"), text);
    assert RecordText(r) == "{" + (FieldsText(fs) + "}");
  }

  lemma LayoutFromTimestamp(r: TelemetryRecord)
    ensures FieldsText(RecordFields(r)[2..]) + "}" ==
            Quoted("timestamp") + (Timestamp(r) + (Quoted("telemetry") + (":" + (r.packet.telemetryJson + Behind(r)))))
  {
    hide Escape, FieldsText, Quoted;
    var fs, tail := RecordFields(r), TailFields(r);
    assert fs[2..] == [fs[2]] + fs[3..] && fs[3..] == [fs[3]] + tail;
    FieldsCons(fs[3], tail, "}");
    FieldsCons(fs[2], fs[3..], "}");
    var text3 := FieldsText(fs[3..]) + "}";
    assert text3 == Quoted("telemetry") + (":" + (r.packet.telemetryJson + Behind(r)));
    assert FieldsText(fs[2..]) + "}" == Quoted("timestamp") + (Timestamp(r) + text3);
  }

  lemma LayoutOfHead(a: string, b: string, c: string, text: string)
    ensures "{" + (a + (":" + (b + ("," + (c + (":" + text)))))) == ("{" + a + (":" + b + ",") + c + ":") + text
  {
  }

  lemma QuotedStarts(key: string)
    ensures Quoted(key) != "" && Quoted(key)[0] == '"'
  {
  }

  lemma OtherNames()
    ensures Plain("telemetry") && QuoteFree("deviceId") && QuoteFree("recordId")
    ensures "deviceId" != "telemetry" && "recordId" != "telemetry"
  {
    assert "deviceId"[0] != "telemetry"[0] && "recordId"[0] != "telemetry"[0];
  }

  lemma NoTokenInBeforeId(r: TelemetryRecord, rest: string)
    requires rest != "" && rest[0] == '"'
    ensures NoTokenIn(BeforeId(r), rest, Quoted("telemetry"))
  {
    hide NoTokenIn, Quoted;
    var key := "telemetry";
    var token := Quoted(key);
    var number, tail := ":" + Decimal.Print(r.recordId) + ",", Quoted("deviceId") + ":";
    QuotedStarts(key);
    Decimal.PrintHoldsDigits(r.recordId);
    OtherNames();
    NoTokenWithoutFirst(":", rest, token);
    NoTokenInOtherText("deviceId", ":" + rest, key);
    NoTokenAppend(Quoted("deviceId"), ":", rest, token);
    NoTokenWithoutFirst(number, tail + rest, token);
    NoTokenAppend(number, tail, rest, token);
    assert (number + tail) + rest == number + (tail + rest);
    NoTokenInOtherText("recordId", (number + tail) + rest, key);
    NoTokenAppend(Quoted("recordId"), number + tail, rest, token);
    NoTokenWithoutFirst("{", (Quoted("recordId") + (number + tail)) + rest, token);
    NoTokenAppend("{", Quoted("recordId") + (number + tail), rest, token);
    assert BeforeId(r) == "{" + (Quoted("recordId") + (number + tail));
  }

  lemma NoTokenInIdAndTimestamp(r: TelemetryRecord, rest: string)
    requires QuoteFree(Escape(r.packet.deviceId)) && Escape(r.packet.deviceId) != "telemetry"
    requires rest != "" && rest[0] == '"'
    ensures NoTokenIn(Quoted(Escape(r.packet.deviceId)) + ("," + (Quoted("timestamp") + Timestamp(r))), rest,
                      Quoted("telemetry"))
  {
    hide NoTokenIn, Escape;
    var key := "telemetry";
    var token, id, stamp := Quoted(key), Quoted(Escape(r.packet.deviceId)), Timestamp(r);
    Decimal.PrintHoldsDigits(r.packet.timestamp);
    NoTokenWithoutFirst(stamp, rest, token);
    NoTokenInOtherText("timestamp", stamp + rest, key);
    var tail := Quoted("timestamp") + stamp;
    NoTokenAppend(Quoted("timestamp"), stamp, rest, token);
    NoTokenWithoutFirst(",", tail + rest, token);
    NoTokenAppend(",", tail, rest, token);
    NoTokenInOtherText(Escape(r.packet.deviceId), ("," + tail) + rest, key);
    NoTokenAppend(id, "," + tail, rest, token);
  }

  /** The scan starts at the telemetry object even when the device id spells the telemetry key. */
  lemma TelemetryStarts(r: TelemetryRecord)
    requires QuoteFree(Escape(r.packet.deviceId))
    requires r.packet.telemetryJson != "" && r.packet.telemetryJson[0] == '{'
    ensures ObjectStart(RecordText(r), "telemetry") == Some(r.packet.telemetryJson + Behind(r))
  {
    hide ObjectStart, NoTokenIn, Escape, Behind, BeforeId, RecordText;
    RecordLayout(r);
    var key, id, obj := "telemetry", Quoted(Escape(r.packet.deviceId)), r.packet.telemetryJson + Behind(r);
    var stamp := Timestamp(r);
    Decimal.PrintHoldsDigits(r.packet.timestamp);
    var text3 := Quoted(key) + (":" + obj);
    var text2 := Quoted("timestamp") + (stamp + text3);
    if Escape(r.packet.deviceId) == key {
      var gap := "," + Quoted("timestamp");
      var gap2 := Decimal.Print(r.packet.timestamp) + "," + Quoted(key) + ":";
      assert "," + text2 == gap + (":" + (gap2 + obj));
      NoTokenInBeforeId(r, Quoted(key) + (gap + (":" + (gap2 + obj))));
      ObjectStartAt(BeforeId(r), gap, gap2, obj, key);
    } else {
      var middle := id + ("," + (Quoted("timestamp") + stamp));
      assert id + ("," + text2) == middle + text3;
      NoTokenInBeforeId(r, middle + text3);
      NoTokenInIdAndTimestamp(r, text3);
      NoTokenAppend(BeforeId(r), middle, text3, Quoted(key));
      assert RecordText(r) == (BeforeId(r) + middle) + text3;
      assert ":" + obj == "" + (":" + ("" + obj));
      ObjectStartAt(BeforeId(r) + middle, "", "", obj, key);
    }
  }

  lemma TelemetryFound(r: TelemetryRecord)
    requires QuoteFree(Escape(r.packet.deviceId)) && ScanComplete(r.packet.telemetryJson)
    ensures ExtractObject(RecordText(r), "telemetry") == Some(r.packet.telemetryJson)
  {
    hide ObjectStart, Escape, Behind, RecordText;
    var telemetry := r.packet.telemetryJson;
    TelemetryStarts(r);
    ScanFinishedAppend(telemetry, Behind(r), START);
    assert (telemetry + Behind(r))[..|telemetry|] == telemetry;
  }

  // ---------- Exactly the records that survive ----------

  /** The value a search brings back: what telemetry shadows it with, else the printed field. */
  function Recovered(telemetry: string, key: string, value: string): string {
    if Shadow(telemetry, key).Some? then Shadow(telemetry, key).value else UntilQuote(Escape(value) + "\"")
  }

  lemma LaterField(r: TelemetryRecord, i: nat)
    requires ScanComplete(r.packet.telemetryJson) && i < |TailFields(r)| - 1
    ensures TailFields(r)[i].Text?
    ensures ExtractString(RecordText(r), TailFields(r)[i].name)
            == Some(Recovered(r.packet.telemetryJson, TailFields(r)[i].name, TailFields(r)[i].value))
  {
    hide ExtractString, RecordText, Escape, UntilQuote, FieldsText;
    TailFieldFound(r, i);
    LaterSearch(r, TailFields(r)[i].name);
  }

  lemma EmptyEscape()
    ensures Escape("") == ""
  {
  }

  lemma BatchField(r: TelemetryRecord)
    requires ScanComplete(r.packet.telemetryJson)
    ensures OrElse(ExtractString(RecordText(r), "batchCode"), "")
            == Recovered(r.packet.telemetryJson, "batchCode", r.packet.batchCode)
  {
    hide ExtractString, RecordText, Escape, FieldsText;
    if r.packet.batchCode == "" {
      assert Escape("") == "" by { EmptyEscape(); }
      NoBatchCodeFound(r);
      LaterSearch(r, "batchCode");
      UntilQuoteOfQuoteFree("");
    } else {
      LaterField(r, 4);
    }
  }

  /** What the parser makes of a printed record whose device id and telemetry can be read back. */
  lemma ParseOfPrinted(r: TelemetryRecord)
    requires QuoteFree(Escape(r.packet.deviceId)) && ScanComplete(r.packet.telemetryJson)
    ensures
      var t := r.packet.telemetryJson;
      Parse(RecordText(r)) == Parsed(TelemetryPacket(
        Escape(r.packet.deviceId), r.packet.timestamp, t,
        Recovered(t, "hash", r.packet.hashHex), Recovered(t, "signature", r.packet.signature),
        Recovered(t, "pubKeyId", r.packet.pubKeyId), Recovered(t, "transport", r.packet.transport),
        Recovered(t, "batchCode", r.packet.batchCode)))
  {
    hide ExtractString, ExtractObject, ExtractUnsigned, RecordText, Recovered, Escape, UntilQuote, ScanComplete;
    DeviceIdFound(r);
    UntilQuoteOfQuoteFree(Escape(r.packet.deviceId));
    TimestampFound(r);
    TelemetryFound(r);
    LaterField(r, 0);
    LaterField(r, 1);
    LaterField(r, 2);
    LaterField(r, 3);
    BatchField(r);
  }

  /** The seven characters JSON escapes here. */
  predicate Special(c: char) {
    c in ['"', '\\', '\U{08}', '\U{0C}', '\n', '\r', '\t']
  }

  predicate Unescaped(v: string) {
    forall i :: 0 <= i < |v| ==> !Special(v[i])
  }

  lemma {:induction false} EscapeGrows(v: string)
    ensures |Escape(v)| >= |v|
  {
    if v == "" {
    } else {
      EscapeGrows(v[1..]);
    }
  }

  lemma CharUnchangedIff(c: char)
    ensures !Special(c) ==> EscapeChar(c) == [c] && c != '"'
    ensures Special(c) ==> |EscapeChar(c)| == 2
  {
  }

  /** Escaping changes nothing exactly when there is nothing to escape. */
  lemma {:induction false} UnchangedIffUnescaped(v: string)
    ensures Escape(v) == v <==> Unescaped(v)
    ensures Unescaped(v) ==> QuoteFree(v)
  {
    if v == "" {
    } else {
      hide EscapeChar, Special;
      EscapeGrows(v[1..]);
      UnchangedIffUnescaped(v[1..]);
      CharUnchangedIff(v[0]);
      assert v == [v[0]] + v[1..] && Escape(v) == EscapeChar(v[0]) + Escape(v[1..]);
      if !Special(v[0]) {
        assert Escape(v)[1..] == Escape(v[1..]);
      }
    }
  }

  /** A text field comes back: telemetry shadows it with the same value, or there is nothing to escape in it. */
  predicate Survives(telemetry: string, key: string, value: string) {
    match Shadow(telemetry, key)
    case Some(v) => v == value
    case None => Unescaped(value)
  }

  /** The condition for a packet to be read back from its printed record; receipts play no part. */
  predicate Recoverable(p: TelemetryPacket) {
    && Unescaped(p.deviceId)
    && p.telemetryJson != "" && p.telemetryJson[0] == '{'
    && ScanEnd(p.telemetryJson, START) == Some(|p.telemetryJson|)
    && Survives(p.telemetryJson, "hash", p.hashHex)
    && Survives(p.telemetryJson, "signature", p.signature)
    && Survives(p.telemetryJson, "pubKeyId", p.pubKeyId)
    && Survives(p.telemetryJson, "transport", p.transport)
    && Survives(p.telemetryJson, "batchCode", p.batchCode)
  }

  lemma {:induction false} EscapeKeepsQuoteFree(v: string)
    requires QuoteFree(v)
    ensures QuoteFree(Escape(v))
  {
    if v == "" {
    } else {
      EscapeKeepsQuoteFree(v[1..]);
    }
  }

  lemma RecoveredIsValue(telemetry: string, key: string, value: string)
    ensures Recovered(telemetry, key, value) == value <==> Survives(telemetry, key, value)
  {
    hide Escape, Unescaped;
    UnchangedIffUnescaped(value);
    if Shadow(telemetry, key).None? && QuoteFree(value) {
      EscapeKeepsQuoteFree(value);
      UntilQuoteOfQuoteFree(Escape(value));
    }
  }

  /** Parsing what RecordToJson prints gives the packet back exactly for recoverable packets. */
  lemma RoundTripIff(r: TelemetryRecord)
    ensures Parse(RecordText(r)) == Parsed(r.packet) <==> Recoverable(r.packet)
  {
    hide ExtractString, ExtractObject, ExtractUnsigned, RecordText, Recovered, Escape, UntilQuote, Survives, Unescaped;
    var p := r.packet;
    UnchangedIffUnescaped(p.deviceId);
    if Parse(RecordText(r)) == Parsed(p) {
      EscapeKeepsQuoteFree(p.deviceId);
    }
    if QuoteFree(Escape(p.deviceId)) && ScanComplete(p.telemetryJson) {
      ParseOfPrinted(r);
      RecoveredIsValue(p.telemetryJson, "hash", p.hashHex);
      RecoveredIsValue(p.telemetryJson, "signature", p.signature);
      RecoveredIsValue(p.telemetryJson, "pubKeyId", p.pubKeyId);
      RecoveredIsValue(p.telemetryJson, "transport", p.transport);
      RecoveredIsValue(p.telemetryJson, "batchCode", p.batchCode);
    }
  }

  // ---------- In a caller's words ----------

  /** The quoted key stands somewhere in the text. */
  ghost predicate Mentions(t: string, key: string) {
    exists i :: 0 <= i < |t| && Quoted(key) <= t[i..]
  }

  ghost predicate MentionsLaterKey(t: string) {
    Mentions(t, "hash") || Mentions(t, "signature") || Mentions(t, "pubKeyId") || Mentions(t, "transport") || Mentions(t, "batchCode")
  }

  /** A key that telemetry does not mention is not shadowed. */
  lemma UnmentionedIsNotShadowed(t: string, key: string)
    requires EndsWithBrace(t) && Plain(key) && !Mentions(t, key)
    ensures Shadow(t, key) == None
  {
    hide ExtractString, MatchKey, Mentions, Quoted, Plain;
    var tail := ",\"";
    forall i | 0 <= i < |t| ensures MatchKey((t + tail)[i..], key) == None {
      UnmentionedDoesNotMatch(t, i, tail, key);
    }
    SearchSkips(t, tail, key);
    NothingInCommaQuote(key);
  }

  lemma UnmentionedDoesNotMatch(t: string, i: nat, tail: string, key: string)
    requires EndsWithBrace(t) && Plain(key) && !Mentions(t, key) && i < |t|
    ensures MatchKey((t + tail)[i..], key) == None
  {
    hide Plain, Quoted, BehindColon;
    assert (t + tail)[i..] == t[i..] + tail;
    TokenAppend(t[i..], tail, key);
    assert !(Quoted(key) <= t[i..]);
  }

  /** When telemetry mentions no later key, a record comes back exactly when it is complete and nothing in its fields is escaped. */
  lemma UnshadowedRoundTripIff(r: TelemetryRecord)
    requires !MentionsLaterKey(r.packet.telemetryJson)
    ensures
      var p := r.packet;
      Parse(RecordText(r)) == Parsed(p) <==>
        && ScanComplete(p.telemetryJson) && Unescaped(p.deviceId) && Unescaped(p.hashHex) && Unescaped(p.signature)
        && Unescaped(p.pubKeyId) && Unescaped(p.transport) && Unescaped(p.batchCode)
  {
    hide Parse, RecordText, Shadow, Unescaped, Mentions, Plain, ScanEnd;
    var t := r.packet.telemetryJson;
    RoundTripIff(r);
    if ScanComplete(t) {
      TailNamesArePlain();
      UnmentionedIsNotShadowed(t, "hash");
      UnmentionedIsNotShadowed(t, "signature");
      UnmentionedIsNotShadowed(t, "pubKeyId");
      UnmentionedIsNotShadowed(t, "transport");
      UnmentionedIsNotShadowed(t, "batchCode");
    }
  }

  /** Telemetry {"hash":"x"} takes the place of any other hash when its record is read back. */
  lemma ShadowedFieldIsLost(r: TelemetryRecord)
    requires r.packet.telemetryJson == "{\"hash\":\"x\"}" && r.packet.hashHex != "x"
    ensures Parse(RecordText(r)) != Parsed(r.packet)
  {
    hide Parse, RecordText, Escape, UntilQuote, MemberText, ExtractString;
    var t, key := r.packet.telemetryJson, "hash";
    var rest := "}" + ",\"";
    EscapeOfX();
    assert MemberText(Text(key, "x")) == "\"hash\":\"x\"" by { MemberTextOfX(); }
    assert t + ",\"" == "{" + (MemberText(Text(key, "x")) + rest);
    TailNamesArePlain();
    SearchPassesBrace(MemberText(Text(key, "x")) + rest, key);
    TextMemberFound(key, "x", rest);
    UntilQuoteOfQuoteFree("x");
    assert Shadow(t, key) == Some("x");
    RoundTripIff(r);
  }

  lemma EscapeOfX()
    ensures Escape("x") == "x"
  {
    assert "x"[1..] == "";
  }

  lemma MemberTextOfX()
    ensures MemberText(Text("hash", "x")) == "\"hash\":\"x\""
  {
    EscapeOfX();
  }

  /** A line break in the transport is printed as two characters and not put together again. */
  lemma EscapedCharacterIsLost(r: TelemetryRecord)
    requires r.packet.telemetryJson == "{}" && r.packet.transport == "a\nb"
    ensures Parse(RecordText(r)) != Parsed(r.packet)
  {
    hide Parse, RecordText;
    assert Special(r.packet.transport[1]);
    assert forall i :: 0 <= i < 2 ==> |"{}"[i..]| <= 2;
    assert |Quoted("hash")| > 2 && |Quoted("signature")| > 2 && |Quoted("pubKeyId")| > 2;
    assert |Quoted("transport")| > 2 && |Quoted("batchCode")| > 2;
    UnshadowedRoundTripIff(r);
  }
}
