/** Every member the gateway prints is found again under its own name, with its own value. */
module PrintedFields {
  import opened Domain
  import opened PacketParser
  import opened PacketPrinter
  import opened SearchLaws
  import opened RoundTrip
  import opened ScannerLaws
  import opened Responses
  import Decimal

  /** The field at i is the first with its name, and no raw text before it holds that name. */
  ghost predicate FirstNamed(fs: seq<Field>, i: nat) {
    i < |fs| && Plain(fs[i].name) && forall j :: 0 <= j < i ==> Avoids(fs[j], fs[i].name)
  }

  /** A text member, printed anywhere in a list of members, is read as its text. */
  lemma TextIsRead(fs: seq<Field>, i: nat, close: string)
    requires FirstNamed(fs, i) && Follows(close) && fs[i].Text? && Unescaped(fs[i].value)
    ensures ExtractString(FieldsText(fs) + close, fs[i].name) == Some(fs[i].value)
  {
    hide ExtractString, ExtractDigits, FieldsText, MemberText, Escape, Unescaped, UntilQuote, Avoids, Plain;
    var v := fs[i].value;
    SearchReachesMember(fs, i, close, fs[i].name);
    TextMemberFound(fs[i].name, v, RestAfter(fs, i, close));
    UnchangedIffUnescaped(v);
    UntilQuoteOfQuoteFree(v);
  }

  /** A number member is read as its number, when it fits 64 bits. */
  lemma NumberIsRead(fs: seq<Field>, i: nat, close: string)
    requires FirstNamed(fs, i) && Follows(close) && fs[i].Number?
    ensures ExtractUnsigned(FieldsText(fs) + close, fs[i].name) ==
            if fs[i].n < TWO_TO_THE_64 then Some(fs[i].n) else None
  {
    hide ExtractString, ExtractDigits, FieldsText, MemberText, Avoids, Plain;
    SearchReachesMember(fs, i, close, fs[i].name);
    RestFollows(fs, i, close);
    NumberMemberFound(fs[i].name, fs[i].n, RestAfter(fs, i, close));
    Decimal.ValueOfPrint(fs[i].n);
  }

  lemma RestFollows(fs: seq<Field>, i: nat, close: string)
    requires i < |fs| && Follows(close)
    ensures Follows(RestAfter(fs, i, close))
  {
  }

  // ---------- Receipts ----------

  lemma ReceiptNames(r: BlockchainReceipt)
    ensures FirstNamed(ReceiptFields(r), 0) && FirstNamed(ReceiptFields(r), 1) && FirstNamed(ReceiptFields(r), 2)
  {
    ReceiptNamesDiffer();
    hide Plain;
  }

  lemma ReceiptNamesDiffer()
    ensures Plain("txHash") && Plain("blockHeight") && Plain("submittedAt")
    ensures "txHash" != "blockHeight" && "txHash" != "submittedAt" && "blockHeight" != "submittedAt"
  {
    assert "txHash"[0] == 't' && "blockHeight"[0] == 'b' && "submittedAt"[0] == 's';
  }

  /** What a receipt's members are read as, behind anything that leads up to them. */
  lemma ReceiptMembersAreRead(r: BlockchainReceipt, close: string)
    requires Follows(close) && Unescaped(r.txHash) && Unescaped(r.submittedAt)
    ensures ExtractString(FieldsText(ReceiptFields(r)) + close, "txHash") == Some(r.txHash)
    ensures ExtractUnsigned(FieldsText(ReceiptFields(r)) + close, "blockHeight") == Some(r.blockHeight)
    ensures ExtractString(FieldsText(ReceiptFields(r)) + close, "submittedAt") == Some(r.submittedAt)
  {
    hide ExtractString, ExtractUnsigned, FieldsText, Unescaped, FirstNamed;
    ReceiptNames(r);
    TextIsRead(ReceiptFields(r), 0, close);
    NumberIsRead(ReceiptFields(r), 1, close);
    TextIsRead(ReceiptFields(r), 2, close);
  }

  /** A printed receipt shows its hash, its height and its time each under its own name. */
  lemma ReceiptIsRead(r: BlockchainReceipt)
    requires Unescaped(r.txHash) && Unescaped(r.submittedAt)
    ensures ExtractString(ReceiptText(Some(r)), "txHash") == Some(r.txHash)
    ensures ExtractUnsigned(ReceiptText(Some(r)), "blockHeight") == Some(r.blockHeight)
    ensures ExtractString(ReceiptText(Some(r)), "submittedAt") == Some(r.submittedAt)
  {
    hide ExtractString, ExtractDigits, FieldsText, ReceiptFields, Unescaped;
    var text := FieldsText(ReceiptFields(r)) + "}";
    assert ReceiptText(Some(r)) == "{" + text;
    ReceiptMembersAreRead(r, "}");
    SearchPassesBrace(text, "txHash");
    SearchPassesBrace(text, "blockHeight");
    SearchPassesBrace(text, "submittedAt");
  }

  // ---------- Records ----------

  /** Telemetry that does not mention a key holds no match of it, whatever follows. */
  lemma UnmentionedIsKeyFree(t: string, key: string)
    requires EndsWithBrace(t) && Plain(key) && !Mentions(t, key)
    ensures KeyFree(t, key)
  {
    hide MatchKey, Mentions, Plain;
    forall rest | Follows(rest) ensures NoKeyIn(t, rest, key) {
      forall i | 0 <= i < |t| ensures MatchKey((t + rest)[i..], key) == None {
        UnmentionedDoesNotMatch(t, i, rest, key);
      }
    }
  }

  ghost predicate NotOfRecord(key: string) {
    && Plain(key) && key !in ["recordId", "deviceId", "timestamp", "telemetry"]
    && key !in ["hash", "signature", "pubKeyId", "transport", "batchCode", "receipt"]
  }

  /** A search through a printed record for a name of the receipt alone arrives at the receipt. */
  lemma SearchReachesReceipt(r: TelemetryRecord, key: string)
    requires ScanComplete(r.packet.telemetryJson) && !Mentions(r.packet.telemetryJson, key) && NotOfRecord(key)
    ensures ExtractString(RecordText(r), key) == ExtractString(ReceiptText(r.receipt) + "}", key)
    ensures ExtractDigits(RecordText(r), key) == ExtractDigits(ReceiptText(r.receipt) + "}", key)
  {
    hide ExtractString, ExtractDigits, FieldsText, MemberText, ReceiptText, Avoids, Quoted, Mentions, Follows;
    var fs, rest := RecordFields(r), ReceiptText(r.receipt) + "}";
    var last := |fs| - 1;
    UnmentionedIsKeyFree(r.packet.telemetryJson, key);
    RecordAvoids(r, key);
    assert RecordText(r) == "{" + (FieldsText(fs) + "}");
    assert Follows("}") by { BraceFollows(); }
    SearchPassesBrace(FieldsText(fs) + "}", key);
    SearchReachesMember(fs, last, "}", key);
    RawMemberIsPassed("receipt", ReceiptText(r.receipt), "}", key);
    assert MemberText(fs[last]) + RestAfter(fs, last, "}") == MemberText(Raw("receipt", ReceiptText(r.receipt))) + "}";
  }

  lemma BraceFollows()
    ensures Follows("}")
  {
  }

  /** Another member's name and colon are passed over. */
  lemma RawMemberIsPassed(name: string, text: string, rest: string, key: string)
    requires Plain(name) && Plain(key) && name != key
    ensures ExtractString(MemberText(Raw(name, text)) + rest, key) == ExtractString(text + rest, key)
    ensures ExtractDigits(MemberText(Raw(name, text)) + rest, key) == ExtractDigits(text + rest, key)
  {
    hide ExtractString, ExtractDigits, NoKeyIn, Quoted, Plain;
    assert MemberText(Raw(name, text)) + rest == Quoted(name) + (":" + (text + rest));
    NoKeyInOtherName(name, ":" + (text + rest), key);
    SearchSkips(Quoted(name), ":" + (text + rest), key);
    NoKeyInQuoteFree(":", text + rest, key);
    SearchSkips(":", text + rest, key);
  }

  lemma RecordAvoids(r: TelemetryRecord, key: string)
    requires KeyFree(r.packet.telemetryJson, key) && NotOfRecord(key)
    ensures
      var fs := RecordFields(r);
      && |fs| > 0 && fs[|fs| - 1] == Raw("receipt", ReceiptText(r.receipt)) && Plain("receipt") && key != "receipt"
      && forall j :: 0 <= j < |fs| - 1 ==> Avoids(fs[j], key)
  {
    hide KeyFree, ReceiptText;
    HeadNamesArePlain();
    TailNamesArePlain();
    hide Plain;
    var heads := ["recordId", "deviceId", "timestamp", "telemetry"];
    var tails := ["hash", "signature", "pubKeyId", "transport", "batchCode", "receipt"];
    assert heads[0] != key && heads[1] != key && heads[2] != key && heads[3] != key;
    assert tails[0] != key && tails[1] != key && tails[2] != key && tails[3] != key && tails[4] != key && tails[5] != key;
  }

  /** A printed record shows its receipt's members, when telemetry does not mention them. */
  lemma RecordReceiptIsRead(r: TelemetryRecord)
    requires ScanComplete(r.packet.telemetryJson)
    requires !Mentions(r.packet.telemetryJson, "txHash") && !Mentions(r.packet.telemetryJson, "blockHeight")
             && !Mentions(r.packet.telemetryJson, "submittedAt")
    requires r.receipt.Some? && Unescaped(r.receipt.value.txHash) && Unescaped(r.receipt.value.submittedAt)
    ensures ExtractString(RecordText(r), "txHash") == Some(r.receipt.value.txHash)
    ensures ExtractUnsigned(RecordText(r), "blockHeight") == Some(r.receipt.value.blockHeight)
    ensures ExtractString(RecordText(r), "submittedAt") == Some(r.receipt.value.submittedAt)
  {
    hide ExtractString, ExtractDigits, FieldsText, RecordText, ReceiptFields, Unescaped, Mentions, NotOfRecord, ScanComplete;
    ReceiptNamesAreNotOfRecord();
    SearchReachesReceipt(r, "txHash");
    SearchReachesReceipt(r, "blockHeight");
    SearchReachesReceipt(r, "submittedAt");
    var text := FieldsText(ReceiptFields(r.receipt.value)) + "}}";
    assert ReceiptText(r.receipt) + "}" == "{" + text;
    ReceiptMembersAreRead(r.receipt.value, "}}");
    SearchPassesBrace(text, "txHash");
    SearchPassesBrace(text, "blockHeight");
    SearchPassesBrace(text, "submittedAt");
  }

  lemma ReceiptNamesAreNotOfRecord()
    ensures NotOfRecord("txHash") && NotOfRecord("blockHeight") && NotOfRecord("submittedAt")
  {
    ReceiptNamesDiffer();
    hide Plain;
    assert |"txHash"| == 6 && |"blockHeight"| == 11 && |"submittedAt"| == 11;
    assert "txHash"[1] == 'x' && "blockHeight"[0] == 'b' && "submittedAt"[0] == 's';
  }

  /** The record id is read back too, when it fits 64 bits. */
  lemma RecordIdIsRead(r: TelemetryRecord)
    ensures ExtractUnsigned(RecordText(r), "recordId") == if r.recordId < TWO_TO_THE_64 then Some(r.recordId) else None
  {
    hide ExtractString, ExtractDigits, FieldsText, Plain;
    var fs := RecordFields(r);
    HeadNamesArePlain();
    assert RecordText(r) == "{" + (FieldsText(fs) + "}");
    SearchPassesBrace(FieldsText(fs) + "}", "recordId");
    NumberIsRead(fs, 0, "}");
  }

  // ---------- Events ----------

  lemma EventNames(packet: TelemetryPacket, result: IngestResult, i: nat)
    requires 0 < i < |EventFields(packet, result)|
    ensures FirstNamed(EventFields(packet, result), i)
  {
    hide Plain, KeyFree, INGESTED, REJECTED;
    var fs := EventFields(packet, result);
    if result.accepted {
      AcceptedNamesDiffer(i);
      var names := ["type", "deviceId", "recordId", "timestamp", "transport", "txHash"];
      assert forall j :: 0 <= j <= i ==> fs[j].name == names[j];
    } else {
      RejectedNamesDiffer(i);
      var names := ["type", "deviceId", "message"];
      assert forall j :: 0 <= j <= i ==> fs[j].name == names[j];
    }
    EventTypeIsKeyFree(fs[i].name);
  }

  lemma AcceptedNamesDiffer(i: nat)
    requires 0 < i < 6
    ensures var names := ["type", "deviceId", "recordId", "timestamp", "transport", "txHash"];
            && (forall j :: 0 <= j <= i ==> Plain(names[j])) && forall j :: 0 <= j < i ==> names[j] != names[i]
  {
    EventNamesArePlain();
    hide Plain;
    assert "type"[1] == 'y' && "timestamp"[1] == 'i' && "transport"[1] == 'r' && "txHash"[1] == 'x';
    assert "deviceId"[1] == 'e' && "recordId"[0] == 'r' && "deviceId"[0] == 'd';
    assert "type"[0] == "timestamp"[0] == "transport"[0] == "txHash"[0] == 't';
  }

  lemma RejectedNamesDiffer(i: nat)
    requires 0 < i < 3
    ensures var names := ["type", "deviceId", "message"];
            && (forall j :: 0 <= j <= i ==> Plain(names[j])) && forall j :: 0 <= j < i ==> names[j] != names[i]
  {
    EventNamesArePlain();
    hide Plain;
    assert "type"[0] == 't' && "deviceId"[0] == 'd' && "message"[0] == 'm';
  }

  lemma EventNamesArePlain()
    ensures Plain("type") && Plain("message") && Plain("txHash") && Plain("deviceId") && Plain("recordId")
    ensures Plain("timestamp") && Plain("transport")
  {
  }

  /** The type of an event is no place for another member's name. */
  lemma EventTypeIsKeyFree(key: string)
    requires Plain(key)
    ensures KeyFree(Quoted(INGESTED), key) && KeyFree(Quoted(REJECTED), key)
  {
    hide NoKeyIn, Follows, Escape, Plain, Quoted, INGESTED, REJECTED;
    EventTypesAreUnescaped();
    forall rest | Follows(rest)
      ensures NoKeyIn(Quoted(INGESTED), rest, key) && NoKeyIn(Quoted(REJECTED), rest, key)
    {
      NoKeyInValue(INGESTED, rest, key);
      NoKeyInValue(REJECTED, rest, key);
    }
  }

  lemma EventTypesAreUnescaped()
    ensures Unescaped(INGESTED) && Escape(INGESTED) == INGESTED && Unescaped(REJECTED) && Escape(REJECTED) == REJECTED
  {
    hide Escape;
    UnchangedIffUnescaped(INGESTED);
    UnchangedIffUnescaped(REJECTED);
  }

  /** The event of an accepted call shows the call's own values under their names. */
  lemma AcceptedEventIsRead(packet: TelemetryPacket, result: IngestResult)
    requires result.accepted && result.recordId < TWO_TO_THE_64
    requires Unescaped(packet.deviceId) && Unescaped(packet.transport)
    requires result.receipt.Some? && Unescaped(result.receipt.value.txHash)
    ensures var text := EventText(packet, result);
            && ExtractString(text, "deviceId") == Some(packet.deviceId)
            && ExtractUnsigned(text, "recordId") == Some(result.recordId)
            && ExtractUnsigned(text, "timestamp") == Some(packet.timestamp)
            && ExtractString(text, "transport") == Some(packet.transport)
            && ExtractString(text, "txHash") == Some(result.receipt.value.txHash)
  {
    hide ExtractString, ExtractDigits, FieldsText, Unescaped, FirstNamed;
    var fs := EventFields(packet, result);
    assert EventText(packet, result) == "{" + (FieldsText(fs) + "}");
    BraceFollows();
    forall i | 0 < i < 6
      ensures FirstNamed(fs, i)
      ensures ExtractString("{" + (FieldsText(fs) + "}"), fs[i].name) == ExtractString(FieldsText(fs) + "}", fs[i].name)
      ensures ExtractDigits("{" + (FieldsText(fs) + "}"), fs[i].name) == ExtractDigits(FieldsText(fs) + "}", fs[i].name)
    {
      EventNames(packet, result, i);
      SearchPassesBrace(FieldsText(fs) + "}", fs[i].name);
    }
    TextIsRead(fs, 1, "}");
    NumberIsRead(fs, 2, "}");
    NumberIsRead(fs, 3, "}");
    TextIsRead(fs, 4, "}");
    TextIsRead(fs, 5, "}");
  }

  lemma RejectedEventIsRead(packet: TelemetryPacket, result: IngestResult)
    requires !result.accepted && Unescaped(packet.deviceId) && Unescaped(result.message)
    ensures var text := EventText(packet, result);
            && ExtractString(text, "deviceId") == Some(packet.deviceId)
            && ExtractString(text, "message") == Some(result.message)
  {
    hide ExtractString, ExtractDigits, FieldsText, Unescaped, FirstNamed;
    var fs := EventFields(packet, result);
    assert EventText(packet, result) == "{" + (FieldsText(fs) + "}");
    BraceFollows();
    EventNames(packet, result, 1);
    EventNames(packet, result, 2);
    SearchPassesBrace(FieldsText(fs) + "}", "deviceId");
    SearchPassesBrace(FieldsText(fs) + "}", "message");
    TextIsRead(fs, 1, "}");
    TextIsRead(fs, 2, "}");
  }

  /** Every event says under "type" which kind it is. */
  lemma EventTypeIsRead(packet: TelemetryPacket, result: IngestResult)
    ensures ExtractString(EventText(packet, result), "type")
            == Some(if result.accepted then "telemetry.ingested" else "ingest.rejected")
  {
    hide ExtractString, ExtractDigits, FieldsText, Escape, UntilQuote, Unescaped, Plain, INGESTED, REJECTED;
    var fs, v := EventFields(packet, result), if result.accepted then INGESTED else REJECTED;
    EventTypesAreUnescaped();
    assert fs[0] == Raw("type", Quoted(v)) && MemberText(fs[0]) == MemberText(Text("type", v));
    hide MemberText;
    assert EventText(packet, result) == "{" + (FieldsText(fs) + "}");
    SearchPassesBrace(FieldsText(fs) + "}", "type");
    EventNamesArePlain();
    BraceFollows();
    SearchReachesMember(fs, 0, "}", "type");
    TextMemberFound("type", v, RestAfter(fs, 0, "}"));
    UnchangedIffUnescaped(v);
    UntilQuoteOfQuoteFree(v);
    TypesAre();
  }

  lemma TypesAre()
    ensures INGESTED == "telemetry.ingested" && REJECTED == "ingest.rejected"
  {
  }
}
