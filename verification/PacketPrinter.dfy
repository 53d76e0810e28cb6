/** The JSON the gateway answers queries with. */
module PacketPrinter {
  import opened Domain
  import opened PacketParser
  import Decimal

  // ---------- Escaping ----------

  function EscapeChar(c: char): string {
    if c == '"' then "\\\""
    else if c == '\\' then "\\\\"
    else if c == '\U{08}' then "\\b"
    else if c == '\U{0C}' then "\\f"
    else if c == '\n' then "\\n"
    else if c == '\r' then "\\r"
    else if c == '\t' then "\\t"
    else [c]
  }

  function Escape(value: string): string {
    if value == "" then "" else EscapeChar(value[0]) + Escape(value[1..])
  }

  method JsonEscape(value: string) returns (escaped: string)
    ensures escaped == Escape(value)
  {
    hide Escape, EscapeChar;
    escaped := "";
    EscapeFrom(value, 0);
    for i := 0 to |value|
      invariant escaped == Escape(value[..i])
    {
      EscapeFrom(value, i);
      escaped := escaped + EscapeChar(value[i]);
    }
    assert value[..|value|] == value;
  }

  /** What is escaped so far, and with one more character. */
  lemma {:induction false} EscapeFrom(value: string, i: nat)
    requires i <= |value|
    ensures Escape(value[..0]) == ""
    ensures i < |value| ==> Escape(value[..i + 1]) == Escape(value[..i]) + EscapeChar(value[i])
  {
    hide EscapeChar;
    if i == 0 {
      assert |value| > 0 ==> value[..1][1..] == "";
    } else if i < |value| {
      var rest := value[1..];
      EscapeFrom(rest, i - 1);
      assert value[..i + 1][1..] == rest[..i] && value[..i][1..] == rest[..i - 1];
      assert Escape(value[..i + 1]) == EscapeChar(value[0]) + Escape(rest[..i]);
      assert Escape(value[..i]) == EscapeChar(value[0]) + Escape(rest[..i - 1]);
    }
  }

  // ---------- Members ----------

  /** A member of a printed object: an escaped text, a number, or text copied as it is. */
  datatype Field =
    | Text(name: string, value: string)
    | Number(name: string, n: nat)
    | Raw(name: string, text: string)

  function ValueText(f: Field): string {
    match f
    case Text(_, value) => Quoted(Escape(value))
    case Number(_, n) => Decimal.Print(n)
    case Raw(_, text) => text
  }

  function MemberText(f: Field): string {
    Quoted(f.name) + ":" + ValueText(f)
  }

  function FieldsText(fs: seq<Field>): string {
    if fs == [] then ""
    else if |fs| == 1 then MemberText(fs[0])
    else MemberText(fs[0]) + "," + FieldsText(fs[1..])
  }

  lemma {:induction false} FieldsAppend(fs: seq<Field>, gs: seq<Field>)
    requires fs != [] && gs != []
    ensures FieldsText(fs + gs) == FieldsText(fs) + "," + FieldsText(gs)
  {
    assert (fs + gs)[1..] == fs[1..] + gs;
    if |fs| == 1 {
      assert fs[1..] + gs == gs;
    } else {
      FieldsAppend(fs[1..], gs);
    }
  }

  // ---------- Receipts and records ----------

  function ReceiptFields(r: BlockchainReceipt): seq<Field> {
    [Text("txHash", r.txHash), Number("blockHeight", r.blockHeight), Text("submittedAt", r.submittedAt)]
  }

  /** ReceiptToJson. */
  function ReceiptText(receipt: Option<BlockchainReceipt>): string {
    if receipt.None? then "null" else "{" + FieldsText(ReceiptFields(receipt.value)) + "}"
  }

  function HeadFields(r: TelemetryRecord): seq<Field> {
    [Number("recordId", r.recordId), Text("deviceId", r.packet.deviceId), Number("timestamp", r.packet.timestamp)]
  }

  function TailFields(r: TelemetryRecord): seq<Field> {
    [Text("hash", r.packet.hashHex), Text("signature", r.packet.signature),
     Text("pubKeyId", r.packet.pubKeyId), Text("transport", r.packet.transport)]
    + (if r.packet.batchCode == "" then [] else [Text("batchCode", r.packet.batchCode)])
    + [Raw("receipt", ReceiptText(r.receipt))]
  }

  function RecordFields(r: TelemetryRecord): seq<Field> {
    HeadFields(r) + [Raw("telemetry", r.packet.telemetryJson)] + TailFields(r)
  }

  /** RecordToJson: the members in the order they are streamed, telemetry copied without escaping. */
  function RecordText(r: TelemetryRecord): string {
    "{" + FieldsText(RecordFields(r)) + "}"
  }

  method ValueToJson(f: Field) returns (text: string)
    ensures text == ValueText(f)
  {
    hide Escape;
    match f {
      case Text(_, value) =>
        var escaped := JsonEscape(value);
        text := Quoted(escaped);
      case Number(_, n) => text := Decimal.Print(n);
      case Raw(_, raw) => text := raw;
    }
  }

  /** Streams one more member, behind a comma unless it is the first. */
  method PutMember(out: string, f: Field, ghost fs: seq<Field>, comma: bool) returns (longer: string, ghost more: seq<Field>)
    requires comma == (fs != []) && out == "{" + FieldsText(fs)
    ensures more == fs + [f] && longer == "{" + FieldsText(more)
  {
    hide Quoted, ValueText;
    var value := ValueToJson(f);
    LastMember(fs, f);
    longer := out + (if comma then "," else "") + (Quoted(f.name) + ":" + value);
    more := fs + [f];
  }

  lemma LastMember(fs: seq<Field>, f: Field)
    ensures "{" + FieldsText(fs + [f]) == "{" + FieldsText(fs) + (if fs != [] then "," else "") + MemberText(f)
  {
    hide MemberText;
    if fs != [] {
      FieldsAppend(fs, [f]);
    } else {
      assert fs + [f] == [f];
    }
  }

  method ReceiptToJson(receipt: Option<BlockchainReceipt>) returns (out: string)
    ensures out == ReceiptText(receipt)
  {
    if receipt.None? { return "null"; }
    var r := receipt.value;
    ghost var fs := [];
    assert "{" + FieldsText([]) == "{";
    hide FieldsText;
    out, fs := PutMember("{", Text("txHash", r.txHash), [], false);
    out, fs := PutMember(out, Number("blockHeight", r.blockHeight), fs, true);
    out, fs := PutMember(out, Text("submittedAt", r.submittedAt), fs, true);
    assert fs == ReceiptFields(r);
    out := out + "}";
  }

  method RecordToJson(record: TelemetryRecord) returns (out: string)
    ensures out == RecordText(record)
  {
    hide FieldsText, HeadFields, TailFields;
    ghost var fs;
    out, fs := PutHead(record);
    out, fs := PutTail(out, record, fs);
    out := out + "}";
  }

  /** Up to and including telemetry. */
  method PutHead(record: TelemetryRecord) returns (out: string, ghost fs: seq<Field>)
    ensures fs == HeadFields(record) + [Raw("telemetry", record.packet.telemetryJson)] && out == "{" + FieldsText(fs)
  {
    assert "{" + FieldsText([]) == "{";
    hide FieldsText;
    var p := record.packet;
    out, fs := PutMember("{", Number("recordId", record.recordId), [], false);
    out, fs := PutMember(out, Text("deviceId", p.deviceId), fs, true);
    out, fs := PutMember(out, Number("timestamp", p.timestamp), fs, true);
    assert fs == HeadFields(record);
    out, fs := PutMember(out, Raw("telemetry", p.telemetryJson), fs, true);
  }

  method PutTail(head: string, record: TelemetryRecord, ghost before: seq<Field>) returns (out: string, ghost fs: seq<Field>)
    requires before != [] && head == "{" + FieldsText(before)
    ensures fs == before + TailFields(record) && out == "{" + FieldsText(fs)
  {
    hide FieldsText, ReceiptText;
    var p := record.packet;
    out, fs := PutMember(head, Text("hash", p.hashHex), before, true);
    out, fs := PutMember(out, Text("signature", p.signature), fs, true);
    out, fs := PutMember(out, Text("pubKeyId", p.pubKeyId), fs, true);
    out, fs := PutMember(out, Text("transport", p.transport), fs, true);
    ghost var four := [Text("hash", p.hashHex), Text("signature", p.signature), Text("pubKeyId", p.pubKeyId), Text("transport", p.transport)];
    assert fs == before + four;
    if p.batchCode != "" {
      out, fs := PutMember(out, Text("batchCode", p.batchCode), fs, true);
    }
    var receipt := ReceiptToJson(record.receipt);
    out, fs := PutMember(out, Raw("receipt", receipt), fs, true);
    assert fs == before + TailFields(record);
  }
}
