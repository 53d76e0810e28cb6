/** Payloads as clients write them: the fields in any order and any layout are parsed to the packet they give. */
module Payloads {
  import opened Domain
  import opened PacketParser
  import opened SearchLaws
  import opened ScannerLaws
  import opened RoundTrip
  import opened FieldForms
  import Decimal

  datatype Value = TextValue(text: string) | NumberValue(n: nat) | ObjectValue(obj: string)

  /** A field with the white space before its key, around its colon and behind its value. */
  datatype Written = Written(key: string, value: Value, w0: string, w1: string, w2: string, w3: string)

  function Shown(value: Value): string {
    match value
    case TextValue(text) => Quoted(text)
    case NumberValue(n) => Decimal.Print(n)
    case ObjectValue(obj) => obj
  }

  function FieldText(f: Written): string {
    f.w0 + Keyed(f.key, f.w1, f.w2, Shown(f.value) + f.w3)
  }

  /** The fields, each with the comma behind it. */
  function Prefix(fs: seq<Written>): string {
    if fs == [] then "" else FieldText(fs[0]) + "," + Prefix(fs[1..])
  }

  function ListText(fs: seq<Written>): string {
    if fs == [] then "" else Prefix(fs[..|fs| - 1]) + FieldText(fs[|fs| - 1])
  }

  /** White space, texts without quotes, and objects the scanner takes. */
  ghost predicate WellWritten(f: Written) {
    && Plain(f.key) && White(f.w0) && White(f.w1) && White(f.w2) && White(f.w3)
    && match f.value
       case TextValue(text) => QuoteFree(text)
       case NumberValue(_) => true
       case ObjectValue(obj) => ScanComplete(obj)
  }

  /** A field of another name that does not mention the key. */
  ghost predicate Silent(f: Written, key: string) {
    && f.key != key
    && match f.value
       case TextValue(text) => text != key
       case NumberValue(_) => true
       case ObjectValue(obj) => !Mentions(obj, key)
  }

  // ---------- Fields of other names ----------

  /** Behind the text comes no letter, so nothing that starts in it goes on as a key. */
  ghost predicate NoLetter(rest: string) {
    rest != "" && !('a' <= rest[0] <= 'z') && !('A' <= rest[0] <= 'Z')
  }

  lemma QuoteFreeHoldsNoToken(head: string, rest: string, key: string)
    requires QuoteFree(head)
    ensures NoTokenIn(head, rest, Quoted(key))
  {
    QuotedStarts(key);
    hide Quoted;
    NoTokenWithoutFirst(head, rest, Quoted(key));
  }

  lemma ObjectHoldsNoToken(obj: string, rest: string, key: string)
    requires EndsWithBrace(obj) && Plain(key) && !Mentions(obj, key)
    ensures NoTokenIn(obj, rest, Quoted(key))
  {
    hide Mentions, Plain, Quoted;
    forall i | 0 <= i < |obj| ensures !(Quoted(key) <= (obj + rest)[i..]) {
      assert (obj + rest)[i..] == obj[i..] + rest;
      TokenAppend(obj[i..], rest, key);
      NotMentionedAt(obj, i, key);
    }
  }

  lemma NotMentionedAt(t: string, i: nat, key: string)
    requires !Mentions(t, key) && i < |t|
    ensures !(Quoted(key) <= t[i..])
  {
  }

  lemma WhiteIsQuoteFree(w: string)
    requires White(w)
    ensures QuoteFree(w) && (w != "" ==> NoLetter(w))
  {
  }

  lemma ValueHoldsNoToken(f: Written, rest: string, key: string)
    requires WellWritten(f) && Silent(f, key) && Plain(key) && NoLetter(rest)
    ensures NoTokenIn(Shown(f.value), rest, Quoted(key))
  {
    hide Mentions, White, Quoted, NoTokenIn, ScanEnd;
    match f.value {
      case TextValue(text) => NoTokenInOtherText(text, rest, key);
      case NumberValue(n) =>
        DigitsAreQuoteFree(n);
        QuoteFreeHoldsNoToken(Decimal.Print(n), rest, key);
      case ObjectValue(obj) => ObjectHoldsNoToken(obj, rest, key);
    }
  }

  /** No token of the key starts in a silent field. */
  lemma FieldHoldsNoToken(f: Written, rest: string, key: string)
    requires WellWritten(f) && Silent(f, key) && Plain(key) && NoLetter(rest)
    ensures NoTokenIn(FieldText(f), rest, Quoted(key))
  {
    hide Mentions, White, Quoted, NoTokenIn, ScanEnd, Shown, Plain;
    var token, value := Quoted(key), Shown(f.value);
    WhiteIsQuoteFree(f.w0);
    WhiteIsQuoteFree(f.w1);
    WhiteIsQuoteFree(f.w2);
    WhiteIsQuoteFree(f.w3);
    QuoteFreeHoldsNoToken(f.w3, rest, key);
    FollowedByNoLetter(f.w3, rest);
    ValueHoldsNoToken(f, f.w3 + rest, key);
    NoTokenAppend(value, f.w3, rest, token);
    var colon := ":" + f.w2;
    QuoteFreeHoldsNoToken(colon, (value + f.w3) + rest, key);
    NoTokenAppend(colon, value + f.w3, rest, token);
    var tail := colon + (value + f.w3);
    QuoteFreeHoldsNoToken(f.w1, tail + rest, key);
    NoTokenAppend(f.w1, tail, rest, token);
    FollowedByNoLetter(f.w1, tail + rest);
    assert f.w1 + (tail + rest) == (f.w1 + tail) + rest;
    KeyIsQuoteFree(f.key);
    KeyIsQuoteFree(key);
    NoTokenInOtherText(f.key, (f.w1 + tail) + rest, key);
    NoTokenAppend(Quoted(f.key), f.w1 + tail, rest, token);
    QuoteFreeHoldsNoToken(f.w0, (Quoted(f.key) + (f.w1 + tail)) + rest, key);
    NoTokenAppend(f.w0, Quoted(f.key) + (f.w1 + tail), rest, token);
    assert FieldText(f) == f.w0 + (Quoted(f.key) + (f.w1 + tail));
  }

  lemma FollowedByNoLetter(w: string, rest: string)
    requires (w != "" ==> NoLetter(w)) && NoLetter(rest)
    ensures NoLetter(w + rest)
  {
  }

  lemma KeyIsQuoteFree(key: string)
    requires Plain(key)
    ensures QuoteFree(key) && forall rest :: NoLetter(rest) ==> rest[0] != key[0]
  {
  }

  lemma {:induction false} PrefixHoldsNoToken(fs: seq<Written>, rest: string, key: string)
    requires Plain(key) && NoLetter(rest)
    requires forall i :: 0 <= i < |fs| ==> WellWritten(fs[i]) && Silent(fs[i], key)
    ensures NoTokenIn(Prefix(fs), rest, Quoted(key))
  {
    hide Quoted, NoTokenIn, FieldText, Plain, WellWritten, Silent;
    if fs == [] {
      QuoteFreeHoldsNoToken("", rest, key);
    } else {
      var first, others := FieldText(fs[0]), Prefix(fs[1..]);
      PrefixHoldsNoToken(fs[1..], rest, key);
      QuoteFreeHoldsNoToken(",", others + rest, key);
      NoTokenAppend(",", others, rest, Quoted(key));
      assert ("," + others) + rest == "," + (others + rest);
      FieldHoldsNoToken(fs[0], ("," + others) + rest, key);
      NoTokenAppend(first, "," + others, rest, Quoted(key));
      assert Prefix(fs) == first + ("," + others);
    }
  }

  lemma NoTokenIsUnmentioned(head: string, rest: string, key: string)
    requires NoTokenIn(head, rest, Quoted(key))
    ensures !Mentions(head, key)
  {
    forall i | 0 <= i < |head| ensures !(Quoted(key) <= head[i..]) {
      assert (head + rest)[i..] == head[i..] + rest;
      PrefixOfLonger(Quoted(key), head[i..], rest);
    }
  }

  lemma PrefixOfLonger(token: string, a: string, b: string)
    ensures token <= a ==> token <= a + b
  {
  }

  // ---------- A field among others ----------

  /** The first field with the key has this value, and no field before it mentions the key. */
  ghost predicate GivesAt(fs: seq<Written>, key: string, value: Value, i: nat) {
    i < |fs| && fs[i].key == key && fs[i].value == value && forall j :: 0 <= j < i ==> Silent(fs[j], key)
  }

  ghost predicate Gives(fs: seq<Written>, key: string, value: Value) {
    exists i :: GivesAt(fs, key, value, i)
  }

  /** A payload: the fields between any text without quotes. */
  function Payload(head: string, fs: seq<Written>, tail: string): string {
    head + (ListText(fs) + tail)
  }

  lemma PrefixOfCons(fs: seq<Written>)
    requires fs != []
    ensures Prefix(fs) == (FieldText(fs[0]) + ",") + Prefix(fs[1..])
  {
    hide FieldText;
  }

  /** A field of a list, with what stands before and behind it. */
  lemma ListSplits(fs: seq<Written>, i: nat) returns (rest: string)
    requires i < |fs|
    ensures ListText(fs) == Prefix(fs[..i]) + (FieldText(fs[i]) + rest)
    ensures rest == "" || rest[0] == ','
  {
    var init, last := fs[..|fs| - 1], fs[|fs| - 1];
    if i == |fs| - 1 {
      rest := "";
      hide FieldText, Prefix;
      assert FieldText(last) + "" == FieldText(last);
    } else {
      var others := PrefixAt(init, i);
      assert init[..i] == fs[..i] && init[i] == fs[i];
      hide FieldText, Prefix;
      rest := "," + (others + FieldText(last));
      Reassociate(Prefix(fs[..i]), FieldText(fs[i]), others, FieldText(last));
    }
  }

  lemma {:induction false} PrefixAt(fs: seq<Written>, i: nat) returns (others: string)
    requires i < |fs|
    ensures Prefix(fs) == Prefix(fs[..i]) + (FieldText(fs[i]) + "," + others)
    decreases i
  {
    hide Prefix, FieldText;
    var first := FieldText(fs[0]) + ",";
    PrefixOfCons(fs);
    if i == 0 {
      others := Prefix(fs[1..]);
      assert fs[..0] == [];
      PrefixOfNone();
      assert Prefix(fs) == "" + (first + others);
    } else {
      others := PrefixAt(fs[1..], i - 1);
      var front, back := Prefix(fs[1..][..i - 1]), FieldText(fs[i]) + "," + others;
      PrefixOfCons(fs[..i]);
      assert fs[..i][1..] == fs[1..][..i - 1] && fs[..i][0] == fs[0];
      assert first + (front + back) == (first + front) + back;
    }
  }

  lemma PrefixOfNone()
    ensures Prefix([]) == ""
  {
  }

  lemma Reassociate(a: string, b: string, c: string, d: string)
    ensures (a + (b + "," + c)) + d == a + (b + ("," + (c + d)))
  {
  }

  /** The payload is what comes before a field, the field's key and value, and the rest. */
  lemma FieldStandsBehind(head: string, fs: seq<Written>, tail: string, i: nat) returns (before: string, rest: string)
    requires QuoteFree(head) && i < |fs| && (forall j :: 0 <= j <= i ==> WellWritten(fs[j]))
    requires Plain(fs[i].key) && forall j :: 0 <= j < i ==> Silent(fs[j], fs[i].key)
    ensures Payload(head, fs, tail) == before + Keyed(fs[i].key, fs[i].w1, fs[i].w2, Shown(fs[i].value) + rest)
    ensures !Mentions(before, fs[i].key)
    ensures rest != "" ==> (exists w, r :: White(w) && (r == "" || r[0] == ',' || r == tail) && rest == w + r)
  {
    hide Mentions, NoTokenIn, Quoted, Prefix, ListText, Shown, White, Silent, Plain;
    var f, key := fs[i], fs[i].key;
    var r := ListSplits(fs, i);
    before := head + (Prefix(fs[..i]) + f.w0);
    rest := f.w3 + (r + tail);
    assert Payload(head, fs, tail) == before + Keyed(key, f.w1, f.w2, Shown(f.value) + rest) by {
      KeyedAppend(key, f.w1, f.w2, Shown(f.value) + f.w3, r + tail);
      assert (Shown(f.value) + f.w3) + (r + tail) == Shown(f.value) + rest;
    }
    assert r + tail == "" || (r + tail)[0] == ',' || r + tail == tail;
    WhiteIsQuoteFree(f.w0);
    QuoteFreeHoldsNoToken(f.w0, "}", key);
    NoLetterOfBrace();
    FollowedByNoLetter(f.w0, "}");
    PrefixHoldsNoToken(fs[..i], f.w0 + "}", key);
    NoTokenAppend(Prefix(fs[..i]), f.w0, "}", Quoted(key));
    QuoteFreeHoldsNoToken(head, (Prefix(fs[..i]) + f.w0) + "}", key);
    NoTokenAppend(head, Prefix(fs[..i]) + f.w0, "}", Quoted(key));
    NoTokenIsUnmentioned(before, "}", key);
  }

  lemma KeyedAppend(key: string, w1: string, w2: string, value: string, more: string)
    ensures Keyed(key, w1, w2, value) + more == Keyed(key, w1, w2, value + more)
  {
    hide Quoted;
  }

  lemma NoLetterOfBrace()
    ensures NoLetter("}")
  {
  }

  // ---------- The whole payload ----------

  /** The text behind the fields starts with a brace, if there is any, and holds no quote. */
  ghost predicate Closing(tail: string) {
    QuoteFree(tail) && (tail != "" ==> tail[0] == '}')
  }

  lemma RestIsNoDigit(w: string, r: string, tail: string)
    requires White(w) && Closing(tail) && (r == "" || r[0] == ',' || r == tail)
    ensures w + r != "" ==> !Decimal.IsDigit((w + r)[0])
  {
  }

  /** What a payload gives under a key is what the parser reads. */
  lemma GivenIsRead(head: string, fs: seq<Written>, tail: string, key: string, value: Value)
    requires QuoteFree(head) && Closing(tail) && Gives(fs, key, value) && Plain(key)
    requires forall i :: 0 <= i < |fs| ==> WellWritten(fs[i])
    ensures value.TextValue? ==> ExtractString(Payload(head, fs, tail), key) == Some(value.text)
    ensures value.NumberValue? ==> ExtractUnsigned(Payload(head, fs, tail), key) ==
                                   if value.n < TWO_TO_THE_64 then Some(value.n) else None
    ensures value.ObjectValue? ==> ExtractObject(Payload(head, fs, tail), key) == Some(value.obj)
  {
    hide ExtractString, ExtractUnsigned, ExtractObject, Payload, Silent, Plain, Mentions, White, Keyed, QuoteFree, Closing, ScanComplete;
    var i: nat :| GivesAt(fs, key, value, i);
    var before, rest := FieldStandsBehind(head, fs, tail, i);
    var f := fs[i];
    match value {
      case TextValue(text) => StringIsRead(before, key, f.w1, f.w2, text, rest);
      case NumberValue(n) =>
        if rest != "" {
          var w, r :| White(w) && (r == "" || r[0] == ',' || r == tail) && rest == w + r;
          RestIsNoDigit(w, r, tail);
        }
        NumberIsReadAs(before, key, f.w1, f.w2, n, rest);
      case ObjectValue(obj) => ObjectIsRead(before, key, f.w1, f.w2, obj, rest);
    }
  }

  /** A key that no field has or mentions is read as nothing. */
  lemma AbsentIsNotRead(head: string, fs: seq<Written>, tail: string, key: string)
    requires QuoteFree(head) && Closing(tail) && Plain(key)
    requires forall i :: 0 <= i < |fs| ==> WellWritten(fs[i]) && Silent(fs[i], key)
    ensures ExtractString(Payload(head, fs, tail), key) == None
    ensures ExtractUnsigned(Payload(head, fs, tail), key) == None
    ensures ExtractObject(Payload(head, fs, tail), key) == None
  {
    hide ExtractString, ExtractDigits, Prefix, FieldText, Quoted, NoTokenIn, Mentions, Silent, WellWritten, Plain;
    QuoteFreeHoldsNoToken(tail, "}", key);
    NoLetterOfBrace();
    FollowedByNoLetter(tail, "}");
    if fs != [] {
      var init, last := fs[..|fs| - 1], fs[|fs| - 1];
      FieldHoldsNoToken(last, tail + "}", key);
      StartsWithNoLetter(last, tail + "}");
      PrefixHoldsNoToken(init, FieldText(last) + (tail + "}"), key);
      NoTokenAppend(Prefix(init), FieldText(last), tail + "}", Quoted(key));
    } else {
      QuoteFreeHoldsNoToken("", tail + "}", key);
    }
    NoTokenAppend(ListText(fs), tail, "}", Quoted(key));
    QuoteFreeHoldsNoToken(head, (ListText(fs) + tail) + "}", key);
    NoTokenAppend(head, ListText(fs) + tail, "}", Quoted(key));
    NoTokenIsUnmentioned(Payload(head, fs, tail), "}", key);
    UnmentionedIsNotRead(Payload(head, fs, tail), key);
  }

  lemma StartsWithNoLetter(f: Written, rest: string)
    requires WellWritten(f)
    ensures NoLetter(FieldText(f) + rest)
  {
    var w := f.w0;
    WhiteIsQuoteFree(w);
    assert FieldText(f) + rest != "" && (FieldText(f) + rest)[0] == if w != "" then w[0] else '"';
  }

  /** A field that must be given, and one that may be left out for a default. */
  ghost predicate GivesText(fs: seq<Written>, key: string, text: string, default: string) {
    Gives(fs, key, TextValue(text)) || (text == default && forall i :: 0 <= i < |fs| ==> Silent(fs[i], key))
  }

  /**
    The fields of a packet in any order, with any white space around them, are parsed to the packet;
    the last three may be left out and have the gateway's defaults then.
   */
  lemma AnyLayoutIsParsed(head: string, fs: seq<Written>, tail: string, p: TelemetryPacket)
    requires QuoteFree(head) && Closing(tail) && forall i :: 0 <= i < |fs| ==> WellWritten(fs[i])
    requires Gives(fs, "deviceId", TextValue(p.deviceId)) && Gives(fs, "timestamp", NumberValue(p.timestamp))
    requires Gives(fs, "telemetry", ObjectValue(p.telemetryJson))
    requires Gives(fs, "hash", TextValue(p.hashHex)) && Gives(fs, "signature", TextValue(p.signature))
    requires GivesText(fs, "pubKeyId", p.pubKeyId, "default-pubkey")
    requires GivesText(fs, "transport", p.transport, "wifi")
    requires GivesText(fs, "batchCode", p.batchCode, "")
    ensures Parse(Payload(head, fs, tail)) == Parsed(p)
  {
    hide ExtractString, ExtractUnsigned, ExtractObject, Payload, Gives, Silent, Plain, WellWritten, Closing, QuoteFree;
    HeadNamesArePlain();
    TailNamesArePlain();
    GivenIsRead(head, fs, tail, "deviceId", TextValue(p.deviceId));
    GivenIsRead(head, fs, tail, "timestamp", NumberValue(p.timestamp));
    GivenIsRead(head, fs, tail, "telemetry", ObjectValue(p.telemetryJson));
    GivenIsRead(head, fs, tail, "hash", TextValue(p.hashHex));
    GivenIsRead(head, fs, tail, "signature", TextValue(p.signature));
    OptionalIsRead(head, fs, tail, "pubKeyId", p.pubKeyId, "default-pubkey");
    OptionalIsRead(head, fs, tail, "transport", p.transport, "wifi");
    OptionalIsRead(head, fs, tail, "batchCode", p.batchCode, "");
  }

  lemma OptionalIsRead(head: string, fs: seq<Written>, tail: string, key: string, text: string, default: string)
    requires QuoteFree(head) && Closing(tail) && (forall i :: 0 <= i < |fs| ==> WellWritten(fs[i]))
    requires GivesText(fs, key, text, default) && Plain(key)
    ensures OrElse(ExtractString(Payload(head, fs, tail), key), default) == text
  {
    hide ExtractString, Payload, Gives, Silent, Plain, WellWritten, Closing, QuoteFree;
    if Gives(fs, key, TextValue(text)) {
      GivenIsRead(head, fs, tail, key, TextValue(text));
    } else {
      AbsentIsNotRead(head, fs, tail, key);
    }
  }

  const REQUIRED := ["deviceId", "timestamp", "telemetry", "hash", "signature"]

  /** A payload is refused for the first required field, in this order, that it does not give. */
  lemma MissingFieldIsTold(head: string, fs: seq<Written>, tail: string, p: TelemetryPacket, m: nat)
    requires QuoteFree(head) && Closing(tail) && forall i :: 0 <= i < |fs| ==> WellWritten(fs[i])
    requires m < 5 && forall i :: 0 <= i < |fs| ==> Silent(fs[i], REQUIRED[m])
    requires m > 0 ==> Gives(fs, "deviceId", TextValue(p.deviceId))
    requires m > 1 ==> Gives(fs, "timestamp", NumberValue(p.timestamp))
    requires m > 2 ==> Gives(fs, "telemetry", ObjectValue(p.telemetryJson))
    requires m > 3 ==> Gives(fs, "hash", TextValue(p.hashHex))
    ensures Parse(Payload(head, fs, tail)) == Rejected("missing " + REQUIRED[m] + (if m == 2 then " object" else ""))
  {
    hide ExtractString, ExtractUnsigned, ExtractObject, Payload, Gives, Silent, Plain, WellWritten, Closing, QuoteFree;
    HeadNamesArePlain();
    TailNamesArePlain();
    AbsentIsNotRead(head, fs, tail, REQUIRED[m]);
    if m > 0 { GivenIsRead(head, fs, tail, "deviceId", TextValue(p.deviceId)); }
    if m > 1 { GivenIsRead(head, fs, tail, "timestamp", NumberValue(p.timestamp)); }
    if m > 2 { GivenIsRead(head, fs, tail, "telemetry", ObjectValue(p.telemetryJson)); }
    if m > 3 { GivenIsRead(head, fs, tail, "hash", TextValue(p.hashHex)); }
    Complaints();
  }

  lemma Complaints()
    ensures "missing " + REQUIRED[0] == "missing deviceId" && "missing " + REQUIRED[1] == "missing timestamp"
    ensures "missing " + REQUIRED[2] + " object" == "missing telemetry object"
    ensures "missing " + REQUIRED[3] == "missing hash" && "missing " + REQUIRED[4] == "missing signature"
  {
  }

  /** A timestamp of 2^64 or more is no timestamp. */
  lemma TooLargeTimestampIsRefused(head: string, fs: seq<Written>, tail: string, deviceId: string, n: nat)
    requires QuoteFree(head) && Closing(tail) && forall i :: 0 <= i < |fs| ==> WellWritten(fs[i])
    requires Gives(fs, "deviceId", TextValue(deviceId)) && Gives(fs, "timestamp", NumberValue(n)) && n >= TWO_TO_THE_64
    ensures Parse(Payload(head, fs, tail)) == Rejected("missing timestamp")
  {
    hide ExtractString, ExtractUnsigned, ExtractObject, Payload, Gives, Plain, WellWritten, Closing, QuoteFree;
    HeadNamesArePlain();
    GivenIsRead(head, fs, tail, "deviceId", TextValue(deviceId));
    GivenIsRead(head, fs, tail, "timestamp", NumberValue(n));
  }

  // ---------- A common layout ----------

  const KEYS := ["deviceId", "timestamp", "telemetry", "hash", "signature", "pubKeyId", "transport", "batchCode"]

  /** key: value, with one blank behind the colon. */
  function Spaced(key: string, value: Value): Written {
    Written(key, value, "", "", " ", "")
  }

  function SpacedFields(p: TelemetryPacket): seq<Written> {
    [Spaced("deviceId", TextValue(p.deviceId)), Spaced("timestamp", NumberValue(p.timestamp)),
     Spaced("telemetry", ObjectValue(p.telemetryJson)), Spaced("hash", TextValue(p.hashHex)),
     Spaced("signature", TextValue(p.signature))]
  }

  /** {"deviceId": "d","timestamp": 5,"telemetry": {..},"hash": "h","signature": "s"} is accepted, with the defaults. */
  lemma SpacedPayloadIsParsed(p: TelemetryPacket)
    requires QuoteFree(p.deviceId) && QuoteFree(p.hashHex) && QuoteFree(p.signature) && ScanComplete(p.telemetryJson)
    requires p.deviceId !in KEYS && p.hashHex !in KEYS && p.signature !in KEYS
    requires forall k :: 0 <= k < 8 ==> !Mentions(p.telemetryJson, KEYS[k])
    requires p.pubKeyId == "default-pubkey" && p.transport == "wifi" && p.batchCode == ""
    ensures Parse(Payload("{", SpacedFields(p), "}")) == Parsed(p)
  {
    hide Parse, Payload, Mentions, ScanComplete, SpacedFields, KEYS, QuoteFree, Gives, Silent, WellWritten;
    var fs := SpacedFields(p);
    SpacedIsWellWritten(p);
    forall k | 0 <= k < 8 {
      SpacedGives(p, k);
    }
    KeysAre();
    AnyLayoutIsParsed("{", fs, "}", p);
  }

  lemma SpacedIsWellWritten(p: TelemetryPacket)
    requires QuoteFree(p.deviceId) && QuoteFree(p.hashHex) && QuoteFree(p.signature) && ScanComplete(p.telemetryJson)
    ensures |SpacedFields(p)| == 5 && forall i :: 0 <= i < 5 ==> WellWritten(SpacedFields(p)[i])
    ensures QuoteFree("{") && Closing("}")
    ensures SpacedFields(p)[0].value == TextValue(p.deviceId) && SpacedFields(p)[1].value == NumberValue(p.timestamp)
    ensures SpacedFields(p)[2].value == ObjectValue(p.telemetryJson)
    ensures SpacedFields(p)[3].value == TextValue(p.hashHex) && SpacedFields(p)[4].value == TextValue(p.signature)
  {
    hide ScanComplete;
    HeadNamesArePlain();
    TailNamesArePlain();
    hide Plain;
  }

  lemma SpacedKey(p: TelemetryPacket, i: nat)
    requires i < 5
    ensures SpacedFields(p)[i].key == KEYS[i]
  {
  }

  lemma SpacedSilent(p: TelemetryPacket, k: nat, i: nat)
    requires k < 8 && i < 5 && i != k
    requires p.deviceId !in KEYS && p.hashHex !in KEYS && p.signature !in KEYS && !Mentions(p.telemetryJson, KEYS[k])
    ensures Silent(SpacedFields(p)[i], KEYS[k])
  {
    hide Mentions;
    KeysAre();
    SpacedKey(p, i);
    assert KEYS[k] in KEYS;
    hide KEYS;
  }

  lemma SpacedGives(p: TelemetryPacket, k: nat)
    requires k < 8 && !Mentions(p.telemetryJson, KEYS[k])
    requires p.deviceId !in KEYS && p.hashHex !in KEYS && p.signature !in KEYS
    ensures k < 5 ==> Gives(SpacedFields(p), KEYS[k], SpacedFields(p)[k].value)
    ensures k >= 5 ==> forall i :: 0 <= i < 5 ==> Silent(SpacedFields(p)[i], KEYS[k])
  {
    hide Mentions, Silent, KEYS;
    KeysAre();
    forall i | 0 <= i < 5 && i != k ensures Silent(SpacedFields(p)[i], KEYS[k]) {
      SpacedSilent(p, k, i);
    }
    if k < 5 {
      SpacedKey(p, k);
      assert GivesAt(SpacedFields(p), KEYS[k], SpacedFields(p)[k].value, k);
    }
  }

  lemma KeysAre()
    ensures |KEYS| == 8 && (forall k :: 0 <= k < 8 ==> Plain(KEYS[k]))
    ensures forall k, i :: 0 <= i < 8 && 0 <= k < 8 && i != k ==> KEYS[i] != KEYS[k]
    ensures KEYS[0] == "deviceId" && KEYS[1] == "timestamp" && KEYS[2] == "telemetry" && KEYS[3] == "hash"
    ensures KEYS[4] == "signature" && KEYS[5] == "pubKeyId" && KEYS[6] == "transport" && KEYS[7] == "batchCode"
  {
    HeadNamesArePlain();
    TailNamesArePlain();
    hide Plain;
    assert |KEYS[0]| == 8 && |KEYS[1]| == 9 && |KEYS[2]| == 9 && |KEYS[3]| == 4 && |KEYS[4]| == 9;
    assert |KEYS[5]| == 8 && |KEYS[6]| == 9 && |KEYS[7]| == 9;
    assert KEYS[0][0] == 'd' && KEYS[5][0] == 'p';
    assert KEYS[1][1] == 'i' && KEYS[2][1] == 'e' && KEYS[4][0] == 's' && KEYS[6][1] == 'r' && KEYS[7][0] == 'b';
    assert KEYS[1][0] == KEYS[2][0] == KEYS[6][0] == 't';
  }
}
