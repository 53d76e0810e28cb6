/** Every record and every event the gateway prints is one complete JSON object to its own scanner. */
module PrintedObjects {
  import opened Domain
  import opened PacketParser
  import opened PacketPrinter
  import opened SearchLaws
  import opened ScannerLaws
  import opened RoundTrip
  import opened JsonTree
  import opened Responses
  import Decimal

  /** A field whose raw text, if it is raw, does not unbalance the object around it. */
  ghost predicate Balanced(f: Field, depth: int) {
    Plain(f.name) && (f.Raw? ==> Neutral(f.text, depth))
  }

  /** Text that means nothing to the scanner inside a string. */
  ghost predicate InertInString(v: string) {
    forall i :: 0 <= i < |v| ==> v[i] != '"' && v[i] != '\\'
  }

  lemma PlainIsInert(name: string)
    requires Plain(name)
    ensures InertInString(name)
  {
  }

  lemma {:induction false} InertStaysInString(v: string, depth: int)
    requires InertInString(v)
    ensures Passes(v, Scanner(depth, true, false), Scanner(depth, true, false))
  {
    if v == "" {
    } else {
      InertStaysInString(v[1..], depth);
      assert Step(Scanner(depth, true, false), v[0]) == Scanner(depth, true, false);
    }
  }

  lemma QuotedInertIsNeutral(v: string, depth: int)
    requires InertInString(v)
    ensures Neutral(Quoted(v), depth)
  {
    hide Run, ScanEnd, Passes, InertInString;
    var outside, inside := Scanner(depth, false, false), Scanner(depth, true, false);
    QuoteToggles(depth, false);
    QuoteToggles(depth, true);
    InertStaysInString(v, depth);
    PassesAppend("\"", v, outside, inside, inside);
    PassesAppend("\"" + v, "\"", outside, inside, outside);
  }

  lemma MemberIsNeutral(f: Field, depth: int)
    requires Balanced(f, depth)
    ensures Neutral(MemberText(f), depth)
  {
    hide Neutral, Escape, Plain;
    PlainIsInert(f.name);
    QuotedInertIsNeutral(f.name, depth);
    InertIsNeutral(":", depth);
    NeutralAppend(Quoted(f.name), ":", depth);
    match f {
      case Text(_, value) => StringIsNeutral(value, depth);
      case Number(_, n) => InertIsNeutral(Decimal.Print(n), depth);
      case Raw(_, text) =>
    }
    NeutralAppend(Quoted(f.name) + ":", ValueText(f), depth);
  }

  lemma {:induction false} FieldsAreNeutral(fs: seq<Field>, depth: int)
    requires forall i :: 0 <= i < |fs| ==> Balanced(fs[i], depth)
    ensures Neutral(FieldsText(fs), depth)
  {
    hide Neutral, MemberText, Balanced;
    if fs == [] {
      InertIsNeutral("", depth);
    } else {
      MemberIsNeutral(fs[0], depth);
      FieldsAreNeutral(fs[1..], depth);
      InertIsNeutral(",", depth);
      NeutralAppend(MemberText(fs[0]), ",", depth);
      NeutralAppend(MemberText(fs[0]) + ",", FieldsText(fs[1..]), depth);
    }
  }

  /** An object of balanced fields ends where its last brace stands. */
  lemma FieldsMakeAnObject(fs: seq<Field>)
    requires forall i :: 0 <= i < |fs| ==> Balanced(fs[i], 1)
    ensures ScanComplete("{" + FieldsText(fs) + "}")
  {
    hide FieldsText, Balanced, Neutral, ScanComplete;
    FieldsAreNeutral(fs, 1);
    BracedIsComplete(FieldsText(fs));
  }

  /** Inside another object it leaves the scanner as it was. */
  lemma ObjectIsNeutral(fs: seq<Field>, depth: int)
    requires depth >= 1 && forall i :: 0 <= i < |fs| ==> Balanced(fs[i], depth + 1)
    ensures Neutral("{" + FieldsText(fs) + "}", depth)
  {
    hide FieldsText, Balanced, Step, Run, ScanEnd;
    var text, outer, inner := FieldsText(fs), Scanner(depth, false, false), Scanner(depth + 1, false, false);
    FieldsAreNeutral(fs, depth + 1);
    BraceSteps(depth);
    PassesAppend("{", text, outer, inner, inner);
    PassesAppend("{" + text, "}", outer, inner, outer);
  }

  /** A scan that starts deeper ends deeper by as much. */
  lemma {:induction false} DeeperRun(s: string, st: Scanner, deeper: int)
    ensures Run(s, st.(depth := st.depth + deeper)) == Run(s, st).(depth := Run(s, st).depth + deeper)
  {
    if s == "" {
    } else {
      assert Step(st.(depth := st.depth + deeper), s[0]) == Step(st, s[0]).(depth := Step(st, s[0]).depth + deeper);
      DeeperRun(s[1..], Step(st, s[0]), deeper);
    }
  }

  lemma {:induction false} CompleteRunEnds(s: string, st: Scanner)
    requires ScanEnd(s, st) == Some(|s|)
    ensures Run(s, st) == Scanner(0, false, false)
  {
    if Closes(st, s[0]) && st.depth == 1 {
      assert s[1..] == "";
    } else {
      CompleteRunEnds(s[1..], Step(st, s[0]));
    }
  }

  /** A complete object is neutral inside another one. */
  lemma CompleteIsNeutral(t: string)
    requires ScanComplete(t)
    ensures Neutral(t, 1)
  {
    hide Step;
    CompleteRunEnds(t, START);
    DeeperRun(t, START, 1);
    DeeperFromTheStart(t);
  }

  lemma DeeperFromTheStart(t: string)
    requires ScanComplete(t)
    ensures ScanEnd(t, Scanner(1, false, false)) == None
  {
    var inside := Step(START, t[0]);
    DeeperScanDoesNotFinish(t[1..], inside, 1);
  }

  lemma ReceiptIsNeutral(receipt: Option<BlockchainReceipt>)
    ensures Neutral(ReceiptText(receipt), 1)
  {
    hide Neutral, FieldsText, Plain;
    if receipt.None? {
      NullIsInert();
      InertIsNeutral("null", 1);
    } else {
      EventNamesArePlain();
      ObjectIsNeutral(ReceiptFields(receipt.value), 1);
    }
  }

  lemma NullIsInert()
    ensures forall i :: 0 <= i < |"null"| ==> "null"[i] !in "{}\"\\"
  {
  }

  /** A record whose telemetry is a complete object is printed as one, whatever its other fields hold. */
  lemma RecordIsComplete(r: TelemetryRecord)
    requires ScanComplete(r.packet.telemetryJson)
    ensures ScanComplete(RecordText(r))
  {
    hide Neutral, FieldsText, ScanComplete, ReceiptText, Plain;
    CompleteIsNeutral(r.packet.telemetryJson);
    ReceiptIsNeutral(r.receipt);
    HeadNamesArePlain();
    TailNamesArePlain();
    FieldsMakeAnObject(RecordFields(r));
  }

  lemma EventNamesArePlain()
    ensures Plain("type") && Plain("message") && Plain("txHash") && Plain("blockHeight") && Plain("submittedAt")
  {
  }

  /** So is every event, whatever ids, transports, hashes and messages it carries. */
  lemma EventIsComplete(packet: TelemetryPacket, result: IngestResult)
    ensures ScanComplete(EventText(packet, result))
  {
    hide Neutral, FieldsText, ScanComplete, Plain, Escape;
    HeadNamesArePlain();
    TailNamesArePlain();
    EventNamesArePlain();
    EventTypesAreNeutral();
    FieldsMakeAnObject(EventFields(packet, result));
  }

  lemma EventTypesAreNeutral()
    ensures Neutral(Quoted(INGESTED), 1) && Neutral(Quoted(REJECTED), 1)
  {
    hide Neutral;
    QuotedInertIsNeutral(INGESTED, 1);
    QuotedInertIsNeutral(REJECTED, 1);
  }
}
