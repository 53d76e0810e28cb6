/** What one ingest call does to a repository, whatever the calls it makes answer. */
module IngestRules {
  import opened Domain
  import opened PacketParser
  import opened CanonicalForm
  import Log = TelemetryLog

  /** The functions the service is built with: SHA-256 in hex and the signature check. */
  datatype Crypto = Crypto(sha256Hex: string -> string, verify: TelemetryPacket -> bool)

  datatype Submission = Submitted(receipt: BlockchainReceipt) | SubmitThrows(what: string) | SubmitThrowsUnknown

  /** How a repository call may fail, leaving the repository as it was. */
  datatype Fault = NoFault | ReturnsFalse | Throws(what: string) | ThrowsUnknown

  /** What the calls an ingest makes answer, and how long it takes. */
  datatype World = World(submission: Submission, attachFault: Fault, deleteFault: Fault, elapsedMs: u64)

  /** The first guard a packet fails, in the order they are checked. */
  function Objection(packet: TelemetryPacket, crypto: Crypto): Option<string> {
    if packet.deviceId == "" then Some("deviceId is required")
    else if packet.timestamp == 0 then Some("timestamp must be positive")
    else if packet.telemetryJson == "" then Some("telemetry payload is required")
    else if !Hex64(packet.hashHex) then Some("hash must be 64 hex characters")
    else if packet.hashHex != crypto.sha256Hex(Canonical(packet)) then Some("hash mismatch with payload")
    else if !crypto.verify(packet) then Some("signature verification failed")
    else None
  }

  /** What is demanded of a packet, in order, with the complaint that a failing demand raises. */
  function Guards(packet: TelemetryPacket, crypto: Crypto): (guards: seq<(bool, string)>)
    ensures |guards| == 6
  {
    [(packet.deviceId != "", "deviceId is required"),
     (packet.timestamp > 0, "timestamp must be positive"),
     (packet.telemetryJson != "", "telemetry payload is required"),
     (Hex64(packet.hashHex), "hash must be 64 hex characters"),
     (packet.hashHex == crypto.sha256Hex(Canonical(packet)), "hash mismatch with payload"),
     (crypto.verify(packet), "signature verification failed")]
  }

  ghost predicate FirstFailing(guards: seq<(bool, string)>, i: nat) {
    i < |guards| && !guards[i].0 && forall j :: 0 <= j < i ==> guards[j].0
  }

  /** There is no objection exactly when every demand is met, and an objection tells which demand is the first not met. */
  lemma ObjectionIsFirstFailure(packet: TelemetryPacket, crypto: Crypto)
    ensures Objection(packet, crypto).None? <==> forall i :: 0 <= i < 6 ==> Guards(packet, crypto)[i].0
    ensures forall i | 0 <= i < 6 ::
              Objection(packet, crypto) == Some(Guards(packet, crypto)[i].1) <==> FirstFailing(Guards(packet, crypto), i)
  {
    hide Hex64, Canonical;
    var guards := Guards(packet, crypto);
    ComplaintsDiffer(packet, crypto);
    var first := if !guards[0].0 then 0 else if !guards[1].0 then 1 else if !guards[2].0 then 2
                 else if !guards[3].0 then 3 else if !guards[4].0 then 4 else if !guards[5].0 then 5 else 6;
    assert first < 6 ==> Objection(packet, crypto) == Some(guards[first].1);
    assert forall i :: 0 <= i < first ==> guards[i].0;
  }

  lemma ComplaintsDiffer(packet: TelemetryPacket, crypto: Crypto)
    ensures forall i, j :: 0 <= i < j < 6 ==> Guards(packet, crypto)[i].1 != Guards(packet, crypto)[j].1
  {
    hide Hex64, Canonical;
    var g := Guards(packet, crypto);
    assert g[0].1[0] == 'd' && g[1].1[0] == 't' && g[2].1[0] == 't' && g[3].1[0] == 'h' && g[4].1[0] == 'h' && g[5].1[0] == 's';
    assert |g[1].1| == 26 && |g[2].1| == 29 && |g[3].1| == 30 && |g[4].1| == 26;
  }

  /** Why a saved packet is given up, if it is; found says whether its record is there to attach to. */
  function Failure(world: World, found: bool): Option<string> {
    match world.submission
    case SubmitThrows(what) => Some("blockchain submit failed: " + what)
    case SubmitThrowsUnknown => Some("blockchain submit failed: unknown error")
    case Submitted(_) =>
      match world.attachFault
      case NoFault => if found then None else Some("receipt persistence failed after blockchain submit")
      case ReturnsFalse => Some("receipt persistence failed after blockchain submit")
      case Throws(what) => Some("receipt persistence failed: " + what)
      case ThrowsUnknown => Some("receipt persistence failed: unknown error")
  }

  function RollbackSuffix(found: bool, fault: Fault): string {
    match fault
    case NoFault => if found then "" else "; rollback delete did not remove record"
    case ReturnsFalse => "; rollback delete did not remove record"
    case Throws(what) => "; rollback delete failed: " + what
    case ThrowsUnknown => "; rollback delete failed: unknown error"
  }

  function Rollback(l: Log.Log, recordId: nat, fault: Fault): Log.Log {
    if fault.NoFault? then Log.Delete(l, recordId) else l
  }

  /** The repository and the result after one call. */
  function Ingest(l: Log.Log, packet: TelemetryPacket, world: World, crypto: Crypto): (Log.Log, IngestResult) {
    var objection := Objection(packet, crypto);
    if objection.Some? then (l, IngestResult(false, objection.value, 0, None, world.elapsedMs)) else
    var id, saved := l.nextId, Log.Save(l, packet);
    var failure := Failure(world, Log.Has(saved, id));
    if failure.Some? then
      (Rollback(saved, id, world.deleteFault),
       IngestResult(false, failure.value + RollbackSuffix(Log.Has(saved, id), world.deleteFault), id, None, world.elapsedMs))
    else
      var receipt := world.submission.receipt;
      (Log.Attach(saved, id, receipt), IngestResult(true, "accepted", id, Some(receipt), world.elapsedMs))
  }

  // ---------- What follows ----------

  /** Acceptance is exactly: every guard passes and every later call succeeds. */
  lemma AcceptedIff(l: Log.Log, packet: TelemetryPacket, world: World, crypto: Crypto)
    requires Log.WellFormed(l)
    ensures Ingest(l, packet, world, crypto).1.accepted <==>
            Objection(packet, crypto).None? && world.submission.Submitted? && world.attachFault.NoFault?
  {
    Log.PositionUnique(Log.Save(l, packet).records, |l.records|);
  }

  /** Every query answers the same. */
  ghost predicate SameAnswers(l: Log.Log, m: Log.Log) {
    && (forall d :: Log.LatestByDevice(m, d) == Log.LatestByDevice(l, d))
    && (forall h :: Log.FindByTransaction(m, h) == Log.FindByTransaction(l, h))
    && (forall b :: Log.FindByBatch(m, b) == Log.FindByBatch(l, b))
  }

  /** What a save leaves behind when it is not rolled back is seen as the latest record of its device. */
  lemma SaveIsVisible(l: Log.Log, packet: TelemetryPacket)
    requires Log.WellFormed(l)
    ensures !SameAnswers(l, Log.Save(l, packet))
  {
    hide Log.Select;
    var record, d := TelemetryRecord(l.nextId, packet, None), packet.deviceId;
    Log.SelectAppend(l.records, [record], Log.ByDevice, d);
    Log.SelectOne(record, Log.ByDevice, d);
    assert Log.LatestByDevice(Log.Save(l, packet), d) == Some(record);
    Log.SelectMembers(l.records, Log.ByDevice, d, record);
  }

  /**
    A rejected call is invisible to every query, and leaves every record and index as it was, exactly
    when it was refused before the save or its rollback is not itself hindered; behind a save the
    message begins with the failure and says more exactly when something stayed behind.
   */
  lemma RejectionIsInvisibleIff(l: Log.Log, packet: TelemetryPacket, world: World, crypto: Crypto)
    requires Log.WellFormed(l) && !Ingest(l, packet, world, crypto).1.accepted
    ensures
      var (after, result) := Ingest(l, packet, world, crypto);
      && (SameAnswers(l, after) <==> Objection(packet, crypto).Some? || world.deleteFault.NoFault?)
      && (SameAnswers(l, after) ==> after == l.(nextId := after.nextId) && l.nextId <= after.nextId <= l.nextId + 1)
      && (Objection(packet, crypto).None? ==>
            && Failure(world, true).Some? && Failure(world, true).value <= result.message
            && (result.message == Failure(world, true).value <==> SameAnswers(l, after)))
  {
    hide Objection, SameAnswers, Log.Save, Log.Delete, Log.Attach, Log.WellFormed;
    Log.SaveThenDelete(l, packet);
    SavedIsThere(l, packet);
    SaveIsVisible(l, packet);
    SameButForNextId(l);
  }

  lemma SavedIsThere(l: Log.Log, packet: TelemetryPacket)
    requires Log.WellFormed(l)
    ensures Log.Has(Log.Save(l, packet), l.nextId)
  {
    Log.PositionUnique(Log.Save(l, packet).records, |l.records|);
  }

  lemma SameButForNextId(l: Log.Log)
    ensures SameAnswers(l, l) && SameAnswers(l, l.(nextId := l.nextId + 1))
  {
  }

  /** What a refused call answers, and one given up behind its save whose rollback is not hindered. */
  lemma RejectionMessage(l: Log.Log, packet: TelemetryPacket, world: World, crypto: Crypto, what: string)
    requires Log.WellFormed(l) && !Ingest(l, packet, world, crypto).1.accepted
    ensures
      var result := Ingest(l, packet, world, crypto).1;
      && result.receipt.None? && result.processingMs == world.elapsedMs
      && result.recordId == (if Objection(packet, crypto).Some? then 0 else l.nextId)
      && (Objection(packet, crypto).Some? ==> Objection(packet, crypto) == Some(result.message))
      && (Objection(packet, crypto).None? && world.deleteFault.NoFault? ==>
            && (world.submission == SubmitThrows(what) ==> result.message == "blockchain submit failed: " + what)
            && (world.submission == SubmitThrowsUnknown ==> result.message == "blockchain submit failed: unknown error")
            && (world.submission.Submitted? && world.attachFault == ReturnsFalse ==>
                  result.message == "receipt persistence failed after blockchain submit")
            && (world.submission.Submitted? && world.attachFault == Throws(what) ==>
                  result.message == "receipt persistence failed: " + what)
            && (world.submission.Submitted? && world.attachFault == ThrowsUnknown ==>
                  result.message == "receipt persistence failed: unknown error"))
  {
    hide Objection, Log.Save, Log.Delete, Log.Attach, Log.WellFormed;
    SavedIsThere(l, packet);
  }

  /** What a hindered rollback adds to the message. */
  lemma HinderedRollbackMessage(l: Log.Log, packet: TelemetryPacket, world: World, crypto: Crypto, what: string)
    requires Log.WellFormed(l) && Objection(packet, crypto).None? && Failure(world, true).Some?
    ensures
      var message := Ingest(l, packet, world, crypto).1.message;
      var unhindered := Ingest(l, packet, world.(deleteFault := NoFault), crypto).1.message;
      && (world.deleteFault == ReturnsFalse ==> message == unhindered + "; rollback delete did not remove record")
      && (world.deleteFault == Throws(what) ==> message == unhindered + ("; rollback delete failed: " + what))
      && (world.deleteFault == ThrowsUnknown ==> message == unhindered + "; rollback delete failed: unknown error")
  {
    hide Objection, Log.Save, Log.Delete, Log.Attach, Log.WellFormed;
    SavedIsThere(l, packet);
    assert Failure(world.(deleteFault := NoFault), true) == Failure(world, true);
    assert Failure(world, true).value + "" == Failure(world, true).value;
  }

  lemma SaveThenAttach(l: Log.Log, packet: TelemetryPacket, receipt: BlockchainReceipt)
    requires Log.WellFormed(l)
    ensures Log.Attach(Log.Save(l, packet), l.nextId, receipt) ==
            Log.Log(l.records + [TelemetryRecord(l.nextId, packet, Some(receipt))], l.nextId + 1,
                    l.byTx[receipt.txHash := l.nextId])
  {
    Log.PositionUnique(Log.Save(l, packet).records, |l.records|);
  }

  /** A log whose last record was just attached answers with it. */
  lemma LastRecordIsFound(l: Log.Log, record: TelemetryRecord, after: Log.Log)
    requires Log.WellFormed(l) && record.recordId == l.nextId && record.receipt.Some?
    requires after.records == l.records + [record] && after.byTx == l.byTx[record.receipt.value.txHash := l.nextId]
    ensures Log.LatestByDevice(after, record.packet.deviceId) == Some(record)
    ensures Log.FindByTransaction(after, record.receipt.value.txHash) == Some(record)
    ensures Log.FindByBatch(after, record.packet.batchCode)
            == Log.FindByBatch(l, record.packet.batchCode) + (if record.packet.batchCode == "" then [] else [record])
  {
    hide Log.Select;
    var packet := record.packet;
    Log.PositionUnique(after.records, |l.records|);
    Log.SelectAppend(l.records, [record], Log.ByDevice, packet.deviceId);
    Log.SelectAppend(l.records, [record], Log.ByBatch, packet.batchCode);
    Log.SelectOne(record, Log.ByDevice, packet.deviceId);
    Log.SelectOne(record, Log.ByBatch, packet.batchCode);
  }

  /** An accepted packet is at once the latest of its device and found by its transaction. */
  lemma AcceptedIsFound(l: Log.Log, packet: TelemetryPacket, world: World, crypto: Crypto)
    requires Log.WellFormed(l) && Ingest(l, packet, world, crypto).1.accepted
    ensures
      var (after, result) := Ingest(l, packet, world, crypto);
      var record := TelemetryRecord(l.nextId, packet, result.receipt);
      && result.recordId == l.nextId && result.receipt.Some? && result.message == "accepted"
      && after.records == l.records + [record]
      && Log.LatestByDevice(after, packet.deviceId) == Some(record)
      && Log.FindByTransaction(after, result.receipt.value.txHash) == Some(record)
      && Log.FindByBatch(after, packet.batchCode)
         == Log.FindByBatch(l, packet.batchCode) + (if packet.batchCode == "" then [] else [record])
  {
    hide Objection, Log.Save, Log.Attach, Log.LatestByDevice, Log.FindByTransaction, Log.FindByBatch, Log.WellFormed;
    var (after, result) := Ingest(l, packet, world, crypto);
    SaveThenAttach(l, packet, world.submission.receipt);
    LastRecordIsFound(l, TelemetryRecord(l.nextId, packet, result.receipt), after);
  }

  /** Two different texts of the set never share a hash. */
  ghost predicate CollisionFree(sha256Hex: string -> string, texts: set<string>) {
    forall s, t :: s in texts && t in texts && sha256Hex(s) == sha256Hex(t) ==> s == t
  }

  /** Without a collision of their texts, accepted packets that share a hash report the same reading. */
  lemma HashFixesReading(l1: Log.Log, l2: Log.Log, payload1: string, payload2: string,
                         world1: World, world2: World, crypto: Crypto)
    requires Log.WellFormed(l1) && Log.WellFormed(l2)
    requires Parse(payload1).Parsed? && Parse(payload2).Parsed?
    requires Ingest(l1, Parse(payload1).packet, world1, crypto).1.accepted
    requires Ingest(l2, Parse(payload2).packet, world2, crypto).1.accepted
    requires Parse(payload1).packet.hashHex == Parse(payload2).packet.hashHex
    requires CollisionFree(crypto.sha256Hex, {Canonical(Parse(payload1).packet), Canonical(Parse(payload2).packet)})
    ensures SameReading(Parse(payload1).packet, Parse(payload2).packet)
  {
    hide Parse, Canonical;
    AcceptedIff(l1, Parse(payload1).packet, world1, crypto);
    AcceptedIff(l2, Parse(payload2).packet, world2, crypto);
    CanonicalUniquelyReadable(payload1, payload2);
  }
}
