/** The ingest service: guards, the save/submit/attach steps with rollback, and its counters. */
module IngestService {
  import opened Domain
  import opened PacketParser
  import opened CanonicalForm
  import opened InMemoryRepository
  import opened RecordIndex
  import Log = TelemetryLog
  import Rules = IngestRules

  class IngestService {
    const repository: InMemoryTelemetryRepository
    const crypto: Rules.Crypto
    var totalRequests: nat
    var acceptedRequests: nat
    var rejectedRequests: nat
    var totalProcessingMs: u64

    ghost predicate Valid()
      reads this, repository
    {
      repository.Valid() && totalRequests == acceptedRequests + rejectedRequests
    }

    constructor (repository: InMemoryTelemetryRepository, crypto: Rules.Crypto)
      requires repository.Valid()
      ensures Valid() && this.repository == repository && this.crypto == crypto
      ensures totalRequests == acceptedRequests == rejectedRequests == totalProcessingMs == 0
    {
      this.repository := repository;
      this.crypto := crypto;
      totalRequests, acceptedRequests, rejectedRequests, totalProcessingMs := 0, 0, 0, 0;
    }

    /** RecordAccepted and RecordRejected: only the processing time may wrap around. */
    method Record(accepted: bool, processingMs: u64)
      requires totalRequests < TWO_TO_THE_64 - 1
      modifies this
      ensures totalRequests == old(totalRequests) + 1
      ensures acceptedRequests == old(acceptedRequests) + (if accepted then 1 else 0)
      ensures rejectedRequests == old(rejectedRequests) + (if accepted then 0 else 1)
      ensures totalProcessingMs == (old(totalProcessingMs) + processingMs) % TWO_TO_THE_64
    {
      totalRequests := totalRequests + 1;
      if accepted {
        acceptedRequests := acceptedRequests + 1;
      } else {
        rejectedRequests := rejectedRequests + 1;
      }
      totalProcessingMs := (totalProcessingMs + processingMs) % TWO_TO_THE_64;
    }

    /** rollbackBestEffort: a delete whose failure only shows in the message. */
    method RollbackBestEffort(recordId: nat, fault: Rules.Fault) returns (suffix: string)
      requires repository.Valid()
      modifies repository
      ensures repository.Valid()
      ensures repository.Contents() == Rules.Rollback(old(repository.Contents()), recordId, fault)
      ensures suffix == Rules.RollbackSuffix(Log.Has(old(repository.Contents()), recordId), fault)
    {
      match fault
      case NoFault =>
        var removed := repository.Delete(recordId);
        suffix := if removed then "" else "; rollback delete did not remove record";
      case ReturnsFalse => suffix := "; rollback delete did not remove record";
      case Throws(what) => suffix := "; rollback delete failed: " + what;
      case ThrowsUnknown => suffix := "; rollback delete failed: unknown error";
    }

    method CheckGuards(packet: TelemetryPacket) returns (objection: Option<string>)
      ensures objection == Rules.Objection(packet, crypto)
    {
      if packet.deviceId == "" { return Some("deviceId is required"); }
      if packet.timestamp == 0 { return Some("timestamp must be positive"); }
      if packet.telemetryJson == "" { return Some("telemetry payload is required"); }
      var hex := IsHex64(packet.hashHex);
      if !hex { return Some("hash must be 64 hex characters"); }
      var expectedHash := crypto.sha256Hex(Canonical(packet));
      if packet.hashHex != expectedHash { return Some("hash mismatch with payload"); }
      if !crypto.verify(packet) { return Some("signature verification failed"); }
      return None;
    }

    /** SubmitHash and AttachReceipt for a saved record: the receipt, or why the record is given up. */
    method SubmitAndAttach(recordId: nat, world: Rules.World)
      returns (failure: Option<string>, receipt: Option<BlockchainReceipt>)
      requires repository.Valid()
      modifies repository
      ensures repository.Valid()
      ensures failure == Rules.Failure(world, Log.Has(old(repository.Contents()), recordId))
      ensures failure.None? ==> receipt == Some(world.submission.receipt)
      ensures repository.Contents() ==
              if failure.Some? then old(repository.Contents())
              else Log.Attach(old(repository.Contents()), recordId, world.submission.receipt)
    {
      receipt := None;
      match world.submission
      case SubmitThrows(what) => failure := Some("blockchain submit failed: " + what);
      case SubmitThrowsUnknown => failure := Some("blockchain submit failed: unknown error");
      case Submitted(submitted) =>
        match world.attachFault {
          case NoFault =>
            var attached := repository.AttachReceipt(recordId, submitted);
            if attached {
              failure, receipt := None, Some(submitted);
            } else {
              failure := Some("receipt persistence failed after blockchain submit");
            }
          case ReturnsFalse => failure := Some("receipt persistence failed after blockchain submit");
          case Throws(what) => failure := Some("receipt persistence failed: " + what);
          case ThrowsUnknown => failure := Some("receipt persistence failed: unknown error");
        }
    }

    method Ingest(packet: TelemetryPacket, world: Rules.World) returns (result: IngestResult)
      requires Valid() && repository.nextRecordId < TWO_TO_THE_64 - 1 && totalRequests < TWO_TO_THE_64 - 1
      modifies this, repository
      ensures Valid()
      ensures (repository.Contents(), result) == Rules.Ingest(old(repository.Contents()), packet, world, crypto)
      ensures totalRequests == old(totalRequests) + 1
      ensures acceptedRequests == old(acceptedRequests) + (if result.accepted then 1 else 0)
      ensures totalProcessingMs == (old(totalProcessingMs) + world.elapsedMs) % TWO_TO_THE_64
      // A rejected call whose rollback is not hindered restores the vector and all four indexes themselves.
      ensures !result.accepted && (Rules.Objection(packet, crypto).Some? || world.deleteFault.NoFault?) ==>
                && repository.records == old(repository.records)
                && repository.positionById == old(repository.positionById)
                && repository.recordIdsByDevice == old(repository.recordIdsByDevice)
                && repository.recordIdsByBatch == old(repository.recordIdsByBatch)
                && repository.recordIdByTxHash == old(repository.recordIdByTxHash)
    {
      hide Rules.Objection, Rules.Failure, Log.Save, Log.Attach, Log.Delete, Log.WellFormed,
           IndexExact, PositionsExact;
      ghost var before, positions := repository.Contents(), repository.positionById;
      ghost var byDevice, byBatch := repository.recordIdsByDevice, repository.recordIdsByBatch;
      var objection := CheckGuards(packet);
      if objection.Some? {
        Record(false, world.elapsedMs);
        return IngestResult(false, objection.value, 0, None, world.elapsedMs);
      }

      var recordId := repository.Save(packet);
      var failure, receipt := SubmitAndAttach(recordId, world);
      if failure.Some? {
        var suffix := RollbackBestEffort(recordId, world.deleteFault);
        Log.SaveThenDelete(before, packet);
        if world.deleteFault.NoFault? {
          IndexesDetermined(positions, byDevice, byBatch, repository);
        }
        Record(false, world.elapsedMs);
        return IngestResult(false, failure.value + suffix, recordId, None, world.elapsedMs);
      }
      Record(true, world.elapsedMs);
      return IngestResult(true, "accepted", recordId, receipt, world.elapsedMs);
    }

    method GetMetricsSnapshot() returns (snapshot: MetricsSnapshot)
      requires Valid()
      ensures snapshot.totalRequests == snapshot.acceptedRequests + snapshot.rejectedRequests
      ensures snapshot == MetricsSnapshot(
                            totalRequests, acceptedRequests, rejectedRequests,
                            if totalRequests == 0 then 0 else totalProcessingMs / totalRequests,
                            |repository.Contents().records|)
    {
      var average := if totalRequests == 0 then 0 else totalProcessingMs / totalRequests;
      var size := repository.Size();
      snapshot := MetricsSnapshot(totalRequests, acceptedRequests, rejectedRequests, average, size);
    }
  }
}
