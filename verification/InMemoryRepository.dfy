/** The in-memory repository: a vector of records and four hash indexes, updated in place. */
module InMemoryRepository {
  import opened Domain
  import opened RecordIndex
  import Log = TelemetryLog

  class InMemoryTelemetryRepository {
    var nextRecordId: nat
    var records: seq<TelemetryRecord>
    var positionById: map<nat, nat>
    var recordIdsByDevice: map<string, seq<nat>>
    var recordIdsByBatch: map<string, seq<nat>>
    var recordIdByTxHash: map<string, nat>

    ghost function Contents(): Log.Log
      reads this
    {
      Log.Log(records, nextRecordId, recordIdByTxHash)
    }

    /** Ids increase along the vector and stay below the next one; every index matches the vector. */
    ghost predicate Valid()
      reads this
    {
      && Log.WellFormed(Contents())
      && PositionsExact(positionById, records)
      && IndexExact(recordIdsByDevice, records, Log.ByDevice)
      && IndexExact(recordIdsByBatch, records, Log.ByBatch)
    }

    constructor ()
      ensures Valid() && Contents() == Log.EMPTY
    {
      nextRecordId := 1;
      records := [];
      positionById := map[];
      recordIdsByDevice := map[];
      recordIdsByBatch := map[];
      recordIdByTxHash := map[];
    }

    method Save(packet: TelemetryPacket) returns (recordId: nat)
      requires Valid() && nextRecordId < TWO_TO_THE_64 - 1
      modifies this
      ensures Valid() && recordId == old(nextRecordId)
      ensures Contents() == Log.Save(old(Contents()), packet)
    {
      hide IndexExact, PositionsExact;
      recordId := nextRecordId;
      nextRecordId := nextRecordId + 1;
      var record := TelemetryRecord(recordId, packet, None);
      ghost var before := records;

      records := records + [record];
      PushedPositions(positionById, before, record);
      positionById := positionById[recordId := |records| - 1];
      PushBackExact(recordIdsByDevice, before, Log.ByDevice, record, packet.deviceId);
      recordIdsByDevice := PushBack(recordIdsByDevice, packet.deviceId, recordId);
      if packet.batchCode != "" {
        PushBackExact(recordIdsByBatch, before, Log.ByBatch, record, packet.batchCode);
        recordIdsByBatch := PushBack(recordIdsByBatch, packet.batchCode, recordId);
      } else {
        UngroupedExact(recordIdsByBatch, before, Log.ByBatch, record);
      }
    }

    method AttachReceipt(recordId: nat, receipt: BlockchainReceipt) returns (found: bool)
      requires Valid()
      modifies this
      ensures Valid() && found == Log.Has(old(Contents()), recordId)
      ensures Contents() == Log.Attach(old(Contents()), recordId, receipt)
    {
      hide IndexExact;
      assert PositionOf(positionById, recordId) == Log.Position(records, recordId);
      if recordId !in positionById { return false; }
      var position := positionById[recordId];
      ReceiptKeepsPositions(positionById, records, position, receipt);
      ReceiptKeepsIndex(recordIdsByDevice, records, position, receipt, Log.ByDevice);
      ReceiptKeepsIndex(recordIdsByBatch, records, position, receipt, Log.ByBatch);
      records := records[position := records[position].(receipt := Some(receipt))];
      recordIdByTxHash := recordIdByTxHash[receipt.txHash := recordId];
      return true;
    }

    /** The three index updates of Delete, while the record is still in the vector. */
    method EraseFromIndexes(position: nat)
      requires Valid() && position < |records|
      modifies this`recordIdsByDevice, this`recordIdsByBatch, this`recordIdByTxHash
      ensures IndexExact(recordIdsByDevice, Log.RemoveAt(records, position), Log.ByDevice)
      ensures IndexExact(recordIdsByBatch, Log.RemoveAt(records, position), Log.ByBatch)
      ensures recordIdByTxHash ==
              if records[position].receipt.Some? then old(recordIdByTxHash) - {records[position].receipt.value.txHash}
              else old(recordIdByTxHash)
    {
      hide IndexExact, Log.RemoveAt;
      var record := records[position];
      EraseIdExact(recordIdsByDevice, records, position, Log.ByDevice, record.packet.deviceId);
      recordIdsByDevice := EraseId(recordIdsByDevice, record.packet.deviceId, record.recordId);
      if record.packet.batchCode != "" {
        EraseIdExact(recordIdsByBatch, records, position, Log.ByBatch, record.packet.batchCode);
        recordIdsByBatch := EraseId(recordIdsByBatch, record.packet.batchCode, record.recordId);
      } else {
        UngroupedRemoveExact(recordIdsByBatch, records, position, Log.ByBatch);
      }
      if record.receipt.Some? {
        recordIdByTxHash := recordIdByTxHash - {record.receipt.value.txHash};
      }
    }

    /** The loop that moves the positions behind the erased record down by one. */
    method ShiftPositions(position: nat)
      requires position <= |records| && Log.Increasing(records)
      requires forall id :: PositionOf(positionById, id) == Before(Log.Position(records, id), position)
      modifies this`positionById
      ensures PositionsExact(positionById, records)
    {
      hide Log.Position;
      for i := position to |records|
        invariant forall id :: PositionOf(positionById, id) == Before(Log.Position(records, id), i)
      {
        Log.PositionUnique(records, i);
        positionById := positionById[records[i].recordId := i];
      }
    }

    method EraseAndShift(position: nat)
      requires Log.Increasing(records) && PositionsExact(positionById, records) && position < |records|
      modifies this`records, this`positionById
      ensures records == Log.RemoveAt(old(records), position)
      ensures PositionsExact(positionById, records)
    {
      hide Log.Position;
      ghost var rs, positions, id0 := records, positionById, records[position].recordId;
      Log.PositionUnique(records, position);
      positionById := positionById - {records[position].recordId};
      records := records[..position] + records[position + 1..];
      forall id ensures PositionOf(positionById, id) == Before(Log.Position(records, id), position) {
        PositionRemove(rs, position, id);
        assert PositionOf(positions, id) == Log.Position(rs, id);
      }
      ShiftPositions(position);
    }

    method Delete(recordId: nat) returns (found: bool)
      requires Valid()
      modifies this
      ensures Valid() && found == Log.Has(old(Contents()), recordId)
      ensures Contents() == Log.Delete(old(Contents()), recordId)
    {
      assert PositionOf(positionById, recordId) == Log.Position(records, recordId);
      if recordId !in positionById { return false; }
      var position := positionById[recordId];
      EraseFromIndexes(position);
      EraseAndShift(position);
      return true;
    }

    method FindByIdLocked(recordId: nat) returns (r: Option<TelemetryRecord>)
      requires Valid()
      ensures r == Log.FindById(records, recordId)
    {
      assert PositionOf(positionById, recordId) == Log.Position(records, recordId);
      if recordId !in positionById { return None; }
      return Some(records[positionById[recordId]]);
    }

    method LatestByDevice(deviceId: string) returns (r: Option<TelemetryRecord>)
      requires Valid()
      ensures r == Log.LatestByDevice(Contents(), deviceId)
    {
      ghost var group := Log.Select(records, Log.ByDevice, deviceId);
      assert Listed(recordIdsByDevice, deviceId) == Ids(group);
      if deviceId !in recordIdsByDevice || recordIdsByDevice[deviceId] == [] { return None; }
      var ids := recordIdsByDevice[deviceId];
      GroupRecord(records, Log.ByDevice, deviceId, |ids| - 1);
      r := FindByIdLocked(ids[|ids| - 1]);
    }

    method FindByTransaction(txHash: string) returns (r: Option<TelemetryRecord>)
      requires Valid()
      ensures r == Log.FindByTransaction(Contents(), txHash)
    {
      if txHash !in recordIdByTxHash { return None; }
      r := FindByIdLocked(recordIdByTxHash[txHash]);
    }

    method FindByBatch(batchCode: string) returns (result: seq<TelemetryRecord>)
      requires Valid()
      ensures result == Log.FindByBatch(Contents(), batchCode)
    {
      result := [];
      ghost var group := Log.Select(records, Log.ByBatch, batchCode);
      assert Listed(recordIdsByBatch, batchCode) == Ids(group);
      if batchCode !in recordIdsByBatch { return; }
      var ids := recordIdsByBatch[batchCode];
      for i := 0 to |ids|
        invariant result == group[..i]
      {
        GroupRecord(records, Log.ByBatch, batchCode, i);
        var record := FindByIdLocked(ids[i]);
        if record.Some? {
          result := result + [record.value];
        }
      }
    }

    method Size() returns (n: nat)
      requires Valid()
      ensures n == |Contents().records|
    {
      n := |records|;
    }
  }

  /** Indexes that once matched the records a repository holds are the ones it holds now. */
  lemma IndexesDetermined(positions: map<nat, nat>, byDevice: Index, byBatch: Index, r: InMemoryTelemetryRepository)
    requires r.Valid()
    requires PositionsExact(positions, r.records)
    requires IndexExact(byDevice, r.records, Log.ByDevice) && IndexExact(byBatch, r.records, Log.ByBatch)
    ensures positions == r.positionById && byDevice == r.recordIdsByDevice && byBatch == r.recordIdsByBatch
  {
    hide IndexExact, PositionsExact;
    PositionsDetermined(positions, r.positionById, r.records);
    IndexDetermined(byDevice, r.recordIdsByDevice, r.records, Log.ByDevice);
    IndexDetermined(byBatch, r.recordIdsByBatch, r.records, Log.ByBatch);
  }

  /** A place as it stands while only the places below i have been moved down. */
  function Before(place: Option<nat>, i: nat): Option<nat> {
    match place
    case None => None
    case Some(j) => Some(if j < i then j else j + 1)
  }

  /** The record of a listed id is the one the group holds at that place. */
  lemma GroupRecord(rs: seq<TelemetryRecord>, kind: Log.Kind, v: string, i: nat)
    requires Log.Increasing(rs) && i < |Log.Select(rs, kind, v)|
    ensures Log.FindById(rs, GroupIds(rs, kind, v)[i]) == Some(Log.Select(rs, kind, v)[i])
  {
    var r := Log.Select(rs, kind, v)[i];
    Log.SelectMembers(rs, kind, v, r);
    var k :| 0 <= k < |rs| && rs[k] == r;
    Log.PositionUnique(rs, k);
  }
}
