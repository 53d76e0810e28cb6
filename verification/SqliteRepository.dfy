/** The SQLite repository over its table: what each call makes of a statement's result. */
module SqliteRepository {
  import opened Domain
  import opened SqliteTable

  /** A call that returns, or the exception a failed statement becomes. */
  datatype CallResult = Returned(found: bool) | Thrown

  ghost predicate PositiveIds(rows: seq<Row>) {
    forall i :: 0 <= i < |rows| ==> rows[i].recordId >= 1
  }

  function Records(rows: seq<Row>): seq<TelemetryRecord>
    requires PositiveIds(rows)
  {
    seq(|rows|, i requires 0 <= i < |rows| => RowToRecord(rows[i]))
  }

  lemma QueryKeepsPositiveIds(rows: seq<Row>, column: Column, v: string)
    requires PositiveIds(rows)
    ensures PositiveIds(SelectWhere(rows, column, v)) && PositiveIds(OrderBy(SelectWhere(rows, column, v)))
  {
    var selected := SelectWhere(rows, column, v);
    SelectedPositive(rows, column, v);
    OrderByMeaning(selected);
    forall i | 0 <= i < |OrderBy(selected)| ensures OrderBy(selected)[i].recordId >= 1 {
      assert OrderBy(selected)[i] in multiset(selected);
    }
  }

  lemma {:induction false} SelectedPositive(rows: seq<Row>, column: Column, v: string)
    requires PositiveIds(rows)
    ensures PositiveIds(SelectWhere(rows, column, v))
  {
    if rows == [] {
    } else {
      SelectedPositive(rows[..|rows| - 1], column, v);
    }
  }

  // ---------- What the queries answer ----------

  function LatestAnswer(t: Table, deviceId: string): Option<TelemetryRecord>
    requires PositiveIds(t.rows)
  {
    QueryKeepsPositiveIds(t.rows, DeviceId, CText(deviceId));
    var row := LatestRow(t, deviceId);
    if row.None? then None else Some(RowToRecord(row.value))
  }

  function TransactionAnswer(t: Table, txHash: string): Option<TelemetryRecord>
    requires PositiveIds(t.rows)
  {
    QueryKeepsPositiveIds(t.rows, TxHash, CText(txHash));
    var row := TransactionRow(t, txHash);
    if row.None? then None else Some(RowToRecord(row.value))
  }

  function BatchAnswer(t: Table, batchCode: string): seq<TelemetryRecord>
    requires PositiveIds(t.rows)
  {
    QueryKeepsPositiveIds(t.rows, BatchCode, CText(batchCode));
    Records(BatchRows(t, batchCode))
  }

  lemma LatestIsStored(rows: seq<Row>, deviceId: string, row: Row)
    ensures IsLatest(rows, deviceId, row) ==> row in rows
  {
  }

  class SqliteTelemetryRepository {
    var table: Table

    ghost predicate Valid()
      reads this
    {
      WellFormed(table)
    }

    constructor ()
      ensures Valid() && table == EMPTY_TABLE
    {
      table := EMPTY_TABLE;
    }

    method Save(packet: TelemetryPacket) returns (recordId: u64)
      requires Valid() && table.sequence + 1 < TWO_TO_THE_63
      modifies this
      ensures Valid() && table == Insert(old(table), packet)
      ensures recordId == FromI64(table.rows[|table.rows| - 1].recordId)
      ensures forall i :: 0 <= i < |old(table).rows| ==> old(table).rows[i].recordId < recordId
    {
      InsertKeepsWellFormed(table, packet);
      table := Insert(table, packet);
      recordId := FromI64(table.sequence);
    }

    /** Throws when another row holds the hash; else it changes three columns of the row with the id, if there is one. */
    method AttachReceipt(recordId: u64, receipt: BlockchainReceipt) returns (r: CallResult)
      requires Valid()
      modifies this
      ensures Valid() && table == Update(old(table), recordId, receipt).0
      ensures r.Thrown? <==> Refused(old(table).rows, ToI64(recordId), CText(receipt.txHash))
      ensures r == Returned(false) <==> !HasRow(old(table).rows, ToI64(recordId))
      ensures r.Thrown? ==> table == old(table)
      ensures !r.Thrown? ==>
                && table.sequence == old(table).sequence && |table.rows| == |old(table).rows|
                && forall i :: 0 <= i < |table.rows| ==>
                     table.rows[i] == if old(table).rows[i].recordId == ToI64(recordId)
                                      then WithReceipt(old(table).rows[i], receipt) else old(table).rows[i]
    {
      hide RowPosition, CText, WellFormed, HasRow, Refused, WithReceipt;
      UpdateMeans(table, recordId, receipt);
      var (after, outcome) := Update(table, recordId, receipt);
      table := after;
      match outcome
      case Changes(n) => r := Returned(n > 0);
      case SqlError => r := Thrown;
    }

    /** Takes out the row with the id and no other, if there is one. */
    method Delete(recordId: u64) returns (found: bool)
      requires Valid()
      modifies this
      ensures Valid() && table == DeleteRow(old(table), recordId).0
      ensures found <==> HasRow(old(table).rows, ToI64(recordId))
      ensures table.sequence == old(table).sequence
      ensures forall row :: row in table.rows <==> row in old(table).rows && row.recordId != ToI64(recordId)
    {
      hide RowPosition, WellFormed, HasRow;
      DeleteMeans(table, recordId);
      var (after, outcome) := DeleteRow(table, recordId);
      table := after;
      found := outcome.n > 0;
    }

    method LatestByDevice(deviceId: string) returns (r: Option<TelemetryRecord>)
      requires Valid()
      ensures r.None? <==> forall row :: row in table.rows ==> row.deviceId != CText(deviceId)
      ensures forall row :: IsLatest(table.rows, CText(deviceId), row) ==>
                row.recordId >= 1 && r == Some(RowToRecord(row))
      ensures r == LatestAnswer(table, deviceId)
    {
      hide CText, OrderBy, IsLatest;
      var row := LatestRow(table, deviceId);
      forall other
        ensures row == Some(other) <==> IsLatest(table.rows, CText(deviceId), other)
        ensures row.None? <==> forall other :: other in table.rows ==> other.deviceId != CText(deviceId)
        ensures IsLatest(table.rows, CText(deviceId), other) ==> other in table.rows
      {
        LatestRowMeans(table, deviceId, other);
        LatestIsStored(table.rows, CText(deviceId), other);
      }
      if row.None? { return None; }
      return Some(RowToRecord(row.value));
    }

    method FindByTransaction(txHash: string) returns (r: Option<TelemetryRecord>)
      requires Valid()
      ensures r.None? <==> forall row :: row in table.rows ==> row.txHash != Some(CText(txHash))
      ensures forall row :: row in table.rows && row.txHash == Some(CText(txHash)) ==>
                row.recordId >= 1 && r == Some(RowToRecord(row))
      ensures r == TransactionAnswer(table, txHash)
    {
      hide CText, SelectWhere;
      forall row ensures row in table.rows && row.txHash == Some(CText(txHash)) <==> TransactionRow(table, txHash) == Some(row) {
        TransactionRowMeans(table, txHash, row);
      }
      var row := TransactionRow(table, txHash);
      if row.None? { return None; }
      return Some(RowToRecord(row.value));
    }

    /** The cursor loop over the ordered rows. */
    method FindByBatch(batchCode: string) returns (result: seq<TelemetryRecord>)
      requires Valid()
      ensures result == BatchAnswer(table, batchCode)
      ensures Ordered(BatchRows(table, batchCode)) && |result| == |BatchRows(table, batchCode)|
      ensures forall row :: row in BatchRows(table, batchCode) <==> row in table.rows && row.batchCode == Some(CText(batchCode))
    {
      hide OrderBy, SelectWhere, CText, Ordered;
      QueryKeepsPositiveIds(table.rows, BatchCode, CText(batchCode));
      BatchRowsMean(table, batchCode);
      result := [];
      var rows := BatchRows(table, batchCode);
      var next := 0;
      while next < |rows|
        invariant next <= |rows| && |result| == next
        invariant forall i :: 0 <= i < next ==> result[i] == RowToRecord(rows[i])
      {
        result := result + [RowToRecord(rows[next])];
        next := next + 1;
      }
    }

    method Size() returns (n: nat)
      ensures n == |table.rows|
    {
      n := |table.rows|;
    }
  }
}
