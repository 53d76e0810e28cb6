/** The table behind the SQLite repository and the meaning of the statements run against it. */
module SqliteTable {
  import opened Domain

  type i64 = n: int | -TWO_TO_THE_63 <= n < TWO_TO_THE_63

  /** static_cast<std::int64_t>: two's complement. */
  function ToI64(n: u64): i64 {
    if n < TWO_TO_THE_63 then n else n - TWO_TO_THE_64
  }

  function FromI64(n: i64): u64 {
    if n >= 0 then n else n + TWO_TO_THE_64
  }

  /** Text bound with length -1 ends at its first NUL. */
  function CText(s: string): string {
    if s == "" || s[0] == '\0' then "" else [s[0]] + CText(s[1..])
  }

  /** A row of telemetry_records. */
  datatype Row = Row(
    recordId: i64,
    deviceId: string,
    timestamp: i64,
    telemetryJson: string,
    hashHex: string,
    signature: string,
    pubKeyId: string,
    transport: string,
    batchCode: Option<string>,
    txHash: Option<string>,
    blockHeight: i64,
    submittedAt: Option<string>)

  /** The rows in rowid order and the AUTOINCREMENT sequence, which never hands out an id twice. */
  datatype Table = Table(rows: seq<Row>, sequence: nat)

  const EMPTY_TABLE := Table([], 0)

  datatype Outcome = Changes(n: nat) | SqlError

  /** Ids increase from 1 and were handed out by the sequence; the index on tx_hash is unique. */
  ghost predicate WellFormed(t: Table) {
    && (forall i :: 0 <= i < |t.rows| ==> 1 <= t.rows[i].recordId <= t.sequence)
    && (forall i, j :: 0 <= i < j < |t.rows| ==> t.rows[i].recordId < t.rows[j].recordId)
    && forall i, j :: 0 <= i < j < |t.rows| && t.rows[i].txHash.Some? ==> t.rows[i].txHash != t.rows[j].txHash
  }

  // ---------- Statements that change the table ----------

  function Insert(t: Table, p: TelemetryPacket): Table
    requires t.sequence + 1 < TWO_TO_THE_63
  {
    var row := Row(
      t.sequence + 1, CText(p.deviceId), ToI64(p.timestamp), CText(p.telemetryJson), CText(p.hashHex),
      CText(p.signature), CText(p.pubKeyId), CText(p.transport),
      if p.batchCode == "" then None else Some(CText(p.batchCode)), None, 0, None);
    Table(t.rows + [row], t.sequence + 1)
  }

  function RowPosition(rows: seq<Row>, id: i64): (r: Option<nat>)
    ensures r.Some? ==> r.value < |rows| && rows[r.value].recordId == id
    ensures r.None? ==> forall i :: 0 <= i < |rows| ==> rows[i].recordId != id
  {
    if rows == [] then None
    else if rows[|rows| - 1].recordId == id then Some(|rows| - 1)
    else RowPosition(rows[..|rows| - 1], id)
  }

  /** The unique index on tx_hash refuses a hash that another row holds. */
  predicate Conflicts(rows: seq<Row>, k: nat, txHash: string) {
    exists i :: 0 <= i < |rows| && i != k && rows[i].txHash == Some(txHash)
  }

  /** SET tx_hash, block_height, submitted_at. */
  function WithReceipt(row: Row, receipt: BlockchainReceipt): Row {
    row.(txHash := Some(CText(receipt.txHash)), blockHeight := ToI64(receipt.blockHeight),
         submittedAt := Some(CText(receipt.submittedAt)))
  }

  function Update(t: Table, id: u64, receipt: BlockchainReceipt): (Table, Outcome) {
    match RowPosition(t.rows, ToI64(id))
    case None => (t, Changes(0))
    case Some(k) =>
      if Conflicts(t.rows, k, CText(receipt.txHash)) then (t, SqlError)
      else
        (t.(rows := t.rows[k := WithReceipt(t.rows[k], receipt)]), Changes(1))
  }

  function DeleteRow(t: Table, id: u64): (Table, Outcome) {
    match RowPosition(t.rows, ToI64(id))
    case None => (t, Changes(0))
    case Some(k) => (t.(rows := t.rows[..k] + t.rows[k + 1..]), Changes(1))
  }

  lemma InsertKeepsWellFormed(t: Table, p: TelemetryPacket)
    requires WellFormed(t) && t.sequence + 1 < TWO_TO_THE_63
    ensures WellFormed(Insert(t, p))
  {
    hide CText;
  }

  ghost predicate HasRow(rows: seq<Row>, id: i64) {
    exists row :: row in rows && row.recordId == id
  }

  /** There is a row with the id, and another row holds the hash. */
  ghost predicate Refused(rows: seq<Row>, id: i64, txHash: string) {
    HasRow(rows, id) && exists other :: other in rows && other.recordId != id && other.txHash == Some(txHash)
  }

  /** The row found by id is the only one with it. */
  lemma RowPositionMeans(t: Table, id: i64)
    requires WellFormed(t)
    ensures RowPosition(t.rows, id).Some? <==> HasRow(t.rows, id)
    ensures forall i | 0 <= i < |t.rows| && t.rows[i].recordId == id :: RowPosition(t.rows, id) == Some(i)
  {
    var k := RowPosition(t.rows, id);
    if k.Some? { assert t.rows[k.value] in t.rows; }
  }

  /** Another row holds a hash exactly when some other position does. */
  lemma ConflictsMeans(t: Table, k: nat, txHash: string)
    requires WellFormed(t) && k < |t.rows|
    ensures Conflicts(t.rows, k, txHash) <==> Refused(t.rows, t.rows[k].recordId, txHash)
  {
    assert t.rows[k] in t.rows;
    forall other | other in t.rows && other.recordId != t.rows[k].recordId && other.txHash == Some(txHash)
      ensures Conflicts(t.rows, k, txHash)
    {
      var i :| 0 <= i < |t.rows| && t.rows[i] == other;
    }
    if Conflicts(t.rows, k, txHash) {
      var i :| 0 <= i < |t.rows| && i != k && t.rows[i].txHash == Some(txHash);
      assert t.rows[i] in t.rows && t.rows[i].recordId != t.rows[k].recordId;
    }
  }

  lemma WithReceiptKeepsWellFormed(t: Table, k: nat, receipt: BlockchainReceipt)
    requires WellFormed(t) && k < |t.rows| && !Conflicts(t.rows, k, CText(receipt.txHash))
    ensures WellFormed(t.(rows := t.rows[k := WithReceipt(t.rows[k], receipt)]))
  {
    hide CText;
  }

  /** An attachment fails exactly when another row holds the hash; else it changes the row with the id only. */
  lemma UpdateMeans(t: Table, id: u64, receipt: BlockchainReceipt)
    requires WellFormed(t)
    ensures
      var (after, outcome) := Update(t, id, receipt);
      && WellFormed(after)
      && (outcome == SqlError <==> Refused(t.rows, ToI64(id), CText(receipt.txHash)))
      && (outcome == Changes(0) <==> !HasRow(t.rows, ToI64(id)))
      && (outcome != SqlError ==>
            && after.sequence == t.sequence && |after.rows| == |t.rows|
            && forall i :: 0 <= i < |t.rows| ==>
                 after.rows[i] == if t.rows[i].recordId == ToI64(id) then WithReceipt(t.rows[i], receipt) else t.rows[i])
  {
    hide RowPosition, CText, ToI64, WellFormed, Conflicts, HasRow, WithReceipt;
    RowPositionMeans(t, ToI64(id));
    if RowPosition(t.rows, ToI64(id)).Some? {
      var k := RowPosition(t.rows, ToI64(id)).value;
      ConflictsMeans(t, k, CText(receipt.txHash));
      if !Conflicts(t.rows, k, CText(receipt.txHash)) { WithReceiptKeepsWellFormed(t, k, receipt); }
    }
  }

  /** A delete takes out the row with the id and keeps the others in their order. */
  lemma DeleteMeans(t: Table, id: u64)
    requires WellFormed(t)
    ensures
      var (after, outcome) := DeleteRow(t, id);
      && WellFormed(after) && after.sequence == t.sequence
      && outcome == Changes(if HasRow(t.rows, ToI64(id)) then 1 else 0)
      && forall row :: row in after.rows <==> row in t.rows && row.recordId != ToI64(id)
  {
    hide RowPosition, ToI64, WellFormed, HasRow;
    RowPositionMeans(t, ToI64(id));
    if RowPosition(t.rows, ToI64(id)).Some? {
      var k := RowPosition(t.rows, ToI64(id)).value;
      RemovalKeepsWellFormed(t, k);
      assert t.rows == t.rows[..k] + [t.rows[k]] + t.rows[k + 1..];
      assert forall i :: 0 <= i < |t.rows| && i != k ==> t.rows[i].recordId != ToI64(id);
    }
  }

  lemma RemovalKeepsWellFormed(t: Table, k: nat)
    requires WellFormed(t) && k < |t.rows|
    ensures WellFormed(t.(rows := t.rows[..k] + t.rows[k + 1..]))
  {
    var rows := t.rows[..k] + t.rows[k + 1..];
    assert forall i :: 0 <= i < |rows| ==> rows[i] == t.rows[if i < k then i else i + 1];
  }

  // ---------- Queries ----------

  /** ORDER BY timestamp ASC, record_id ASC. */
  predicate Precedes(a: Row, b: Row) {
    a.timestamp < b.timestamp || (a.timestamp == b.timestamp && a.recordId < b.recordId)
  }

  ghost predicate Ordered(rows: seq<Row>) {
    forall i, j :: 0 <= i < j < |rows| ==> !Precedes(rows[j], rows[i])
  }

  function InsertOrdered(rows: seq<Row>, row: Row): seq<Row> {
    if rows == [] || !Precedes(row, rows[|rows| - 1]) then rows + [row]
    else InsertOrdered(rows[..|rows| - 1], row) + [rows[|rows| - 1]]
  }

  function OrderBy(rows: seq<Row>): seq<Row> {
    if rows == [] then [] else InsertOrdered(OrderBy(rows[..|rows| - 1]), rows[|rows| - 1])
  }

  datatype Column = DeviceId | BatchCode | TxHash

  predicate Where(column: Column, v: string, row: Row) {
    match column
    case DeviceId => row.deviceId == v
    case BatchCode => row.batchCode == Some(v)
    case TxHash => row.txHash == Some(v)
  }

  function SelectWhere(rows: seq<Row>, column: Column, v: string): seq<Row> {
    if rows == [] then []
    else SelectWhere(rows[..|rows| - 1], column, v)
         + (if Where(column, v, rows[|rows| - 1]) then [rows[|rows| - 1]] else [])
  }

  /** ... ORDER BY timestamp DESC, record_id DESC LIMIT 1. */
  function LatestRow(t: Table, deviceId: string): Option<Row> {
    var rows := OrderBy(SelectWhere(t.rows, DeviceId, CText(deviceId)));
    if rows == [] then None else Some(rows[|rows| - 1])
  }

  function BatchRows(t: Table, batchCode: string): seq<Row> {
    OrderBy(SelectWhere(t.rows, BatchCode, CText(batchCode)))
  }

  /** LIMIT 1 on a unique column. */
  function TransactionRow(t: Table, txHash: string): Option<Row> {
    var rows := SelectWhere(t.rows, TxHash, CText(txHash));
    if rows == [] then None else Some(rows[0])
  }

  function TextOr(text: Option<string>, default: string): string {
    if text.Some? then text.value else default
  }

  function RowToRecord(row: Row): TelemetryRecord
    requires row.recordId >= 0
  {
    TelemetryRecord(
      row.recordId,
      TelemetryPacket(row.deviceId, FromI64(row.timestamp), row.telemetryJson, row.hashHex, row.signature,
                      row.pubKeyId, row.transport, TextOr(row.batchCode, "")),
      if row.txHash.None? then None
      else Some(BlockchainReceipt(row.txHash.value, FromI64(row.blockHeight), TextOr(row.submittedAt, ""))))
  }

  // ---------- What ordering means ----------

  lemma {:induction false} InsertOrderedContents(rows: seq<Row>, row: Row)
    ensures multiset(InsertOrdered(rows, row)) == multiset(rows) + multiset{row}
  {
    hide Precedes;
    if rows == [] || !Precedes(row, rows[|rows| - 1]) {
    } else {
      var init, last := rows[..|rows| - 1], rows[|rows| - 1];
      InsertOrderedContents(init, row);
      assert rows == init + [last];
    }
  }

  ghost predicate NoneFollows(rows: seq<Row>, last: Row) {
    forall i :: 0 <= i < |rows| ==> !Precedes(last, rows[i])
  }

  lemma {:induction false} InsertOrderedBelow(rows: seq<Row>, row: Row, last: Row)
    requires NoneFollows(rows, last) && !Precedes(last, row)
    ensures NoneFollows(InsertOrdered(rows, row), last)
  {
    hide Precedes;
    if rows == [] || !Precedes(row, rows[|rows| - 1]) {
    } else {
      InsertOrderedBelow(rows[..|rows| - 1], row, last);
    }
  }

  lemma {:induction false} InsertOrderedIsOrdered(rows: seq<Row>, row: Row)
    requires Ordered(rows)
    ensures Ordered(InsertOrdered(rows, row))
  {
    if rows != [] && Precedes(row, rows[|rows| - 1]) {
      var init, last := rows[..|rows| - 1], rows[|rows| - 1];
      InsertOrderedIsOrdered(init, row);
      InsertOrderedBelow(init, row, last);
    } else if rows != [] {
      var last := rows[|rows| - 1];
      forall i | 0 <= i < |rows| ensures !Precedes(row, rows[i]) {
        assert i < |rows| - 1 ==> !Precedes(last, rows[i]);
      }
    }
  }

  /** The rows of a query are exactly the selected ones, in order. */
  lemma {:induction false} OrderByMeaning(rows: seq<Row>)
    ensures Ordered(OrderBy(rows)) && multiset(OrderBy(rows)) == multiset(rows)
  {
    hide Ordered, InsertOrdered;
    if rows != [] {
      var init, last := rows[..|rows| - 1], rows[|rows| - 1];
      OrderByMeaning(init);
      InsertOrderedIsOrdered(OrderBy(init), last);
      InsertOrderedContents(OrderBy(init), last);
      assert rows == init + [last];
    } else {
      assert Ordered(OrderBy(rows)) by { EmptyIsOrdered(); }
    }
  }

  lemma EmptyIsOrdered()
    ensures Ordered(OrderBy([]))
  {
  }

  /** Ordering changes nothing exactly when the rows are in order already. */
  lemma {:induction false} OrderByIsIdentity(rows: seq<Row>)
    ensures OrderBy(rows) == rows <==> Ordered(rows)
  {
    OrderByMeaning(rows);
    if rows == [] || !Ordered(rows) {
    } else {
      var init := rows[..|rows| - 1];
      OrderByIsIdentity(init);
      assert init != [] ==> !Precedes(rows[|rows| - 1], init[|init| - 1]);
    }
  }

  /** The last row of a query is a selected row that no selected row follows. */
  lemma LastIsGreatest(rows: seq<Row>)
    requires rows != []
    ensures |OrderBy(rows)| == |rows|
    ensures OrderBy(rows)[|rows| - 1] in rows && NoneFollows(rows, OrderBy(rows)[|rows| - 1])
  {
    hide OrderBy;
    OrderByMeaning(rows);
    var sorted := OrderBy(rows);
    assert |sorted| == |multiset(sorted)|;
    var last := sorted[|sorted| - 1];
    assert last in multiset(rows);
    forall i | 0 <= i < |rows| ensures !Precedes(last, rows[i]) {
      assert rows[i] in multiset(sorted);
      var j :| 0 <= j < |sorted| && sorted[j] == rows[i];
    }
  }

  /** Among rows with distinct ids it is the one that no other follows. */
  lemma LastOfOrderBy(rows: seq<Row>, k: nat)
    requires k < |rows| && forall i, j :: 0 <= i < j < |rows| ==> rows[i].recordId != rows[j].recordId
    ensures |OrderBy(rows)| == |rows|
    ensures OrderBy(rows)[|rows| - 1] == rows[k] <==> NoneFollows(rows, rows[k])
  {
    hide OrderBy;
    LastIsGreatest(rows);
    var last := OrderBy(rows)[|rows| - 1];
    var m :| 0 <= m < |rows| && rows[m] == last;
    if NoneFollows(rows, rows[k]) {
      assert !Precedes(rows[k], rows[m]) && !Precedes(rows[m], rows[k]);
    }
  }

  // ---------- What the queries answer ----------

  lemma {:induction false} SelectWhereMembers(rows: seq<Row>, column: Column, v: string, row: Row)
    ensures row in SelectWhere(rows, column, v) <==> row in rows && Where(column, v, row)
  {
    hide Where;
    if rows == [] {
    } else {
      SelectWhereMembers(rows[..|rows| - 1], column, v, row);
      assert rows == rows[..|rows| - 1] + [rows[|rows| - 1]];
    }
  }

  /** A row of the device that every other row of the device comes before, in time and then id. */
  ghost predicate IsLatest(rows: seq<Row>, deviceId: string, row: Row) {
    && row in rows && row.deviceId == deviceId
    && forall other :: other in rows && other != row && other.deviceId == deviceId ==> Precedes(other, row)
  }

  lemma IdsTellRowsApart(t: Table, a: Row, b: Row)
    requires WellFormed(t) && a in t.rows && b in t.rows
    ensures a.recordId == b.recordId <==> a == b
    ensures a.txHash.Some? && a.txHash == b.txHash ==> a == b
  {
  }

  /** The device query answers with its latest row, and with nothing exactly when there is no row. */
  lemma LatestRowMeans(t: Table, deviceId: string, row: Row)
    requires WellFormed(t)
    ensures LatestRow(t, deviceId).None? <==> forall other :: other in t.rows ==> other.deviceId != CText(deviceId)
    ensures LatestRow(t, deviceId) == Some(row) <==> IsLatest(t.rows, CText(deviceId), row)
  {
    hide OrderBy, CText, SelectWhere, WellFormed;
    var v := CText(deviceId);
    var selected := SelectWhere(t.rows, DeviceId, v);
    forall other ensures other in selected <==> other in t.rows && other.deviceId == v {
      SelectWhereMembers(t.rows, DeviceId, v, other);
    }
    if selected == [] {
      OrderByMeaning(selected);
      assert forall other :: other in t.rows && other.deviceId == v ==> other in selected;
    } else {
      LastIsGreatest(selected);
      var last := OrderBy(selected)[|selected| - 1];
      forall other | other in t.rows && other != last && other.deviceId == v ensures Precedes(other, last) {
        IdsTellRowsApart(t, other, last);
        assert other in selected && !Precedes(last, other);
      }
      assert IsLatest(t.rows, v, last);
    }
  }

  /** The batch query answers with each row of the batch once, in order of time and then id. */
  lemma BatchRowsMean(t: Table, batchCode: string)
    requires WellFormed(t)
    ensures Ordered(BatchRows(t, batchCode))
    ensures forall row :: row in BatchRows(t, batchCode) <==> row in t.rows && row.batchCode == Some(CText(batchCode))
    ensures |BatchRows(t, batchCode)| == |SelectWhere(t.rows, BatchCode, CText(batchCode))|
  {
    hide CText, OrderBy, SelectWhere, Ordered, WellFormed;
    var v := CText(batchCode);
    var selected := SelectWhere(t.rows, BatchCode, v);
    OrderByMeaning(selected);
    assert |OrderBy(selected)| == |multiset(OrderBy(selected))| == |multiset(selected)| == |selected|;
    forall row ensures row in OrderBy(selected) <==> row in t.rows && row.batchCode == Some(v) {
      SelectWhereMembers(t.rows, BatchCode, v, row);
      assert row in OrderBy(selected) <==> row in multiset(OrderBy(selected));
      assert row in selected <==> row in multiset(selected);
    }
  }

  /** The transaction query answers with the row that holds the hash, and with nothing exactly when none does. */
  lemma TransactionRowMeans(t: Table, txHash: string, row: Row)
    requires WellFormed(t)
    ensures TransactionRow(t, txHash).None? <==> forall other :: other in t.rows ==> other.txHash != Some(CText(txHash))
    ensures TransactionRow(t, txHash) == Some(row) <==> row in t.rows && row.txHash == Some(CText(txHash))
  {
    hide CText, SelectWhere, WellFormed;
    var v := CText(txHash);
    var selected := SelectWhere(t.rows, TxHash, v);
    forall other ensures other in selected <==> other in t.rows && other.txHash == Some(v) {
      SelectWhereMembers(t.rows, TxHash, v, other);
    }
    if selected != [] {
      assert selected[0] in selected;
      if row in selected { IdsTellRowsApart(t, selected[0], row); }
    }
  }
}
