/**
  The two repositories against each other. Both keep the same records; their lookups differ in
  order: the in-memory one answers in the order of saving, SQLite by timestamp and then id.
*/
module RepositoryAgreement {
  import opened Domain
  import opened SqliteTable
  import opened SqliteRepository
  import Log = TelemetryLog

  // ---------- Rows and records ----------

  /** The row that holds a record. */
  function RowOf(r: TelemetryRecord): Row
    requires r.recordId < TWO_TO_THE_63
  {
    var p := r.packet;
    Row(r.recordId, CText(p.deviceId), ToI64(p.timestamp), CText(p.telemetryJson), CText(p.hashHex),
        CText(p.signature), CText(p.pubKeyId), CText(p.transport),
        if p.batchCode == "" then None else Some(CText(p.batchCode)),
        if r.receipt.None? then None else Some(CText(r.receipt.value.txHash)),
        if r.receipt.None? then 0 else ToI64(r.receipt.value.blockHeight),
        if r.receipt.None? then None else Some(CText(r.receipt.value.submittedAt)))
  }

  predicate NoNul(s: string) {
    forall i :: 0 <= i < |s| ==> s[i] != '\0'
  }

  predicate CleanPacket(p: TelemetryPacket) {
    NoNul(p.deviceId) && NoNul(p.telemetryJson) && NoNul(p.hashHex) && NoNul(p.signature)
    && NoNul(p.pubKeyId) && NoNul(p.transport) && NoNul(p.batchCode)
  }

  predicate CleanReceipt(r: BlockchainReceipt) {
    NoNul(r.txHash) && NoNul(r.submittedAt)
  }

  predicate Clean(r: TelemetryRecord) {
    CleanPacket(r.packet) && (r.receipt.Some? ==> CleanReceipt(r.receipt.value))
  }

  lemma {:induction false} CTextOfClean(s: string)
    ensures NoNul(CText(s)) && (CText(s) == s <==> NoNul(s))
  {
    if s == "" || s[0] == '\0' {
    } else {
      CTextOfClean(s[1..]);
      assert s == [s[0]] + s[1..] && CText(s) == [s[0]] + CText(s[1..]);
    }
  }

  /** Storing a record and reading the row back gives the record exactly when none of its texts holds a NUL. */
  lemma RowRoundTripIff(r: TelemetryRecord)
    requires r.recordId < TWO_TO_THE_63
    ensures RowToRecord(RowOf(r)) == r <==> Clean(r)
  {
    hide CText, NoNul;
    CTextOfClean(r.packet.deviceId);
    CTextOfClean(r.packet.telemetryJson);
    CTextOfClean(r.packet.hashHex);
    CTextOfClean(r.packet.signature);
    CTextOfClean(r.packet.pubKeyId);
    CTextOfClean(r.packet.transport);
    CTextOfClean(r.packet.batchCode);
    EmptyHasNoNul();
    if r.receipt.Some? {
      CTextOfClean(r.receipt.value.txHash);
      CTextOfClean(r.receipt.value.submittedAt);
    }
  }

  lemma EmptyHasNoNul()
    ensures NoNul("")
  {
  }

  ghost predicate SmallIds(rs: seq<TelemetryRecord>) {
    forall i :: 0 <= i < |rs| ==> 1 <= rs[i].recordId < TWO_TO_THE_63
  }

  ghost predicate AllClean(rs: seq<TelemetryRecord>) {
    forall i :: 0 <= i < |rs| ==> Clean(rs[i])
  }

  function Rows(rs: seq<TelemetryRecord>): (rows: seq<Row>)
    requires SmallIds(rs)
    ensures |rows| == |rs| && forall i :: 0 <= i < |rs| ==> rows[i] == RowOf(rs[i])
  {
    seq(|rs|, i requires 0 <= i < |rs| => RowOf(rs[i]))
  }

  /** The table holds the rows of the log's records and numbers the next one alike. */
  ghost predicate Mirrors(t: Table, l: Log.Log) {
    SmallIds(l.records) && t.rows == Rows(l.records) && t.sequence + 1 == l.nextId
  }

  lemma RecordsOfRows(rs: seq<TelemetryRecord>)
    requires SmallIds(rs) && AllClean(rs)
    ensures PositiveIds(Rows(rs)) && Records(Rows(rs)) == rs
  {
    forall i | 0 <= i < |rs| ensures RowToRecord(RowOf(rs[i])) == rs[i] {
      RowRoundTripIff(rs[i]);
    }
  }

  // ---------- Statements keep the correspondence ----------

  lemma {:induction false} PositionsAgree(rs: seq<TelemetryRecord>, id: u64)
    requires SmallIds(rs)
    ensures RowPosition(Rows(rs), ToI64(id)) == Log.Position(rs, id)
  {
    if rs == [] {
    } else {
      var init := rs[..|rs| - 1];
      assert Rows(rs)[..|rs| - 1] == Rows(init);
      PositionsAgree(init, id);
    }
  }

  lemma SaveMirrors(t: Table, l: Log.Log, p: TelemetryPacket)
    requires Mirrors(t, l) && Log.WellFormed(l) && l.nextId < TWO_TO_THE_63
    ensures Mirrors(Insert(t, p), Log.Save(l, p))
  {
    hide CText;
    var after := Log.Save(l, p);
    assert SmallIds(after.records);
    assert Insert(t, p).rows == Rows(after.records);
  }

  lemma DeleteMirrors(t: Table, l: Log.Log, id: u64)
    requires Mirrors(t, l)
    ensures Mirrors(DeleteRow(t, id).0, Log.Delete(l, id))
    ensures DeleteRow(t, id).1 == Changes(if Log.Has(l, id) then 1 else 0)
  {
    hide CText;
    PositionsAgree(l.records, id);
    var after := Log.Delete(l, id);
    assert SmallIds(after.records);
    assert DeleteRow(t, id).0.rows == Rows(after.records);
  }

  /** An attachment is refused exactly when another record holds the hash; else both stores change alike. */
  lemma AttachMirrors(t: Table, l: Log.Log, id: u64, receipt: BlockchainReceipt)
    requires Mirrors(t, l) && AllClean(l.records) && CleanReceipt(receipt)
    ensures var k := Log.Position(l.records, id);
            (k.Some? && exists j :: 0 <= j < |l.records| && j != k.value && Log.HoldsTx(l.records[j], receipt.txHash))
            <==> Update(t, id, receipt).1 == SqlError
    ensures Update(t, id, receipt).1 != SqlError ==>
              && Mirrors(Update(t, id, receipt).0, Log.Attach(l, id, receipt))
              && Update(t, id, receipt).1 == Changes(if Log.Has(l, id) then 1 else 0)
  {
    hide CText, NoNul;
    PositionsAgree(l.records, id);
    if Log.Has(l, id) {
      var k := Log.Position(l.records, id).value;
      CTextOfClean(receipt.txHash);
      forall j | 0 <= j < |l.records|
        ensures t.rows[j].txHash == Some(CText(receipt.txHash)) <==> Log.HoldsTx(l.records[j], receipt.txHash)
      {
        assert Clean(l.records[j]);
        if l.records[j].receipt.Some? { CTextOfClean(l.records[j].receipt.value.txHash); }
      }
      var after := Log.Attach(l, id, receipt);
      assert SmallIds(after.records);
      if Update(t, id, receipt).1 != SqlError {
        assert Update(t, id, receipt).0.rows == Rows(after.records);
      }
    }
  }

  // ---------- Queries: exactly when they agree ----------

  function ColumnOf(kind: Log.Kind): Column {
    if kind == Log.ByDevice then DeviceId else BatchCode
  }

  lemma WhereAgrees(r: TelemetryRecord, kind: Log.Kind, v: string)
    requires 1 <= r.recordId < TWO_TO_THE_63 && Clean(r) && NoNul(v)
    ensures Where(ColumnOf(kind), CText(v), RowOf(r)) <==> Log.Matches(kind, v, r)
  {
    hide CText, NoNul;
    CTextOfClean(v);
    CTextOfClean(r.packet.deviceId);
    CTextOfClean(r.packet.batchCode);
  }

  lemma {:induction false} SelectionsAgree(rs: seq<TelemetryRecord>, kind: Log.Kind, v: string)
    requires SmallIds(rs) && AllClean(rs) && NoNul(v)
    ensures var selected := Log.Select(rs, kind, v);
            SmallIds(selected) && AllClean(selected) && SelectWhere(Rows(rs), ColumnOf(kind), CText(v)) == Rows(selected)
  {
    hide CText, NoNul, Clean, Where, RowOf, Log.Matches;
    if rs == [] {
    } else {
      var init, last := rs[..|rs| - 1], rs[|rs| - 1];
      SelectionsAgree(init, kind, v);
      WhereAgrees(last, kind, v);
      assert Rows(rs)[..|rs| - 1] == Rows(init);
    }
  }

  /** Later records of the list carry no earlier timestamp, as SQLite compares them. */
  ghost predicate InTimeOrder(rs: seq<TelemetryRecord>) {
    forall i, j :: 0 <= i < j < |rs| ==> ToI64(rs[i].packet.timestamp) <= ToI64(rs[j].packet.timestamp)
  }

  lemma OrderedIffInTimeOrder(rs: seq<TelemetryRecord>)
    requires SmallIds(rs) && Log.Increasing(rs)
    ensures Ordered(Rows(rs)) <==> InTimeOrder(rs)
  {
    hide CText, ToI64;
    var rows := Rows(rs);
    forall i, j | 0 <= i < j < |rs|
      ensures Precedes(rows[j], rows[i]) <==> ToI64(rs[j].packet.timestamp) < ToI64(rs[i].packet.timestamp) {}
  }

  lemma RowsInjective(a: seq<TelemetryRecord>, rows: seq<Row>)
    requires SmallIds(a) && AllClean(a)
    requires PositiveIds(rows) && multiset(rows) == multiset(Rows(a))
    requires Records(rows) == a
    ensures rows == Rows(a)
  {
    hide CText, NoNul, RowToRecord, RowOf;
    forall i | 0 <= i < |rows| ensures rows[i] == RowOf(a[i]) {
      assert rows[i] in multiset(Rows(a));
      var j :| 0 <= j < |a| && Rows(a)[j] == rows[i];
      RowRoundTripIff(a[j]);
      assert a[i] == Records(rows)[i] == RowToRecord(rows[i]);
    }
  }

  /** FindByBatch: both stores give one answer exactly when the batch was saved in time order. */
  lemma BatchAgreesIff(t: Table, l: Log.Log, batchCode: string)
    requires Mirrors(t, l) && Log.WellFormed(l) && AllClean(l.records) && NoNul(batchCode)
    ensures PositiveIds(t.rows)
    ensures BatchAnswer(t, batchCode) == Log.FindByBatch(l, batchCode)
            <==> InTimeOrder(Log.FindByBatch(l, batchCode))
  {
    hide CText, NoNul, OrderBy, RowToRecord, RowOf, SelectWhere, Clean, Ordered, InTimeOrder;
    var rs := Log.Select(l.records, Log.ByBatch, batchCode);
    SelectionsAgree(l.records, Log.ByBatch, batchCode);
    assert SelectWhere(t.rows, BatchCode, CText(batchCode)) == Rows(rs);
    Log.SelectIncreasing(l.records, Log.ByBatch, batchCode);
    OrderedIffInTimeOrder(rs);
    MirroredIdsPositive(t, l);
    RecordsOfRows(rs);
    OrderByIsIdentity(Rows(rs));
    OrderByMeaning(Rows(rs));
    var rows := OrderBy(Rows(rs));
    forall i | 0 <= i < |rows| ensures rows[i].recordId >= 1 {
      assert rows[i] in multiset(Rows(rs));
    }
    if Records(rows) == rs {
      RowsInjective(rs, rows);
    }
  }

  /** No record of the list is later, as SQLite compares timestamps, than the last one. */
  ghost predicate LastIsLatest(rs: seq<TelemetryRecord>) {
    forall i :: 0 <= i < |rs| ==> ToI64(rs[i].packet.timestamp) <= ToI64(rs[|rs| - 1].packet.timestamp)
  }

  lemma LatestOfRows(rs: seq<TelemetryRecord>)
    requires rs != [] && SmallIds(rs) && AllClean(rs) && Log.Increasing(rs)
    ensures |OrderBy(Rows(rs))| == |rs|
    ensures OrderBy(Rows(rs))[|rs| - 1].recordId >= 1
    ensures RowToRecord(OrderBy(Rows(rs))[|rs| - 1]) == rs[|rs| - 1] <==> LastIsLatest(rs)
  {
    hide CText, NoNul, Clean, OrderBy, RowToRecord;
    var rows, n := Rows(rs), |rs| - 1;
    LastIsGreatest(rows);
    LastOfOrderBy(rows, n);
    assert forall i :: 0 <= i < n ==>
        (Precedes(rows[n], rows[i]) <==> ToI64(rs[n].packet.timestamp) < ToI64(rs[i].packet.timestamp));
    var m :| 0 <= m <= n && rows[m] == OrderBy(rows)[n];
    RowRoundTripIff(rs[m]);
    RowRoundTripIff(rs[n]);
  }

  /** LatestByDevice: one answer exactly when the last saved record of the device is its latest. */
  lemma LatestAgreesIff(t: Table, l: Log.Log, deviceId: string)
    requires Mirrors(t, l) && Log.WellFormed(l) && AllClean(l.records) && NoNul(deviceId)
    ensures PositiveIds(t.rows)
    ensures LatestAnswer(t, deviceId) == Log.LatestByDevice(l, deviceId)
            <==> LastIsLatest(Log.Select(l.records, Log.ByDevice, deviceId))
  {
    hide CText, NoNul, OrderBy, RowToRecord, SelectWhere, Clean, RowOf, Log.Select;
    var rs := Log.Select(l.records, Log.ByDevice, deviceId);
    SelectionsAgree(l.records, Log.ByDevice, deviceId);
    assert SelectWhere(t.rows, DeviceId, CText(deviceId)) == Rows(rs);
    Log.SelectIncreasing(l.records, Log.ByDevice, deviceId);
    MirroredIdsPositive(t, l);
    if rs == [] {
      OrderByMeaning(Rows(rs));
    } else {
      LatestOfRows(rs);
    }
  }

  lemma MirroredIdsPositive(t: Table, l: Log.Log)
    requires Mirrors(t, l)
    ensures PositiveIds(t.rows)
  {
  }

  lemma HoldsTxAgrees(r: TelemetryRecord, txHash: string)
    requires 1 <= r.recordId < TWO_TO_THE_63 && Clean(r) && NoNul(txHash)
    ensures Where(TxHash, CText(txHash), RowOf(r)) <==> Log.HoldsTx(r, txHash)
  {
    hide CText, NoNul;
    CTextOfClean(txHash);
    if r.receipt.Some? { CTextOfClean(r.receipt.value.txHash); }
  }

  ghost predicate HolderAt(rs: seq<TelemetryRecord>, k: nat, txHash: string) {
    k < |rs| && Log.HoldsTx(rs[k], txHash)
  }

  /** The first row a transaction query selects holds the transaction; without one, none does. */
  lemma {:induction false} TransactionRows(rs: seq<TelemetryRecord>, txHash: string) returns (k: nat)
    requires SmallIds(rs) && AllClean(rs) && NoNul(txHash)
    ensures var rows := SelectWhere(Rows(rs), TxHash, CText(txHash));
            && (rows != [] ==> HolderAt(rs, k, txHash) && rows[0] == RowOf(rs[k]))
            && (rows == [] ==> forall j :: 0 <= j < |rs| ==> !Log.HoldsTx(rs[j], txHash))
  {
    hide CText, NoNul, Clean, Where, RowOf, Log.HoldsTx;
    k := 0;
    if rs == [] {
    } else {
      var init, last := rs[..|rs| - 1], rs[|rs| - 1];
      assert Rows(rs)[..|rs| - 1] == Rows(init);
      k := TransactionRows(init, txHash);
      HoldsTxAgrees(last, txHash);
      if SelectWhere(Rows(init), TxHash, CText(txHash)) == [] {
        k := |rs| - 1;
      }
    }
  }

  /** FindByTransaction: one answer exactly when the in-memory index is right about this hash. */
  lemma TransactionAgreesIff(t: Table, l: Log.Log, txHash: string)
    requires Mirrors(t, l) && Log.WellFormed(l) && WellFormed(t) && AllClean(l.records) && NoNul(txHash)
    ensures PositiveIds(t.rows)
    ensures TransactionAnswer(t, txHash) == Log.FindByTransaction(l, txHash) <==> Log.Indexed(l, txHash)
  {
    hide CText, NoNul, RowToRecord, RowOf, SelectWhere, Log.HoldsTx, Log.Position, WellFormed;
    MirroredIdsPositive(t, l);
    var k := TransactionRows(l.records, txHash);
    if SelectWhere(t.rows, TxHash, CText(txHash)) != [] {
      RowRoundTripIff(l.records[k]);
      HolderIsFirst(t, l, txHash, k);
      Log.PositionUnique(l.records, k);
    }
  }

  /** The unique index leaves a transaction one holder. */
  lemma HolderIsFirst(t: Table, l: Log.Log, txHash: string, k: nat)
    requires Mirrors(t, l) && WellFormed(t) && AllClean(l.records) && NoNul(txHash)
    requires HolderAt(l.records, k, txHash)
    ensures forall j :: 0 <= j < |l.records| && Log.HoldsTx(l.records[j], txHash) ==> j == k
  {
    hide CText, NoNul, Clean;
    forall j | 0 <= j < |l.records| && Log.HoldsTx(l.records[j], txHash) ensures j == k {
      HoldsTxAgrees(l.records[j], txHash);
      HoldsTxAgrees(l.records[k], txHash);
      assert t.rows[j].txHash == t.rows[k].txHash == Some(CText(txHash));
    }
  }

  lemma TransactionAgrees(t: Table, l: Log.Log, txHash: string)
    requires Mirrors(t, l) && Log.WellFormed(l) && WellFormed(t) && AllClean(l.records) && NoNul(txHash) && Log.TxExact(l)
    ensures PositiveIds(t.rows)
    ensures TransactionAnswer(t, txHash) == Log.FindByTransaction(l, txHash)
  {
    hide Log.TxExact, Log.Indexed, WellFormed, Log.FindByTransaction, TransactionAnswer;
    Log.ExactIsIndexed(l, txHash);
    TransactionAgreesIff(t, l, txHash);
  }
}
