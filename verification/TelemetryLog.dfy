/**
  The plain meaning of a telemetry repository: a list of records in the order they were saved,
  the next record id, and the latest record id bound to each transaction hash.
*/
module TelemetryLog {
  import opened Domain

  datatype Log = Log(records: seq<TelemetryRecord>, nextId: nat, byTx: map<string, nat>)

  const EMPTY := Log([], 1, map[])

  ghost predicate Increasing(rs: seq<TelemetryRecord>) {
    forall i, j :: 0 <= i < j < |rs| ==> rs[i].recordId < rs[j].recordId
  }

  ghost predicate WellFormed(l: Log) {
    && l.nextId >= 1
    && Increasing(l.records)
    && forall i :: 0 <= i < |l.records| ==> 1 <= l.records[i].recordId < l.nextId
  }

  // ---------- Finding records ----------

  function Position(rs: seq<TelemetryRecord>, id: nat): (r: Option<nat>)
    ensures r.Some? ==> r.value < |rs| && rs[r.value].recordId == id
    ensures r.None? ==> forall i :: 0 <= i < |rs| ==> rs[i].recordId != id
  {
    if rs == [] then None
    else if rs[|rs| - 1].recordId == id then Some(|rs| - 1)
    else Position(rs[..|rs| - 1], id)
  }

  function FindById(rs: seq<TelemetryRecord>, id: nat): Option<TelemetryRecord> {
    match Position(rs, id)
    case None => None
    case Some(k) => Some(rs[k])
  }

  /** The two ways records are grouped. */
  datatype Kind = ByDevice | ByBatch

  /** A record without a batch code belongs to no batch. */
  predicate Matches(kind: Kind, v: string, r: TelemetryRecord) {
    match kind
    case ByDevice => r.packet.deviceId == v
    case ByBatch => v != "" && r.packet.batchCode == v
  }

  /** The records of a group, in the order they were saved. */
  function Select(rs: seq<TelemetryRecord>, kind: Kind, v: string): seq<TelemetryRecord> {
    if rs == [] then []
    else Select(rs[..|rs| - 1], kind, v) + (if Matches(kind, v, rs[|rs| - 1]) then [rs[|rs| - 1]] else [])
  }

  // ---------- Operations ----------

  function Save(l: Log, packet: TelemetryPacket): Log {
    Log(l.records + [TelemetryRecord(l.nextId, packet, None)], l.nextId + 1, l.byTx)
  }

  function Attach(l: Log, id: nat, receipt: BlockchainReceipt): Log {
    match Position(l.records, id)
    case None => l
    case Some(k) =>
      l.(records := l.records[k := l.records[k].(receipt := Some(receipt))], byTx := l.byTx[receipt.txHash := id])
  }

  function RemoveAt(rs: seq<TelemetryRecord>, k: nat): seq<TelemetryRecord>
    requires k < |rs|
  {
    rs[..k] + rs[k + 1..]
  }

  function Delete(l: Log, id: nat): Log {
    match Position(l.records, id)
    case None => l
    case Some(k) =>
      var r := l.records[k];
      l.(records := RemoveAt(l.records, k),
         byTx := if r.receipt.Some? then l.byTx - {r.receipt.value.txHash} else l.byTx)
  }

  predicate Has(l: Log, id: nat) {
    Position(l.records, id).Some?
  }

  function LatestByDevice(l: Log, deviceId: string): Option<TelemetryRecord> {
    var rs := Select(l.records, ByDevice, deviceId);
    if rs == [] then None else Some(rs[|rs| - 1])
  }

  function FindByBatch(l: Log, batchCode: string): seq<TelemetryRecord> {
    Select(l.records, ByBatch, batchCode)
  }

  function FindByTransaction(l: Log, txHash: string): Option<TelemetryRecord> {
    if txHash in l.byTx then FindById(l.records, l.byTx[txHash]) else None
  }

  // ---------- Laws of finding ----------

  lemma PositionUnique(rs: seq<TelemetryRecord>, k: nat)
    requires Increasing(rs) && k < |rs|
    ensures Position(rs, rs[k].recordId) == Some(k)
  {
  }

  lemma {:induction false} SelectAppend(a: seq<TelemetryRecord>, b: seq<TelemetryRecord>, kind: Kind, v: string)
    ensures Select(a + b, kind, v) == Select(a, kind, v) + Select(b, kind, v)
  {
    if b == [] {
      assert a + b == a;
    } else {
      var whole := a + b;
      assert whole[..|whole| - 1] == a + b[..|b| - 1];
      SelectAppend(a, b[..|b| - 1], kind, v);
    }
  }

  lemma SelectOne(r: TelemetryRecord, kind: Kind, v: string)
    ensures Select([r], kind, v) == if Matches(kind, v, r) then [r] else []
  {
    assert [r][..0] == [];
  }

  lemma SelectAround(rs: seq<TelemetryRecord>, k: nat, kind: Kind, v: string)
    requires k < |rs|
    ensures Select(rs, kind, v) ==
            Select(rs[..k], kind, v) + (if Matches(kind, v, rs[k]) then [rs[k]] else []) + Select(rs[k + 1..], kind, v)
  {
    assert rs == rs[..k] + [rs[k]] + rs[k + 1..];
    SelectAppend(rs[..k] + [rs[k]], rs[k + 1..], kind, v);
    SelectAppend(rs[..k], [rs[k]], kind, v);
    SelectOne(rs[k], kind, v);
  }

  /** Select keeps exactly the matching records. */
  lemma {:induction false} SelectMembers(rs: seq<TelemetryRecord>, kind: Kind, v: string, r: TelemetryRecord)
    ensures r in Select(rs, kind, v) <==> r in rs && Matches(kind, v, r)
  {
    if rs == [] {
    } else {
      var last := rs[|rs| - 1];
      SelectMembers(rs[..|rs| - 1], kind, v, r);
      assert rs == rs[..|rs| - 1] + [last];
    }
  }

  /** ... and keeps them in the order of their ids. */
  lemma {:induction false} SelectIncreasing(rs: seq<TelemetryRecord>, kind: Kind, v: string)
    requires Increasing(rs)
    ensures Increasing(Select(rs, kind, v))
  {
    if rs == [] {
    } else {
      var init := rs[..|rs| - 1];
      SelectIncreasing(init, kind, v);
      forall r | r in Select(init, kind, v) ensures r.recordId < rs[|rs| - 1].recordId {
        SelectMembers(init, kind, v, r);
      }
    }
  }

  /** The latest record of a device: it matches, and no record saved after it does. */
  lemma LatestIsLast(l: Log, deviceId: string, k: nat)
    requires WellFormed(l) && k < |l.records|
    ensures LatestByDevice(l, deviceId) == Some(l.records[k]) <==>
            && l.records[k].packet.deviceId == deviceId
            && forall j :: k < j < |l.records| ==> l.records[j].packet.deviceId != deviceId
  {
    var rs := l.records;
    SelectAround(rs, k, ByDevice, deviceId);
    var later := Select(rs[k + 1..], ByDevice, deviceId);
    if later == [] {
      forall j | k < j < |rs| ensures rs[j].packet.deviceId != deviceId {
        assert rs[j] == rs[k + 1..][j - k - 1];
        SelectMembers(rs[k + 1..], ByDevice, deviceId, rs[j]);
      }
      SelectMembers(rs[..k], ByDevice, deviceId, rs[k]);
    } else {
      var last := later[|later| - 1];
      SelectMembers(rs[k + 1..], ByDevice, deviceId, last);
      var j :| 0 <= j < |rs[k + 1..]| && rs[k + 1..][j] == last;
      assert rs[k + 1 + j] == last;
    }
  }

  // ---------- Laws of the operations ----------

  /** The records behind the one taken out move up, and the order stays. */
  lemma RemoveKeepsIncreasing(rs: seq<TelemetryRecord>, k: nat)
    requires Increasing(rs) && k < |rs|
    ensures
      var after := RemoveAt(rs, k);
      && |after| == |rs| - 1 && Increasing(after)
      && (forall i {:trigger after[i]} :: 0 <= i < k ==> after[i] == rs[i])
      && (forall i {:trigger after[i]} :: k <= i < |after| ==> after[i] == rs[i + 1])
  {
  }

  lemma OperationsKeepWellFormed(l: Log, packet: TelemetryPacket, id: nat, receipt: BlockchainReceipt)
    requires WellFormed(l)
    ensures WellFormed(Save(l, packet)) && WellFormed(Attach(l, id, receipt)) && WellFormed(Delete(l, id))
  {
    hide Position;
    if Has(l, id) {
      RemoveKeepsIncreasing(l.records, Position(l.records, id).value);
      hide RemoveAt;
    }
  }

  /** Rolling a save back restores everything but the id counter. */
  lemma SaveThenDelete(l: Log, packet: TelemetryPacket)
    requires WellFormed(l)
    ensures Delete(Save(l, packet), l.nextId) == l.(nextId := l.nextId + 1)
  {
    PositionUnique(Save(l, packet).records, |l.records|);
  }

  /** Deleting a record takes it out of its own groups and changes no other group. */
  lemma DeleteFromGroups(l: Log, id: nat, kind: Kind, v: string)
    requires WellFormed(l) && Has(l, id)
    ensures
      var k := Position(l.records, id).value;
      Select(Delete(l, id).records, kind, v) == Select(l.records[..k], kind, v) + Select(l.records[k + 1..], kind, v)
    ensures
      var k := Position(l.records, id).value;
      !Matches(kind, v, l.records[k]) ==> Select(Delete(l, id).records, kind, v) == Select(l.records, kind, v)
  {
    hide Select, Matches, Position;
    var rs, k := l.records, Position(l.records, id).value;
    SelectAppend(rs[..k], rs[k + 1..], kind, v);
    SelectAround(rs, k, kind, v);
    assert Delete(l, id).records == rs[..k] + rs[k + 1..];
  }

  /** Deleting one record leaves every other record findable by its id. */
  lemma DeleteKeepsOthers(l: Log, id: nat, other: nat)
    requires WellFormed(l)
    ensures FindById(Delete(l, id).records, other) == if other == id then None else FindById(l.records, other)
  {
    hide Position;
    var rs, after := l.records, Delete(l, id).records;
    if Has(l, id) {
      var k := Position(rs, id).value;
      RemoveKeepsIncreasing(rs, k);
      if other == id || !Has(l, other) {
        assert forall i :: 0 <= i < |after| ==> after[i].recordId != other;
      } else {
        var j := Position(rs, other).value;
        PositionUnique(after, if j < k then j else j - 1);
      }
    }
  }

  // ---------- The transaction index ----------

  /** The transaction index answers exactly with the record that holds the receipt. */
  ghost predicate TxExact(l: Log) {
    && (forall h :: h in l.byTx ==> Held(l.records, l.byTx[h], h))
    && (forall k, h :: 0 <= k < |l.records| && HoldsTx(l.records[k], h) ==>
          h in l.byTx && l.byTx[h] == l.records[k].recordId)
  }

  /** Some record with this id holds this transaction. */
  ghost predicate Held(rs: seq<TelemetryRecord>, id: nat, h: string) {
    exists k :: 0 <= k < |rs| && rs[k].recordId == id && HoldsTx(rs[k], h)
  }

  predicate HoldsTx(r: TelemetryRecord, h: string) {
    r.receipt.Some? && r.receipt.value.txHash == h
  }

  /** With an exact index, looking a transaction up finds the one record that holds it, or none does. */
  lemma FindByTransactionExact(l: Log, h: string)
    requires WellFormed(l) && TxExact(l)
    ensures FindByTransaction(l, h).Some? ==>
              FindByTransaction(l, h).value in l.records && HoldsTx(FindByTransaction(l, h).value, h)
    ensures forall r | r in l.records && HoldsTx(r, h) :: FindByTransaction(l, h) == Some(r)
  {
    if h in l.byTx {
      var k :| 0 <= k < |l.records| && l.records[k].recordId == l.byTx[h] && HoldsTx(l.records[k], h);
      PositionUnique(l.records, k);
      forall r | r in l.records && HoldsTx(r, h) ensures r == l.records[k] {
        var j :| 0 <= j < |l.records| && l.records[j] == r;
        assert l.byTx[h] == l.records[j].recordId;
      }
    } else {
      assert forall j :: 0 <= j < |l.records| ==> !HoldsTx(l.records[j], h);
    }
  }

  /** The entry of one hash, when it leads to a record, leads to a holder, and every holder is the entry's. */
  ghost predicate Indexed(l: Log, h: string) {
    && (FindByTransaction(l, h).Some? ==> HoldsTx(FindByTransaction(l, h).value, h))
    && forall k :: 0 <= k < |l.records| && HoldsTx(l.records[k], h) ==> h in l.byTx && l.byTx[h] == l.records[k].recordId
  }

  lemma ExactIsIndexed(l: Log, h: string)
    requires WellFormed(l) && TxExact(l)
    ensures Indexed(l, h)
  {
    hide FindByTransaction;
    FindByTransactionExact(l, h);
  }

  lemma SaveKeepsTxExact(l: Log, packet: TelemetryPacket)
    requires WellFormed(l) && TxExact(l)
    ensures TxExact(Save(l, packet))
  {
    var after := Save(l, packet);
    forall h | h in after.byTx
      ensures Held(after.records, after.byTx[h], h)
    {
      var k :| 0 <= k < |l.records| && l.records[k].recordId == l.byTx[h] && HoldsTx(l.records[k], h);
      assert after.records[k] == l.records[k];
    }
  }

  /** Where the record now at i stood before the record at k was taken out. */
  function Old(i: nat, k: nat): nat {
    if i < k then i else i + 1
  }

  /** The records and the index after a deletion that finds its record at k. */
  lemma DeleteEffect(l: Log, id: nat, k: nat)
    requires Position(l.records, id) == Some(k)
    ensures
      var after := Delete(l, id);
      && |after.records| == |l.records| - 1 && after.nextId == l.nextId
      && (forall i {:trigger after.records[i]} :: 0 <= i < |after.records| ==> after.records[i] == l.records[Old(i, k)])
      && (forall h :: h in after.byTx <==> h in l.byTx && !HoldsTx(l.records[k], h))
      && (forall h :: h in after.byTx ==> after.byTx[h] == l.byTx[h])
  {
  }

  lemma HeldAfterDelete(l: Log, id: nat, k: nat, other: nat, h: string)
    requires Position(l.records, id) == Some(k)
    requires Held(l.records, other, h) && !HoldsTx(l.records[k], h)
    ensures Held(Delete(l, id).records, other, h)
  {
    hide Delete, Position, HoldsTx;
    DeleteEffect(l, id, k);
    var j :| 0 <= j < |l.records| && l.records[j].recordId == other && HoldsTx(l.records[j], h);
    assert Delete(l, id).records[if j < k then j else j - 1] == l.records[j];
  }

  lemma BoundAfterDelete(l: Log, id: nat, k: nat, i: nat, h: string)
    requires Position(l.records, id) == Some(k)
    requires WellFormed(l) && TxExact(l)
    requires i < |Delete(l, id).records| && HoldsTx(Delete(l, id).records[i], h)
    ensures h in Delete(l, id).byTx && Delete(l, id).byTx[h] == Delete(l, id).records[i].recordId
  {
    hide Delete, Position, HoldsTx, Held;
    DeleteEffect(l, id, k);
    var j := Old(i, k);
    assert HoldsTx(l.records[j], h);
    assert l.records[j].recordId != l.records[k].recordId;
  }

  lemma DeleteKeepsTxExact(l: Log, id: nat)
    requires WellFormed(l) && TxExact(l)
    ensures TxExact(Delete(l, id))
  {
    hide Delete, Position, HoldsTx, Held, WellFormed;
    if Has(l, id) {
      var after, k := Delete(l, id), Position(l.records, id).value;
      DeleteEffect(l, id, k);
      forall h | h in after.byTx ensures Held(after.records, after.byTx[h], h) {
        HeldAfterDelete(l, id, k, l.byTx[h], h);
      }
      forall i, h | 0 <= i < |after.records| && HoldsTx(after.records[i], h)
        ensures h in after.byTx && after.byTx[h] == after.records[i].recordId
      {
        BoundAfterDelete(l, id, k, i, h);
      }
    } else {
      DeleteMissing(l, id);
    }
  }

  lemma DeleteMissing(l: Log, id: nat)
    requires !Has(l, id)
    ensures Delete(l, id) == l
  {
  }

  /** A receipt whose hash no other record holds, on a record that holds no other receipt. */
  ghost predicate FreshReceipt(l: Log, id: nat, h: string)
    requires Has(l, id)
  {
    var k := Position(l.records, id).value;
    && (l.records[k].receipt.None? || HoldsTx(l.records[k], h))
    && forall j :: 0 <= j < |l.records| && j != k ==> !HoldsTx(l.records[j], h)
  }

  /** The records and the index after an attachment that finds its record at k. */
  lemma AttachEffect(l: Log, id: nat, receipt: BlockchainReceipt, k: nat)
    requires Position(l.records, id) == Some(k)
    ensures
      var after := Attach(l, id, receipt);
      && |after.records| == |l.records| && after.byTx == l.byTx[receipt.txHash := id]
      && HoldsTx(after.records[k], receipt.txHash) && after.records[k].recordId == id
      && (forall h :: HoldsTx(after.records[k], h) ==> h == receipt.txHash)
      && forall j :: 0 <= j < |l.records| && j != k ==> after.records[j] == l.records[j]
  {
  }

  lemma FreshAttachKeeps(l: Log, id: nat, receipt: BlockchainReceipt)
    requires WellFormed(l) && TxExact(l) && Has(l, id) && FreshReceipt(l, id, receipt.txHash)
    ensures TxExact(Attach(l, id, receipt))
  {
    hide Attach, Position;
    var after, k, h0 := Attach(l, id, receipt), Position(l.records, id).value, receipt.txHash;
    AttachEffect(l, id, receipt, k);
    forall h | h in after.byTx
      ensures Held(after.records, after.byTx[h], h)
    {
      if h == h0 {
        assert HoldsTx(after.records[k], h);
      } else {
        var j :| 0 <= j < |l.records| && l.records[j].recordId == l.byTx[h] && HoldsTx(l.records[j], h);
        assert after.records[j] == l.records[j];
      }
    }
    forall j, h | 0 <= j < |after.records| && HoldsTx(after.records[j], h)
      ensures h in after.byTx && after.byTx[h] == after.records[j].recordId
    {
      if j != k { assert HoldsTx(l.records[j], h); }
    }
  }

  /** The hash of an overwritten receipt still leads to the record, which no longer holds it. */
  lemma OverwrittenHashIsStale(l: Log, id: nat, receipt: BlockchainReceipt, k: nat)
    requires WellFormed(l) && TxExact(l) && Position(l.records, id) == Some(k)
    requires l.records[k].receipt.Some? && !HoldsTx(l.records[k], receipt.txHash)
    ensures !Indexed(Attach(l, id, receipt), l.records[k].receipt.value.txHash)
  {
    hide Attach, Position;
    var after, h := Attach(l, id, receipt), l.records[k].receipt.value.txHash;
    AttachEffect(l, id, receipt, k);
    assert HoldsTx(l.records[k], h) && after.byTx[h] == id;
    assert forall i, j :: 0 <= i < j < |after.records| ==> after.records[i].recordId < after.records[j].recordId;
    PositionUnique(after.records, k);
  }

  lemma StaleAttachBreaks(l: Log, id: nat, receipt: BlockchainReceipt)
    requires WellFormed(l) && TxExact(l) && Has(l, id) && !FreshReceipt(l, id, receipt.txHash)
    ensures !TxExact(Attach(l, id, receipt))
  {
    hide Attach, Position;
    var after, k, h0 := Attach(l, id, receipt), Position(l.records, id).value, receipt.txHash;
    AttachEffect(l, id, receipt, k);
    if l.records[k].receipt.Some? && !HoldsTx(l.records[k], h0) {
      // The record's earlier hash stays in the index although the record no longer holds it.
      var h := l.records[k].receipt.value.txHash;
      assert HoldsTx(l.records[k], h) && after.byTx[h] == id;
      assert forall i :: 0 <= i < |after.records| && after.records[i].recordId == id ==> i == k;
    } else {
      // Another record holds the hash, but the index now points here.
      var j :| 0 <= j < |l.records| && j != k && HoldsTx(l.records[j], h0);
      assert HoldsTx(after.records[j], h0) && after.byTx[h0] == id;
    }
  }

  /** Attaching a receipt keeps the transaction index exact for fresh receipts and for no others. */
  lemma AttachKeepsTxExactIff(l: Log, id: nat, receipt: BlockchainReceipt)
    requires WellFormed(l) && TxExact(l) && Has(l, id)
    ensures TxExact(Attach(l, id, receipt)) <==> FreshReceipt(l, id, receipt.txHash)
  {
    hide Attach, TxExact, FreshReceipt, WellFormed;
    if FreshReceipt(l, id, receipt.txHash) {
      FreshAttachKeeps(l, id, receipt);
    } else {
      StaleAttachBreaks(l, id, receipt);
    }
  }

  /** A record attached twice is still found under its first hash, with the second receipt. */
  lemma SecondReceiptLeavesStaleHash(packet: TelemetryPacket)
    ensures
      var l := Attach(Attach(Save(EMPTY, packet), 1, BlockchainReceipt("a", 0, "")), 1, BlockchainReceipt("b", 0, ""));
      FindByTransaction(l, "a") == Some(TelemetryRecord(1, packet, Some(BlockchainReceipt("b", 0, ""))))
  {
    var saved := Save(EMPTY, packet);
    var first := Attach(saved, 1, BlockchainReceipt("a", 0, ""));
    assert saved.records == [TelemetryRecord(1, packet, None)];
    assert first.records == [TelemetryRecord(1, packet, Some(BlockchainReceipt("a", 0, "")))];
  }
}
