/** Whole histories of calls against both repositories, from empty. */
module RepositoryHistories {
  import opened Domain
  import opened SqliteTable
  import opened SqliteRepository
  import opened RepositoryAgreement
  import Log = TelemetryLog

  datatype Call =
    | Save(packet: TelemetryPacket)
    | Attach(id: u64, receipt: BlockchainReceipt)
    | Delete(id: u64)

  datatype Reply = Saved(recordId: nat) | Found(found: bool) | Threw

  /** Fewer calls than there are positive 64-bit ids. */
  type History = calls: seq<Call> | |calls| < TWO_TO_THE_63 - 1

  function LogStep(l: Log.Log, call: Call): (Log.Log, Reply) {
    match call
    case Save(packet) => (Log.Save(l, packet), Saved(l.nextId))
    case Attach(id, receipt) => (Log.Attach(l, id, receipt), Found(Log.Has(l, id)))
    case Delete(id) => (Log.Delete(l, id), Found(Log.Has(l, id)))
  }

  function ReplyOf(outcome: Outcome): Reply {
    match outcome
    case Changes(n) => Found(n > 0)
    case SqlError => Threw
  }

  function TableStep(t: Table, call: Call): (Table, Reply)
    requires t.sequence + 1 < TWO_TO_THE_63
  {
    match call
    case Save(packet) => (Insert(t, packet), Saved(t.sequence + 1))
    case Attach(id, receipt) => (Update(t, id, receipt).0, ReplyOf(Update(t, id, receipt).1))
    case Delete(id) => (DeleteRow(t, id).0, ReplyOf(DeleteRow(t, id).1))
  }

  function InMemory(h: History): Log.Log {
    if h == [] then Log.EMPTY else LogStep(InMemory(h[..|h| - 1]), h[|h| - 1]).0
  }

  function OnDisk(h: History): (t: Table)
    ensures t.sequence <= |h|
  {
    if h == [] then EMPTY_TABLE else TableStep(OnDisk(h[..|h| - 1]), h[|h| - 1]).0
  }

  // ---------- Orderly histories ----------

  function SavedPackets(h: History): seq<TelemetryPacket> {
    if h == [] then []
    else SavedPackets(h[..|h| - 1]) + (if h[|h| - 1].Save? then [h[|h| - 1].packet] else [])
  }

  predicate SameGroup(p: TelemetryPacket, q: TelemetryPacket) {
    p.deviceId == q.deviceId || (p.batchCode != "" && p.batchCode == q.batchCode)
  }

  ghost predicate OrderlySaves(ps: seq<TelemetryPacket>) {
    && (forall i :: 0 <= i < |ps| ==> CleanPacket(ps[i]) && ps[i].timestamp < TWO_TO_THE_63)
    && forall i, j :: 0 <= i < j < |ps| && SameGroup(ps[i], ps[j]) ==> ps[i].timestamp <= ps[j].timestamp
  }

  /**
    Along the history each attachment that finds its record brings a hash that no other live record
    has, to a record that has no other hash.
   */
  ghost predicate OrderlyAttachments(h: History) {
    h == [] || (OrderlyAttachments(h[..|h| - 1]) && OrderlyCall(InMemory(h[..|h| - 1]), h[|h| - 1]))
  }

  ghost predicate OrderlyCall(l: Log.Log, call: Call) {
    call.Attach? && Log.Has(l, call.id) ==> CleanReceipt(call.receipt) && Log.FreshReceipt(l, call.id, call.receipt.txHash)
  }

  /** Text holds no NUL, and timestamps fit 63 bits and do not go back within a device or a batch. */
  ghost predicate Orderly(h: History) {
    OrderlySaves(SavedPackets(h)) && OrderlyAttachments(h)
  }

  lemma OrderlyPrefix(h: History)
    requires h != [] && Orderly(h)
    ensures Orderly(h[..|h| - 1]) && OrderlyCall(InMemory(h[..|h| - 1]), h[|h| - 1])
  {
    hide CleanPacket, OrderlyCall, InMemory;
    var ps, qs := SavedPackets(h[..|h| - 1]), SavedPackets(h);
    assert forall i :: 0 <= i < |ps| ==> ps[i] == qs[i];
  }

  // ---------- What an orderly history leaves behind ----------

  /** Each live record is the packet of its own save, and its receipt is clean. */
  ghost predicate ComesFrom(l: Log.Log, ps: seq<TelemetryPacket>) {
    && l.nextId == |ps| + 1
    && forall i :: 0 <= i < |l.records| ==>
         var r := l.records[i];
         && 1 <= r.recordId <= |ps| && r.packet == ps[r.recordId - 1]
         && (r.receipt.Some? ==> CleanReceipt(r.receipt.value))
  }

  lemma {:induction false} SavedAtMostCalls(h: History)
    ensures |SavedPackets(h)| <= |h|
  {
    if h == [] {
    } else {
      SavedAtMostCalls(h[..|h| - 1]);
    }
  }

  lemma RecordsAreClean(l: Log.Log, ps: seq<TelemetryPacket>)
    requires ComesFrom(l, ps) && OrderlySaves(ps)
    ensures AllClean(l.records)
  {
    hide CleanPacket, CleanReceipt;
  }

  lemma StepComesFrom(l: Log.Log, ps: seq<TelemetryPacket>, call: Call)
    requires ComesFrom(l, ps) && OrderlyCall(l, call)
    ensures ComesFrom(LogStep(l, call).0, if call.Save? then ps + [call.packet] else ps)
  {
    hide Log.Attach, Log.Delete, Log.Position, Log.HoldsTx, CleanReceipt, Log.FreshReceipt;
    match call {
      case Save(packet) =>
      case Attach(id, receipt) =>
        if Log.Has(l, id) {
          Log.AttachEffect(l, id, receipt, Log.Position(l.records, id).value);
          AttachedRecord(l, id, receipt);
        } else {
          AttachMissing(l, id, receipt);
        }
      case Delete(id) =>
        if Log.Has(l, id) {
          Log.DeleteEffect(l, id, Log.Position(l.records, id).value);
        } else {
          Log.DeleteMissing(l, id);
        }
    }
  }

  lemma AttachedRecord(l: Log.Log, id: nat, receipt: BlockchainReceipt)
    requires Log.Has(l, id)
    ensures var k := Log.Position(l.records, id).value;
            Log.Attach(l, id, receipt).records[k] == l.records[k].(receipt := Some(receipt))
            && Log.Attach(l, id, receipt).nextId == l.nextId
  {
  }

  /** One orderly call keeps the stores alike, and both give the same reply. */
  lemma StepAgrees(l: Log.Log, t: Table, ps: seq<TelemetryPacket>, call: Call)
    requires Mirrors(t, l) && Log.WellFormed(l) && Log.TxExact(l) && l.nextId < TWO_TO_THE_63
    requires ComesFrom(l, ps) && OrderlySaves(ps) && OrderlyCall(l, call)
    ensures Mirrors(TableStep(t, call).0, LogStep(l, call).0)
    ensures Log.WellFormed(LogStep(l, call).0) && Log.TxExact(LogStep(l, call).0)
    ensures TableStep(t, call).1 == LogStep(l, call).1
  {
    hide Mirrors, Log.TxExact, Log.WellFormed, ComesFrom, OrderlySaves, Log.Save, Log.Attach, Log.Delete,
         Insert, Update, DeleteRow;
    RecordsAreClean(l, ps);
    match call {
      case Save(packet) =>
        Log.OperationsKeepWellFormed(l, packet, 0, BlockchainReceipt("", 0, ""));
        SaveMirrors(t, l, packet);
        Log.SaveKeepsTxExact(l, packet);
        assert t.sequence + 1 == l.nextId by { SequenceOfMirror(t, l); }
      case Attach(id, receipt) =>
        if Log.Has(l, id) {
          AttachMirrors(t, l, id, receipt);
          Log.OperationsKeepWellFormed(l, l.records[0].packet, id, receipt);
          Log.FreshAttachKeeps(l, id, receipt);
        } else {
          UpdateMissing(t, l, id, receipt);
          AttachMissing(l, id, receipt);
        }
      case Delete(id) =>
        DeleteMirrors(t, l, id);
        Log.OperationsKeepWellFormed(l, TelemetryPacket("", 0, "", "", "", "", "", ""), id, BlockchainReceipt("", 0, ""));
        Log.DeleteKeepsTxExact(l, id);
    }
  }

  /** An attachment to a missing record changes nothing in either store, whatever its hash. */
  lemma UpdateMissing(t: Table, l: Log.Log, id: u64, receipt: BlockchainReceipt)
    requires Mirrors(t, l) && !Log.Has(l, id)
    ensures Update(t, id, receipt) == (t, Changes(0))
  {
    hide CText;
    PositionsAgree(l.records, id);
  }

  lemma SequenceOfMirror(t: Table, l: Log.Log)
    requires Mirrors(t, l)
    ensures t.sequence + 1 == l.nextId
  {
  }

  lemma AttachMissing(l: Log.Log, id: nat, receipt: BlockchainReceipt)
    requires !Log.Has(l, id)
    ensures Log.Attach(l, id, receipt) == l
  {
  }

  /** Along an orderly history the two stores mirror each other. */
  lemma {:induction false} HistoryMirrors(h: History)
    requires Orderly(h)
    ensures Mirrors(OnDisk(h), InMemory(h))
    ensures Log.WellFormed(InMemory(h)) && Log.TxExact(InMemory(h))
    ensures ComesFrom(InMemory(h), SavedPackets(h))
  {
    hide Mirrors, Log.WellFormed, Log.TxExact, ComesFrom, Orderly, LogStep, TableStep, OrderlyCall;
    if h == [] {
      EmptyMirrors();
      assert InMemory(h) == Log.EMPTY && OnDisk(h) == EMPTY_TABLE;
    } else {
      var init, call := h[..|h| - 1], h[|h| - 1];
      OrderlyPrefix(h);
      HistoryMirrors(init);
      assert SavedPackets(init) + [] == SavedPackets(init);
      StepComesFrom(InMemory(init), SavedPackets(init), call);
      SavedAtMostCalls(init);
      NextIdOf(InMemory(init), SavedPackets(init));
      OrderlyParts(init);
      StepAgrees(InMemory(init), OnDisk(init), SavedPackets(init), call);
    }
  }

  /** Whatever the history, the table is well formed. */
  lemma {:induction false} TableIsWellFormed(h: History)
    ensures WellFormed(OnDisk(h))
  {
    hide WellFormed, Insert, Update, DeleteRow;
    if h == [] {
      EmptyMirrors();
    } else {
      var init, call := h[..|h| - 1], h[|h| - 1];
      TableIsWellFormed(init);
      match call
      case Save(packet) => InsertKeepsWellFormed(OnDisk(init), packet);
      case Attach(id, receipt) => UpdateMeans(OnDisk(init), id, receipt);
      case Delete(id) => DeleteMeans(OnDisk(init), id);
    }
  }

  lemma EmptyMirrors()
    ensures Mirrors(EMPTY_TABLE, Log.EMPTY) && WellFormed(EMPTY_TABLE)
    ensures Log.WellFormed(Log.EMPTY) && Log.TxExact(Log.EMPTY) && ComesFrom(Log.EMPTY, [])
  {
  }

  lemma OrderlyParts(h: History)
    requires Orderly(h)
    ensures OrderlySaves(SavedPackets(h))
  {
  }

  lemma NextIdOf(l: Log.Log, ps: seq<TelemetryPacket>)
    requires ComesFrom(l, ps)
    ensures l.nextId == |ps| + 1
  {
  }

  /** Records of one group were saved in time order. */
  lemma GroupInTimeOrder(l: Log.Log, ps: seq<TelemetryPacket>, kind: Log.Kind, v: string)
    requires Log.WellFormed(l) && ComesFrom(l, ps) && OrderlySaves(ps)
    ensures InTimeOrder(Log.Select(l.records, kind, v))
  {
    hide Log.Select, CleanPacket, CleanReceipt;
    var rs := Log.Select(l.records, kind, v);
    Log.SelectIncreasing(l.records, kind, v);
    forall i, j | 0 <= i < j < |rs|
      ensures ToI64(rs[i].packet.timestamp) <= ToI64(rs[j].packet.timestamp)
    {
      Log.SelectMembers(l.records, kind, v, rs[i]);
      Log.SelectMembers(l.records, kind, v, rs[j]);
      assert rs[i].packet == ps[rs[i].recordId - 1] && rs[j].packet == ps[rs[j].recordId - 1];
      assert SameGroup(rs[i].packet, rs[j].packet);
    }
  }

  /** After any orderly history every lookup and the size give one answer in both stores. */
  lemma RepositoriesAgree(h: History, deviceId: string, txHash: string, batchCode: string)
    requires Orderly(h) && NoNul(deviceId) && NoNul(txHash) && NoNul(batchCode)
    ensures PositiveIds(OnDisk(h).rows)
    ensures |OnDisk(h).rows| == |InMemory(h).records|
    ensures LatestAnswer(OnDisk(h), deviceId) == Log.LatestByDevice(InMemory(h), deviceId)
    ensures TransactionAnswer(OnDisk(h), txHash) == Log.FindByTransaction(InMemory(h), txHash)
    ensures BatchAnswer(OnDisk(h), batchCode) == Log.FindByBatch(InMemory(h), batchCode)
  {
    hide OnDisk, InMemory, SavedPackets, Log.Select, NoNul, LatestAnswer, TransactionAnswer, BatchAnswer,
         ComesFrom, Log.TxExact, Log.FindByTransaction, WellFormed, OrderlyAttachments;
    var l, t := InMemory(h), OnDisk(h);
    HistoryMirrors(h);
    TableIsWellFormed(h);
    RecordsAreClean(l, SavedPackets(h));
    GroupInTimeOrder(l, SavedPackets(h), Log.ByBatch, batchCode);
    GroupInTimeOrder(l, SavedPackets(h), Log.ByDevice, deviceId);
    BatchAgreesIff(t, l, batchCode);
    LatestAgreesIff(t, l, deviceId);
    TransactionAgrees(t, l, txHash);
  }

  /** ... and so does every call along it. */
  lemma RepliesAgree(h: History, call: Call)
    requires |h| + 1 < TWO_TO_THE_63 - 1 && Orderly(h + [call])
    ensures TableStep(OnDisk(h), call).1 == LogStep(InMemory(h), call).1
  {
    hide OnDisk, InMemory, ComesFrom, LogStep, TableStep, Mirrors, Log.TxExact, OrderlyCall;
    var longer: History := h + [call];
    assert longer[..|longer| - 1] == h;
    OrderlyPrefix(longer);
    HistoryMirrors(h);
    SavedAtMostCalls(h);
    NextIdOf(InMemory(h), SavedPackets(h));
    StepAgrees(InMemory(h), OnDisk(h), SavedPackets(h), call);
  }

  /**
    An attachment behind an orderly history keeps both stores answering alike, in its reply and to
    every transaction query, exactly when it is orderly itself.
   */
  lemma AttachmentAgreesIff(h: History, id: u64, receipt: BlockchainReceipt)
    requires Orderly(h) && CleanReceipt(receipt) && |h| + 1 < TWO_TO_THE_63 - 1
    ensures var longer: History := h + [Attach(id, receipt)];
            && PositiveIds(OnDisk(longer).rows)
            && ((&& TableStep(OnDisk(h), Attach(id, receipt)).1 == LogStep(InMemory(h), Attach(id, receipt)).1
                 && forall txHash :: NoNul(txHash) ==>
                      TransactionAnswer(OnDisk(longer), txHash) == Log.FindByTransaction(InMemory(longer), txHash))
                <==> OrderlyCall(InMemory(h), Attach(id, receipt)))
  {
    hide ComesFrom, Mirrors, Log.TxExact, OrderlyAttachments, OrderlySaves, NoNul, WellFormed, Log.FindByTransaction,
         TransactionAnswer, CleanReceipt, LogStep, TableStep, OnDisk, InMemory, SavedPackets;
    var call, longer: History := Attach(id, receipt), h + [Attach(id, receipt)];
    assert longer[..|longer| - 1] == h && longer[|longer| - 1] == call;
    TableIsWellFormed(longer);
    WellFormedIsPositive(OnDisk(longer));
    if OrderlyCall(InMemory(h), call) {
      AppendedIsOrderly(h, call);
      RepliesAgree(h, call);
      EmptyHasNoNul();
      forall txHash | NoNul(txHash)
        ensures TransactionAnswer(OnDisk(longer), txHash) == Log.FindByTransaction(InMemory(longer), txHash)
      {
        RepositoriesAgree(longer, "", txHash, "");
      }
    } else {
      StaleAttachmentSplits(h, id, receipt);
    }
  }

  lemma LastStep(h: History, call: Call)
    requires |h| + 1 < TWO_TO_THE_63 - 1
    ensures InMemory(h + [call]) == LogStep(InMemory(h), call).0 && OnDisk(h + [call]) == TableStep(OnDisk(h), call).0
  {
    hide LogStep, TableStep;
    var longer: History := h + [call];
    assert longer[..|longer| - 1] == h;
  }

  lemma AttachedIsClean(l: Log.Log, id: nat, receipt: BlockchainReceipt)
    requires AllClean(l.records) && CleanReceipt(receipt)
    ensures AllClean(Log.Attach(l, id, receipt).records)
  {
    hide CleanPacket, CleanReceipt;
  }

  lemma WellFormedIsPositive(t: Table)
    requires WellFormed(t)
    ensures PositiveIds(t.rows)
  {
  }

  lemma AppendedIsOrderly(h: History, call: Call)
    requires Orderly(h) && !call.Save? && OrderlyCall(InMemory(h), call) && |h| + 1 < TWO_TO_THE_63 - 1
    ensures Orderly(h + [call])
  {
    hide OrderlyCall, OrderlySaves, InMemory;
    var longer: History := h + [call];
    assert longer[..|longer| - 1] == h;
    assert SavedPackets(h) + [] == SavedPackets(h);
  }

  /** Another holder makes one store throw; an earlier hash of the record is still found in memory only. */
  lemma StaleAttachmentSplits(h: History, id: u64, receipt: BlockchainReceipt)
    requires Orderly(h) && CleanReceipt(receipt) && |h| + 1 < TWO_TO_THE_63 - 1
    requires Log.Has(InMemory(h), id) && !Log.FreshReceipt(InMemory(h), id, receipt.txHash)
    ensures var longer: History := h + [Attach(id, receipt)];
            && PositiveIds(OnDisk(longer).rows)
            && (|| TableStep(OnDisk(h), Attach(id, receipt)).1 != LogStep(InMemory(h), Attach(id, receipt)).1
                || exists txHash :: NoNul(txHash)
                     && TransactionAnswer(OnDisk(longer), txHash) != Log.FindByTransaction(InMemory(longer), txHash))
  {
    hide ComesFrom, Mirrors, OrderlySaves, NoNul, WellFormed, Log.TxExact, Log.Attach, Update,
         TransactionAnswer, OnDisk, InMemory, SavedPackets, Log.Position, Log.WellFormed, Log.Indexed;
    var call, longer: History := Attach(id, receipt), h + [Attach(id, receipt)];
    assert longer[..|longer| - 1] == h && longer[|longer| - 1] == call;
    var l, t, k := InMemory(h), OnDisk(h), Log.Position(InMemory(h).records, id).value;
    HistoryMirrors(h);
    TableIsWellFormed(longer);
    WellFormedIsPositive(OnDisk(longer));
    RecordsAreClean(l, SavedPackets(h));
    AttachMirrors(t, l, id, receipt);
    if Update(t, id, receipt).1 != SqlError {
      assert l.records[k].receipt.Some? && !Log.HoldsTx(l.records[k], receipt.txHash);
      var after := Log.Attach(l, id, receipt);
      LastStep(h, call);
      assert after == InMemory(longer) && Update(t, id, receipt).0 == OnDisk(longer);
      var txHash := l.records[k].receipt.value.txHash;
      assert Clean(l.records[k]) && NoNul(txHash);
      Log.AttachEffect(l, id, receipt, k);
      Log.OperationsKeepWellFormed(l, l.records[k].packet, id, receipt);
      Log.OverwrittenHashIsStale(l, id, receipt, k);
      AttachedIsClean(l, id, receipt);
      TransactionAgreesIff(OnDisk(longer), after, txHash);
    }
  }

  lemma TwoSaves(p: TelemetryPacket, q: TelemetryPacket)
    requires CleanPacket(p) && CleanPacket(q)
    ensures var h: History := [Save(p), Save(q)];
            && Mirrors(OnDisk(h), InMemory(h)) && Log.WellFormed(InMemory(h))
            && InMemory(h).records == [TelemetryRecord(1, p, None), TelemetryRecord(2, q, None)]
            && AllClean(InMemory(h).records)
  {
    hide CText, CleanPacket;
    var h0: History, h1: History, h: History := [], [Save(p)], [Save(p), Save(q)];
    assert h[..1] == h1 && h1[..0] == h0;
    assert InMemory(h0) == Log.EMPTY && OnDisk(h0) == EMPTY_TABLE;
    SaveMirrors(EMPTY_TABLE, Log.EMPTY, p);
    assert InMemory(h1) == Log.Save(Log.EMPTY, p) && OnDisk(h1) == Insert(EMPTY_TABLE, p);
    SaveMirrors(OnDisk(h1), InMemory(h1), q);
  }

  /** Out of time order the two stores answer differently: the later save against the later time. */
  lemma TimeGoingBackSplitsTheStores(p: TelemetryPacket, q: TelemetryPacket)
    requires p.deviceId == q.deviceId && CleanPacket(p) && CleanPacket(q)
    requires q.timestamp < p.timestamp < TWO_TO_THE_63
    ensures var h: History := [Save(p), Save(q)];
            PositiveIds(OnDisk(h).rows)
            && LatestAnswer(OnDisk(h), p.deviceId) != Log.LatestByDevice(InMemory(h), p.deviceId)
  {
    hide CText, NoNul, LatestAnswer, OnDisk, InMemory, Mirrors, Log.Select, Log.LatestByDevice;
    var h: History := [Save(p), Save(q)];
    var a, b := TelemetryRecord(1, p, None), TelemetryRecord(2, q, None);
    TwoSaves(p, q);
    LatestAgreesIff(OnDisk(h), InMemory(h), p.deviceId);
    Log.SelectAppend([a], [b], Log.ByDevice, p.deviceId);
    Log.SelectOne(a, Log.ByDevice, p.deviceId);
    Log.SelectOne(b, Log.ByDevice, p.deviceId);
    assert [a] + [b] == [a, b];
    var rs := Log.Select(InMemory(h).records, Log.ByDevice, p.deviceId);
    assert rs == [a, b] && rs[0].packet == p && rs[1].packet == q;
    assert !LastIsLatest(rs);
  }
}
