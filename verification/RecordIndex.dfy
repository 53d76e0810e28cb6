/** The hash indexes the in-memory repository keeps beside its vector of records. */
module RecordIndex {
  import opened Domain
  import opened TelemetryLog

  function Ids(rs: seq<TelemetryRecord>): (ids: seq<nat>)
    ensures |ids| == |rs| && forall i :: 0 <= i < |ids| ==> ids[i] == rs[i].recordId
  {
    seq(|rs|, i requires 0 <= i < |rs| => rs[i].recordId)
  }

  /** The ids of a group in the order its records were saved. */
  function GroupIds(rs: seq<TelemetryRecord>, kind: Kind, v: string): seq<nat> {
    Ids(Select(rs, kind, v))
  }

  type Index = map<string, seq<nat>>

  function Listed(index: Index, v: string): seq<nat> {
    if v in index then index[v] else []
  }

  /** Every group lists exactly its live ids in record order, and no empty list stays behind. */
  ghost predicate IndexExact(index: Index, rs: seq<TelemetryRecord>, kind: Kind) {
    && (forall v :: Listed(index, v) == GroupIds(rs, kind, v))
    && forall v :: v in index ==> index[v] != []
  }

  function PositionOf(positions: map<nat, nat>, id: nat): Option<nat> {
    if id in positions then Some(positions[id]) else None
  }

  /** positionById holds the place of every id in the vector and of no other id. */
  ghost predicate PositionsExact(positions: map<nat, nat>, rs: seq<TelemetryRecord>) {
    forall id :: PositionOf(positions, id) == Position(rs, id)
  }

  /** The indexes are determined by the records, so equal records mean equal indexes. */
  lemma IndexDetermined(a: Index, b: Index, rs: seq<TelemetryRecord>, kind: Kind)
    requires IndexExact(a, rs, kind) && IndexExact(b, rs, kind)
    ensures a == b
  {
    forall v ensures v in a <==> v in b
    {
      assert Listed(a, v) == Listed(b, v);
    }
    forall v | v in a ensures a[v] == b[v] {
      assert Listed(a, v) == Listed(b, v);
    }
  }

  lemma PositionsDetermined(a: map<nat, nat>, b: map<nat, nat>, rs: seq<TelemetryRecord>)
    requires PositionsExact(a, rs) && PositionsExact(b, rs)
    ensures a == b
  {
    forall id ensures id in a <==> id in b
    {
      assert PositionOf(a, id) == PositionOf(b, id);
    }
    forall id | id in a ensures a[id] == b[id] {
      assert PositionOf(a, id) == PositionOf(b, id);
    }
  }

  // ---------- How positions change ----------

  lemma PositionAppend(rs: seq<TelemetryRecord>, r: TelemetryRecord, id: nat)
    ensures Position(rs + [r], id) == if id == r.recordId then Some(|rs|) else Position(rs, id)
  {
    assert (rs + [r])[..|rs|] == rs;
  }

  lemma PositionKeepsReceipt(rs: seq<TelemetryRecord>, k: nat, receipt: BlockchainReceipt, id: nat)
    requires Increasing(rs) && k < |rs|
    ensures Position(rs[k := rs[k].(receipt := Some(receipt))], id) == Position(rs, id)
  {
    var after := rs[k := rs[k].(receipt := Some(receipt))];
    assert forall i :: 0 <= i < |rs| ==> after[i].recordId == rs[i].recordId;
    if Position(rs, id).Some? {
      PositionUnique(after, Position(rs, id).value);
    }
  }

  /** Records behind the one taken out move down by one place. */
  lemma PositionRemove(rs: seq<TelemetryRecord>, k: nat, id: nat)
    requires Increasing(rs) && k < |rs|
    ensures Position(RemoveAt(rs, k), id) ==
            match Position(rs, id)
            case None => None
            case Some(j) => if j == k then None else Some(if j < k then j else j - 1)
  {
    hide Position, RemoveAt;
    var after := RemoveAt(rs, k);
    RemoveKeepsIncreasing(rs, k);
    if Position(rs, id).None? {
      assert forall i :: 0 <= i < |after| ==> after[i].recordId != id;
    } else {
      var j := Position(rs, id).value;
      if j == k {
        assert forall i :: 0 <= i < |after| ==> after[i].recordId != id;
      } else {
        PositionUnique(after, if j < k then j else j - 1);
      }
    }
  }

  lemma PushedPositions(positions: map<nat, nat>, rs: seq<TelemetryRecord>, r: TelemetryRecord)
    requires PositionsExact(positions, rs)
    ensures PositionsExact(positions[r.recordId := |rs|], rs + [r])
  {
    hide Position;
    forall id ensures PositionOf(positions[r.recordId := |rs|], id) == Position(rs + [r], id) {
      PositionAppend(rs, r, id);
      assert PositionOf(positions, id) == Position(rs, id);
    }
  }

  lemma ReceiptKeepsPositions(positions: map<nat, nat>, rs: seq<TelemetryRecord>, k: nat, receipt: BlockchainReceipt)
    requires PositionsExact(positions, rs) && Increasing(rs) && k < |rs|
    ensures PositionsExact(positions, rs[k := rs[k].(receipt := Some(receipt))])
  {
    hide Position;
    forall id ensures PositionOf(positions, id) == Position(rs[k := rs[k].(receipt := Some(receipt))], id) {
      PositionKeepsReceipt(rs, k, receipt, id);
      assert PositionOf(positions, id) == Position(rs, id);
    }
  }

  // ---------- How groups change ----------

  lemma GroupAppend(rs: seq<TelemetryRecord>, r: TelemetryRecord, kind: Kind, v: string)
    ensures GroupIds(rs + [r], kind, v) ==
            GroupIds(rs, kind, v) + (if Matches(kind, v, r) then [r.recordId] else [])
  {
    assert (rs + [r])[..|rs|] == rs;
  }

  /** std::remove of one id. */
  function Without(ids: seq<nat>, id: nat): seq<nat> {
    if ids == [] then []
    else Without(ids[..|ids| - 1], id) + (if ids[|ids| - 1] == id then [] else [ids[|ids| - 1]])
  }

  lemma {:induction false} WithoutAppend(a: seq<nat>, b: seq<nat>, id: nat)
    ensures Without(a + b, id) == Without(a, id) + Without(b, id)
  {
    if b == [] {
      assert a + b == a;
    } else {
      assert (a + b)[..|a + b| - 1] == a + b[..|b| - 1];
      WithoutAppend(a, b[..|b| - 1], id);
    }
  }

  lemma {:induction false} WithoutAbsent(ids: seq<nat>, id: nat)
    requires id !in ids
    ensures Without(ids, id) == ids
  {
    if ids == [] {
    } else {
      WithoutAbsent(ids[..|ids| - 1], id);
    }
  }

  lemma WithoutLast(a: seq<nat>, id: nat)
    requires id !in a
    ensures Without(a + [id], id) == a
  {
    WithoutAbsent(a, id);
    assert (a + [id])[..|a|] == a;
  }

  lemma WithoutMiddle(a: seq<nat>, own: seq<nat>, b: seq<nat>, id: nat)
    requires id !in a && id !in b && (own == [] || own == [id])
    ensures Without(a + own + b, id) == a + b
  {
    hide Without;
    WithoutAppend(a + own, b, id);
    WithoutAbsent(b, id);
    if own == [] {
      assert a + own == a;
      WithoutAbsent(a, id);
    } else {
      WithoutLast(a, id);
    }
  }

  lemma IdNotInGroup(rs: seq<TelemetryRecord>, kind: Kind, v: string, id: nat)
    requires forall i :: 0 <= i < |rs| ==> rs[i].recordId != id
    ensures id !in GroupIds(rs, kind, v)
  {
    forall r | r in Select(rs, kind, v) ensures r.recordId != id {
      SelectMembers(rs, kind, v, r);
    }
  }

  lemma GroupAround(rs: seq<TelemetryRecord>, k: nat, kind: Kind, v: string)
    requires k < |rs|
    ensures GroupIds(rs, kind, v) ==
            GroupIds(rs[..k], kind, v) + (if Matches(kind, v, rs[k]) then [rs[k].recordId] else [])
            + GroupIds(rs[k + 1..], kind, v)
    ensures GroupIds(RemoveAt(rs, k), kind, v) == GroupIds(rs[..k], kind, v) + GroupIds(rs[k + 1..], kind, v)
  {
    hide Select, Matches;
    SelectAround(rs, k, kind, v);
    SelectAppend(rs[..k], rs[k + 1..], kind, v);
  }

  /** Taking a record out of the vector takes its id, and nothing else, out of every group. */
  lemma GroupRemove(rs: seq<TelemetryRecord>, k: nat, kind: Kind, v: string)
    requires Increasing(rs) && k < |rs|
    ensures GroupIds(RemoveAt(rs, k), kind, v) == Without(GroupIds(rs, kind, v), rs[k].recordId)
  {
    hide GroupIds, RemoveAt, Matches, Without;
    var id := rs[k].recordId;
    GroupAround(rs, k, kind, v);
    IdNotInGroup(rs[..k], kind, v, id);
    IdNotInGroup(rs[k + 1..], kind, v, id);
    var own := if Matches(kind, v, rs[k]) then [id] else [];
    WithoutMiddle(GroupIds(rs[..k], kind, v), own, GroupIds(rs[k + 1..], kind, v), id);
  }

  /** Receipts play no part in grouping. */
  lemma GroupKeepsReceipt(rs: seq<TelemetryRecord>, k: nat, receipt: BlockchainReceipt, kind: Kind, v: string)
    requires k < |rs|
    ensures GroupIds(rs[k := rs[k].(receipt := Some(receipt))], kind, v) == GroupIds(rs, kind, v)
  {
    hide Select;
    var after := rs[k := rs[k].(receipt := Some(receipt))];
    SelectAround(rs, k, kind, v);
    SelectAround(after, k, kind, v);
    assert after[..k] == rs[..k] && after[k + 1..] == rs[k + 1..];
  }

  // ---------- Updates of one index ----------

  /** index[v].push_back(id), which makes the list when there is none. */
  function PushBack(index: Index, v: string, id: nat): Index {
    index[v := Listed(index, v) + [id]]
  }

  /** Removing an id from a list that exists, and the list itself when it becomes empty. */
  function EraseId(index: Index, v: string, id: nat): Index {
    if v !in index then index
    else
      var ids := Without(index[v], id);
      if ids == [] then index - {v} else index[v := ids]
  }

  lemma PushBackExact(index: Index, rs: seq<TelemetryRecord>, kind: Kind, r: TelemetryRecord, v: string)
    requires IndexExact(index, rs, kind)
    requires forall u :: Matches(kind, u, r) <==> u == v
    ensures IndexExact(PushBack(index, v, r.recordId), rs + [r], kind)
  {
    hide GroupIds;
    forall u ensures Listed(PushBack(index, v, r.recordId), u) == GroupIds(rs + [r], kind, u) {
      GroupAppend(rs, r, kind, u);
      assert Listed(index, u) == GroupIds(rs, kind, u);
    }
  }

  lemma UngroupedExact(index: Index, rs: seq<TelemetryRecord>, kind: Kind, r: TelemetryRecord)
    requires IndexExact(index, rs, kind)
    requires forall u :: !Matches(kind, u, r)
    ensures IndexExact(index, rs + [r], kind)
  {
    hide GroupIds;
    forall u ensures Listed(index, u) == GroupIds(rs + [r], kind, u) {
      GroupAppend(rs, r, kind, u);
      assert Listed(index, u) == GroupIds(rs, kind, u);
    }
  }

  lemma EraseIdExact(index: Index, rs: seq<TelemetryRecord>, k: nat, kind: Kind, v: string)
    requires IndexExact(index, rs, kind) && Increasing(rs) && k < |rs|
    requires forall u :: Matches(kind, u, rs[k]) <==> u == v
    ensures IndexExact(EraseId(index, v, rs[k].recordId), RemoveAt(rs, k), kind)
  {
    hide GroupIds, RemoveAt;
    var id := rs[k].recordId;
    forall u ensures Listed(EraseId(index, v, id), u) == GroupIds(RemoveAt(rs, k), kind, u) {
      GroupRemove(rs, k, kind, u);
      assert Listed(index, u) == GroupIds(rs, kind, u);
      if u != v {
        GroupUntouched(rs, k, kind, u);
      }
    }
  }

  lemma UngroupedRemoveExact(index: Index, rs: seq<TelemetryRecord>, k: nat, kind: Kind)
    requires IndexExact(index, rs, kind) && Increasing(rs) && k < |rs|
    requires forall u :: !Matches(kind, u, rs[k])
    ensures IndexExact(index, RemoveAt(rs, k), kind)
  {
    hide GroupIds, RemoveAt;
    forall u ensures Listed(index, u) == GroupIds(RemoveAt(rs, k), kind, u) {
      GroupUntouched(rs, k, kind, u);
      assert Listed(index, u) == GroupIds(rs, kind, u);
    }
  }

  lemma GroupUntouched(rs: seq<TelemetryRecord>, k: nat, kind: Kind, v: string)
    requires k < |rs| && !Matches(kind, v, rs[k])
    ensures GroupIds(RemoveAt(rs, k), kind, v) == GroupIds(rs, kind, v)
  {
    SelectAround(rs, k, kind, v);
    SelectAppend(rs[..k], rs[k + 1..], kind, v);
  }

  lemma ReceiptKeepsIndex(index: Index, rs: seq<TelemetryRecord>, k: nat, receipt: BlockchainReceipt, kind: Kind)
    requires IndexExact(index, rs, kind) && k < |rs|
    ensures IndexExact(index, rs[k := rs[k].(receipt := Some(receipt))], kind)
  {
    hide GroupIds;
    var after := rs[k := rs[k].(receipt := Some(receipt))];
    forall u ensures Listed(index, u) == GroupIds(after, kind, u) {
      GroupKeepsReceipt(rs, k, receipt, kind, u);
      assert Listed(index, u) == GroupIds(rs, kind, u);
    }
  }
}
