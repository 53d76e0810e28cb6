/**
  Concurrent ingest calls over the in-memory repository, with ingest its only writer. Locks cover
  single repository operations and the counters, so calls interleave between those steps: each
  call is a process whose state says which step comes next, and one action runs one step.
*/
module IngestProtocol {
  import opened Domain
  import Log = TelemetryLog
  import Rules = IngestRules

  /** Where a call stands; ticket is the number of submissions that came before its own. */
  datatype Call =
    | Checking(packet: TelemetryPacket)
    | Refused(packet: TelemetryPacket)
    | Saving(packet: TelemetryPacket)
    | Saved(packet: TelemetryPacket, id: nat)
    | Submitted(packet: TelemetryPacket, id: nat, receipt: BlockchainReceipt, ticket: nat)
    | Attached(packet: TelemetryPacket, id: nat, receipt: BlockchainReceipt, ticket: nat)
    | GivenUp(packet: TelemetryPacket, id: nat)
    | RolledBack(packet: TelemetryPacket)
    | Accepted(packet: TelemetryPacket, id: nat, receipt: BlockchainReceipt, ticket: nat)
    | Rejected(packet: TelemetryPacket)

  /** The record a call keeps in the repository: between its save and its rollback, or for good. */
  function Held(c: Call): Option<TelemetryRecord> {
    match c
    case Saved(packet, id) => Some(TelemetryRecord(id, packet, None))
    case Submitted(packet, id, _, _) => Some(TelemetryRecord(id, packet, None))
    case GivenUp(packet, id) => Some(TelemetryRecord(id, packet, None))
    case Attached(packet, id, receipt, _) => Some(TelemetryRecord(id, packet, Some(receipt)))
    case Accepted(packet, id, receipt, _) => Some(TelemetryRecord(id, packet, Some(receipt)))
    case _ => None
  }

  /** The kinds of calls that are counted. */
  datatype Role = Holding | InFlight | IsAccepted | IsRejected

  predicate Plays(role: Role, c: Call) {
    match role
    case Holding => Held(c).Some?
    case InFlight => !c.Accepted? && !c.Rejected?
    case IsAccepted => c.Accepted?
    case IsRejected => c.Rejected?
  }

  function Those(role: Role, calls: map<nat, Call>): set<nat> {
    set k | k in calls && Plays(role, calls[k])
  }

  datatype Counters = Counters(total: nat, accepted: nat, rejected: nat, totalMs: u64)

  /** A snapshot, with the number of calls in flight when it read the repository size. */
  datatype Observation = Observation(snapshot: MetricsSnapshot, inFlight: nat)

  datatype State = State(
    store: Log.Log,
    calls: map<nat, Call>,
    counters: Counters,
    reading: Option<Counters>,     // a snapshot that holds the metrics lock
    submissions: nat,
    recorded: seq<u64>,            // every processing time recorded so far
    observations: seq<Observation>)

  const INITIAL := State(Log.EMPTY, map[], Counters(0, 0, 0, 0), None, 0, [], [])

  datatype Action =
    | Begin(k: nat, packet: TelemetryPacket)
    | Guard(k: nat)
    | Save(k: nat)
    | SubmitOk(k: nat, receipt: BlockchainReceipt)
    | SubmitFail(k: nat)
    | Attach(k: nat)
    | Rollback(k: nat)
    | Record(k: nat, processingMs: u64)
    | SnapshotBegin
    | SnapshotEnd

  predicate Enabled(s: State, a: Action) {
    match a
    case Begin(k, _) => k !in s.calls
    case Guard(k) => k in s.calls && s.calls[k].Checking?
    case Save(k) => k in s.calls && s.calls[k].Saving?
    case SubmitOk(k, _) => k in s.calls && s.calls[k].Saved?
    case SubmitFail(k) => k in s.calls && s.calls[k].Saved?
    case Attach(k) => k in s.calls && s.calls[k].Submitted?
    case Rollback(k) => k in s.calls && s.calls[k].GivenUp?
    case Record(k, _) =>
      k in s.calls && (s.calls[k].Attached? || s.calls[k].RolledBack? || s.calls[k].Refused?) && s.reading.None?
    case SnapshotBegin => s.reading.None?
    case SnapshotEnd => s.reading.Some?
  }

  function Count(c: Counters, accepted: bool, ms: u64): Counters {
    Counters(c.total + 1, c.accepted + (if accepted then 1 else 0), c.rejected + (if accepted then 0 else 1),
             (c.totalMs + ms) % TWO_TO_THE_64)
  }

  function Snapshot(c: Counters, size: nat): MetricsSnapshot {
    MetricsSnapshot(c.total, c.accepted, c.rejected, if c.total == 0 then 0 else c.totalMs / c.total, size)
  }

  function Next(s: State, a: Action, crypto: Rules.Crypto): State
    requires Enabled(s, a)
  {
    match a
    case Begin(k, packet) => s.(calls := s.calls[k := Checking(packet)])
    case Guard(k) =>
      var packet := s.calls[k].packet;
      s.(calls := s.calls[k := if Rules.Objection(packet, crypto).Some? then Refused(packet) else Saving(packet)])
    case Save(k) =>
      var packet := s.calls[k].packet;
      s.(store := Log.Save(s.store, packet), calls := s.calls[k := Saved(packet, s.store.nextId)])
    case SubmitOk(k, receipt) =>
      var c := s.calls[k];
      s.(calls := s.calls[k := Submitted(c.packet, c.id, receipt, s.submissions)], submissions := s.submissions + 1)
    case SubmitFail(k) => s.(calls := s.calls[k := GivenUp(s.calls[k].packet, s.calls[k].id)])
    case Attach(k) =>
      var c := s.calls[k];
      s.(store := Log.Attach(s.store, c.id, c.receipt),
         calls := s.calls[k := if Log.Has(s.store, c.id) then Attached(c.packet, c.id, c.receipt, c.ticket)
                               else GivenUp(c.packet, c.id)])
    case Rollback(k) =>
      s.(store := Log.Delete(s.store, s.calls[k].id), calls := s.calls[k := RolledBack(s.calls[k].packet)])
    case Record(k, ms) =>
      var c := s.calls[k];
      var finished := if c.Attached? then Accepted(c.packet, c.id, c.receipt, c.ticket) else Rejected(c.packet);
      s.(counters := Count(s.counters, c.Attached?, ms), calls := s.calls[k := finished], recorded := s.recorded + [ms])
    case SnapshotBegin => s.(reading := Some(s.counters))
    case SnapshotEnd =>
      var observation := Observation(Snapshot(s.reading.value, |s.store.records|), |Those(InFlight, s.calls)|);
      s.(reading := None, observations := s.observations + [observation])
  }

  /** The state an interleaving leads to; actions that cannot run make it none. */
  function Reach(actions: seq<Action>, crypto: Rules.Crypto): Option<State> {
    if actions == [] then Some(INITIAL) else
    var before := Reach(actions[..|actions| - 1], crypto);
    var a := actions[|actions| - 1];
    if before.Some? && Enabled(before.value, a) then Some(Next(before.value, a, crypto)) else None
  }

  // ---------- The invariant ----------

  ghost predicate HeldBySome(calls: map<nat, Call>, r: TelemetryRecord) {
    exists k :: k in calls && Held(calls[k]) == Some(r)
  }

  /** The stored records are exactly the ones calls hold, and no two calls hold the same id. */
  ghost predicate StoreIsHeld(store: Log.Log, calls: map<nat, Call>) {
    && Log.WellFormed(store)
    && (forall r :: r in store.records <==> HeldBySome(calls, r))
    && forall j, k :: j in calls && k in calls && j != k && Held(calls[j]).Some? && Held(calls[k]).Some? ==>
         Held(calls[j]).value.recordId != Held(calls[k]).value.recordId
  }

  function Sum(times: seq<u64>): nat {
    if times == [] then 0 else Sum(times[..|times| - 1]) + times[|times| - 1]
  }

  ghost predicate CountersFit(s: State) {
    && s.counters.total == s.counters.accepted + s.counters.rejected == |s.recorded|
    && s.counters.accepted == |Those(IsAccepted, s.calls)|
    && s.counters.rejected == |Those(IsRejected, s.calls)|
    && |s.store.records| == |Those(Holding, s.calls)|
    && s.counters.totalMs == Sum(s.recorded) % TWO_TO_THE_64
    && (s.reading.Some? ==> s.reading.value == s.counters)
  }

  ghost predicate Bounded(o: Observation) {
    && o.snapshot.totalRequests == o.snapshot.acceptedRequests + o.snapshot.rejectedRequests
    && o.snapshot.acceptedRequests <= o.snapshot.repositorySize <= o.snapshot.acceptedRequests + o.inFlight
  }

  ghost predicate Inv(s: State) {
    StoreIsHeld(s.store, s.calls) && CountersFit(s) && forall o :: o in s.observations ==> Bounded(o)
  }

  // ---------- Steps of one call ----------

  /** A call that moves on without changing what it holds leaves the store explained. */
  lemma SameHolding(store: Log.Log, calls: map<nat, Call>, k: nat, c: Call)
    requires StoreIsHeld(store, calls)
    requires Held(c) == if k in calls then Held(calls[k]) else None
    ensures StoreIsHeld(store, calls[k := c])
  {
    hide Held, Log.WellFormed;
    forall r ensures HeldBySome(calls, r) <==> HeldBySome(calls[k := c], r) {
      if HeldBySome(calls, r) {
        var j :| j in calls && Held(calls[j]) == Some(r);
        assert Held(calls[k := c][j]) == Some(r);
      }
    }
  }

  /** Replacing what one call holds replaces one explained record by another. */
  lemma ReplacedHolding(calls: map<nat, Call>, k: nat, c: Call, r: TelemetryRecord)
    requires forall i, j :: i in calls && j in calls && i != j && Held(calls[i]).Some? && Held(calls[j]).Some? ==>
               Held(calls[i]).value.recordId != Held(calls[j]).value.recordId
    ensures HeldBySome(calls[k := c], r) <==>
            Held(c) == Some(r) || (HeldBySome(calls, r) && (k in calls ==> Held(calls[k]) != Some(r)))
  {
    hide Held;
    var after := calls[k := c];
    assert k in after && after[k] == c;
    if HeldBySome(calls, r) {
      var j :| j in calls && Held(calls[j]) == Some(r);
      assert j != k ==> j in after && after[j] == calls[j];
    }
    if HeldBySome(after, r) {
      var j :| j in after && Held(after[j]) == Some(r);
      assert j != k ==> j in calls && after[j] == calls[j];
    }
  }

  lemma SaveHolds(store: Log.Log, calls: map<nat, Call>, k: nat, packet: TelemetryPacket)
    requires StoreIsHeld(store, calls) && (k in calls ==> Held(calls[k]).None?)
    ensures StoreIsHeld(Log.Save(store, packet), calls[k := Saved(packet, store.nextId)])
  {
    var after, c := Log.Save(store, packet), Saved(packet, store.nextId);
    forall r ensures r in after.records <==> HeldBySome(calls[k := c], r) {
      ReplacedHolding(calls, k, c, r);
    }
    forall j | j in calls && Held(calls[j]).Some? ensures Held(calls[j]).value.recordId < store.nextId {
      assert HeldBySome(calls, Held(calls[j]).value);
    }
  }

  /** A held record is found under its id. */
  lemma HeldIsFound(store: Log.Log, calls: map<nat, Call>, k: nat)
    requires StoreIsHeld(store, calls) && k in calls && Held(calls[k]).Some?
    ensures Log.Has(store, Held(calls[k]).value.recordId)
    ensures Log.FindById(store.records, Held(calls[k]).value.recordId) == Held(calls[k])
  {
    hide Held;
    var r := Held(calls[k]).value;
    assert HeldBySome(calls, r);
    var i :| 0 <= i < |store.records| && store.records[i] == r;
    Log.PositionUnique(store.records, i);
  }

  lemma AttachMembers(l: Log.Log, id: nat, receipt: BlockchainReceipt, r0: TelemetryRecord, r: TelemetryRecord)
    requires Log.WellFormed(l) && Log.FindById(l.records, id) == Some(r0)
    ensures r in Log.Attach(l, id, receipt).records <==>
            r == r0.(receipt := Some(receipt)) || (r in l.records && r != r0)
  {
    var k, after := Log.Position(l.records, id).value, Log.Attach(l, id, receipt).records;
    assert after[k] == r0.(receipt := Some(receipt));
    if r in l.records && r != r0 {
      var i :| 0 <= i < |l.records| && l.records[i] == r;
      assert after[i] == r;
    }
    if r in after {
      var i :| 0 <= i < |after| && after[i] == r;
      assert i != k ==> l.records[i] == r && r.recordId != r0.recordId;
    }
  }

  lemma DeleteMembers(l: Log.Log, id: nat, r0: TelemetryRecord, r: TelemetryRecord)
    requires Log.WellFormed(l) && Log.FindById(l.records, id) == Some(r0)
    ensures r in Log.Delete(l, id).records <==> r in l.records && r != r0
    ensures |Log.Delete(l, id).records| == |l.records| - 1
  {
    var k, after := Log.Position(l.records, id).value, Log.Delete(l, id).records;
    if r in l.records && r != r0 {
      var i :| 0 <= i < |l.records| && l.records[i] == r;
      assert after[if i < k then i else i - 1] == r;
    }
    if r in after {
      var i :| 0 <= i < |after| && after[i] == r;
      assert l.records[Log.Old(i, k)] == r && r.recordId != r0.recordId;
    }
  }

  lemma AttachHolds(store: Log.Log, calls: map<nat, Call>, k: nat)
    requires StoreIsHeld(store, calls) && k in calls && calls[k].Submitted?
    ensures var c := calls[k];
            Log.Has(store, c.id)
            && StoreIsHeld(Log.Attach(store, c.id, c.receipt), calls[k := Attached(c.packet, c.id, c.receipt, c.ticket)])
  {
    hide Log.Attach;
    var c := calls[k];
    var after, c' := Log.Attach(store, c.id, c.receipt), Attached(c.packet, c.id, c.receipt, c.ticket);
    HeldIsFound(store, calls, k);
    Log.OperationsKeepWellFormed(store, c.packet, c.id, c.receipt);
    forall r ensures r in after.records <==> HeldBySome(calls[k := c'], r) {
      AttachMembers(store, c.id, c.receipt, Held(c).value, r);
      ReplacedHolding(calls, k, c', r);
    }
  }

  lemma RollbackHolds(store: Log.Log, calls: map<nat, Call>, k: nat)
    requires StoreIsHeld(store, calls) && k in calls && calls[k].GivenUp?
    ensures Log.Has(store, calls[k].id)
    ensures StoreIsHeld(Log.Delete(store, calls[k].id), calls[k := RolledBack(calls[k].packet)])
    ensures |Log.Delete(store, calls[k].id).records| == |store.records| - 1
  {
    hide Log.Delete;
    var c := calls[k];
    var after, c' := Log.Delete(store, c.id), RolledBack(c.packet);
    HeldIsFound(store, calls, k);
    Log.OperationsKeepWellFormed(store, c.packet, c.id, BlockchainReceipt("", 0, ""));
    DeleteMembers(store, c.id, Held(c).value, Held(c).value);
    forall r ensures r in after.records <==> HeldBySome(calls[k := c'], r) {
      DeleteMembers(store, c.id, Held(c).value, r);
      ReplacedHolding(calls, k, c', r);
    }
  }

  // ---------- Every action keeps the invariant ----------

  lemma ThoseAfter(role: Role, calls: map<nat, Call>, k: nat, c: Call)
    ensures |Those(role, calls[k := c])| ==
            |Those(role, calls)| - (if k in calls && Plays(role, calls[k]) then 1 else 0) + (if Plays(role, c) then 1 else 0)
  {
    hide Plays;
    var after, before := Those(role, calls[k := c]), Those(role, calls);
    if Plays(role, c) {
      assert after == (before - {k}) + {k};
    } else {
      assert after == before - {k};
    }
  }

  /** The sizes of all groups of calls after one call has moved. */
  lemma AllThoseAfter(calls: map<nat, Call>, k: nat, c: Call)
    ensures forall role ::
              (|Those(role, calls[k := c])| ==
               |Those(role, calls)| - (if k in calls && Plays(role, calls[k]) then 1 else 0)
               + (if Plays(role, c) then 1 else 0))
  {
    forall role { ThoseAfter(role, calls, k, c); }
  }

  lemma HoldersAreAcceptedOrInFlight(calls: map<nat, Call>)
    ensures |Those(IsAccepted, calls)| <= |Those(Holding, calls)| <= |Those(IsAccepted, calls)| + |Those(InFlight, calls)|
  {
    var accepted, holding, flying := Those(IsAccepted, calls), Those(Holding, calls), Those(InFlight, calls);
    assert accepted <= holding <= accepted + flying;
    SubsetSize(accepted, holding);
    SubsetSize(holding, accepted + flying);
  }

  lemma {:induction false} SubsetSize(a: set<nat>, b: set<nat>)
    requires a <= b
    ensures |a| <= |b|
  {
    if a == {} {
    } else {
      var x :| x in a;
      SubsetSize(a - {x}, b - {x});
    }
  }

  /** A call moves to a state in which it holds the same and is counted the same. */
  lemma QuietMove(s: State, k: nat, c: Call, submissions: nat)
    requires Inv(s) && Held(c) == (if k in s.calls then Held(s.calls[k]) else None)
    requires !c.Accepted? && !c.Rejected?
    requires k in s.calls ==> !s.calls[k].Accepted? && !s.calls[k].Rejected?
    ensures Inv(s.(calls := s.calls[k := c], submissions := submissions))
  {
    hide Held, StoreIsHeld;
    SameHolding(s.store, s.calls, k, c);
    AllThoseAfter(s.calls, k, c);
  }

  lemma RecordKeepsInv(s: State, a: Action, crypto: Rules.Crypto)
    requires a.Record? && Enabled(s, a) && Inv(s)
    ensures Inv(Next(s, a, crypto))
  {
    hide StoreIsHeld;
    var c, after := s.calls[a.k], Next(s, a, crypto);
    SameHolding(s.store, s.calls, a.k, after.calls[a.k]);
    AllThoseAfter(s.calls, a.k, after.calls[a.k]);
    assert after.recorded[..|s.recorded|] == s.recorded;
    WrappedSum(s.counters.totalMs, Sum(s.recorded), a.processingMs);
  }

  lemma WrappedSum(wrapped: u64, sum: nat, ms: u64)
    requires wrapped == sum % TWO_TO_THE_64
    ensures (wrapped + ms) % TWO_TO_THE_64 == (sum + ms) % TWO_TO_THE_64
  {
  }

  lemma StoreStepKeepsInv(s: State, a: Action, crypto: Rules.Crypto)
    requires (a.Save? || a.Attach? || a.Rollback?) && Enabled(s, a) && Inv(s)
    ensures Inv(Next(s, a, crypto))
  {
    hide StoreIsHeld;
    var c, after := s.calls[a.k], Next(s, a, crypto);
    AllThoseAfter(s.calls, a.k, after.calls[a.k]);
    match a {
      case Save(k) => SaveHolds(s.store, s.calls, k, c.packet);
      case Attach(k) => AttachHolds(s.store, s.calls, k);
      case Rollback(k) => RollbackHolds(s.store, s.calls, k);
    }
  }

  lemma SnapshotKeepsInv(s: State, a: Action, crypto: Rules.Crypto)
    requires (a.SnapshotBegin? || a.SnapshotEnd?) && Enabled(s, a) && Inv(s)
    ensures Inv(Next(s, a, crypto))
  {
    hide StoreIsHeld;
    HoldersAreAcceptedOrInFlight(s.calls);
  }

  /** Every step of every call, and every snapshot, keeps the invariant. */
  lemma NextKeepsInv(s: State, a: Action, crypto: Rules.Crypto)
    requires Enabled(s, a) && Inv(s)
    ensures Inv(Next(s, a, crypto))
  {
    hide Inv;
    match a {
      case Begin(k, packet) => QuietMove(s, k, Checking(packet), s.submissions);
      case Guard(k) => QuietMove(s, k, Next(s, a, crypto).calls[k], s.submissions);
      case SubmitOk(k, receipt) => QuietMove(s, k, Next(s, a, crypto).calls[k], s.submissions + 1);
      case SubmitFail(k) => QuietMove(s, k, Next(s, a, crypto).calls[k], s.submissions);
      case Save(_) => StoreStepKeepsInv(s, a, crypto);
      case Attach(_) => StoreStepKeepsInv(s, a, crypto);
      case Rollback(_) => StoreStepKeepsInv(s, a, crypto);
      case Record(_, _) => RecordKeepsInv(s, a, crypto);
      case SnapshotBegin => SnapshotKeepsInv(s, a, crypto);
      case SnapshotEnd => SnapshotKeepsInv(s, a, crypto);
    }
  }

  lemma {:induction false} ReachableInv(actions: seq<Action>, crypto: Rules.Crypto)
    requires Reach(actions, crypto).Some?
    ensures Inv(Reach(actions, crypto).value)
  {
    if actions == [] {
    } else {
      var init := actions[..|actions| - 1];
      ReachableInv(init, crypto);
      NextKeepsInv(Reach(init, crypto).value, actions[|actions| - 1], crypto);
    }
  }

  // ---------- What holds after every interleaving ----------

  /** The stored records are exactly those of accepted calls and of calls between save and rollback. */
  lemma StoredExactlyHeld(actions: seq<Action>, crypto: Rules.Crypto, r: TelemetryRecord)
    requires Reach(actions, crypto).Some?
    ensures var s := Reach(actions, crypto).value;
            r in s.store.records <==> exists k :: k in s.calls && Held(s.calls[k]) == Some(r)
  {
    ReachableInv(actions, crypto);
  }

  /** AttachReceipt and the rollback's Delete always find their record, so no attachment is given up. */
  lemma StepsFindTheirRecord(actions: seq<Action>, crypto: Rules.Crypto, k: nat)
    requires Reach(actions, crypto).Some? && k in Reach(actions, crypto).value.calls
    ensures var s := Reach(actions, crypto).value;
            && (s.calls[k].GivenUp? ==> Log.Has(s.store, s.calls[k].id))
            && (s.calls[k].Submitted? ==> Log.Has(s.store, s.calls[k].id)
                                          && Next(s, Attach(k), crypto).calls[k].Attached?)
  {
    var s := Reach(actions, crypto).value;
    ReachableInv(actions, crypto);
    if Held(s.calls[k]).Some? {
      HeldIsFound(s.store, s.calls, k);
    }
  }

  /** With no call in flight the repository holds as many records as calls were accepted. */
  lemma QuiescentSize(actions: seq<Action>, crypto: Rules.Crypto)
    requires Reach(actions, crypto).Some?
    requires forall k :: k in Reach(actions, crypto).value.calls ==> !Plays(InFlight, Reach(actions, crypto).value.calls[k])
    ensures |Reach(actions, crypto).value.store.records| == Reach(actions, crypto).value.counters.accepted
  {
    var s := Reach(actions, crypto).value;
    ReachableInv(actions, crypto);
    assert Those(Holding, s.calls) == Those(IsAccepted, s.calls);
  }

  /** Every snapshot adds up, and its size lies between the accepted calls and those plus calls in flight. */
  lemma SnapshotsAreBounded(actions: seq<Action>, crypto: Rules.Crypto, o: Observation)
    requires Reach(actions, crypto).Some? && o in Reach(actions, crypto).value.observations
    ensures o.snapshot.totalRequests == o.snapshot.acceptedRequests + o.snapshot.rejectedRequests
    ensures o.snapshot.acceptedRequests <= o.snapshot.repositorySize <= o.snapshot.acceptedRequests + o.inFlight
  {
    ReachableInv(actions, crypto);
  }

  lemma OneMore(n: nat, x: nat)
    ensures (n + 1) * x == n * x + x
  {
  }

  lemma {:induction false} SumBounds(times: seq<u64>, low: nat, high: nat)
    requires forall i :: 0 <= i < |times| ==> low <= times[i] <= high
    ensures |times| * low <= Sum(times) <= |times| * high
  {
    if times == [] {
    } else {
      var n := |times| - 1;
      SumBounds(times[..n], low, high);
      OneMore(n, low);
      OneMore(n, high);
      assert low <= times[n] <= high;
    }
  }

  lemma QuotientBounds(sum: nat, n: nat, low: nat, high: nat)
    requires n > 0 && n * low <= sum <= n * high
    ensures low <= sum / n <= high
  {
    var q, rest := sum / n, sum % n;
    assert sum == n * q + rest && rest < n;
    assert q < low ==> n * (q + 1) <= n * low;
    assert q > high ==> n * (high + 1) <= n * q;
  }

  /** The average the counters give, while the sum of times fits 64 bits. */
  lemma AverageIsBetween(s: State, low: nat, high: nat)
    requires Inv(s) && s.counters.total > 0
    requires Sum(s.recorded) < TWO_TO_THE_64 && forall i :: 0 <= i < |s.recorded| ==> low <= s.recorded[i] <= high
    ensures low <= s.counters.totalMs / s.counters.total <= high
  {
    hide StoreIsHeld, Sum;
    SumBounds(s.recorded, low, high);
    assert s.counters.totalMs == Sum(s.recorded);
    hide Inv, CountersFit;
    QuotientBounds(s.counters.totalMs, s.counters.total, low, high);
  }

  /** A step appends to the recorded times, and a new observation shows the counters as they are. */
  lemma StepObserves(s: State, a: Action, crypto: Rules.Crypto, o: Observation)
    requires Inv(s) && Enabled(s, a) && o in Next(s, a, crypto).observations
    ensures s.recorded <= Next(s, a, crypto).recorded
    ensures o in s.observations || o.snapshot == Snapshot(s.counters, |s.store.records|)
  {
    hide Inv, Log.Save, Log.Attach, Log.Delete, Log.Has, Rules.Objection, Count, Snapshot, Those;
    if s.reading.Some? { ReadingIsCurrent(s); }
  }

  lemma {:induction false} SumOfPrefix(times: seq<u64>, n: nat)
    requires n <= |times|
    ensures Sum(times[..n]) <= Sum(times)
  {
    if n == |times| {
      assert times[..n] == times;
    } else {
      var init := times[..|times| - 1];
      assert init[..n] == times[..n];
      SumOfPrefix(init, n);
    }
  }

  lemma LastAction(actions: seq<Action>, crypto: Rules.Crypto)
    requires actions != [] && Reach(actions, crypto).Some?
    ensures
      var before := Reach(actions[..|actions| - 1], crypto);
      var a := actions[|actions| - 1];
      before.Some? && Enabled(before.value, a) && Reach(actions, crypto).value == Next(before.value, a, crypto)
  {
    hide Enabled, Next;
  }

  /** Every snapshot's average lies between the least and the greatest time recorded, while their sum fits. */
  lemma {:induction false} AveragesAreBetween(actions: seq<Action>, crypto: Rules.Crypto, low: nat, high: nat, o: Observation)
    requires Reach(actions, crypto).Some? && o in Reach(actions, crypto).value.observations
    requires var times := Reach(actions, crypto).value.recorded;
             Sum(times) < TWO_TO_THE_64 && forall i :: 0 <= i < |times| ==> low <= times[i] <= high
    ensures o.snapshot.totalRequests > 0 ==> low <= o.snapshot.averageProcessingMs <= high
  {
    if actions == [] {
    } else {
      hide Inv, Reach, Next, Enabled, Sum;
      var init, a := actions[..|actions| - 1], actions[|actions| - 1];
      LastAction(actions, crypto);
      var before, times := Reach(init, crypto).value, Reach(actions, crypto).value.recorded;
      ReachableInv(init, crypto);
      StepObserves(before, a, crypto, o);
      SumOfPrefix(times, |before.recorded|);
      assert before.recorded == times[..|before.recorded|];
      assert forall i :: 0 <= i < |before.recorded| ==> before.recorded[i] == times[i];
      if o in before.observations {
        AveragesAreBetween(init, crypto, low, high, o);
      } else if before.counters.total > 0 {
        AverageIsBetween(before, low, high);
      }
    }
  }

  /** While a snapshot holds the metrics lock, the counters stay as it read them. */
  lemma ReadingIsCurrent(s: State)
    requires Inv(s) && s.reading.Some?
    ensures s.reading.value == s.counters
  {
  }

  // ---------- One call on its own ----------

  function RunFrom(s: State, actions: seq<Action>, crypto: Rules.Crypto): Option<State>
    decreases |actions|
  {
    if actions == [] then Some(s)
    else if Enabled(s, actions[0]) then RunFrom(Next(s, actions[0], crypto), actions[1..], crypto)
    else None
  }

  /** The actions of a call that nothing interrupts. */
  function Script(k: nat, packet: TelemetryPacket, world: Rules.World, crypto: Rules.Crypto): seq<Action> {
    [Begin(k, packet), Guard(k)]
    + (if Rules.Objection(packet, crypto).Some? then []
       else if world.submission.Submitted? then [Save(k), SubmitOk(k, world.submission.receipt), Attach(k)]
       else [Save(k), SubmitFail(k), Rollback(k)])
    + [Record(k, world.elapsedMs)]
  }

  lemma RunStep(s: State, a: Action, rest: seq<Action>, crypto: Rules.Crypto)
    requires Enabled(s, a)
    ensures RunFrom(s, [a] + rest, crypto) == RunFrom(Next(s, a, crypto), rest, crypto)
  {
    assert ([a] + rest)[1..] == rest;
  }

  /**
    The state behind one sequential call: the store and the answer of the rules, under the next
    ticket if the chain was asked, and one more call counted.
   */
  function AfterCall(s: State, k: nat, packet: TelemetryPacket, world: Rules.World, crypto: Rules.Crypto): State
    requires Log.WellFormed(s.store)
  {
    var (store, result) := Rules.Ingest(s.store, packet, world, crypto);
    Rules.AcceptedIff(s.store, packet, world, crypto);
    s.(store := store,
       calls := s.calls[k := if result.accepted then Accepted(packet, result.recordId, result.receipt.value, s.submissions)
                             else Rejected(packet)],
       counters := Count(s.counters, result.accepted, result.processingMs),
       submissions := s.submissions + (if result.accepted then 1 else 0),
       recorded := s.recorded + [result.processingMs])
  }

  /** From the save on, the steps of one call do what the sequential service does. */
  lemma SavedCallRunsAlone(s: State, k: nat, packet: TelemetryPacket, world: Rules.World, crypto: Rules.Crypto)
    requires Log.WellFormed(s.store) && s.reading.None?
    requires k in s.calls && s.calls[k] == Saving(packet) && Rules.Objection(packet, crypto).None?
    requires world.attachFault.NoFault? && world.deleteFault.NoFault?
    ensures
      var steps := if world.submission.Submitted? then [Save(k), SubmitOk(k, world.submission.receipt), Attach(k)]
                   else [Save(k), SubmitFail(k), Rollback(k)];
      RunFrom(s, steps + [Record(k, world.elapsedMs)], crypto) == Some(AfterCall(s, k, packet, world, crypto))
  {
    hide Rules.Objection, RunFrom, Log.Save, Log.Attach, Log.Delete, Log.WellFormed, Count, Log.Has;
    var record := Record(k, world.elapsedMs);
    var submit := if world.submission.Submitted? then SubmitOk(k, world.submission.receipt) else SubmitFail(k);
    var finish := if world.submission.Submitted? then Attach(k) else Rollback(k);
    var s1 := Next(s, Save(k), crypto);
    var s2 := Next(s1, submit, crypto);
    Rules.SavedIsThere(s.store, packet);
    var s3 := Next(s2, finish, crypto);
    RunStep(s, Save(k), [submit, finish, record], crypto);
    RunStep(s1, submit, [finish, record], crypto);
    RunStep(s2, finish, [record], crypto);
    RunStep(s3, record, [], crypto);
    assert [Save(k)] + [submit, finish, record] == [Save(k), submit, finish] + [record];
    assert [submit] + [finish, record] == [submit, finish, record] && [finish] + [record] == [finish, record];
    assert [record] + [] == [record];
    NothingToRun(Next(s3, record, crypto), crypto);
    assert Next(s3, record, crypto).calls == AfterCall(s, k, packet, world, crypto).calls;
  }

  lemma NothingToRun(s: State, crypto: Rules.Crypto)
    ensures RunFrom(s, [], crypto) == Some(s)
  {
  }

  /** A call that nothing interrupts does to the whole state what the sequential service does, and answers the same. */
  lemma UninterruptedCall(s: State, k: nat, packet: TelemetryPacket, world: Rules.World, crypto: Rules.Crypto)
    requires Log.WellFormed(s.store) && s.reading.None? && k !in s.calls
    requires world.attachFault.NoFault? && world.deleteFault.NoFault?
    ensures RunFrom(s, Script(k, packet, world, crypto), crypto) == Some(AfterCall(s, k, packet, world, crypto))
  {
    hide Rules.Objection, RunFrom, Log.WellFormed, AfterCall;
    var script, record := Script(k, packet, world, crypto), Record(k, world.elapsedMs);
    var s1 := Next(s, Begin(k, packet), crypto);
    var s2 := Next(s1, Guard(k), crypto);
    assert script == [Begin(k, packet)] + ([Guard(k)] + script[2..]);
    RunStep(s, Begin(k, packet), [Guard(k)] + script[2..], crypto);
    RunStep(s1, Guard(k), script[2..], crypto);
    if Rules.Objection(packet, crypto).Some? {
      RefusedCallRunsAlone(s2, k, packet, world, crypto);
      assert script[2..] == [record];
    } else {
      SavedCallRunsAlone(s2, k, packet, world, crypto);
      assert script[2..] == (if world.submission.Submitted? then [Save(k), SubmitOk(k, world.submission.receipt), Attach(k)]
                             else [Save(k), SubmitFail(k), Rollback(k)]) + [record];
    }
    assert s2 == s.(calls := s.calls[k := s2.calls[k]]);
    GuardedAfterCall(s, k, s2.calls[k], packet, world, crypto);
  }

  lemma RefusedCallRunsAlone(s: State, k: nat, packet: TelemetryPacket, world: Rules.World, crypto: Rules.Crypto)
    requires Log.WellFormed(s.store) && s.reading.None?
    requires k in s.calls && s.calls[k] == Refused(packet) && Rules.Objection(packet, crypto).Some?
    ensures RunFrom(s, [Record(k, world.elapsedMs)], crypto) == Some(AfterCall(s, k, packet, world, crypto))
  {
    hide Rules.Objection, RunFrom, Log.WellFormed, Count;
    var record := Record(k, world.elapsedMs);
    assert [record] == [record] + [];
    RunStep(s, record, [], crypto);
    NothingToRun(Next(s, record, crypto), crypto);
  }

  /** How far the call had come before makes no difference to what is behind it. */
  lemma GuardedAfterCall(s: State, k: nat, c: Call, packet: TelemetryPacket, world: Rules.World, crypto: Rules.Crypto)
    requires Log.WellFormed(s.store)
    ensures AfterCall(s.(calls := s.calls[k := c]), k, packet, world, crypto) == AfterCall(s, k, packet, world, crypto)
  {
    hide Log.WellFormed, Rules.Ingest, Count;
  }
}
