/** The ingest protocol with the mock chain client: accepted calls are found by their transaction. */
module Traceability {
  import opened Domain
  import opened IngestProtocol
  import opened MockChain
  import Log = TelemetryLog
  import Rules = IngestRules

  /** The text a submission hashes, given its packet and the number of submissions before it. */
  function SubmittedText(packet: TelemetryPacket, ticket: nat): string {
    Payload(packet.hashHex, packet.deviceId, packet.timestamp, Nonce(ticket))
  }

  /** The receipts of an interleaving are the mock client's; blockHeight and submittedAt may be anything. */
  ghost predicate MockRun(actions: seq<Action>, crypto: Rules.Crypto)
    requires Reach(actions, crypto).Some?
  {
    actions != [] ==>
      var init, a := actions[..|actions| - 1], actions[|actions| - 1];
      var s := Reach(init, crypto).value;
      && MockRun(init, crypto)
      && (a.SubmitOk? ==> a.receipt.txHash == crypto.sha256Hex(SubmittedText(s.calls[a.k].packet, s.submissions)))
  }

  predicate HasReceipt(c: Call) {
    c.Submitted? || c.Attached? || c.Accepted?
  }

  /** The texts hashed for the receipts that calls have. */
  function Texts(calls: map<nat, Call>): set<string> {
    set k | k in calls && HasReceipt(calls[k]) :: SubmittedText(calls[k].packet, calls[k].ticket)
  }

  /** Each receipt is the hash of its own submission, and no two calls have the same ticket. */
  ghost predicate ReceiptsTicketed(s: State, crypto: Rules.Crypto) {
    && (forall k :: k in s.calls && HasReceipt(s.calls[k]) ==>
          && s.calls[k].ticket < s.submissions
          && s.calls[k].receipt.txHash == crypto.sha256Hex(SubmittedText(s.calls[k].packet, s.calls[k].ticket)))
    && forall j, k :: j in s.calls && k in s.calls && j != k && HasReceipt(s.calls[j]) && HasReceipt(s.calls[k]) ==>
         s.calls[j].ticket != s.calls[k].ticket
  }

  /** A step other than a submission hands no call a receipt it did not have. */
  lemma ReceiptsStay(s: State, a: Action, crypto: Rules.Crypto, k: nat)
    requires Enabled(s, a) && !a.SubmitOk?
    requires k in Next(s, a, crypto).calls && HasReceipt(Next(s, a, crypto).calls[k])
    ensures
      var c := Next(s, a, crypto).calls[k];
      k in s.calls && HasReceipt(s.calls[k])
      && s.calls[k].packet == c.packet && s.calls[k].receipt == c.receipt && s.calls[k].ticket == c.ticket
  {
    hide Rules.Objection, Log.Save, Log.Attach, Log.Delete, Log.Has;
  }

  lemma StepKeepsTickets(s: State, a: Action, crypto: Rules.Crypto)
    requires Enabled(s, a) && ReceiptsTicketed(s, crypto)
    requires a.SubmitOk? ==> a.receipt.txHash == crypto.sha256Hex(SubmittedText(s.calls[a.k].packet, s.submissions))
    ensures ReceiptsTicketed(Next(s, a, crypto), crypto)
  {
    hide SubmittedText;
    var after := Next(s, a, crypto);
    if !a.SubmitOk? {
      assert after.submissions == s.submissions;
      hide Next;
      forall k | k in after.calls && HasReceipt(after.calls[k])
        ensures k in s.calls && HasReceipt(s.calls[k]) && s.calls[k].packet == after.calls[k].packet
                && s.calls[k].receipt == after.calls[k].receipt && s.calls[k].ticket == after.calls[k].ticket
      {
        ReceiptsStay(s, a, crypto, k);
      }
    }
  }

  lemma {:induction false} MockReceiptsTicketed(actions: seq<Action>, crypto: Rules.Crypto)
    requires Reach(actions, crypto).Some? && MockRun(actions, crypto)
    ensures ReceiptsTicketed(Reach(actions, crypto).value, crypto)
  {
    hide ReceiptsTicketed, SubmittedText, Next;
    if actions != [] {
      var init := actions[..|actions| - 1];
      MockReceiptsTicketed(init, crypto);
      StepKeepsTickets(Reach(init, crypto).value, actions[|actions| - 1], crypto);
    } else {
      assert ReceiptsTicketed(INITIAL, crypto) by { NoTicketsAtFirst(crypto); }
    }
  }

  lemma NoTicketsAtFirst(crypto: Rules.Crypto)
    ensures ReceiptsTicketed(INITIAL, crypto)
  {
  }

  /** Different calls have different transaction hashes, unless two of the hashed texts collide. */
  lemma HashesDiffer(s: State, crypto: Rules.Crypto, j: nat, k: nat)
    requires ReceiptsTicketed(s, crypto) && s.submissions <= TWO_TO_THE_64
    requires Rules.CollisionFree(crypto.sha256Hex, Texts(s.calls))
    requires j in s.calls && k in s.calls && j != k && HasReceipt(s.calls[j]) && HasReceipt(s.calls[k])
    ensures s.calls[j].receipt.txHash != s.calls[k].receipt.txHash
  {
    var a, b := s.calls[j], s.calls[k];
    if a.receipt.txHash == b.receipt.txHash {
      assert SubmittedText(a.packet, a.ticket) in Texts(s.calls);
      assert SubmittedText(b.packet, b.ticket) in Texts(s.calls);
      PayloadFixesNonce(a.packet.hashHex, a.packet.deviceId, a.packet.timestamp, Nonce(a.ticket),
                        b.packet.hashHex, b.packet.deviceId, b.packet.timestamp, Nonce(b.ticket));
      NoncesDiffer(a.ticket, b.ticket);
      assert false;
    }
  }

  // ---------- The transaction index stays exact ----------

  /** What a call hashed stays among the hashed texts. */
  lemma TextsGrow(s: State, a: Action, crypto: Rules.Crypto)
    requires Enabled(s, a) && Inv(s)
    ensures Texts(s.calls) <= Texts(Next(s, a, crypto).calls)
    ensures s.submissions <= Next(s, a, crypto).submissions
  {
    hide SubmittedText, Rules.Objection, Log.Save, Log.Attach, Log.Delete, CountersFit;
    var after := Next(s, a, crypto).calls;
    forall k | k in s.calls && HasReceipt(s.calls[k])
      ensures k in after && HasReceipt(after[k])
              && after[k].packet == s.calls[k].packet && after[k].ticket == s.calls[k].ticket
    {
      if a.Attach? && a.k == k {
        HeldIsFound(s.store, s.calls, k);
      }
    }
  }

  /** The receipt a call attaches is fresh: no stored record holds its hash. */
  lemma AttachedIsFresh(s: State, crypto: Rules.Crypto, k: nat)
    requires Inv(s) && ReceiptsTicketed(s, crypto) && s.submissions <= TWO_TO_THE_64
    requires Rules.CollisionFree(crypto.sha256Hex, Texts(s.calls))
    requires k in s.calls && s.calls[k].Submitted?
    ensures Log.Has(s.store, s.calls[k].id) && Log.FreshReceipt(s.store, s.calls[k].id, s.calls[k].receipt.txHash)
  {
    hide ReceiptsTicketed, Rules.CollisionFree, CountersFit, Texts;
    var c, rs := s.calls[k], s.store.records;
    HeldIsFound(s.store, s.calls, k);
    var p := Log.Position(rs, c.id).value;
    assert rs[p].receipt == None;
    forall i | 0 <= i < |rs| && i != p ensures !Log.HoldsTx(rs[i], c.receipt.txHash) {
      assert rs[i] in rs;
      var j :| j in s.calls && Held(s.calls[j]) == Some(rs[i]);
      if rs[i].receipt.Some? {
        HashesDiffer(s, crypto, j, k);
      }
    }
  }

  lemma StepKeepsTxExact(s: State, a: Action, crypto: Rules.Crypto)
    requires Enabled(s, a) && Inv(s) && Log.TxExact(s.store)
    requires ReceiptsTicketed(s, crypto) && s.submissions <= TWO_TO_THE_64
    requires Rules.CollisionFree(crypto.sha256Hex, Texts(s.calls))
    ensures Log.TxExact(Next(s, a, crypto).store)
  {
    hide ReceiptsTicketed, Rules.CollisionFree, CountersFit, Texts, Log.TxExact, Log.Save, Log.Attach, Log.Delete,
         Rules.Objection, Snapshot;
    match a {
      case Save(k) => Log.SaveKeepsTxExact(s.store, s.calls[k].packet);
      case Attach(k) =>
        AttachedIsFresh(s, crypto, k);
        Log.FreshAttachKeeps(s.store, s.calls[k].id, s.calls[k].receipt);
      case Rollback(k) => Log.DeleteKeepsTxExact(s.store, s.calls[k].id);
      case _ =>
    }
  }

  lemma {:induction false} MockRunKeepsTxExact(actions: seq<Action>, crypto: Rules.Crypto)
    requires Reach(actions, crypto).Some? && MockRun(actions, crypto)
    requires Reach(actions, crypto).value.submissions <= TWO_TO_THE_64
    requires Rules.CollisionFree(crypto.sha256Hex, Texts(Reach(actions, crypto).value.calls))
    ensures Log.TxExact(Reach(actions, crypto).value.store)
  {
    hide ReceiptsTicketed, Texts, Log.TxExact, Next, Inv;
    if actions == [] {
      EmptyTxExact();
    } else {
      var init, a := actions[..|actions| - 1], actions[|actions| - 1];
      var s := Reach(init, crypto).value;
      ReachableInv(init, crypto);
      TextsGrow(s, a, crypto);
      MockRunKeepsTxExact(init, crypto);
      MockReceiptsTicketed(init, crypto);
      StepKeepsTxExact(s, a, crypto);
    }
  }

  lemma EmptyTxExact()
    ensures Log.TxExact(INITIAL.store)
  {
  }

  /**
    End to end: in every interleaving with the mock client, a transaction of an accepted call is
    found, with the id, the packet and the receipt the call answered.
   */
  lemma AcceptedIsTraceable(actions: seq<Action>, crypto: Rules.Crypto, k: nat)
    requires Reach(actions, crypto).Some? && MockRun(actions, crypto)
    requires Reach(actions, crypto).value.submissions <= TWO_TO_THE_64
    requires Rules.CollisionFree(crypto.sha256Hex, Texts(Reach(actions, crypto).value.calls))
    requires k in Reach(actions, crypto).value.calls && Reach(actions, crypto).value.calls[k].Accepted?
    ensures
      var s := Reach(actions, crypto).value;
      var c := s.calls[k];
      Log.FindByTransaction(s.store, c.receipt.txHash) == Some(TelemetryRecord(c.id, c.packet, Some(c.receipt)))
  {
    hide Reach, MockRun, Texts, Log.TxExact, Log.FindByTransaction, CountersFit;
    var s := Reach(actions, crypto).value;
    MockRunKeepsTxExact(actions, crypto);
    ReachableInv(actions, crypto);
    assert HeldBySome(s.calls, Held(s.calls[k]).value);
    Log.FindByTransactionExact(s.store, s.calls[k].receipt.txHash);
  }
}
