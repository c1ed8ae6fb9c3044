/** The wallet reads its own claims and refunds as what they are. */
module SwapClaims {
  import opened Wrappers
  import opened Ledger
  import opened SwapPolicies
  import opened SwapObservers
  import opened SwapMeaning
  import opened Building
  import Selection

  /** The signer satisfies a contract through its own branches: a claim through the hash branch, a refund
      through the height branch. */
  ghost predicate SignsThrough(w: World, x: Crypto) {
    && (forall t, c, s :: w.claimWitness(t, c, s).Some? ==>
          SpendsThrough(x, c, w.claimWitness(t, c, s).value.policy, HashLock(c.secretHash)))
    && (forall t, c :: w.refundWitness(t, c).Some? ==>
          SpendsThrough(x, c, w.refundWitness(t, c).value.policy, Above(c.refundHeight)))
  }

  /** What a request's spend is read as: a claim with its secret, if that opens the contract, or a refund. */
  function ReadingOf(x: Crypto, contract: Contract, request: SpendRequest): (r: Reading) {
    match request
    case ClaimWith(s) => Reading(Claim, if x.sha256(s) == contract.secretHash then Some(s) else None)
    case RefundAfter => Reading(Refund, None)
  }

  lemma OwnSpendIsRead(w: World, x: Crypto, address: Address, contract: Contract, request: SpendRequest,
                       txn: Transaction, parent: Selection.Element)
    requires w.Lawful() && SignsThrough(w, x) && IsContractSpend(w, address, contract, request, txn, parent)
    ensures |txn.inputs| == 1 && Classify(x, contract, txn.inputs[0]) == ReadingOf(x, contract, request)
  {
    var draft := SpendDraft(w, parent, txn.outputs[0], txn.minerFee);
    assert txn.inputs[0].policy == WitnessFor(w, draft, contract, request).value.policy;
    MeaningIsUnique(x, contract, txn.inputs[0], Classify(x, contract, txn.inputs[0]),
                    ReadingOf(x, contract, request));
  }

  /** The record shows the spend of `request` by `txn`. */
  ghost predicate Shows(o: Observed, w: Watch, request: SpendRequest, txn: Transaction, confirmed: bool) {
    var reading := ReadingOf(w.crypto, w.contract, request);
    && o.spent && o.secret == reading.secret && o.spendTxn == Some(txn.id)
    && o.status == match request
                   case ClaimWith(_) => if confirmed then Claimed else Claiming
                   case RefundAfter => if confirmed then Refunded else Refunding
  }

  lemma SpendShows(w: World, watch: Watch, request: SpendRequest, e: Event, parent: Selection.Element, confirmed: bool,
                   o: Observed)
    requires w.Lawful() && SignsThrough(w, watch.crypto) && e.txn.Some?
    requires IsContractSpend(w, watch.address, watch.contract, request, e.txn.value, parent)
    requires |e.txn.value.inputs| == 1 && SpentBy(watch, e, 0, confirmed, o)
    ensures Shows(o, watch, request, e.txn.value, confirmed)
  {
    var input := e.txn.value.inputs[0];
    OwnSpendIsRead(w, watch.crypto, watch.address, watch.contract, request, e.txn.value, parent);
    var reading :| Means(watch.crypto, watch.contract, input, reading) &&
                   o.status == SpendStatus(reading.kind, confirmed) && o.secret == reading.secret;
    MeaningIsUnique(watch.crypto, watch.contract, input, reading, Classify(watch.crypto, watch.contract, input));
  }

  lemma OwnSpendSpends(w: World, watch: Watch, request: SpendRequest, e: Event, parent: Selection.Element)
    requires w.Lawful() && e.txn.Some?
    requires IsContractSpend(w, watch.address, watch.contract, request, e.txn.value, parent)
    ensures |e.txn.value.inputs| == 1 && Spends(watch, e, 0, parent.id)
  {
  }

  /** Once the wallet's own claim or refund is in the history, the replay marks its output claimed with
      that secret, or refunded, whatever the pool holds. */
  lemma OwnSpendIsObserved(w: World, watch: Watch, request: SpendRequest, history: seq<Event>, pool: seq<Event>, i: nat,
                           parent: Selection.Element)
    requires w.Lawful() && SignsThrough(w, watch.crypto) && i < |history| && history[i].txn.Some?
    requires IsContractSpend(w, watch.address, watch.contract, request, history[i].txn.value, parent)
    requires DistinctTransactions(history) && NoDoubleSpend(watch, history)
    requires FundedBeforeSpent(watch, history, parent.id) && DistinctTransactions(pool) && Consistent(watch, pool)
    ensures var o := At(Replay(watch, history, pool), parent.id);
            o.Some? && Shows(o.value, watch, request, history[i].txn.value, true)
  {
    OwnSpendSpends(w, watch, request, history[i], parent);
    ReplayIsDeclared(watch, history, pool, parent.id);
    var o := At(Replay(watch, history, pool), parent.id);
    var k: nat, j: nat :| k < |history| && Spends(watch, history[k], j, parent.id) &&
                          SpentBy(watch, history[k], j, true, o.value);
    SpendShows(w, watch, request, history[i], parent, true, o.value);
  }

  /** While it is in the pool, the output is shown as claiming with that secret, or refunding. */
  lemma OwnPendingSpendIsObserved(w: World, watch: Watch, request: SpendRequest, history: seq<Event>,
                                  pool: seq<Event>, i: nat, parent: Selection.Element)
    requires w.Lawful() && SignsThrough(w, watch.crypto) && i < |pool| && pool[i].txn.Some?
    requires IsContractSpend(w, watch.address, watch.contract, request, pool[i].txn.value, parent)
    requires DistinctTransactions(history) && NoDoubleSpend(watch, history)
    requires !SpentIn(watch, history, parent.id) && DistinctTransactions(pool) && NoDoubleSpend(watch, pool)
    ensures var o := At(Replay(watch, history, pool), parent.id);
            o.Some? && Shows(o.value, watch, request, pool[i].txn.value, false)
  {
    OwnSpendSpends(w, watch, request, pool[i], parent);
    PrefixFacts(watch, history, |history|);
    PrefixFacts(watch, pool, |pool|);
    PoolIsDeclared(watch, history, pool, parent.id);
    var o := At(Replay(watch, history, pool), parent.id);
    var k: nat, j: nat :| k < |pool| && Spends(watch, pool[k], j, parent.id) && !SpentIn(watch, pool[..k], parent.id) &&
                          SpentBy(watch, pool[k], j, false, o.value);
    SpendShows(w, watch, request, pool[i], parent, false, o.value);
  }
}
