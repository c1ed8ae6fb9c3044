/** The replay means what a reader expects: an output is spent on chain, else spent in the pool, else
    created on chain, else created in the pool. */
module SwapMeaning {
  import opened Wrappers
  import opened Ledger
  import opened SwapPolicies
  import opened SwapObservers

  function At(m: Outputs, id: OutputID): (r: Option<Observed>) {
    if id in m then Some(m[id]) else None
  }

  ghost predicate FundedIn(w: Watch, events: seq<Event>, id: OutputID) {
    exists c :: 0 <= c < |events| && Funds(w, events[c], id)
  }

  ghost predicate SpentIn(w: Watch, events: seq<Event>, id: OutputID) {
    exists i: nat, j: nat :: i < |events| && Spends(w, events[i], j, id)
  }

  /** No two transactions share an ID. */
  ghost predicate DistinctTransactions(events: seq<Event>) {
    forall i, k :: 0 <= i < k < |events| && events[i].txn.Some? && events[k].txn.Some? ==>
      events[i].txn.value.id != events[k].txn.value.id
  }

  /** No two inputs spend the same output. */
  ghost predicate NoDoubleSpend(w: Watch, events: seq<Event>) {
    forall i: nat, j: nat, i': nat, j': nat, id ::
      i < |events| && i' < |events| && Spends(w, events[i], j, id) && Spends(w, events[i'], j', id) ==>
        i == i' && j == j'
  }

  /** No single transaction spends an output twice. */
  ghost predicate Consistent(w: Watch, events: seq<Event>) {
    forall i: nat, j: nat, j': nat, id ::
      i < |events| && Spends(w, events[i], j, id) && Spends(w, events[i], j', id) ==> j == j'
  }

  /** No output is created after it was spent. */
  ghost predicate FundedBeforeSpent(w: Watch, events: seq<Event>, id: OutputID) {
    forall i: nat, j: nat, c: nat :: i < c < |events| && Spends(w, events[i], j, id) ==> !Funds(w, events[c], id)
  }

  /** The record says: spent by input `j` of event `e`, read through the branch it reveals. */
  ghost predicate SpentBy(w: Watch, e: Event, j: nat, confirmed: bool, o: Observed)
    requires e.txn.Some? && j < |e.txn.value.inputs|
  {
    && o.spent && o.spendTxn == Some(e.txn.value.id)
    && o.spendHeight == (if confirmed then Some(e.height) else None)
    && exists reading :: Means(w.crypto, w.contract, e.txn.value.inputs[j], reading) &&
                         o.status == SpendStatus(reading.kind, confirmed) && o.secret == reading.secret
  }

  /** What should be known of an output, said without any replay. */
  ghost predicate Declared(w: Watch, history: seq<Event>, pool: seq<Event>, id: OutputID, o: Option<Observed>) {
    if SpentIn(w, history, id) then
      o.Some? && exists i: nat, j: nat ::
        i < |history| && Spends(w, history[i], j, id) && SpentBy(w, history[i], j, true, o.value)
    else if SpentIn(w, pool, id) then
      o.Some? && exists i: nat, j: nat ::
        && i < |pool| && Spends(w, pool[i], j, id) && !SpentIn(w, pool[..i], id)
        && SpentBy(w, pool[i], j, false, o.value)
    else if FundedIn(w, history, id) then
      exists c: nat :: c < |history| && Funds(w, history[c], id) && o == Some(FundingRecord(w, history[c], id, true))
    else if FundedIn(w, pool, id) then
      exists c: nat :: c < |pool| && Funds(w, pool[c], id) && o == Some(FundingRecord(w, pool[c], id, false))
    else o == None
  }

  // ----- one event, one output -----

  lemma {:induction false} OutputsAt(m: Outputs, w: Watch, e: Event, n: nat, confirmed: bool, id: OutputID)
    requires e.txn.Some? && n <= |e.txn.value.outputs|
    ensures At(ObserveOutputs(m, w, e, n, confirmed), id) ==
            if Funds(w, e, id) && id.index < n && (id !in m || (confirmed && !m[id].confirmed))
            then Some(FundingRecord(w, e, id, confirmed)) else At(m, id)
  {
    if n > 0 {
      OutputsAt(m, w, e, n - 1, confirmed, id);
    }
  }

  /** An output no input of the event spends keeps its record. */
  lemma {:induction false} InputsLeave(m: Outputs, w: Watch, e: Event, n: nat, confirmed: bool, id: OutputID)
    requires e.txn.Some? && n <= |e.txn.value.inputs|
    requires forall j: nat :: j < n ==> !Spends(w, e, j, id)
    ensures At(ObserveInputs(m, w, e, n, confirmed), id) == At(m, id)
  {
    if n > 0 {
      InputsLeave(m, w, e, n - 1, confirmed, id);
      assert !Spends(w, e, n - 1, id);
    }
  }

  lemma {:induction false} InputsSpend(m: Outputs, w: Watch, e: Event, n: nat, confirmed: bool, id: OutputID, j: nat)
    requires e.txn.Some? && j < n <= |e.txn.value.inputs| && Spends(w, e, j, id)
    requires forall k: nat :: k < n && Spends(w, e, k, id) ==> k == j
    ensures var o := At(m, id);
            At(ObserveInputs(m, w, e, n, confirmed), id) ==
            if o.Some? && o.value.spent && !confirmed then o
            else Some(SpentRecord(w, if o.Some? then o.value
              else Blank(e.txn.value.inputs[j].parentValue), e, e.txn.value.inputs[j], confirmed))
  {
    if j == n - 1 {
      InputsLeave(m, w, e, n - 1, confirmed, id);
    } else {
      InputsSpend(m, w, e, n - 1, confirmed, id, j);
      assert !Spends(w, e, n - 1, id);
    }
  }

  /** The record after an event's outputs have been looked at. */
  function AfterFunding(w: Watch, e: Event, o: Option<Observed>, id: OutputID, confirmed: bool): (r: Option<Observed>) {
    if Funds(w, e, id) && (o.None? || (confirmed && !o.value.confirmed)) then Some(FundingRecord(w, e, id, confirmed))
      else o
  }

  lemma EventLeaves(m: Outputs, w: Watch, e: Event, confirmed: bool, id: OutputID)
    requires forall j: nat :: !Spends(w, e, j, id)
    ensures At(ObserveEvent(m, w, e, confirmed), id) == AfterFunding(w, e, At(m, id), id, confirmed)
  {
    if e.txn.Some? {
      OutputsAt(m, w, e, |e.txn.value.outputs|, confirmed, id);
      InputsLeave(ObserveOutputs(m, w, e, |e.txn.value.outputs|, confirmed), w, e, |e.txn.value.inputs|, confirmed, id);
    }
  }

  lemma EventSpends(m: Outputs, w: Watch, e: Event, confirmed: bool, id: OutputID, j: nat)
    requires Spends(w, e, j, id) && forall k: nat :: Spends(w, e, k, id) ==> k == j
    ensures var o := AfterFunding(w, e, At(m, id), id, confirmed);
            At(ObserveEvent(m, w, e, confirmed), id) ==
            if o.Some? && o.value.spent && !confirmed then o
            else Some(SpentRecord(w, if o.Some? then o.value
              else Blank(e.txn.value.inputs[j].parentValue), e, e.txn.value.inputs[j], confirmed))
  {
    OutputsAt(m, w, e, |e.txn.value.outputs|, confirmed, id);
    InputsSpend(ObserveOutputs(m, w, e, |e.txn.value.outputs|, confirmed), w, e, |e.txn.value.inputs|, confirmed, id,
      j);
  }

  // ----- the confirmed history -----

  function Confirmed(w: Watch, history: seq<Event>): (r: Outputs) {
    ReplayFrom(map[], w, history, true)
  }

  /** Without a funding event the record, if any, does not count as funded on chain. */
  lemma {:induction false} UnfundedIsUnconfirmed(w: Watch, history: seq<Event>, id: OutputID)
    requires Consistent(w, history) && !FundedIn(w, history, id)
    ensures var o := At(Confirmed(w, history), id); o.Some? ==> !o.value.confirmed
    ensures !SpentIn(w, history, id) ==> At(Confirmed(w, history), id) == None
    decreases |history|
  {
    if history != [] {
      var n := |history| - 1;
      PrefixFacts(w, history, n);
      UnfundedIsUnconfirmed(w, history[..n], id);
      assert !Funds(w, history[n], id);
      if j: nat :| Spends(w, history[n], j, id) {
        EventSpends(Confirmed(w, history[..n]), w, history[n], true, id, j);
      } else {
        EventLeaves(Confirmed(w, history[..n]), w, history[n], true, id);
      }
    }
  }

  /** What holds of a history holds of its beginnings. */
  lemma PrefixFacts(w: Watch, events: seq<Event>, n: nat)
    requires n <= |events|
    ensures Consistent(w, events) ==> Consistent(w, events[..n])
    ensures NoDoubleSpend(w, events) ==> NoDoubleSpend(w, events[..n]) && Consistent(w, events)
    ensures DistinctTransactions(events) ==> DistinctTransactions(events[..n])
    ensures forall id :: FundedIn(w, events[..n], id) ==> FundedIn(w, events, id)
    ensures forall id :: SpentIn(w, events[..n], id) ==> SpentIn(w, events, id)
    ensures forall k, id :: 0 <= k < n && Funds(w, events[k], id) ==> FundedIn(w, events[..n], id)
    ensures forall k: nat, j: nat, id :: k < n && Spends(w, events[k], j, id) ==> SpentIn(w, events[..n], id)
  {
  }

  /** A funding event that no spend follows leaves exactly its own record. */
  lemma {:induction false} FundedLast(w: Watch, history: seq<Event>, id: OutputID, c: nat)
    requires DistinctTransactions(history) && Consistent(w, history)
    requires c < |history| && Funds(w, history[c], id)
    requires forall i: nat, j: nat :: c <= i < |history| ==> !Spends(w, history[i], j, id)
    ensures At(Confirmed(w, history), id) == Some(FundingRecord(w, history[c], id, true))
    decreases |history|
  {
    var n := |history| - 1;
    PrefixFacts(w, history, n);
    assert forall j: nat :: !Spends(w, history[n], j, id);
    EventLeaves(Confirmed(w, history[..n]), w, history[n], true, id);
    if c == n {
      UnfundedIsUnconfirmed(w, history[..n], id);
    } else {
      FundedLast(w, history[..n], id, c);
    }
  }

  /** A spend that no funding event follows leaves its own mark. */
  lemma {:induction false} SpentLast(w: Watch, history: seq<Event>, id: OutputID, i: nat, j: nat)
    requires NoDoubleSpend(w, history) && i < |history| && Spends(w, history[i], j, id)
    requires forall c :: i < c < |history| ==> !Funds(w, history[c], id)
    ensures At(Confirmed(w, history), id).Some? && SpentBy(w, history[i], j, true, At(Confirmed(w, history), id).value)
    decreases |history|
  {
    var n := |history| - 1;
    PrefixFacts(w, history, n);
    if i == n {
      EventSpends(Confirmed(w, history[..n]), w, history[n], true, id, j);
    } else {
      SpentLast(w, history[..n], id, i, j);
      assert !Funds(w, history[n], id);
      EventLeaves(Confirmed(w, history[..n]), w, history[n], true, id);
    }
  }

  // ----- the pool on top -----

  /** The pool leaves alone what is already spent, and what it does not spend. */
  lemma {:induction false} PoolLeaves(m: Outputs, w: Watch, pool: seq<Event>, id: OutputID)
    requires Consistent(w, pool) && id in m && (m[id].spent || !SpentIn(w, pool, id))
    ensures At(ReplayFrom(m, w, pool, false), id) == Some(m[id])
    decreases |pool|
  {
    if pool != [] {
      var n := |pool| - 1;
      PrefixFacts(w, pool, n);
      PoolLeaves(m, w, pool[..n], id);
      if j: nat :| Spends(w, pool[n], j, id) {
        assert SpentIn(w, pool, id);
        EventSpends(ReplayFrom(m, w, pool[..n], false), w, pool[n], false, id, j);
      } else {
        EventLeaves(ReplayFrom(m, w, pool[..n], false), w, pool[n], false, id);
      }
    }
  }

  /** An output first seen in the pool, and not spent there. */
  lemma {:induction false} PoolFunds(m: Outputs, w: Watch, pool: seq<Event>, id: OutputID)
    requires DistinctTransactions(pool) && id !in m && !SpentIn(w, pool, id)
    ensures !FundedIn(w, pool, id) ==> At(ReplayFrom(m, w, pool, false), id) == None
    ensures forall c :: 0 <= c < |pool| && Funds(w, pool[c], id) ==>
              At(ReplayFrom(m, w, pool, false), id) == Some(FundingRecord(w, pool[c], id, false))
    decreases |pool|
  {
    if pool != [] {
      var n := |pool| - 1;
      PrefixFacts(w, pool, n);
      PoolFunds(m, w, pool[..n], id);
      assert forall j: nat :: !Spends(w, pool[n], j, id);
      EventLeaves(ReplayFrom(m, w, pool[..n], false), w, pool[n], false, id);
      forall c | 0 <= c < n && Funds(w, pool[c], id)
        ensures At(ReplayFrom(m, w, pool, false), id) == Some(FundingRecord(w, pool[c], id, false))
      {
        assert Funds(w, pool[..n][c], id);
      }
      if Funds(w, pool[n], id) {
        assert !FundedIn(w, pool[..n], id);
      }
    }
  }

  lemma PoolUnspent(m: Outputs, w: Watch, pool: seq<Event>, id: OutputID)
    requires DistinctTransactions(pool) && Consistent(w, pool) && !SpentIn(w, pool, id)
    requires id in m ==> !m[id].spent && m[id].spendHeight == None
    ensures var o := At(ReplayFrom(m, w, pool, false), id); o.Some? ==> !o.value.spent && o.value.spendHeight == None
  {
    if id in m {
      PoolLeaves(m, w, pool, id);
    } else {
      PoolFunds(m, w, pool, id);
      if FundedIn(w, pool, id) {
        var c :| 0 <= c < |pool| && Funds(w, pool[c], id);
      }
    }
  }

  /** The first spend in the pool of an output not spent on chain is the one that counts. */
  lemma {:induction false} PoolSpends(m: Outputs, w: Watch, pool: seq<Event>, id: OutputID, i: nat, j: nat)
    requires DistinctTransactions(pool) && Consistent(w, pool)
    requires id in m ==> !m[id].spent && m[id].spendHeight == None
    requires i < |pool| && Spends(w, pool[i], j, id) && !SpentIn(w, pool[..i], id)
    ensures At(ReplayFrom(m, w, pool, false), id).Some?
              && SpentBy(w, pool[i], j, false, At(ReplayFrom(m, w, pool, false), id).value)
    decreases |pool|
  {
    var n := |pool| - 1;
    PrefixFacts(w, pool, n);
    var before := ReplayFrom(m, w, pool[..n], false);
    if i == n {
      PoolUnspent(m, w, pool[..n], id);
      EventSpends(before, w, pool[n], false, id, j);
    } else {
      assert pool[..n][..i] == pool[..i];
      PoolSpends(m, w, pool[..n], id, i, j);
      if k: nat :| Spends(w, pool[n], k, id) {
        EventSpends(before, w, pool[n], false, id, k);
      } else {
        EventLeaves(before, w, pool[n], false, id);
      }
    }
  }

  /** The earliest event of a list that spends `id`. */
  lemma {:induction false} FirstSpend(w: Watch, events: seq<Event>, id: OutputID) returns (i: nat, j: nat)
    requires SpentIn(w, events, id)
    ensures i < |events| && Spends(w, events[i], j, id) && !SpentIn(w, events[..i], id)
    decreases |events|
  {
    var n := |events| - 1;
    if SpentIn(w, events[..n], id) {
      i, j := FirstSpend(w, events[..n], id);
      assert events[..n][..i] == events[..i];
    } else {
      PrefixFacts(w, events, n);
      i, j :| i < |events| && Spends(w, events[i], j, id);
    }
  }

  /** The whole replay gives each output exactly its declared record. */
  lemma ReplayIsDeclared(w: Watch, history: seq<Event>, pool: seq<Event>, id: OutputID)
    requires DistinctTransactions(history) && NoDoubleSpend(w, history) && FundedBeforeSpent(w, history, id)
    requires DistinctTransactions(pool) && Consistent(w, pool)
    ensures Declared(w, history, pool, id, At(Replay(w, history, pool), id))
  {
    PrefixFacts(w, history, |history|);
    var m := Confirmed(w, history);
    if SpentIn(w, history, id) {
      var i: nat, j: nat :| i < |history| && Spends(w, history[i], j, id);
      SpentLast(w, history, id, i, j);
      PoolLeaves(m, w, pool, id);
    } else {
      HistoryUnspent(w, history, id);
      PoolIsDeclared(w, history, pool, id);
    }
  }

  lemma HistoryUnspent(w: Watch, history: seq<Event>, id: OutputID)
    requires DistinctTransactions(history) && Consistent(w, history) && !SpentIn(w, history, id)
    ensures forall c :: 0 <= c < |history| && Funds(w, history[c], id) ==>
              At(Confirmed(w, history), id) == Some(FundingRecord(w, history[c], id, true))
    ensures !FundedIn(w, history, id) ==> At(Confirmed(w, history), id) == None
  {
    forall c | 0 <= c < |history| && Funds(w, history[c], id)
      ensures At(Confirmed(w, history), id) == Some(FundingRecord(w, history[c], id, true))
    {
      FundedLast(w, history, id, c);
    }
    if !FundedIn(w, history, id) {
      UnfundedIsUnconfirmed(w, history, id);
    }
  }

  lemma PoolIsDeclared(w: Watch, history: seq<Event>, pool: seq<Event>, id: OutputID)
    requires DistinctTransactions(history) && Consistent(w, history) && !SpentIn(w, history, id)
    requires DistinctTransactions(pool) && Consistent(w, pool)
    ensures Declared(w, history, pool, id, At(Replay(w, history, pool), id))
  {
    var m := Confirmed(w, history);
    HistoryUnspent(w, history, id);
    if SpentIn(w, pool, id) {
      var i, j := FirstSpend(w, pool, id);
      PoolSpends(m, w, pool, id, i, j);
    } else if FundedIn(w, history, id) {
      PoolLeaves(m, w, pool, id);
    } else {
      PoolFunds(m, w, pool, id);
    }
  }

  /** Exactly when: a history without double spends is read rightly if and only if the output's
      funding is not replayed after its spend. */
  lemma DeclaredIffFundedBeforeSpent(w: Watch, history: seq<Event>, pool: seq<Event>, id: OutputID)
    requires DistinctTransactions(history) && NoDoubleSpend(w, history)
    requires DistinctTransactions(pool) && Consistent(w, pool)
    ensures Declared(w, history, pool, id, At(Replay(w, history, pool), id)) <==> FundedBeforeSpent(w, history, id)
  {
    PrefixFacts(w, history, |history|);
    if FundedBeforeSpent(w, history, id) {
      ReplayIsDeclared(w, history, pool, id);
    } else {
      var i: nat, j: nat, c: nat :| i < c < |history| && Spends(w, history[i], j, id) && Funds(w, history[c], id);
      var m := Confirmed(w, history);
      FundedLast(w, history, id, c);
      if SpentIn(w, pool, id) {
        var k, l := FirstSpend(w, pool, id);
        PoolSpends(m, w, pool, id, k, l);
      } else {
        PoolLeaves(m, w, pool, id);
      }
      assert SpentIn(w, history, id);
    }
  }

  // ----- what is shown, field by field -----

  /** A status for each branch: `claim`, `refund`, or `other` for a spend that shows neither. */
  ghost predicate StatusIs(w: Watch, input: Input, status: Status, claim: Status, refund: Status, other: Status) {
    var ours := OfContract(w.crypto, w.contract, input.policy);
    if ours && ShowsBranch(input.policy, HashLock(w.contract.secretHash)) then status == claim
    else if ours && ShowsBranch(input.policy, Above(w.contract.refundHeight)) then status == refund
    else status == other
  }

  lemma StatusOfSpend(w: Watch, e: Event, j: nat, confirmed: bool, o: Observed)
    requires e.txn.Some? && j < |e.txn.value.inputs| && SpentBy(w, e, j, confirmed, o)
    ensures var input := e.txn.value.inputs[j];
            && (confirmed ==> StatusIs(w, input, o.status, Claimed, Refunded, Spent))
            && (!confirmed ==> StatusIs(w, input, o.status, Claiming, Refunding, Spending))
            && (forall s: Preimage :: o.secret == Some(s) <==>
                  && (o.status == Claimed || o.status == Claiming) && w.crypto.sha256(s) == w.contract.secretHash
                  && 0 < |input.preimages| && input.preimages[|input.preimages| - 1] == s)
  {
    var input := e.txn.value.inputs[j];
    var reading :| Means(w.crypto, w.contract, input, reading) &&
                   o.status == SpendStatus(reading.kind, confirmed) && o.secret == reading.secret;
    MeaningIsUnique(w.crypto, w.contract, input, reading, Classify(w.crypto, w.contract, input));
    ReadingIsOfTheBranch(w.crypto, w.contract, input);
  }

  /** An output spent on chain: claimed, refunded or spent by the branch the spend shows, whatever the pool
      holds, with the spend's transaction, height and secret. */
  lemma SpentOnChain(w: Watch, history: seq<Event>, pool: seq<Event>, i: nat, j: nat)
    requires DistinctTransactions(history) && NoDoubleSpend(w, history)
    requires DistinctTransactions(pool) && Consistent(w, pool)
    requires i < |history| && history[i].txn.Some? && j < |history[i].txn.value.inputs|
    requires history[i].txn.value.inputs[j].parentAddress == w.address
    requires FundedBeforeSpent(w, history, history[i].txn.value.inputs[j].parent)
    ensures var e, input, m := history[i], history[i].txn.value.inputs[j], Replay(w, history, pool);
            && input.parent in m
            && var o := m[input.parent];
            && o.spent && o.spendTxn == Some(e.txn.value.id) && o.spendHeight == Some(e.height)
            && StatusIs(w, input, o.status, Claimed, Refunded, Spent)
            && (forall s: Preimage :: o.secret == Some(s) <==>
                  && o.status == Claimed && w.crypto.sha256(s) == w.contract.secretHash
                  && 0 < |input.preimages| && input.preimages[|input.preimages| - 1] == s)
  {
    var id := history[i].txn.value.inputs[j].parent;
    assert Spends(w, history[i], j, id);
    ReplayIsDeclared(w, history, pool, id);
    var o := At(Replay(w, history, pool), id);
    var k: nat, l: nat :| k < |history| && Spends(w, history[k], l, id) && SpentBy(w, history[k], l, true, o.value);
    StatusOfSpend(w, history[i], j, true, o.value);
  }

  /** An output spent only in the pool: claiming, refunding or spending by the branch the spend shows, with
      the spend's transaction and secret, and no height. */
  lemma SpentInPool(w: Watch, history: seq<Event>, pool: seq<Event>, i: nat, j: nat)
    requires DistinctTransactions(history) && NoDoubleSpend(w, history)
    requires DistinctTransactions(pool) && NoDoubleSpend(w, pool)
    requires i < |pool| && pool[i].txn.Some? && j < |pool[i].txn.value.inputs|
    requires pool[i].txn.value.inputs[j].parentAddress == w.address
    requires !SpentIn(w, history, pool[i].txn.value.inputs[j].parent)
    ensures var e, input, m := pool[i], pool[i].txn.value.inputs[j], Replay(w, history, pool);
            && input.parent in m
            && var o := m[input.parent];
            && o.spent && o.spendTxn == Some(e.txn.value.id) && o.spendHeight == None
            && StatusIs(w, input, o.status, Claiming, Refunding, Spending)
            && (forall s: Preimage :: o.secret == Some(s) <==>
                  && o.status == Claiming && w.crypto.sha256(s) == w.contract.secretHash
                  && 0 < |input.preimages| && input.preimages[|input.preimages| - 1] == s)
  {
    var id := pool[i].txn.value.inputs[j].parent;
    assert Spends(w, pool[i], j, id);
    PrefixFacts(w, history, |history|);
    PrefixFacts(w, pool, |pool|);
    PoolIsDeclared(w, history, pool, id);
    var o := At(Replay(w, history, pool), id);
    var k: nat, l: nat :| k < |pool| && Spends(w, pool[k], l, id) && !SpentIn(w, pool[..k], id)
      && SpentBy(w, pool[k], l, false, o.value);
    StatusOfSpend(w, pool[i], j, false, o.value);
  }

  /** An output created on chain and spent nowhere: funded, with its transaction's and its event's data. */
  lemma UnspentOnChain(w: Watch, history: seq<Event>, pool: seq<Event>, c: nat, n: nat)
    requires DistinctTransactions(history) && NoDoubleSpend(w, history)
    requires DistinctTransactions(pool) && Consistent(w, pool)
    requires c < |history| && history[c].txn.Some? && n < |history[c].txn.value.outputs|
    requires history[c].txn.value.outputs[n].address == w.address
    requires var id := OutputID(history[c].txn.value.id, n); !SpentIn(w, history, id) && !SpentIn(w, pool, id)
    ensures var e, id := history[c], OutputID(history[c].txn.value.id, n);
            At(Replay(w, history, pool), id) ==
            Some(Observed(e.txn.value.outputs[n].value, Some(e.txn.value.id), Some(e.height), e.maturity,
                          e.confirmations, Funded, None, None, None, true, false))
  {
    var id := OutputID(history[c].txn.value.id, n);
    assert Funds(w, history[c], id);
    PrefixFacts(w, history, |history|);
    FundedLast(w, history, id, c);
    PoolLeaves(Confirmed(w, history), w, pool, id);
  }

  /** An output created in the pool and spent nowhere: funding, without a height. */
  lemma UnspentInPool(w: Watch, history: seq<Event>, pool: seq<Event>, c: nat, n: nat)
    requires DistinctTransactions(history) && NoDoubleSpend(w, history) && DistinctTransactions(pool)
    requires c < |pool| && pool[c].txn.Some? && n < |pool[c].txn.value.outputs|
    requires pool[c].txn.value.outputs[n].address == w.address
    requires var id := OutputID(pool[c].txn.value.id, n);
             !FundedIn(w, history, id) && !SpentIn(w, history, id) && !SpentIn(w, pool, id)
    ensures var e, id := pool[c], OutputID(pool[c].txn.value.id, n);
            At(Replay(w, history, pool), id) ==
            Some(Observed(e.txn.value.outputs[n].value, Some(e.txn.value.id), None, e.maturity, e.confirmations,
                          Funding, None, None, None, false, false))
  {
    var id := OutputID(pool[c].txn.value.id, n);
    assert Funds(w, pool[c], id);
    PrefixFacts(w, history, |history|);
    UnfundedIsUnconfirmed(w, history, id);
    PoolFunds(Confirmed(w, history), w, pool, id);
  }

  /** A spend on chain keeps what the funding on chain recorded. */
  lemma {:induction false} SpendKeepsFunding(w: Watch, history: seq<Event>, id: OutputID, c: nat, i: nat, j: nat)
    requires DistinctTransactions(history) && NoDoubleSpend(w, history)
    requires c <= i < |history| && Funds(w, history[c], id) && Spends(w, history[i], j, id)
    ensures var o, e := At(Confirmed(w, history), id), history[c];
            && o.Some? && o.value.value == e.txn.value.outputs[id.index].value
            && o.value.fundingTxn == Some(e.txn.value.id) && o.value.fundingHeight == Some(e.height)
            && o.value.maturity == e.maturity && o.value.confirmations == e.confirmations && o.value.confirmed
    decreases |history|
  {
    var n := |history| - 1;
    PrefixFacts(w, history, n);
    if i < n {
      SpendKeepsFunding(w, history[..n], id, c, i, j);
      assert !Funds(w, history[n], id) && forall k: nat :: !Spends(w, history[n], k, id);
      EventLeaves(Confirmed(w, history[..n]), w, history[n], true, id);
    } else {
      if c < n {
        FundedLast(w, history[..n], id, c);
        assert !Funds(w, history[n], id);
      } else {
        UnfundedIsUnconfirmed(w, history[..n], id);
      }
      EventSpends(Confirmed(w, history[..n]), w, history[n], true, id, j);
    }
  }

  /** A spend on chain whose funding the history does not hold is shown with the value its input repeats. */
  lemma {:induction false} SpendWithoutFunding(w: Watch, history: seq<Event>, id: OutputID, i: nat, j: nat)
    requires NoDoubleSpend(w, history) && !FundedIn(w, history, id)
    requires i < |history| && Spends(w, history[i], j, id)
    ensures var o := At(Confirmed(w, history), id);
            && o.Some? && o.value.value == history[i].txn.value.inputs[j].parentValue
            && o.value.fundingTxn == None && o.value.fundingHeight == None && !o.value.confirmed
    decreases |history|
  {
    var n := |history| - 1;
    PrefixFacts(w, history, n);
    assert !Funds(w, history[n], id);
    if i < n {
      SpendWithoutFunding(w, history[..n], id, i, j);
      assert forall k: nat :: !Spends(w, history[n], k, id);
      EventLeaves(Confirmed(w, history[..n]), w, history[n], true, id);
    } else {
      UnfundedIsUnconfirmed(w, history[..n], id);
      EventSpends(Confirmed(w, history[..n]), w, history[n], true, id, j);
    }
  }

  /** The pool never changes what is known of an output's funding on chain. */
  lemma {:induction false} PoolKeepsFunding(m: Outputs, w: Watch, pool: seq<Event>, id: OutputID)
    requires Consistent(w, pool) && id in m && m[id].confirmed
    ensures var m' := ReplayFrom(m, w, pool, false);
            && id in m' && m'[id].value == m[id].value && m'[id].fundingTxn == m[id].fundingTxn
            && m'[id].fundingHeight == m[id].fundingHeight && m'[id].maturity == m[id].maturity
            && m'[id].confirmations == m[id].confirmations && m'[id].confirmed
    decreases |pool|
  {
    if pool != [] {
      var n := |pool| - 1;
      PrefixFacts(w, pool, n);
      PoolKeepsFunding(m, w, pool[..n], id);
      if j: nat :| Spends(w, pool[n], j, id) {
        EventSpends(ReplayFrom(m, w, pool[..n], false), w, pool[n], false, id, j);
      } else {
        EventLeaves(ReplayFrom(m, w, pool[..n], false), w, pool[n], false, id);
      }
    }
  }

  /** Field by field: an output created on chain keeps value, transaction, height, maturity and confirmations
      of its creation, wherever it is spent. */
  lemma FundingOnChain(w: Watch, history: seq<Event>, pool: seq<Event>, c: nat, n: nat)
    requires DistinctTransactions(history) && NoDoubleSpend(w, history) && Consistent(w, pool)
    requires c < |history| && history[c].txn.Some? && n < |history[c].txn.value.outputs|
    requires history[c].txn.value.outputs[n].address == w.address
    requires FundedBeforeSpent(w, history, OutputID(history[c].txn.value.id, n))
    ensures var e, id, m := history[c], OutputID(history[c].txn.value.id, n), Replay(w, history, pool);
            && id in m && m[id].value == e.txn.value.outputs[n].value && m[id].fundingTxn == Some(e.txn.value.id)
            && m[id].fundingHeight == Some(e.height) && m[id].maturity == e.maturity
            && m[id].confirmations == e.confirmations && m[id].confirmed
  {
    var id := OutputID(history[c].txn.value.id, n);
    assert Funds(w, history[c], id);
    PrefixFacts(w, history, |history|);
    if i: nat, j: nat :| i < |history| && Spends(w, history[i], j, id) {
      SpendKeepsFunding(w, history, id, c, i, j);
    } else {
      FundedLast(w, history, id, c);
    }
    PoolKeepsFunding(Confirmed(w, history), w, pool, id);
  }

  /** A spendable value is shown exactly for the outputs that are created on chain and spent neither there
      nor in the pool. */
  lemma SpendableIffUnspentOnChain(w: Watch, history: seq<Event>, pool: seq<Event>, id: OutputID,
                                   worth: (nat, nat) -> nat)
    requires DistinctTransactions(history) && NoDoubleSpend(w, history) && FundedBeforeSpent(w, history, id)
    requires DistinctTransactions(pool) && Consistent(w, pool)
    ensures var m, views := Replay(w, history, pool), Views(Replay(w, history, pool), worth);
            && (id in views <==> id in m) && (id in views ==> views[id].output == m[id])
            && (id in views && views[id].spendable.Some? <==>
                  FundedIn(w, history, id) && !SpentIn(w, history, id) && !SpentIn(w, pool, id))
            && (id in views && views[id].spendable.Some? ==>
                  views[id].spendable.value == worth(views[id].output.value, views[id].output.maturity))
  {
    ReplayIsDeclared(w, history, pool, id);
  }

  /** A history the replay misreads: an output's spend listed before the funding of the same block. The
      output is reported as funded although it is spent on chain. */
  lemma SpendBeforeFundingIsMisread(w: Watch, height: nat, value: nat, policy: Policy, history: seq<Event>)
    requires history == [
               Event(height, 0, 1, Some(Transaction(
                 1, [Input(OutputID(0, 0), w.address, value, policy, [], 0)], [], value, []))),
               Event(height, 0, 1, Some(Transaction(0, [], [Output(w.address, value)], 0, [])))]
    ensures var id := OutputID(0, 0);
            var o := At(Replay(w, history, []), id);
            !Declared(w, history, [], id, o) && o.Some? && o.value.status == Funded && !o.value.spent
  {
    var id := OutputID(0, 0);
    assert Spends(w, history[0], 0, id) && Funds(w, history[1], id);
    assert forall l: nat :: !Spends(w, history[1], l, id);
    DeclaredIffFundedBeforeSpent(w, history, [], id);
    PrefixFacts(w, history, 2);
    FundedLast(w, history, id, 1);
  }

  /** When an index can list events in that order: never across blocks, as long as it lists lower
      blocks first and no output is spent below the block that creates it. So only an output created
      and spent within one block can be misread. */
  lemma MisreadOnlyWithinOneBlock(w: Watch, history: seq<Event>, id: OutputID)
    requires forall i, c :: 0 <= i < c < |history| ==> history[i].height <= history[c].height
    requires forall i: nat, j: nat, c: nat ::
               (i < |history| && c < |history| && Spends(w, history[i], j, id) && Funds(w, history[c], id)) ==>
                 history[c].height <= history[i].height
    requires !FundedBeforeSpent(w, history, id)
    ensures exists i: nat, j: nat, c: nat ::
              && i < c < |history| && Spends(w, history[i], j, id) && Funds(w, history[c], id)
              && history[i].height == history[c].height
  {
  }

  /** The fields that do not depend on the order of the pool. */
  ghost predicate Agree(o: Option<Observed>, o': Option<Observed>) {
    && (o.Some? <==> o'.Some?)
    && (o.Some? ==>
          && o.value.status == o'.value.status && o.value.spent == o'.value.spent
          && o.value.spendTxn == o'.value.spendTxn
          && o.value.spendHeight == o'.value.spendHeight && o.value.secret == o'.value.secret)
  }

  lemma SpentByIsUnique(w: Watch, e: Event, j: nat, confirmed: bool, o: Observed, o': Observed)
    requires e.txn.Some? && j < |e.txn.value.inputs| && SpentBy(w, e, j, confirmed, o)
               && SpentBy(w, e, j, confirmed, o')
    ensures Agree(Some(o), Some(o'))
  {
  }

  /** Two places of a permuted list come from two places of the list. */
  lemma Permuted(events: seq<Event>, events': seq<Event>, i: nat, k: nat) returns (i': nat, k': nat)
    requires multiset(events) == multiset(events') && i < k < |events'|
    ensures i' < |events| && k' < |events| && i' != k' && events[i'] == events'[i] && events[k'] == events'[k]
  {
    assert events'[i] in multiset(events') && events'[k] in multiset(events');
    i' :| 0 <= i' < |events| && events[i'] == events'[i];
    if events'[i] != events'[k] {
      k' :| 0 <= k' < |events| && events[k'] == events'[k];
    } else {
      var e := events'[i];
      assert events' == events'[..i] + [e] + events'[i + 1..k] + [e] + events'[k + 1..];
      assert events == events[..i'] + [e] + events[i' + 1..];
      assert e in multiset(events[..i']) + multiset(events[i' + 1..]);
      if e in events[..i'] {
        k' :| 0 <= k' < i' && events[k'] == e;
      } else {
        assert e in events[i' + 1..];
        k' :| i' < k' < |events| && events[k'] == e;
      }
    }
  }

  lemma PermutedDoubleSpend(w: Watch, pool: seq<Event>, pool': seq<Event>, i: nat, k: nat, j: nat, l: nat, id: OutputID)
    requires multiset(pool) == multiset(pool') && i < k < |pool'|
    requires Spends(w, pool'[i], j, id) && Spends(w, pool'[k], l, id)
    ensures !NoDoubleSpend(w, pool)
  {
    var a, b := Permuted(pool, pool', i, k);
    assert Spends(w, pool[a], j, id) && Spends(w, pool[b], l, id);
  }

  lemma PermutedPool(w: Watch, pool: seq<Event>, pool': seq<Event>)
    requires multiset(pool) == multiset(pool') && DistinctTransactions(pool) && NoDoubleSpend(w, pool)
    ensures DistinctTransactions(pool') && NoDoubleSpend(w, pool')
  {
    forall i: nat, j: nat, i': nat, j': nat, id | i < |pool'| && i' < |pool'| && Spends(w, pool'[i], j, id)
      && Spends(w, pool'[i'], j', id)
      ensures i == i' && j == j'
    {
      assert pool'[i] in multiset(pool');
      var k: nat :| k < |pool| && pool[k] == pool'[i];
      if i < i' {
        PermutedDoubleSpend(w, pool, pool', i, i', j, j', id);
      } else if i' < i {
        PermutedDoubleSpend(w, pool, pool', i', i, j', j, id);
      } else {
        assert Spends(w, pool[k], j, id) && Spends(w, pool[k], j', id);
      }
    }
    forall i, k | 0 <= i < k < |pool'| && pool'[i].txn.Some? && pool'[k].txn.Some?
      ensures pool'[i].txn.value.id != pool'[k].txn.value.id
    {
      var a, b := Permuted(pool, pool', i, k);
    }
  }

  lemma SameMembers(w: Watch, pool: seq<Event>, pool': seq<Event>, id: OutputID)
    requires multiset(pool) == multiset(pool')
    ensures forall c :: 0 <= c < |pool'| ==> pool'[c] in pool
    ensures SpentIn(w, pool', id) ==> SpentIn(w, pool, id)
    ensures FundedIn(w, pool', id) ==> FundedIn(w, pool, id)
  {
    forall c | 0 <= c < |pool'|
      ensures pool'[c] in pool
    {
      assert pool'[c] in multiset(pool');
    }
    if i: nat, j: nat :| i < |pool'| && Spends(w, pool'[i], j, id) {
      var k :| 0 <= k < |pool| && pool[k] == pool'[i];
      assert Spends(w, pool[k], j, id);
    }
    if c :| 0 <= c < |pool'| && Funds(w, pool'[c], id) {
      var k :| 0 <= k < |pool| && pool[k] == pool'[c];
      assert Funds(w, pool[k], id);
    }
  }

  /** Two orders of a conflict-free pool tell the same about every output. */
  lemma PoolOrderIsIrrelevant(w: Watch, history: seq<Event>, pool: seq<Event>, pool': seq<Event>, id: OutputID)
    requires DistinctTransactions(history) && NoDoubleSpend(w, history) && FundedBeforeSpent(w, history, id)
    requires DistinctTransactions(pool) && NoDoubleSpend(w, pool) && multiset(pool) == multiset(pool')
    ensures Agree(At(Replay(w, history, pool), id), At(Replay(w, history, pool'), id))
  {
    PermutedPool(w, pool, pool');
    PrefixFacts(w, pool, |pool|);
    PrefixFacts(w, pool', |pool'|);
    ReplayIsDeclared(w, history, pool, id);
    ReplayIsDeclared(w, history, pool', id);
    SameMembers(w, pool, pool', id);
    SameMembers(w, pool', pool, id);
    DeclaredAgree(w, history, pool, pool', id, At(Replay(w, history, pool), id), At(Replay(w, history, pool'), id));
  }

  lemma DeclaredAgree(w: Watch, history: seq<Event>, pool: seq<Event>, pool': seq<Event>, id: OutputID,
                      o: Option<Observed>, o': Option<Observed>)
    requires Declared(w, history, pool, id, o) && Declared(w, history, pool', id, o')
    requires DistinctTransactions(history) && NoDoubleSpend(w, history)
    requires DistinctTransactions(pool) && NoDoubleSpend(w, pool) && multiset(pool) == multiset(pool')
    requires SpentIn(w, pool, id) <==> SpentIn(w, pool', id)
    requires FundedIn(w, pool, id) <==> FundedIn(w, pool', id)
    ensures Agree(o, o')
  {
    SameMembers(w, pool, pool', id);
    if SpentIn(w, history, id) {
      var i: nat, j: nat :| i < |history| && Spends(w, history[i], j, id) && SpentBy(w, history[i], j, true, o.value);
      SpentByIsUnique(w, history[i], j, true, o.value, o'.value);
    } else if SpentIn(w, pool, id) {
      var i: nat, j: nat :| i < |pool| && Spends(w, pool[i], j, id) && !SpentIn(w, pool[..i], id)
        && SpentBy(w, pool[i], j, false, o.value);
      var i': nat, j': nat :| i' < |pool'| && Spends(w, pool'[i'], j', id) && !SpentIn(w, pool'[..i'], id)
        && SpentBy(w, pool'[i'], j', false, o'.value);
      var k: nat :| k < |pool| && pool[k] == pool'[i'];
      assert Spends(w, pool[k], j', id);
      SpentByIsUnique(w, pool[i], j, false, o.value, o'.value);
    }
  }

  // ----- secrets -----

  /** Every revealed secret opens the contract and was shown through its hash branch. */
  ghost predicate SecretsShown(w: Watch, events: seq<Event>, m: Outputs) {
    forall id :: id in m && m[id].secret.Some? ==>
      && w.crypto.sha256(m[id].secret.value) == w.contract.secretHash
      && exists i: nat, j: nat :: i < |events| && Spends(w, events[i], j, id)
           && ShowsSecret(w, events[i].txn.value.inputs[j], m[id].secret.value)
  }

  ghost predicate ShowsSecret(w: Watch, input: Input, s: Preimage) {
    SpendsThrough(w.crypto, w.contract, input.policy, HashLock(w.contract.secretHash)) && LastPreimage(input) == Some(s)
  }

  lemma {:induction false} InputsShow(m: Outputs, w: Watch, events: seq<Event>, i: nat, n: nat, confirmed: bool)
    requires SecretsShown(w, events, m) && i < |events| && events[i].txn.Some? && n <= |events[i].txn.value.inputs|
    ensures SecretsShown(w, events, ObserveInputs(m, w, events[i], n, confirmed))
  {
    if n > 0 {
      InputsShow(m, w, events, i, n - 1, confirmed);
      var before, after :=
        ObserveInputs(m, w, events[i], n - 1, confirmed), ObserveInputs(m, w, events[i], n, confirmed);
      var input := events[i].txn.value.inputs[n - 1];
      if before != after && after[input.parent].secret.Some? {
        SecretIffHashBranch(w.crypto, w.contract, input, after[input.parent].secret.value);
        assert Spends(w, events[i], n - 1, input.parent);
      }
    }
  }

  lemma {:induction false} OutputsShow(m: Outputs, w: Watch, events: seq<Event>, e: Event, n: nat, confirmed: bool)
    requires SecretsShown(w, events, m) && e.txn.Some? && n <= |e.txn.value.outputs|
    ensures SecretsShown(w, events, ObserveOutputs(m, w, e, n, confirmed))
  {
    if n > 0 {
      OutputsShow(m, w, events, e, n - 1, confirmed);
    }
  }

  lemma {:induction false} ReplayShows(m: Outputs, w: Watch, events: seq<Event>, n: nat, lo: nat, confirmed: bool)
    requires SecretsShown(w, events, m) && lo + n <= |events|
    ensures SecretsShown(w, events, ReplayFrom(m, w, events[lo..lo + n], confirmed))
    decreases n
  {
    if n > 0 {
      ReplayShows(m, w, events, n - 1, lo, confirmed);
      assert events[lo..lo + n][..n - 1] == events[lo..lo + n - 1];
      var before := ReplayFrom(m, w, events[lo..lo + n - 1], confirmed);
      var e := events[lo + n - 1];
      if e.txn.Some? {
        OutputsShow(before, w, events, e, |e.txn.value.outputs|, confirmed);
        InputsShow(ObserveOutputs(before, w, e, |e.txn.value.outputs|, confirmed), w, events, lo + n - 1,
          |e.txn.value.inputs|, confirmed);
      }
    }
  }

  /** Whatever history and pool hold, and in whatever order, a revealed secret is a preimage of the
      contract's hash shown by a spend of that output through the hash branch. */
  lemma RevealedSecretsOpenTheContract(w: Watch, history: seq<Event>, pool: seq<Event>)
    ensures SecretsShown(w, history + pool, Replay(w, history, pool))
  {
    var all := history + pool;
    assert SecretsShown(w, all, map[]);
    ReplayShows(map[], w, all, |history|, 0, true);
    assert all[0..|history|] == history;
    ReplayShows(Confirmed(w, history), w, all, |pool|, |history|, false);
    assert all[|history|..|history| + |pool|] == pool;
  }
}
