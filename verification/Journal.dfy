/** The journal of signed transactions and its rebroadcast pass.

    Withdrawals and swap actions are kept in two tables that are followed by the same pass; `T` is
    what a row says besides its transaction. A pass looks every candidate up in the wallet index,
    records, keeps or clears its confirmation, and moves the proofs of the unconfirmed ones to the
    tip and submits them again. */
module Journals {
  import opened Wrappers
  import opened Ledger
  import opened Chains
  import opened Proofs

  const MONITORING_DEPTH: nat := 144

  datatype Trouble = Updating(error: UpdateError) | Pooling | Broadcasting

  datatype Entry<T> = Entry(terms: T, txn: Transaction, basis: ChainIndex, confirmed: Option<ChainIndex>,
                            lastError: Option<Trouble>)

  /** The wallet index's answer about one transaction. */
  datatype Lookup = Unavailable | NotFound | Found(index: ChainIndex)

  datatype Write = SetConfirmation | ClearConfirmation | SaveState

  /** Everything a pass meets outside the journal: the chain, the proof library, what blocks hold,
      and the answers of the index, the pool, the network and the store. */
  datatype Node = Node(
    chain: Chain,
    lib: Library,
    includes: BlockID -> set<TxID>,
    events: TxID -> Lookup,
    cancelled: TxID -> nat -> bool,
    poolAccepts: Transaction -> bool,
    broadcasts: seq<Transaction> -> bool,
    saves: (string, Write) -> bool)
  {
    ghost predicate WellFormed() {
      chain.WellFormed() && lib.Lawful(chain)
    }

    /** `txid` is confirmed at `i` of the selected chain. */
    predicate PlacedAt(txid: TxID, i: ChainIndex) {
      chain.OnBest(i) && txid in includes(i.id)
    }

    ghost predicate Placed(txid: TxID) {
      exists i :: PlacedAt(txid, i)
    }

    /** The index is at the tip: it finds exactly the selected chain's transactions. */
    ghost predicate IndexAtTip() {
      forall txid :: match events(txid)
                     case Unavailable => false
                     case NotFound => !Placed(txid)
                     case Found(i) => PlacedAt(txid, i)
    }

    ghost predicate Faultless() {
      && (forall txid :: events(txid) != Unavailable)
      && (forall id, w :: saves(id, w))
    }
  }

  /** A row the pass looks at: unconfirmed, or confirmed at most `window` blocks below the tip. */
  predicate IsCandidate<T>(e: Entry<T>, tipHeight: nat, window: nat) {
    e.confirmed.Some? ==> tipHeight <= e.confirmed.value.height + window
  }

  predicate Resubmits<T>(node: Node, id: string, e: Entry<T>) {
    && node.events(e.txn.id) == NotFound
    && (e.confirmed.Some? ==> !node.chain.OnBest(e.confirmed.value) && node.saves(id, ClearConfirmation))
  }

  function TroubleOf(node: Node, u: Result<seq<Transaction>, UpdateError>): (r: Option<Trouble>) {
    match u
    case Failure(e) => Some(Updating(e))
    case Success(ts) =>
      if |ts| == 1 && !node.poolAccepts(ts[0]) then Some(Pooling)
      else if !node.broadcasts(ts) then Some(Broadcasting)
      else None
  }

  /** The row saved after its proofs were moved with outcome `u`. */
  function Saved<T>(node: Node, id: string, e: Entry<T>, u: Result<seq<Transaction>, UpdateError>): (r: Entry<T>)
    requires 0 < |node.chain.best|
  {
    if !node.saves(id, SaveState) then e
    else if u.Success? && |u.value| == 1 then
      e.(txn := u.value[0], basis := node.chain.Tip(), lastError := TroubleOf(node, u))
    else e.(lastError := TroubleOf(node, u))
  }

  /** What one pass makes of one candidate: its row, and what it hands to the pool. */
  ghost predicate EntryPass<T>(node: Node, id: string, e: Entry<T>, e': Entry<T>, sent: Option<Transaction>)
    requires node.WellFormed()
  {
    if Resubmits(node, id, e) then
      exists u :: Resubmission(node, id, e, u, e', sent)
    else
      && sent == None
      && e' == match node.events(e.txn.id)
               case Found(i) => if node.saves(id, SetConfirmation) then e.(confirmed := Some(i)) else e
               case _ => e
  }

  ghost predicate Resubmission<T>(node: Node, id: string, e: Entry<T>, u: Result<seq<Transaction>, UpdateError>,
                                  e': Entry<T>, sent: Option<Transaction>)
    requires node.WellFormed()
  {
    && UpdateOutcome(node.chain, node.lib, node.cancelled(e.txn.id), [e.txn], e.basis, node.chain.Tip(), u)
    && e' == Saved(node, id, e.(confirmed := None), u)
    && sent == if u.Success? && |u.value| == 1 then Some(u.value[0]) else None
  }

  function Sent(submitted: map<string, Transaction>, id: string): (r: Option<Transaction>) {
    if id in submitted then Some(submitted[id]) else None
  }

  /** One whole pass over a table. */
  ghost predicate Pass<T>(node: Node, before: map<string, Entry<T>>, after: map<string, Entry<T>>,
                          submitted: map<string, Transaction>)
    requires node.WellFormed()
  {
    && after.Keys == before.Keys
    && submitted.Keys <= before.Keys
    && forall id :: id in before ==>
         if IsCandidate(before[id], node.chain.Tip().height, MONITORING_DEPTH)
         then EntryPass(node, id, before[id], after[id], Sent(submitted, id))
         else after[id] == before[id] && id !in submitted
  }

  /** A pass that has treated the rows `done`. */
  ghost predicate Passed<T>(node: Node, before: map<string, Entry<T>>, rows: map<string, Entry<T>>,
                            submitted: map<string, Transaction>, done: set<string>)
    requires node.WellFormed()
  {
    && rows.Keys == before.Keys && submitted.Keys <= done <= before.Keys
    && (forall id :: id in before && id !in done ==> rows[id] == before[id])
    && forall id :: id in done ==> EntryPass(node, id, before[id], rows[id], Sent(submitted, id))
  }

  lemma OneMorePassed<T>(node: Node, before: map<string, Entry<T>>, rows: map<string, Entry<T>>,
                         rows': map<string, Entry<T>>, submitted: map<string, Transaction>,
                         submitted': map<string, Transaction>, done: set<string>, id: string)
    requires node.WellFormed() && Passed(node, before, rows, submitted, done) && id in before && id !in done
    requires rows'.Keys == rows.Keys && forall k :: k in rows && k != id ==> rows'[k] == rows[k]
    requires submitted' == submitted || (id in submitted' && submitted' == submitted[id := submitted'[id]])
    requires EntryPass(node, id, before[id], rows'[id], Sent(submitted', id))
    ensures Passed(node, before, rows', submitted', done + {id})
  {
    forall k | k in done ensures rows'[k] == rows[k] && Sent(submitted', k) == Sent(submitted, k) {}
  }

  /** The rows among the first `k` candidates. */
  ghost function Treated<T>(candidates: seq<(string, Entry<T>)>, k: nat): (r: set<string>)
    requires k <= |candidates|
  {
    set j | 0 <= j < k :: candidates[j].0
  }

  lemma OneMoreTreated<T>(candidates: seq<(string, Entry<T>)>, k: nat)
    requires k < |candidates| && forall i, j :: 0 <= i < j < |candidates| ==> candidates[i].0 != candidates[j].0
    ensures candidates[k].0 !in Treated(candidates, k)
    ensures Treated(candidates, k + 1) == Treated(candidates, k) + {candidates[k].0}
  {
  }

  /** Every candidate treated, and nothing else: that is a pass. */
  lemma PassEnds<T>(node: Node, before: map<string, Entry<T>>, rows: map<string, Entry<T>>,
                    submitted: map<string, Transaction>, candidates: seq<(string, Entry<T>)>)
    requires node.WellFormed() && Passed(node, before, rows, submitted, Treated(candidates, |candidates|))
    requires forall id :: id in before ==>
               (IsCandidate(before[id], node.chain.Tip().height, MONITORING_DEPTH) <==>
                exists k :: 0 <= k < |candidates| && candidates[k].0 == id)
    ensures Pass(node, before, rows, submitted)
  {
  }

  /** A table of the store. `clash` is its uniqueness constraint beyond the primary key. */
  class Journal<T(!new)> {
    var rows: map<string, Entry<T>>
    const clash: (T, T) -> bool

    constructor (clash: (T, T) -> bool)
      ensures rows == map[] && this.clash == clash
    {
      rows := map[];
      this.clash := clash;
    }

    /** An insert fails, and changes nothing, on a taken key or a clash with another row. A new row
        is unconfirmed. */
    method Add(id: string, terms: T, txn: Transaction, basis: ChainIndex) returns (ok: bool)
      modifies this
      ensures ok <==> id !in old(rows) && forall k :: k in old(rows) ==> !clash(old(rows)[k].terms, terms)
      ensures rows == if ok then old(rows)[id := Entry(terms, txn, basis, None, None)] else old(rows)
    {
      ok := id !in rows && forall k :: k in rows ==> !clash(rows[k].terms, terms);
      if ok {
        rows := rows[id := Entry(terms, txn, basis, None, None)];
      }
    }

    method Candidates(tipHeight: nat, window: nat) returns (found: seq<(string, Entry<T>)>)
      ensures forall k :: 0 <= k < |found| ==> found[k].0 in rows && found[k].1 == rows[found[k].0]
      ensures forall j, k :: 0 <= j < k < |found| ==> found[j].0 != found[k].0
      ensures forall id :: id in rows ==>
                (IsCandidate(rows[id], tipHeight, window) <==> exists k :: 0 <= k < |found| && found[k].0 == id)
    {
      var cutoff := if tipHeight > window then tipHeight - window else 0;
      found := [];
      var todo := rows.Keys;
      while todo != {}
        invariant todo <= rows.Keys
        invariant forall k :: 0 <= k < |found| ==> found[k].0 in rows.Keys - todo && found[k].1 == rows[found[k].0]
        invariant forall j, k :: 0 <= j < k < |found| ==> found[j].0 != found[k].0
        invariant forall id :: id in rows.Keys - todo ==>
                    (IsCandidate(rows[id], tipHeight, window) <==> exists k :: 0 <= k < |found| && found[k].0 == id)
        decreases todo
      {
        var id :| id in todo;
        todo := todo - {id};
        ghost var sofar := found;
        if rows[id].confirmed.None? || rows[id].confirmed.value.height >= cutoff {
          found := found + [(id, rows[id])];
          assert found[|sofar|].0 == id;
        }
        forall other | other in rows.Keys - todo
          ensures IsCandidate(rows[other], tipHeight, window) <==> exists k :: 0 <= k < |found| && found[k].0 == other
        {
          if other != id && exists k :: 0 <= k < |sofar| && sofar[k].0 == other {
            var k :| 0 <= k < |sofar| && sofar[k].0 == other;
            assert found[k].0 == other;
          }
        }
      }
    }

    method SetConfirmed(id: string, confirmed: Option<ChainIndex>) returns (ok: bool)
      modifies this
      ensures ok <==> id in old(rows)
      ensures rows == if ok then old(rows)[id := old(rows)[id].(confirmed := confirmed)] else old(rows)
    {
      ok := id in rows;
      if ok {
        rows := rows[id := rows[id].(confirmed := confirmed)];
      }
    }

    method Update(id: string, basis: ChainIndex, txn: Transaction, lastError: Option<Trouble>) returns (ok: bool)
      modifies this
      ensures ok <==> id in old(rows)
      ensures rows == if ok then old(rows)[id := old(rows)[id].(basis := basis, txn := txn, lastError := lastError)]
                else old(rows)
    {
      ok := id in rows;
      if ok {
        rows := rows[id := rows[id].(basis := basis, txn := txn, lastError := lastError)];
      }
    }

    /** One candidate of the pass. */
    method RebroadcastEntry(node: Node, id: string, e: Entry<T>) returns (sent: Option<Transaction>)
      requires node.WellFormed() && id in rows && rows[id] == e
      modifies this
      ensures rows.Keys == old(rows).Keys && forall k :: k in rows && k != id ==> rows[k] == old(rows)[k]
      ensures EntryPass(node, id, e, rows[id], sent)
    {
      sent := None;
      var found := node.events(e.txn.id);
      if found.Unavailable? {
        return;
      }
      if found.Found? {
        if e.confirmed != Some(found.index) && node.saves(id, SetConfirmation) {
          var _ := SetConfirmed(id, Some(found.index));
        }
        return;
      }
      if e.confirmed.Some? {
        if node.chain.BestIndex(e.confirmed.value.height) == Some(e.confirmed.value) {
          return;
        }
        if !node.saves(id, ClearConfirmation) {
          return;
        }
        var _ := SetConfirmed(id, None);
      }
      sent := Resubmit(node, id, e);
    }

    /** Moves a candidate's proofs to the tip, submits it and saves how that went; its confirmation has
        been cleared. */
    method Resubmit(node: Node, id: string, ghost e: Entry<T>) returns (sent: Option<Transaction>)
      requires node.WellFormed() && id in rows && rows[id] == e.(confirmed := None)
      modifies this
      ensures rows.Keys == old(rows).Keys && forall k :: k in rows && k != id ==> rows[k] == old(rows)[k]
      ensures exists u :: Resubmission(node, id, e, u, rows[id], sent)
    {
      sent := None;
      var txn, basis := rows[id].txn, rows[id].basis;
      var u, _ := UpdateProofs(node.chain, node.lib, node.cancelled(txn.id), [txn], basis, node.chain.Tip());
      var trouble: Option<Trouble> := None;
      match u {
        case Failure(error) => trouble := Some(Updating(error));
        case Success(txns) =>
          if |txns| == 1 {
            sent := Some(txns[0]);
            if !node.poolAccepts(txns[0]) {
              trouble := Some(Pooling);
            }
          }
          if trouble == None && !node.broadcasts(txns) {
            trouble := Some(Broadcasting);
          }
          if |txns| == 1 {
            txn, basis := txns[0], node.chain.Tip();
          }
      }
      if node.saves(id, SaveState) {
        var _ := Update(id, basis, txn, trouble);
      }
      assert Resubmission(node, id, e, u, rows[id], sent);
    }

    /** The pass: `submitted` lists, by row, what was handed to the pool. */
    method Rebroadcast(node: Node) returns (submitted: map<string, Transaction>)
      requires node.WellFormed()
      modifies this
      ensures Pass(node, old(rows), rows, submitted)
    {
      ghost var before := rows;
      submitted := map[];
      var candidates := Candidates(node.chain.Tip().height, MONITORING_DEPTH);
      for k := 0 to |candidates|
        invariant Passed(node, before, rows, submitted, Treated(candidates, k))
      {
        var (id, e) := candidates[k];
        OneMoreTreated(candidates, k);
        submitted := RebroadcastNext(node, before, id, e, submitted, Treated(candidates, k));
      }
      PassEnds(node, before, rows, submitted, candidates);
    }

    /** One more candidate, and what was handed to the pool so far. */
    method RebroadcastNext(node: Node, ghost before: map<string, Entry<T>>, id: string, e: Entry<T>,
                           sofar: map<string, Transaction>, ghost done: set<string>)
      returns (submitted: map<string, Transaction>)
      requires node.WellFormed() && Passed(node, before, rows, sofar, done)
      requires id in before && id !in done && before[id] == e
      modifies this
      ensures Passed(node, before, rows, submitted, done + {id})
    {
      ghost var was := rows;
      var sent := RebroadcastEntry(node, id, e);
      submitted := if sent.Some? then sofar[id := sent.value] else sofar;
      OneMorePassed(node, before, was, rows, sofar, submitted, done, id);
    }
  }
}
