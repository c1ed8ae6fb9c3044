/** The custody service: withdrawals, DEFEND renewals and swap sessions, each written down once. */
module Wallets {
  import opened Wrappers
  import opened Ledger
  import opened Journals
  import opened Addresses
  import opened Selection
  import opened Building
  import opened Records
  import opened WalletSteps

  /** The transaction behind a reply, and whether this call made it. */
  datatype Reply = Reply(txid: TxID, created: bool)

  class Wallet {
    const setup: Setup
    const book: AddressBook
    const withdrawals: Journal<WithdrawalTerms>
    const actions: Journal<ActionTerms>
    var unlocked: bool
    var swapKeys: map<string, nat>
    var swaps: map<string, Swap>

    ghost function Records(): (b: Books)
      reads this, book, withdrawals, actions
    {
      Books(book.rows, withdrawals.rows, actions.rows, swapKeys, swaps)
    }

    ghost predicate Valid()
      reads this, book, withdrawals, actions
    {
      setup.Lawful() && Consistent(setup, Records()) && Constrained()
    }

    /** The uniqueness constraints of the two tables beyond their keys. */
    ghost predicate Constrained() {
      (forall a, b :: !withdrawals.clash(a, b)) && (forall a, b :: actions.clash(a, b) <==> SameTriple(a, b))
    }

    /** The call did what it is for, or nothing; either way the invariant holds again and nothing that
        was recorded is lost or changed. */
    ghost predicate Did(before: Books, step: Step)
      reads this, book, withdrawals, actions
    {
      Valid() && Performs(setup, before, step, Records()) && Grows(before, Records())
    }

    /** The call was made at the tip of a chain where all stored proofs were right, and they still are. */
    ghost predicate KeptProofs(before: Books, w: World)
      reads this, book, withdrawals, actions
    {
      w.Anchored() && AllSound(w.chain, w.lib, before) ==> AllSound(w.chain, w.lib, Records())
    }

    /** An empty, locked wallet. */
    constructor (setup: Setup)
      requires setup.Lawful()
      ensures Valid() && !unlocked && Records() == Books(map[], map[], map[], map[], map[]) && this.setup == setup
      ensures fresh(book) && fresh(withdrawals) && fresh(actions)
    {
      this.setup := setup;
      book := new AddressBook();
      withdrawals := new Journal((a, b) => false);
      actions := new Journal((a, b) => SameTriple(a, b));
      unlocked, swapKeys, swaps := false, map[], map[];
    }

    lemma NothingDone(before: Books, step: Step)
      requires Valid() && before == Records() && !step.Sweep?
      ensures Did(before, step)
    {
      GrowsIsReflexive(before);
    }

    lemma Done(before: Books, step: Step)
      requires setup.Lawful() && Consistent(setup, before) && Constrained()
      requires Performs(setup, before, step, Records())
      ensures Did(before, step) && (Builds(step) ==> KeptProofs(before, step.w))
    {
      StepKeeps(setup, before, step, Records());
      if Builds(step) && step.w.Anchored() && AllSound(step.w.chain, step.w.lib, before) {
        StepKeepsSound(setup, before, step, Records(), step.w.chain, step.w.lib);
      }
    }

    // ----- addresses -----

    /** A repeated reference gets its address again, locked or not, and uses no further index. */
    method NewDepositAddress(reference: string, registers: bool) returns (r: Result<Record, ServiceError>)
      requires Valid()
      modifies book
      ensures Did(old(Records()), Allocate(Issue(reference, Deposit)))
      ensures !ValidReference(reference) ==> r == Failure(BadRequest) && Records() == old(Records())
      ensures ValidReference(reference) && ReferenceTaken(old(book.rows), reference) ==>
                && Records() == old(Records()) && (r.Success? <==> registers)
                && (r.Success? ==>
                      r.value.reference == reference && exists i :: i in book.rows && book.rows[i] == r.value)
      ensures ValidReference(reference) && !ReferenceTaken(old(book.rows), reference) ==>
                && (r.Success? <==> unlocked && registers)
                && (r.Success? ==>
                      && r.value.index == |old(book.rows)| && r.value.kind == Deposit
                      && r.value.public == setup.keys.public(|old(book.rows)|)
                      && r.value.address == setup.keys.address(setup.keys.public(|old(book.rows)|))
                      && book.rows == old(book.rows)[|old(book.rows)| := r.value])
      ensures r.Success? ==> r.value.reference == reference && ReferenceTaken(book.rows, reference)
      ensures r == Failure(BadRequest) <==> !ValidReference(reference)
    {
      ghost var before := Records();
      NothingDone(before, Allocate(Issue(reference, Deposit)));
      if !ValidReference(reference) {
        return Failure(BadRequest);
      }
      var issued := book.NewDepositAddress(setup.keys, unlocked, registers, reference);
      Done(before, Allocate(Issue(reference, Deposit)));
      return match issued case Success(a) => Success(a) case Failure(e) => Failure(Addressing(e));
    }

    /** The recovery tool, run on this daemon's own tables. */
    method RecoverAddresses(count: nat) returns (r: Result<nat, AddressError>)
      requires Valid()
      modifies book
      ensures Did(old(Records()), Allocate(Recover(count)))
      ensures r.Success? <==> 0 < count <= 10_000_000
      ensures r.Success? ==> book.rows == Performed(setup.keys, old(book.rows), Recover(count))
    {
      ghost var before := Records();
      r := book.RecoverAddresses(setup.keys, count);
      Done(before, Allocate(Recover(count)));
    }

    // ----- withdrawals -----

    /** The checks made before a payment is built. */
    method Refusal(w: World, expectedUnit: string) returns (r: Option<ServiceError>)
      ensures r.None? <==>
                unlocked && w.networkSynced && w.indexTip == w.cs.index && expectedUnit != "" && expectedUnit == w.unit
    {
      if !unlocked {
        return Some(WalletLocked);
      } else if !w.networkSynced {
        return Some(NoPeer);
      } else if w.indexTip != w.cs.index {
        return Some(IndexSyncing);
      } else if expectedUnit == "" || expectedUnit != w.unit {
        return Some(WrongUnit);
      }
      return None;
    }

    /** The answer that needs no new transaction, if there is one. */
    method Answered(w: World, requestID: string, destination: Address, value: nat, fee: nat, expectedUnit: string)
      returns (r: Option<Result<Reply, ServiceError>>)
      ensures r.None? <==>
                && ValidRequestID(requestID) && 0 < value && 0 < fee && requestID !in withdrawals.rows
                && unlocked && w.networkSynced && w.indexTip == w.cs.index && expectedUnit != ""
                && expectedUnit == w.unit
      ensures r.Some? && r.value.Success? ==> !r.value.value.created
      ensures ValidRequestID(requestID) && 0 < value && 0 < fee && requestID in withdrawals.rows ==>
                var e := withdrawals.rows[requestID];
                r == Some(if e.terms.destination == destination && e.terms.amount == value && e.terms.fee == fee
                          then Success(Reply(e.txn.id, false)) else Failure(BoundToOtherTerms))
    {
      if !ValidRequestID(requestID) || value == 0 || fee == 0 {
        return Some(Failure(BadRequest));
      }
      if requestID in withdrawals.rows {
        var e := withdrawals.rows[requestID];
        if e.terms.destination != destination || e.terms.amount != value || e.terms.fee != fee {
          return Some(Failure(BoundToOtherTerms));
        }
        return Some(Success(Reply(e.txn.id, false)));
      }
      var refusal := Refusal(w, expectedUnit);
      return if refusal.Some? then Some(Failure(refusal.value)) else None;
    }

    /** A repeated request gets its transaction again, locked or not and synced or not; a request ID
        used for other terms is refused; neither changes anything. A new request is journaled with
        the payment it pays for. */
    method CreateWithdrawal(w: World, requestID: string, destination: Address, value: nat, fee: nat,
                            expectedUnit: string)
      returns (r: Result<Reply, ServiceError>, ghost taken: seq<Element>)
      requires Valid() && w.Lawful()
      modifies book, withdrawals
      ensures Did(old(Records()), Withdraw(w, requestID, destination, value, fee)) && KeptProofs(old(Records()), w)
      ensures ValidRequestID(requestID) && 0 < value && 0 < fee && requestID in old(withdrawals.rows) ==>
                var e := old(withdrawals.rows)[requestID];
                && Records() == old(Records())
                && r == if e.terms.destination == destination && e.terms.amount == value && e.terms.fee == fee
                        then Success(Reply(e.txn.id, false)) else Failure(BoundToOtherTerms)
      ensures r.Failure? ==> OnlyAddresses(setup, old(Records()), Records())
      ensures r.Success? && r.value.created ==>
                && unlocked && w.networkSynced && w.indexTip == w.cs.index && expectedUnit == w.unit
                && Paid(w, old(Records()), requestID, destination, value, fee, r.value.txid, taken)
      ensures (&& ValidRequestID(requestID) && 0 < value && 0 < fee && requestID !in old(withdrawals.rows)
               && unlocked && w.networkSynced && w.indexTip == w.cs.index && expectedUnit == w.unit != "") ==>
                && PaysIffPossible(r.Success?, setup.keys, w, old(book.rows), value, fee)
                && (r.Success? ==> r.value.created)
    {
      taken := [];
      ghost var before := Records();
      ghost var step := Withdraw(w, requestID, destination, value, fee);
      var answer := Answered(w, requestID, destination, value, fee, expectedUnit);
      if answer.Some? {
        r := answer.value;
      } else {
        r, taken := PayAndJournal(w, requestID, destination, value, fee);
      }
      Done(before, step);
    }

    /** The request's row is new, and its transaction is the payment asked for. */
    ghost predicate Paid(w: World, before: Books, requestID: string, destination: Address, value: nat, fee: nat,
                         txid: TxID, taken: seq<Element>)
      reads this, book, withdrawals, actions
    {
      && requestID in withdrawals.rows && withdrawals.rows[requestID].txn.id == txid
      && Withdrawn(setup, w, before, Records(), requestID, destination, value, fee, withdrawals.rows[requestID].txn,
                   taken)
    }

    method PayAndJournal(w: World, requestID: string, destination: Address, value: nat, fee: nat)
      returns (r: Result<Reply, ServiceError>, ghost taken: seq<Element>)
      requires setup.Lawful() && Issued(setup.keys, book.rows) && Constrained() && w.Lawful()
      requires 0 < value && 0 < fee && requestID !in withdrawals.rows
      modifies book, withdrawals
      ensures r.Failure? ==> OnlyAddresses(setup, old(Records()), Records())
      ensures r.Success? ==>
                r.value.created && Paid(w, old(Records()), requestID, destination, value, fee, r.value.txid, taken)
      ensures unlocked ==> PaysIffPossible(r.Success?, setup.keys, w, old(book.rows), value, fee)
    {
      var built, t := BuildCustodyTransfer(setup.keys, book, unlocked, w, destination, value, fee);
      taken := t;
      if built.Failure? {
        return Failure(built.error), taken;
      }
      var _ := Journaled(w, requestID, WithdrawalTerms(false, destination, value, fee), built.value);
      return Success(Reply(built.value.id, true)), taken;
    }

    /** Stores a signed withdrawal, then submits it and notes how that went. */
    method Journaled(w: World, id: string, terms: WithdrawalTerms, txn: Transaction) returns (ok: bool)
      requires Constrained()
      modifies withdrawals
      ensures ok <==> id !in old(withdrawals.rows)
      ensures withdrawals.rows ==
              if ok then old(withdrawals.rows)[id := Submitted(w, terms, txn)] else old(withdrawals.rows)
    {
      ok := withdrawals.Add(id, terms, txn, w.cs.index);
      var trouble := w.TroubleOf(txn);
      if ok && trouble != None {
        var _ := withdrawals.Update(id, w.cs.index, txn, trouble);
      }
    }

    // ----- DEFEND -----

    /** The automatic renewal: journaled under its own transaction ID before it is submitted. When
        nothing outside fails, it is made exactly when something is due and worth more than the fee, or
        its row is already there. */
    method AutoDefend(w: World) returns (r: Result<Reply, ServiceError>, ghost taken: seq<Element>)
      requires Valid() && w.Lawful()
      modifies book, withdrawals
      ensures Did(old(Records()), Defend(w)) && KeptProofs(old(Records()), w)
      ensures r.Failure? ==> OnlyAddresses(setup, old(Records()), Records())
      ensures r.Success? ==>
                && unlocked && w.networkSynced && w.qdayActive && w.indexTip == w.cs.index
                && Defended(w, old(Records()), r.value.txid, taken)
      ensures unlocked && w.networkSynced && w.qdayActive && w.indexTip == w.cs.index ==>
                RenewsIffDue(r.Success? || r.error == StoreRefused, setup.keys, w, old(book.rows), taken)
      ensures r == Failure(StoreRefused) ==>
                exists txn :: IsRenewal(setup.keys, w, book.rows, txn, taken) &&
                              "defend:" + setup.txText(txn.id) in old(withdrawals.rows)
    {
      taken := [];
      ghost var before := Records();
      if !unlocked || !w.networkSynced || !w.qdayActive || w.indexTip != w.cs.index {
        Done(before, Defend(w));
        return Failure(NotActive), taken;
      }
      r, taken := Renew(w);
      Done(before, Defend(w));
    }

    /** The renewal's row is new, and its transaction is the renewal. */
    ghost predicate Defended(w: World, before: Books, txid: TxID, taken: seq<Element>)
      reads this, book, withdrawals, actions
    {
      var id := DefendID(setup, txid);
      && id in withdrawals.rows && withdrawals.rows[id].txn.id == txid
      && Renewed(setup, w, before, Records(), withdrawals.rows[id].txn, taken)
    }

    method Renew(w: World) returns (r: Result<Reply, ServiceError>, ghost taken: seq<Element>)
      requires setup.Lawful() && Issued(setup.keys, book.rows) && Constrained() && w.Lawful()
      modifies book, withdrawals
      ensures r.Failure? ==> OnlyAddresses(setup, old(Records()), Records())
      ensures r.Success? ==> Defended(w, old(Records()), r.value.txid, taken)
      ensures unlocked ==>
                RenewsIffDue(r.Success? || r.error == StoreRefused, setup.keys, w, old(book.rows), taken)
      ensures r == Failure(StoreRefused) ==>
                exists txn :: IsRenewal(setup.keys, w, book.rows, txn, taken) &&
                              "defend:" + setup.txText(txn.id) in old(withdrawals.rows)
    {
      ghost var before := Records();
      var built, t := BuildDefend(setup.keys, book, unlocked, w);
      taken := t;
      if built.Failure? {
        return Failure(built.error), taken;
      }
      r := JournalDefend(w, before, built.value, taken);
    }

    method JournalDefend(w: World, ghost before: Books, txn: Transaction, ghost taken: seq<Element>)
      returns (r: Result<Reply, ServiceError>)
      requires Constrained() && OnlyAddresses(setup, before, Records()) && w.valid(txn)
      requires IsRenewal(setup.keys, w, book.rows, txn, taken)
      modifies withdrawals
      ensures r.Failure? ==> r.error == StoreRefused && Records() == old(Records())
      ensures r.Failure? ==> "defend:" + setup.txText(txn.id) in old(withdrawals.rows)
      ensures r.Success? ==> Defended(w, before, r.value.txid, taken)
    {
      var terms := WithdrawalTerms(true, txn.outputs[0].address, txn.outputs[0].value, DEFAULT_FEE);
      var ok := Journaled(w, DefendID(setup, txn.id), terms, txn);
      return if ok then Success(Reply(txn.id, true)) else Failure(StoreRefused);
    }

    // ----- swap sessions -----

    /** A session's keys are made once; a repeated call returns them, locked or not. */
    method CreateSwapKeys(swapID: string) returns (r: Result<nat, ServiceError>)
      requires Valid()
      modifies this
      ensures Did(old(Records()), MakeKeys(swapID)) && unlocked == old(unlocked)
      ensures ValidRequestID(swapID) && swapID in old(swapKeys) ==>
                Records() == old(Records()) && r == Success(old(swapKeys)[swapID])
      ensures ValidRequestID(swapID) && swapID !in old(swapKeys) ==>
                if unlocked then r == Success(setup.swapKey(swapID))
                  && Records() == old(Records()).(swapKeys := old(swapKeys)[swapID := setup.swapKey(swapID)])
                else r == Failure(WalletLocked) && Records() == old(Records())
      ensures !ValidRequestID(swapID) ==> r == Failure(BadRequest) && Records() == old(Records())
      ensures r == Failure(BadRequest) <==> !ValidRequestID(swapID)
    {
      ghost var before := Records();
      NothingDone(before, MakeKeys(swapID));
      if !ValidRequestID(swapID) {
        return Failure(BadRequest);
      }
      if swapID in swapKeys {
        return Success(swapKeys[swapID]);
      }
      if !unlocked {
        return Failure(WalletLocked);
      }
      swapKeys := swapKeys[swapID := setup.swapKey(swapID)];
      StepKeeps(setup, before, MakeKeys(swapID), Records());
      return Success(swapKeys[swapID]);
    }

    /** A session is bound to one contract for good: the same registration again succeeds, any other
        is refused, and neither changes anything. */
    method RegisterSwap(swapID: string, role: Role, counterparty: nat, secretHash: Hash, refundHeight: nat,
                        registers: bool)
      returns (r: Result<bool, ServiceError>)
      requires Valid()
      modifies this
      ensures Did(old(Records()), Register(swapID, role, counterparty, secretHash, refundHeight))
      ensures unlocked == old(unlocked)
      ensures var swap := Requested(setup, old(swapKeys), swapID, role, counterparty, secretHash, refundHeight);
              if !ValidRequestID(swapID) || swap.None? then r.Failure? && Records() == old(Records())
              else if swapID in old(swaps) then
                && Records() == old(Records())
                && r == (if old(swaps)[swapID] != swap.value then Failure(BoundToOtherTerms)
                         else if registers then Success(false) else Failure(StoreRefused))
              else if refundHeight == 0 || exists id ::
                        id in old(swaps) && old(swaps)[id].address == swap.value.address then
                r == Failure(StoreRefused) && Records() == old(Records())
              else
                && Records() == old(Records()).(swaps := old(swaps)[swapID := swap.value])
                && r == (if registers then Success(true) else Failure(StoreRefused))
      ensures r.Success? || (swapID in swaps && swapID !in old(swaps)) ==>
                && swapID in swaps && swapID in swapKeys
                && var swap := swaps[swapID];
                && swap.role == role && swap.contract.secretHash == secretHash
                && swap.contract.refundHeight == refundHeight
                && (role == Recipient ==> && swap.contract.recipient == swapKeys[swapID]
                                          && swap.contract.refund == counterparty)
                && (role == RefundOwner ==> && swap.contract.recipient == counterparty
                                            && swap.contract.refund == swapKeys[swapID])
                && setup.crypto.contractPolicy(swap.contract).Some?
                && swap.address == setup.crypto.address(setup.crypto.contractPolicy(swap.contract).value)
    {
      ghost var before := Records();
      ghost var step := Register(swapID, role, counterparty, secretHash, refundHeight);
      NothingDone(before, step);
      if !ValidRequestID(swapID) {
        return Failure(BadRequest);
      }
      var wanted := Requested(setup, swapKeys, swapID, role, counterparty, secretHash, refundHeight);
      if wanted.None? {
        return Failure(NoSuchSwap);
      }
      var swap := wanted.value;
      if swapID in swaps {
        if swaps[swapID] != swap {
          return Failure(BoundToOtherTerms);
        }
        return if registers then Success(false) else Failure(StoreRefused);
      }
      if refundHeight == 0 || exists id :: id in swaps && swaps[id].address == swap.address {
        return Failure(StoreRefused);
      }
      swaps := swaps[swapID := swap];
      StepKeeps(setup, before, step, Records());
      return if registers then Success(true) else Failure(StoreRefused);
    }

    // ----- swap actions -----

    /** The journal entry of a (swap, kind, output) triple: the row under the triple's key, if any. */
    method FindAction(swapID: string, kind: ActionKind, output: Option<OutputID>)
      returns (r: Option<Entry<ActionTerms>>)
      requires Valid() && ProperTriple(kind, output)
      ensures var key := ActionID(setup, swapID, kind, output);
              r == if key in actions.rows then Some(actions.rows[key]) else None
      ensures r.Some? ==> Names(r.value.terms, swapID, kind, output)
      ensures r.None? ==> Free(swapID, kind, output)
    {
      TripleIffKey(setup, Records(), swapID, kind, output);
      if id :| id in actions.rows && Names(actions.rows[id].terms, swapID, kind, output) {
        return Some(actions.rows[id]);
      }
      return None;
    }

    /** No row has this triple, nor its key. */
    ghost predicate Free(swapID: string, kind: ActionKind, output: Option<OutputID>)
      reads actions
    {
      && ActionID(setup, swapID, kind, output) !in actions.rows
      && forall id :: id in actions.rows ==> !Names(actions.rows[id].terms, swapID, kind, output)
    }

    /** Stores a signed swap action whose triple is free, then submits it and notes how that went. Since
        the records were `before`, only an address has been used up. */
    method JournaledAction(w: World, ghost before: Books, terms: ActionTerms, txn: Transaction)
      requires Constrained() && OnlyAddresses(setup, before, Records())
      requires ProperTriple(terms.kind, terms.output) && terms.swapID in swaps
      requires MayAct(swaps[terms.swapID].role, terms.kind) && w.valid(txn)
      requires Free(terms.swapID, terms.kind, terms.output)
      modifies actions
      ensures NewAction(setup, w, before, Records(), terms, txn)
    {
      var id := ActionID(setup, terms.swapID, terms.kind, terms.output);
      var _ := actions.Add(id, terms, txn, w.cs.index);
      var _ := actions.Update(id, w.cs.index, txn, w.TroubleOf(txn));
    }

    /** The entry that answers a repeated funding request. */
    method FundAnswered(w: World, swapID: string, value: nat, fee: nat, expectedUnit: string)
      returns (r: Option<Result<Reply, ServiceError>>)
      requires Valid()
      ensures r.None? <==>
                && 0 < value && 0 < fee && swapID in swaps && unlocked && w.networkSynced && w.indexTip == w.cs.index
                && w.v1Active
                && w.cs.index.height + 1 < swaps[swapID].contract.refundHeight && expectedUnit != ""
                && expectedUnit == w.unit
                && ActionID(setup, swapID, FundSwap, None) !in actions.rows
      ensures r.None? ==> Free(swapID, FundSwap, None)
      ensures r.Some? && r.value.Success? ==> !r.value.value.created
      ensures swapID in swaps && ActionID(setup, swapID, FundSwap, None) in actions.rows && 0 < value && 0 < fee ==>
                var e := actions.rows[ActionID(setup, swapID, FundSwap, None)];
                r == Some(if e.terms.amount == value && e.terms.fee == fee
                  && e.terms.destination == swaps[swapID].address
                          then Success(Reply(e.txn.id, false)) else Failure(BoundToOtherTerms))
    {
      if value == 0 || fee == 0 {
        return Some(Failure(BadRequest));
      }
      if swapID !in swaps {
        return Some(Failure(NoSuchSwap));
      }
      var existing := FindAction(swapID, FundSwap, None);
      if existing.Some? {
        var e := existing.value;
        if e.terms.amount != value || e.terms.fee != fee || e.terms.destination != swaps[swapID].address {
          return Some(Failure(BoundToOtherTerms));
        }
        return Some(Success(Reply(e.txn.id, false)));
      }
      if !unlocked {
        return Some(Failure(WalletLocked));
      } else if !w.networkSynced {
        return Some(Failure(NoPeer));
      } else if w.indexTip != w.cs.index {
        return Some(Failure(IndexSyncing));
      } else if !w.v1Active {
        return Some(Failure(NotActive));
      } else if w.cs.index.height + 1 >= swaps[swapID].contract.refundHeight {
        return Some(Failure(RefundActive));
      } else if expectedUnit == "" || expectedUnit != w.unit {
        return Some(Failure(WrongUnit));
      }
      return None;
    }

    /** A session is funded from custody at most once, never at a height whose next block could
        already refund; a repeated request gets its transaction again. */
    method Fund(w: World, swapID: string, value: nat, fee: nat, expectedUnit: string)
      returns (r: Result<Reply, ServiceError>, ghost taken: seq<Element>)
      requires Valid() && w.Lawful()
      modifies book, actions
      ensures Did(old(Records()), Step.Fund(w, swapID, value, fee)) && KeptProofs(old(Records()), w)
      ensures (&& swapID in swaps && 0 < value && 0 < fee
               && ActionID(setup, swapID, FundSwap, None) in old(actions.rows)) ==>
                var e := old(actions.rows)[ActionID(setup, swapID, FundSwap, None)];
                && Records() == old(Records())
                && r == if e.terms.amount == value && e.terms.fee == fee && e.terms.destination == swaps[swapID].address
                        then Success(Reply(e.txn.id, false)) else Failure(BoundToOtherTerms)
      ensures r.Failure? ==> OnlyAddresses(setup, old(Records()), Records())
      ensures r.Success? && r.value.created ==>
                && unlocked && w.networkSynced && w.indexTip == w.cs.index && w.v1Active && expectedUnit == w.unit
                && FundedBy(w, old(Records()), swapID, value, fee, r.value.txid, taken)
      ensures (&& 0 < value && 0 < fee && swapID in swaps
               && ActionID(setup, swapID, FundSwap, None) !in old(actions.rows)
               && unlocked && w.networkSynced && w.indexTip == w.cs.index && w.v1Active && expectedUnit == w.unit != ""
               && w.cs.index.height + 1 < swaps[swapID].contract.refundHeight) ==>
                && PaysIffPossible(r.Success?, setup.keys, w, old(book.rows), value, fee)
                && (r.Success? ==> r.value.created)
    {
      taken := [];
      ghost var before := Records();
      var answer := FundAnswered(w, swapID, value, fee, expectedUnit);
      if answer.Some? {
        r := answer.value;
      } else {
        r, taken := FundAndJournal(w, swapID, value, fee);
      }
      FundDone(before, w, swapID, value, fee, if r.Success? then r.value.txid else 0, taken);
    }

    lemma FundDone(before: Books, w: World, swapID: string, value: nat, fee: nat, txid: TxID, taken: seq<Element>)
      requires setup.Lawful() && Consistent(setup, before) && Constrained()
      requires OnlyAddresses(setup, before, Records()) || FundedBy(w, before, swapID, value, fee, txid, taken)
      ensures Did(before, Step.Fund(w, swapID, value, fee)) && KeptProofs(before, w)
    {
      Done(before, Step.Fund(w, swapID, value, fee));
    }

    /** The fund row is new, and its transaction is the payment to the contract. */
    ghost predicate FundedBy(w: World, before: Books, swapID: string, value: nat, fee: nat, txid: TxID,
                             taken: seq<Element>)
      reads this, book, withdrawals, actions
    {
      var key := ActionID(setup, swapID, FundSwap, None);
      && key in actions.rows && actions.rows[key].txn.id == txid
      && Funded(setup, w, before, Records(), swapID, value, fee, actions.rows[key].txn, taken)
    }

    method FundAndJournal(w: World, swapID: string, value: nat, fee: nat)
      returns (r: Result<Reply, ServiceError>, ghost taken: seq<Element>)
      requires setup.Lawful() && Issued(setup.keys, book.rows) && Constrained() && w.Lawful()
      requires 0 < value && 0 < fee && swapID in swaps && Free(swapID, FundSwap, None)
      requires w.cs.index.height + 1 < swaps[swapID].contract.refundHeight
      modifies book, actions
      ensures r.Failure? ==> OnlyAddresses(setup, old(Records()), Records())
      ensures r.Success? ==>
                r.value.created && FundedBy(w, old(Records()), swapID, value, fee, r.value.txid, taken)
      ensures unlocked ==> PaysIffPossible(r.Success?, setup.keys, w, old(book.rows), value, fee)
    {
      ghost var before := Records();
      var built, t := BuildCustodyTransfer(setup.keys, book, unlocked, w, swaps[swapID].address, value, fee);
      taken := t;
      if built.Failure? {
        return Failure(built.error), taken;
      }
      JournalFund(w, before, swapID, value, fee, built.value, taken);
      return Success(Reply(built.value.id, true)), taken;
    }

    method JournalFund(w: World, ghost before: Books, swapID: string, value: nat, fee: nat, txn: Transaction,
                       ghost taken: seq<Element>)
      requires Constrained() && OnlyAddresses(setup, before, Records())
      requires swapID in swaps && w.valid(txn) && w.cs.index.height + 1 < swaps[swapID].contract.refundHeight
      requires Free(swapID, FundSwap, None)
      requires IsPayment(setup.keys, w, book.rows, txn, taken, swaps[swapID].address, value, fee)
      modifies actions
      ensures FundedBy(w, before, swapID, value, fee, txn.id, taken)
    {
      JournaledAction(w, before, ActionTerms(swapID, FundSwap, None, swaps[swapID].address, value, fee), txn);
    }

    method SpendAnswered(w: World, swapID: string, id: OutputID, fee: nat, request: SpendRequest)
      returns (r: Option<Result<Reply, ServiceError>>)
      requires Valid()
      ensures r.None? <==>
                && 0 < fee && swapID in swaps && swaps[swapID].role == RoleFor(request) && unlocked
                && swapID in swapKeys
                && setup.swapKey(swapID) == swapKeys[swapID]
                && w.networkSynced && w.indexTip == w.cs.index && w.v1Active
                && (request.RefundAfter? ==> swaps[swapID].contract.refundHeight <= w.cs.index.height)
                && ActionID(setup, swapID, KindOf(request), Some(id)) !in actions.rows
      ensures r.None? ==> Free(swapID, KindOf(request), Some(id))
      ensures r.Some? && r.value.Success? ==> !r.value.value.created
      ensures ActionID(setup, swapID, KindOf(request), Some(id)) in actions.rows && 0 < fee ==>
                var e := actions.rows[ActionID(setup, swapID, KindOf(request), Some(id))];
                r == Some(if e.terms.fee == fee && SameSecret(e.txn, request) then Success(Reply(e.txn.id, false))
                          else Failure(BoundToOtherTerms))
    {
      TripleIffKey(setup, Records(), swapID, KindOf(request), Some(id));
      if fee == 0 {
        return Some(Failure(BadRequest));
      }
      if swapID !in swaps {
        return Some(Failure(NoSuchSwap));
      }
      if swaps[swapID].role != RoleFor(request) {
        return Some(Failure(WrongRole));
      }
      var existing := FindAction(swapID, KindOf(request), Some(id));
      if existing.Some? {
        var e := existing.value;
        return Some(if e.terms.fee == fee && SameSecret(e.txn, request) then Success(Reply(e.txn.id, false))
          else Failure(BoundToOtherTerms));
      }
      if !unlocked {
        return Some(Failure(WalletLocked));
      } else if setup.swapKey(swapID) != swapKeys[swapID] {
        return Some(Failure(KeyMismatch));
      } else if !w.networkSynced {
        return Some(Failure(NoPeer));
      } else if w.indexTip != w.cs.index {
        return Some(Failure(IndexSyncing));
      } else if !w.v1Active {
        return Some(Failure(NotActive));
      } else if request.RefundAfter? && w.cs.index.height < swaps[swapID].contract.refundHeight {
        return Some(Failure(RefundLocked));
      }
      return None;
    }

    /** Claims or refunds one contract output, once: the recipient claims, the refund owner refunds
        and only from the refund height on; a repeated request gets its transaction again. */
    method Spend(w: World, swapID: string, id: OutputID, fee: nat, request: SpendRequest)
      returns (r: Result<Reply, ServiceError>, ghost parent: Element)
      requires Valid() && w.Lawful()
      modifies book, actions
      ensures Did(old(Records()), Step.Spend(w, swapID, id, fee, request)) && KeptProofs(old(Records()), w)
      ensures ActionID(setup, swapID, KindOf(request), Some(id)) in old(actions.rows) && 0 < fee ==>
                var e := old(actions.rows)[ActionID(setup, swapID, KindOf(request), Some(id))];
                && Records() == old(Records())
                && r == if e.terms.fee == fee && SameSecret(e.txn, request) then Success(Reply(e.txn.id, false))
                        else Failure(BoundToOtherTerms)
      ensures r.Failure? ==> OnlyAddresses(setup, old(Records()), Records())
      ensures r.Success? && r.value.created ==>
                && unlocked && w.networkSynced && w.indexTip == w.cs.index && w.v1Active
                && SpentBy(w, old(Records()), swapID, id, fee, request, r.value.txid, parent)
      ensures (&& 0 < fee && swapID in swaps && swaps[swapID].role == RoleFor(request)
               && setup.swapKey(swapID) == swapKeys[swapID]
               && ActionID(setup, swapID, KindOf(request), Some(id)) !in old(actions.rows)
               && unlocked && w.networkSynced && w.indexTip == w.cs.index && w.v1Active
               && (request.RefundAfter? ==> swaps[swapID].contract.refundHeight <= w.cs.index.height)) ==>
                && SpendsIffRipe(r.Success?, w, swaps[swapID].address, swaps[swapID].contract, id, fee, request)
                && (r.Success? ==> r.value.created)
    {
      parent := Element(id, 0, 0, 0);
      ghost var before := Records();
      var answer := SpendAnswered(w, swapID, id, fee, request);
      if answer.Some? {
        r := answer.value;
      } else {
        r, parent := SpendAndJournal(w, swapID, id, fee, request);
      }
      SpendDone(before, w, swapID, id, fee, request, if r.Success? then r.value.txid else 0, parent);
    }

    lemma SpendDone(before: Books, w: World, swapID: string, id: OutputID, fee: nat, request: SpendRequest, txid: TxID,
                    parent: Element)
      requires setup.Lawful() && Consistent(setup, before) && Constrained()
      requires || OnlyAddresses(setup, before, Records())
               || SpentBy(w, before, swapID, id, fee, request, txid, parent)
      ensures Did(before, Step.Spend(w, swapID, id, fee, request)) && KeptProofs(before, w)
    {
      Done(before, Step.Spend(w, swapID, id, fee, request));
    }

    /** The claim or refund row is new, and its transaction is the spend it says. */
    ghost predicate SpentBy(w: World, before: Books, swapID: string, id: OutputID, fee: nat, request: SpendRequest,
                            txid: TxID, parent: Element)
      reads this, book, withdrawals, actions
    {
      var key := ActionID(setup, swapID, KindOf(request), Some(id));
      && key in actions.rows && actions.rows[key].txn.id == txid
      && SpentOnce(setup, w, before, Records(), swapID, id, fee, request, actions.rows[key].txn, parent)
    }

    method SpendAndJournal(w: World, swapID: string, id: OutputID, fee: nat, request: SpendRequest)
      returns (r: Result<Reply, ServiceError>, ghost parent: Element)
      requires setup.Lawful() && Issued(setup.keys, book.rows) && Constrained() && w.Lawful()
      requires swapID in swaps && swaps[swapID].role == RoleFor(request) && Free(swapID, KindOf(request), Some(id))
      requires request.RefundAfter? ==> swaps[swapID].contract.refundHeight <= w.cs.index.height
      modifies book, actions
      ensures r.Failure? ==> OnlyAddresses(setup, old(Records()), Records())
      ensures r.Success? ==>
                r.value.created && SpentBy(w, old(Records()), swapID, id, fee, request, r.value.txid, parent)
      ensures unlocked ==>
                SpendsIffRipe(r.Success?, w, swaps[swapID].address, swaps[swapID].contract, id, fee, request)
    {
      ghost var before := Records();
      var swap := swaps[swapID];
      var built, p := BuildSwapSpend(setup.keys, book, unlocked, w, swap.address, swap.contract, id, fee, request);
      parent := p;
      assert OnlyAddresses(setup, before, Records());
      if built.Failure? {
        return Failure(built.error), parent;
      }
      JournalSpend(w, before, swapID, id, fee, request, built.value, parent);
      return Success(Reply(built.value.id, true)), parent;
    }

    method JournalSpend(w: World, ghost before: Books, swapID: string, id: OutputID, fee: nat, request: SpendRequest,
                        txn: Transaction, ghost parent: Element)
      requires Constrained() && OnlyAddresses(setup, before, Records())
      requires swapID in swaps && swaps[swapID].role == RoleFor(request) && w.valid(txn)
      requires request.RefundAfter? ==> swaps[swapID].contract.refundHeight <= w.cs.index.height
      requires Free(swapID, KindOf(request), Some(id))
      requires IsSwapSpend(w, book.rows, swaps[swapID].address, swaps[swapID].contract, txn, id, fee, request, parent)
      modifies actions
      ensures SpentBy(w, before, swapID, id, fee, request, txn.id, parent)
    {
      var destination := txn.outputs[0];
      JournaledAction(w, before,
        ActionTerms(swapID, KindOf(request), Some(id), destination.address, destination.value, fee), txn);
    }

    // ----- rebroadcast -----

    /** One pass over both journals, at the same tip. */
    method Rebroadcast(node: Node)
      returns (sentWithdrawals: map<string, Transaction>, sentActions: map<string, Transaction>)
      requires Valid() && node.WellFormed()
      modifies withdrawals, actions
      ensures Did(old(Records()), Sweep(node, sentWithdrawals, sentActions))
      ensures AllSound(node.chain, node.lib, old(Records())) ==> AllSound(node.chain, node.lib, Records())
    {
      ghost var before := Records();
      sentWithdrawals := withdrawals.Rebroadcast(node);
      sentActions := actions.Rebroadcast(node);
      SweepKeeps(setup, before, Records(), node, sentWithdrawals, sentActions);
    }

    method Unlock()
      modifies this`unlocked
      ensures unlocked
    {
      unlocked := true;
    }

    method Lock()
      modifies this`unlocked
      ensures !unlocked
    {
      unlocked := false;
    }
  }
}
