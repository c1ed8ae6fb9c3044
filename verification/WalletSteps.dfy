/** What one call of the service does to the records. */
module WalletSteps {
  import opened Wrappers
  import opened Ledger
  import opened Chains
  import opened Proofs
  import opened Journals
  import opened JournalRuns
  import opened Addresses
  import opened Selection
  import opened SwapPolicies
  import opened Building
  import opened Records

  /** The calls, with what they meet outside the records. Address allocations and recoveries are
      operations on the address table. */
  datatype Step =
    | Allocate(op: Operation)
    | Withdraw(w: World, requestID: string, destination: Address, value: nat, fee: nat)
    | Defend(w: World)
    | MakeKeys(swapID: string)
    | Register(swapID: string, role: Role, counterparty: nat, secretHash: Hash, refundHeight: nat)
    | Fund(w: World, swapID: string, value: nat, fee: nat)
    | Spend(w: World, swapID: string, id: OutputID, fee: nat, request: SpendRequest)
    | Sweep(node: Node, withdrawals: map<string, Transaction>, actions: map<string, Transaction>)

  // ----- effects -----

  /** A failed build may still have used up a change address; nothing else changes. */
  ghost predicate OnlyAddresses(s: Setup, b: Books, b': Books) {
    b' == b.(rows := b'.rows) && MayIssue(s.keys, b.rows, b'.rows)
  }

  /** A new row: unconfirmed, based on the tip it was built at. */
  function Submitted<T>(w: World, terms: T, txn: Transaction): (r: Entry<T>) {
    Entry(terms, txn, w.cs.index, None, w.TroubleOf(txn))
  }

  ghost predicate NewWithdrawal(s: Setup, w: World, b: Books, b': Books, id: string, terms: WithdrawalTerms,
                                txn: Transaction) {
    && id !in b.withdrawals && w.valid(txn) && MayIssue(s.keys, b.rows, b'.rows)
    && b' == b.(rows := b'.rows, withdrawals := b.withdrawals[id := Submitted(w, terms, txn)])
  }

  /** A new row for the request, with a payment of exactly these terms. */
  ghost predicate Withdrawn(s: Setup, w: World, b: Books, b': Books, requestID: string, destination: Address,
                            value: nat, fee: nat, txn: Transaction, taken: seq<Element>) {
    && NewWithdrawal(s, w, b, b', requestID, WithdrawalTerms(false, destination, value, fee), txn)
    && IsPayment(s.keys, w, b'.rows, txn, taken, destination, value, fee)
  }

  /** A new row under the renewal's own ID. */
  ghost predicate Renewed(s: Setup, w: World, b: Books, b': Books, txn: Transaction, taken: seq<Element>) {
    && IsRenewal(s.keys, w, b'.rows, txn, taken)
    && NewWithdrawal(s, w, b, b', DefendID(s, txn.id),
                     WithdrawalTerms(true, txn.outputs[0].address, txn.outputs[0].value, DEFAULT_FEE), txn)
  }

  function KeyOf(s: Setup, t: ActionTerms): (r: string) {
    ActionID(s, t.swapID, t.kind, t.output)
  }

  ghost predicate NewAction(s: Setup, w: World, b: Books, b': Books, terms: ActionTerms, txn: Transaction) {
    && ProperTriple(terms.kind, terms.output) && terms.swapID in b.swaps
    && MayAct(b.swaps[terms.swapID].role, terms.kind)
    && KeyOf(s, terms) !in b.actions && w.valid(txn) && MayIssue(s.keys, b.rows, b'.rows)
    && b' == b.(rows := b'.rows, actions := b.actions[KeyOf(s, terms) := Submitted(w, terms, txn)])
  }

  /** A new fund row whose transaction pays the contract, before the next block could refund it. */
  ghost predicate Funded(s: Setup, w: World, b: Books, b': Books, swapID: string, value: nat, fee: nat,
                         txn: Transaction, taken: seq<Element>) {
    && swapID in b.swaps && w.cs.index.height + 1 < b.swaps[swapID].contract.refundHeight
    && NewAction(s, w, b, b', ActionTerms(swapID, FundSwap, None, b.swaps[swapID].address, value, fee), txn)
    && IsPayment(s.keys, w, b'.rows, txn, taken, b.swaps[swapID].address, value, fee)
  }

  function KindOf(request: SpendRequest): (r: ActionKind) {
    match request
    case ClaimWith(_) => ClaimSwap
    case RefundAfter => RefundSwap
  }

  /** The stored transaction of a claim shows the secret of this request; a refund has none. */
  predicate SameSecret(txn: Transaction, request: SpendRequest): (r: bool)
    ensures request == RefundAfter ==> r
    ensures r && request.ClaimWith? ==>
              && |txn.inputs| == 1 && 0 < |txn.inputs[0].preimages|
              && txn.inputs[0].preimages[|txn.inputs[0].preimages| - 1] == request.secret
    ensures !r ==> |txn.inputs| != 1 || txn.inputs[0].preimages == [] ||
                   txn.inputs[0].preimages[|txn.inputs[0].preimages| - 1] != request.secret
  {
    request.ClaimWith? ==> StoredClaimSecret(txn) == Some(request.secret)
  }

  function RoleFor(request: SpendRequest): (r: Role) {
    match request
    case ClaimWith(_) => Recipient
    case RefundAfter => RefundOwner
  }

  /** A new claim or refund row whose transaction is the spend it says; a refund only from the refund
      height on. */
  ghost predicate SpentOnce(s: Setup, w: World, b: Books, b': Books, swapID: string, id: OutputID, fee: nat,
                            request: SpendRequest, txn: Transaction, parent: Element) {
    && swapID in b.swaps && b.swaps[swapID].role == RoleFor(request)
    && (request.RefundAfter? ==> b.swaps[swapID].contract.refundHeight <= w.cs.index.height)
    && IsSwapSpend(w, b'.rows, b.swaps[swapID].address, b.swaps[swapID].contract, txn, id, fee, request, parent)
    && NewAction(s, w, b, b', ActionTerms(swapID, KindOf(request), Some(id), txn.outputs[0].address,
                                          txn.outputs[0].value, fee), txn)
  }

  /** The swap a registration asks for, if its session has keys and the terms make a contract. */
  function Requested(s: Setup, keys: map<string, nat>, swapID: string, role: Role, counterparty: nat, secretHash: Hash,
                     refundHeight: nat): (r: Option<Swap>) {
    if swapID !in keys then None
    else
      var contract := match role
        case Recipient => Contract(keys[swapID], counterparty, secretHash, refundHeight)
        case RefundOwner => Contract(counterparty, keys[swapID], secretHash, refundHeight);
      match s.ContractAddress(contract)
      case None => None
      case Some(a) => Some(Swap(role, contract, a))
  }

  ghost predicate Registered(b: Books, b': Books, swapID: string, swap: Swap) {
    && swapID !in b.swaps && (forall id :: id in b.swaps ==> b.swaps[id].address != swap.address)
    && b' == b.(swaps := b.swaps[swapID := swap])
  }

  // ----- field by field -----

  /** A new withdrawal row: its transaction as built, unconfirmed, based on the tip, with the first trouble
      its submission met; no other row changes. */
  lemma NewWithdrawalInFields(s: Setup, w: World, b: Books, b': Books, id: string, terms: WithdrawalTerms,
                              txn: Transaction)
    requires NewWithdrawal(s, w, b, b', id, terms, txn)
    ensures id !in b.withdrawals && b'.withdrawals.Keys == b.withdrawals.Keys + {id}
    ensures forall i :: i in b.withdrawals ==> b'.withdrawals[i] == b.withdrawals[i]
    ensures b'.actions == b.actions && b'.swapKeys == b.swapKeys && b'.swaps == b.swaps
    ensures var e := b'.withdrawals[id];
            && e.terms == terms && e.txn == txn && e.basis == w.cs.index && e.confirmed == None
            && (e.lastError == None <==> w.poolAccepts(txn) && w.broadcasts(txn))
            && (e.lastError == Some(Pooling) <==> !w.poolAccepts(txn))
  {
  }

  /** A new action row under the textual key of its swap, kind and output. */
  lemma NewActionInFields(s: Setup, w: World, b: Books, b': Books, terms: ActionTerms, txn: Transaction)
    returns (key: string)
    requires NewAction(s, w, b, b', terms, txn)
    ensures match terms.kind
            case FundSwap => terms.output == None && key == terms.swapID + ":fund"
            case ClaimSwap => terms.output.Some? && key == terms.swapID + ":claim:" + s.outputText(terms.output.value)
            case RefundSwap => terms.output.Some? && key == terms.swapID + ":refund:" + s.outputText(terms.output.value)
    ensures key !in b.actions && b'.actions.Keys == b.actions.Keys + {key}
    ensures forall i :: i in b.actions ==> b'.actions[i] == b.actions[i]
    ensures b'.withdrawals == b.withdrawals && b'.swapKeys == b.swapKeys && b'.swaps == b.swaps
    ensures var e := b'.actions[key];
            && e.terms == terms && e.txn == txn && e.basis == w.cs.index && e.confirmed == None
            && (e.lastError == None <==> w.poolAccepts(txn) && w.broadcasts(txn))
            && (e.lastError == Some(Pooling) <==> !w.poolAccepts(txn))
  {
    key := KeyOf(s, terms);
  }

  /** A claim is journaled for the recipient only, a refund for the refund owner only and from the refund height
      on, each with its output and what it pays to whom. */
  lemma SpentOnceInFields(s: Setup, w: World, b: Books, b': Books, swapID: string, id: OutputID, fee: nat,
                          request: SpendRequest, txn: Transaction, parent: Element) returns (key: string)
    requires SpentOnce(s, w, b, b', swapID, id, fee, request, txn, parent)
    ensures match request
            case ClaimWith(_) => key == swapID + ":claim:" + s.outputText(id)
            case RefundAfter => key == swapID + ":refund:" + s.outputText(id)
    ensures swapID in b.swaps && key !in b.actions && key in b'.actions && b'.actions[key].txn == txn
    ensures var swap, terms := b.swaps[swapID], b'.actions[key].terms;
            && terms.swapID == swapID && terms.output == Some(id) && terms.fee == fee == txn.minerFee
            && (request.ClaimWith? ==> terms.kind == ClaimSwap && swap.role == Recipient)
            && (request.RefundAfter? ==> && terms.kind == RefundSwap && swap.role == RefundOwner
                                         && swap.contract.refundHeight <= w.cs.index.height)
            && parent.id == id && parent in w.swapOutputs(swap.address)
            && txn.outputs == [Output(terms.destination, terms.amount)]
  {
    key := NewActionInFields(s, w, b, b', ActionTerms(swapID, KindOf(request), Some(id), txn.outputs[0].address,
                                                      txn.outputs[0].value, fee), txn);
    assert txn.outputs == [txn.outputs[0]];
  }

  /** The swap a registration stores: its own keys on the side its role says, the counterparty's on the other,
      the hash and height as given, and the address of the policy these make. */
  lemma RequestedInFields(s: Setup, keys: map<string, nat>, swapID: string, role: Role, counterparty: nat,
                          secretHash: Hash, refundHeight: nat)
    ensures var r := Requested(s, keys, swapID, role, counterparty, secretHash, refundHeight);
            && (r.None? ==>
                  || swapID !in keys
                  || (role == Recipient &&
                      s.crypto.contractPolicy(Contract(keys[swapID], counterparty, secretHash, refundHeight)).None?)
                  || (role == RefundOwner &&
                      s.crypto.contractPolicy(Contract(counterparty, keys[swapID], secretHash, refundHeight)).None?))
            && (r.Some? ==>
                  && swapID in keys && r.value.role == role
                  && r.value.contract.secretHash == secretHash && r.value.contract.refundHeight == refundHeight
                  && (role == Recipient ==> r.value.contract.recipient == keys[swapID]
                                            && r.value.contract.refund == counterparty)
                  && (role == RefundOwner ==> r.value.contract.recipient == counterparty
                                              && r.value.contract.refund == keys[swapID])
                  && s.crypto.contractPolicy(r.value.contract).Some?
                  && r.value.address == s.crypto.address(s.crypto.contractPolicy(r.value.contract).value))
  {
  }

  /** What a call may do to the records: what it is for, or nothing but use up an address. */
  ghost predicate Performs(s: Setup, b: Books, step: Step, b': Books) {
    match step
    case Allocate(op) => b' == b || b' == b.(rows := Performed(s.keys, b.rows, op))
    case Withdraw(w, requestID, destination, value, fee) =>
      || OnlyAddresses(s, b, b')
      || exists txn, taken :: Withdrawn(s, w, b, b', requestID, destination, value, fee, txn, taken)
    case Defend(w) =>
      OnlyAddresses(s, b, b') || exists txn, taken :: Renewed(s, w, b, b', txn, taken)
    case MakeKeys(id) => b' == b || (id !in b.swapKeys && b' == b.(swapKeys := b.swapKeys[id := s.swapKey(id)]))
    case Register(id, role, counterparty, secretHash, refundHeight) =>
      var swap := Requested(s, b.swapKeys, id, role, counterparty, secretHash, refundHeight);
      b' == b || (swap.Some? && Registered(b, b', id, swap.value))
    case Fund(w, swapID, value, fee) =>
      || OnlyAddresses(s, b, b')
      || exists txn, taken :: Funded(s, w, b, b', swapID, value, fee, txn, taken)
    case Spend(w, swapID, id, fee, request) =>
      || OnlyAddresses(s, b, b')
      || exists txn, parent :: SpentOnce(s, w, b, b', swapID, id, fee, request, txn, parent)
    case Sweep(node, withdrawals, actions) =>
      && node.WellFormed() && b' == b.(withdrawals := b'.withdrawals, actions := b'.actions)
      && Pass(node, b.withdrawals, b'.withdrawals, withdrawals) && Pass(node, b.actions, b'.actions, actions)
  }

  // ----- what every call keeps -----

  lemma OnlyAddressesGrow(s: Setup, b: Books, b': Books)
    requires s.Lawful() && Consistent(s, b) && OnlyAddresses(s, b, b')
    ensures Consistent(s, b') && Grows(b, b')
  {
    PerformedKeepsIssued(s.keys, b.rows, Issue("", Change));
    GrowsIsReflexive(b);
  }

  lemma NewWithdrawalKeeps(s: Setup, w: World, b: Books, b': Books, id: string, terms: WithdrawalTerms,
                           txn: Transaction)
    requires s.Lawful() && Consistent(s, b) && NewWithdrawal(s, w, b, b', id, terms, txn)
    ensures Consistent(s, b') && Grows(b, b')
  {
    var between := b.(rows := b'.rows);
    OnlyAddressesGrow(s, b, between);
    assert Grows(between, b');
    GrowsIsTransitive(b, between, b');
  }

  lemma NewActionKeeps(s: Setup, w: World, b: Books, b': Books, terms: ActionTerms, txn: Transaction)
    requires s.Lawful() && Consistent(s, b) && NewAction(s, w, b, b', terms, txn)
    ensures Consistent(s, b') && Grows(b, b')
  {
    var between := b.(rows := b'.rows);
    OnlyAddressesGrow(s, b, between);
    assert Grows(between, b');
    GrowsIsTransitive(b, between, b');
  }

  lemma AllocatedKeeps(s: Setup, b: Books, b': Books, op: Operation)
    requires s.Lawful() && Consistent(s, b) && b' == b.(rows := Performed(s.keys, b.rows, op))
    ensures Consistent(s, b') && Grows(b, b')
  {
    PerformedKeepsIssued(s.keys, b.rows, op);
    GrowsIsReflexive(b);
  }

  lemma KeysMadeKeep(s: Setup, b: Books, b': Books, id: string)
    requires Consistent(s, b) && id !in b.swapKeys && b' == b.(swapKeys := b.swapKeys[id := s.swapKey(id)])
    ensures Consistent(s, b') && Grows(b, b')
  {
  }

  lemma RegisteredKeeps(s: Setup, b: Books, b': Books, id: string, role: Role, counterparty: nat, secretHash: Hash,
                        refundHeight: nat)
    requires s.Lawful() && Consistent(s, b)
    requires var swap := Requested(s, b.swapKeys, id, role, counterparty, secretHash, refundHeight);
             swap.Some? && Registered(b, b', id, swap.value)
    ensures Consistent(s, b') && Grows(b, b')
  {
  }

  lemma SweepKeeps(s: Setup, b: Books, b': Books, node: Node, withdrawals: map<string, Transaction>,
                   actions: map<string, Transaction>)
    requires Consistent(s, b) && Performs(s, b, Step.Sweep(node, withdrawals, actions), b')
    ensures Consistent(s, b') && Grows(b, b')
    ensures AllSound(node.chain, node.lib, b) ==> AllSound(node.chain, node.lib, b')
  {
    PassKeeps(node, b.withdrawals, b'.withdrawals, withdrawals);
    PassKeeps(node, b.actions, b'.actions, actions);
  }

  /** The calls that build a transaction and journal it. */
  predicate Builds(step: Step) {
    step.Withdraw? || step.Defend? || step.Fund? || step.Spend?
  }

  /** All that such a call may do: nothing, use up an address, or add one row to one table. */
  ghost predicate AddsOneRow(s: Setup, w: World, b: Books, b': Books) {
    || OnlyAddresses(s, b, b')
    || (exists id, terms, txn :: NewWithdrawal(s, w, b, b', id, terms, txn))
    || (exists terms, txn :: NewAction(s, w, b, b', terms, txn))
  }

  lemma CallAddsOneRow(s: Setup, b: Books, step: Step, b': Books)
    requires Performs(s, b, step, b') && Builds(step)
    ensures AddsOneRow(s, step.w, b, b')
  {
    if !OnlyAddresses(s, b, b') {
      match step {
        case Withdraw(w, requestID, destination, value, fee) =>
          var txn, taken :| Withdrawn(s, w, b, b', requestID, destination, value, fee, txn, taken);
          assert NewWithdrawal(s, w, b, b', requestID, WithdrawalTerms(false, destination, value, fee), txn);
        case Defend(w) =>
          var txn, taken :| Renewed(s, w, b, b', txn, taken);
        case Fund(w, swapID, value, fee) =>
          var txn, taken :| Funded(s, w, b, b', swapID, value, fee, txn, taken);
        case Spend(w, swapID, id, fee, request) =>
          var txn, parent :| SpentOnce(s, w, b, b', swapID, id, fee, request, txn, parent);
      }
    }
  }

  lemma AddedRowKeeps(s: Setup, w: World, b: Books, b': Books)
    requires s.Lawful() && Consistent(s, b) && AddsOneRow(s, w, b, b')
    ensures Consistent(s, b') && Grows(b, b')
  {
    if OnlyAddresses(s, b, b') {
      OnlyAddressesGrow(s, b, b');
    } else if id, terms, txn :| NewWithdrawal(s, w, b, b', id, terms, txn) {
      NewWithdrawalKeeps(s, w, b, b', id, terms, txn);
    } else {
      var terms, txn :| NewAction(s, w, b, b', terms, txn);
      NewActionKeeps(s, w, b, b', terms, txn);
    }
  }

  /** Every call keeps the invariant, and what was recorded before it. */
  lemma StepKeeps(s: Setup, b: Books, step: Step, b': Books)
    requires s.Lawful() && Consistent(s, b) && Performs(s, b, step, b')
    ensures Consistent(s, b') && Grows(b, b')
  {
    GrowsIsReflexive(b);
    if Builds(step) {
      CallAddsOneRow(s, b, step, b');
      AddedRowKeeps(s, step.w, b, b');
    } else if b' != b {
      match step {
        case Allocate(op) => AllocatedKeeps(s, b, b', op);
        case MakeKeys(id) => KeysMadeKeep(s, b, b', id);
        case Register(id, role, counterparty, secretHash, refundHeight) =>
          RegisteredKeeps(s, b, b', id, role, counterparty, secretHash, refundHeight);
        case Sweep(node, withdrawals, actions) => SweepKeeps(s, b, b', node, withdrawals, actions);
      }
    }
  }

  // ----- when actions arise -----

  /** The action was made at a tip where it may be made. */
  ghost predicate InTime(swap: Swap, kind: ActionKind, tip: ChainIndex) {
    && (kind == FundSwap ==> tip.height + 1 < swap.contract.refundHeight)
    && (kind == RefundSwap ==> swap.role == RefundOwner && swap.contract.refundHeight <= tip.height)
    && (kind == ClaimSwap ==> swap.role == Recipient)
  }

  lemma FundedInTime(s: Setup, w: World, b: Books, b': Books, swapID: string, value: nat, fee: nat, txn: Transaction,
                     taken: seq<Element>, id: string)
    requires Funded(s, w, b, b', swapID, value, fee, txn, taken) && id !in b.actions && id in b'.actions
    ensures b'.actions[id].terms.swapID in b.swaps
    ensures InTime(b.swaps[b'.actions[id].terms.swapID], b'.actions[id].terms.kind, w.cs.index)
  {
  }

  lemma SpentInTime(s: Setup, w: World, b: Books, b': Books, swapID: string, output: OutputID, fee: nat,
                    request: SpendRequest, txn: Transaction, parent: Element, id: string)
    requires SpentOnce(s, w, b, b', swapID, output, fee, request, txn, parent)
    requires id !in b.actions && id in b'.actions
    ensures b'.actions[id].terms.swapID in b.swaps
    ensures InTime(b.swaps[b'.actions[id].terms.swapID], b'.actions[id].terms.kind, w.cs.index)
  {
  }

  /** Only the two action calls add actions, and only in time. */
  lemma ActionAdded(s: Setup, b: Books, step: Step, b': Books, id: string)
    requires Performs(s, b, step, b') && id !in b.actions && id in b'.actions
    ensures (step.Fund? || step.Spend?) && b'.actions[id].terms.swapID in b.swaps
    ensures InTime(b.swaps[b'.actions[id].terms.swapID], b'.actions[id].terms.kind, step.w.cs.index)
  {
    match step {
      case Fund(w, swapID, value, fee) =>
        var txn, taken :| Funded(s, w, b, b', swapID, value, fee, txn, taken);
        FundedInTime(s, w, b, b', swapID, value, fee, txn, taken, id);
      case Spend(w, swapID, output, fee, request) =>
        var txn, parent :| SpentOnce(s, w, b, b', swapID, output, fee, request, txn, parent);
        SpentInTime(s, w, b, b', swapID, output, fee, request, txn, parent, id);
      case _ => assert false;
    }
  }

  // ----- proofs -----

  /** All stored proofs are right at the bases stored with them. */
  ghost predicate AllSound(c: Chain, lib: Library, b: Books) {
    Sound(c, lib, b.withdrawals) && Sound(c, lib, b.actions)
  }

  /** The call is made at the tip of this chain. */
  ghost predicate MadeAt(step: Step, c: Chain, lib: Library) {
    && (Builds(step) ==> step.w.chain == c && step.w.lib == lib && step.w.Anchored())
    && (step.Sweep? ==> step.node.chain == c && step.node.lib == lib)
  }

  /** The one row a call adds to a table, if any: unconfirmed, with proofs right at the tip. */
  ghost predicate InsertsAtTip<T>(c: Chain, lib: Library, rows: map<string, Entry<T>>, rows': map<string, Entry<T>>) {
    || rows' == rows
    || exists id :: InsertsRow(c, lib, rows, rows', id)
  }

  ghost predicate InsertsRow<T>(c: Chain, lib: Library, rows: map<string, Entry<T>>, rows': map<string, Entry<T>>,
                                id: string) {
    && id !in rows && id in rows' && rows' == rows[id := rows'[id]] && c.WellFormed()
    && rows'[id].confirmed == None && rows'[id].basis == c.Tip() && lib.valid([rows'[id].txn], c.Tip().id)
  }

  /** Whatever a call journals was validated at the tip, so its proofs are right there. */
  lemma CallInsertsAtTip(s: Setup, b: Books, step: Step, b': Books, c: Chain, lib: Library)
    requires Performs(s, b, step, b') && MadeAt(step, c, lib) && !step.Sweep?
    ensures InsertsAtTip(c, lib, b.withdrawals, b'.withdrawals) && InsertsAtTip(c, lib, b.actions, b'.actions)
  {
    if Builds(step) {
      CallAddsOneRow(s, b, step, b');
      AddedRowIsAtTip(s, step.w, b, b');
    }
  }

  lemma AddedRowIsAtTip(s: Setup, w: World, b: Books, b': Books)
    requires AddsOneRow(s, w, b, b') && w.Anchored()
    ensures InsertsAtTip(w.chain, w.lib, b.withdrawals, b'.withdrawals)
    ensures InsertsAtTip(w.chain, w.lib, b.actions, b'.actions)
  {
    if !OnlyAddresses(s, b, b') {
      if id, terms, txn :| NewWithdrawal(s, w, b, b', id, terms, txn) {
        NewWithdrawalAtTip(s, w, b, b', id, terms, txn);
      } else {
        var terms, txn :| NewAction(s, w, b, b', terms, txn);
        NewActionAtTip(s, w, b, b', terms, txn);
      }
    }
  }

  lemma NewWithdrawalAtTip(s: Setup, w: World, b: Books, b': Books, id: string, terms: WithdrawalTerms,
                           txn: Transaction)
    requires NewWithdrawal(s, w, b, b', id, terms, txn) && w.Anchored()
    ensures InsertsRow(w.chain, w.lib, b.withdrawals, b'.withdrawals, id) && b'.actions == b.actions
  {
  }

  lemma NewActionAtTip(s: Setup, w: World, b: Books, b': Books, terms: ActionTerms, txn: Transaction)
    requires NewAction(s, w, b, b', terms, txn) && w.Anchored()
    ensures InsertsRow(w.chain, w.lib, b.actions, b'.actions, KeyOf(s, terms)) && b'.withdrawals == b.withdrawals
  {
  }

  lemma InsertKeepsSound<T>(c: Chain, lib: Library, rows: map<string, Entry<T>>, rows': map<string, Entry<T>>)
    requires InsertsAtTip(c, lib, rows, rows') && Sound(c, lib, rows)
    ensures Sound(c, lib, rows')
  {
  }

  /** Every call keeps right proofs right, so a rebroadcast pass always finds them right. */
  lemma StepKeepsSound(s: Setup, b: Books, step: Step, b': Books, c: Chain, lib: Library)
    requires Consistent(s, b) && Performs(s, b, step, b') && MadeAt(step, c, lib) && AllSound(c, lib, b)
    ensures AllSound(c, lib, b')
  {
    match step {
      case Sweep(node, withdrawals, actions) => SweepKeeps(s, b, b', node, withdrawals, actions);
      case _ =>
        CallInsertsAtTip(s, b, step, b', c, lib);
        InsertKeepsSound(c, lib, b.withdrawals, b'.withdrawals);
        InsertKeepsSound(c, lib, b.actions, b'.actions);
    }
  }
}
