/** Building and signing transactions. */
module Building {
  import opened Wrappers
  import opened Ledger
  import opened Chains
  import opened Proofs
  import opened Sums
  import opened Journals
  import opened Addresses
  import opened Selection
  import opened SwapPolicies

  datatype ServiceError =
    | BadRequest | BoundToOtherTerms | WalletLocked | NoPeer | IndexSyncing | WrongUnit | AmountOverflow | NoSuchSwap
    | WrongRole | NotActive | RefundActive | RefundLocked | OutputUnavailable | Immature | BelowFee | KeyMismatch
    | Interrupted | TipMoved | InvalidTransaction | StoreRefused
    | Selecting(selecting: SelectError) | Addressing(addressing: AddressError)

  datatype Witness = Witness(policy: Policy, preimages: seq<Preimage>, signature: nat)

  /** What a call meets outside the wallet's own records. `cs` is the consensus state the call reads at
      the tip of `chain`. */
  datatype World = World(
    chain: Chain, lib: Library, cs: Consensus, indexTip: ChainIndex, tipAfter: ChainIndex, networkSynced: bool,
    v1Active: bool, qdayActive: bool, unit: string,
    pool: seq<Transaction>, unspent: seq<Element>, basis: nat -> ChainIndex, swapOutputs: Address -> seq<Element>,
    registers: bool, workDone: bool, txid: Transaction -> TxID, proofs: seq<Element> -> seq<Hash>,
    sigHash: Transaction -> Hash, sign: (nat, Hash) -> nat,
    claimWitness: (Transaction, Contract, Preimage) -> Option<Witness>,
    refundWitness: (Transaction, Contract) -> Option<Witness>,
    valid: Transaction -> bool, poolAccepts: Transaction -> bool, broadcasts: Transaction -> bool)
  {
    /** Output IDs are unique, an address is asked for its own outputs, and a claim's witness shows the
        secret last. */
    ghost predicate Lawful() {
      && UniqueIds(unspent)
      && (forall a, e :: e in swapOutputs(a) ==> e.address == a)
      && (forall a, e, e' :: e in swapOutputs(a) && e' in swapOutputs(a) && e.id == e'.id ==> e == e')
      && (forall t, c, s :: claimWitness(t, c, s).Some? ==>
            var p := claimWitness(t, c, s).value.preimages; p != [] && p[|p| - 1] == s)
    }

    /** Validation at the tip covers the proofs: what it accepts is right at the tip. */
    ghost predicate Anchored() {
      && chain.WellFormed() && lib.Lawful(chain) && cs.index == chain.Tip()
      && forall t :: valid(t) ==> lib.valid([t], cs.index.id)
    }

    function TroubleOf(txn: Transaction): (r: Option<Trouble>)
      ensures r == None <==> poolAccepts(txn) && broadcasts(txn)
      ensures r == Some(Pooling) <==> !poolAccepts(txn)
      ensures r == Some(Broadcasting) <==> poolAccepts(txn) && !broadcasts(txn)
    {
      if !poolAccepts(txn) then Some(Pooling) else if !broadcasts(txn) then Some(Broadcasting) else None
    }
  }

  // ----- signing -----

  ghost predicate AllMatch(k: Keyring, owners: seq<Record>) {
    forall o :: o in owners ==> k.public(o.index) == o.public
  }

  /** No earlier owner has the same child index. */
  ghost predicate IsFirst(owners: seq<Record>, i: nat)
    requires i < |owners|
  {
    forall j :: 0 <= j < i ==> owners[j].index != owners[i].index
  }

  /** The keys the signing cache compares: those of owners whose index did not occur before. */
  ghost predicate FirstsMatch(k: Keyring, owners: seq<Record>) {
    forall i :: 0 <= i < |owners| && IsFirst(owners, i) ==> k.public(owners[i].index) == owners[i].public
  }

  /** Signs every input with its owner's derived keys; inputs of one owner share a signature. It
      succeeds exactly when the first owner of each index has the derived key. */
  method SignInputs(k: Keyring, sign: (nat, Hash) -> nat, hash: Hash, txn: Transaction, owners: seq<Record>)
    returns (r: Result<Transaction, ServiceError>)
    ensures r.Success? <==> |owners| == |txn.inputs| && FirstsMatch(k, owners)
    ensures match r
            case Success(t) =>
              && |owners| == |t.inputs| && t == txn.(inputs := t.inputs)
              && forall i :: 0 <= i < |owners| ==>
                   t.inputs[i] == txn.inputs[i].(signature := sign(owners[i].index, hash))
            case Failure(e) => e == KeyMismatch
  {
    if |owners| != |txn.inputs| {
      return Failure(KeyMismatch);
    }
    var signed: map<nat, nat> := map[];
    var inputs := txn.inputs;
    for i := 0 to |owners|
      invariant |inputs| == |owners|
      invariant forall j :: 0 <= j < i ==> owners[j].index in signed
      invariant forall n :: n in signed ==> signed[n] == sign(n, hash) && exists j :: 0 <= j < i && owners[j].index == n
      invariant forall j :: 0 <= j < i && IsFirst(owners, j) ==> k.public(owners[j].index) == owners[j].public
      invariant forall j :: 0 <= j < i ==> inputs[j] == txn.inputs[j].(signature := sign(owners[j].index, hash))
      invariant forall j :: i <= j < |owners| ==> inputs[j] == txn.inputs[j]
    {
      var owner := owners[i];
      if owner.index !in signed {
        assert IsFirst(owners, i);
        if k.public(owner.index) != owner.public {
          return Failure(KeyMismatch);
        }
        signed := signed[owner.index := sign(owner.index, hash)];
      }
      inputs := inputs[i := inputs[i].(signature := signed[owner.index])];
    }
    return Success(txn.(inputs := inputs));
  }

  /** What the cache misses: of two owners with one index, the second one's key is never compared. */
  lemma SecondMismatchIsMissed(k: Keyring, address: Address, other: nat, owners: seq<Record>)
    requires other != k.public(0)
    requires owners == [Record(0, address, k.public(0), "", Change), Record(0, address, other, "", Change)]
    ensures FirstsMatch(k, owners) && !AllMatch(k, owners)
  {
    assert owners[0].index == owners[1].index && owners[1] in owners;
    assert !IsFirst(owners, 1);
  }

  /** Owners read from one table are never missed: the index is the table's key, so two owners with
      one index are one row. */
  lemma MismatchesAreCaught(k: Keyring, rows: Rows, owners: seq<Record>)
    requires forall i :: i in rows ==> rows[i].index == i
    requires forall o :: o in owners ==> o.index in rows && rows[o.index] == o
    ensures FirstsMatch(k, owners) <==> AllMatch(k, owners)
  {
    if FirstsMatch(k, owners) {
      forall i | 0 <= i < |owners| ensures k.public(owners[i].index) == owners[i].public {
        var j := FirstOf(owners, i);
        assert rows[owners[i].index] == owners[i] && rows[owners[j].index] == owners[j];
      }
    }
  }

  lemma {:induction false} FirstOf(owners: seq<Record>, i: nat) returns (j: nat)
    requires i < |owners|
    ensures j <= i && owners[j].index == owners[i].index && IsFirst(owners, j)
  {
    if IsFirst(owners, i) {
      j := i;
    } else {
      j :| 0 <= j < i && owners[j].index == owners[i].index;
      j := FirstOf(owners, j);
    }
  }

  // ----- what a built transaction is -----

  function OutputValue(o: Output): (r: nat) {
    o.value
  }

  function OutputSum(outputs: seq<Output>): (r: nat) {
    SumBy(outputs, OutputValue)
  }

  /** The transaction spends exactly these outputs, in this order. */
  ghost predicate SpendsExactly(txn: Transaction, taken: seq<Element>) {
    && |txn.inputs| == |taken|
    && forall i :: 0 <= i < |taken| ==>
         txn.inputs[i].parent == taken[i].id && txn.inputs[i].parentAddress == taken[i].address
           && txn.inputs[i].parentValue == taken[i].value
  }

  /** What goes in, decayed to `height`, is what comes out plus the fee. */
  ghost predicate Conserves(cs: Consensus, height: nat, txn: Transaction, taken: seq<Element>) {
    SpendsExactly(txn, taken) && SumBy(taken, cs.ValueAt(height)) == OutputSum(txn.outputs) + txn.minerFee
  }

  /** The transaction as it was before it was signed. */
  function DraftOf(txn: Transaction): (r: Transaction)
    ensures |r.inputs| == |txn.inputs|
  {
    txn.(inputs := seq(|txn.inputs|, i requires 0 <= i < |txn.inputs| => txn.inputs[i].(signature := 0)))
  }

  /** Outputs of the wallet that are worth something and that nothing in the pool spends; 128 at most. */
  ghost predicate Spendable(w: World, taken: seq<Element>) {
    && 0 < |taken| <= MAX_INPUTS && UniqueIds(taken)
    && forall e :: e in taken ==> e in w.unspent && e.id !in SpentIn(w.pool) && w.cs.Worth(e) != 0
  }

  /** The input spends `e` with the key its address is made of, and that key's signature of the draft. */
  ghost predicate SignedByOwner(k: Keyring, w: World, draft: Transaction, input: Input, e: Element) {
    exists n :: k.address(k.public(n)) == e.address &&
                input == Input(e.id, e.address, e.value, PublicKey(k.public(n)), [], w.sign(n, w.sigHash(draft)))
  }

  /** What the wallet makes of its own outputs: a transaction to one or two outputs that conserves their
      decayed value and that each owner has signed. */
  ghost predicate IsTransfer(k: Keyring, w: World, txn: Transaction, taken: seq<Element>) {
    && Spendable(w, taken) && Conserves(w.cs, w.cs.index.height + 2, txn, taken)
    && (forall i :: 0 <= i < |taken| ==> SignedByOwner(k, w, DraftOf(txn), txn.inputs[i], taken[i]))
    && txn.proofs == w.proofs(taken) && txn.id == w.txid(DraftOf(txn).(id := 0))
    && 0 < txn.minerFee && 1 <= |txn.outputs| <= 2 && forall o :: o in txn.outputs ==> 0 < o.value
  }

  /** A payment: the wanted output, change to a freshly issued own address if there is any, and no more
      inputs than any payment needs. */
  ghost predicate IsPayment(k: Keyring, w: World, rows: Rows, txn: Transaction, taken: seq<Element>,
                            destination: Address, value: nat, fee: nat) {
    PaysOut(k, w, rows, txn, taken, destination, value, fee) && NoneNeedsFewer(w, taken, value + fee)
  }

  ghost predicate PaysOut(k: Keyring, w: World, rows: Rows, txn: Transaction, taken: seq<Element>,
                          destination: Address, value: nat, fee: nat) {
    && IsTransfer(k, w, txn, taken) && txn.minerFee == fee
    && txn.outputs[0] == Output(destination, value)
    && forall o :: o in txn.outputs[1..] ==> NewestAddress(rows, o.address)
  }

  function Managed(rows: Rows): (r: set<Address>)
    ensures forall a: Address :: a in r <==> exists i :: i in rows && rows[i].address == a
  {
    set i | i in rows :: rows[i].address
  }

  /** The address was issued last, as change. */
  ghost predicate NewestAddress(rows: Rows, a: Address) {
    0 < |rows| && |rows| - 1 in rows && rows[|rows| - 1].kind == Change && rows[|rows| - 1].address == a
  }

  /** At most one change address more than before. */
  ghost predicate MayIssue(k: Keyring, rows: Rows, rows': Rows) {
    Issued(k, rows') && (rows' == rows || rows' == Performed(k, rows, Issue("", Change)))
  }

  /** No choice of at most 128 eligible outputs covers the amount. */
  ghost predicate NothingPays(w: World, required: nat) {
    forall chosen :: !Pays(w.cs, Eligible(w.cs, SpentIn(w.pool), w.unspent), chosen, required)
  }

  /** The wallet's outputs are part of the main network's supply, and decay. */
  ghost predicate WithinSupply(w: World) {
    w.cs.Decays() && SumBy(w.unspent, Stored) <= 8_500_000_000_000_000_000_000_000_000_000
  }

  ghost predicate NoneNeedsFewer(w: World, taken: seq<Element>, required: nat) {
    forall chosen :: Pays(w.cs, Eligible(w.cs, SpentIn(w.pool), w.unspent), chosen, required) ==> |taken| <= |chosen|
  }

  lemma OneOutput(o: Output)
    ensures OutputSum([o]) == o.value
  {
    assert SumBy([o][..0], OutputValue) == 0;
  }

  lemma TwoOutputs(a: Output, b: Output)
    ensures OutputSum([a, b]) == a.value + b.value
  {
    assert [a, b][..1] == [a];
    OneOutput(a);
  }

  /** Field by field: at most 128 different outputs of the wallet that no input in the pool spends, worth
      something two blocks on and together exactly the outputs and the fee; each input is signed over the
      unsigned transaction by the key its address is made of. */
  lemma TransferInFields(k: Keyring, w: World, txn: Transaction, taken: seq<Element>, worth: Element -> nat)
    returns (draft: Transaction)
    requires IsTransfer(k, w, txn, taken)
    requires forall e :: worth(e) == w.cs.qdayValue(e, w.cs.index.height + 2)
    ensures 0 < |txn.inputs| == |taken| <= 128
    ensures forall i :: 0 <= i < |taken| ==>
              && taken[i] in w.unspent && 0 < worth(taken[i])
              && txn.inputs[i].parent == taken[i].id && txn.inputs[i].parentAddress == taken[i].address
              && txn.inputs[i].parentValue == taken[i].value && txn.inputs[i].preimages == []
    ensures forall i, j :: 0 <= i < j < |txn.inputs| ==> txn.inputs[i].parent != txn.inputs[j].parent
    ensures forall i, t, j :: i in txn.inputs && t in w.pool && j in t.inputs ==> i.parent != j.parent
    ensures SumBy(taken, worth) == txn.minerFee + (
              if |txn.outputs| == 1 then txn.outputs[0].value else txn.outputs[0].value + txn.outputs[1].value)
    ensures 1 <= |txn.outputs| <= 2 && forall o :: o in txn.outputs ==> 0 < o.value
    ensures draft == txn.(inputs := draft.inputs) && |draft.inputs| == |txn.inputs|
    ensures forall i :: 0 <= i < |txn.inputs| ==>
              && draft.inputs[i] == txn.inputs[i].(signature := 0)
              && exists n :: && k.address(k.public(n)) == taken[i].address
                             && txn.inputs[i].policy == PublicKey(k.public(n))
                             && txn.inputs[i].signature == w.sign(n, w.sigHash(draft))
    ensures txn.proofs == w.proofs(taken) && txn.id == w.txid(draft.(id := 0))
  {
    draft := DraftOf(txn);
    SumSame(taken, worth, w.cs.ValueAt(w.cs.index.height + 2));
    if |txn.outputs| == 1 {
      assert txn.outputs == [txn.outputs[0]];
      OneOutput(txn.outputs[0]);
    } else {
      assert txn.outputs == [txn.outputs[0], txn.outputs[1]];
      TwoOutputs(txn.outputs[0], txn.outputs[1]);
    }
    forall i, t, j | 0 <= i < |taken| && t in w.pool && j in t.inputs ensures taken[i].id != j.parent {
      assert taken[i] in taken && j.parent in SpentIn(w.pool);
    }
    forall i | 0 <= i < |taken| ensures taken[i] in w.unspent && 0 < worth(taken[i]) {
      assert taken[i] in taken;
    }
  }

  /** Field by field: what a payment pays, where its change goes, and that no shorter list of untouched
      outputs of the wallet pays as much. */
  lemma PaymentInFields(k: Keyring, w: World, rows: Rows, txn: Transaction, taken: seq<Element>, destination: Address,
                        value: nat, fee: nat, worth: Element -> nat)
    requires w.Lawful() && IsPayment(k, w, rows, txn, taken, destination, value, fee)
    requires forall e :: worth(e) == w.cs.qdayValue(e, w.cs.index.height + 2)
    ensures txn.minerFee == fee && 1 <= |txn.outputs| <= 2 && txn.outputs[0] == Output(destination, value)
    ensures |txn.outputs| == 2 ==>
              && |rows| - 1 in rows && rows[|rows| - 1].kind == Change
              && rows[|rows| - 1].address == txn.outputs[1].address
              && txn.outputs[1].value == SumBy(taken, worth) - value - fee
    ensures |txn.outputs| == 1 ==> SumBy(taken, worth) == value + fee
    ensures forall list: seq<Element> ::
              (&& |list| < |txn.inputs| && (forall i, j :: 0 <= i < j < |list| ==> list[i].id != list[j].id)
               && (forall e :: e in list ==> e in w.unspent)
               && (forall e, t, i :: e in list && t in w.pool && i in t.inputs ==> i.parent != e.id)) ==>
                SumBy(list, worth) < value + fee
  {
    var _ := TransferInFields(k, w, txn, taken, worth);
    NoneNeedsFewerInFields(w, taken, value + fee, worth);
    if |txn.outputs| == 2 {
      assert txn.outputs[1] in txn.outputs[1..];
    }
  }

  // ----- transfers -----

  ghost predicate Owns(rows: Rows, e: Element, r: Record) {
    exists i :: i in rows && rows[i] == r && r.address == e.address
  }

  lemma ManagedRow(rows: Rows, address: Address) returns (i: nat)
    requires address in Managed(rows)
    ensures i in rows && rows[i].address == address
  {
    i :| i in rows && rows[i].address == address;
  }

  method LookUpOwners(rows: Rows, taken: seq<Element>) returns (owners: seq<Record>)
    requires forall e :: e in taken ==> e.address in Managed(rows)
    ensures |owners| == |taken| && forall k :: 0 <= k < |taken| ==> Owns(rows, taken[k], owners[k])
  {
    owners := [];
    for k := 0 to |taken|
      invariant |owners| == k && forall j :: 0 <= j < k ==> Owns(rows, taken[j], owners[j])
    {
      assert taken[k] in taken;
      ghost var owner := ManagedRow(rows, taken[k].address);
      var i :| i in rows && rows[i].address == taken[k].address;
      assert Owns(rows, taken[k], rows[i]);
      owners := owners + [rows[i]];
    }
  }

  /** The owners' stored keys are the derived ones, and the outputs' addresses are made of them. */
  ghost predicate KnownOwners(k: Keyring, taken: seq<Element>, owners: seq<Record>) {
    && |owners| == |taken|
    && forall i :: 0 <= i < |taken| ==>
         owners[i].public == k.public(owners[i].index) && k.address(k.public(owners[i].index)) == taken[i].address
  }

  lemma OwnersMatch(k: Keyring, rows: Rows, taken: seq<Element>, owners: seq<Record>)
    requires Issued(k, rows) && |owners| == |taken| && forall i :: 0 <= i < |taken| ==> Owns(rows, taken[i], owners[i])
    ensures KnownOwners(k, taken, owners)
  {
    forall i | 0 <= i < |taken|
      ensures owners[i].public == k.public(owners[i].index) && k.address(k.public(owners[i].index)) == taken[i].address
    {
      assert Owns(rows, taken[i], owners[i]);
      var n :| n in rows && rows[n] == owners[i] && owners[i].address == taken[i].address;
      assert rows[n].index == n;
    }
  }

  /** The unsigned inputs for the chosen outputs. */
  function Unsigned(taken: seq<Element>, owners: seq<Record>): (r: seq<Input>)
    requires |owners| == |taken|
    ensures |r| == |taken|
  {
    seq(|taken|, k requires 0 <= k < |taken| =>
      Input(taken[k].id, taken[k].address, taken[k].value, PublicKey(owners[k].public), [], 0))
  }

  /** Nothing outside the wallet stands in the way of finishing a transfer: validation accepts every
      transfer the wallet makes. */
  ghost predicate Willing(k: Keyring, w: World) {
    && (w.qdayActive ==> w.workDone) && w.tipAfter == w.cs.index && w.registers
    && forall txn, taken :: IsTransfer(k, w, txn, taken) ==> w.valid(txn)
  }

  /** The transfer that an assembled draft becomes. */
  lemma SignedIsTransfer(k: Keyring, w: World, draft: Transaction, taken: seq<Element>, owners: seq<Record>,
                         txn: Transaction)
    requires KnownOwners(k, taken, owners) && Spendable(w, taken)
    requires draft.inputs == Unsigned(taken, owners) && draft.proofs == w.proofs(taken)
    requires draft.id == w.txid(draft.(id := 0))
    requires Total(w.cs, taken) == OutputSum(draft.outputs) + draft.minerFee
    requires 0 < draft.minerFee && 1 <= |draft.outputs| <= 2 && forall o :: o in draft.outputs ==> 0 < o.value
    requires |txn.inputs| == |taken| && txn == draft.(inputs := txn.inputs)
    requires forall i :: 0 <= i < |taken| ==>
               txn.inputs[i] == draft.inputs[i].(signature := w.sign(owners[i].index, w.sigHash(draft)))
    ensures IsTransfer(k, w, txn, taken)
  {
    assert DraftOf(txn).inputs == draft.inputs;
    assert DraftOf(txn) == draft;
    SumSame(taken, w.cs.Worth, w.cs.ValueAt(w.cs.index.height + 2));
    forall i | 0 <= i < |taken| ensures SignedByOwner(k, w, DraftOf(txn), txn.inputs[i], taken[i]) {
      assert k.address(k.public(owners[i].index)) == taken[i].address;
    }
  }

  /** Puts a transfer together and finishes it: proof of work if DEFEND rules apply, signatures, and the
      last checks. */
  method Assemble(k: Keyring, w: World, taken: seq<Element>, owners: seq<Record>, outputs: seq<Output>, fee: nat)
    returns (r: Result<Transaction, ServiceError>)
    requires KnownOwners(k, taken, owners) && Spendable(w, taken)
    requires Total(w.cs, taken) == OutputSum(outputs) + fee && 0 < fee
    requires 1 <= |outputs| <= 2 && forall o :: o in outputs ==> 0 < o.value
    ensures r.Success? ==>
              && IsTransfer(k, w, r.value, taken) && r.value.outputs == outputs && r.value.minerFee == fee
              && w.valid(r.value) && w.tipAfter == w.cs.index
    ensures Willing(k, w) ==> r.Success?
    ensures r.Failure? ==> !r.error.Selecting? && r.error != StoreRefused
  {
    var draft := Transaction(0, Unsigned(taken, owners), outputs, fee, w.proofs(taken));
    draft := draft.(id := w.txid(draft));
    if w.qdayActive && !w.workDone {
      return Failure(Interrupted);
    }
    r := SignInputs(k, w.sign, w.sigHash(draft), draft, owners);
    if r.Failure? {
      return;
    }
    SignedIsTransfer(k, w, draft, taken, owners, r.value);
    if w.tipAfter != w.cs.index {
      return Failure(TipMoved);
    }
    if !w.valid(r.value) {
      return Failure(InvalidTransaction);
    }
  }

  /** An output to a newly issued own address. */
  method FreshOutput(k: Keyring, book: AddressBook, unlocked: bool, w: World, amount: nat)
    returns (r: Result<Output, ServiceError>)
    requires k.Injective() && Issued(k, book.rows)
    modifies book
    ensures MayIssue(k, old(book.rows), book.rows)
    ensures r.Success? ==> r.value.value == amount && NewestAddress(book.rows, r.value.address)
    ensures r.Success? <==> unlocked && w.registers
    ensures r.Failure? ==> r.error.Addressing?
  {
    IssueKeepsIssued(k, book.rows, "", Change);
    var issued := book.NewAddress(k, unlocked, w.registers, "", Change);
    if issued.Failure? {
      return Failure(Addressing(issued.error));
    }
    return Success(Output(issued.value.address, amount));
  }

  // ----- payments -----

  /** The index answers at the tip, knows only managed outputs, and holds no more than was ever mined. */
  ghost predicate Readable(w: World, rows: Rows) {
    && (forall p: nat :: w.basis(p) == w.cs.index) && w.tipAfter == w.cs.index && WithinSupply(w)
    && forall e :: e in w.unspent ==> e.address in Managed(rows)
  }

  /** What the greedy choice from the sorted outputs is. */
  lemma GreedyChoice(w: World, sorted: seq<Element>, taken: seq<Element>, required: nat)
    requires w.Lawful() && multiset(sorted) == multiset(Eligible(w.cs, SpentIn(w.pool), w.unspent))
    requires SortedBy(sorted, w.cs.Descending)
    requires taken <= sorted && 0 < |taken| <= MAX_INPUTS && required <= SumBy(taken, w.cs.Worth)
    requires SumBy(taken[..|taken| - 1], w.cs.Worth) < required
    ensures Spendable(w, taken) && NoneNeedsFewer(w, taken, required) && !NothingPays(w, required)
  {
    var eligible := Eligible(w.cs, SpentIn(w.pool), w.unspent);
    EligibleMembers(w.cs, SpentIn(w.pool), w.unspent);
    EligibleUnique(w.cs, SpentIn(w.pool), w.unspent);
    forall e | e in taken ensures e in eligible {
      assert e in multiset(sorted);
    }
    GreedyIsOptimal(w.cs, eligible, sorted, taken, required, Ids(taken));
    UniqueIffAllCounted(taken);
    forall chosen | Pays(w.cs, eligible, chosen, required) ensures |taken| <= |chosen| {
      GreedyIsOptimal(w.cs, eligible, sorted, taken, required, chosen);
    }
  }

  /** Why the greedy choice may fail, among outputs the index rightly lists. */
  lemma NoGreedyChoice(w: World, sorted: seq<Element>, required: nat)
    requires w.Lawful() && multiset(sorted) == multiset(Eligible(w.cs, SpentIn(w.pool), w.unspent))
    requires SortedBy(sorted, w.cs.Descending)
    ensures SumBy(sorted[..Min(MAX_INPUTS, |sorted|)], w.cs.Worth) < required ==> NothingPays(w, required)
    ensures WithinSupply(w) ==> SumBy(sorted, w.cs.Worth) < CURRENCY_LIMIT
    ensures forall e :: e in sorted ==> e in w.unspent
  {
    var eligible := Eligible(w.cs, SpentIn(w.pool), w.unspent);
    EligibleMembers(w.cs, SpentIn(w.pool), w.unspent);
    EligibleUnique(w.cs, SpentIn(w.pool), w.unspent);
    InsufficientIffNothingPays(w.cs, eligible, sorted, required);
    if WithinSupply(w) {
      SupplyNeverOverflows(w.cs, SpentIn(w.pool), w.unspent, sorted);
    }
    forall e | e in sorted ensures e in eligible {
      assert e in multiset(sorted);
    }
  }

  /** The spendable outputs in the order of a key. */
  method SortedSpendable(w: World, key: Element -> int) returns (r: Result<seq<Element>, SelectError>)
    ensures r.Success? ==>
              multiset(r.value) == multiset(Eligible(w.cs, SpentIn(w.pool), w.unspent)) && SortedBy(r.value, key)
    ensures r.Failure? ==> r.error == IndexBehind || r.error == TipChanged
    ensures (forall p: nat :: w.basis(p) == w.cs.index) && w.tipAfter == w.cs.index ==> r.Success?
  {
    r := SpendableOutputs(w.cs, w.pool, w.unspent, w.basis, w.tipAfter);
    if r.Success? {
      var sorted := SortBy(r.value, key);
      r := Success(sorted);
    }
  }

  /** Chooses the outputs of a payment. */
  method ChooseInputs(w: World, rows: Rows, required: nat) returns (r: Result<seq<Element>, SelectError>)
    requires w.Lawful() && 0 < required
    ensures r.Success? ==>
              && Spendable(w, r.value) && required <= Total(w.cs, r.value) && NoneNeedsFewer(w, r.value, required)
              && forall e :: e in r.value ==> e.address in Managed(rows)
    ensures r == Failure(Insufficient) ==> NothingPays(w, required)
    ensures r == Failure(Overflow) ==> !WithinSupply(w)
    ensures Readable(w, rows) ==> (r.Success? <==> !NothingPays(w, required))
  {
    var sorted := SortedSpendable(w, w.cs.Descending);
    if sorted.Failure? {
      return sorted;
    }
    NoGreedyChoice(w, sorted.value, required);
    r := TakeUntilCovered(w.cs, sorted.value, Managed(rows), required);
    if r.Success? {
      GreedyChoice(w, sorted.value, r.value, required);
    }
  }

  /** The list holds different outputs of the wallet, at most 128, that nothing in the pool spends. */
  ghost predicate Untouched(w: World, list: seq<Element>) {
    && |list| <= MAX_INPUTS && UniqueIds(list) && (forall e :: e in list ==> e in w.unspent)
    && forall e, t, i :: e in list && t in w.pool && i in t.inputs ==> i.parent != e.id
  }

  lemma ListIsAChoice(w: World, list: seq<Element>, required: nat) returns (chosen: set<OutputID>)
    requires w.Lawful() && Untouched(w, list) && required <= SumBy(list, w.cs.Worth)
    ensures Pays(w.cs, Eligible(w.cs, SpentIn(w.pool), w.unspent), chosen, required) && |chosen| <= |list|
  {
    EligibleInFields(w.cs, w.pool, w.unspent);
    EligibleUnique(w.cs, SpentIn(w.pool), w.unspent);
    chosen := ListPays(w.cs, Eligible(w.cs, SpentIn(w.pool), w.unspent), list, required);
  }

  lemma ChoiceIsAList(w: World, chosen: set<OutputID>, required: nat) returns (list: seq<Element>)
    requires w.Lawful() && Pays(w.cs, Eligible(w.cs, SpentIn(w.pool), w.unspent), chosen, required)
    ensures Untouched(w, list) && required <= SumBy(list, w.cs.Worth) && |list| == |chosen|
  {
    var eligible := Eligible(w.cs, SpentIn(w.pool), w.unspent);
    EligibleInFields(w.cs, w.pool, w.unspent);
    EligibleUnique(w.cs, SpentIn(w.pool), w.unspent);
    list := ChoiceIsList(w.cs, eligible, chosen);
    CountOfChosen(eligible, chosen);
    assert chosen * Ids(eligible) == chosen;
  }

  /** Choices are lists: nothing pays exactly when no list of at most 128 different, untouched outputs of the
      wallet is worth the amount two blocks on. */
  lemma NothingPaysInFields(w: World, required: nat, worth: Element -> nat)
    requires w.Lawful() && forall e :: worth(e) == w.cs.qdayValue(e, w.cs.index.height + 2)
    ensures NothingPays(w, required) <==>
              forall list: seq<Element> ::
                (&& |list| <= 128 && (forall i, j :: 0 <= i < j < |list| ==> list[i].id != list[j].id)
                 && (forall e :: e in list ==> e in w.unspent)
                 && (forall e, t, i :: e in list && t in w.pool && i in t.inputs ==> i.parent != e.id)) ==>
                  SumBy(list, worth) < required
  {
    forall list: seq<Element> | Untouched(w, list) && required <= SumBy(list, worth) ensures !NothingPays(w, required) {
      SumSame(list, w.cs.Worth, worth);
      var chosen := ListIsAChoice(w, list, required);
    }
    if !NothingPays(w, required) {
      var chosen :| Pays(w.cs, Eligible(w.cs, SpentIn(w.pool), w.unspent), chosen, required);
      var list := ChoiceIsAList(w, chosen, required);
      SumSame(list, w.cs.Worth, worth);
    }
  }

  lemma NoneNeedsFewerInFields(w: World, taken: seq<Element>, required: nat, worth: Element -> nat)
    requires w.Lawful() && NoneNeedsFewer(w, taken, required) && |taken| <= 128
    requires forall e :: worth(e) == w.cs.qdayValue(e, w.cs.index.height + 2)
    ensures forall list: seq<Element> ::
              (&& |list| < |taken| && (forall i, j :: 0 <= i < j < |list| ==> list[i].id != list[j].id)
               && (forall e :: e in list ==> e in w.unspent)
               && (forall e, t, i :: e in list && t in w.pool && i in t.inputs ==> i.parent != e.id)) ==>
                SumBy(list, worth) < required
  {
    forall list: seq<Element> | Untouched(w, list) && required <= SumBy(list, worth) ensures |taken| <= |list| {
      SumSame(list, w.cs.Worth, worth);
      var chosen := ListIsAChoice(w, list, required);
    }
  }

  /** The outputs of a payment; change goes to a newly issued address. */
  method WithChange(k: Keyring, book: AddressBook, unlocked: bool, w: World, payment: Output, change: nat)
    returns (r: Result<seq<Output>, ServiceError>)
    requires k.Injective() && Issued(k, book.rows) && 0 < payment.value
    modifies book
    ensures MayIssue(k, old(book.rows), book.rows)
    ensures r.Success? ==>
              && 1 <= |r.value| <= 2 && r.value[0] == payment && OutputSum(r.value) == payment.value + change
              && (forall o :: o in r.value ==> 0 < o.value)
              && forall o :: o in r.value[1..] ==> NewestAddress(book.rows, o.address)
    ensures r.Success? <==> change == 0 || (unlocked && w.registers)
    ensures r.Failure? ==> r.error.Addressing?
  {
    OneOutput(payment);
    if change == 0 {
      return Success([payment]);
    }
    var own := FreshOutput(k, book, unlocked, w, change);
    if own.Failure? {
      return Failure(own.error);
    }
    TwoOutputs(payment, own.value);
    return Success([payment, own.value]);
  }

  /** Pays from the chosen outputs. */
  method PayFrom(k: Keyring, book: AddressBook, unlocked: bool, w: World, chosen: seq<Element>, destination: Address,
                 value: nat, fee: nat)
    returns (r: Result<Transaction, ServiceError>)
    requires k.Injective() && Issued(k, book.rows) && 0 < value && 0 < fee
    requires Spendable(w, chosen) && value + fee <= Total(w.cs, chosen)
    requires forall e :: e in chosen ==> e.address in Managed(book.rows)
    modifies book
    ensures MayIssue(k, old(book.rows), book.rows)
    ensures r.Success? ==>
              && PaysOut(k, w, book.rows, r.value, chosen, destination, value, fee)
              && w.valid(r.value) && w.tipAfter == w.cs.index
    ensures unlocked && Willing(k, w) ==> r.Success?
    ensures r.Failure? ==> !r.error.Selecting?
  {
    var owners := LookUpOwners(book.rows, chosen);
    OwnersMatch(k, book.rows, chosen, owners);
    var change := Total(w.cs, chosen) - value - fee;
    var outputs := WithChange(k, book, unlocked, w, Output(destination, value), change);
    if outputs.Failure? {
      return Failure(outputs.error);
    }
    r := Assemble(k, w, chosen, owners, outputs.value, fee);
  }

  /** When nothing outside fails, a payment is made exactly when some choice of outputs pays. */
  ghost predicate PaysIffPossible(made: bool, k: Keyring, w: World, rows: Rows, value: nat, fee: nat) {
    Readable(w, rows) && Willing(k, w) && value + fee < CURRENCY_LIMIT ==> (made <==> !NothingPays(w, value + fee))
  }

  method BuildCustodyTransfer(k: Keyring, book: AddressBook, unlocked: bool, w: World, destination: Address, value: nat,
                              fee: nat)
    returns (r: Result<Transaction, ServiceError>, ghost taken: seq<Element>)
    requires k.Injective() && Issued(k, book.rows) && w.Lawful() && 0 < value && 0 < fee
    modifies book
    ensures MayIssue(k, old(book.rows), book.rows)
    ensures r.Success? ==>
              && IsPayment(k, w, book.rows, r.value, taken, destination, value, fee)
              && w.valid(r.value) && w.tipAfter == w.cs.index
    ensures r == Failure(Selecting(Insufficient)) ==> NothingPays(w, value + fee)
    ensures r == Failure(Selecting(Overflow)) ==> !WithinSupply(w)
    ensures unlocked ==> PaysIffPossible(r.Success?, k, w, old(book.rows), value, fee)
  {
    taken := [];
    var required := value + fee;
    if CURRENCY_LIMIT <= required {
      return Failure(AmountOverflow), taken;
    }
    var choice := ChooseInputs(w, book.rows, required);
    if choice.Failure? {
      return Failure(Selecting(choice.error)), taken;
    }
    taken := choice.value;
    r := PayFrom(k, book, unlocked, w, choice.value, destination, value, fee);
  }

  function Total(cs: Consensus, taken: seq<Element>): (r: nat) {
    SumBy(taken, cs.Worth)
  }

  // ----- DEFEND -----

  /** The default fee: a thousandth of 10^24 units. */
  const DEFAULT_FEE: nat := 1_000_000_000_000_000_000_000

  /** A renewal: the most urgent due outputs, 128 at most, moved to one fresh own address. */
  ghost predicate IsRenewal(k: Keyring, w: World, rows: Rows, txn: Transaction, taken: seq<Element>) {
    && IsTransfer(k, w, txn, taken) && txn.minerFee == DEFAULT_FEE
    && |txn.outputs| == 1 && (forall o :: o in txn.outputs ==> NewestAddress(rows, o.address))
    && MostUrgent(w, taken)
  }

  /** Field by field: the fee is a thousandth of 10^24, the one output goes to the address issued last, every
      renewed output `e` is in the last quarter of its shield, two blocks at least, and no other output `left`
      of the wallet that is worth something and that nothing in the pool spends is more urgent, or is due
      below the limit of 128. */
  lemma RenewalInFields(k: Keyring, w: World, rows: Rows, txn: Transaction, taken: seq<Element>, worth: Element -> nat,
                        e: Element, left: Element)
    requires w.Lawful() && IsRenewal(k, w, rows, txn, taken) && e in taken
    requires forall e :: worth(e) == w.cs.qdayValue(e, w.cs.index.height + 2)
    ensures txn.minerFee == 1_000_000_000_000_000_000_000 && |txn.outputs| == 1
    ensures txn.outputs[0].value == SumBy(taken, worth) - 1_000_000_000_000_000_000_000
    ensures |rows| - 1 in rows && rows[|rows| - 1].kind == Change && rows[|rows| - 1].address == txn.outputs[0].address
    ensures Max(e.maturity, w.cs.qdayHeight) + w.cs.shieldBlocks <= w.cs.index.height + Max(2, w.cs.shieldBlocks / 4)
    ensures (&& left in w.unspent && left !in taken && 0 < worth(left)
             && (forall t, i :: t in w.pool && i in t.inputs ==> i.parent != left.id)) ==>
              && Max(e.maturity, w.cs.qdayHeight) <= Max(left.maturity, w.cs.qdayHeight)
              && (|taken| == 128 || w.cs.index.height + Max(2, w.cs.shieldBlocks / 4) <
                                      Max(left.maturity, w.cs.qdayHeight) + w.cs.shieldBlocks)
  {
    var _ := TransferInFields(k, w, txn, taken, worth);
    assert txn.outputs[0] in txn.outputs;
    var sorted :| Urgency(w, sorted) && taken == sorted[..Min(MAX_INPUTS, DueCount(w.cs, sorted))];
    TakenIsDue(w.cs, sorted, |taken|, e);
    if left in sorted && left !in taken {
      LeftOut(w.cs, sorted, |taken|, e, left);
    }
    SortedMember(w, sorted, left);
  }

  lemma SortedMember(w: World, sorted: seq<Element>, e: Element)
    requires Urgency(w, sorted)
    ensures e in sorted <==>
              && e in w.unspent && 0 < w.cs.qdayValue(e, w.cs.index.height + 2)
              && forall t, i :: t in w.pool && i in t.inputs ==> i.parent != e.id
  {
    SortedMembers(w, sorted);
  }

  lemma TakenIsDue(cs: Consensus, sorted: seq<Element>, n: nat, e: Element)
    requires SortedBy(sorted, cs.Expiry) && n == Min(MAX_INPUTS, DueCount(cs, sorted)) && e in sorted[..n]
    ensures cs.Due(e)
  {
    DueArePrefix(cs, sorted);
  }

  lemma LeftOut(cs: Consensus, sorted: seq<Element>, n: nat, e: Element, e': Element)
    requires SortedBy(sorted, cs.Expiry) && n == Min(MAX_INPUTS, DueCount(cs, sorted))
    requires e in sorted[..n] && e' in sorted && e' !in sorted[..n]
    ensures Max(e.maturity, cs.qdayHeight) <= Max(e'.maturity, cs.qdayHeight)
    ensures n == 128 || !cs.Due(e')
  {
    var j :| 0 <= j < n && sorted[j] == e;
    var k :| 0 <= k < |sorted| && sorted[k] == e';
    assert forall i :: 0 <= i < n ==> sorted[i] in sorted[..n];
    RenewsTheMostUrgent(cs, sorted, j, k);
    DueAt(cs, sorted, k);
  }

  /** `taken` are the first due outputs of the eligible ones in order of expiry. */
  ghost predicate MostUrgent(w: World, taken: seq<Element>) {
    exists sorted :: Urgency(w, sorted) && taken == sorted[..Min(MAX_INPUTS, DueCount(w.cs, sorted))]
  }

  ghost predicate Urgency(w: World, sorted: seq<Element>) {
    multiset(sorted) == multiset(Eligible(w.cs, SpentIn(w.pool), w.unspent)) && SortedBy(sorted, w.cs.Expiry)
  }

  /** Some output of the wallet that nothing in the pool spends is worth something two blocks on and in the
      last quarter of its shield, two blocks at least. */
  ghost predicate SomethingDue(w: World) {
    exists e :: e in w.unspent && IsDue(w, e)
  }

  ghost predicate IsDue(w: World, e: Element) {
    && 0 < w.cs.qdayValue(e, w.cs.index.height + 2)
    && (forall t, i :: t in w.pool && i in t.inputs ==> i.parent != e.id)
    && Max(e.maturity, w.cs.qdayHeight) + w.cs.shieldBlocks <= w.cs.index.height + Max(2, w.cs.shieldBlocks / 4)
  }

  lemma DueAmong(w: World, sorted: seq<Element>)
    requires Urgency(w, sorted)
    ensures forall e :: e in sorted && w.cs.Due(e) <==> e in w.unspent && IsDue(w, e)
    ensures SomethingDue(w) <==> exists e :: e in sorted && w.cs.Due(e)
  {
    SortedMembers(w, sorted);
  }

  lemma SortedMembers(w: World, sorted: seq<Element>)
    requires Urgency(w, sorted)
    ensures forall e :: e in sorted <==> e in w.unspent && e.id !in SpentIn(w.pool) && w.cs.Worth(e) != 0
    ensures w.Lawful() ==> UniqueIds(sorted)
  {
    var eligible := Eligible(w.cs, SpentIn(w.pool), w.unspent);
    EligibleMembers(w.cs, SpentIn(w.pool), w.unspent);
    forall e ensures e in sorted <==> e in eligible {
      assert e in sorted <==> e in multiset(sorted);
      assert e in eligible <==> e in multiset(eligible);
    }
    if w.Lawful() {
      EligibleUnique(w.cs, SpentIn(w.pool), w.unspent);
      UniqueIdsIgnoreOrder(eligible, sorted);
    }
  }

  lemma DueChosen(w: World, sorted: seq<Element>, owned: set<Address>, taken: seq<Element>)
    requires w.Lawful() && Urgency(w, sorted) && IsDueSelection(w.cs, sorted, owned, taken)
    ensures MostUrgent(w, taken) && SomethingDue(w) && Spendable(w, taken)
  {
    DueAmong(w, sorted);
    assert w.cs.Due(taken[0]) && taken[0] in sorted;
    FirstAreSpendable(w, sorted, |taken|);
  }

  lemma FirstAreSpendable(w: World, sorted: seq<Element>, n: nat)
    requires w.Lawful() && Urgency(w, sorted) && 0 < n <= MAX_INPUTS && n <= |sorted|
    ensures Spendable(w, sorted[..n])
  {
    SortedMembers(w, sorted);
    assert forall e :: e in sorted[..n] ==> e in sorted;
  }

  method ChooseDue(w: World, rows: Rows) returns (r: Result<seq<Element>, SelectError>)
    requires w.Lawful()
    ensures r.Success? ==>
              && MostUrgent(w, r.value) && Spendable(w, r.value)
              && forall e :: e in r.value ==> w.cs.Due(e) && e.address in Managed(rows)
    ensures r == Failure(NothingDue) ==> !SomethingDue(w)
    ensures r == Failure(Overflow) ==> !WithinSupply(w)
    ensures Readable(w, rows) ==> (r.Success? <==> SomethingDue(w))
  {
    var sorted := SortedSpendable(w, w.cs.Expiry);
    if sorted.Failure? {
      return sorted;
    }
    r := SelectDue(w.cs, sorted.value, Managed(rows));
    DueAmong(w, sorted.value);
    match r {
      case Success(taken) => DueChosen(w, sorted.value, Managed(rows), taken);
      case Failure(e) =>
        if e == Overflow && WithinSupply(w) {
          SupplyNeverOverflows(w.cs, SpentIn(w.pool), w.unspent, sorted.value);
        }
    }
  }

  /** Moves the chosen outputs to one fresh own address. */
  method RenewFrom(k: Keyring, book: AddressBook, unlocked: bool, w: World, chosen: seq<Element>)
    returns (r: Result<Transaction, ServiceError>)
    requires k.Injective() && Issued(k, book.rows) && Spendable(w, chosen)
    requires forall e :: e in chosen ==> e.address in Managed(book.rows)
    modifies book
    ensures MayIssue(k, old(book.rows), book.rows)
    ensures r.Success? ==>
              && IsTransfer(k, w, r.value, chosen) && r.value.minerFee == DEFAULT_FEE
              && |r.value.outputs| == 1 && (forall o :: o in r.value.outputs ==> NewestAddress(book.rows, o.address))
              && w.valid(r.value) && w.tipAfter == w.cs.index && DEFAULT_FEE < Total(w.cs, chosen)
    ensures unlocked && Willing(k, w) && DEFAULT_FEE < Total(w.cs, chosen) ==> r.Success?
    ensures r.Failure? ==> !r.error.Selecting? && r.error != StoreRefused
  {
    var total := Total(w.cs, chosen);
    if total <= DEFAULT_FEE {
      return Failure(BelowFee);
    }
    var owners := LookUpOwners(book.rows, chosen);
    OwnersMatch(k, book.rows, chosen, owners);
    var output := FreshOutput(k, book, unlocked, w, total - DEFAULT_FEE);
    if output.Failure? {
      return Failure(output.error);
    }
    OneOutput(output.value);
    r := Assemble(k, w, chosen, owners, [output.value], DEFAULT_FEE);
  }

  /** When nothing outside fails, a renewal is made exactly when something is due, and what is most
      urgent is worth more than the fee. */
  ghost predicate RenewsIffDue(made: bool, k: Keyring, w: World, rows: Rows, taken: seq<Element>) {
    Readable(w, rows) && Willing(k, w) ==>
      && (SomethingDue(w) ==> MostUrgent(w, taken))
      && (made <==> SomethingDue(w) && DEFAULT_FEE < Total(w.cs, taken))
  }

  method BuildDefend(k: Keyring, book: AddressBook, unlocked: bool, w: World)
    returns (r: Result<Transaction, ServiceError>, ghost taken: seq<Element>)
    requires k.Injective() && Issued(k, book.rows) && w.Lawful()
    modifies book
    ensures MayIssue(k, old(book.rows), book.rows)
    ensures r.Success? ==>
              IsRenewal(k, w, book.rows, r.value, taken) && w.valid(r.value) && w.tipAfter == w.cs.index
    ensures r == Failure(Selecting(NothingDue)) ==> !SomethingDue(w)
    ensures unlocked ==> RenewsIffDue(r.Success?, k, w, old(book.rows), taken)
    ensures r.Failure? ==> r.error != StoreRefused
  {
    taken := [];
    var choice := ChooseDue(w, book.rows);
    if choice.Failure? {
      return Failure(Selecting(choice.error)), taken;
    }
    taken := choice.value;
    r := RenewFrom(k, book, unlocked, w, choice.value);
  }

  // ----- swap spends -----

  /** Finds a contract output that is confirmed, unspent, and not spent by the pool either. */
  method FindSwapOutput(w: World, address: Address, id: OutputID) returns (r: Result<Element, ServiceError>)
    ensures match r
            case Success(e) =>
              && e in w.swapOutputs(address) && e.id == id
              && forall t, i :: t in w.pool && i in t.inputs ==> i.parent != id
            case Failure(e) =>
              || (e == IndexSyncing && exists p: nat :: w.basis(p) != w.cs.index)
              || (e == OutputUnavailable && exists t, i :: t in w.pool && i in t.inputs && i.parent == id)
              || (e == OutputUnavailable && forall o :: o in w.swapOutputs(address) ==> o.id != id)
  {
    var spent := PoolSpends(w.pool);
    if id in spent {
      return Failure(OutputUnavailable);
    }
    var outputs := w.swapOutputs(address);
    var offset, p: nat := 0, 0;
    while true
      invariant offset <= |outputs| && forall k :: 0 <= k < offset ==> outputs[k].id != id
      decreases |outputs| - offset
    {
      var page := Page(outputs, offset);
      if w.basis(p) != w.cs.index {
        return Failure(IndexSyncing);
      }
      for k := 0 to |page|
        invariant forall j :: 0 <= j < offset + k ==> outputs[j].id != id
      {
        assert page[k] == outputs[offset + k];
        if page[k].id == id {
          return Success(page[k]);
        }
      }
      assert |page| < PAGE_SIZE ==> offset + |page| == |outputs|;
      if |page| < PAGE_SIZE {
        return Failure(OutputUnavailable);
      }
      offset, p := offset + PAGE_SIZE, p + 1;
    }
  }

  /** A claim carries the secret that opens the contract; a refund carries none. */
  datatype SpendRequest = ClaimWith(secret: Preimage) | RefundAfter

  function WitnessFor(w: World, draft: Transaction, contract: Contract, request: SpendRequest): (r: Option<Witness>) {
    match request
    case ClaimWith(secret) => w.claimWitness(draft, contract, secret)
    case RefundAfter => w.refundWitness(draft, contract)
  }

  /** The secret a stored claim shows. */
  function StoredClaimSecret(txn: Transaction): (r: Option<Preimage>)
    ensures forall s: Preimage :: r == Some(s) <==>
              && |txn.inputs| == 1 && 0 < |txn.inputs[0].preimages|
              && txn.inputs[0].preimages[|txn.inputs[0].preimages| - 1] == s
  {
    if |txn.inputs| != 1 then None else LastPreimage(txn.inputs[0])
  }

  /** The unsigned spend of one contract output. */
  function SpendDraft(w: World, parent: Element, output: Output, fee: nat): (r: Transaction)
    ensures |r.inputs| == 1
  {
    var input := Input(parent.id, parent.address, parent.value, Opaque(parent.address), [], 0);
    var draft := Transaction(0, [input], [output], fee, w.proofs([parent]));
    draft.(id := w.txid(draft))
  }

  /** The draft with the evidence that satisfies the contract. */
  function Satisfied(draft: Transaction, e: Witness): (r: Transaction)
    requires |draft.inputs| == 1
  {
    draft.(inputs := [draft.inputs[0].(policy := e.policy, preimages := e.preimages, signature := e.signature)])
  }

  /** What the wallet makes of a contract output: its whole remaining value, less the fee, to one
      output, with the evidence the contract asks for. */
  ghost predicate IsContractSpend(w: World, address: Address, contract: Contract, request: SpendRequest,
                                  txn: Transaction, parent: Element) {
    && parent in w.swapOutputs(address) && parent.id !in SpentIn(w.pool)
    && parent.maturity <= w.cs.index.height + 1
    && |txn.outputs| == 1 && 0 < txn.outputs[0].value
    && w.cs.qdayValue(parent, w.cs.index.height + 1) == txn.outputs[0].value + txn.minerFee
    && var draft := SpendDraft(w, parent, txn.outputs[0], txn.minerFee);
       var evidence := WitnessFor(w, draft, contract, request);
       evidence.Some? && txn == Satisfied(draft, evidence.value)
  }

  /** A contract spend conserves the output's value at the next height. */
  lemma ContractSpendConserves(w: World, address: Address, contract: Contract, request: SpendRequest,
                               txn: Transaction, parent: Element)
    requires IsContractSpend(w, address, contract, request, txn, parent)
    ensures Conserves(w.cs, w.cs.index.height + 1, txn, [parent])
  {
    OneSum(parent, w.cs.ValueAt(w.cs.index.height + 1));
    assert txn.outputs == [txn.outputs[0]];
    OneOutput(txn.outputs[0]);
  }

  /** A contract spend of output `id` to a freshly issued own address. */
  ghost predicate IsSwapSpend(w: World, rows: Rows, address: Address, contract: Contract, txn: Transaction,
                              id: OutputID, fee: nat, request: SpendRequest, parent: Element) {
    && IsContractSpend(w, address, contract, request, txn, parent) && parent.id == id && txn.minerFee == fee
    && NewestAddress(rows, txn.outputs[0].address)
    && (request.ClaimWith? ==> StoredClaimSecret(txn) == Some(request.secret))
  }

  /** The output can be spent now: confirmed, untouched by the pool, mature and worth more than the fee in the
      next block. */
  ghost predicate CanSpend(w: World, address: Address, id: OutputID, fee: nat) {
    && (forall t, i :: t in w.pool && i in t.inputs ==> i.parent != id)
    && exists e ::
         && e in w.swapOutputs(address) && e.id == id
         && e.maturity <= w.cs.index.height + 1 && fee < w.cs.qdayValue(e, w.cs.index.height + 1)
  }

  /** With a signer that cooperates, an output can be spent exactly when some transaction is a spend of it at
      this fee. */
  lemma CanSpendIff(w: World, address: Address, contract: Contract, id: OutputID, fee: nat, request: SpendRequest)
    requires Cooperative(w, address, contract, request)
    ensures CanSpend(w, address, id, fee) <==>
              exists txn, parent ::
                IsContractSpend(w, address, contract, request, txn, parent) && parent.id == id && txn.minerFee == fee
  {
    if CanSpend(w, address, id, fee) {
      var e :| && e in w.swapOutputs(address) && e.id == id
               && e.maturity <= w.cs.index.height + 1 && fee < w.cs.qdayValue(e, w.cs.index.height + 1);
      var output := Output(0, w.cs.qdayValue(e, w.cs.index.height + 1) - fee);
      var evidence := WitnessFor(w, SpendDraft(w, e, output, fee), contract, request);
      assert IsContractSpend(w, address, contract, request,
                             Satisfied(SpendDraft(w, e, output, fee), evidence.value), e);
    }
  }

  /** Field by field: a contract spend takes the one mature output that nothing in the pool spends, with the
      evidence the signer gives for the unsigned transaction; a claim shows the secret last. */
  lemma ContractSpendInFields(w: World, address: Address, contract: Contract, request: SpendRequest,
                              txn: Transaction, parent: Element) returns (draft: Transaction, evidence: Witness)
    requires w.Lawful() && IsContractSpend(w, address, contract, request, txn, parent)
    ensures parent in w.swapOutputs(address) && parent.maturity <= w.cs.index.height + 1
    ensures forall t, i :: t in w.pool && i in t.inputs ==> i.parent != parent.id
    ensures txn.inputs == [Input(parent.id, address, parent.value, evidence.policy, evidence.preimages,
                                 evidence.signature)]
    ensures |txn.outputs| == 1 && 0 < txn.outputs[0].value
    ensures txn.outputs[0].value + txn.minerFee == w.cs.qdayValue(parent, w.cs.index.height + 1)
    ensures draft == txn.(inputs := [Input(parent.id, address, parent.value, Opaque(address), [], 0)])
    ensures txn.proofs == w.proofs([parent]) && txn.id == w.txid(draft.(id := 0))
    ensures match request
            case ClaimWith(secret) =>
              && w.claimWitness(draft, contract, secret) == Some(evidence)
              && 0 < |txn.inputs[0].preimages| && txn.inputs[0].preimages[|txn.inputs[0].preimages| - 1] == secret
            case RefundAfter => w.refundWitness(draft, contract) == Some(evidence)
  {
    draft := SpendDraft(w, parent, txn.outputs[0], txn.minerFee);
    evidence := WitnessFor(w, draft, contract, request).value;
    assert txn.outputs == [txn.outputs[0]];
    forall t, i | t in w.pool && i in t.inputs ensures i.parent != parent.id {
      assert i.parent in SpentIn(w.pool);
    }
  }

  /** Nothing outside the wallet stands in the way of a contract spend: the index answers at the tip, the
      signer satisfies drafts that spend the contract's outputs, and validation accepts what it signs. */
  ghost predicate Cooperative(w: World, address: Address, contract: Contract, request: SpendRequest) {
    && (forall p: nat :: w.basis(p) == w.cs.index) && w.tipAfter == w.cs.index && w.registers
    && (forall parent, output, fee :: parent in w.swapOutputs(address) ==>
          WitnessFor(w, SpendDraft(w, parent, output, fee), contract, request).Some?)
    && forall txn, parent :: IsContractSpend(w, address, contract, request, txn, parent) ==> w.valid(txn)
  }

  /** When nothing outside fails, a spend is made exactly when the output can be spent. */
  ghost predicate SpendsIffRipe(made: bool, w: World, address: Address, contract: Contract, id: OutputID, fee: nat,
                                request: SpendRequest) {
    Cooperative(w, address, contract, request) ==> (made <==> CanSpend(w, address, id, fee))
  }

  method BuildSwapSpend(k: Keyring, book: AddressBook, unlocked: bool, w: World, address: Address, contract: Contract,
                        id: OutputID, fee: nat, request: SpendRequest)
    returns (r: Result<Transaction, ServiceError>, ghost parent: Element)
    requires k.Injective() && Issued(k, book.rows) && w.Lawful()
    modifies book
    ensures MayIssue(k, old(book.rows), book.rows)
    ensures r.Success? ==>
              && IsSwapSpend(w, book.rows, address, contract, r.value, id, fee, request, parent)
              && w.valid(r.value) && w.tipAfter == w.cs.index
    ensures unlocked ==> SpendsIffRipe(r.Success?, w, address, contract, id, fee, request)
  {
    parent := Element(id, address, 0, 0);
    var found := ChooseSwapOutput(w, address, id, fee);
    if found.Failure? {
      return Failure(found.error), parent;
    }
    parent := found.value;
    var output := FreshOutput(k, book, unlocked, w, w.cs.qdayValue(found.value, w.cs.index.height + 1) - fee);
    if output.Failure? {
      return Failure(output.error), parent;
    }
    r := SpendWhole(w, found.value, output.value, address, contract, fee, request);
  }

  /** A contract output that can be spent in the next block and is worth more than the fee. */
  method ChooseSwapOutput(w: World, address: Address, id: OutputID, fee: nat) returns (r: Result<Element, ServiceError>)
    requires w.Lawful()
    ensures r.Success? ==>
              && r.value in w.swapOutputs(address) && r.value.id == id && id !in SpentIn(w.pool)
              && r.value.maturity <= w.cs.index.height + 1
              && fee < w.cs.qdayValue(r.value, w.cs.index.height + 1)
    ensures (forall p: nat :: w.basis(p) == w.cs.index) ==> (r.Success? <==> CanSpend(w, address, id, fee))
  {
    r := FindSwapOutput(w, address, id);
    if r.Failure? {
      return;
    }
    if r.value.maturity > w.cs.index.height + 1 {
      return Failure(Immature);
    }
    if w.cs.qdayValue(r.value, w.cs.index.height + 1) <= fee {
      return Failure(BelowFee);
    }
  }

  /** Spends the whole output: signs the draft and makes the last checks. */
  method SpendWhole(w: World, parent: Element, output: Output, address: Address, contract: Contract, fee: nat,
                    request: SpendRequest)
    returns (r: Result<Transaction, ServiceError>)
    requires w.Lawful() && w.cs.qdayValue(parent, w.cs.index.height + 1) == output.value + fee && 0 < output.value
    requires parent in w.swapOutputs(address) && parent.id !in SpentIn(w.pool)
    requires parent.maturity <= w.cs.index.height + 1
    ensures r.Success? ==>
              && IsContractSpend(w, address, contract, request, r.value, parent)
              && r.value.outputs == [output] && r.value.minerFee == fee
              && w.valid(r.value) && w.tipAfter == w.cs.index
              && (request.ClaimWith? ==> StoredClaimSecret(r.value) == Some(request.secret))
    ensures Cooperative(w, address, contract, request) ==> r.Success?
  {
    var draft := SpendDraft(w, parent, output, fee);
    var evidence := WitnessFor(w, draft, contract, request);
    if evidence.None? {
      return Failure(Interrupted);
    }
    var txn := Satisfied(draft, evidence.value);
    assert IsContractSpend(w, address, contract, request, txn, parent);
    if w.tipAfter != w.cs.index {
      return Failure(TipMoved);
    }
    if !w.valid(txn) {
      return Failure(InvalidTransaction);
    }
    return Success(txn);
  }

  lemma OneSum(e: Element, g: Element -> nat)
    ensures SumBy([e], g) == g(e)
  {
  }
}
