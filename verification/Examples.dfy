/** The laws assumed of the outside can be met: a setup, a world and a node that meet them, and a run of
    the service in which a withdrawal is made and rebroadcast. */
module Examples {
  import opened Wrappers
  import opened Ledger
  import opened Chains
  import opened Proofs
  import opened Sums
  import opened Journals
  import JournalRuns
  import opened Addresses
  import opened Selection
  import opened SwapPolicies
  import opened SwapClaims
  import opened Building
  import opened Records
  import opened WalletSteps
  import opened WalletRuns
  import opened Wallets

  // ----- a setup -----

  function Zeros(n: nat): (r: string)
    ensures |r| == n && forall k :: 0 <= k < n ==> r[k] == '0'
  {
    if n == 0 then "" else Zeros(n - 1) + "0"
  }

  /** A text for every output: as many zeros as the transaction ID, a one, as many zeros as the index. */
  function Text(o: OutputID): (r: string) {
    Zeros(o.txid) + "1" + Zeros(o.index)
  }

  lemma TextIsInjective(o: OutputID, o': OutputID)
    requires Text(o) == Text(o')
    ensures o == o'
  {
    var text := Text(o);
    assert forall k :: 0 <= k < |text| ==> (text[k] == '1' <==> k == o.txid);
    assert forall k :: 0 <= k < |text| ==> (text[k] == '1' <==> k == o'.txid);
    assert text[o.txid] == '1';
    assert |text| == o.txid + 1 + o.index == o'.txid + 1 + o'.index;
  }

  /** Contracts reveal their hash branch to the claimant, and their height branch to the refunder. */
  function Branch(lock: Policy): (r: Policy) {
    Threshold(1, [Threshold(3, [PublicKey(0), PublicKey(1), lock]), Opaque(1)])
  }

  function SomeCrypto(): (r: Crypto) {
    Crypto((c: Contract) => Some(Branch(HashLock(c.secretHash))), p => 1, p => true, s => s)
  }

  function SomeSetup(): (r: Setup) {
    Setup(Keyring(i => i, p => p), id => |id|, SomeCrypto(), Text, Zeros)
  }

  lemma TextsAreHex(o: OutputID)
    ensures forall c :: c in Text(o) ==> HexDigit(c)
  {
  }

  lemma TextsAreInjective(o: OutputID, o': OutputID, t: TxID, t': TxID)
    ensures Text(o) == Text(o') ==> o == o'
    ensures Zeros(t) == Zeros(t') ==> t == t'
  {
    if Text(o) == Text(o') {
      TextIsInjective(o, o');
    }
    assert |Zeros(t)| == t && |Zeros(t')| == t';
  }

  lemma SetupIsLawful()
    ensures SomeSetup().Lawful()
  {
    forall o, o', t, t'
      ensures Text(o) == Text(o') ==> o == o'
      ensures Zeros(t) == Zeros(t') ==> t == t'
    {
      TextsAreInjective(o, o', t, t');
    }
    forall o ensures forall c :: c in Text(o) ==> HexDigit(c) {
      TextsAreHex(o);
    }
  }

  /** The address table with its first row. */
  function FirstRow(s: Setup): (r: Rows) {
    map[0 := s.keys.Row(0, "customer", Deposit)]
  }

  // ----- a world at the genesis block -----

  function Genesis(): (r: Chain) {
    Chain(map[0 := Block(0, 0)], [0], {0})
  }

  /** Proofs that never change. */
  function SomeLibrary(): (r: Library) {
    Library((b, ts) => Some(ts), (b, ts) => Some(ts), (ts, b) => true)
  }

  lemma LibraryIsLawful()
    ensures Genesis().WellFormed() && SomeLibrary().Lawful(Genesis())
    ensures SomeLibrary().DropsOnlyIncluded(b => {})
  {
    forall ts: seq<Transaction>, t | t in ts
      ensures SameBody(t, t) && Survives(t, ts)
    {
    }
  }

  /** The wallet owns one output of value 10, under its first address; one more is a contract's. */
  function Owned(): (r: Element) {
    Element(OutputID(1, 0), 0, 10, 0)
  }

  function Contracted(): (r: Element) {
    Element(OutputID(1, 1), 1, 10, 0)
  }

  function SomeWorld(): (r: World) {
    World(Genesis(), SomeLibrary(), Consensus(ChainIndex(0, 0), 0, 0, (e: Element, h) => e.value),
          ChainIndex(0, 0), ChainIndex(0, 0), true, true, true, "q",
          [], [Owned()], p => ChainIndex(0, 0), a => if a == 1 then [Contracted()] else [],
          true, true, t => 7, es => [], t => 0, (i, h) => 0,
          (t, c: Contract, s: Preimage) => Some(Witness(Branch(HashLock(c.secretHash)), [s], 0)),
          (t, c: Contract) => Some(Witness(Branch(Above(c.refundHeight)), [], 0)),
          t => true, t => true, t => true)
  }

  lemma WorldIsLawful()
    ensures SomeWorld().Lawful() && SomeWorld().Anchored() && Willing(SomeSetup().keys, SomeWorld())
  {
    LibraryIsLawful();
  }

  lemma WorldIsReadable()
    ensures Readable(SomeWorld(), FirstRow(SomeSetup()))
  {
    assert [Owned()][..0] == [];
    assert SumBy([Owned()], Stored) == 10;
    assert FirstRow(SomeSetup())[0].address == 0;
  }

  lemma SignerIsHonest()
    ensures SignsThrough(SomeWorld(), SomeCrypto())
  {
    forall lock: Policy | !lock.Opaque?
      ensures Revealed(Branch(lock).of) == Some(Branch(lock).of[0])
    {
      assert Branch(lock).of[..1] == [Branch(lock).of[0]];
    }
  }

  /** One choice pays 9 and a fee of 1. */
  lemma SomethingPays()
    ensures !NothingPays(SomeWorld(), 10)
  {
    var w := SomeWorld();
    var chosen := {Owned().id};
    assert w.unspent[..0] == [] && SpentIn(w.pool) == {};
    var eligible := Eligible(w.cs, SpentIn(w.pool), w.unspent);
    assert Eligible(w.cs, {}, []) == [];
    assert w.cs.Worth(Owned()) == 10;
    assert eligible == [] + [Owned()] == [Owned()];
    OneSum(Owned(), (e: Element) => if e.id in chosen then w.cs.Worth(e) else 0);
    assert Owned() in eligible;
    assert Pays(w.cs, eligible, chosen, 10);
  }

  /** A contract spend can be made: the output is ripe, and signer and validation cooperate. */
  lemma SpendIsPossible(contract: Contract, request: SpendRequest)
    ensures Cooperative(SomeWorld(), 1, contract, request) && CanSpend(SomeWorld(), 1, Contracted().id, 1)
  {
    assert Contracted() in SomeWorld().swapOutputs(1);
  }

  // ----- a run -----

  function SomeNode(): (r: Node) {
    Node(Genesis(), SomeLibrary(), b => {}, txid => NotFound, txid => k => false, t => true, ts => true,
         (id, w) => true)
  }

  lemma NodeIsWellFormed()
    ensures SomeNode().WellFormed() && SomeNode().Faultless() && SomeNode().IndexAtTip()
    ensures JournalRuns.Honest(SomeNode()) && SomeNode().lib.DropsOnlyIncluded(SomeNode().includes)
  {
    LibraryIsLawful();
  }

  function SomeEnv(): (r: Env) {
    Env(SomeSetup(), SomeLibrary(), b => {})
  }

  /** A world in which a customer who was given the first address can withdraw 9 at a fee of 1, and a node
      that follows it. */
  ghost predicate Hospitable(env: Env, w: World, node: Node) {
    && env.setup.Lawful() && w.Lawful() && w.Anchored() && Willing(env.setup.keys, w)
    && w.lib == env.lib && w.networkSynced && w.indexTip == w.cs.index && w.unit == "q"
    && Readable(w, FirstRow(env.setup)) && !NothingPays(w, 10)
    && node.chain == w.chain && node.lib == env.lib && node.includes == env.includes
    && node.WellFormed() && node.Faultless() && node.IndexAtTip() && JournalRuns.Honest(node)
  }

  lemma SomethingIsHospitable()
    ensures Hospitable(SomeEnv(), SomeWorld(), SomeNode())
  {
    SetupIsLawful();
    WorldIsLawful();
    WorldIsReadable();
    SomethingPays();
    NodeIsWellFormed();
  }

  function Empty(): (r: Books) {
    Books(map[], map[], map[], map[], map[])
  }

  function At(c: Chain, b: Books): (r: System) {
    System(c, c, b)
  }

  lemma OneCall(env: Env, w: World, node: Node, b: Books, step: Step, b': Books)
    requires Hospitable(env, w, node) && Performs(env.setup, b, step, b')
    requires (Builds(step) ==> step.w == w) && (step.Sweep? ==> step.node == node)
    ensures Next(env, At(w.chain, b), Call(step), At(w.chain, b'))
  {
  }

  lemma ThreeMoves(env: Env, states: seq<System>, moves: seq<Move>)
    requires env.setup.Lawful() && |moves| == 3 && |states| == 4
    requires states[0].books == Empty() && states[0].chain.WellFormed() && states[0].swept == states[0].chain
    requires Next(env, states[0], moves[0], states[1])
    requires Next(env, states[1], moves[1], states[2]) && Next(env, states[2], moves[2], states[3])
    ensures WalletRuns.Run(env, states, moves)
  {
    forall k | 0 <= k < |moves|
      ensures Next(env, states[k], moves[k], states[k + 1])
    {
      assert k == 0 || k == 1 || k == 2;
    }
  }

  function Moves(w: World, sweep: Step): (r: seq<Move>) {
    [Call(Allocate(Issue("customer", Deposit))), Call(Withdraw(w, "w", 5, 9, 1)), Call(sweep)]
  }

  function States(w: World, b1: Books, b2: Books, b3: Books): (r: seq<System>) {
    [At(w.chain, Empty()), At(w.chain, b1), At(w.chain, b2), At(w.chain, b3)]
  }

  lemma ThreeCalls(env: Env, w: World, node: Node, b1: Books, b2: Books, b3: Books, sweep: Step)
    requires Hospitable(env, w, node) && sweep.Sweep? && sweep.node == node
    requires Performs(env.setup, Empty(), Allocate(Issue("customer", Deposit)), b1)
    requires Performs(env.setup, b1, Withdraw(w, "w", 5, 9, 1), b2) && Performs(env.setup, b2, sweep, b3)
    ensures WalletRuns.Run(env, States(w, b1, b2, b3), Moves(w, sweep))
  {
    OneCall(env, w, node, Empty(), Allocate(Issue("customer", Deposit)), b1);
    OneCall(env, w, node, b1, Withdraw(w, "w", 5, 9, 1), b2);
    OneCall(env, w, node, b2, sweep, b3);
    ThreeMoves(env, States(w, b1, b2, b3), Moves(w, sweep));
  }

  /** A new wallet with one customer's address. */
  method Opened(setup: Setup) returns (wallet: Wallet)
    requires setup.Lawful()
    ensures fresh(wallet) && fresh(wallet.book) && fresh(wallet.withdrawals) && fresh(wallet.actions)
    ensures wallet.Valid() && wallet.unlocked && wallet.setup == setup
    ensures Performs(setup, Empty(), Allocate(Issue("customer", Deposit)), wallet.Records())
    ensures wallet.withdrawals.rows == map[] && wallet.book.rows == FirstRow(setup)
  {
    wallet := new Wallet(setup);
    wallet.Unlock();
    var address := wallet.NewDepositAddress("customer", true);
  }

  /** Whoever asks twice with one reference gets the same address, even if the wallet has been locked since. */
  method AskTwice(wallet: Wallet, reference: string, registers: bool, registersAgain: bool)
    returns (first: Result<Record, ServiceError>, second: Result<Record, ServiceError>)
    requires wallet.Valid()
    modifies wallet, wallet.book
    ensures first.Success? && registersAgain ==> second == first
    ensures second.Success? && first.Success? ==> second == first
  {
    first := wallet.NewDepositAddress(reference, registers);
    wallet.Lock();
    second := wallet.NewDepositAddress(reference, registersAgain);
  }

  /** The customer has paid in, and withdraws. */
  method Withdrawal(wallet: Wallet, w: World) returns (r: Result<Reply, ServiceError>)
    requires wallet.Valid() && wallet.unlocked && wallet.withdrawals.rows == map[]
    requires w.Lawful() && Willing(wallet.setup.keys, w) && Readable(w, wallet.book.rows) && !NothingPays(w, 10)
    requires w.networkSynced && w.indexTip == w.cs.index && w.unit == "q"
    modifies wallet.book, wallet.withdrawals
    ensures wallet.Valid() && r.Success? && r.value.created && "w" in wallet.withdrawals.rows
    ensures Performs(wallet.setup, old(wallet.Records()), Withdraw(w, "w", 5, 9, 1), wallet.Records())
  {
    assert ValidRequestID("w") && 9 + 1 < CURRENCY_LIMIT;
    ghost var taken;
    r, taken := wallet.CreateWithdrawal(w, "w", 5, 9, 1, "q");
  }

  /** Address, withdrawal, pass: in every hospitable world they succeed and are a run of the service. */
  method DepositAndWithdraw(env: Env, w: World, node: Node)
    returns (r: Result<Reply, ServiceError>, ghost states: seq<System>, ghost moves: seq<Move>)
    requires Hospitable(env, w, node)
    ensures r.Success? && r.value.created
    ensures WalletRuns.Run(env, states, moves) && |moves| == 3 && IsSweep(moves[2])
    ensures "w" in states[2].books.withdrawals
  {
    var wallet := Opened(env.setup);
    ghost var b1 := wallet.Records();
    r := Withdrawal(wallet, w);
    ghost var b2 := wallet.Records();
    var sentWithdrawals, sentActions := wallet.Rebroadcast(node);
    ghost var b3 := wallet.Records();
    ghost var sweep := Step.Sweep(node, sentWithdrawals, sentActions);
    ThreeCalls(env, w, node, b1, b2, b3, sweep);
    states, moves := States(w, b1, b2, b3), Moves(w, sweep);
  }
}
