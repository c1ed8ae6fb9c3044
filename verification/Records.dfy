/** What the daemon writes down, as one value, and what holds of it. */
module Records {
  import opened Wrappers
  import opened Ledger
  import opened Journals
  import opened JournalRuns
  import opened Addresses
  import opened SwapPolicies
  import opened Building

  datatype Role = Recipient | RefundOwner

  datatype ActionKind = FundSwap | ClaimSwap | RefundSwap

  datatype WithdrawalTerms = WithdrawalTerms(defend: bool, destination: Address, amount: nat, fee: nat)

  /** A swap action; only a fund action has no output. */
  datatype ActionTerms = ActionTerms(swapID: string, kind: ActionKind, output: Option<OutputID>, destination: Address,
                                     amount: nat, fee: nat)

  datatype Swap = Swap(role: Role, contract: Contract, address: Address)

  /** Key derivation, contract policies, and the hexadecimal text of identifiers. */
  datatype Setup = Setup(keys: Keyring, swapKey: string -> nat, crypto: Crypto, outputText: OutputID -> string,
                         txText: TxID -> string)
  {
    ghost predicate Lawful() {
      && keys.Injective()
      && (forall o, c :: c in outputText(o) ==> HexDigit(c))
      && (forall o, o' :: outputText(o) == outputText(o') ==> o == o')
      && (forall t, t' :: txText(t) == txText(t') ==> t == t')
    }

    function ContractAddress(c: Contract): (r: Option<Address>) {
      match crypto.contractPolicy(c)
      case None => None
      case Some(p) => Some(crypto.address(p))
    }
  }

  predicate HexDigit(c: char) {
    '0' <= c <= '9' || 'a' <= c <= 'f'
  }

  predicate ValidRequestID(s: string): (r: bool)
    ensures r ==> 1 <= |s| <= 128
    ensures 1 <= |s| <= 128 ==>
              (!r <==> exists k :: 0 <= k < |s| && s[k] !in ['.', '_', ':', '-'] &&
                                   !('a' <= s[k] <= 'z') && !('A' <= s[k] <= 'Z') && !('0' <= s[k] <= '9'))
  {
    0 < |s| <= 128 && forall c :: c in s ==> 'a' <= c <= 'z' || 'A' <= c <= 'Z' || '0' <= c <= '9' || c in "._:-"
  }

  /** References of deposit addresses are printable. */
  predicate ValidReference(s: string): (r: bool)
    ensures r ==> 1 <= |s| <= 128
    ensures 1 <= |s| <= 128 ==> (r <==> forall c :: c in s ==> 0x21 <= c as int <= 0x7e)
  {
    0 < |s| <= 128 && forall c :: c in s ==> '!' <= c <= '~'
  }

  // ----- identifiers -----

  /** The request ID of an automatic renewal. */
  function DefendID(s: Setup, txid: TxID): (r: string) {
    "defend:" + s.txText(txid)
  }

  /** Two renewals never share a request ID. */
  lemma DefendIDIsInjective(s: Setup, t: TxID, t': TxID)
    requires s.Lawful() && DefendID(s, t) == DefendID(s, t')
    ensures t == t'
  {
    assert DefendID(s, t)[7..] == s.txText(t) && DefendID(s, t')[7..] == s.txText(t');
  }

  /** The primary key of a swap action. */
  function ActionID(s: Setup, swapID: string, kind: ActionKind, output: Option<OutputID>): (r: string) {
    match kind
    case FundSwap => swapID + ":fund"
    case ClaimSwap => swapID + ":claim:" + OutputText(s, output)
    case RefundSwap => swapID + ":refund:" + OutputText(s, output)
  }

  function OutputText(s: Setup, output: Option<OutputID>): (r: string) {
    match output
    case None => ""
    case Some(o) => s.outputText(o)
  }

  /** Only a fund action lacks an output. */
  predicate ProperTriple(kind: ActionKind, output: Option<OutputID>) {
    kind == FundSwap <==> output == None
  }

  /** What follows the last colon of an action's key, and what comes before it. */
  function Tail(s: Setup, kind: ActionKind, output: Option<OutputID>): (r: string) {
    if kind == FundSwap then "fund" else OutputText(s, output)
  }

  function Head(swapID: string, kind: ActionKind): (r: string) {
    match kind
    case FundSwap => swapID
    case ClaimSwap => swapID + ":claim"
    case RefundSwap => swapID + ":refund"
  }

  lemma ActionIDSplits(s: Setup, swapID: string, kind: ActionKind, output: Option<OutputID>)
    requires s.Lawful() && ProperTriple(kind, output)
    ensures ActionID(s, swapID, kind, output) == Head(swapID, kind) + ":" + Tail(s, kind, output)
    ensures ':' !in Tail(s, kind, output) && (kind == FundSwap <==> 'u' in Tail(s, kind, output))
  {
    var text := OutputText(s, output);
    assert kind != FundSwap ==> text == s.outputText(output.value) && forall c :: c in text ==> HexDigit(c);
    match kind {
      case FundSwap => assert "fund"[1] == 'u' && swapID + ":fund" == swapID + ":" + "fund";
      case ClaimSwap => assert swapID + ":claim:" + text == swapID + ":claim" + ":" + text;
      case RefundSwap => assert swapID + ":refund:" + text == swapID + ":refund" + ":" + text;
    }
  }

  /** A string splits at its last colon in one way only. */
  lemma LastColonSplits(head: string, tail: string, head': string, tail': string)
    requires head + ":" + tail == head' + ":" + tail' && ':' !in tail && ':' !in tail'
    ensures head == head' && tail == tail'
  {
    var whole := head + ":" + tail;
    assert whole[|head|] == ':' && whole[|head'|] == ':';
    assert forall k :: |head| < k < |whole| ==> whole[k] == tail[k - |head| - 1];
    assert forall k :: |head'| < k < |whole| ==> whole[k] == tail'[k - |head'| - 1];
    assert whole[..|head|] == head && whole[..|head'|] == head';
    assert whole[|head| + 1..] == tail && whole[|head'| + 1..] == tail';
  }

  /** The letter before the last colon tells a claim from a refund. */
  lemma HeadsDiffer(swapID: string, kind: ActionKind, swapID': string, kind': ActionKind)
    requires Head(swapID, kind) == Head(swapID', kind') && (kind == FundSwap <==> kind' == FundSwap)
    ensures swapID == swapID' && kind == kind'
  {
    var head := Head(swapID, kind);
    if kind != FundSwap {
      assert head[|head| - 1] == (if kind == ClaimSwap then 'm' else 'd');
      assert head[|head| - 1] == (if kind' == ClaimSwap then 'm' else 'd');
      var tag := if kind == ClaimSwap then 6 else 7;
      assert head[..|head| - tag] == swapID && head[..|head| - tag] == swapID';
    }
  }

  /** Although a swap ID may itself contain colons, two actions never share a key: the key determines
      swap, kind and output. */
  lemma ActionIDIsInjective(s: Setup, swapID: string, kind: ActionKind, output: Option<OutputID>, swapID': string,
                            kind': ActionKind, output': Option<OutputID>)
    requires s.Lawful() && ProperTriple(kind, output) && ProperTriple(kind', output')
    requires ActionID(s, swapID, kind, output) == ActionID(s, swapID', kind', output')
    ensures swapID == swapID' && kind == kind' && output == output'
  {
    ActionIDSplits(s, swapID, kind, output);
    ActionIDSplits(s, swapID', kind', output');
    LastColonSplits(Head(swapID, kind), Tail(s, kind, output), Head(swapID', kind'), Tail(s, kind', output'));
    HeadsDiffer(swapID, kind, swapID', kind');
    if kind != FundSwap {
      assert s.outputText(output.value) == s.outputText(output'.value);
    }
  }

  // ----- the records as one value -----

  datatype Books = Books(
    rows: Rows, withdrawals: map<string, Entry<WithdrawalTerms>>, actions: map<string, Entry<ActionTerms>>,
    swapKeys: map<string, nat>, swaps: map<string, Swap>)

  predicate SameTriple(a: ActionTerms, b: ActionTerms) {
    a.swapID == b.swapID && a.kind == b.kind && a.output == b.output
  }

  predicate Names(t: ActionTerms, swapID: string, kind: ActionKind, output: Option<OutputID>) {
    t.swapID == swapID && t.kind == kind && t.output == output
  }

  /** The recipient claims, the refund owner refunds. */
  predicate MayAct(role: Role, kind: ActionKind) {
    (kind == ClaimSwap ==> role == Recipient) && (kind == RefundSwap ==> role == RefundOwner)
  }

  /** What holds of the records at all times. */
  ghost predicate Consistent(s: Setup, b: Books) {
    && Issued(s.keys, b.rows)
    && (forall id :: id in b.actions ==>
          var t := b.actions[id].terms;
          && ProperTriple(t.kind, t.output) && id == ActionID(s, t.swapID, t.kind, t.output)
          && t.swapID in b.swaps
          && MayAct(b.swaps[t.swapID].role, t.kind))
    && (forall id :: id in b.swaps ==>
          id in b.swapKeys && OwnSide(b.swaps[id]) == b.swapKeys[id]
            && s.ContractAddress(b.swaps[id].contract) == Some(b.swaps[id].address))
    && (forall i, j :: i in b.swaps && j in b.swaps && b.swaps[i].address == b.swaps[j].address ==> i == j)
  }

  /** The keys on the daemon's own side of a contract. */
  function OwnSide(swap: Swap): (r: nat) {
    match swap.role
    case Recipient => swap.contract.recipient
    case RefundOwner => swap.contract.refund
  }

  /** Records are only ever added; what an entry says, and which transaction it holds up to its
      proofs, never changes. */
  ghost predicate Grows(b: Books, b': Books) {
    && (forall i :: i in b.rows ==> i in b'.rows && b'.rows[i] == b.rows[i])
    && SameActions(b.withdrawals, b'.withdrawals) && SameActions(b.actions, b'.actions)
    && (forall id :: id in b.swapKeys ==> id in b'.swapKeys && b'.swapKeys[id] == b.swapKeys[id])
    && (forall id :: id in b.swaps ==> id in b'.swaps && b'.swaps[id] == b.swaps[id])
  }

  /** A (swap, kind, output) triple has at most one journal entry. */
  lemma TripleIsUnique(s: Setup, b: Books, i: string, j: string)
    requires Consistent(s, b) && i in b.actions && j in b.actions && SameTriple(b.actions[i].terms, b.actions[j].terms)
    ensures i == j
  {
  }

  /** One daemon never holds both a claim and a refund of the same swap. */
  lemma NeverClaimAndRefund(s: Setup, b: Books, i: string, j: string)
    requires Consistent(s, b) && i in b.actions && j in b.actions
               && b.actions[i].terms.swapID == b.actions[j].terms.swapID
    ensures !(b.actions[i].terms.kind == ClaimSwap && b.actions[j].terms.kind == RefundSwap)
  {
  }

  /** The row of a triple is the one under its key. */
  lemma TripleIffKey(s: Setup, b: Books, swapID: string, kind: ActionKind, output: Option<OutputID>)
    requires s.Lawful() && Consistent(s, b) && ProperTriple(kind, output)
    ensures forall id :: id in b.actions ==>
              (Names(b.actions[id].terms, swapID, kind, output) <==> id == ActionID(s, swapID, kind, output))
  {
    forall id | id in b.actions && id == ActionID(s, swapID, kind, output)
      ensures Names(b.actions[id].terms, swapID, kind, output)
    {
      var t := b.actions[id].terms;
      ActionIDIsInjective(s, swapID, kind, output, t.swapID, t.kind, t.output);
    }
  }

  lemma GrowsIsReflexive(b: Books)
    ensures Grows(b, b)
  {
  }

  lemma GrowsIsTransitive(b0: Books, b1: Books, b2: Books)
    requires Grows(b0, b1) && Grows(b1, b2)
    ensures Grows(b0, b2)
  {
  }

  /** However proofs are updated in between, a later retry is compared with the same terms, finds the
      same transaction, and reads the same secret out of it. */
  lemma RetriesFindTheSame(b: Books, b': Books, id: string)
    requires Grows(b, b')
    ensures id in b.withdrawals ==>
              id in b'.withdrawals && b'.withdrawals[id].terms == b.withdrawals[id].terms
              && b'.withdrawals[id].txn.id == b.withdrawals[id].txn.id
    ensures id in b.actions ==>
              && id in b'.actions && b'.actions[id].terms == b.actions[id].terms
              && b'.actions[id].txn.id == b.actions[id].txn.id
              && StoredClaimSecret(b'.actions[id].txn) == StoredClaimSecret(b.actions[id].txn)
  {
  }
}
