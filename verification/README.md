# Proofs about the QDAY wallet daemon

This project models the custody logic of `qday-walletd` in Dafny and proves properties of the model.
`dafny verify dfyconfig.toml` checks everything; there is nothing to run.

The modules follow the program:

- `Chains`, `Proofs`: the block tree with its selected chain, and `updateProofs`, which moves a
  transaction set's accumulator proofs between two blocks in steps of at most 72.
- `Journals`, `JournalRuns`: the journal of signed transactions, its rebroadcast pass, and what holds over
  whole runs of inserts, chain growth, reorganisations, restarts and passes. Withdrawals and swap actions
  are two instances of the same journal.
- `SwapPolicies`, `SwapObservers`, `SwapMeaning`, `SwapStatuses`: reading swap spends, replaying history and
  pool, what the replay means, and the status of a session. `SwapClaims`: the daemon reads its own claims and
  refunds as what they are.
- `Selection`, `Building`: paged reading of outputs, coin selection, DEFEND selection, and built
  transactions. `Sums` holds the lemmas about sums.
- `Addresses`, `Deposits`: child-address allocation and recovery, and the paged deposit feed.
- `Records`, `WalletSteps`, `Wallets`: what the service writes down, what each call may do to it, and the
  service itself, whose every method ensures its step.
- `WalletRuns`: what holds over whole runs of the service, of chain growth, reorganisations and passes, from
  an empty store. A run of the service is a run of both journals.
- `Examples`: the assumptions can be met. A setup, a world and a node satisfy all of them at once
  (`Examples.SomethingIsHospitable`), a deposit address, a withdrawal and a pass in any such world succeed and
  are a run (`Examples.DepositAndWithdraw`), and a contract spend can be made (`Examples.SpendIsPossible`).
- Lemmas whose names end in `InFields` repeat in plain fields, without the model's own functions (sums and
  maxima aside), what the named predicates of the other contracts say.

How the outside is modelled:

- The chain manager's proof arithmetic is a pair of functions, one block at a time (`Library.apply` and
  `Library.revert`), that may fail, drop confirmed transactions, and otherwise change nothing but proofs.
  Which proofs are right at a block is an arbitrary relation (`Library.valid`) that these functions keep.
- Hash functions, key derivation, addresses, signatures, the decay function `QdayValue`, consensus
  validation, the wallet index, the pool, the network and store failures are function-valued parameters
  (`Node`, `World`, `Setup`, `Crypto`). Where a proof needs a law of one of them it is a named predicate:
  `Lawful`, `Injective`, `Decays`, `IndexAtTip`, `Faultless`, `Honest`, `SignsThrough`, `DropsOnlyIncluded` (a
  proof update drops only what a block it applies includes), and `Anchored`: a call reads the consensus state
  at the tip of a chain, and what validation accepts there has right proofs there.
- When an operation succeeds is stated for a world in which nothing outside it fails: `Readable` (the index
  answers at the tip, lists only managed outputs, and no more than was ever mined), `Willing` (work,
  registration and the tip do not stop it, and validation accepts the transfers the wallet makes: of its own
  spendable outputs, conserving their decayed value, each signed by its owner) and `Cooperative` (the same for
  contract spends, with a signer that satisfies drafts spending the contract's outputs).
- Hashes and addresses are numbers and heights are unbounded. Texts of output IDs are made of hexadecimal
  digits and differ for different outputs; that they all have 64 digits is neither assumed nor needed.
- Amounts are unbounded too, but every addition that could leave 128 bits is checked where the program would
  panic, and is proved not to happen within the main network's supply.
- Each operation of the service is one atomic step.

Where the code does something other than one would expect, the proofs say so exactly:

- A pass can store a confirmation off the selected chain when the wallet index lags behind a reorganisation,
  although nothing fails. `JournalRuns.LaggingIndexStoresOrphan` is such a case and
  `JournalRuns.CleanAfterPassIff` gives the exact condition.
  Even with a current index a pass leaves an orphaned confirmation that is more than 144 blocks below the
  tip, and no other (`JournalRuns.SweepCleansIff`).
- The replay forgets a confirmed spend whose funding event is replayed after it.
  `SwapMeaning.SpendBeforeFundingIsMisread` is such a history, `SwapMeaning.DeclaredIffFundedBeforeSpent` gives
  the exact condition, and `SwapMeaning.MisreadOnlyWithinOneBlock` says when an index can list events so: only
  inside one block, if it lists lower blocks first.
- Which output names a session can depend on the order of outputs: `SwapStatuses.FirstSettledNamesTheSession`
  is such a case. It does exactly when a claim and a refund tie as the furthest
  (`SwapStatuses.StatusIgnoresOrderIff`); how far the session has come never does
  (`SwapStatuses.RankIgnoresOrder`).
- The signing cache compares a child index with its stored public keys only at the index's first input.
  `Building.SignInputs` states exactly which mismatches it sees, `Building.SecondMismatchIsMissed` is one it
  does not, and `Building.MismatchesAreCaught` shows that for owners read from one table it sees all.
- Recovery accepts at most 10,000,000 indices, so it can restore every issued address exactly when no more
  were issued (`Addresses.RecoverableIff`).

## Model

| member | source | states |
|---|---|---|
| Chains.Chain.MeetIsHighestCommonAncestor | internal/daemon/service.go:721-735 | the block where a walk back may stop is a common ancestor of both ends, and no common ancestor is higher |
| Chains.Chain.MeetOnBest | internal/daemon/service.go:732 | against a selected block, the walk's own stopping test fails at every ancestor above the meeting point, which itself is selected |
| Chains.Chain.AncestorsFollowParents | internal/daemon/service.go:727-731 | the ancestor at a height is reached by following parents, one block lower each |
| Proofs.DirectOneBlock | internal/daemon/service.go:738 | the direct update between a block and its parent is that block's own arithmetic, once, and nothing at all from a block to itself |
| Proofs.DirectKeepsValid | internal/daemon/service.go:738 | a direct update of any set between any two known blocks keeps right proofs right and changes only proofs |
| Proofs.BackwardSplit | internal/daemon/service.go:738-742 | stopping anywhere between a block and the meeting point does not change the whole update |
| Proofs.ForwardSplit | internal/daemon/service.go:713-718 | nor does stopping anywhere between an ancestor and its descendant |
| Proofs.StepBack | internal/daemon/service.go:722-735 | one stretch back ends 72 blocks lower or exactly at the meeting point, never below it; against a selected block its only failure is a missing block body above the meeting point |
| Proofs.NextStop | internal/daemon/service.go:711-736 | every choice of the next stop is on the remaining path, spans at most 72 blocks in one direction, leaves one call fewer, and shrinks the two-phase measure |
| Proofs.UpdateProofs | internal/daemon/service.go:705-745 | for every tree, every starting block and every destination on the selected chain, success gives exactly the direct update, failures mean what they say, the walk reaches exactly the common ancestor and nothing below, and it takes exactly ceil(reverted/72)+ceil(applied/72) calls, with no shutdown seen before any of them; it terminates for every input, and proofs right at the start are right at any known destination |
| Proofs.CallsAreCeilings | internal/daemon/service.go:706 | the number of calls in the literal step: the stretches back and forward, each divided by 72 and rounded up |
| Proofs.HopSpans | internal/daemon/service.go:706-736 | one call spans at most 72 blocks, back along ancestors or forward on the selected chain |
| Proofs.OutcomeIsDirect | internal/daemon/service.go:705-745 | without shutdown or missing bodies the answer is the direct update's, error included |
| Journals.Journal.Add | internal/meta/store.go:309-316 | an insert fails without effect on a taken key or a violated uniqueness constraint; new rows are unconfirmed |
| Journals.Journal.Candidates | internal/meta/store.go:384-403 | exactly the unconfirmed rows and those confirmed at height tip−144 or above, each once, with no underflow of the cutoff |
| Journals.Journal.SetConfirmed | internal/meta/swap.go:243-260 | changes one row's confirmation and nothing else |
| Journals.Journal.Update | internal/meta/store.go:424-440 | changes one row's basis, transaction and error and nothing else |
| Journals.Journal.RebroadcastEntry | internal/daemon/service.go:755-801 | one candidate's row after the pass, for every combination of index, chain, update, pool, network and store answers |
| Journals.Journal.Rebroadcast | internal/daemon/swap.go:851-902 | every candidate is treated once and every other row is left alone |
| JournalRuns.PassKeeps | internal/daemon/service.go:780-800 | a pass changes neither the terms nor the transaction body of any row, and leaves every stored proof right for its stored basis if it was |
| JournalRuns.RowLeftAlone | internal/daemon/service.go:755-779 | what a pass does to a row it does not resubmit, in the literal window of 144: older rows, unreadable answers, rows still confirmed on the chain and rows whose confirmation could not be cleared stay as they are; a found row only gets the place found |
| JournalRuns.RowResubmitted | internal/daemon/service.go:780-800 | a resubmitted row says how proof update, pool and network answered, in this order, or nothing; it gets the moved transaction and the tip exactly when one came back and could be saved |
| JournalRuns.CleanAfterPassIff | internal/daemon/service.go:755-779 | a faultless pass leaves no confirmation off the selected chain if and only if the index reports selected blocks for the candidates and the older rows are on the selected chain |
| JournalRuns.ConfirmationIsPlace | internal/daemon/service.go:756-779 | with the index at the tip, a candidate's confirmation becomes its transaction's place on the selected chain, or empty when it has none |
| JournalRuns.ResubmitsExactlyUnconfirmed | internal/daemon/service.go:780-800 | the pool is handed exactly the candidates left unconfirmed whose proofs reach the tip, with directly moved proofs, and that is what is stored |
| JournalRuns.ResubmitsEveryUnconfirmed | internal/daemon/service.go:768-800 | with the index at the tip and a library that drops only what blocks include, nothing is dropped silently: the pool is handed exactly the rows left unconfirmed, as long as their proofs can be moved at all |
| JournalRuns.SecondPassKeepsConfirmations | internal/daemon/swap.go:857-901 | a second pass on the same chain changes no confirmation, whatever pool and network do |
| JournalRuns.RunKeepsProofs | internal/daemon/swap.go:880-900 | in every state of every run stored proofs are right for the stored basis, and stored confirmations name blocks that hold the transaction |
| JournalRuns.RunKeepsActions | internal/meta/store.go:424-440 | in every run an entry never disappears, and its terms, transaction ID and body never change |
| JournalRuns.RunStaysClean | internal/daemon/service.go:747-779 | in every run whose passes do not fail, meet an index that reports only selected blocks for their candidates, and find no orphaned confirmation more than 144 blocks below the tip, every pass leaves no confirmation off the selected chain |
| JournalRuns.SweepCleansIff | internal/meta/store.go:384-389 | for a pass of a run without failures and with a current index the depth condition is exact: the pass leaves no confirmation off the selected chain if and only if no orphaned one was more than 144 blocks below the tip |
| JournalRuns.ShallowReorgsStayClean | internal/meta/swap.go:222-227 | it is enough that no reorganisation between two passes orphans a block that deep, which can be seen without the journal |
| JournalRuns.LaggingIndexStoresOrphan | internal/daemon/service.go:760-767 | a concrete tree on which a faultless pass stores an orphaned confirmation |
| SwapPolicies.MeaningIsUnique | internal/daemon/swap.go:597-637 | no spend can be read in two ways |
| SwapPolicies.ClassifySwapSpend | internal/daemon/swap.go:597-637 | the case analysis gives claim, refund or unknown exactly by the branch the policy reveals, with the secret exactly when the last preimage opens the hash |
| SwapPolicies.ReadingIsOfTheBranch | internal/daemon/swap.go:597-637 | said of policy and preimages alone: a claim shows a branch of three conditions ending in the contract's hash lock, a refund one ending in its height, the secret is the last preimage of a claim that hashes to the contract's hash |
| SwapPolicies.SecretIffHashBranch | internal/daemon/swap.go:616-628 | a secret is revealed if and only if the spend goes through the contract's hash branch and its last preimage opens the hash |
| SwapObservers.Observer.ObserveSwapTransaction | internal/daemon/swap.go:639-699 | the loops over outputs and inputs make of the output map what the replay function says |
| SwapObservers.ObservedSwapOutputs | internal/daemon/swap.go:701-740 | reading fails exactly when the index is not at the tip, from 10000 events on, or when the chain moved; otherwise the result is the whole history oldest first, then the pool, with the value left of outputs that can still be spent |
| SwapMeaning.ReplayIsDeclared | internal/daemon/swap.go:639-699 | each output's record is the declared one: spent on chain by branch, else spent in the pool by branch, else created on chain, else created in the pool; a spend height is set exactly for confirmed spends |
| SwapMeaning.SpentOnChain | internal/daemon/swap.go:680-696 | a spend in the history leaves its output claimed if it shows the hash branch, refunded if the height branch, spent otherwise, with its transaction, height and secret, whatever the pool holds |
| SwapMeaning.SpentInPool | internal/daemon/swap.go:680-688 | a spend only in the pool leaves it claiming, refunding or spending by the same branches, with transaction and secret and no height |
| SwapMeaning.UnspentOnChain | internal/daemon/swap.go:646-663 | an output created on chain and spent nowhere is funded, with value, transaction, height, maturity and confirmations of its event |
| SwapMeaning.UnspentInPool | internal/daemon/swap.go:646-663 | one created only in the pool and spent nowhere is funding, without a height |
| SwapMeaning.FundingOnChain | internal/daemon/swap.go:652-663 | wherever it is spent, an output created on chain keeps value, transaction, height, maturity and confirmations of its creation |
| SwapMeaning.SpendWithoutFunding | internal/daemon/swap.go:672-676 | a spend whose funding the history does not hold is shown with the value its input repeats |
| SwapMeaning.DeclaredIffFundedBeforeSpent | internal/daemon/swap.go:652-663 | without double spends the record is the declared one if and only if no funding is replayed after its spend |
| SwapMeaning.SpendBeforeFundingIsMisread | internal/daemon/swap.go:652-663 | a history with a spend listed before the funding of the same block: the output is reported funded although it is spent on chain |
| SwapMeaning.MisreadOnlyWithinOneBlock | internal/daemon/swap.go:724-728 | an index that lists lower blocks first can cause this only for an output created and spent in one block |
| SwapMeaning.SpendableIffUnspentOnChain | internal/daemon/swap.go:742-758 | every record of the replay is shown as it is; a spendable value is shown exactly for outputs created on chain and spent neither there nor in the pool, and it is what is left of the value in the next block |
| SwapMeaning.PoolOrderIsIrrelevant | internal/daemon/swap.go:734-740 | any order of a conflict-free pool gives the same outputs, statuses, spending transactions, spend heights and secrets |
| SwapMeaning.PoolLeaves | internal/daemon/swap.go:677-679 | the pool never changes a record that is already spent, nor one it does not spend |
| SwapMeaning.RevealedSecretsOpenTheContract | internal/daemon/swap.go:680-688 | for any history and pool at all, a revealed secret is a preimage of the contract's hash shown by a spend of that output through the hash branch |
| SwapClaims.OwnSpendIsObserved | internal/daemon/swap.go:525-530 | once a claim or refund this daemon built is in the history, the replay marks its output Claimed with the secret used, or Refunded, whatever the pool holds |
| SwapClaims.OwnPendingSpendIsObserved | internal/daemon/swap.go:676-691 | while it is in the pool, the output is Claiming with that secret, or Refunding |
| SwapStatuses.AggregateSwapStatus | internal/daemon/swap.go:770-794 | the session is as far as its furthest output or pending funding; the first settled output and the last one being settled break ties |
| SwapStatuses.AnswerByStatus | internal/daemon/swap.go:770-794 | the answer by name: the first claimed or refunded output, else the last claiming or refunding one, else funded, else funding if an output or a pending fund action is, else waiting |
| SwapStatuses.RankIgnoresOrder | internal/daemon/swap.go:770-794 | how far the session has come is the same for every order of outputs and actions |
| SwapStatuses.StatusIgnoresOrderIff | internal/daemon/swap.go:777-791 | the status itself is the same for every order of outputs and actions if and only if no claim and refund tie as the furthest |
| SwapStatuses.FirstSettledNamesTheSession | internal/daemon/swap.go:779-780 | of one claimed and one refunded output the one listed first is the answer |
| Selection.SpendableOutputs | internal/daemon/service.go:264-292 | an output is returned exactly if it is listed, is worth something two blocks on, and no input of any pool transaction spends it; the page loop fails exactly when some page or the final tip check disagrees with the tip |
| Selection.EligibleMembers | internal/daemon/service.go:279-283 | eligible is exactly what the pool does not spend and is still worth something |
| Selection.TakeUntilCovered | internal/daemon/swap.go:281-297 | the shortest covering prefix of the sorted outputs, 128 at most, or the exact reason why there is none |
| Selection.GreedyIsOptimal | internal/daemon/swap.go:275-297 | the outputs taken pay, and no set of eligible outputs that pays is smaller |
| Selection.InsufficientIffNothingPays | internal/daemon/swap.go:295-297 | selection lacks funds if and only if no set of at most 128 eligible outputs covers amount plus fee |
| Selection.SupplyNeverOverflows | qday-mainnet.json:40-43 | within premine plus all block rewards, no sum of selected amounts leaves 128 bits |
| Selection.DueArePrefix | internal/daemon/service.go:827-841 | sorted by expiry, the outputs due for DEFEND are a prefix |
| Selection.SelectDue | internal/daemon/service.go:837-858 | the selection is exactly the first min(128, number due) outputs by expiry, every one within its last quarter of shield blocks, two at least; nothing is due only if no output is |
| Selection.RenewsTheMostUrgent | internal/daemon/service.go:828-856 | no output left out has a shield that ends before that of one renewed, and a due one is left out only by the limit of 128 |
| Building.SignInputs | internal/daemon/service.go:550-579 | signing succeeds exactly when the counts agree and the first owner of every child index has the derived key; then every input carries its own owner's signature and the rest of the transaction is unchanged |
| Building.MismatchesAreCaught | internal/daemon/service.go:557-566 | for owners read from one address table, where the index is the key, no mismatch is missed |
| Building.SecondMismatchIsMissed | internal/daemon/service.go:561-566 | two owners with one index and different keys: the second mismatch is not seen |
| Building.ChooseInputs | internal/daemon/swap.go:271-297 | filter, sort and greedy choice together: as few eligible outputs as any choice needs; in a `Readable` world it succeeds if and only if some choice of at most 128 pays; no overflow within the supply |
| Building.NothingPaysInFields | internal/daemon/swap.go:275-297 | nothing pays if and only if no list of at most 128 different listed outputs that no pool input spends is worth the amount two blocks on |
| Building.BuildCustodyTransfer | internal/daemon/swap.go:266-317 | a built payment has one or two outputs, spends only own outputs that the pool does not spend, each signed by its owner, conserves decayed value, pays the destination first, returns change to a new own address, and uses the fewest inputs; when nothing outside fails it is built if and only if some choice of eligible outputs pays; a failed one uses up at most one address |
| Building.TransferInFields | internal/daemon/swap.go:283-317 | of every payment and renewal: 1 to 128 different outputs of the wallet, none spent by any input in the pool, worth exactly the outputs and the fee two blocks on, each input signed over the unsigned transaction by the key its address is made of |
| Building.PaymentInFields | internal/daemon/swap.go:266-317 | of every payment: the fee, the wanted output first, what is left over to the change address issued last, and no shorter list of untouched outputs of the wallet pays as much |
| Building.ChooseDue | internal/daemon/service.go:822-858 | what DEFEND renews are the most urgent due outputs of the whole unpaged list, and in a `Readable` world it succeeds if and only if some output is due |
| Building.BuildDefend | internal/daemon/service.go:804-886 | a renewal conserves decayed value and moves the most urgent due outputs to one new own address; when nothing outside fails it is built if and only if something is due and the chosen outputs are worth more than the fee; nothing due is answered only if no worthy output untouched by the pool is in its last quarter |
| Building.RenewalInFields | internal/daemon/service.go:827-872 | of every renewal: the literal fee, one output to the address issued last, max(maturity, activation) + shield <= tip + max(2, shield/4) for every renewed output, and no worthy untouched output left out is more urgent, or due below the limit of 128 |
| Building.FindSwapOutput | internal/daemon/swap.go:394-419 | finds the contract output in any page, unless some input of a pool transaction spends it or it is not there |
| Building.BuildSwapSpend | internal/daemon/swap.go:504-536 | a claim or refund spends the output's whole value at the next height to a new own address, and a claim shows the given secret last; when nothing outside fails it is built if and only if the output is there, no pool input spends it, it is mature in the next block, and worth more than the fee there |
| Building.CanSpendIff | internal/daemon/swap.go:504-536 | with a signer that cooperates, an output can be spent if and only if some transaction is a spend of it at this fee |
| Building.ContractSpendInFields | internal/daemon/swap.go:507-536 | of every contract spend: its one input, output, value and fee, the evidence the signer gave for the unsigned transaction, and the secret as the last preimage of a claim |
| Building.ContractSpendConserves | internal/daemon/swap.go:510-523 | every such spend conserves the output's decayed value |
| Addresses.RunKeepsIssued | internal/meta/store.go:265-278 | in every interleaving of allocations and recoveries the issued indices are 0..n−1 with one address each and at most one per reference, and no row is lost or changed |
| Addresses.PerformedInFields | internal/meta/store.go:265-278 | issuing adds the next index with its derived key and address, unless the reference is taken; recovering adds exactly the missing indices below the count |
| Addresses.RecoveryRestoresAddresses | main.go:201-223 | recovering into an empty database restores every address and key ever issued if and only if it covers as many indices as were issued |
| Addresses.RecoverableIff | main.go:182-183 | a count the tool accepts restores everything if and only if at most 10,000,000 indices were issued |
| Addresses.ShortRecoveryMisses | main.go:201-223 | recovering fewer misses exactly the addresses from that count on |
| Addresses.AddressBook.NextIndex | internal/meta/store.go:265-269 | one more than the greatest index, or 0 |
| Addresses.AddressBook.NewAddress | internal/daemon/service.go:227-253 | allocates exactly the next index, with the reference and kind given and the key and address derived from that index; when registration fails the index stays used |
| Addresses.AddressBook.NewDepositAddress | internal/daemon/service.go:209-225 | a success carries the reference asked for, which is taken afterwards; a repeated one gets its row again, locked or not, and uses no further index; a new one is a deposit row at the next index |
| Addresses.AddressBook.RecoverAddresses | main.go:173-226 | restores exactly the missing indices below the count and keeps the rest, whatever table it meets; it stops at the first index whose stored key is not the derived one, or whose address another row holds, and succeeds otherwise |
| Deposits.ReadEvent | internal/daemon/service.go:371-417 | an output of a transaction is in the result exactly if its address is in the book as a deposit address, with the output's address and amount and the row's reference, creditable exactly if no input spends from an address of the book; a payout likewise, always creditable |
| Deposits.FeedInFields | internal/daemon/service.go:361-417 | the same of the whole feed: what it holds, entry by entry, in the fields of its events |
| Deposits.OutputDepositsInOrder | internal/daemon/service.go:387-404 | the deposits of a transaction are listed in the order of its outputs |
| Deposits.ReadDeposits | internal/daemon/service.go:350-433 | a page holds whole events, up to the first that fills it or to the end, whatever the internal fetch size |
| Deposits.PagesTile | internal/daemon/service.go:361-432 | following the next offset from 0, with any limits, yields every deposit in order, and all of them after finitely many pages |
| Deposits.DepositIdsDistinct | internal/daemon/service.go:394-416 | no two deposits of the feed share an identifier |
| Records.ActionIDIsInjective | internal/daemon/swap.go:538 | the textual key of a swap action determines swap, kind and output, although swap IDs may contain colons |
| Records.DefendIDIsInjective | internal/daemon/service.go:887 | no two renewals share a request ID |
| Records.TripleIffKey | internal/meta/swap.go:151-159 | the journal entry of a (swap, kind, output) triple is the row under the triple's textual key |
| Records.RetriesFindTheSame | internal/daemon/swap.go:462-470 | however proofs are updated in between, a retry is compared with the same terms and secret and finds the same transaction |
| WalletSteps.StepKeeps | internal/meta/swap.go:151-159 | every call, whatever it meets, keeps the invariant of the records and everything recorded before it |
| WalletSteps.StepKeepsSound | internal/daemon/service.go:883-892 | what a call journals was validated at the tip, so every call keeps all stored proofs right for their stored bases |
| WalletSteps.NewWithdrawalInFields | internal/daemon/service.go:500-525 | a new withdrawal row in its fields: unconfirmed, based on the tip, with the trouble its submission met; no other row changes |
| WalletSteps.NewActionInFields | internal/daemon/swap.go:538-547 | the same of a swap action, under its textual key |
| WalletSteps.SpentOnceInFields | internal/daemon/swap.go:429-547 | a claim is journaled for the recipient, a refund for the refund owner from the refund height on, with output, fee, destination and amount of its transaction |
| WalletSteps.RequestedInFields | internal/daemon/swap.go:214-229 | the swap a registration stores: own keys on the side the role says, the counterparty's on the other, hash, height and the policy's address; refused only without session keys or without a policy |
| WalletSteps.ActionAdded | internal/daemon/swap.go:497-502 | only funding and spending add actions, a funding only while the next block is below the refund height, a refund only by the refund owner from that height on, a claim only by the recipient |
| WalletRuns.RunKeeps | internal/meta/store.go:38-150 | the invariant of the records holds in every state of every run of the service |
| WalletRuns.RunGrows | internal/daemon/swap.go:230-244 | in every run terms, roles, keys, addresses and journaled transactions never change once recorded |
| WalletRuns.RunKeepsActionsApart | internal/meta/swap.go:151-159 | in every run a (swap, kind, output) triple has at most one entry, no swap has both a claim and a refund, and no two swaps share an address |
| WalletRuns.RunAnswersRetriesAlike | internal/daemon/service.go:477-487 | after any further run a retry is compared with the same terms and secret and finds the same transaction up to its proofs, the same swap, the same keys, and for a reference the same address |
| WalletRuns.ActionsArise | internal/daemon/swap.go:371 | every fund action of every run arose at a tip whose next block was below the refund height, every refund, by the refund owner, at a tip at or above it, every claim by the recipient, and it still has the terms it arose with |
| WalletRuns.RunRefinesJournals | internal/daemon/swap.go:880-900 | seen from either table, every run of the service is a run of the journal: each inserting call is an insertion with proofs right at the tip |
| WalletRuns.RunKeepsProofs | internal/daemon/service.go:780-800 | in every state of every run of the service all stored proofs are right for their bases, and stored confirmations name blocks that hold the transaction |
| WalletRuns.RunSweepCleansIff | internal/meta/store.go:384-389 | in every run of the service, for each pass without failures and with a current index and for both tables, the pass leaves no confirmation off the selected chain if and only if it met no orphaned one more than 144 blocks below the tip |
| WalletRuns.RunStaysClean | internal/daemon/service.go:747-779 | in every run of the service whose passes are so, and in which no reorganisation between passes orphans a block that deep, both tables are clean as of the last pass |
| Wallets.Wallet.constructor | internal/meta/store.go:38-150 | an empty store satisfies the invariant |
| Wallets.Wallet.NewDepositAddress | internal/daemon/service.go:209-225 | a success carries the reference asked for, with the key and address derived from its index; a repeated reference gets its address again, locked or not; a new one gets the next index |
| Examples.AskTwice | internal/daemon/service.go:215-221 | two successful calls with one reference return the same record, even if the wallet was locked in between |
| Wallets.Wallet.CreateWithdrawal | internal/daemon/service.go:458-525 | an identical retry returns its transaction even when locked or unsynced, changed terms are refused, and neither changes anything; a new request is journaled with exactly its payment, when nothing outside fails exactly if some choice of outputs pays; stored proofs stay right |
| Wallets.Wallet.AutoDefend | internal/daemon/service.go:804-906 | a renewal is journaled under its own ID, or nothing but an address is used up; when nothing outside fails exactly if something is due and pays the fee, unless a row under the ID of the renewal built is already there; stored proofs stay right |
| Wallets.Wallet.CreateSwapKeys | internal/daemon/swap.go:158-187 | session keys are made once and returned again |
| Wallets.Wallet.RegisterSwap | internal/daemon/swap.go:193-249 | a session is bound to one contract for good: own keys and the counterparty's on the sides the role says, hash, height, and the address of the policy these make; other terms are refused without effect |
| Wallets.Wallet.Fund | internal/daemon/swap.go:329-392 | at most one funding per session, only while the next block is below the refund height, idempotent like a withdrawal, and when nothing outside fails exactly if some choice of outputs pays; stored proofs stay right |
| Wallets.Wallet.Spend | internal/daemon/swap.go:429-547 | the recipient claims, the refund owner refunds and only from the refund height on; each output once, idempotent, the claim secret compared with the stored transaction's; when nothing outside fails exactly if the output can be spent; stored proofs stay right |
| Wallets.Wallet.Rebroadcast | internal/daemon/service.go:747-802 | one pass over both journals keeps terms, transactions and all other records, and right proofs right |

## Left out

- Interleaving of a rebroadcast pass with the service's operations: a pass is one atomic step here, although
  the program does not hold the operation lock during it.
- Chain changes during one `updateProofs` call: the selected chain is fixed for the call.
- Proofs.UpdateProofs: equality with the direct update is stated for destinations on the selected chain; for
  others, which callers do not use, only that right proofs stay right.
- The order in which candidates are processed (`ORDER BY created_at`): passes are proved for any order.
- Input disjointness between journal entries whose submission failed: selection excludes only pool spends.
- SwapObservers.ObservedSwapOutputs: the sort of the returned list and the hexadecimal text of values are not
  modelled; the output records are values in a map, not objects changed in place.
- Cancellation while signing, and failures of key derivation or of the signing primitive itself.
- Account views (`withdrawalView`, `swapActionView`, `Balance`, `Status`, listings): read-only case analysis.
- Store failures outside the rebroadcast pass, and index failures while a view is put together.
- The nonce search of DEFEND work, arbitrary data, timestamps, validation of addresses and keys.
- The encoder, consensus rules, signing of swap spends and policy construction: they live in modules that are
  not part of this model and appear as parameters.
- HTTP, start and stop, peers, schema migration and SQL text.
