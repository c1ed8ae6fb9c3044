/** What holds over whole runs of the service: calls, chain growth and reorganisations, rebroadcast
    passes and restarts, from an empty store. */
module WalletRuns {
  import opened Ledger
  import opened Chains
  import opened Proofs
  import opened Journals
  import JournalRuns
  import opened Building
  import opened Records
  import opened WalletSteps

  /** What stays the same over a run: the setup, the proof library, and what blocks hold. */
  datatype Env = Env(setup: Setup, lib: Library, includes: BlockID -> set<TxID>)

  /** The chain, the chain as the last pass saw it, and the records. */
  datatype System = System(chain: Chain, swept: Chain, books: Books)

  datatype Move = Call(step: Step) | Moved | Restarted

  ghost predicate Next(env: Env, s: System, move: Move, s': System) {
    match move
    case Call(step) =>
      && s.chain.WellFormed()
      && Performs(env.setup, s.books, step, s'.books) && MadeAt(step, s.chain, env.lib)
      && s' == System(s.chain, if step.Sweep? then s.chain else s.swept, s'.books)
      && (step.Sweep? ==> step.node.includes == env.includes && JournalRuns.Honest(step.node))
    case Moved => s' == s.(chain := s'.chain) && JournalRuns.TreeGrows(s.chain, s'.chain)
    case Restarted => s' == s
  }

  ghost predicate Run(env: Env, states: seq<System>, moves: seq<Move>) {
    && env.setup.Lawful() && |states| == |moves| + 1
    && states[0].books == Books(map[], map[], map[], map[], map[])
    && states[0].chain.WellFormed() && states[0].swept == states[0].chain
    && forall k {:trigger moves[k]} :: 0 <= k < |moves| ==> Next(env, states[k], moves[k], states[k + 1])
  }

  // ----- the records -----

  lemma MoveKeeps(env: Env, s: System, move: Move, s': System)
    requires env.setup.Lawful() && Consistent(env.setup, s.books) && Next(env, s, move, s')
    ensures Consistent(env.setup, s'.books) && Grows(s.books, s'.books)
  {
    match move {
      case Call(step) => StepKeeps(env.setup, s.books, step, s'.books);
      case _ => GrowsIsReflexive(s.books);
    }
  }

  lemma MoveKeepsAt(env: Env, states: seq<System>, moves: seq<Move>, k: nat)
    requires Run(env, states, moves) && k < |moves| && Consistent(env.setup, states[k].books)
    ensures Consistent(env.setup, states[k + 1].books) && Grows(states[k].books, states[k + 1].books)
  {
    MoveKeeps(env, states[k], moves[k], states[k + 1]);
  }

  /** The invariant holds in every state of every run. */
  lemma {:induction false} RunKeeps(env: Env, states: seq<System>, moves: seq<Move>, n: nat)
    requires Run(env, states, moves) && n <= |moves|
    ensures Consistent(env.setup, states[n].books)
  {
    if n > 0 {
      RunKeeps(env, states, moves, n - 1);
      MoveKeepsAt(env, states, moves, n - 1);
    }
  }

  lemma RunMoveGrows(env: Env, states: seq<System>, moves: seq<Move>, k: nat)
    requires Run(env, states, moves) && k < |moves|
    ensures Grows(states[k].books, states[k + 1].books)
  {
    RunKeeps(env, states, moves, k);
    MoveKeepsAt(env, states, moves, k);
  }

  /** In every run, what was once recorded is recorded for good: addresses, keys, swaps with their terms
      and roles, and journal entries with their terms and transactions up to proofs. */
  lemma {:induction false} RunGrows(env: Env, states: seq<System>, moves: seq<Move>, m: nat, n: nat)
    requires Run(env, states, moves) && m <= n <= |moves|
    ensures Grows(states[m].books, states[n].books)
    decreases n
  {
    if m == n {
      GrowsIsReflexive(states[m].books);
    } else {
      RunGrows(env, states, moves, m, n - 1);
      RunMoveGrows(env, states, moves, n - 1);
      GrowsIsTransitive(states[m].books, states[n - 1].books, states[n].books);
    }
  }

  /** In every run a (swap, kind, output) triple has at most one journal entry, no swap has both a claim
      and a refund, and no two swaps share an address. */
  lemma RunKeepsActionsApart(env: Env, states: seq<System>, moves: seq<Move>, n: nat)
    requires Run(env, states, moves) && n <= |moves|
    ensures var b := states[n].books;
            && (forall i, j :: (&& i in b.actions && j in b.actions
                                && b.actions[i].terms.swapID == b.actions[j].terms.swapID
                                && b.actions[i].terms.kind == b.actions[j].terms.kind
                                && b.actions[i].terms.output == b.actions[j].terms.output) ==>
                  i == j)
            && (forall i, j :: (&& i in b.actions && j in b.actions
                                && b.actions[i].terms.swapID == b.actions[j].terms.swapID) ==>
                  !(b.actions[i].terms.kind == ClaimSwap && b.actions[j].terms.kind == RefundSwap))
            && (forall i, j :: i in b.swaps && j in b.swaps && b.swaps[i].address == b.swaps[j].address ==> i == j)
  {
    RunKeeps(env, states, moves, n);
    var b := states[n].books;
    forall i, j | i in b.actions && j in b.actions && SameTriple(b.actions[i].terms, b.actions[j].terms)
      ensures i == j
    {
      TripleIsUnique(env.setup, b, i, j);
    }
    forall i, j | i in b.actions && j in b.actions && b.actions[i].terms.swapID == b.actions[j].terms.swapID
      ensures !(b.actions[i].terms.kind == ClaimSwap && b.actions[j].terms.kind == RefundSwap)
    {
      NeverClaimAndRefund(env.setup, b, i, j);
    }
  }

  /** A retry after any further run is compared with the same terms and the same secret, and finds the
      same transaction. */
  lemma RunAnswersRetriesAlike(env: Env, states: seq<System>, moves: seq<Move>, m: nat, n: nat, id: string)
    requires Run(env, states, moves) && m <= n <= |moves|
    ensures var b, b' := states[m].books, states[n].books;
            && (id in b.withdrawals ==>
                  && id in b'.withdrawals && b'.withdrawals[id].terms == b.withdrawals[id].terms
                  && b'.withdrawals[id].txn == b.withdrawals[id].txn.(proofs := b'.withdrawals[id].txn.proofs))
            && (id in b.actions ==>
                  && id in b'.actions && b'.actions[id].terms == b.actions[id].terms
                  && b'.actions[id].txn == b.actions[id].txn.(proofs := b'.actions[id].txn.proofs)
                  && StoredClaimSecret(b'.actions[id].txn) == StoredClaimSecret(b.actions[id].txn))
            && (id in b.swaps ==> id in b'.swaps && b'.swaps[id] == b.swaps[id])
            && (id in b.swapKeys ==> id in b'.swapKeys && b'.swapKeys[id] == b.swapKeys[id])
            && (forall i, j :: i in b.rows && j in b'.rows && b.rows[i].reference == b'.rows[j].reference != "" ==>
                                 b.rows[i] == b'.rows[j])
  {
    RunKeeps(env, states, moves, n);
    RunGrows(env, states, moves, m, n);
    RetriesFindTheSame(states[m].books, states[n].books, id);
  }

  // ----- when actions arise -----

  /** The move adds the action `id` at a tip where it may be made: a fund action while the next block is
      below the refund height, a refund by the refund owner from the refund height on, a claim by the
      recipient. */
  ghost predicate Arises(s: System, s': System, id: string) {
    && id !in s.books.actions && id in s'.books.actions && s.chain.WellFormed()
    && var t := s'.books.actions[id].terms;
    && t.swapID in s.books.swaps && InTime(s.books.swaps[t.swapID], t.kind, s.chain.Tip())
  }

  lemma CallMakesActionArise(env: Env, s: System, move: Move, s': System, id: string)
    requires Next(env, s, move, s') && id !in s.books.actions && id in s'.books.actions
    ensures Arises(s, s', id)
  {
    ActionAdded(env.setup, s.books, move.step, s'.books, id);
  }

  /** Every action of every run arose at such a tip, and still has the terms it arose with. */
  lemma {:induction false} ActionsArise(env: Env, states: seq<System>, moves: seq<Move>, n: nat, id: string)
    returns (k: nat)
    requires Run(env, states, moves) && n <= |moves| && id in states[n].books.actions
    ensures k < n && Arises(states[k], states[k + 1], id)
    ensures var terms, best := states[n].books.actions[id].terms, states[k].chain.best;
            && id !in states[k].books.actions && terms.swapID in states[k].books.swaps
            && var swap := states[k].books.swaps[terms.swapID];
            && (terms.kind == FundSwap ==> |best| < swap.contract.refundHeight)
            && (terms.kind == RefundSwap ==> swap.role == RefundOwner && swap.contract.refundHeight <= |best| - 1)
            && (terms.kind == ClaimSwap ==> swap.role == Recipient)
    ensures states[k + 1].books.actions[id].terms == states[n].books.actions[id].terms
    ensures var swapID := states[n].books.actions[id].terms.swapID;
            swapID in states[n].books.swaps && states[n].books.swaps[swapID] == states[k].books.swaps[swapID]
  {
    if id in states[n - 1].books.actions {
      k := ActionsArise(env, states, moves, n - 1, id);
    } else {
      k := n - 1;
      CallMakesActionArise(env, states[k], moves[k], states[n], id);
    }
    RunMoveGrows(env, states, moves, n - 1);
  }

  // ----- the journals -----

  /** The row a move adds to a table. */
  ghost function NewKey<T>(rows: map<string, Entry<T>>, rows': map<string, Entry<T>>): (id: string)
    requires exists id :: id in rows' && id !in rows
    ensures id in rows' && id !in rows
  {
    var id :| id in rows' && id !in rows;
    id
  }

  /** A move as a step of the journal whose rows it turns from `rows` into `rows'`. */
  ghost function JournalStep<T>(move: Move, rows: map<string, Entry<T>>, rows': map<string, Entry<T>>,
                                submitted: map<string, Transaction>): JournalRuns.Step<T> {
    if move.Call? && move.step.Sweep? then JournalRuns.Sweep(move.step.node, submitted)
    else if move.Moved? then JournalRuns.ChainMoves
    else if exists id :: id in rows' && id !in rows then
      JournalRuns.Insert(NewKey(rows, rows'), rows'[NewKey(rows, rows')])
    else JournalRuns.Restart
  }

  function WithdrawalsOf(s: System): (r: JournalRuns.State<WithdrawalTerms>) {
    JournalRuns.State(s.chain, s.books.withdrawals, s.swept)
  }

  function ActionsOf(s: System): (r: JournalRuns.State<ActionTerms>) {
    JournalRuns.State(s.chain, s.books.actions, s.swept)
  }

  ghost function WithdrawalStep(s: System, move: Move, s': System): (r: JournalRuns.Step<WithdrawalTerms>) {
    var submitted := if move.Call? && move.step.Sweep? then move.step.withdrawals else map[];
    JournalStep(move, s.books.withdrawals, s'.books.withdrawals, submitted)
  }

  ghost function ActionStep(s: System, move: Move, s': System): (r: JournalRuns.Step<ActionTerms>) {
    var submitted := if move.Call? && move.step.Sweep? then move.step.actions else map[];
    JournalStep(move, s.books.actions, s'.books.actions, submitted)
  }

  /** A call that adds at most one row at the tip is an insertion, or nothing, to the journal. */
  lemma InsertRefines<T>(env: Env, s: JournalRuns.State<T>, move: Move, s': JournalRuns.State<T>,
                         submitted: map<string, Transaction>)
    requires s.chain.WellFormed() && s' == s.(rows := s'.rows)
    requires !move.Moved? && (move.Call? ==> !move.step.Sweep?)
    requires InsertsAtTip(s.chain, env.lib, s.rows, s'.rows)
    ensures JournalRuns.Next(env.lib, env.includes, s, JournalStep(move, s.rows, s'.rows, submitted), s')
  {
    if exists id :: id in s'.rows && id !in s.rows {
      var id :| InsertsRow(s.chain, env.lib, s.rows, s'.rows, id);
      assert NewKey(s.rows, s'.rows) == id;
    } else {
      assert s'.rows == s.rows;
    }
  }

  /** Every move of the service is a step of both journals. */
  lemma MoveRefines(env: Env, s: System, move: Move, s': System)
    requires Next(env, s, move, s') && s.chain.WellFormed()
    ensures JournalRuns.Next(env.lib, env.includes, WithdrawalsOf(s), WithdrawalStep(s, move, s'), WithdrawalsOf(s'))
    ensures JournalRuns.Next(env.lib, env.includes, ActionsOf(s), ActionStep(s, move, s'), ActionsOf(s'))
  {
    match move {
      case Call(step) =>
        if !step.Sweep? {
          CallInsertsAtTip(env.setup, s.books, step, s'.books, s.chain, env.lib);
          InsertRefines(env, WithdrawalsOf(s), move, WithdrawalsOf(s'), map[]);
          InsertRefines(env, ActionsOf(s), move, ActionsOf(s'), map[]);
        }
      case Moved =>
      case Restarted =>
        InsertRefines(env, WithdrawalsOf(s), move, WithdrawalsOf(s'), map[]);
        InsertRefines(env, ActionsOf(s), move, ActionsOf(s'), map[]);
    }
  }

  function WithdrawalStates(states: seq<System>): (r: seq<JournalRuns.State<WithdrawalTerms>>) {
    seq(|states|, k requires 0 <= k < |states| => WithdrawalsOf(states[k]))
  }

  function ActionStates(states: seq<System>): (r: seq<JournalRuns.State<ActionTerms>>) {
    seq(|states|, k requires 0 <= k < |states| => ActionsOf(states[k]))
  }

  ghost function WithdrawalSteps(states: seq<System>, moves: seq<Move>): (r: seq<JournalRuns.Step<WithdrawalTerms>>)
    requires |states| == |moves| + 1
  {
    seq(|moves|, k requires 0 <= k < |moves| => WithdrawalStep(states[k], moves[k], states[k + 1]))
  }

  ghost function ActionSteps(states: seq<System>, moves: seq<Move>): (r: seq<JournalRuns.Step<ActionTerms>>)
    requires |states| == |moves| + 1
  {
    seq(|moves|, k requires 0 <= k < |moves| => ActionStep(states[k], moves[k], states[k + 1]))
  }

  lemma MoveIsWellFormed(env: Env, states: seq<System>, moves: seq<Move>, k: nat)
    requires Run(env, states, moves) && k < |moves| && states[k].chain.WellFormed()
    ensures states[k + 1].chain.WellFormed()
  {
    assert Next(env, states[k], moves[k], states[k + 1]);
  }

  lemma {:induction false} RunIsWellFormed(env: Env, states: seq<System>, moves: seq<Move>, n: nat)
    requires Run(env, states, moves) && n <= |moves|
    ensures states[n].chain.WellFormed()
  {
    if n > 0 {
      RunIsWellFormed(env, states, moves, n - 1);
      MoveIsWellFormed(env, states, moves, n - 1);
    }
  }

  ghost predicate RefinesAt(env: Env, s: System, move: Move, s': System) {
    && JournalRuns.Next(env.lib, env.includes, WithdrawalsOf(s), WithdrawalStep(s, move, s'), WithdrawalsOf(s'))
    && JournalRuns.Next(env.lib, env.includes, ActionsOf(s), ActionStep(s, move, s'), ActionsOf(s'))
  }

  ghost predicate Refined(env: Env, states: seq<System>, moves: seq<Move>) {
    && |states| == |moves| + 1 && states[0].chain.WellFormed() && states[0].swept == states[0].chain
    && states[0].books.withdrawals == map[] && states[0].books.actions == map[]
    && forall k {:trigger moves[k]} :: 0 <= k < |moves| ==> RefinesAt(env, states[k], moves[k], states[k + 1])
  }

  lemma RunMoveRefines(env: Env, states: seq<System>, moves: seq<Move>, k: nat)
    requires Run(env, states, moves) && k < |moves|
    ensures RefinesAt(env, states[k], moves[k], states[k + 1])
  {
    RunIsWellFormed(env, states, moves, k);
    MoveRefines(env, states[k], moves[k], states[k + 1]);
  }

  lemma WithdrawalRunAt(env: Env, states: seq<System>, moves: seq<Move>, k: nat)
    requires |states| == |moves| + 1 && k < |moves| && RefinesAt(env, states[k], moves[k], states[k + 1])
    ensures JournalRuns.Next(env.lib, env.includes, WithdrawalStates(states)[k], WithdrawalSteps(states, moves)[k],
                             WithdrawalStates(states)[k + 1])
  {
    assert WithdrawalStates(states)[k] == WithdrawalsOf(states[k]);
    assert WithdrawalStates(states)[k + 1] == WithdrawalsOf(states[k + 1]);
    assert WithdrawalSteps(states, moves)[k] == WithdrawalStep(states[k], moves[k], states[k + 1]);
  }

  lemma WithdrawalsRun(env: Env, states: seq<System>, moves: seq<Move>)
    requires Refined(env, states, moves)
    ensures JournalRuns.Run(env.lib, env.includes, WithdrawalStates(states), WithdrawalSteps(states, moves))
  {
    forall k | 0 <= k < |moves|
      ensures JournalRuns.Next(env.lib, env.includes, WithdrawalStates(states)[k], WithdrawalSteps(states, moves)[k],
                               WithdrawalStates(states)[k + 1])
    {
      WithdrawalRunAt(env, states, moves, k);
    }
  }

  lemma ActionRunAt(env: Env, states: seq<System>, moves: seq<Move>, k: nat)
    requires |states| == |moves| + 1 && k < |moves| && RefinesAt(env, states[k], moves[k], states[k + 1])
    ensures JournalRuns.Next(env.lib, env.includes, ActionStates(states)[k], ActionSteps(states, moves)[k],
                             ActionStates(states)[k + 1])
  {
    assert ActionStates(states)[k] == ActionsOf(states[k]);
    assert ActionStates(states)[k + 1] == ActionsOf(states[k + 1]);
    assert ActionSteps(states, moves)[k] == ActionStep(states[k], moves[k], states[k + 1]);
  }

  lemma ActionsRun(env: Env, states: seq<System>, moves: seq<Move>)
    requires Refined(env, states, moves)
    ensures JournalRuns.Run(env.lib, env.includes, ActionStates(states), ActionSteps(states, moves))
  {
    forall k | 0 <= k < |moves|
      ensures JournalRuns.Next(env.lib, env.includes, ActionStates(states)[k], ActionSteps(states, moves)[k],
                               ActionStates(states)[k + 1])
    {
      ActionRunAt(env, states, moves, k);
    }
  }

  /** Every run of the service is, seen from either table, a run of a journal: what the journal's runs
      keep, the service's runs keep. */
  lemma RunRefinesJournals(env: Env, states: seq<System>, moves: seq<Move>)
    requires Run(env, states, moves)
    ensures JournalRuns.Run(env.lib, env.includes, WithdrawalStates(states), WithdrawalSteps(states, moves))
    ensures JournalRuns.Run(env.lib, env.includes, ActionStates(states), ActionSteps(states, moves))
  {
    forall k | 0 <= k < |moves|
      ensures RefinesAt(env, states[k], moves[k], states[k + 1])
    {
      RunMoveRefines(env, states, moves, k);
    }
    WithdrawalsRun(env, states, moves);
    ActionsRun(env, states, moves);
  }

  /** In every state of every run all stored proofs are right for the stored bases, and stored
      confirmations name blocks that hold the transaction. */
  lemma RunKeepsProofs(env: Env, states: seq<System>, moves: seq<Move>, n: nat)
    requires Run(env, states, moves) && n <= |moves|
    ensures states[n].chain.WellFormed() && AllSound(states[n].chain, env.lib, states[n].books)
    ensures JournalRuns.Genuine(env.includes, states[n].books.withdrawals)
    ensures JournalRuns.Genuine(env.includes, states[n].books.actions)
    ensures forall id :: id in states[n].books.withdrawals ==>
              var e := states[n].books.withdrawals[id];
              && env.lib.valid([e.txn], e.basis.id)
              && (e.confirmed.Some? ==> e.txn.id in env.includes(e.confirmed.value.id))
    ensures forall id :: id in states[n].books.actions ==>
              var e := states[n].books.actions[id];
              && env.lib.valid([e.txn], e.basis.id)
              && (e.confirmed.Some? ==> e.txn.id in env.includes(e.confirmed.value.id))
  {
    RunRefinesJournals(env, states, moves);
    JournalRuns.RunKeepsProofs(env.lib, env.includes, WithdrawalStates(states), WithdrawalSteps(states, moves), n);
    JournalRuns.RunKeepsProofs(env.lib, env.includes, ActionStates(states), ActionSteps(states, moves), n);
  }

  predicate IsSweep(move: Move) {
    move.Call? && move.step.Sweep?
  }

  /** A pass does not fail, and the index is current for its candidates in both tables. */
  ghost predicate Reliable(s: System, move: Move) {
    IsSweep(move) ==>
      JournalRuns.Reliable(WithdrawalsOf(s), JournalRuns.Sweep(move.step.node, move.step.withdrawals)) &&
      JournalRuns.Reliable(ActionsOf(s), JournalRuns.Sweep(move.step.node, move.step.actions))
  }

  /** In every run the depth condition is exact for each reliable pass, in both tables: it leaves no
      confirmation off the selected chain if and only if it met no orphaned one more than 144 blocks
      below the tip. */
  lemma RunSweepCleansIff(env: Env, states: seq<System>, moves: seq<Move>, k: nat)
    requires Run(env, states, moves) && k < |moves| && IsSweep(moves[k]) && Reliable(states[k], moves[k])
    ensures states[k].chain.WellFormed()
    ensures JournalRuns.Clean(states[k + 1].chain, states[k + 1].books.withdrawals) <==>
            JournalRuns.ShallowOrphans(states[k].chain, states[k].books.withdrawals)
    ensures JournalRuns.Clean(states[k + 1].chain, states[k + 1].books.actions) <==>
            JournalRuns.ShallowOrphans(states[k].chain, states[k].books.actions)
  {
    var s, s' := states[k], states[k + 1];
    RunIsWellFormed(env, states, moves, k);
    RunMoveRefines(env, states, moves, k);
    JournalRuns.SweepCleansIff(env.lib, env.includes, WithdrawalsOf(s), WithdrawalStep(s, moves[k], s'),
                               WithdrawalsOf(s'));
    JournalRuns.SweepCleansIff(env.lib, env.includes, ActionsOf(s), ActionStep(s, moves[k], s'), ActionsOf(s'));
  }

  /** A reliable pass after reorganisations that orphan no block more than 144 below the new tip. */
  ghost predicate Monitored(s: System, move: Move) {
    IsSweep(move) ==> s.chain.WellFormed() && JournalRuns.ShallowReorg(s.swept, s.chain) && Reliable(s, move)
  }

  lemma MonitoredAt(states: seq<System>, moves: seq<Move>, k: nat)
    requires |states| == |moves| + 1 && k < |moves| && Monitored(states[k], moves[k])
    ensures JournalRuns.Monitored(WithdrawalStates(states)[k], WithdrawalSteps(states, moves)[k])
    ensures JournalRuns.Monitored(ActionStates(states)[k], ActionSteps(states, moves)[k])
  {
    assert WithdrawalStates(states)[k] == WithdrawalsOf(states[k]) && ActionStates(states)[k] == ActionsOf(states[k]);
    assert WithdrawalSteps(states, moves)[k] == WithdrawalStep(states[k], moves[k], states[k + 1]);
    assert ActionSteps(states, moves)[k] == ActionStep(states[k], moves[k], states[k + 1]);
  }

  lemma AllMonitored(states: seq<System>, moves: seq<Move>, n: nat)
    requires |states| == |moves| + 1 && n <= |moves|
    requires forall k :: 0 <= k < n ==> Monitored(states[k], moves[k])
    ensures forall k :: 0 <= k < n ==>
              JournalRuns.Monitored(WithdrawalStates(states)[k], WithdrawalSteps(states, moves)[k])
    ensures forall k :: 0 <= k < n ==> JournalRuns.Monitored(ActionStates(states)[k], ActionSteps(states, moves)[k])
  {
    forall k | 0 <= k < n
      ensures JournalRuns.Monitored(WithdrawalStates(states)[k], WithdrawalSteps(states, moves)[k])
      ensures JournalRuns.Monitored(ActionStates(states)[k], ActionSteps(states, moves)[k])
    {
      MonitoredAt(states, moves, k);
    }
  }

  lemma TablesStayClean(env: Env, states: seq<System>, moves: seq<Move>, n: nat)
    requires |states| == |moves| + 1 && n <= |moves|
    requires JournalRuns.Run(env.lib, env.includes, WithdrawalStates(states), WithdrawalSteps(states, moves))
    requires JournalRuns.Run(env.lib, env.includes, ActionStates(states), ActionSteps(states, moves))
    requires forall k :: 0 <= k < n ==> Monitored(states[k], moves[k])
    ensures JournalRuns.Clean(states[n].swept, states[n].books.withdrawals)
    ensures JournalRuns.Clean(states[n].swept, states[n].books.actions)
  {
    AllMonitored(states, moves, n);
    JournalRuns.ShallowReorgsStayClean(env.lib, env.includes, WithdrawalStates(states), WithdrawalSteps(states, moves),
                                       n);
    JournalRuns.ShallowReorgsStayClean(env.lib, env.includes, ActionStates(states), ActionSteps(states, moves), n);
  }

  lemma SweptIsChain(env: Env, states: seq<System>, moves: seq<Move>, k: nat)
    requires Run(env, states, moves) && k < |moves| && IsSweep(moves[k])
    ensures states[k + 1].swept == states[k + 1].chain
  {
    assert Next(env, states[k], moves[k], states[k + 1]);
  }

  /** In every run whose passes are so, which can be seen without looking at the records, the tables are
      clean as of the last pass, and each pass leaves no confirmation off the selected chain. */
  lemma RunStaysClean(env: Env, states: seq<System>, moves: seq<Move>, n: nat)
    requires Run(env, states, moves) && n <= |moves|
    requires forall k :: 0 <= k < n ==> Monitored(states[k], moves[k])
    ensures JournalRuns.Clean(states[n].swept, states[n].books.withdrawals)
    ensures JournalRuns.Clean(states[n].swept, states[n].books.actions)
    ensures n > 0 && IsSweep(moves[n - 1]) ==> states[n].swept == states[n].chain
  {
    RunRefinesJournals(env, states, moves);
    TablesStayClean(env, states, moves, n);
    if n > 0 && IsSweep(moves[n - 1]) {
      SweptIsChain(env, states, moves, n - 1);
    }
  }
}
