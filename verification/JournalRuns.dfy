/** What holds of the journal over whole runs: restarts, new entries, chains that grow and reorganise,
    and rebroadcast passes in between. */
module JournalRuns {
  import opened Wrappers
  import opened Ledger
  import opened Chains
  import opened Proofs
  import opened Journals

  // ----- one pass -----

  /** Every stored proof is right at the basis stored with it. */
  ghost predicate Sound<T>(c: Chain, lib: Library, rows: map<string, Entry<T>>) {
    forall id :: id in rows ==> c.Known(rows[id].basis) && lib.valid([rows[id].txn], rows[id].basis.id)
  }

  /** No stored confirmation is off the selected chain. */
  ghost predicate Clean<T>(c: Chain, rows: map<string, Entry<T>>) {
    forall id :: id in rows && rows[id].confirmed.Some? ==> c.OnBest(rows[id].confirmed.value)
  }

  /** Every stored confirmation names a block that holds the transaction. */
  ghost predicate Genuine<T>(includes: BlockID -> set<TxID>, rows: map<string, Entry<T>>) {
    forall id :: id in rows && rows[id].confirmed.Some? ==> rows[id].txn.id in includes(rows[id].confirmed.value.id)
  }

  /** What never changes in a row: its terms, and its transaction up to the proofs. */
  ghost predicate SameAction<T>(e: Entry<T>, e': Entry<T>) {
    e.terms == e'.terms && SameBody(e.txn, e'.txn)
  }

  ghost predicate SameActions<T>(rows: map<string, Entry<T>>, rows': map<string, Entry<T>>) {
    forall id :: id in rows ==> id in rows' && SameAction(rows[id], rows'[id])
  }

  lemma EntryPassKeeps<T>(node: Node, id: string, e: Entry<T>, e': Entry<T>, sent: Option<Transaction>)
    requires node.WellFormed() && EntryPass(node, id, e, e', sent)
    ensures SameAction(e, e')
    ensures e'.basis == e.basis || e'.basis == node.chain.Tip()
    ensures node.chain.Known(e.basis) ==> node.chain.Known(e'.basis)
    ensures node.lib.valid([e.txn], e.basis.id) ==> node.lib.valid([e'.txn], e'.basis.id)
  {
    if Resubmits(node, id, e) {
      var u :| Resubmission(node, id, e, u, e', sent);
      if u.Success? && |u.value| == 1 {
        assert u.value == [u.value[0]] && u.value[0] in u.value;
        assert Moved(node.lib, [e.txn], e.basis, u.value, node.chain.Tip());
      }
    }
  }

  /** A pass changes neither what a row says nor its transaction up to proofs, and keeps right proofs right. */
  lemma PassKeeps<T>(node: Node, before: map<string, Entry<T>>, after: map<string, Entry<T>>,
                     submitted: map<string, Transaction>)
    requires node.WellFormed() && Pass(node, before, after, submitted)
    ensures SameActions(before, after) && after.Keys == before.Keys
    ensures Sound(node.chain, node.lib, before) ==> Sound(node.chain, node.lib, after)
  {
    forall id | id in before
      ensures SameAction(before[id], after[id])
      ensures node.chain.Known(before[id].basis) ==> node.chain.Known(after[id].basis)
      ensures node.lib.valid([before[id].txn], before[id].basis.id) ==>
                node.lib.valid([after[id].txn], after[id].basis.id)
    {
      if IsCandidate(before[id], node.chain.Tip().height, MONITORING_DEPTH) {
        EntryPassKeeps(node, id, before[id], after[id], Sent(submitted, id));
      }
    }
  }

  /** What becomes of one row, answer by answer. A row confirmed more than 144 blocks below the tip is left
      alone, and so is one the index cannot be asked about. A found transaction has its place recorded. One
      that is not found keeps a confirmation that is still selected. */
  lemma RowLeftAlone<T>(node: Node, before: map<string, Entry<T>>, after: map<string, Entry<T>>,
                        submitted: map<string, Transaction>, id: string)
    requires node.WellFormed() && Pass(node, before, after, submitted) && id in before
    ensures var e, best := before[id], node.chain.best;
            var answer := node.events(e.txn.id);
            && (e.confirmed.Some? && e.confirmed.value.height + 144 < |best| - 1 ==>
                  after[id] == e && id !in submitted)
            && (answer == Unavailable ==> after[id] == e && id !in submitted)
            && ((&& answer == NotFound && e.confirmed.Some? && e.confirmed.value.height < |best|
                 && best[e.confirmed.value.height] == e.confirmed.value.id) ==>
                  after[id] == e && id !in submitted)
            && (answer == NotFound && e.confirmed.Some? && !node.saves(id, ClearConfirmation) ==>
                  after[id] == e && id !in submitted)
            && (answer.Found? && (e.confirmed.None? || |best| - 1 <= e.confirmed.value.height + 144) ==>
                  && id !in submitted
                  && after[id] == if node.saves(id, SetConfirmation) then e.(confirmed := Some(answer.index)) else e)
  {
  }

  /** An unconfirmed row that is not found, and one whose confirmation has been orphaned and could be
      cleared, goes through the proof update; the row says how the update, the pool and the network
      answered, in this order. */
  lemma RowResubmitted<T>(node: Node, before: map<string, Entry<T>>, after: map<string, Entry<T>>,
                          submitted: map<string, Transaction>, id: string)
    returns (u: Result<seq<Transaction>, UpdateError>)
    requires node.WellFormed() && Pass(node, before, after, submitted) && id in before
    requires node.events(before[id].txn.id) == NotFound
    requires before[id].confirmed.Some? ==>
               && |node.chain.best| - 1 <= before[id].confirmed.value.height + 144
               && !node.chain.OnBest(before[id].confirmed.value) && node.saves(id, ClearConfirmation)
    ensures UpdateOutcome(node.chain, node.lib, node.cancelled(before[id].txn.id), [before[id].txn], before[id].basis,
                          node.chain.Tip(), u)
    ensures var e, e' := before[id], after[id];
            && e'.terms == e.terms && e'.confirmed == None
            && (node.saves(id, SaveState) ==>
                  e'.lastError == match u
                    case Failure(error) => Some(Updating(error))
                    case Success(ts) =>
                      if |ts| == 1 && !node.poolAccepts(ts[0]) then Some(Pooling)
                      else if !node.broadcasts(ts) then Some(Broadcasting)
                      else None)
            && (u.Success? && |u.value| == 1 ==>
                  && id in submitted && submitted[id] == u.value[0]
                  && (node.saves(id, SaveState) ==> e'.txn == u.value[0] && e'.basis == node.chain.Tip()))
            && (u.Failure? || |u.value| != 1 || !node.saves(id, SaveState) ==> e'.txn == e.txn && e'.basis == e.basis)
            && (u.Failure? || |u.value| != 1 ==> id !in submitted)
            && (!node.saves(id, SaveState) ==> e'.lastError == e.lastError)
  {
    u :| Resubmission(node, id, before[id], u, after[id], Sent(submitted, id));
  }

  /** The confirmation a faultless pass leaves in a candidate. */
  lemma ConfirmationAfter<T>(node: Node, id: string, e: Entry<T>, e': Entry<T>, sent: Option<Transaction>)
    requires node.WellFormed() && EntryPass(node, id, e, e', sent) && node.Faultless()
    ensures e'.confirmed == match node.events(e.txn.id)
                            case Found(i) => Some(i)
                            case _ => if e.confirmed.Some? && node.chain.OnBest(e.confirmed.value) then e.confirmed
                              else None
  {
  }

  /** When exactly a faultless pass leaves no confirmation off the selected chain: the index must
      report only selected blocks for the candidates, and the rows beyond the monitoring depth must
      be on the selected chain already. */
  lemma CleanAfterPassIff<T>(node: Node, before: map<string, Entry<T>>, after: map<string, Entry<T>>,
                             submitted: map<string, Transaction>)
    requires node.WellFormed() && Pass(node, before, after, submitted) && node.Faultless()
    ensures Clean(node.chain, after) <==>
            forall id :: id in before ==>
              if IsCandidate(before[id], node.chain.Tip().height, MONITORING_DEPTH)
              then node.events(before[id].txn.id).Found? ==> node.chain.OnBest(node.events(before[id].txn.id).index)
              else before[id].confirmed.Some? && node.chain.OnBest(before[id].confirmed.value)
  {
    forall id | id in before
      ensures (after[id].confirmed.Some? ==> node.chain.OnBest(after[id].confirmed.value)) <==>
              if IsCandidate(before[id], node.chain.Tip().height, MONITORING_DEPTH)
              then node.events(before[id].txn.id).Found? ==> node.chain.OnBest(node.events(before[id].txn.id).index)
              else before[id].confirmed.Some? && node.chain.OnBest(before[id].confirmed.value)
    {
      if IsCandidate(before[id], node.chain.Tip().height, MONITORING_DEPTH) {
        ConfirmationAfter(node, id, before[id], after[id], Sent(submitted, id));
      }
    }
  }

  /** With the index at the tip, a candidate's stored confirmation becomes its place on the selected
      chain, or empty when it has none. */
  lemma ConfirmationIsPlace<T>(node: Node, before: map<string, Entry<T>>, after: map<string, Entry<T>>,
                               submitted: map<string, Transaction>, id: string)
    requires node.WellFormed() && Pass(node, before, after, submitted) && node.Faultless() && node.IndexAtTip()
    requires Genuine(node.includes, before)
    requires id in before && IsCandidate(before[id], node.chain.Tip().height, MONITORING_DEPTH)
    ensures match after[id].confirmed
            case Some(i) => node.PlacedAt(after[id].txn.id, i)
            case None => !node.Placed(after[id].txn.id)
  {
    var e := before[id];
    ConfirmationAfter(node, id, e, after[id], Sent(submitted, id));
    PassKeeps(node, before, after, submitted);
    if node.events(e.txn.id) == NotFound && e.confirmed.Some? && node.chain.OnBest(e.confirmed.value) {
      assert node.PlacedAt(e.txn.id, e.confirmed.value);
    }
  }

  /** The pool is handed exactly the candidates left unconfirmed whose proofs could be moved to the
      tip, with the directly moved proofs; and those are what is stored. */
  lemma ResubmitsExactlyUnconfirmed<T>(node: Node, before: map<string, Entry<T>>, after: map<string, Entry<T>>,
                                       submitted: map<string, Transaction>, id: string)
    requires node.WellFormed() && Pass(node, before, after, submitted) && node.Faultless()
    requires id in before && node.chain.Known(before[id].basis)
    requires (forall k :: !node.cancelled(before[id].txn.id)(k))
               && !BodyMissing(node.chain, before[id].basis, node.chain.Tip())
    ensures var moved := Direct(node.chain, node.lib, [before[id].txn], before[id].basis, node.chain.Tip());
            && (id in submitted <==> after[id].confirmed.None? && moved.Some? && |moved.value| == 1)
            && (id in submitted ==>
                 submitted[id] == moved.value[0] == after[id].txn && after[id].basis == node.chain.Tip())
  {
    var e := before[id];
    if IsCandidate(e, node.chain.Tip().height, MONITORING_DEPTH) {
      assert node.events(e.txn.id) != Unavailable;
      assert node.saves(id, SetConfirmation) && node.saves(id, ClearConfirmation) && node.saves(id, SaveState);
      if Resubmits(node, id, e) {
        var u :| Resubmission(node, id, e, u, after[id], Sent(submitted, id));
        OutcomeIsDirect(node.chain, node.lib, node.cancelled(e.txn.id), [e.txn], e.basis, node.chain.Tip(), u);
      }
    }
  }

  /** A transaction that is nowhere on the selected chain survives the update to the tip. */
  lemma UnplacedSurvives(node: Node, txn: Transaction, basis: ChainIndex)
    requires node.WellFormed() && node.lib.DropsOnlyIncluded(node.includes) && node.chain.Known(basis)
    requires !node.Placed(txn.id)
    ensures var moved := Direct(node.chain, node.lib, [txn], basis, node.chain.Tip());
            moved.Some? ==> |moved.value| == 1
  {
    var tip := node.chain.Tip();
    forall k | node.chain.Meet(basis, tip).height < k <= tip.height
      ensures txn.id !in node.includes(node.chain.AncestorAt(tip, k).id)
    {
      node.chain.BestAncestor(tip, k);
      assert !node.PlacedAt(txn.id, node.chain.AncestorAt(tip, k));
    }
    DirectKeepsUnincluded(node.chain, node.lib, node.includes, [txn], basis, tip, txn);
    DirectKeepsValid(node.chain, node.lib, [txn], basis, tip);
  }

  /** With the index at the tip and a library that drops only what blocks include, nothing is dropped
      silently: the pool is handed exactly the unconfirmed rows, as long as the library can move their
      proofs at all. */
  lemma ResubmitsEveryUnconfirmed<T>(node: Node, before: map<string, Entry<T>>, after: map<string, Entry<T>>,
                                     submitted: map<string, Transaction>, id: string)
    requires node.WellFormed() && Pass(node, before, after, submitted) && node.Faultless() && node.IndexAtTip()
    requires node.lib.DropsOnlyIncluded(node.includes)
    requires id in before && node.chain.Known(before[id].basis)
    requires (forall k :: !node.cancelled(before[id].txn.id)(k))
               && !BodyMissing(node.chain, before[id].basis, node.chain.Tip())
    ensures var moved := Direct(node.chain, node.lib, [before[id].txn], before[id].basis, node.chain.Tip());
            id in submitted <==> after[id].confirmed.None? && moved.Some?
  {
    var e := before[id];
    ResubmitsExactlyUnconfirmed(node, before, after, submitted, id);
    if after[id].confirmed.None? {
      if IsCandidate(e, node.chain.Tip().height, MONITORING_DEPTH) {
        ConfirmationAfter(node, id, e, after[id], Sent(submitted, id));
      }
      assert node.events(e.txn.id) == NotFound;
      UnplacedSurvives(node, e.txn, e.basis);
    }
  }

  /** A second pass on the same chain changes no confirmation, whatever pool and network do. */
  lemma SecondPassKeepsConfirmations<T>(node: Node, node': Node, rows0: map<string, Entry<T>>,
                                        rows1: map<string, Entry<T>>, rows2: map<string, Entry<T>>,
                                        submitted1: map<string, Transaction>, submitted2: map<string, Transaction>,
                                        id: string)
    requires node.WellFormed() && Pass(node, rows0, rows1, submitted1) && node.Faultless() && node.IndexAtTip()
    requires node'.WellFormed() && Pass(node', rows1, rows2, submitted2) && node'.Faultless() && node'.IndexAtTip()
    requires node'.chain == node.chain && node'.includes == node.includes
    requires forall txid, i, j :: node.PlacedAt(txid, i) && node.PlacedAt(txid, j) ==> i == j
    requires Genuine(node.includes, rows0)
    requires id in rows0
    ensures rows2[id].confirmed == rows1[id].confirmed
  {
    PassKeeps(node, rows0, rows1, submitted1);
    var tip := node.chain.Tip().height;
    if IsCandidate(rows0[id], tip, MONITORING_DEPTH) {
      ConfirmationIsPlace(node, rows0, rows1, submitted1, id);
    }
    if IsCandidate(rows1[id], tip, MONITORING_DEPTH) {
      ConfirmationAfter(node', id, rows1[id], rows2[id], Sent(submitted2, id));
      match node'.events(rows1[id].txn.id) {
        case Unavailable =>
        case NotFound =>
        case Found(i) => assert node.PlacedAt(rows1[id].txn.id, i);
      }
    }
  }

  // ----- runs -----

  /** The journal, the chain, and the chain as the last pass saw it. */
  datatype State<T> = State(chain: Chain, rows: map<string, Entry<T>>, swept: Chain)

  datatype Step<T> =
    | Insert(id: string, entry: Entry<T>)
    | ChainMoves
    | Sweep(node: Node, submitted: map<string, Transaction>)
    | Restart

  /** The tree only grows; the selected chain may become any other. */
  ghost predicate TreeGrows(c: Chain, c': Chain) {
    c'.WellFormed() && forall b :: b in c.blocks ==> b in c'.blocks && c'.blocks[b] == c.blocks[b]
  }

  /** An index that may lag behind, but reports only what blocks really hold. */
  ghost predicate Honest(node: Node) {
    forall txid :: node.events(txid).Found? ==> txid in node.includes(node.events(txid).index.id)
  }

  ghost predicate Next<T>(lib: Library, includes: BlockID -> set<TxID>, s: State<T>, step: Step<T>, s': State<T>) {
    match step
    case Insert(id, e) =>
      && s' == s.(rows := s.rows[id := e])
      && s.chain.WellFormed() && id !in s.rows
      && e.confirmed.None? && s.chain.Known(e.basis) && lib.valid([e.txn], e.basis.id)
    case ChainMoves => s' == s.(chain := s'.chain) && TreeGrows(s.chain, s'.chain)
    case Sweep(node, submitted) =>
      && s' == s.(rows := s'.rows, swept := s.chain)
      && node.chain == s.chain && node.lib == lib && node.includes == includes && node.WellFormed() && Honest(node)
      && Pass(node, s.rows, s'.rows, submitted)
    case Restart => s' == s
  }

  ghost predicate Run<T>(lib: Library, includes: BlockID -> set<TxID>, states: seq<State<T>>, steps: seq<Step<T>>) {
    && |states| == |steps| + 1
    && states[0].rows == map[] && states[0].chain.WellFormed() && states[0].swept == states[0].chain
    && forall k {:trigger steps[k]} :: 0 <= k < |steps| ==> Next(lib, includes, states[k], steps[k], states[k + 1])
  }

  ghost predicate Kept<T>(lib: Library, includes: BlockID -> set<TxID>, s: State<T>) {
    s.chain.WellFormed() && Sound(s.chain, lib, s.rows) && Genuine(includes, s.rows)
  }

  lemma PassKeepsGenuine<T>(node: Node, before: map<string, Entry<T>>, after: map<string, Entry<T>>,
                            submitted: map<string, Transaction>)
    requires node.WellFormed() && Pass(node, before, after, submitted) && Honest(node)
    requires SameActions(before, after) && Genuine(node.includes, before)
    ensures Genuine(node.includes, after)
  {
    forall id | id in after
      ensures after[id].confirmed.Some? ==> after[id].txn.id in node.includes(after[id].confirmed.value.id)
    {
      assert SameAction(before[id], after[id]);
      if IsCandidate(before[id], node.chain.Tip().height, MONITORING_DEPTH) && Resubmits(node, id, before[id]) {
        var u :| Resubmission(node, id, before[id], u, after[id], Sent(submitted, id));
      }
    }
  }

  lemma StepKeeps<T>(lib: Library, includes: BlockID -> set<TxID>, s: State<T>, step: Step<T>, s': State<T>)
    requires Kept(lib, includes, s) && Next(lib, includes, s, step, s')
    ensures Kept(lib, includes, s') && SameActions(s.rows, s'.rows)
  {
    match step {
      case Insert(id, e) =>
      case ChainMoves =>
        forall id | id in s.rows
          ensures s'.chain.Known(s.rows[id].basis)
        {
          assert s.chain.Known(s.rows[id].basis);
        }
      case Restart =>
      case Sweep(node, submitted) =>
        PassKeeps(node, s.rows, s'.rows, submitted);
        PassKeepsGenuine(node, s.rows, s'.rows, submitted);
    }
  }

  /** In every state of every run the stored proofs are right for the stored basis, and stored
      confirmations are genuine. */
  lemma {:induction false} RunKeepsProofs<T>(lib: Library, includes: BlockID -> set<TxID>, states: seq<State<T>>,
                                             steps: seq<Step<T>>, n: nat)
    requires Run(lib, includes, states, steps) && n <= |steps|
    ensures Kept(lib, includes, states[n])
  {
    if n > 0 {
      RunKeepsProofs(lib, includes, states, steps, n - 1);
      StepKeeps(lib, includes, states[n - 1], steps[n - 1], states[n]);
    }
  }

  lemma SameActionsTransitive<T>(rows0: map<string, Entry<T>>, rows1: map<string, Entry<T>>,
                                 rows2: map<string, Entry<T>>)
    requires SameActions(rows0, rows1) && SameActions(rows1, rows2)
    ensures SameActions(rows0, rows2)
  {
  }

  lemma StepExtends<T>(lib: Library, includes: BlockID -> set<TxID>, first: map<string, Entry<T>>, s: State<T>,
                       step: Step<T>, s': State<T>)
    requires SameActions(first, s.rows) && Kept(lib, includes, s) && Next(lib, includes, s, step, s')
    ensures SameActions(first, s'.rows)
  {
    StepKeeps(lib, includes, s, step, s');
    SameActionsTransitive(first, s.rows, s'.rows);
  }

  /** In every run an entry, once there, stays, with its terms and its transaction up to proofs. */
  lemma {:induction false} RunKeepsActions<T>(lib: Library, includes: BlockID -> set<TxID>, states: seq<State<T>>,
                                              steps: seq<Step<T>>, m: nat, n: nat)
    requires Run(lib, includes, states, steps) && m <= n <= |steps|
    ensures SameActions(states[m].rows, states[n].rows)
    decreases n
  {
    if m < n {
      RunKeepsActions(lib, includes, states, steps, m, n - 1);
      RunKeepsProofs(lib, includes, states, steps, n - 1);
      StepExtends(lib, includes, states[m].rows, states[n - 1], steps[n - 1], states[n]);
    }
  }

  /** No orphaned confirmation is more than 144 blocks below the tip. */
  ghost predicate ShallowOrphans<T>(c: Chain, rows: map<string, Entry<T>>)
    requires c.WellFormed()
  {
    forall id :: id in rows && rows[id].confirmed.Some? && !c.OnBest(rows[id].confirmed.value) ==>
      c.Tip().height <= rows[id].confirmed.value.height + MONITORING_DEPTH
  }

  /** The index reports only selected blocks for the rows the pass looks at. */
  ghost predicate CurrentFor<T>(node: Node, rows: map<string, Entry<T>>)
    requires node.WellFormed()
  {
    forall id :: id in rows && IsCandidate(rows[id], node.chain.Tip().height, MONITORING_DEPTH) ==>
      node.events(rows[id].txn.id).Found? ==> node.chain.OnBest(node.events(rows[id].txn.id).index)
  }

  /** A pass without failures, with a current index. */
  ghost predicate Reliable<T>(s: State<T>, step: Step<T>) {
    step.Sweep? && step.node.WellFormed() ==> step.node.Faultless() && CurrentFor(step.node, s.rows)
  }

  /** The exact condition for a reliable pass of a run: it leaves no confirmation off the selected
      chain if and only if no orphaned confirmation was more than 144 blocks below the tip. */
  lemma SweepCleansIff<T>(lib: Library, includes: BlockID -> set<TxID>, s: State<T>, step: Step<T>, s': State<T>)
    requires Next(lib, includes, s, step, s') && step.Sweep? && Reliable(s, step)
    ensures Clean(s'.chain, s'.rows) <==> ShallowOrphans(s.chain, s.rows)
  {
    CleanAfterPassIff(step.node, s.rows, s'.rows, step.submitted);
  }

  /** If before every pass no reorganisation has left an orphaned confirmation more than 144 blocks
      below the tip, and no pass fails or meets a stale index, then every pass leaves the journal
      without a confirmation off the selected chain. */
  lemma RunStaysClean<T>(lib: Library, includes: BlockID -> set<TxID>, states: seq<State<T>>, steps: seq<Step<T>>)
    requires Run(lib, includes, states, steps)
    requires forall k :: 0 <= k < |steps| && steps[k].Sweep? ==>
               && Reliable(states[k], steps[k])
               && states[k].chain.WellFormed() && ShallowOrphans(states[k].chain, states[k].rows)
    ensures forall k :: 0 <= k < |steps| && steps[k].Sweep? ==> Clean(states[k + 1].chain, states[k + 1].rows)
  {
    forall k | 0 <= k < |steps| && steps[k].Sweep?
      ensures Clean(states[k + 1].chain, states[k + 1].rows)
    {
      SweepCleansIff(lib, includes, states[k], steps[k], states[k + 1]);
    }
  }

  /** No block orphaned since the last pass is more than 144 blocks below the tip. */
  ghost predicate ShallowReorg(swept: Chain, c: Chain)
    requires c.WellFormed()
  {
    forall i :: swept.OnBest(i) && !c.OnBest(i) ==> c.Tip().height <= i.height + MONITORING_DEPTH
  }

  /** A reliable pass after shallow reorganisations only. */
  ghost predicate Monitored<T>(s: State<T>, step: Step<T>) {
    step.Sweep? ==> s.chain.WellFormed() && ShallowReorg(s.swept, s.chain) && Reliable(s, step)
  }

  lemma StepStaysClean<T>(lib: Library, includes: BlockID -> set<TxID>, s: State<T>, step: Step<T>, s': State<T>)
    requires Next(lib, includes, s, step, s') && Monitored(s, step) && Clean(s.swept, s.rows)
    ensures Clean(s'.swept, s'.rows)
  {
    if step.Sweep? {
      forall id | id in s.rows && s.rows[id].confirmed.Some? && !s.chain.OnBest(s.rows[id].confirmed.value)
        ensures s.chain.Tip().height <= s.rows[id].confirmed.value.height + MONITORING_DEPTH
      {
        assert s.swept.OnBest(s.rows[id].confirmed.value);
      }
      SweepCleansIff(lib, includes, s, step, s');
    }
  }

  /** It is enough that no reorganisation between two passes orphans a block that deep, which can be
      seen without looking at the journal: confirmations then never lag behind by more. */
  lemma {:induction false} ShallowReorgsStayClean<T>(lib: Library, includes: BlockID -> set<TxID>,
                                                     states: seq<State<T>>, steps: seq<Step<T>>, n: nat)
    requires Run(lib, includes, states, steps) && n <= |steps|
    requires forall k :: 0 <= k < n ==> Monitored(states[k], steps[k])
    ensures Clean(states[n].swept, states[n].rows)
    ensures n > 0 && steps[n - 1].Sweep? ==> Clean(states[n].chain, states[n].rows)
  {
    if n > 0 {
      ShallowReorgsStayClean(lib, includes, states, steps, n - 1);
      StepStaysClean(lib, includes, states[n - 1], steps[n - 1], states[n]);
    }
  }

  /** A lagging index breaks the guarantee even without any failure: it can still report a block that
      has just been orphaned, and the pass stores it. */
  lemma LaggingIndexStoresOrphan<T>(terms: T, txn: Transaction, node: Node, after: map<string, Entry<T>>,
                                    submitted: map<string, Transaction>)
    requires node.chain == Chain(map[0 := Block(0, 0), 1 := Block(0, 1), 2 := Block(0, 1)], [0, 2], {})
    requires node.WellFormed() && node.Faultless() && node.events(txn.id) == Found(ChainIndex(1, 1))
    requires Pass(node, map["w" := Entry(terms, txn, ChainIndex(0, 0), None, None)], after, submitted)
    ensures !Clean(node.chain, after)
  {
    CleanAfterPassIff(node, map["w" := Entry(terms, txn, ChainIndex(0, 0), None, None)], after, submitted);
    assert "w" in map["w" := Entry(terms, txn, ChainIndex(0, 0), None, None)];
  }
}
