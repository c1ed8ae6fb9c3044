/** What is known about a swap's outputs: the confirmed history of its address replayed oldest first,
    and the pool replayed on top. */
module SwapObservers {
  import opened Wrappers
  import opened Ledger
  import opened SwapPolicies

  const MAX_EVENTS: nat := 10_000

  /** An index event; only those of transactions carry one. */
  datatype Event = Event(height: nat, maturity: nat, confirmations: nat, txn: Option<Transaction>)

  /** The registered swap whose address is watched. */
  datatype Watch = Watch(crypto: Crypto, contract: Contract, address: Address)

  datatype Status = Funding | Funded | Claiming | Refunding | Spending | Claimed | Refunded | Spent

  datatype Observed = Observed(
    value: nat, fundingTxn: Option<TxID>, fundingHeight: Option<nat>, maturity: nat, confirmations: nat, status: Status,
    spendTxn: Option<TxID>, spendHeight: Option<nat>, secret: Option<Preimage>, confirmed: bool, spent: bool)

  type Outputs = map<OutputID, Observed>

  // ----- what one event does -----

  /** Event `e` creates output `id` at the watched address. */
  predicate Funds(w: Watch, e: Event, id: OutputID) {
    && e.txn.Some? && id.txid == e.txn.value.id && id.index < |e.txn.value.outputs|
    && e.txn.value.outputs[id.index].address == w.address
  }

  /** Input `j` of event `e` spends output `id` of the watched address. */
  predicate Spends(w: Watch, e: Event, j: nat, id: OutputID) {
    && e.txn.Some? && j < |e.txn.value.inputs|
    && e.txn.value.inputs[j].parent == id && e.txn.value.inputs[j].parentAddress == w.address
  }

  function FundingRecord(w: Watch, e: Event, id: OutputID, confirmed: bool): (r: Observed)
    requires Funds(w, e, id)
  {
    Observed(e.txn.value.outputs[id.index].value, Some(id.txid), if confirmed then Some(e.height) else None,
             e.maturity, e.confirmations, if confirmed then Funded else Funding, None, None, None, confirmed, false)
  }

  function Blank(value: nat): (r: Observed) {
    Observed(value, None, None, 0, 0, Spending, None, None, None, false, false)
  }

  function SpendStatus(kind: SpendKind, confirmed: bool): (r: Status) {
    match kind
    case Claim => if confirmed then Claimed else Claiming
    case Refund => if confirmed then Refunded else Refunding
    case Unknown => if confirmed then Spent else Spending
  }

  function SpentRecord(w: Watch, o: Observed, e: Event, input: Input, confirmed: bool): (r: Observed)
    requires e.txn.Some?
  {
    var reading := Classify(w.crypto, w.contract, input);
    o.(spent := true, status := SpendStatus(reading.kind, confirmed), spendTxn := Some(e.txn.value.id),
       secret := reading.secret, spendHeight := if confirmed then Some(e.height) else o.spendHeight)
  }

  function ObserveOutput(m: Outputs, w: Watch, e: Event, i: nat, confirmed: bool): (r: Outputs)
    requires e.txn.Some? && i < |e.txn.value.outputs|
  {
    var id := OutputID(e.txn.value.id, i);
    if Funds(w, e, id) && (id !in m || (confirmed && !m[id].confirmed))
    then m[id := FundingRecord(w, e, id, confirmed)]
    else m
  }

  function ObserveOutputs(m: Outputs, w: Watch, e: Event, n: nat, confirmed: bool): (r: Outputs)
    requires e.txn.Some? && n <= |e.txn.value.outputs|
  {
    if n == 0 then m else ObserveOutput(ObserveOutputs(m, w, e, n - 1, confirmed), w, e, n - 1, confirmed)
  }

  function ObserveInput(m: Outputs, w: Watch, e: Event, j: nat, confirmed: bool): (r: Outputs)
    requires e.txn.Some? && j < |e.txn.value.inputs|
  {
    var input := e.txn.value.inputs[j];
    var o := if input.parent in m then m[input.parent] else Blank(input.parentValue);
    if input.parentAddress != w.address || (o.spent && !confirmed) then m
    else m[input.parent := SpentRecord(w, o, e, input, confirmed)]
  }

  function ObserveInputs(m: Outputs, w: Watch, e: Event, n: nat, confirmed: bool): (r: Outputs)
    requires e.txn.Some? && n <= |e.txn.value.inputs|
  {
    if n == 0 then m else ObserveInput(ObserveInputs(m, w, e, n - 1, confirmed), w, e, n - 1, confirmed)
  }

  function ObserveEvent(m: Outputs, w: Watch, e: Event, confirmed: bool): (r: Outputs) {
    if e.txn.None? then m
    else ObserveInputs(ObserveOutputs(m, w, e, |e.txn.value.outputs|, confirmed), w, e, |e.txn.value.inputs|, confirmed)
  }

  function ReplayFrom(m: Outputs, w: Watch, events: seq<Event>, confirmed: bool): (r: Outputs) {
    if events == [] then m
    else ObserveEvent(ReplayFrom(m, w, events[..|events| - 1], confirmed), w, events[|events| - 1], confirmed)
  }

  /** The confirmed history, oldest first, then the pool. */
  function Replay(w: Watch, history: seq<Event>, pool: seq<Event>): (r: Outputs) {
    ReplayFrom(ReplayFrom(map[], w, history, true), w, pool, false)
  }

  // ----- the daemon's loops -----

  class Observer {
    var outputs: Outputs

    constructor ()
      ensures outputs == map[]
    {
      outputs := map[];
    }

    method ObserveSwapTransaction(w: Watch, e: Event, confirmed: bool)
      modifies this
      ensures outputs == ObserveEvent(old(outputs), w, e, confirmed)
    {
      if e.txn.None? {
        return;
      }
      var txn := e.txn.value;
      for i := 0 to |txn.outputs|
        invariant outputs == ObserveOutputs(old(outputs), w, e, i, confirmed)
      {
        if txn.outputs[i].address != w.address {
          continue;
        }
        var id := OutputID(txn.id, i);
        if id !in outputs || (confirmed && !outputs[id].confirmed) {
          var status, height := Funding, None;
          if confirmed {
            status, height := Funded, Some(e.height);
          }
          outputs := outputs[id :=
            Observed(txn.outputs[i].value, Some(txn.id), height, e.maturity, e.confirmations, status, None, None, None,
            confirmed, false)];
        }
      }
      ghost var funded := outputs;
      for j := 0 to |txn.inputs|
        invariant outputs == ObserveInputs(funded, w, e, j, confirmed)
      {
        var input := txn.inputs[j];
        if input.parentAddress != w.address {
          continue;
        }
        var o := if input.parent in outputs then outputs[input.parent] else Blank(input.parentValue);
        if o.spent && !confirmed {
          continue;
        }
        var reading := ClassifySwapSpend(w.crypto, w.contract, input);
        o := o.(spent := true, status := SpendStatus(reading.kind, false), spendTxn :=
          Some(txn.id), secret := reading.secret);
        if confirmed {
          o := o.(status := SpendStatus(reading.kind, true), spendHeight := Some(e.height));
        }
        outputs := outputs[input.parent := o];
      }
    }
  }

  /** What is shown of an output: its record, and what is left of it in the next block if it can still
      be spent. */
  datatype View = View(output: Observed, spendable: Option<nat>)

  /** `worth` is what is left of a value with a maturity height in the next block. */
  function Shown(o: Observed, worth: (nat, nat) -> nat): (r: View) {
    View(o, if !o.spent && o.confirmed then Some(worth(o.value, o.maturity)) else None)
  }

  function Views(outputs: Outputs, worth: (nat, nat) -> nat): (r: map<OutputID, View>) {
    map id | id in outputs :: Shown(outputs[id], worth)
  }

  datatype ObserveError = Synchronizing | HistoryTooLong | ChainChanged

  /** The pages of the history, newest first, unless there are 10000 events or more. */
  method ReadHistory(newestFirst: seq<Event>) returns (r: Option<seq<Event>>)
    ensures r == if 10_000 <= |newestFirst| then None else Some(newestFirst)
  {
    var history: seq<Event> := [];
    var offset := 0;
    while offset < MAX_EVENTS
      invariant offset < MAX_EVENTS && offset % PAGE_SIZE == 0
      invariant offset <= |newestFirst| && history == newestFirst[..offset]
    {
      var page := newestFirst[offset..Min(offset + PAGE_SIZE, |newestFirst|)];
      history := history + page;
      if |page| < PAGE_SIZE {
        break;
      } else if offset + PAGE_SIZE == MAX_EVENTS {
        return None;
      }
      offset := offset + PAGE_SIZE;
    }
    assert history == newestFirst;
    return Some(history);
  }

  /** The index serves the history newest first, in pages; the daemon reads them all, replays them
      backwards, and then the pool. `indexed` says that the index is at the tip, `steady` that index and
      chain still stand where they stood. */
  method ObservedSwapOutputs(w: Watch, newestFirst: seq<Event>, pool: seq<Event>, indexed: bool, steady: bool,
                             worth: (nat, nat) -> nat)
    returns (r: Result<map<OutputID, View>, ObserveError>)
    ensures r == if !indexed then Failure(Synchronizing)
                 else if 10_000 <= |newestFirst| then Failure(HistoryTooLong)
                 else if !steady then Failure(ChainChanged)
                 else Success(Views(Replay(w, Reversed(newestFirst), pool), worth))
  {
    if !indexed {
      return Failure(Synchronizing);
    }
    var read := ReadHistory(newestFirst);
    if read.None? {
      return Failure(HistoryTooLong);
    }
    var history := read.value;
    var observer := new Observer();
    var i := |history|;
    while i > 0
      invariant 0 <= i <= |history|
      invariant observer.outputs == ReplayFrom(map[], w, Reversed(history[i..]), true)
    {
      i := i - 1;
      assert history[i..][1..] == history[i + 1..];
      var sofar := Reversed(history[i..]);
      assert sofar == Reversed(history[i + 1..]) + [history[i]];
      assert sofar[..|sofar| - 1] == Reversed(history[i + 1..]);
      observer.ObserveSwapTransaction(w, history[i], true);
    }
    assert history[0..] == history;
    if !steady {
      return Failure(ChainChanged);
    }
    ghost var confirmed := observer.outputs;
    for k := 0 to |pool|
      invariant observer.outputs == ReplayFrom(confirmed, w, pool[..k], false)
    {
      assert pool[..k + 1][..k] == pool[..k];
      observer.ObserveSwapTransaction(w, pool[k], false);
    }
    assert pool[..|pool|] == pool;
    return Success(Views(observer.outputs, worth));
  }

  function Reversed<T>(s: seq<T>): (r: seq<T>)
    ensures |r| == |s| && forall k :: 0 <= k < |s| ==> r[k] == s[|s| - 1 - k]
  {
    if s == [] then [] else Reversed(s[1..]) + [s[0]]
  }
}
