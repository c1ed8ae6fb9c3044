/** The paged deposit feed. */
module Deposits {
  import opened Wrappers
  import opened Ledger
  import opened Addresses

  const MAX_LIMIT: nat := 200

  type EventID = nat

  datatype EventData = Paid(txn: Transaction) | Payout(output: Output) | Other

  /** A wallet event; the index lists them newest first. */
  datatype Event = Event(id: EventID, data: EventData)

  datatype DepositID = OfOutput(output: OutputID) | OfEvent(event: EventID)

  datatype DepositView = DepositView(id: DepositID, address: Address, reference: string, amount: nat, creditable: bool)

  /** The managed addresses. */
  type Book = map<Address, Record>

  predicate PaysDeposit(book: Book, o: Output) {
    o.address in book && book[o.address].kind == Deposit
  }

  /** The transaction also spends a managed output. */
  predicate Internal(book: Book, txn: Transaction) {
    exists i :: i in txn.inputs && i.parentAddress in book
  }

  function OutputDeposits(book: Book, txn: Transaction, n: nat): (r: seq<DepositView>)
    requires n <= |txn.outputs|
  {
    if n == 0 then []
    else
      var o := txn.outputs[n - 1];
      OutputDeposits(book, txn, n - 1) +
      if PaysDeposit(book, o) then
        [DepositView(OfOutput(OutputID(txn.id, n - 1)), o.address, book[o.address].reference, o.value,
                     !Internal(book, txn))]
      else []
  }

  /** The deposits of one event: its outputs to deposit addresses, all creditable or none. */
  function EventDeposits(book: Book, e: Event): (r: seq<DepositView>) {
    match e.data
    case Paid(txn) => OutputDeposits(book, txn, |txn.outputs|)
    case Payout(o) =>
      if PaysDeposit(book, o) then [DepositView(OfEvent(e.id), o.address, book[o.address].reference, o.value, true)]
      else []
    case Other => []
  }

  /** Field by field: an output is a deposit exactly if its address is in the book as a deposit address; the
      entry carries the output's address and amount and the row's reference, and it is creditable exactly if
      no input spends from an address in the book. */
  lemma {:induction false} OutputDepositsInFields(book: Book, txn: Transaction, n: nat)
    requires n <= |txn.outputs|
    ensures forall d :: d in OutputDeposits(book, txn, n) <==> exists k: nat ::
              && k < n && txn.outputs[k].address in book && book[txn.outputs[k].address].kind == Deposit
              && d == DepositView(OfOutput(OutputID(txn.id, k)), txn.outputs[k].address,
                                  book[txn.outputs[k].address].reference, txn.outputs[k].value,
                                  forall i :: i in txn.inputs ==> i.parentAddress !in book)
  {
    if n > 0 {
      OutputDepositsInFields(book, txn, n - 1);
    }
  }

  /** The deposits of the events from `lo` up to `hi`. */
  function DepositsIn(book: Book, events: seq<Event>, lo: nat, hi: nat): (r: seq<DepositView>)
    requires lo <= hi <= |events|
    decreases hi
  {
    if lo == hi then [] else DepositsIn(book, events, lo, hi - 1) + EventDeposits(book, events[hi - 1])
  }

  /** What a page from `offset` holds, and where the next one starts: whole events, up to the first
      one that fills the page, or to the end. */
  ghost predicate IsPage(book: Book, events: seq<Event>, limit: nat, offset: nat, page: seq<DepositView>, next: nat) {
    if |events| < offset then page == [] && next == offset
    else
      && offset <= next <= |events|
      && page == DepositsIn(book, events, offset, next)
      && (next < |events| ==> limit <= |page|)
      && (offset < next ==> |DepositsIn(book, events, offset, next - 1)| < limit)
  }

  datatype FeedError = BadPage | IndexBehind | ChainChanged

  /** The deposits of one event, as the feed's inner loops find them. */
  method ReadEvent(book: Book, e: Event) returns (r: seq<DepositView>)
    ensures r == EventDeposits(book, e)
    ensures e.data.Paid? ==> forall d :: d in r <==> exists k: nat ::
              && k < |e.data.txn.outputs| && e.data.txn.outputs[k].address in book
              && book[e.data.txn.outputs[k].address].kind == Deposit
              && d == DepositView(OfOutput(OutputID(e.data.txn.id, k)), e.data.txn.outputs[k].address,
                                  book[e.data.txn.outputs[k].address].reference, e.data.txn.outputs[k].value,
                                  forall i :: i in e.data.txn.inputs ==> i.parentAddress !in book)
    ensures e.data.Payout? ==>
              r == if e.data.output.address in book && book[e.data.output.address].kind == Deposit then
                     [DepositView(OfEvent(e.id), e.data.output.address, book[e.data.output.address].reference,
                                  e.data.output.value, true)] else []
    ensures e.data.Other? ==> r == []
  {
    r := [];
    match e.data {
      case Paid(txn) =>
        var internal := false;
        for k := 0 to |txn.inputs|
          invariant internal <==> exists i :: i in txn.inputs[..k] && i.parentAddress in book
        {
          assert txn.inputs[..k + 1] == txn.inputs[..k] + [txn.inputs[k]];
          if txn.inputs[k].parentAddress in book {
            internal := true;
            assert txn.inputs[k] in txn.inputs;
            break;
          }
        }
        assert txn.inputs[..|txn.inputs|] == txn.inputs;
        OutputDepositsInFields(book, txn, |txn.outputs|);
        for k := 0 to |txn.outputs|
          invariant r == OutputDeposits(book, txn, k)
        {
          var o := txn.outputs[k];
          if o.address !in book || book[o.address].kind != Deposit {
            continue;
          }
          r := r + [DepositView(OfOutput(OutputID(txn.id, k)), o.address, book[o.address].reference, o.value,
                                !internal)];
        }
      case Payout(o) =>
        if PaysDeposit(book, o) {
          r := [DepositView(OfEvent(e.id), o.address, book[o.address].reference, o.value, true)];
        }
      case Other =>
    }
  }

  /** The index's answer: at most `count` events from `offset`. */
  function Fetch(events: seq<Event>, offset: nat, count: nat): (r: seq<Event>)
    ensures |r| == if |events| <= offset then 0 else Min(count, |events| - offset)
    ensures forall k :: 0 <= k < |r| ==> r[k] == events[offset + k]
  {
    if |events| <= offset then [] else events[offset..offset + Min(count, |events| - offset)]
  }

  /** One request for deposits. `synced` and `steady` say that index and tip agree before, and have
      not moved after. */
  method ReadDeposits(book: Book, events: seq<Event>, limit: nat, eventOffset: nat, synced: bool, steady: bool)
    returns (r: Result<(seq<DepositView>, nat), FeedError>)
    ensures r.Success? <==> 1 <= limit <= 200 && synced && steady
    ensures r.Success? ==> IsPage(book, events, limit, eventOffset, r.value.0, r.value.1)
  {
    if limit < 1 || limit > MAX_LIMIT {
      return Failure(BadPage);
    }
    if !synced {
      return Failure(IndexBehind);
    }
    var deposits: seq<DepositView> := [];
    var offset := eventOffset;
    while |deposits| < limit
      invariant eventOffset <= offset
      invariant |events| < eventOffset ==> offset == eventOffset && deposits == []
      invariant eventOffset <= |events| ==> Reading(book, events, limit, eventOffset, deposits, offset)
      decreases |events| - offset
    {
      var batch := Min(PAGE_SIZE, limit * 2);
      var fetched := Fetch(events, offset, batch);
      if fetched == [] {
        break;
      }
      deposits, offset := ReadBatch(book, events, limit, eventOffset, deposits, offset, fetched);
      if |fetched| < batch {
        break;
      }
    }
    if !steady {
      return Failure(ChainChanged);
    }
    assert IsPage(book, events, limit, eventOffset, deposits, offset);
    return Success((deposits, offset));
  }

  /** A page in the making. */
  ghost predicate Reading(book: Book, events: seq<Event>, limit: nat, start: nat, deposits: seq<DepositView>,
                          offset: nat) {
    && start <= offset <= |events|
    && deposits == DepositsIn(book, events, start, offset)
    && (start < offset ==> |DepositsIn(book, events, start, offset - 1)| < limit)
  }

  lemma OneMore(book: Book, events: seq<Event>, limit: nat, start: nat, deposits: seq<DepositView>, offset: nat,
                e: Event, more: seq<DepositView>)
    requires Reading(book, events, limit, start, deposits, offset) && |deposits| < limit
    requires offset < |events| && e == events[offset] && more == EventDeposits(book, e)
    ensures Reading(book, events, limit, start, deposits + more, offset + 1)
  {
  }

  method ReadBatch(book: Book, ghost events: seq<Event>, limit: nat, ghost start: nat, sofar: seq<DepositView>,
                   from: nat, fetched: seq<Event>)
    returns (deposits: seq<DepositView>, offset: nat)
    requires Reading(book, events, limit, start, sofar, from) && |sofar| < limit
    requires fetched != [] && from + |fetched| <= |events|
               && forall k :: 0 <= k < |fetched| ==> fetched[k] == events[from + k]
    ensures from < offset && Reading(book, events, limit, start, deposits, offset)
    ensures |deposits| < limit ==> offset == from + |fetched|
  {
    deposits, offset := sofar, from;
    for k := 0 to |fetched|
      invariant offset == from + k && |deposits| < limit
      invariant Reading(book, events, limit, start, deposits, offset)
    {
      var more := ReadEvent(book, fetched[k]);
      OneMore(book, events, limit, start, deposits, offset, fetched[k], more);
      offset := offset + 1;
      deposits := deposits + more;
      if limit <= |deposits| {
        break;
      }
    }
  }

  // ----- what the feed holds -----

  lemma EventDepositsInFields(book: Book, e: Event)
    ensures e.data.Paid? ==> forall d :: d in EventDeposits(book, e) <==> exists k: nat ::
              && k < |e.data.txn.outputs| && e.data.txn.outputs[k].address in book
              && book[e.data.txn.outputs[k].address].kind == Deposit
              && d == DepositView(OfOutput(OutputID(e.data.txn.id, k)), e.data.txn.outputs[k].address,
                                  book[e.data.txn.outputs[k].address].reference, e.data.txn.outputs[k].value,
                                  forall i :: i in e.data.txn.inputs ==> i.parentAddress !in book)
    ensures e.data.Payout? ==> forall d :: d in EventDeposits(book, e) <==>
              && e.data.output.address in book && book[e.data.output.address].kind == Deposit
              && d == DepositView(OfEvent(e.id), e.data.output.address, book[e.data.output.address].reference,
                                  e.data.output.value, true)
    ensures e.data.Other? ==> EventDeposits(book, e) == []
  {
    if e.data.Paid? {
      OutputDepositsInFields(book, e.data.txn, |e.data.txn.outputs|);
    }
  }

  lemma {:induction false} BroughtByEvent(book: Book, events: seq<Event>, lo: nat, hi: nat, i: nat) returns (k: nat)
    requires lo <= hi <= |events| && i < |DepositsIn(book, events, lo, hi)|
    ensures lo <= k < hi && DepositsIn(book, events, lo, hi)[i] in EventDeposits(book, events[k])
    decreases hi
  {
    var before, last := DepositsIn(book, events, lo, hi - 1), EventDeposits(book, events[hi - 1]);
    assert DepositsIn(book, events, lo, hi) == before + last;
    if i < |before| {
      k := BroughtByEvent(book, events, lo, hi - 1, i);
    } else {
      k := hi - 1;
      assert (before + last)[i] == last[i - |before|];
    }
  }

  lemma InFeed(book: Book, events: seq<Event>, lo: nat, hi: nat, k: nat, d: DepositView)
    requires lo <= k < hi <= |events| && d in EventDeposits(book, events[k])
    ensures d in DepositsIn(book, events, lo, hi)
  {
    DepositsConcat(book, events, lo, k + 1, hi);
    assert d in DepositsIn(book, events, lo, k + 1);
  }

  /** Field by field: the feed holds an output of a transaction exactly if it pays a deposit address of the
      book, creditable exactly if no input of that transaction spends from the book. */
  lemma FeedInFields(book: Book, events: seq<Event>, d: DepositView)
    ensures d in DepositsIn(book, events, 0, |events|) <==>
              || (exists k: nat, n: nat ::
                    && k < |events| && events[k].data.Paid? && n < |events[k].data.txn.outputs|
                    && var txn := events[k].data.txn;
                    && txn.outputs[n].address in book && book[txn.outputs[n].address].kind == Deposit
                    && d == DepositView(OfOutput(OutputID(txn.id, n)), txn.outputs[n].address,
                                        book[txn.outputs[n].address].reference, txn.outputs[n].value,
                                        forall i :: i in txn.inputs ==> i.parentAddress !in book))
              || (exists k: nat ::
                    && k < |events| && events[k].data.Payout?
                    && var o := events[k].data.output;
                    && o.address in book && book[o.address].kind == Deposit
                    && d == DepositView(OfEvent(events[k].id), o.address, book[o.address].reference, o.value, true))
  {
    forall k | 0 <= k < |events| {
      EventDepositsInFields(book, events[k]);
    }
    if d in DepositsIn(book, events, 0, |events|) {
      var i :| 0 <= i < |DepositsIn(book, events, 0, |events|)| && DepositsIn(book, events, 0, |events|)[i] == d;
      var k := BroughtByEvent(book, events, 0, |events|, i);
    }
    forall k | 0 <= k < |events| && d in EventDeposits(book, events[k])
      ensures d in DepositsIn(book, events, 0, |events|)
    {
      InFeed(book, events, 0, |events|, k, d);
    }
  }

  // ----- following the pages -----

  lemma {:induction false} DepositsConcat(book: Book, events: seq<Event>, lo: nat, mid: nat, hi: nat)
    requires lo <= mid <= hi <= |events|
    ensures DepositsIn(book, events, lo, hi) == DepositsIn(book, events, lo, mid) + DepositsIn(book, events, mid, hi)
    decreases hi
  {
    if mid < hi {
      DepositsConcat(book, events, lo, mid, hi - 1);
    }
  }

  /** The answers of a client that follows `nextOffset` from 0, with any limits. */
  ghost predicate Followed(book: Book, events: seq<Event>, limits: seq<nat>, pages: seq<seq<DepositView>>,
                           stops: seq<nat>) {
    && |stops| == |pages| + 1 == |limits| + 1
    && stops[0] == 0
    && forall k {:trigger pages[k]} :: 0 <= k < |pages| ==>
         1 <= limits[k] && IsPage(book, events, limits[k], stops[k], pages[k], stops[k + 1])
  }

  /** The first `n` pages, one after the other. */
  function Joined(pages: seq<seq<DepositView>>, n: nat): (r: seq<DepositView>)
    requires n <= |pages|
  {
    if n == 0 then [] else Joined(pages, n - 1) + pages[n - 1]
  }

  lemma PageGoesOn(book: Book, events: seq<Event>, limit: nat, offset: nat, page: seq<DepositView>, next: nat)
    requires 1 <= limit && offset <= |events| && IsPage(book, events, limit, offset, page, next)
    ensures offset <= next <= |events| && (offset < |events| ==> offset < next)
    ensures DepositsIn(book, events, 0, next) == DepositsIn(book, events, 0, offset) + page
  {
    DepositsConcat(book, events, 0, offset, next);
  }

  /** The pages tile the feed: together they are exactly the deposits of the events passed, in order,
      each once; every page passes an event while any is left, so all are read after at most as many
      pages as there are events. */
  lemma {:induction false} PagesTile(book: Book, events: seq<Event>, limits: seq<nat>, pages: seq<seq<DepositView>>,
                                     stops: seq<nat>, n: nat)
    requires Followed(book, events, limits, pages, stops) && n <= |pages|
    ensures Min(n, |events|) <= stops[n] <= |events|
    ensures Joined(pages, n) == DepositsIn(book, events, 0, stops[n])
    ensures |events| <= n ==> Joined(pages, n) == DepositsIn(book, events, 0, |events|)
  {
    if n > 0 {
      PagesTile(book, events, limits, pages, stops, n - 1);
      var page := pages[n - 1];
      PageGoesOn(book, events, limits[n - 1], stops[n - 1], page, stops[n]);
    }
  }

  // ----- deposit identifiers -----

  /** No two events share an ID, no two transactions theirs. */
  ghost predicate DistinctEvents(events: seq<Event>) {
    forall i, k :: 0 <= i < k < |events| ==>
      && events[i].id != events[k].id
      && (events[i].data.Paid? && events[k].data.Paid? ==> events[i].data.txn.id != events[k].data.txn.id)
  }

  ghost predicate DistinctIds(ds: seq<DepositView>) {
    forall i, k :: 0 <= i < k < |ds| ==> ds[i].id != ds[k].id
  }

  /** The identifier of a deposit names its event, and within it its output. */
  ghost predicate NamesEvent(d: DepositView, e: Event) {
    match d.id
    case OfOutput(o) => e.data.Paid? && o.txid == e.data.txn.id
    case OfEvent(id) => e.data.Payout? && id == e.id
  }

  lemma {:induction false} OutputIdsDistinct(book: Book, txn: Transaction, n: nat)
    requires n <= |txn.outputs|
    ensures DistinctIds(OutputDeposits(book, txn, n))
    ensures forall d :: d in OutputDeposits(book, txn, n) ==>
              d.id.OfOutput? && d.id.output.txid == txn.id && d.id.output.index < n
  {
    if n > 0 {
      OutputIdsDistinct(book, txn, n - 1);
    }
  }

  /** The deposits of a transaction are listed in the order of its outputs. */
  lemma {:induction false} OutputDepositsInOrder(book: Book, txn: Transaction, n: nat, i: nat, j: nat)
    requires n <= |txn.outputs| && i < j < |OutputDeposits(book, txn, n)|
    ensures var ds := OutputDeposits(book, txn, n);
            ds[i].id.OfOutput? && ds[j].id.OfOutput? && ds[i].id.output.index < ds[j].id.output.index
  {
    var before, ds := OutputDeposits(book, txn, n - 1), OutputDeposits(book, txn, n);
    OutputIdsDistinct(book, txn, n - 1);
    assert ds[i] == before[i] && before[i] in before;
    if j < |before| {
      OutputDepositsInOrder(book, txn, n - 1, i, j);
    }
  }

  lemma {:induction false} DepositIdsDistinct(book: Book, events: seq<Event>, n: nat)
    requires DistinctEvents(events) && n <= |events|
    ensures DistinctIds(DepositsIn(book, events, 0, n))
    ensures forall d :: d in DepositsIn(book, events, 0, n) ==> exists k :: 0 <= k < n && NamesEvent(d, events[k])
  {
    if n > 0 {
      var before, more := DepositsIn(book, events, 0, n - 1), EventDeposits(book, events[n - 1]);
      DepositIdsDistinct(book, events, n - 1);
      if events[n - 1].data.Paid? {
        OutputIdsDistinct(book, events[n - 1].data.txn, |events[n - 1].data.txn.outputs|);
      }
      assert forall d :: d in more ==> NamesEvent(d, events[n - 1]);
      forall i, k | 0 <= i < |before| && 0 <= k < |more|
        ensures before[i].id != more[k].id
      {
        assert before[i] in before && more[k] in more;
      }
    }
  }
}
