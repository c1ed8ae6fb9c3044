/** Choosing the outputs a transaction spends. */
module Selection {
  import opened Wrappers
  import opened Ledger
  import opened Sums

  const MAX_INPUTS: nat := 128

  /** Amounts are 128-bit; adding beyond that panics. */
  const CURRENCY_LIMIT: nat := 0x1_0000_0000_0000_0000_0000_0000_0000_0000

  datatype Element = Element(id: OutputID, address: Address, value: nat, maturity: nat)

  /** The consensus state at a tip. `qdayValue` is what is left of an output at a height. */
  datatype Consensus = Consensus(index: ChainIndex, qdayHeight: nat, shieldBlocks: nat,
                                 qdayValue: (Element, nat) -> nat)
  {
    /** Decay never adds value. */
    ghost predicate Decays() {
      forall e, h :: qdayValue(e, h) <= e.value
    }

    /** What is left of outputs at a height. */
    function ValueAt(height: nat): (f: Element -> nat) {
      (e: Element) => qdayValue(e, height)
    }

    /** What an output is worth to a transaction built now. */
    function Worth(e: Element): (r: nat) {
      qdayValue(e, index.height + 2)
    }

    /** The sort key of the payment builder: the greatest worth first. */
    function Descending(e: Element): (r: int) {
      0 - Worth(e)
    }

    /** The height at which an output's shield ends. */
    function Expiry(e: Element): (r: int) {
      Max(e.maturity, qdayHeight) + shieldBlocks
    }

    /** The last quarter of the shield, two blocks at least. */
    function Threshold(): (r: nat) {
      Max(2, shieldBlocks / 4)
    }

    /** DEFEND is due in the last quarter of the shield. */
    predicate Due(e: Element) {
      Expiry(e) <= index.height + Threshold()
    }
  }

  datatype SelectError = IndexBehind | TipChanged | UnknownOwner | Insufficient | Overflow | NothingDue

  // ----- eligible outputs -----

  ghost predicate UniqueIds(s: seq<Element>) {
    forall i, j :: 0 <= i < j < |s| ==> s[i].id != s[j].id
  }

  function SpentIn(pool: seq<Transaction>): (r: set<OutputID>) {
    set t, i | t in pool && i in t.inputs :: i.parent
  }

  /** The outputs of the whole list that may be spent, in the list's order. */
  function Eligible(cs: Consensus, spent: set<OutputID>, unspent: seq<Element>): (r: seq<Element>) {
    if unspent == [] then []
    else
      var last := unspent[|unspent| - 1];
      Eligible(cs, spent, unspent[..|unspent| - 1]) + if last.id !in spent && cs.Worth(last) != 0 then [last] else []
  }

  lemma {:induction false} EligibleMembers(cs: Consensus, spent: set<OutputID>, unspent: seq<Element>)
    ensures forall e :: e in Eligible(cs, spent, unspent) <==> e in unspent && e.id !in spent && cs.Worth(e) != 0
    decreases |unspent|
  {
    if unspent != [] {
      var n := |unspent| - 1;
      EligibleMembers(cs, spent, unspent[..n]);
      assert unspent == unspent[..n] + [unspent[n]];
    }
  }

  /** Field by field: the eligible outputs are the listed ones that are worth something two blocks on and that
      no input of any pool transaction spends. */
  lemma EligibleInFields(cs: Consensus, pool: seq<Transaction>, unspent: seq<Element>)
    ensures forall e :: e in Eligible(cs, SpentIn(pool), unspent) <==>
              && e in unspent && 0 < cs.qdayValue(e, cs.index.height + 2)
              && forall t, i :: t in pool && i in t.inputs ==> i.parent != e.id
  {
    EligibleMembers(cs, SpentIn(pool), unspent);
  }

  lemma {:induction false} EligibleUnique(cs: Consensus, spent: set<OutputID>, unspent: seq<Element>)
    requires UniqueIds(unspent)
    ensures UniqueIds(Eligible(cs, spent, unspent))
    decreases |unspent|
  {
    if unspent != [] {
      var n := |unspent| - 1;
      EligibleUnique(cs, spent, unspent[..n]);
      EligibleMembers(cs, spent, unspent[..n]);
      var rest := Eligible(cs, spent, unspent[..n]);
      forall k | 0 <= k < |rest|
        ensures rest[k].id != unspent[n].id
      {
        assert rest[k] in rest && rest[k] in unspent[..n];
      }
    }
  }

  lemma {:induction false} EligibleConcat(cs: Consensus, spent: set<OutputID>, a: seq<Element>, b: seq<Element>)
    ensures Eligible(cs, spent, a + b) == Eligible(cs, spent, a) + Eligible(cs, spent, b)
    decreases |b|
  {
    if b == [] {
      assert a + b == a;
    } else {
      assert (a + b)[..|a + b| - 1] == a + b[..|b| - 1];
      EligibleConcat(cs, spent, a, b[..|b| - 1]);
    }
  }

  /** The wallet index's answer for one page. */
  function Page(unspent: seq<Element>, offset: nat): (r: seq<Element>)
    requires offset <= |unspent|
  {
    unspent[offset..Min(offset + PAGE_SIZE, |unspent|)]
  }

  method PoolSpends(pool: seq<Transaction>) returns (spent: set<OutputID>)
    ensures spent == SpentIn(pool)
    ensures forall id :: id in spent <==> exists t, i :: t in pool && i in t.inputs && i.parent == id
  {
    spent := {};
    for k := 0 to |pool|
      invariant spent == SpentIn(pool[..k])
    {
      assert pool[..k + 1] == pool[..k] + [pool[k]];
      ghost var before := spent;
      var inputs := pool[k].inputs;
      for j := 0 to |inputs|
        invariant spent == before + set i | i in inputs[..j] :: i.parent
      {
        assert inputs[..j + 1] == inputs[..j] + [inputs[j]];
        spent := spent + {inputs[j].parent};
      }
      assert inputs[..|inputs|] == inputs;
    }
    assert pool[..|pool|] == pool;
  }

  method AppendEligible(cs: Consensus, spent: set<OutputID>, sofar: seq<Element>, page: seq<Element>)
    returns (result: seq<Element>)
    ensures result == sofar + Eligible(cs, spent, page)
  {
    result := sofar;
    for k := 0 to |page|
      invariant result == sofar + Eligible(cs, spent, page[..k])
    {
      assert page[..k + 1][..k] == page[..k];
      if page[k].id !in spent && cs.Worth(page[k]) != 0 {
        result := result + [page[k]];
      }
    }
    assert page[..|page|] == page;
  }

  lemma PageStep(cs: Consensus, spent: set<OutputID>, unspent: seq<Element>, offset: nat)
    requires offset <= |unspent|
    ensures var page := Page(unspent, offset);
            && |page| == Min(PAGE_SIZE, |unspent| - offset)
            && Eligible(cs, spent, unspent[..offset]) + Eligible(cs, spent, page) ==
                 Eligible(cs, spent, unspent[..offset + |page|])
            && (|page| < PAGE_SIZE ==> unspent[..offset + |page|] == unspent)
  {
    var page := Page(unspent, offset);
    EligibleConcat(cs, spent, unspent[..offset], page);
    assert unspent[..offset] + page == unspent[..offset + |page|];
  }

  /** Reads the index page by page, dropping what the pool spends and what has decayed to nothing.
      `basis(p)` is the tip the index answers with for page p. */
  method SpendableOutputs(cs: Consensus, pool: seq<Transaction>, unspent: seq<Element>, basis: nat -> ChainIndex,
                          tipAfter: ChainIndex)
    returns (r: Result<seq<Element>, SelectError>)
    ensures r.Success? ==> r.value == Eligible(cs, SpentIn(pool), unspent)
    ensures r.Success? ==>
              forall e :: e in r.value <==>
                && e in unspent && 0 < cs.qdayValue(e, cs.index.height + 2)
                && forall t, i :: t in pool && i in t.inputs ==> i.parent != e.id
    ensures r.Failure? ==> r.error == IndexBehind || r.error == TipChanged
    ensures r.Success? <==>
              (forall p: nat :: p * 500 <= |unspent| ==> basis(p) == cs.index) && tipAfter == cs.index
  {
    var spent := PoolSpends(pool);
    r := EligibleOfPages(cs, spent, unspent, basis);
    EligibleInFields(cs, pool, unspent);
    if r.Success? && tipAfter != cs.index {
      return Failure(TipChanged);
    }
  }

  /** The page loop. */
  method EligibleOfPages(cs: Consensus, spent: set<OutputID>, unspent: seq<Element>, basis: nat -> ChainIndex)
    returns (r: Result<seq<Element>, SelectError>)
    ensures r == if forall p: nat :: p * PAGE_SIZE <= |unspent| ==> basis(p) == cs.index
                 then Success(Eligible(cs, spent, unspent)) else Failure(IndexBehind)
  {
    var result: seq<Element> := [];
    var offset := 0;
    var p: nat := 0;
    while true
      invariant offset == p * PAGE_SIZE <= |unspent|
      invariant result == Eligible(cs, spent, unspent[..offset])
      invariant forall q: nat :: q < p ==> basis(q) == cs.index
      decreases |unspent| - offset
    {
      var page := Page(unspent, offset);
      if basis(p) != cs.index {
        return Failure(IndexBehind);
      }
      result := AppendEligible(cs, spent, result, page);
      PageStep(cs, spent, unspent, offset);
      if |page| < PAGE_SIZE {
        break;
      }
      offset := offset + PAGE_SIZE;
      p := p + 1;
    }
    return Success(result);
  }

  // ----- sorting -----

  ghost predicate SortedBy(s: seq<Element>, key: Element -> int) {
    forall i, j :: 0 <= i < j < |s| ==> key(s[i]) <= key(s[j])
  }

  method Insert(s: seq<Element>, x: Element, key: Element -> int) returns (r: seq<Element>)
    requires SortedBy(s, key)
    ensures multiset(r) == multiset(s) + multiset{x} && SortedBy(r, key)
  {
    var at := |s|;
    while at > 0 && key(x) < key(s[at - 1])
      invariant 0 <= at <= |s|
      invariant at < |s| ==> key(x) <= key(s[at])
    {
      at := at - 1;
    }
    r := s[..at] + [x] + s[at..];
    Inserted(s, x, at);
    InsertedIsSorted(s, x, key, at);
  }

  lemma Inserted(s: seq<Element>, x: Element, at: nat)
    requires at <= |s|
    ensures multiset(s[..at] + [x] + s[at..]) == multiset(s) + multiset{x}
  {
    assert s == s[..at] + s[at..];
  }

  lemma InsertedIsSorted(s: seq<Element>, x: Element, key: Element -> int, at: nat)
    requires SortedBy(s, key) && at <= |s|
    requires 0 < at ==> key(s[at - 1]) <= key(x)
    requires at < |s| ==> key(x) <= key(s[at])
    ensures SortedBy(s[..at] + [x] + s[at..], key)
  {
  }

  /** The library sort; which of two equal keys comes first is not said. */
  method SortBy(s: seq<Element>, key: Element -> int) returns (r: seq<Element>)
    ensures multiset(r) == multiset(s) && SortedBy(r, key)
  {
    r := [];
    for k := 0 to |s|
      invariant multiset(r) == multiset(s[..k]) && SortedBy(r, key)
    {
      assert s[..k + 1] == s[..k] + [s[k]];
      r := Insert(r, s[k], key);
    }
    assert s[..|s|] == s;
  }

  // ----- greedy selection -----

  /** Adds outputs in the given order until they cover `required`, or 128 are taken. `owned` are the
      addresses with a known key. */
  method TakeUntilCovered(cs: Consensus, outputs: seq<Element>, owned: set<Address>, required: nat)
    returns (r: Result<seq<Element>, SelectError>)
    requires 0 < required
    ensures match r
            case Success(taken) =>
              && taken <= outputs && 0 < |taken| <= MAX_INPUTS
              && required <= SumBy(taken, cs.Worth) < CURRENCY_LIMIT
              && SumBy(taken[..|taken| - 1], cs.Worth) < required
              && forall e :: e in taken ==> e.address in owned
            case Failure(Insufficient) => SumBy(outputs[..Min(MAX_INPUTS, |outputs|)], cs.Worth) < required
            case Failure(UnknownOwner) => exists e :: e in outputs && e.address !in owned
            case Failure(Overflow) => CURRENCY_LIMIT <= SumBy(outputs, cs.Worth)
            case Failure(_) => false
  {
    var total := 0;
    var k := 0;
    while k < |outputs|
      invariant 0 <= k <= |outputs| && k < MAX_INPUTS
      invariant total == SumBy(outputs[..k], cs.Worth) < CURRENCY_LIMIT && total < required
      invariant forall e :: e in outputs[..k] ==> e.address in owned
    {
      var e := outputs[k];
      PrefixSum(outputs, cs.Worth, k);
      assert outputs[..k + 1][..k] == outputs[..k];
      if e.address !in owned {
        return Failure(UnknownOwner);
      }
      k := k + 1;
      if CURRENCY_LIMIT <= total + cs.Worth(e) {
        return Failure(Overflow);
      }
      total := total + cs.Worth(e);
      if required <= total || k == MAX_INPUTS {
        break;
      }
    }
    if total < required {
      return Failure(Insufficient);
    }
    return Success(outputs[..k]);
  }

  // ----- the greedy choice is the best there is -----

  function Ids(s: seq<Element>): (r: set<OutputID>) {
    set e | e in s :: e.id
  }

  /** The worth of the chosen outputs of a list. */
  function ChosenWorth(cs: Consensus, s: seq<Element>, chosen: set<OutputID>): (r: nat) {
    SumBy(s, (e: Element) => if e.id in chosen then cs.Worth(e) else 0)
  }

  function ChosenCount(s: seq<Element>, chosen: set<OutputID>): (r: nat) {
    SumBy(s, (e: Element) => if e.id in chosen then 1 else 0)
  }

  /** A choice that pays: at most 128 outputs worth at least `required` together. */
  ghost predicate Pays(cs: Consensus, s: seq<Element>, chosen: set<OutputID>, required: nat) {
    chosen <= Ids(s) && |chosen| <= MAX_INPUTS && required <= ChosenWorth(cs, s, chosen)
  }

  /** Of any list in descending worth, no choice of k outputs is worth more than the first k. */
  lemma {:induction false} FirstAreBest(cs: Consensus, s: seq<Element>, chosen: set<OutputID>)
    requires SortedBy(s, cs.Descending)
    ensures ChosenCount(s, chosen) <= |s|
    ensures ChosenWorth(cs, s, chosen) <= SumBy(s[..ChosenCount(s, chosen)], cs.Worth)
    decreases |s|
  {
    if s != [] {
      var n := |s| - 1;
      FirstAreBest(cs, s[..n], chosen);
      OneMoreConsidered(cs, s, n, chosen);
      var c := ChosenCount(s[..n], chosen);
      assert s[..n][..c] == s[..c];
      PrefixSum(s, cs.Worth, c);
      assert cs.Descending(s[c]) <= cs.Descending(s[n]);
    }
  }

  lemma OneMoreConsidered(cs: Consensus, s: seq<Element>, n: nat, chosen: set<OutputID>)
    requires |s| == n + 1
    ensures ChosenCount(s, chosen) == ChosenCount(s[..n], chosen) + (if s[n].id in chosen then 1 else 0)
    ensures ChosenWorth(cs, s, chosen) ==
            ChosenWorth(cs, s[..n], chosen) + (if s[n].id in chosen then cs.Worth(s[n]) else 0)
  {
  }

  lemma IdsOfMore(s: seq<Element>, n: nat)
    requires |s| == n + 1
    ensures Ids(s) == Ids(s[..n]) + {s[n].id}
    ensures UniqueIds(s) <==> UniqueIds(s[..n]) && s[n].id !in Ids(s[..n])
  {
  }

  /** The number of chosen outputs in a list without repeated IDs. */
  lemma {:induction false} CountOfChosen(s: seq<Element>, chosen: set<OutputID>)
    requires UniqueIds(s)
    ensures ChosenCount(s, chosen) == |chosen * Ids(s)|
    decreases |s|
  {
    if s == [] {
      assert chosen * Ids(s) == {};
    } else {
      var n := |s| - 1;
      IdsOfMore(s, n);
      CountOfChosen(s[..n], chosen);
      OneMoreChosen(chosen, Ids(s[..n]), s[n].id);
    }
  }

  lemma OneMoreChosen(chosen: set<OutputID>, ids: set<OutputID>, id: OutputID)
    requires id !in ids
    ensures |chosen * (ids + {id})| == |chosen * ids| + if id in chosen then 1 else 0
  {
    if id in chosen {
      assert chosen * (ids + {id}) == chosen * ids + {id};
    } else {
      assert chosen * (ids + {id}) == chosen * ids;
    }
  }

  lemma {:induction false} UniqueIffAllCounted(s: seq<Element>)
    ensures |Ids(s)| <= |s| && (|Ids(s)| == |s| <==> UniqueIds(s))
    decreases |s|
  {
    if s == [] {
      assert Ids(s) == {};
    } else {
      var n := |s| - 1;
      IdsOfMore(s, n);
      UniqueIffAllCounted(s[..n]);
    }
  }

  lemma UniqueIdsIgnoreOrder(s: seq<Element>, t: seq<Element>)
    requires multiset(s) == multiset(t) && UniqueIds(s)
    ensures UniqueIds(t) && Ids(t) == Ids(s)
  {
    forall e ensures e in s <==> e in t {
      assert e in s <==> e in multiset(s);
      assert e in t <==> e in multiset(t);
    }
    assert Ids(s) == Ids(t);
    assert |multiset(s)| == |s| && |multiset(t)| == |t|;
    UniqueIffAllCounted(s);
    UniqueIffAllCounted(t);
  }

  /** A greedy choice pays, and no choice that pays needs fewer outputs. */
  lemma GreedyIsOptimal(cs: Consensus, eligible: seq<Element>, sorted: seq<Element>, taken: seq<Element>, required: nat,
                        chosen: set<OutputID>)
    requires UniqueIds(eligible) && multiset(sorted) == multiset(eligible) && SortedBy(sorted, cs.Descending)
    requires taken <= sorted && 0 < |taken| <= MAX_INPUTS && required <= SumBy(taken, cs.Worth)
    requires SumBy(taken[..|taken| - 1], cs.Worth) < required
    ensures Pays(cs, eligible, Ids(taken), required) && |Ids(taken)| == |taken|
    ensures Pays(cs, eligible, chosen, required) ==> |taken| <= |chosen|
  {
    UniqueIdsIgnoreOrder(eligible, sorted);
    TakenPays(cs, eligible, sorted, taken, required);
    if Pays(cs, eligible, chosen, required) {
      NoneNeedsLess(cs, eligible, sorted, |taken|, required, chosen);
      assert taken[..|taken| - 1] == sorted[..|taken| - 1];
    }
  }

  lemma NoneNeedsLess(cs: Consensus, eligible: seq<Element>, sorted: seq<Element>, n: nat, required: nat,
                      chosen: set<OutputID>)
    requires UniqueIds(eligible) && multiset(sorted) == multiset(eligible) && SortedBy(sorted, cs.Descending)
    requires 0 < n <= |sorted| && Pays(cs, eligible, chosen, required)
    ensures |chosen| < n ==> required <= SumBy(sorted[..n - 1], cs.Worth)
  {
    ChoiceNeedsPrefix(cs, eligible, sorted, chosen, required);
    if |chosen| < n {
      PrefixesGrow(sorted, cs.Worth, |chosen|, n - 1);
    }
  }

  lemma {:induction false} PrefixesGrow(s: seq<Element>, g: Element -> nat, j: nat, k: nat)
    requires j <= k <= |s|
    ensures SumBy(s[..j], g) <= SumBy(s[..k], g)
  {
    SumSplits(s[..k], g, j);
    assert s[..k][..j] == s[..j];
  }

  /** If any choice of outputs pays, then as many of the best ones do. */
  lemma ChoiceNeedsPrefix(cs: Consensus, eligible: seq<Element>, sorted: seq<Element>, chosen: set<OutputID>,
                          required: nat)
    requires UniqueIds(eligible) && multiset(sorted) == multiset(eligible) && SortedBy(sorted, cs.Descending)
    requires Pays(cs, eligible, chosen, required)
    ensures |chosen| <= |sorted| && required <= SumBy(sorted[..|chosen|], cs.Worth)
  {
    UniqueIdsIgnoreOrder(eligible, sorted);
    CountOfChosen(sorted, chosen);
    assert chosen * Ids(sorted) == chosen;
    SumIgnoresOrder(eligible, sorted, (e: Element) => if e.id in chosen then cs.Worth(e) else 0);
    FirstAreBest(cs, sorted, chosen);
  }

  lemma TakenPays(cs: Consensus, eligible: seq<Element>, sorted: seq<Element>, taken: seq<Element>, required: nat)
    requires UniqueIds(sorted) && multiset(sorted) == multiset(eligible)
    requires taken <= sorted && |taken| <= MAX_INPUTS && required <= SumBy(taken, cs.Worth)
    ensures Pays(cs, eligible, Ids(taken), required) && |Ids(taken)| == |taken|
  {
    var chosen := Ids(taken);
    var g := (e: Element) => if e.id in chosen then cs.Worth(e) else 0;
    UniqueIffAllCounted(taken);
    forall e | e in taken ensures e in eligible {
      assert e in multiset(sorted);
    }
    SumIgnoresOrder(sorted, eligible, g);
    SumSplits(sorted, g, |taken|);
    assert sorted[..|taken|] == taken;
    SumMonotone(taken, cs.Worth, g);
  }

  /** Selection fails for lack of funds exactly when no choice of at most 128 outputs pays. */
  lemma InsufficientIffNothingPays(cs: Consensus, eligible: seq<Element>, sorted: seq<Element>, required: nat)
    requires UniqueIds(eligible) && multiset(sorted) == multiset(eligible) && SortedBy(sorted, cs.Descending)
    ensures SumBy(sorted[..Min(MAX_INPUTS, |sorted|)], cs.Worth) < required <==>
              forall chosen :: !Pays(cs, eligible, chosen, required)
  {
    var best := sorted[..Min(MAX_INPUTS, |sorted|)];
    if required <= SumBy(best, cs.Worth) {
      UniqueIdsIgnoreOrder(eligible, sorted);
      TakenPays(cs, eligible, sorted, best, required);
    }
    forall chosen | Pays(cs, eligible, chosen, required)
      ensures required <= SumBy(best, cs.Worth)
    {
      ChoiceNeedsPrefix(cs, eligible, sorted, chosen, required);
      PrefixesGrow(sorted, cs.Worth, |chosen|, |best|);
    }
  }

  // ----- choices as lists -----

  lemma OtherId(cs: Consensus, s: seq<Element>, chosen: set<OutputID>, id: OutputID)
    requires forall e :: e in s ==> e.id != id
    ensures ChosenWorth(cs, s, chosen + {id}) == ChosenWorth(cs, s, chosen)
  {
    SumSame(s, (x: Element) => if x.id in chosen + {id} then cs.Worth(x) else 0,
      (x: Element) => if x.id in chosen then cs.Worth(x) else 0);
  }

  lemma {:induction false} OneMoreId(cs: Consensus, s: seq<Element>, chosen: set<OutputID>, e: Element)
    requires UniqueIds(s) && e in s && e.id !in chosen
    ensures ChosenWorth(cs, s, chosen + {e.id}) == ChosenWorth(cs, s, chosen) + cs.Worth(e)
    decreases |s|
  {
    var n := |s| - 1;
    assert s == s[..n] + [s[n]];
    OneMoreConsidered(cs, s, n, chosen);
    OneMoreConsidered(cs, s, n, chosen + {e.id});
    if s[n] == e {
      OtherId(cs, s[..n], chosen, e.id);
    } else {
      OneMoreId(cs, s[..n], chosen, e);
    }
  }

  /** A list of outputs is worth no more than choosing its IDs, as long as what is not eligible is worth
      nothing. */
  lemma {:induction false} ListIsChoice(cs: Consensus, s: seq<Element>, list: seq<Element>)
    requires UniqueIds(s) && UniqueIds(list) && forall e :: e in list ==> e in s || cs.Worth(e) == 0
    ensures SumBy(list, cs.Worth) <= ChosenWorth(cs, s, Ids(list))
    decreases |list|
  {
    if list != [] {
      var n := |list| - 1;
      var e := list[n];
      IdsOfMore(list, n);
      ListIsChoice(cs, s, list[..n]);
      if e in s {
        OneMoreId(cs, s, Ids(list[..n]), e);
      } else {
        SumMonotone(s, (x: Element) => if x.id in Ids(list[..n]) then cs.Worth(x) else 0,
          (x: Element) => if x.id in Ids(list) then cs.Worth(x) else 0);
      }
    }
  }

  lemma ListPays(cs: Consensus, s: seq<Element>, list: seq<Element>, required: nat) returns (chosen: set<OutputID>)
    requires UniqueIds(s) && UniqueIds(list) && forall e :: e in list ==> e in s || cs.Worth(e) == 0
    requires |list| <= MAX_INPUTS && required <= SumBy(list, cs.Worth)
    ensures Pays(cs, s, chosen, required) && |chosen| <= |list|
  {
    chosen := Ids(list) * Ids(s);
    ListIsChoice(cs, s, list);
    SumSame(s, (x: Element) => if x.id in Ids(list) then cs.Worth(x) else 0,
      (x: Element) => if x.id in chosen then cs.Worth(x) else 0);
    UniqueIffAllCounted(list);
    assert Ids(list) == chosen + (Ids(list) - chosen);
  }

  lemma {:induction false} ChoiceIsList(cs: Consensus, s: seq<Element>, chosen: set<OutputID>)
    returns (list: seq<Element>)
    requires UniqueIds(s)
    ensures UniqueIds(list) && (forall e :: e in list ==> e in s) && |list| == ChosenCount(s, chosen)
    ensures SumBy(list, cs.Worth) == ChosenWorth(cs, s, chosen)
    decreases |s|
  {
    if s == [] {
      list := [];
    } else {
      var n := |s| - 1;
      OneMoreConsidered(cs, s, n, chosen);
      var rest := ChoiceIsList(cs, s[..n], chosen);
      list := rest + if s[n].id in chosen then [s[n]] else [];
      assert s == s[..n] + [s[n]] && (rest + [s[n]])[..|rest|] == rest && rest + [] == rest;
      forall k | 0 <= k < |rest| ensures rest[k].id != s[n].id {
        assert rest[k] in rest && rest[k] in s[..n];
      }
    }
  }

  function Stored(e: Element): (r: nat) {
    e.value
  }

  lemma {:induction false} EligibleWorthBound(cs: Consensus, spent: set<OutputID>, unspent: seq<Element>)
    requires cs.Decays()
    ensures SumBy(Eligible(cs, spent, unspent), cs.Worth) <= SumBy(unspent, Stored)
    decreases |unspent|
  {
    if unspent != [] {
      var n := |unspent| - 1;
      EligibleWorthBound(cs, spent, unspent[..n]);
      assert cs.qdayValue(unspent[n], cs.index.height + 2) <= unspent[n].value;
      var rest := Eligible(cs, spent, unspent[..n]);
      assert rest + [] == rest && (rest + [unspent[n]])[..|rest|] == rest;
    }
  }

  /** As long as the wallet's outputs are within the supply of the main network, no sum of what is
      left of them comes near 128 bits, whatever is selected, and in whatever order. The supply is the
      premine, 5 * 10^29, and the rewards of all mining blocks, 10^6 times 8 * 10^24. */
  lemma SupplyNeverOverflows(cs: Consensus, spent: set<OutputID>, unspent: seq<Element>, sorted: seq<Element>)
    requires cs.Decays() && SumBy(unspent, Stored) <= 8_500_000_000_000_000_000_000_000_000_000
    requires multiset(sorted) == multiset(Eligible(cs, spent, unspent))
    ensures SumBy(sorted, cs.Worth) < CURRENCY_LIMIT
    ensures forall k :: 0 <= k <= |sorted| ==>
              SumBy(sorted[..k], cs.Worth) < 0x1_0000_0000_0000_0000_0000_0000_0000_0000
  {
    EligibleWorthBound(cs, spent, unspent);
    SumIgnoresOrder(Eligible(cs, spent, unspent), sorted, cs.Worth);
    forall k | 0 <= k <= |sorted|
      ensures SumBy(sorted[..k], cs.Worth) <= SumBy(sorted, cs.Worth)
    {
      SumSplits(sorted, cs.Worth, k);
    }
  }

  // ----- DEFEND -----

  function DueCount(cs: Consensus, outputs: seq<Element>): (r: nat)
    ensures r <= |outputs|
  {
    var due := (e: Element) => if cs.Due(e) then 1 else 0;
    CountBound(outputs, due);
    SumBy(outputs, due)
  }

  /** Sorted by expiry, the due outputs come first. */
  lemma {:induction false} DueArePrefix(cs: Consensus, s: seq<Element>)
    requires SortedBy(s, cs.Expiry)
    ensures forall k :: 0 <= k < |s| ==> (cs.Due(s[k]) <==> k < DueCount(cs, s))
    decreases |s|
  {
    if s != [] {
      var n := |s| - 1;
      DueArePrefix(cs, s[..n]);
      assert forall k :: 0 <= k < n ==> s[..n][k] == s[k];
      if cs.Due(s[n]) {
        forall k | 0 <= k < n ensures cs.Due(s[k]) {
          assert cs.Expiry(s[k]) <= cs.Expiry(s[n]);
        }
      }
      assert DueCount(cs, s) == DueCount(cs, s[..n]) + if cs.Due(s[n]) then 1 else 0;
    }
  }

  lemma DueAt(cs: Consensus, s: seq<Element>, k: nat)
    requires SortedBy(s, cs.Expiry) && k < |s|
    ensures cs.Due(s[k]) <==> k < DueCount(cs, s)
  {
    DueArePrefix(cs, s);
  }

  lemma NothingIsDue(cs: Consensus, s: seq<Element>)
    requires SortedBy(s, cs.Expiry) && DueCount(cs, s) == 0
    ensures forall e :: e in s ==> !cs.Due(e)
  {
    DueArePrefix(cs, s);
  }

  /** The first min(128, number due) outputs, all due, all with a known key. */
  ghost predicate IsDueSelection(cs: Consensus, outputs: seq<Element>, owned: set<Address>, taken: seq<Element>) {
    && taken == outputs[..Min(MAX_INPUTS, DueCount(cs, outputs))] && taken != []
    && (forall k :: 0 <= k < |taken| ==> cs.Due(taken[k]) && taken[k].address in owned)
    && SumBy(taken, cs.Worth) < CURRENCY_LIMIT
  }

  lemma DueSelection(cs: Consensus, outputs: seq<Element>, owned: set<Address>, n: nat)
    requires SortedBy(outputs, cs.Expiry)
    requires 0 < n == Min(MAX_INPUTS, DueCount(cs, outputs)) && SumBy(outputs[..n], cs.Worth) < CURRENCY_LIMIT
    requires forall j :: 0 <= j < n ==> outputs[j].address in owned
    ensures IsDueSelection(cs, outputs, owned, outputs[..n])
  {
    DueArePrefix(cs, outputs);
  }

  /** The outputs one DEFEND transaction renews: in order of expiry, the due ones, 128 at most. */
  method SelectDue(cs: Consensus, outputs: seq<Element>, owned: set<Address>)
    returns (r: Result<seq<Element>, SelectError>)
    requires SortedBy(outputs, cs.Expiry)
    ensures match r
            case Success(_) =>
              && IsDueSelection(cs, outputs, owned, r.value)
              && forall e :: e in r.value ==>
                   Max(e.maturity, cs.qdayHeight) + cs.shieldBlocks <= cs.index.height + Max(2, cs.shieldBlocks / 4)
            case Failure(NothingDue) => forall e :: e in outputs ==>
              cs.index.height + Max(2, cs.shieldBlocks / 4) < Max(e.maturity, cs.qdayHeight) + cs.shieldBlocks
            case Failure(UnknownOwner) => exists e :: e in outputs && cs.Due(e) && e.address !in owned
            case Failure(Overflow) => CURRENCY_LIMIT <= SumBy(outputs, cs.Worth)
            case Failure(_) => false
  {
    r := TakeDue(cs, outputs, owned);
    if r.Success? {
      if r.value == [] {
        NothingIsDue(cs, outputs);
        return Failure(NothingDue);
      }
      DueSelection(cs, outputs, owned, |r.value|);
    }
  }

  /** The scan after `k` outputs: the due ones among them have been taken. */
  ghost predicate Scanned(cs: Consensus, outputs: seq<Element>, owned: set<Address>, k: nat, taken: seq<Element>,
                          total: nat)
    requires k <= |outputs|
  {
    && taken == outputs[..Min(k, DueCount(cs, outputs))] && total == SumBy(taken, cs.Worth) < CURRENCY_LIMIT
    && forall j :: 0 <= j < |taken| ==> taken[j].address in owned
  }

  lemma ScanSkips(cs: Consensus, outputs: seq<Element>, owned: set<Address>, k: nat, taken: seq<Element>, total: nat)
    requires SortedBy(outputs, cs.Expiry) && k < |outputs| && !cs.Due(outputs[k])
    requires Scanned(cs, outputs, owned, k, taken, total)
    ensures Scanned(cs, outputs, owned, k + 1, taken, total)
  {
    DueAt(cs, outputs, k);
  }

  lemma ScanTakes(cs: Consensus, outputs: seq<Element>, owned: set<Address>, k: nat, taken: seq<Element>, total: nat)
    requires SortedBy(outputs, cs.Expiry) && k < |outputs| && cs.Due(outputs[k])
    requires Scanned(cs, outputs, owned, k, taken, total)
    ensures total + cs.Worth(outputs[k]) <= SumBy(outputs, cs.Worth)
    ensures outputs[k].address in owned && total + cs.Worth(outputs[k]) < CURRENCY_LIMIT ==>
              Scanned(cs, outputs, owned, k + 1, taken + [outputs[k]], total + cs.Worth(outputs[k]))
  {
    DueAt(cs, outputs, k);
    PrefixSum(outputs, cs.Worth, k);
    assert taken + [outputs[k]] == outputs[..k + 1];
  }

  /** The scan: it skips what is not due, and stops at 128. */
  method TakeDue(cs: Consensus, outputs: seq<Element>, owned: set<Address>)
    returns (r: Result<seq<Element>, SelectError>)
    requires SortedBy(outputs, cs.Expiry)
    ensures match r
            case Success(taken) =>
              && taken == outputs[..Min(MAX_INPUTS, DueCount(cs, outputs))] && SumBy(taken, cs.Worth) < CURRENCY_LIMIT
              && forall j :: 0 <= j < |taken| ==> taken[j].address in owned
            case Failure(UnknownOwner) => exists e :: e in outputs && cs.Due(e) && e.address !in owned
            case Failure(Overflow) => CURRENCY_LIMIT <= SumBy(outputs, cs.Worth)
            case Failure(_) => false
  {
    var threshold := cs.Threshold();
    var taken: seq<Element> := [];
    var total: nat := 0;
    for k := 0 to |outputs|
      invariant Scanned(cs, outputs, owned, k, taken, total) && |taken| < MAX_INPUTS
    {
      var e := outputs[k];
      if cs.index.height + threshold < cs.Expiry(e) {
        ScanSkips(cs, outputs, owned, k, taken, total);
        continue;
      }
      ScanTakes(cs, outputs, owned, k, taken, total);
      if e.address !in owned {
        return Failure(UnknownOwner);
      }
      taken := taken + [e];
      if CURRENCY_LIMIT <= total + cs.Worth(e) {
        return Failure(Overflow);
      }
      total := total + cs.Worth(e);
      if |taken| == MAX_INPUTS {
        break;
      }
    }
    return Success(taken);
  }

  /** No due output left out expires before one that is renewed. */
  lemma RenewsTheMostUrgent(cs: Consensus, outputs: seq<Element>, j: nat, k: nat)
    requires SortedBy(outputs, cs.Expiry)
    requires j < Min(128, DueCount(cs, outputs)) <= k < |outputs|
    ensures Max(outputs[j].maturity, cs.qdayHeight) <= Max(outputs[k].maturity, cs.qdayHeight)
    ensures Max(outputs[j].maturity, cs.qdayHeight) + cs.shieldBlocks <=
            cs.index.height + Max(2, cs.shieldBlocks / 4)
    ensures
      (Max(outputs[k].maturity, cs.qdayHeight) + cs.shieldBlocks <= cs.index.height + Max(2, cs.shieldBlocks / 4)) ==>
        128 <= k
  {
    DueArePrefix(cs, outputs);
  }
}
