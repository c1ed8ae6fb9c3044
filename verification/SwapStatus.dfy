/** The one status shown for a whole swap session. */
module SwapStatuses {
  import opened SwapObservers

  datatype Session = Waiting | Of(status: Status)

  datatype ActionView = ActionView(kind: string, confirmed: bool)

  /** How far an output has come; a spend of unknown kind says nothing about the session. */
  function Progress(s: Status): (r: nat) {
    match s
    case Funding => 1
    case Funded => 2
    case Claiming => 3
    case Refunding => 3
    case Claimed => 4
    case Refunded => 4
    case Spending => 0
    case Spent => 0
  }

  function Rank(r: Session): (n: nat) {
    match r
    case Waiting => 0
    case Of(s) => Progress(s)
  }

  ghost predicate FundPending(actions: seq<ActionView>) {
    exists a :: a in actions && a.kind == "fund" && !a.confirmed
  }

  /** The session has come as far as its furthest output or pending funding, and no further. */
  ghost predicate Furthest(outputs: seq<Status>, actions: seq<ActionView>, r: Session) {
    && (forall s :: s in outputs ==> Progress(s) <= Rank(r))
    && (FundPending(actions) ==> 1 <= Rank(r))
    && match r
       case Waiting => true
       case Of(s) => 0 < Progress(s) && (s in outputs || (s == Funding && FundPending(actions)))
  }

  /** Among outputs equally far the first settled one counts, but the last one being settled. */
  ghost predicate TieBroken(outputs: seq<Status>, r: Session) {
    && (Rank(r) == 4 ==> exists k ::
          && 0 <= k < |outputs| && Of(outputs[k]) == r
          && forall j :: 0 <= j < k ==> Progress(outputs[j]) < 4)
    && (Rank(r) == 3 ==> exists k ::
          && 0 <= k < |outputs| && Of(outputs[k]) == r
          && forall j :: k < j < |outputs| ==> Progress(outputs[j]) < 3)
  }

  method AggregateSwapStatus(outputs: seq<Status>, actions: seq<ActionView>) returns (r: Session)
    ensures Furthest(outputs, actions, r) && TieBroken(outputs, r)
  {
    r := Waiting;
    for k := 0 to |actions|
      invariant r == if FundPending(actions[..k]) then Of(Funding) else Waiting
    {
      assert actions[..k + 1] == actions[..k] + [actions[k]];
      if actions[k].kind == "fund" && !actions[k].confirmed {
        r := Of(Funding);
      }
    }
    assert actions[..|actions|] == actions;
    for k := 0 to |outputs|
      invariant Furthest(outputs[..k], actions, r) && TieBroken(outputs[..k], r) && Rank(r) < 4
    {
      ghost var before := r;
      var s := outputs[k];
      match s {
        case Claimed =>
          Settled(outputs, actions, k, r);
          return Of(s);
        case Refunded =>
          Settled(outputs, actions, k, r);
          return Of(s);
        case Claiming => r := Of(s);
        case Refunding => r := Of(s);
        case Funded =>
          if r == Waiting || r == Of(Funding) {
            r := Of(Funded);
          }
        case Funding =>
          if r == Waiting {
            r := Of(Funding);
          }
        case Spending =>
        case Spent =>
      }
      assert outputs[..k + 1] == outputs[..k] + [s];
      OneMoreOutput(outputs[..k], s, actions, before, r);
    }
    assert outputs[..|outputs|] == outputs;
  }

  /** The session after one more unsettled output: the further of the two, the newer one among
      outputs that are being settled. */
  lemma OneMoreOutput(seen: seq<Status>, s: Status, actions: seq<ActionView>, before: Session, after: Session)
    requires Furthest(seen, actions, before) && TieBroken(seen, before) && Rank(before) < 4 && Progress(s) < 4
    requires after == if Progress(s) == 3 || Rank(before) < Progress(s) then Of(s) else before
    ensures Furthest(seen + [s], actions, after) && TieBroken(seen + [s], after) && Rank(after) < 4
  {
    var more := seen + [s];
    assert forall x :: x in more <==> x in seen || x == s;
    if Progress(s) == 3 {
      assert more[|seen|] == s;
    } else if Rank(after) == 3 {
      var j :| 0 <= j < |seen| && Of(seen[j]) == before && forall l :: j < l < |seen| ==> Progress(seen[l]) < 3;
      assert Of(more[j]) == after;
    }
  }

  /** The first settled output decides. */
  lemma Settled(outputs: seq<Status>, actions: seq<ActionView>, k: nat, before: Session)
    requires k < |outputs| && Progress(outputs[k]) == 4
    requires Furthest(outputs[..k], actions, before) && Rank(before) < 4
    ensures Furthest(outputs, actions, Of(outputs[k])) && TieBroken(outputs, Of(outputs[k]))
  {
  }

  /** How far the session has come does not depend on the order of outputs or actions. */
  lemma RankIgnoresOrder(outputs: seq<Status>, actions: seq<ActionView>, outputs': seq<Status>,
                         actions': seq<ActionView>, r: Session, r': Session)
    requires multiset(outputs) == multiset(outputs') && multiset(actions) == multiset(actions')
    requires Furthest(outputs, actions, r) && Furthest(outputs', actions', r')
    ensures Rank(r) == Rank(r')
  {
    assert forall s :: s in outputs <==> s in multiset(outputs);
    assert forall s :: s in outputs' <==> s in multiset(outputs');
    assert forall a :: a in actions <==> a in multiset(actions);
    assert forall a :: a in actions' <==> a in multiset(actions');
  }

  // ----- when the order of outputs matters -----

  /** What AggregateSwapStatus answers. */
  ghost predicate Answer(outputs: seq<Status>, actions: seq<ActionView>, r: Session) {
    Furthest(outputs, actions, r) && TieBroken(outputs, r)
  }

  /** Among the outputs that have come furthest, claims and refunds do not occur together. */
  ghost predicate Unambiguous(outputs: seq<Status>) {
    && !(Claimed in outputs && Refunded in outputs)
    && (Claimed !in outputs && Refunded !in outputs ==> !(Claiming in outputs && Refunding in outputs))
  }

  /** The answer, status by status: the first output that is claimed or refunded; else the last one being
      claimed or refunded; else funded if some output is; else funding if some output, or an unconfirmed
      fund action, is; else waiting. */
  lemma AnswerByStatus(outputs: seq<Status>, actions: seq<ActionView>, r: Session)
    requires Answer(outputs, actions, r)
    ensures if Claimed in outputs || Refunded in outputs then
              exists k :: 0 <= k < |outputs| && r == Of(outputs[k]) && (outputs[k] == Claimed || outputs[k] == Refunded)
                && forall j :: 0 <= j < k ==> outputs[j] != Claimed && outputs[j] != Refunded
            else if Claiming in outputs || Refunding in outputs then
              exists k :: 0 <= k < |outputs| && r == Of(outputs[k])
                && (outputs[k] == Claiming || outputs[k] == Refunding)
                && forall j :: k < j < |outputs| ==> outputs[j] != Claiming && outputs[j] != Refunding
            else if Funded in outputs then r == Of(Funded)
            else if Funding in outputs || exists a :: a in actions && a.kind == "fund" && !a.confirmed then
              r == Of(Funding)
            else r == Waiting
  {
  }

  /** Every order of the outputs and actions gets the same answer. */
  ghost predicate OrderIgnored(outputs: seq<Status>, actions: seq<ActionView>) {
    forall o1, o2, a1, a2, r1, r2 ::
      (&& multiset(o1) == multiset(outputs) == multiset(o2)
       && multiset(a1) == multiset(actions) == multiset(a2)
       && Answer(o1, a1, r1) && Answer(o2, a2, r2)) ==>
        r1 == r2
  }

  /** Two answers for the same outputs in different orders differ only where a claim and a refund tie. */
  lemma UnambiguousAnswer(outputs: seq<Status>, actions: seq<ActionView>, outputs': seq<Status>,
                          actions': seq<ActionView>, r: Session, r': Session)
    requires multiset(outputs) == multiset(outputs') && multiset(actions) == multiset(actions')
    requires Furthest(outputs, actions, r) && Furthest(outputs', actions', r') && Unambiguous(outputs)
    ensures r == r'
  {
    RankIgnoresOrder(outputs, actions, outputs', actions', r, r');
    assert forall s :: s in outputs <==> s in multiset(outputs);
    assert forall s :: s in outputs' <==> s in multiset(outputs');
    assert Claimed in outputs || Refunded in outputs ==> Rank(r) == 4;
  }

  /** `s` moved to the front and to the back of the list. */
  lemma MovedToEnds(outputs: seq<Status>, s: Status) returns (front: seq<Status>, back: seq<Status>)
    requires s in outputs
    ensures multiset(front) == multiset(outputs) == multiset(back)
    ensures 0 < |front| == |back| && front[0] == s && back[|back| - 1] == s
  {
    var k :| 0 <= k < |outputs| && outputs[k] == s;
    assert outputs == outputs[..k] + [s] + outputs[k + 1..];
    front, back := [s] + (outputs[..k] + outputs[k + 1..]), outputs[..k] + outputs[k + 1..] + [s];
  }

  /** A settled output at the front decides, and one being settled at the back decides when none is settled. */
  lemma EndsDecide(outputs: seq<Status>, actions: seq<ActionView>, s: Status) returns (order: seq<Status>)
    requires s in outputs
    requires Progress(s) == 4 || (Progress(s) == 3 && Claimed !in outputs && Refunded !in outputs)
    ensures multiset(order) == multiset(outputs) && Answer(order, actions, Of(s))
  {
    var front, back := MovedToEnds(outputs, s);
    order := if Progress(s) == 4 then front else back;
    forall x | x in order ensures x in outputs {
      assert x in multiset(order);
    }
  }

  /** Exactly when the order matters: the status is the same for every order of outputs and actions if
      and only if no claim and no refund tie as the furthest. */
  lemma StatusIgnoresOrderIff(outputs: seq<Status>, actions: seq<ActionView>)
    ensures OrderIgnored(outputs, actions) <==> Unambiguous(outputs)
  {
    if Unambiguous(outputs) {
      forall o1, o2, a1, a2, r1, r2 |
        && multiset(o1) == multiset(outputs) == multiset(o2)
        && multiset(a1) == multiset(actions) == multiset(a2)
        && Answer(o1, a1, r1) && Answer(o2, a2, r2)
        ensures r1 == r2
      {
        assert forall s :: s in outputs <==> s in multiset(outputs);
        assert forall s :: s in o1 <==> s in multiset(o1);
        UnambiguousAnswer(o1, a1, o2, a2, r1, r2);
      }
    } else {
      var settled := Claimed in outputs && Refunded in outputs;
      var o1 := EndsDecide(outputs, actions, if settled then Claimed else Claiming);
      var o2 := EndsDecide(outputs, actions, if settled then Refunded else Refunding);
    }
  }

  /** One output claimed and one refunded: the one listed first names the session. */
  lemma FirstSettledNamesTheSession()
    ensures Answer([Claimed, Refunded], [], Of(Claimed)) && Answer([Refunded, Claimed], [], Of(Refunded))
    ensures !OrderIgnored([Claimed, Refunded], [])
  {
    assert [Claimed, Refunded][0] == Claimed && [Refunded, Claimed][0] == Refunded;
    assert Claimed in [Claimed, Refunded] && Refunded in [Claimed, Refunded];
    StatusIgnoresOrderIff([Claimed, Refunded], []);
  }
}
