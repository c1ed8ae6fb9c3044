/** Atomic-swap contracts and the reading of their spends. */
module SwapPolicies {
  import opened Wrappers
  import opened Ledger

  /** The stored terms of a swap that its address is made of. Keys are opaque. */
  datatype Contract = Contract(recipient: nat, refund: nat, secretHash: Hash, refundHeight: nat)

  /** Primitives the daemon calls but does not define: the contract's policy (`None` when the terms
      are refused), a policy's address, the shape test for swap spends, and SHA-256. */
  datatype Crypto = Crypto(
    contractPolicy: Contract -> Option<Policy>,
    address: Policy -> Address,
    isSwapSpend: Policy -> bool,
    sha256: Preimage -> Hash)

  datatype SpendKind = Claim | Refund | Unknown

  datatype Reading = Reading(kind: SpendKind, secret: Option<Preimage>)

  /** The branch a policy reveals: the last one that is not opaque. */
  function Revealed(of: seq<Policy>): (r: Option<Policy>) {
    if of == [] then None
    else if !of[|of| - 1].Opaque? then Some(of[|of| - 1])
    else Revealed(of[..|of| - 1])
  }

  /** `p` spends the contract's address through a branch of three conditions, the last being `lock`. */
  ghost predicate SpendsThrough(x: Crypto, c: Contract, p: Policy, lock: Policy) {
    && x.contractPolicy(c).Some? && x.address(p) == x.address(x.contractPolicy(c).value) && x.isSwapSpend(p)
    && p.Threshold? && p.n == 1 && |p.of| == 2
    && exists branch :: Revealed(p.of) == Some(branch) && branch.Threshold? && branch.n == 3 && |branch.of| == 3
         && branch.of[2] == lock
  }

  function LastPreimage(input: Input): (r: Option<Preimage>) {
    if input.preimages == [] then None else Some(input.preimages[|input.preimages| - 1])
  }

  /** What a spend is: a claim through the hash branch, with the secret if the last preimage is one,
      or a refund through the height branch. */
  ghost predicate Means(x: Crypto, c: Contract, input: Input, r: Reading) {
    match r.kind
    case Claim =>
      && SpendsThrough(x, c, input.policy, HashLock(c.secretHash))
      && r.secret == (if LastPreimage(input).Some?
           && x.sha256(LastPreimage(input).value) == c.secretHash then LastPreimage(input) else None)
    case Refund => SpendsThrough(x, c, input.policy, Above(c.refundHeight)) && r.secret == None
    case Unknown =>
      && !SpendsThrough(x, c, input.policy, HashLock(c.secretHash))
      && !SpendsThrough(x, c, input.policy, Above(c.refundHeight))
      && r.secret == None
  }

  /** No spend has two readings. */
  lemma MeaningIsUnique(x: Crypto, c: Contract, input: Input, r: Reading, r': Reading)
    requires Means(x, c, input, r) && Means(x, c, input, r')
    ensures r == r'
  {
  }

  /** The reading as a function, for the replay's specification. */
  function Classify(x: Crypto, c: Contract, input: Input): (r: Reading)
    ensures Means(x, c, input, r)
  {
    var p := input.policy;
    if x.contractPolicy(c).None? || x.address(p) != x.address(x.contractPolicy(c).value) || !x.isSwapSpend(p) then
      Reading(Unknown, None)
    else if !p.Threshold? || p.n != 1 || |p.of| != 2 then Reading(Unknown, None)
    else match Revealed(p.of)
      case Some(Threshold(n, of)) =>
        if n != 3 || |of| != 3 then Reading(Unknown, None)
        else if of[2] == HashLock(c.secretHash) then
          var last := LastPreimage(input);
          Reading(Claim, if last.Some? && x.sha256(last.value) == c.secretHash then last else None)
        else if of[2] == Above(c.refundHeight) then Reading(Refund, None)
        else Reading(Unknown, None)
      case _ => Reading(Unknown, None)
  }

  /** `p` has the address of the contract's policy and the shape of a swap spend. */
  predicate OfContract(x: Crypto, c: Contract, p: Policy) {
    && x.contractPolicy(c).Some? && x.address(p) == x.address(x.contractPolicy(c).value) && x.isSwapSpend(p)
  }

  /** `p` is one of two branches, and the one it shows (the second, if it shows both) asks for three
      conditions of which the last is `lock`. */
  ghost predicate ShowsBranch(p: Policy, lock: Policy) {
    exists a, b, other :: HasBranch(p, a, b, lock, other)
  }

  predicate HasBranch(p: Policy, a: Policy, b: Policy, lock: Policy, other: Policy) {
    || p == Threshold(1, [other, Threshold(3, [a, b, lock])])
    || (other.Opaque? && p == Threshold(1, [Threshold(3, [a, b, lock]), other]))
  }

  lemma RevealedOfTwo(of: seq<Policy>)
    requires |of| == 2
    ensures Revealed(of) == if !of[1].Opaque? then Some(of[1]) else if !of[0].Opaque? then Some(of[0]) else None
  {
    assert |of[..1]| == 1 && of[..1][0] == of[0] && of[..1][..0] == [];
    assert Revealed(of[..1]) == if !of[0].Opaque? then Some(of[0]) else None;
  }

  lemma ShowsBranchIff(p: Policy, lock: Policy)
    ensures ShowsBranch(p, lock) <==>
              && p.Threshold? && p.n == 1 && |p.of| == 2
              && exists branch :: Revealed(p.of) == Some(branch) && branch.Threshold? && branch.n == 3
                   && |branch.of| == 3 && branch.of[2] == lock
  {
    if ShowsBranch(p, lock) {
      RevealedOfTwo(p.of);
      var a, b, other :| HasBranch(p, a, b, lock, other);
      var branch := Threshold(3, [a, b, lock]);
      assert Revealed(p.of) == Some(branch) && |branch.of| == 3;
    }
    if p.Threshold? && p.n == 1 && |p.of| == 2 {
      RevealedOfTwo(p.of);
      var shown := Revealed(p.of);
      if shown.Some? && shown.value.Threshold? && shown.value.n == 3 && |shown.value.of| == 3 {
        var of := shown.value.of;
        if of[2] == lock {
          assert shown.value == Threshold(3, [of[0], of[1], lock]);
          var other := if p.of[1].Opaque? then p.of[1] else p.of[0];
          assert p.of == if p.of[1].Opaque? then [shown.value, other] else [other, shown.value];
          assert p == Threshold(1, p.of) && !shown.value.Opaque?;
          assert HasBranch(p, of[0], of[1], lock, other);
        }
      }
    }
  }

  lemma SpendsThroughIff(x: Crypto, c: Contract, p: Policy, lock: Policy)
    ensures SpendsThrough(x, c, p, lock) <==> OfContract(x, c, p) && ShowsBranch(p, lock)
  {
    ShowsBranchIff(p, lock);
  }

  /** What every spend is read as, said of its policy and preimages alone. */
  lemma ReadingIsOfTheBranch(x: Crypto, c: Contract, input: Input)
    ensures var r, p := Classify(x, c, input), input.policy;
            && (r.kind == Claim <==> OfContract(x, c, p) && ShowsBranch(p, HashLock(c.secretHash)))
            && (r.kind == Refund <==> OfContract(x, c, p) && ShowsBranch(p, Above(c.refundHeight)))
            && (forall s: Preimage :: r.secret == Some(s) <==>
                  && r.kind == Claim && x.sha256(s) == c.secretHash
                  && 0 < |input.preimages| && input.preimages[|input.preimages| - 1] == s)
  {
    SpendsThroughIff(x, c, input.policy, HashLock(c.secretHash));
    SpendsThroughIff(x, c, input.policy, Above(c.refundHeight));
  }

  /** The daemon's own case analysis, with its loop over the two branches. */
  method ClassifySwapSpend(x: Crypto, c: Contract, input: Input) returns (r: Reading)
    ensures Means(x, c, input, r)
    ensures r == Classify(x, c, input)
  {
    r := Reading(Unknown, None);
    var full := x.contractPolicy(c);
    if full.None? || x.address(input.policy) != x.address(full.value) || !x.isSwapSpend(input.policy) {
      return;
    }
    var outer := input.policy;
    if !outer.Threshold? || outer.n != 1 || |outer.of| != 2 {
      return;
    }
    var branch: Option<Policy> := None;
    for k := 0 to |outer.of|
      invariant branch == Revealed(outer.of[..k])
    {
      assert outer.of[..k + 1][..k] == outer.of[..k];
      if !outer.of[k].Opaque? {
        branch := Some(outer.of[k]);
      }
    }
    assert outer.of[..|outer.of|] == outer.of;
    if branch.None? || !branch.value.Threshold? || branch.value.n != 3 || |branch.value.of| != 3 {
      return;
    }
    var lock := branch.value.of[2];
    if lock.HashLock? {
      if lock.hash != c.secretHash {
        return;
      }
      r := Reading(Claim, None);
      if input.preimages != [] {
        var preimage := input.preimages[|input.preimages| - 1];
        if x.sha256(preimage) == c.secretHash {
          r := Reading(Claim, Some(preimage));
        }
      }
    } else if lock.Above? && lock.height == c.refundHeight {
      r := Reading(Refund, None);
    }
  }

  /** A revealed secret opens the contract, and comes from its hash branch; such a spend with the
      right last preimage always reveals it. */
  lemma SecretIffHashBranch(x: Crypto, c: Contract, input: Input, s: Preimage)
    ensures Classify(x, c, input).secret == Some(s) <==>
              SpendsThrough(x, c, input.policy, HashLock(c.secretHash)) && LastPreimage(input) == Some(s)
                && x.sha256(s) == c.secretHash
  {
  }
}
