/** The issued child addresses. */
module Addresses {
  import opened Wrappers
  import opened Ledger

  const MAX_RECOVERY: nat := 10_000_000

  datatype Kind = Deposit | Change

  /** A row of the address table; an empty reference is none. */
  datatype Record = Record(index: nat, address: Address, public: nat, reference: string, kind: Kind)

  /** Key derivation from the master seed: public keys by child index, and their address. */
  datatype Keyring = Keyring(public: nat -> nat, address: nat -> Address)
  {
    /** No two child indices share keys or address. */
    ghost predicate Injective() {
      forall i, j :: public(i) == public(j) || address(public(i)) == address(public(j)) ==> i == j
    }

    function Row(index: nat, reference: string, kind: Kind): (r: Record)
      ensures r.index == index && r.reference == reference && r.kind == kind
      ensures r.public == public(index) && r.address == address(r.public)
    {
      Record(index, address(public(index)), public(index), reference, kind)
    }
  }

  type Rows = map<nat, Record>

  /** The issued indices are exactly 0..n-1 for the number n of rows, each with its own derived keys
      and address, and no reference is used twice. */
  ghost predicate Issued(k: Keyring, rows: Rows) {
    && (forall i :: i in rows <==> 0 <= i < |rows|)
    && (forall i :: i in rows ==>
          rows[i].index == i && rows[i].public == k.public(i) && rows[i].address == k.address(k.public(i)))
    && (forall i, j :: i in rows && j in rows && rows[i].reference == rows[j].reference != "" ==> i == j)
  }

  predicate ReferenceTaken(rows: Rows, reference: string) {
    reference != "" && exists i :: i in rows && rows[i].reference == reference
  }

  /** The table's keys: child index, address and reference are unique. */
  predicate Insertable(rows: Rows, r: Record) {
    && r.index !in rows
    && (forall i :: i in rows ==> rows[i].address != r.address)
    && !ReferenceTaken(rows, r.reference)
  }

  // ----- operations on the table, as values -----

  datatype Operation = Issue(reference: string, kind: Kind) | Recover(count: nat)

  /** What an operation does to a table of issued addresses. */
  function Performed(k: Keyring, rows: Rows, op: Operation): (r: Rows) {
    match op
    case Issue(reference, kind) =>
      if ReferenceTaken(rows, reference) then rows else rows[|rows| := k.Row(|rows|, reference, kind)]
    case Recover(count) => Restored(k, rows, count)
  }

  /** The table after recovering the indices below `count`: the missing ones are filled in. */
  function Restored(k: Keyring, rows: Rows, count: nat): (r: Rows) {
    if count == 0 then rows
    else
      var sofar := Restored(k, rows, count - 1);
      if count - 1 in sofar then sofar else sofar[count - 1 := k.Row(count - 1, "", Change)]
  }

  /** What recovery leaves: every old row, and the derived row for every missing index below `count`. */
  lemma {:induction false} RestoredRows(k: Keyring, rows: Rows, count: nat)
    ensures forall i :: i in Restored(k, rows, count) <==> i in rows || 0 <= i < count
    ensures forall i :: i in Restored(k, rows, count) ==>
              Restored(k, rows, count)[i] ==
              if i in rows then rows[i] else Record(i, k.address(k.public(i)), k.public(i), "", Change)
  {
    if count > 0 {
      RestoredRows(k, rows, count - 1);
    }
  }

  lemma {:induction false} RangeSize(n: nat) returns (s: set<nat>)
    ensures |s| == n && forall i :: i in s <==> 0 <= i < n
  {
    if n == 0 {
      s := {};
    } else {
      s := RangeSize(n - 1);
      s := s + {n - 1};
    }
  }

  lemma SizeOfRange(rows: Rows, n: nat)
    requires forall i :: i in rows <==> 0 <= i < n
    ensures |rows| == n
  {
    var s := RangeSize(n);
    assert rows.Keys == s;
    assert |rows| == |rows.Keys|;
  }

  lemma IssueKeepsIssued(k: Keyring, rows: Rows, reference: string, kind: Kind)
    requires k.Injective() && Issued(k, rows) && !ReferenceTaken(rows, reference)
    ensures var r := k.Row(|rows|, reference, kind);
            Insertable(rows, r) && Issued(k, rows[|rows| := r]) && |rows[|rows| := r]| == |rows| + 1
  {
  }

  lemma RecoverKeepsIssued(k: Keyring, rows: Rows, count: nat)
    requires Issued(k, rows)
    ensures Issued(k, Restored(k, rows, count)) && |Restored(k, rows, count)| == Max(count, |rows|)
  {
    var more := Restored(k, rows, count);
    RestoredRows(k, rows, count);
    SizeOfRange(more, Max(count, |rows|));
    forall i | i in more
      ensures more[i].index == i && more[i].public == k.public(i) && more[i].address == k.address(k.public(i))
    {
      if i in rows {
        assert rows[i].index == i;
      }
    }
  }

  lemma PerformedKeepsIssued(k: Keyring, rows: Rows, op: Operation)
    requires k.Injective() && Issued(k, rows)
    ensures Issued(k, Performed(k, rows, op))
    ensures forall i :: i in rows ==> i in Performed(k, rows, op) && Performed(k, rows, op)[i] == rows[i]
  {
    match op {
      case Issue(reference, kind) =>
        if !ReferenceTaken(rows, reference) {
          IssueKeepsIssued(k, rows, reference, kind);
        }
      case Recover(count) =>
        RecoverKeepsIssued(k, rows, count);
        RestoredRows(k, rows, count);
    }
  }

  function Run(k: Keyring, rows: Rows, ops: seq<Operation>): (r: Rows) {
    if ops == [] then rows else Performed(k, Run(k, rows, ops[..|ops| - 1]), ops[|ops| - 1])
  }

  /** A run is one operation after the other. */
  lemma RunStep(k: Keyring, rows: Rows, ops: seq<Operation>, op: Operation)
    ensures Run(k, rows, []) == rows && Run(k, rows, ops + [op]) == Performed(k, Run(k, rows, ops), op)
  {
    assert (ops + [op])[..|ops|] == ops;
  }

  /** Field by field: issuing adds the next index with its derived key and address, unless the reference is
      taken; recovering adds the missing indices below the count. */
  lemma PerformedInFields(k: Keyring, rows: Rows, op: Operation)
    ensures var after := Performed(k, rows, op);
            && (op.Issue? && op.reference != "" && (exists i :: i in rows && rows[i].reference == op.reference) ==>
                  after == rows)
            && (op.Issue? && (op.reference == "" || forall i :: i in rows ==> rows[i].reference != op.reference) ==>
                  after == rows[|rows| := Record(|rows|, k.address(k.public(|rows|)), k.public(|rows|), op.reference,
                                                 op.kind)])
            && (op.Recover? ==> forall i :: i in after <==> i in rows || 0 <= i < op.count)
            && (op.Recover? ==> forall i :: i in rows ==> after[i] == rows[i])
            && (op.Recover? ==> forall i :: i in after && i !in rows ==>
                  after[i] == Record(i, k.address(k.public(i)), k.public(i), "", Change))
  {
    if op.Recover? {
      RestoredRows(k, rows, op.count);
    }
  }

  /** Whatever is issued and recovered in whatever order, the issued indices are 0..n-1, with one
      address each and at most one per reference, and no issued row is ever lost or changed. */
  lemma {:induction false} RunKeepsIssued(k: Keyring, ops: seq<Operation>, n: nat)
    requires k.Injective() && n <= |ops|
    ensures Issued(k, Run(k, map[], ops)) && Issued(k, Run(k, map[], ops[..n]))
    ensures forall i :: i in Run(k, map[], ops[..n]) ==>
              i in Run(k, map[], ops) && Run(k, map[], ops)[i] == Run(k, map[], ops[..n])[i]
    decreases |ops|
  {
    if ops != [] {
      var last := |ops| - 1;
      RunKeepsIssued(k, ops[..last], if n <= last then n else last);
      PerformedKeepsIssued(k, Run(k, map[], ops[..last]), ops[last]);
      if n <= last {
        assert ops[..last][..n] == ops[..n];
      } else {
        assert ops[..n] == ops;
      }
    }
  }

  /** Recovering `count` indices into an empty database brings every lost address and key back. */
  ghost predicate Restores(k: Keyring, lost: Rows, count: nat) {
    var restored := Restored(k, map[], count);
    forall i :: i in lost ==>
      i in restored && restored[i].address == lost[i].address && restored[i].public == lost[i].public
  }

  /** Recovery into an empty database restores every address any run has issued if and only if it
      covers as many indices as were issued. */
  lemma RecoveryRestoresAddresses(k: Keyring, ops: seq<Operation>, count: nat)
    requires k.Injective()
    ensures Restores(k, Run(k, map[], ops), count) <==> |Run(k, map[], ops)| <= count
  {
    RunKeepsIssued(k, ops, |ops|);
    IssuedRestored(k, Run(k, map[], ops), count);
  }

  lemma IssuedRestored(k: Keyring, lost: Rows, count: nat)
    requires Issued(k, lost)
    ensures Restores(k, lost, count) <==> |lost| <= count
  {
    RestoredRows(k, map[], count);
    if count < |lost| {
      assert count in lost && count !in Restored(k, map[], count);
    } else {
      forall i | i in lost
        ensures i in Restored(k, map[], count) && lost[i].index == i
      {
      }
    }
  }

  /** The recovery tool accepts no more than 10,000,000 indices: some count it accepts restores
      everything if and only if no more were issued. */
  lemma RecoverableIff(k: Keyring, ops: seq<Operation>)
    requires k.Injective()
    ensures (exists count: nat :: 0 < count <= 10_000_000 && Restores(k, Run(k, map[], ops), count)) <==>
            |Run(k, map[], ops)| <= 10_000_000
  {
    forall count: nat ensures Restores(k, Run(k, map[], ops), count) <==> |Run(k, map[], ops)| <= count {
      RecoveryRestoresAddresses(k, ops, count);
    }
    if |Run(k, map[], ops)| <= MAX_RECOVERY {
      assert Restores(k, Run(k, map[], ops), Max(1, |Run(k, map[], ops)|));
    }
  }

  /** With fewer, exactly the addresses from `count` on are missing. */
  lemma ShortRecoveryMisses(k: Keyring, ops: seq<Operation>, count: nat)
    requires k.Injective() && count < |Run(k, map[], ops)|
    ensures forall i, j :: i in Run(k, map[], ops) && j in Restored(k, map[], count) ==>
              (Restored(k, map[], count)[j].address == Run(k, map[], ops)[i].address <==> i == j)
    ensures forall i :: i in Run(k, map[], ops) ==> (i in Restored(k, map[], count) <==> i < count)
  {
    RunKeepsIssued(k, ops, |ops|);
    RestoredRows(k, map[], count);
  }

  /** The first `count` indices of any table, whoever wrote it, belong to these keys: what is there has
      the derived key, and no other row holds the address of a missing one. */
  ghost predicate Fits(k: Keyring, rows: Rows, count: nat) {
    forall i: nat :: i < count ==> if i in rows then rows[i].public == k.public(i) else AddressFree(k, rows, i)
  }

  ghost predicate AddressFree(k: Keyring, rows: Rows, index: nat) {
    forall j :: j in rows ==> rows[j].address != k.address(k.public(index))
  }

  /** One round of the recovery loop: a missing index can be inserted exactly when its address is free. */
  lemma RecoverStep(k: Keyring, rows: Rows, index: nat)
    requires k.Injective()
    ensures var sofar := Restored(k, rows, index);
            && (index in sofar <==> index in rows)
            && (index in rows ==> sofar[index] == rows[index])
            && (index !in rows ==>
                  (Insertable(sofar, k.Row(index, "", Change)) <==> AddressFree(k, rows, index)))
  {
    var sofar := Restored(k, rows, index);
    RestoredRows(k, rows, index);
    if !AddressFree(k, rows, index) {
      var j :| j in rows && rows[j].address == k.address(k.public(index));
      assert sofar[j] == rows[j];
    }
  }

  /** A table of issued addresses is always recovered. */
  lemma IssuedRecover(k: Keyring, rows: Rows, count: nat)
    requires k.Injective()
    ensures Issued(k, rows) ==> Issued(k, Restored(k, rows, count)) && forall n :: Fits(k, rows, n)
  {
    if Issued(k, rows) {
      RecoverKeepsIssued(k, rows, count);
      forall n ensures Fits(k, rows, n) {
        IssuedFits(k, rows, n);
      }
    }
  }

  lemma IssuedFits(k: Keyring, rows: Rows, count: nat)
    requires k.Injective() && Issued(k, rows)
    ensures Fits(k, rows, count)
  {
    forall i: nat, j | i !in rows && j in rows
      ensures rows[j].address != k.address(k.public(i))
    {
      assert rows[j].index == j;
    }
  }

  // ----- the daemon -----

  datatype AddressError = Locked | Rejected | NotRegistered | BadCount | Mismatch(index: nat)

  class AddressBook {
    var rows: Rows

    constructor ()
      ensures rows == map[]
    {
      rows := map[];
    }

    /** One more than the greatest index, or 0. */
    method NextIndex() returns (next: nat)
      ensures forall i :: i in rows ==> i < next
      ensures next == 0 || next - 1 in rows
    {
      next := 0;
      var todo := rows.Keys;
      while todo != {}
        invariant todo <= rows.Keys
        invariant forall i :: i in rows && i !in todo ==> i < next
        invariant next == 0 || next - 1 in rows
        decreases todo
      {
        var i :| i in todo;
        todo := todo - {i};
        next := Max(next, i + 1);
      }
    }

    method AddAddress(r: Record) returns (ok: bool)
      modifies this
      ensures ok <==> Insertable(old(rows), r)
      ensures rows == if ok then old(rows)[r.index := r] else old(rows)
    {
      ok := Insertable(rows, r);
      if ok {
        rows := rows[r.index := r];
      }
    }

    method ByReference(reference: string) returns (r: Option<Record>)
      ensures r.Some? <==> exists i :: i in rows && rows[i].reference == reference
      ensures r.Some? ==> exists i :: i in rows && rows[i] == r.value && r.value.reference == reference
    {
      if i :| i in rows && rows[i].reference == reference {
        return Some(rows[i]);
      }
      return None;
    }

    /** Allocates the next child address. `registers` is the wallet index's answer to the new address:
        when it refuses, the call fails but the index stays used. */
    method NewAddress(k: Keyring, unlocked: bool, registers: bool, reference: string, kind: Kind)
      returns (r: Result<Record, AddressError>)
      requires k.Injective() && Issued(k, rows)
      modifies this
      ensures Issued(k, rows)
      ensures rows == if unlocked then Performed(k, old(rows), Issue(reference, kind)) else old(rows)
      ensures r == if !unlocked then Failure(Locked)
                   else if ReferenceTaken(old(rows), reference) then Failure(Rejected)
                   else if !registers then Failure(NotRegistered)
                   else Success(k.Row(|old(rows)|, reference, kind))
      ensures r.Success? ==>
                && r.value.index == |old(rows)| && r.value.reference == reference && r.value.kind == kind
                && r.value.public == k.public(|old(rows)|) && r.value.address == k.address(k.public(|old(rows)|))
                && rows == old(rows)[|old(rows)| := r.value]
    {
      if !unlocked {
        return Failure(Locked);
      }
      if !ReferenceTaken(rows, reference) {
        IssueKeepsIssued(k, rows, reference, kind);
      }
      var index := NextIndex();
      NextIsSize(rows, index);
      var ok := AddAddress(k.Row(index, reference, kind));
      if !ok {
        return Failure(Rejected);
      }
      if !registers {
        return Failure(NotRegistered);
      }
      return Success(rows[index]);
    }

    lemma NextIsSize(rows: Rows, next: nat)
      requires forall i :: i in rows <==> 0 <= i < |rows|
      requires (forall i :: i in rows ==> i < next) && (next == 0 || next - 1 in rows)
      ensures next == |rows|
    {
      assert next in rows <==> next < |rows|;
    }

    /** A repeated reference gets its address again, locked or not, and uses no further index. */
    method NewDepositAddress(k: Keyring, unlocked: bool, registers: bool, reference: string)
      returns (r: Result<Record, AddressError>)
      requires k.Injective() && Issued(k, rows) && reference != ""
      modifies this
      ensures Issued(k, rows)
      ensures ReferenceTaken(old(rows), reference) ==>
                && rows == old(rows)
                && (r.Success? <==> registers)
                && (r.Success? ==> r.value.reference == reference && exists i :: i in rows && rows[i] == r.value)
      ensures !ReferenceTaken(old(rows), reference) ==>
                && rows == (if unlocked then Performed(k, old(rows), Issue(reference, Deposit)) else old(rows))
                && (r.Success? <==> unlocked && registers)
                && (r.Success? ==> r.value == k.Row(|old(rows)|, reference, Deposit) && rows[|old(rows)|] == r.value)
      ensures r.Success? ==>
                && r.value.reference == reference && (exists i :: i in rows && rows[i] == r.value)
                && ReferenceTaken(rows, reference)
                && r.value.public == k.public(r.value.index) && r.value.address == k.address(k.public(r.value.index))
      ensures r.Success? && (forall i :: i in old(rows) ==> old(rows)[i].reference != reference) ==>
                && r.value.index == |old(rows)| && r.value.kind == Deposit
                && rows == old(rows)[|old(rows)| := r.value]
    {
      var existing := ByReference(reference);
      if existing.Some? {
        return if registers then Success(existing.value) else Failure(NotRegistered);
      }
      r := NewAddress(k, unlocked, registers, reference, Deposit);
    }

    /** Restores the first `count` child addresses, keeping what is there, whatever table it meets: it
        stops at the first index whose stored key is not the derived one, or whose address another row
        holds, with everything below restored. */
    method RecoverAddresses(k: Keyring, count: nat) returns (r: Result<nat, AddressError>)
      requires k.Injective()
      modifies this
      ensures (count == 0 || 10_000_000 < count) ==> r == Failure(BadCount) && rows == old(rows)
      ensures 0 < count <= 10_000_000 ==>
                match r
                case Success(added) =>
                  Fits(k, old(rows), count) && rows == Restored(k, old(rows), count) && added == |rows| - |old(rows)|
                case Failure(Mismatch(i)) =>
                  && i < count && i in old(rows) && old(rows)[i].public != k.public(i)
                  && Fits(k, old(rows), i) && rows == Restored(k, old(rows), i)
                case Failure(Rejected) =>
                  exists i: nat ::
                    && i < count && i !in old(rows) && !AddressFree(k, old(rows), i)
                    && Fits(k, old(rows), i) && rows == Restored(k, old(rows), i)
                case Failure(_) => false
      ensures 0 < count <= 10_000_000 && Issued(k, old(rows)) ==>
                r.Success? && Issued(k, rows) && rows == Performed(k, old(rows), Recover(count))
    {
      if count == 0 || MAX_RECOVERY < count {
        return Failure(BadCount);
      }
      ghost var before := rows;
      var added := 0;
      for index := 0 to count
        invariant rows == Restored(k, before, index) && Fits(k, before, index) && added == |rows| - |before|
      {
        var restored := RecoverAddress(k, before, index);
        if restored.Failure? {
          IssuedRecover(k, before, count);
          return Failure(restored.error);
        }
        added := added + if restored.value then 1 else 0;
      }
      IssuedRecover(k, before, count);
      return Success(added);
    }

    /** One index of the recovery; `before` are the rows it started from. */
    method RecoverAddress(k: Keyring, ghost before: Rows, index: nat) returns (r: Result<bool, AddressError>)
      requires k.Injective() && rows == Restored(k, before, index)
      modifies this
      ensures match r
              case Success(added) =>
                && rows == Restored(k, before, index + 1) && |rows| == |old(rows)| + (if added then 1 else 0)
                && if index in before then before[index].public == k.public(index) else AddressFree(k, before, index)
              case Failure(Mismatch(i)) =>
                i == index && index in before && before[index].public != k.public(index) && rows == old(rows)
              case Failure(Rejected) => index !in before && !AddressFree(k, before, index) && rows == old(rows)
              case Failure(_) => false
    {
      RecoverStep(k, before, index);
      if index in rows {
        return if rows[index].public != k.public(index) then Failure(Mismatch(index)) else Success(false);
      }
      var ok := AddAddress(k.Row(index, "", Change));
      return if ok then Success(true) else Failure(Rejected);
    }
  }
}
