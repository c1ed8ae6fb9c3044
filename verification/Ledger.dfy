/** Transactions, outputs and spending conditions, as far as the daemon looks into them.
    Hashes and addresses are numbers: two of them are equal exactly when the daemon's are. */
module Ledger {
  /** How many rows the daemon asks the wallet index for at a time. */
  const PAGE_SIZE: nat := 500

  type TxID = nat
  type BlockID = nat
  type Address = nat
  type Hash = nat
  type Preimage = nat

  /** The n-th output of a transaction; the daemon hashes the pair. */
  datatype OutputID = OutputID(txid: TxID, index: nat)

  /** A position in the block tree. */
  datatype ChainIndex = ChainIndex(height: nat, id: BlockID)

  /** Spending conditions. An opaque branch shows only its address. */
  datatype Policy =
    | Above(height: nat)
    | HashLock(hash: Hash)
    | PublicKey(key: nat)
    | Threshold(n: nat, of: seq<Policy>)
    | Opaque(address: Address)

  datatype Output = Output(address: Address, value: nat)

  /** An input names the output it spends and repeats that output's address and value;
      `signature` stands for all signatures of its satisfied policy. */
  datatype Input = Input(parent: OutputID, parentAddress: Address, parentValue: nat, policy: Policy,
                         preimages: seq<Preimage>, signature: nat)

  /** A signed transaction. `proofs` are the accumulator proofs of its inputs; they are the only
      part that depends on the block the transaction is presented against. */
  datatype Transaction = Transaction(id: TxID, inputs: seq<Input>, outputs: seq<Output>, minerFee: nat,
                                     proofs: seq<Hash>)
}
