/** The values of core/types.go and how they are hashed. SHA-256 is a parameter everywhere. */
module Types {
  import opened Digits
  import opened Prelude

  const TWO32: nat := 0x1_0000_0000
  const TWO64: nat := 0x1_0000_0000_0000_0000

  type u32 = x: nat | x < TWO32
  type u64 = x: nat | x < TWO64

  type Hash = h: seq<byte> | |h| == 32 witness seq(32, _ => 0)
  type Address = a: seq<byte> | |a| == 20 witness seq(20, _ => 0)

  /** sha256.Sum256, left uninterpreted. */
  type Sha256 = seq<byte> -> Hash

  /** Nanoseconds since the Unix epoch. */
  type Time = int

  function ZeroHash(): Hash { seq(32, _ => 0) }

  function ZeroAddress(): Address { seq(20, _ => 0) }

  datatype TxInput = TxInput(previousTxHash: Hash, index: u32, signature: seq<byte>)

  datatype TxOutput = TxOutput(address: Address, amount: u64)

  datatype Transaction = Transaction(
    from: Address, to: Address, amount: u64, nonce: u64, fee: u64, gasUsed: u64, gasPrice: u64,
    data: seq<byte>, signature: seq<byte>, hash: Hash,
    inputs: seq<TxInput>, outputs: seq<TxOutput>, timestamp: Time)

  datatype BlockHeader = BlockHeader(
    parentHash: Hash, number: u64, timestamp: Time, difficulty: u64, miner: Address, nonce: u64,
    merkleRoot: Hash, txCount: u32, networkFee: u64, treasuryFee: u64)

  datatype Block = Block(header: BlockHeader, txs: seq<Transaction>, hash: Hash)

  /** binary.BigEndian.PutUint32 and PutUint64. */
  function Bytes4(x: u32): (bs: seq<byte>)
    ensures |bs| == 4
  {
    Pow2Small();
    Groups(x, 4, 8)
  }

  function Bytes8(x: u64): (bs: seq<byte>)
    ensures |bs| == 8
  {
    Pow2Small();
    Groups(x, 8, 8)
  }

  lemma Bytes4Injective(x: u32, y: u32)
    requires Bytes4(x) == Bytes4(y)
    ensures x == y
  {
    Pow2Small();
    GroupsInjective(x, y, 4, 8);
  }

  lemma Bytes8Injective(x: u64, y: u64)
    requires Bytes8(x) == Bytes8(y)
    ensures x == y
  {
    Pow2Small();
    GroupsInjective(x, y, 8, 8);
  }

  /** Unsigned 64-bit arithmetic wraps; so does the conversion of a signed value. */
  function Wrap64(x: int): u64 { x % TWO64 }

  lemma Unwrapped(x: nat)
    requires x < TWO64
    ensures Wrap64(x) == x
  {
  }

  /** time.Time.Unix: whole seconds, rounded down. */
  function UnixSeconds(t: Time): int { t / 1_000_000_000 }

  function HeaderBytes(h: BlockHeader): seq<byte> {
    h.parentHash + Bytes8(h.number) + Bytes8(Wrap64(UnixSeconds(h.timestamp))) + Bytes8(h.difficulty)
    + h.miner + Bytes8(h.nonce) + h.merkleRoot + Bytes4(h.txCount) + Bytes8(h.networkFee) + Bytes8(h.treasuryFee)
  }

  /** Block.CalculateHash. */
  function BlockHash(sha: Sha256, h: BlockHeader): Hash {
    sha(HeaderBytes(h))
  }

  function TransactionBytes(tx: Transaction): seq<byte> {
    tx.from + tx.to + Bytes8(tx.amount) + Bytes8(tx.nonce) + Bytes8(tx.fee)
    + Bytes8(tx.gasUsed) + Bytes8(tx.gasPrice) + tx.data
  }

  /** Transaction.CalculateHash. Inputs, outputs, signature and timestamp are not covered. */
  function TransactionHash(sha: Sha256, tx: Transaction): Hash {
    sha(TransactionBytes(tx))
  }

  function InputBytes(inputs: seq<TxInput>): seq<byte> {
    if inputs == [] then [] else
      var front, last := inputs[..|inputs| - 1], inputs[|inputs| - 1];
      InputBytes(front) + last.previousTxHash + Bytes4(last.index)
  }

  function OutputBytes(outputs: seq<TxOutput>): seq<byte> {
    if outputs == [] then [] else
      var front, last := outputs[..|outputs| - 1], outputs[|outputs| - 1];
      OutputBytes(front) + last.address + Bytes8(last.amount)
  }

  /** CalculateTransactionHash of core/utxo.go, used for block rewards. */
  function RewardHash(sha: Sha256, tx: Transaction): Hash {
    sha(InputBytes(tx.inputs) + OutputBytes(tx.outputs) + Bytes8(Wrap64(tx.timestamp)) + tx.from + tx.to)
  }
}
