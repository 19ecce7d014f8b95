/**
 The in-memory chain of core/blockchain.go as a value: validation, adding a block,
 templates and loading from storage. Module Blockchain holds the object that changes it.
 */
module Chain {
  import opened Prelude
  import opened Types
  import opened Ledger
  import opened Storage
  import opened ProofOfWork
  import opened Issuance

  type Mempool = map<Hash, Transaction>

  datatype State = State(blocks: seq<Block>, height: u64, best: Option<Block>, utxos: Utxos, mempool: Mempool)

  function NextNumber(n: u64): u64 { Wrap64(n + 1) }

  /** validateBlockV2: any block numbered 0 passes. */
  predicate Acceptable(s: State, b: Block) {
    b.header.number == 0
    || (&& s.best.Some?
        && b.header.parentHash == s.best.value.hash
        && b.header.number == NextNumber(s.best.value.header.number)
        && s.best.value.header.timestamp <= b.header.timestamp
        && PassesV2(b.header.difficulty, b.hash))
  }

  function TxHashes(txs: seq<Transaction>): set<Hash> {
    set i | 0 <= i < |txs| :: txs[i].hash
  }

  function Accept(s: State, b: Block): State {
    State(s.blocks + [b], b.header.number, Some(b), ApplyBlock(s.utxos, b), s.mempool - TxHashes(b.txs))
  }

  /** addBlockV2 in memory. */
  function Submit(s: State, b: Block): State {
    if Acceptable(s, b) then Accept(s, b) else s
  }

  const GENESIS_TIME: Time := 1609459200 * 1_000_000_000

  function Genesis(sha: Sha256, g: GenesisConfig): Block {
    var header := BlockHeader(ZeroHash(), 0, GENESIS_TIME, g.initialDifficulty, ZeroAddress(), 0, ZeroHash(), 0, 0, 0);
    Block(header, [], BlockHash(sha, header))
  }

  function EmptyState(): State {
    State([], 0, None, map[], map[])
  }

  // ---------- chain shape ----------

  /** Consecutive blocks fit: numbers, parent hashes, timestamps, proof of work. */
  predicate Linked(blocks: seq<Block>) {
    && (forall i :: 0 <= i < |blocks| ==> blocks[i].header.number == i)
    && (forall i :: 0 < i < |blocks| ==> Follows(blocks[i - 1], blocks[i]))
  }

  predicate Follows(parent: Block, b: Block) {
    && b.header.parentHash == parent.hash
    && parent.header.timestamp <= b.header.timestamp
    && PassesV2(b.header.difficulty, b.hash)
  }

  predicate Shape(s: State) {
    Placed(s) && Linked(s.blocks)
  }

  /** Block i sits at index i; height and tip are the last block's. Nothing about parents. */
  predicate Placed(s: State) {
    && s.blocks != [] && (forall i :: 0 <= i < |s.blocks| ==> s.blocks[i].header.number == i)
    && s.height == |s.blocks| - 1
    && s.best == Some(s.blocks[|s.blocks| - 1])
  }

  /** The outputs are exactly those of the blocks, on top of what was there before. */
  predicate Reflects(s: State, before: Utxos) {
    s.utxos == ApplyBlocks(before, s.blocks)
  }

  lemma GenesisShape(s: State, g: Block)
    requires s.blocks == [] && g.header.number == 0
    ensures Shape(Accept(s, g)) && Reflects(Accept(s, g), s.utxos)
  {
    assert [g][..0] == [];
    assert ApplyBlocks(s.utxos, [g]) == ApplyBlock(ApplyBlocks(s.utxos, [g][..0]), g);
  }

  lemma ApplyBlocksSnoc(m: Utxos, blocks: seq<Block>, b: Block)
    ensures ApplyBlocks(m, blocks + [b]) == ApplyBlock(ApplyBlocks(m, blocks), b)
  {
    assert (blocks + [b])[..|blocks|] == blocks;
  }

  /** Numbers are 64-bit, so a placed chain is never longer than 2^64. */
  lemma PlacedBounded(s: State)
    requires Placed(s)
    ensures |s.blocks| <= TWO64
  {
    var last := |s.blocks| - 1;
    assert s.blocks[last].header.number == last;
  }

  /** Submitting any block numbered 1 or more keeps the shape, accepted or not. */
  lemma SubmitKeepsShape(s: State, b: Block, before: Utxos)
    requires Shape(s) && Reflects(s, before) && b.header.number >= 1
    ensures Shape(Submit(s, b)) && Reflects(Submit(s, b), before)
    ensures Acceptable(s, b) <==> Follows(s.blocks[|s.blocks| - 1], b) && b.header.number == |s.blocks|
  {
    ApplyBlocksSnoc(before, s.blocks, b);
    hide PassesV2, ApplyBlocks, ApplyBlock;
  }

  /** Why the number matters: a second block numbered 0 is accepted and breaks the numbering. */
  lemma SecondGenesisBreaksShape(s: State, b: Block)
    requires Shape(s) && b.header.number == 0
    ensures Acceptable(s, b) && !Shape(Submit(s, b))
  {
    var t := Submit(s, b);
    assert t.blocks[|s.blocks|].header.number == 0;
  }

  // ---------- templates ----------

  /** The reward transaction of createBlockRewardTransaction; the data is the text "block_reward". */
  function RewardTransaction(sha: Sha256, miner: Address, amount: u64, now: Time): Transaction {
    var data: seq<byte> := [98, 108, 111, 99, 107, 95, 114, 101, 119, 97, 114, 100];
    var tx := Transaction(ZeroAddress(), miner, amount, 0, 0, 0, 0, data, [], ZeroHash(),
                          [], [TxOutput(miner, amount)], now);
    tx.(hash := RewardHash(sha, tx))
  }

  /** What CreateNewBlockV2 builds on a parent, once the transactions and the difficulty are chosen. */
  function Template(sha: Sha256, parent: Block, miner: Address, txs: seq<Transaction>,
                    difficulty: u64, now: Time): Block
  {
    var number := NextNumber(parent.header.number);
    var header := BlockHeader(parent.hash, number, now, difficulty, miner, 0, ZeroHash(), |txs| % TWO32, 0, 0);
    Block(header, txs, BlockHash(sha, header))
  }

  /** The values of a mempool, each once, in some order. */
  ghost predicate ListsPending(m: Mempool, pending: seq<Transaction>) {
    exists keys: seq<Hash> ::
      && |keys| == |pending|
      && (forall i :: 0 <= i < |keys| ==> keys[i] in m && pending[i] == m[keys[i]])
      && (forall i, j :: 0 <= i < j < |keys| ==> keys[i] != keys[j])
      && (forall k :: k in m ==> k in keys)
  }

  // ---------- loading ----------

  /** How many consecutive blocks from number 0 are stored, counting at most `limit`. */
  function StoredPrefix(db: Db, limit: nat): (n: nat)
    requires limit <= TWO64
    ensures n <= limit
    ensures forall i: nat :: i < n ==> i in db.byNumber
    ensures n < limit ==> n !in db.byNumber
  {
    if limit == 0 then 0
    else
      var n := StoredPrefix(db, limit - 1);
      if n == limit - 1 && n in db.byNumber then limit else n
  }

  function BlocksUpTo(db: Db, n: nat): (bs: seq<Block>)
    requires n <= TWO64 && forall i: nat :: i < n ==> i in db.byNumber
    ensures |bs| == n
  {
    seq(n, i requires 0 <= i < n => db.byNumber[i])
  }

  /** loadChainFromStorage. A block missing on the way resets the chain, but not the outputs. */
  function Load(db: Db, s: State): State {
    match BestBlock(db)
    case Nothing => s
    case Failed => s
    case Found(best) =>
      var wanted := best.header.number + 1;
      var n := StoredPrefix(db, wanted);
      var blocks := BlocksUpTo(db, n);
      var utxos := ApplyBlocks(s.utxos, blocks);
      if n == wanted then State(s.blocks + blocks, best.header.number, Some(best), utxos, s.mempool)
      else State([], 0, None, utxos, s.mempool)
  }

  /** NewBlockchainV2 in memory: load, then add the genesis block if the height is still 0. */
  function Boot(db: Db, genesis: Block): State {
    var s := Load(db, EmptyState());
    if s.height == 0 then Accept(s, genesis) else s
  }

  /** The database right after construction. */
  function BootDb(db: Db, genesis: Block): Db {
    if Load(db, EmptyState()).height == 0 then Store(db, genesis) else db
  }
}
