/**
 The BlockchainV2 object of core/blockchain.go. Each method changes the fields in place
 and is tied to the state function of module Chain.
 */
module Blockchain {
  import opened Prelude
  import opened Types
  import opened Ledger
  import opened Storage
  import opened ProofOfWork
  import opened Issuance
  import opened Payments
  import opened UtxoSet
  import opened Chain
  import opened Ownership
  import opened Pool

  class BlockchainV2 {
    const sha: Sha256
    const conv: Conversion
    const genesis: GenesisConfig
    var blocks: seq<Block>
    var height: u64
    var bestBlock: Option<Block>
    const utxoSet: UTXOSet
    var mempool: Mempool
    const storage: BlockStorage?

    ghost predicate Valid()
      reads this, utxoSet
    {
      utxoSet.Valid()
    }

    ghost function View(): State
      reads this, utxoSet
    {
      State(blocks, height, bestBlock, utxoSet.utxos, mempool)
    }

    constructor (sha: Sha256, conv: Conversion, genesis: GenesisConfig, storage: BlockStorage?)
      modifies storage
      ensures Valid() && fresh(utxoSet)
      ensures this.sha == sha && this.conv == conv && this.genesis == genesis && this.storage == storage
      ensures storage == null ==> View() == Accept(EmptyState(), Genesis(sha, genesis))
      ensures storage != null ==> View() == Boot(old(storage.db), Genesis(sha, genesis))
      ensures storage != null ==> storage.db == BootDb(old(storage.db), Genesis(sha, genesis))
    {
      this.sha, this.conv, this.genesis, this.storage := sha, conv, genesis, storage;
      blocks, height, bestBlock, mempool := [], 0, None, map[];
      utxoSet := new UTXOSet();
      new;
      hide BlockHash, ApplyBlocks, ApplyBlock, Store;
      if storage != null {
        LoadChainFromStorage();
      }
      if height == 0 {
        var genesisBlock := CreateGenesisBlockV2();
        var ok := AddBlockV2(genesisBlock);
      }
    }

    method CreateGenesisBlockV2() returns (b: Block)
      ensures b == Genesis(sha, genesis)
    {
      var difficulty := genesis.initialDifficulty;
      var header := BlockHeader(ZeroHash(), 0, GENESIS_TIME, difficulty, ZeroAddress(), 0, ZeroHash(), 0, 0, 0);
      b := Block(header, [], ZeroHash());
      b := b.(hash := BlockHash(sha, b.header));
    }

    method ValidateBlockV2(block: Block) returns (ok: bool)
      ensures ok == Acceptable(View(), block)
    {
      if block.header.number == 0 {
        return true;
      }
      if bestBlock.None? {
        return false;
      }
      var parent := bestBlock.value;
      if block.header.parentHash != parent.hash {
        return false;
      }
      if block.header.number != NextNumber(parent.header.number) {
        return false;
      }
      if block.header.timestamp < parent.header.timestamp {
        return false;
      }
      ok := ValidateProofOfWorkV2(block);
    }

    method ProcessTransactionUTXOs(tx: Transaction, blockHash: Hash)
      requires Valid()
      modifies utxoSet
      ensures Valid() && utxoSet.utxos == ApplyTransaction(old(utxoSet.utxos), tx, blockHash)
      ensures |tx.outputs| <= TWO32 ==> forall i: nat :: i < |tx.outputs| ==>
        OutPoint(tx.hash, i) in utxoSet.utxos
        && utxoSet.utxos[OutPoint(tx.hash, i)]
          == Utxo(tx.hash, i, tx.outputs[i].amount, tx.outputs[i].address, false, blockHash)
    {
      hide Add, Spend;
      if |tx.outputs| <= TWO32 {
        TransactionRecorded(utxoSet.utxos, tx, blockHash);
      }
      ghost var before := utxoSet.utxos;
      for i := 0 to |tx.inputs|
        invariant Valid() && utxoSet.utxos == SpendAll(before, tx.inputs[..i])
      {
        assert tx.inputs[..i + 1][..i] == tx.inputs[..i];
        var spent := utxoSet.SpendUTXO(tx.inputs[i].previousTxHash, tx.inputs[i].index);
      }
      assert tx.inputs[..|tx.inputs|] == tx.inputs;
      ghost var middle := utxoSet.utxos;
      for i := 0 to |tx.outputs|
        invariant Valid() && utxoSet.utxos == AddAll(middle, tx.hash, tx.outputs[..i], blockHash)
      {
        assert tx.outputs[..i + 1][..i] == tx.outputs[..i];
        var output := tx.outputs[i];
        utxoSet.AddUTXO(tx.hash, i % TWO32, output.amount, output.address, blockHash);
      }
      assert tx.outputs[..|tx.outputs|] == tx.outputs;
    }

    /** addBlockV2: the in-memory change, then the store. */
    method AddBlockV2(block: Block) returns (ok: bool)
      requires Valid()
      modifies this, utxoSet, storage
      ensures Valid()
      ensures ok == Acceptable(old(View()), block)
      ensures View() == Submit(old(View()), block)
      ensures forall k :: k in mempool <==> k in old(mempool) && !(ok && Includes(block, k))
      ensures storage != null ==> storage.db == if ok then Store(old(storage.db), block) else old(storage.db)
    {
      hide Acceptable, Store, ApplyTransaction, Includes;
      IncludedHashes(block);
      ok := ValidateBlockV2(block);
      if !ok {
        return;
      }
      ghost var before, pending := utxoSet.utxos, mempool;
      for i := 0 to |block.txs|
        invariant Valid() && utxoSet.utxos == ApplyTransactions(before, block.txs[..i], block.hash)
        invariant mempool == pending - TxHashes(block.txs[..i])
        invariant blocks == old(blocks) && height == old(height) && bestBlock == old(bestBlock)
        invariant storage != null ==> storage.db == old(storage.db)
      {
        assert block.txs[..i + 1][..i] == block.txs[..i];
        ProcessTransactionUTXOs(block.txs[i], block.hash);
        assert TxHashes(block.txs[..i + 1]) == TxHashes(block.txs[..i]) + {block.txs[i].hash};
        mempool := mempool - {block.txs[i].hash};
      }
      assert block.txs[..|block.txs|] == block.txs;
      blocks := blocks + [block];
      height := block.header.number;
      bestBlock := Some(block);
      if storage != null {
        storage.StoreBlock(block);
      }
    }

    method LoadChainFromStorage()
      requires Valid() && storage != null
      modifies this, utxoSet
      ensures Valid() && View() == Load(storage.db, old(View()))
    {
      hide ApplyBlock, Store;
      var best := storage.GetBestBlock();
      if !best.Found? {
        return;
      }
      height := best.block.header.number;
      bestBlock := Some(best.block);
      ghost var db, before, start := storage.db, utxoSet.utxos, blocks;
      ghost var total := StoredPrefix(db, height + 1);
      var i := 0;
      while i <= height
        invariant 0 <= i <= total && Valid()
        invariant height == best.block.header.number && bestBlock == Some(best.block) && mempool == old(mempool)
        invariant blocks == start + BlocksUpTo(db, total)[..i]
        invariant utxoSet.utxos == ApplyBlocks(before, BlocksUpTo(db, total)[..i])
        decreases height + 1 - i
      {
        var found := storage.GetBlockByNumber(i);
        if !found.Found? {
          height := 0;
          bestBlock := None;
          blocks := [];
          assert i == total;
          assert BlocksUpTo(db, total)[..i] == BlocksUpTo(db, total);
          return;
        }
        var block := found.block;
        assert i < total;
        assert BlocksUpTo(db, total)[..i + 1][..i] == BlocksUpTo(db, total)[..i];
        blocks := blocks + [block];
        ReplayBlock(block);
        i := i + 1;
      }
      assert BlocksUpTo(db, total)[..total] == BlocksUpTo(db, total);
    }

    /** The inner loop of loading: every transaction of a stored block is processed again. */
    method ReplayBlock(block: Block)
      requires Valid()
      modifies utxoSet
      ensures Valid() && utxoSet.utxos == ApplyBlock(old(utxoSet.utxos), block)
    {
      hide ApplyTransaction;
      ghost var before := utxoSet.utxos;
      for k := 0 to |block.txs|
        invariant Valid() && utxoSet.utxos == ApplyTransactions(before, block.txs[..k], block.hash)
      {
        assert block.txs[..k + 1][..k] == block.txs[..k];
        ProcessTransactionUTXOs(block.txs[k], block.hash);
      }
      assert block.txs[..|block.txs|] == block.txs;
    }

    /** CreateTransaction: the result is a payment from some enumeration of the sender's outputs. */
    method CreateTransaction(from: Address, to: Address, amount: u64, fee: u64, now: Time)
      returns (r: Result<Transaction, PaymentError>)
      requires Valid()
      ensures exists us :: Enumerates(utxoSet.utxos, from, us) && r == Payment(sha, us, from, to, amount, fee, now)
    {
      hide Enumerates, TransactionHash, PrefixSum, TakenFrom, InputFor, InputsFor, Wrap64, Change;
      var utxos := utxoSet.GetUTXOs(from);
      var totalBalance := WrappedSum(utxos);
      if totalBalance < Wrap64(amount + fee) {
        return Err(InsufficientBalance);
      }
      var inputs := [];
      var totalInput: u64 := 0;
      var n := 0;
      SelectionStart(utxos);
      while n < |utxos|
        invariant n <= |utxos| && inputs == InputsFor(utxos, n) && totalInput == Wrap64(PrefixSum(utxos, n))
        invariant TakenFrom(utxos, Wrap64(amount + fee), 0) == TakenFrom(utxos, Wrap64(amount + fee), n)
      {
        SelectionStep(utxos, Wrap64(amount + fee), n);
        if totalInput >= Wrap64(amount + fee) {
          break;
        }
        inputs := inputs + [InputFor(utxos[n])];
        totalInput := Wrap64(totalInput + utxos[n].amount);
        n := n + 1;
      }
      SelectionStop(utxos, Wrap64(amount + fee), n);
      var outputs := [TxOutput(to, amount)];
      var change := Wrap64(totalInput - amount - fee);
      ChangeOfWrapped(utxos, n, amount, fee);
      if change > 0 {
        outputs := outputs + [TxOutput(from, change)];
      }
      assert outputs == OutputsFor(from, to, amount, change);
      var tx := Unhashed(inputs, outputs, from, to, amount, fee, now);
      tx := tx.(hash := TransactionHash(sha, tx));
      r := Ok(tx);
      assert r == Payment(sha, utxos, from, to, amount, fee, now);
    }

    /** Mempool.AddTransaction. */
    method AddTransaction(tx: Transaction)
      modifies this
      ensures Pool.Next(old(View()), Added(tx)) == View()
    {
      mempool := mempool[tx.hash := tx];
    }

    method GetPendingTransactions() returns (txs: seq<Transaction>)
      ensures ListsPending(mempool, txs)
    {
      txs := [];
      ghost var keys: seq<Hash> := [];
      var rest := mempool.Keys;
      while rest != {}
        invariant rest <= mempool.Keys && |keys| == |txs|
        invariant forall i :: 0 <= i < |keys| ==> keys[i] in mempool && keys[i] !in rest && txs[i] == mempool[keys[i]]
        invariant forall i, j :: 0 <= i < j < |keys| ==> keys[i] != keys[j]
        invariant forall k :: k in mempool && k !in rest ==> k in keys
        decreases rest
      {
        var key :| key in rest;
        rest := rest - {key};
        txs := txs + [mempool[key]];
        keys := keys + [key];
      }
    }

    /** CreateNewBlockV2: the reward first, then the given and the pending transactions. */
    method CreateNewBlockV2(miner: Address, txs: seq<Transaction>, now: Time) returns (r: Outcome)
      ensures bestBlock.None? ==> r == NoTip
      ensures bestBlock.Some? ==> exists pending ::
        && ListsPending(mempool, pending)
        && r == TemplateOn(sha, conv, genesis, bestBlock.value, miner, txs + pending, now)
    {
      hide RewardAt, ListsPending, RewardHash, BlockHash, NextDifficulty;
      if bestBlock.None? {
        return NoTip;
      }
      var parent := bestBlock.value;
      var number := NextNumber(parent.header.number);
      var difficulty := NextDifficulty(conv, genesis, number, parent.header.difficulty);
      var reward := CalculateBlockReward(conv, genesis, number);
      var rewardTx := RewardTransaction(sha, miner, reward, now);
      var pending := GetPendingTransactions();
      var all := [rewardTx] + (txs + pending);
      r := if difficulty.None? then DividedByZero else Built(Template(sha, parent, miner, all, difficulty.value, now));
      assert r == TemplateOn(sha, conv, genesis, parent, miner, txs + pending, now);
    }
  }

  /** What asking for a template gives: a block, nil without a tip, or a panic. */
  datatype Outcome = Built(block: Block) | NoTip | DividedByZero

  /** The template with its reward: what the schedule says for the next number. */
  function TemplateOn(sha: Sha256, conv: Conversion, g: GenesisConfig, parent: Block, miner: Address,
                      txs: seq<Transaction>, now: Time): Outcome
  {
    var number := NextNumber(parent.header.number);
    match NextDifficulty(conv, g, number, parent.header.difficulty)
    case None => DividedByZero
    case Some(difficulty) =>
      var reward := RewardTransaction(sha, miner, RewardAt(conv, g, number), now);
      Built(Template(sha, parent, miner, [reward] + txs, difficulty, now))
  }

  /** The template some caller of CreateNewBlockV2 gets, whatever it adds to the reward. */
  ghost predicate Offered(sha: Sha256, conv: Conversion, g: GenesisConfig, parent: Block, miner: Address,
                          txs: seq<Transaction>, difficulty: u64, now: Time)
  {
    exists rest ::
      TemplateOn(sha, conv, g, parent, miner, rest, now) == Built(Template(sha, parent, miner, txs, difficulty, now))
  }

  /** A template's first transaction is a reward as the supply argument needs it, paying what the schedule says. */
  lemma TemplatePaysSchedule(sha: Sha256, conv: Conversion, g: GenesisConfig, parent: Block, miner: Address,
                             txs: seq<Transaction>, now: Time)
    ensures var r := TemplateOn(sha, conv, g, parent, miner, txs, now);
      && (r.Built? <==> !g.guard.enabled || g.blockTimeTarget > 0 || parent.header.number == TWO64 - 1)
      && (r.Built? ==>
            && r.block.txs != [] && r.block.txs[1..] == txs
            && r.block.txs[0].inputs == [] && r.block.txs[0].fee == 0
            && (forall o :: o in r.block.txs[0].outputs ==> o.address == miner)
            && OutputSum(r.block.txs[0].outputs) == RewardAt(conv, g, r.block.header.number))
  {
    hide RewardAt, RewardHash, BlockHash;
    var amount := RewardAt(conv, g, NextNumber(parent.header.number));
    assert OutputSum([TxOutput(miner, amount)][..0]) == 0;
  }
}
