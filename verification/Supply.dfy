/**
 Conservation over whole runs: payments are built at any time by CreateTransaction and
 wait in a pool; blocks apply a reward and any pooled payments.
 */
module Supply {
  import opened Types
  import opened Ledger
  import opened Conservation
  import opened Payments
  import opened Issuance
  import Undo

  /** The ledger, the payments built so far, and the running totals of rewards and fees. */
  datatype State = State(utxos: Utxos, pool: set<Transaction>, rewards: nat, fees: nat)

  datatype Event =
    | Build(us: seq<Utxo>, from: Address, to: Address, amount: u64, fee: u64, now: Time)
    | Mine(block: Block)

  function FeeSum(txs: seq<Transaction>): nat {
    if txs == [] then 0 else FeeSum(txs[..|txs| - 1]) + txs[|txs| - 1].fee
  }

  function Next(sha: Sha256, s: State, e: Event): State {
    match e
    case Build(us, from, to, amount, fee, now) =>
      (match Payment(sha, us, from, to, amount, fee, now)
       case Ok(tx) => s.(pool := s.pool + {tx})
       case Err(_) => s)
    case Mine(b) =>
      if b.txs == [] then s.(utxos := ApplyBlock(s.utxos, b))
      else s.(utxos := ApplyBlock(s.utxos, b), rewards := s.rewards + OutputSum(b.txs[0].outputs),
              fees := s.fees + FeeSum(b.txs[1..]))
  }

  /** A reward transaction: no inputs, at most 2^32 outputs, fresh hash, no fee. */
  predicate GoodReward(m: Utxos, tx: Transaction) {
    tx.inputs == [] && |tx.outputs| <= TWO32 && FreshHash(m, tx.hash)
  }

  /** Included payments come from the pool, each with a fresh hash and still unspent inputs when its turn comes. */
  predicate GoodPayments(m: Utxos, txs: seq<Transaction>, blockHash: Hash, pool: set<Transaction>) {
    forall i :: 0 <= i < |txs| ==>
      var before := ApplyTransactions(m, txs[..i], blockHash);
      txs[i] in pool && FreshHash(before, txs[i].hash) && InputsHeld(before, txs[i].inputs)
  }

  predicate Allowed(s: State, e: Event) {
    match e
    case Build(us, from, _, amount, fee, _) => Enumerates(s.utxos, from, us) && NoOverflow(us, amount, fee)
    case Mine(b) =>
      b.txs == []
      || (&& GoodReward(s.utxos, b.txs[0])
          && GoodPayments(ApplyTransaction(s.utxos, b.txs[0], b.hash), b.txs[1..], b.hash, s.pool))
  }

  function Run(sha: Sha256, s: State, es: seq<Event>): State {
    if es == [] then s else Next(sha, Run(sha, s, es[..|es| - 1]), es[|es| - 1])
  }

  predicate AllAllowed(sha: Sha256, s: State, es: seq<Event>) {
    forall i :: 0 <= i < |es| ==> Allowed(Run(sha, s, es[..i]), es[i])
  }

  /** A built payment stays balanced against the ledger it will be applied to. */
  predicate Balanced(m: Utxos, tx: Transaction) {
    && DistinctInputs(tx.inputs) && |tx.outputs| <= 2
    && (forall i :: 0 <= i < |tx.inputs| ==> InputKey(tx.inputs[i]) in m)
    && InputSum(m, tx.inputs) == OutputSum(tx.outputs) + tx.fee
  }

  /** Entries are never removed and never change their amount. */
  predicate Grows(m: Utxos, n: Utxos) {
    forall k :: k in m ==> k in n && n[k].amount == m[k].amount
  }

  predicate Invariant(s: State) {
    WellKeyed(s.utxos) && forall tx :: tx in s.pool ==> Balanced(s.utxos, tx)
  }

  lemma {:induction false} InputSumGrows(m: Utxos, n: Utxos, inputs: seq<TxInput>)
    requires Grows(m, n) && forall i :: 0 <= i < |inputs| ==> InputKey(inputs[i]) in m
    ensures InputSum(n, inputs) == InputSum(m, inputs)
  {
    if inputs != [] {
      var last := |inputs| - 1;
      assert forall i :: 0 <= i < last ==> inputs[..last][i] == inputs[i];
      InputSumGrows(m, n, inputs[..last]);
      assert InputKey(inputs[last]) in m;
    }
  }

  lemma BalancedGrows(m: Utxos, n: Utxos, tx: Transaction)
    requires Grows(m, n) && Balanced(m, tx)
    ensures Balanced(n, tx)
  {
    InputSumGrows(m, n, tx.inputs);
  }

  lemma {:induction false} AddAllWellKeyed(m: Utxos, txHash: Hash, outputs: seq<TxOutput>, blockHash: Hash)
    requires WellKeyed(m)
    ensures WellKeyed(AddAll(m, txHash, outputs, blockHash))
  {
    if outputs != [] {
      AddAllWellKeyed(m, txHash, outputs[..|outputs| - 1], blockHash);
    }
  }

  lemma WellKeyedStep(m: Utxos, tx: Transaction, blockHash: Hash)
    requires WellKeyed(m)
    ensures WellKeyed(ApplyTransaction(m, tx, blockHash))
  {
    Undo.SpendAllEntries(m, tx.inputs);
    AddAllWellKeyed(SpendAll(m, tx.inputs), tx.hash, tx.outputs, blockHash);
  }

  /** A transaction with a fresh hash disturbs no recorded amount. */
  lemma FreshGrows(m: Utxos, tx: Transaction, blockHash: Hash)
    requires FreshHash(m, tx.hash)
    ensures Grows(m, ApplyTransaction(m, tx, blockHash))
  {
    Undo.TransactionEntries(m, tx, blockHash);
    forall k | k in m ensures k !in Undo.CreatedKeys(tx.hash, tx.outputs) {
      assert k.txHash != tx.hash;
    }
  }

  lemma ApplyFirst(m: Utxos, txs: seq<Transaction>, blockHash: Hash)
    requires txs != []
    ensures ApplyTransactions(m, txs, blockHash)
      == ApplyTransactions(ApplyTransaction(m, txs[0], blockHash), txs[1..], blockHash)
    decreases |txs|
  {
    var n := |txs| - 1;
    if n > 0 {
      ApplyFirst(m, txs[..n], blockHash);
      assert txs[..n][1..] == txs[1..][..n - 1];
    } else {
      assert ApplyTransactions(m, txs[..0], blockHash) == m;
    }
  }

  /** Any number of good payments burn exactly their fees and keep every pooled payment balanced. */
  lemma {:induction false} PaymentsConserve(m: Utxos, txs: seq<Transaction>, blockHash: Hash, pool: set<Transaction>)
    requires WellKeyed(m) && (forall tx :: tx in pool ==> Balanced(m, tx)) && GoodPayments(m, txs, blockHash, pool)
    ensures var n := ApplyTransactions(m, txs, blockHash);
      && WellKeyed(n) && Grows(m, n) && Total(n) + FeeSum(txs) == Total(m)
  {
    if txs != [] {
      var last := |txs| - 1;
      var front, tx := txs[..last], txs[last];
      GoodPrefix(m, txs, blockHash, pool);
      PaymentsConserve(m, front, blockHash, pool);
      var before := ApplyTransactions(m, front, blockHash);
      assert tx in pool && FreshHash(before, tx.hash) && InputsHeld(before, tx.inputs);
      BalancedGrows(m, before, tx);
      hide GoodPayments, FreshHash, InputsHeld;
      TransferEquation(before, tx, blockHash);
      WellKeyedStep(before, tx, blockHash);
      FreshGrows(before, tx, blockHash);
    }
  }

  lemma GoodPrefix(m: Utxos, txs: seq<Transaction>, blockHash: Hash, pool: set<Transaction>)
    requires txs != [] && GoodPayments(m, txs, blockHash, pool)
    ensures GoodPayments(m, txs[..|txs| - 1], blockHash, pool)
  {
    var front := txs[..|txs| - 1];
    forall i | 0 <= i < |front|
      ensures front[i] == txs[i] && front[..i] == txs[..i]
    {
    }
  }

  /** One event keeps the invariant and the equation between value, rewards and fees. */
  lemma EventConserves(sha: Sha256, s: State, e: Event)
    requires Invariant(s) && Allowed(s, e)
    ensures var t := Next(sha, s, e);
      && Invariant(t)
      && Total(t.utxos) + t.fees + s.rewards == Total(s.utxos) + s.fees + t.rewards
  {
    match e
    case Build(us, from, to, amount, fee, now) =>
      BuildBalanced(sha, s.utxos, us, from, to, amount, fee, now);
    case Mine(b) =>
      if b.txs != [] {
        MineConserves(s, b);
      }
  }

  lemma BuildBalanced(sha: Sha256, m: Utxos, us: seq<Utxo>, from: Address, to: Address,
                      amount: u64, fee: u64, now: Time)
    requires WellKeyed(m) && Enumerates(m, from, us) && NoOverflow(us, amount, fee)
    ensures var r := Payment(sha, us, from, to, amount, fee, now); r.Ok? ==> Balanced(m, r.value)
  {
    PaymentCorrect(sha, m, us, from, to, amount, fee, now);
  }

  lemma MineConserves(s: State, b: Block)
    requires Invariant(s) && Allowed(s, Mine(b)) && b.txs != []
    ensures var n := ApplyBlock(s.utxos, b);
      && WellKeyed(n) && (forall tx :: tx in s.pool ==> Balanced(n, tx))
      && Total(n) + FeeSum(b.txs[1..]) == Total(s.utxos) + OutputSum(b.txs[0].outputs)
  {
    var reward := b.txs[0];
    var m := s.utxos;
    var mid := ApplyTransaction(m, reward, b.hash);
    ApplyFirst(m, b.txs, b.hash);
    assert DistinctInputs(reward.inputs) && InputsHeld(m, reward.inputs);
    TransferEquation(m, reward, b.hash);
    WellKeyedStep(m, reward, b.hash);
    FreshGrows(m, reward, b.hash);
    hide ApplyTransaction, GoodPayments, GoodReward;
    forall tx | tx in s.pool ensures Balanced(mid, tx) { BalancedGrows(m, mid, tx); }
    PaymentsConserve(mid, b.txs[1..], b.hash, s.pool);
    var n := ApplyBlock(m, b);
    forall tx | tx in s.pool ensures Balanced(n, tx) { BalancedGrows(mid, n, tx); }
  }

  /**
   Over every allowed run from the empty ledger, the unspent total is all rewards paid
   minus all fees burned.
   */
  lemma {:induction false} RunConserves(sha: Sha256, es: seq<Event>)
    requires AllAllowed(sha, State(map[], {}, 0, 0), es)
    ensures var s := Run(sha, State(map[], {}, 0, 0), es);
      Invariant(s) && Total(s.utxos) + s.fees == s.rewards
  {
    var start := State(map[], {}, 0, 0);
    if es != [] {
      var last := |es| - 1;
      assert forall i :: 0 <= i < last ==> es[..last][..i] == es[..i];
      RunConserves(sha, es[..last]);
      assert Allowed(Run(sha, start, es[..last]), es[last]);
      hide Allowed, Invariant;
      EventConserves(sha, Run(sha, start, es[..last]), es[last]);
    }
  }

  // ---------- rewards that follow the schedule ----------

  function MinedBlocks(es: seq<Event>): seq<Block> {
    if es == [] then []
    else MinedBlocks(es[..|es| - 1]) + if es[|es| - 1].Mine? then [es[|es| - 1].block] else []
  }

  predicate Pays(conv: Conversion, g: GenesisConfig, b: Block, n: u64) {
    b.txs != [] && OutputSum(b.txs[0].outputs) == RewardAt(conv, g, n)
  }

  /** The n-th block pays what the schedule says for number n. */
  predicate Scheduled(conv: Conversion, g: GenesisConfig, blocks: seq<Block>) {
    |blocks| < TWO64 && forall i: nat :: i < |blocks| ==> Pays(conv, g, blocks[i], i + 1)
  }

  lemma {:induction false} RewardsFollowSchedule(sha: Sha256, conv: Conversion, g: GenesisConfig, es: seq<Event>)
    requires Scheduled(conv, g, MinedBlocks(es))
    ensures Run(sha, State(map[], {}, 0, 0), es).rewards
      == RewardSum(conv, BaseReward(conv, g), g.halvings, 0, |MinedBlocks(es)|)
  {
    if es != [] {
      var last := |es| - 1;
      var front := MinedBlocks(es[..last]);
      assert front <= MinedBlocks(es);
      assert forall i: nat :: i < |front| ==> front[i] == MinedBlocks(es)[i];
      if es[last].Mine? {
        assert MinedBlocks(es)[|front|] == es[last].block;
        assert Pays(conv, g, es[last].block, |front| + 1);
      }
      assert Scheduled(conv, g, front);
      hide RewardAt, ApplyBlock, Payment, RewardSum, Scheduled, OutputSum;
      RewardsFollowSchedule(sha, conv, g, es[..last]);
      if es[last].Mine? {
        RewardSumStep(conv, g, |front|);
      }
    }
  }

  lemma RewardSumStep(conv: Conversion, g: GenesisConfig, n: nat)
    requires n + 1 < TWO64
    ensures RewardSum(conv, BaseReward(conv, g), g.halvings, 0, n + 1)
      == RewardSum(conv, BaseReward(conv, g), g.halvings, 0, n) + RewardAt(conv, g, n + 1)
  {
  }

  /**
   The supply after any allowed run is known in closed form: what a sorted schedule has
   issued for that many blocks, minus the fees burned.
   */
  lemma SupplyClosedForm(sha: Sha256, conv: Conversion, g: GenesisConfig, es: seq<Event>)
    requires AllAllowed(sha, State(map[], {}, 0, 0), es)
    requires Sorted(g.halvings) && Scheduled(conv, g, MinedBlocks(es))
    ensures var s := Run(sha, State(map[], {}, 0, 0), es);
      Total(s.utxos) + s.fees == Issued(conv, BaseReward(conv, g), g.halvings, 0, |MinedBlocks(es)|)
  {
    RunConserves(sha, es);
    RewardsFollowSchedule(sha, conv, g, es);
    RewardSumClosed(conv, BaseReward(conv, g), g.halvings, 0, |MinedBlocks(es)|);
    hide Run;
  }

  /** The run's outputs are those of its blocks. */
  lemma {:induction false} RunAppliesBlocks(sha: Sha256, es: seq<Event>)
    ensures Run(sha, State(map[], {}, 0, 0), es).utxos == ApplyBlocks(map[], MinedBlocks(es))
  {
    if es != [] {
      var last := |es| - 1;
      var front := MinedBlocks(es[..last]);
      RunAppliesBlocks(sha, es[..last]);
      hide ApplyBlock, Payment;
      if es[last].Mine? {
        assert MinedBlocks(es)[..|front|] == front;
      } else {
        assert MinedBlocks(es) == front;
      }
    }
  }
}
