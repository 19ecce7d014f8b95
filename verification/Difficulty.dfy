/**
 Which difficulty a template gets, and which one the blocks of a whole run carry, for every
 configuration of window and launch guard.
 */
module Difficulty {
  import opened Prelude
  import opened Types
  import opened Ledger
  import opened Issuance
  import opened Chain
  import opened Blockchain
  import Miners

  /** The number of the first block after the launch guard. */
  function GuardEnd(g: GenesisConfig): int {
    if !g.guard.enabled || g.blockTimeTarget == 0 then 0
    else g.guard.durationHours * 3600 % TWO64 / g.blockTimeTarget
  }

  /** The whole template, field by field, apart from its difficulty. */
  lemma TemplateFields(sha: Sha256, conv: Conversion, g: GenesisConfig, parent: Block, miner: Address,
                       txs: seq<Transaction>, now: Time)
    requires TemplateOn(sha, conv, g, parent, miner, txs, now).Built?
    ensures var b := TemplateOn(sha, conv, g, parent, miner, txs, now).block;
      && b.header.parentHash == parent.hash && b.header.number == (parent.header.number + 1) % TWO64
      && b.header.timestamp == now && b.header.miner == miner && b.header.nonce == 0
      && b.header.merkleRoot == seq(32, _ => 0) && b.header.txCount == (|txs| + 1) % TWO32
      && b.header.networkFee == 0 && b.header.treasuryFee == 0
      && |b.txs| == |txs| + 1 && b.txs[1..] == txs && b.hash == BlockHash(sha, b.header)
      && IsReward(b.txs[0], miner, RewardAt(conv, g, b.header.number), now)
  {
    hide RewardAt, NextDifficulty, BlockHash, RewardHash;
  }

  /** A block reward, field by field; its hash is described by Layout.RewardLayout. */
  predicate IsReward(tx: Transaction, miner: Address, amount: u64, now: Time) {
    && tx.from == seq(20, _ => 0) && tx.to == miner && tx.amount == amount && tx.timestamp == now
    && tx.nonce == 0 && tx.fee == 0 && tx.gasUsed == 0 && tx.gasPrice == 0 && tx.signature == []
    && tx.inputs == [] && tx.outputs == [TxOutput(miner, amount)]
    && |tx.data| == 12 && forall i :: 0 <= i < 12 ==> tx.data[i] == "block_reward"[i] as int
  }

  /**
   The difficulty of a template: the floor of the initial one times the multiplier during
   the launch guard, otherwise the parent's, which from the window on is at least 1.
   */
  lemma TemplateDifficulty(sha: Sha256, conv: Conversion, g: GenesisConfig, parent: Block, miner: Address,
                           txs: seq<Transaction>, now: Time)
    requires TemplateOn(sha, conv, g, parent, miner, txs, now).Built?
    ensures var h := TemplateOn(sha, conv, g, parent, miner, txs, now).block.header;
      && (h.number == 0 ==> h.difficulty == g.initialDifficulty)
      && (0 < h.number < GuardEnd(g) ==> h.difficulty == GuardFloor(conv, g))
      && (h.number >= GuardEnd(g) && 0 < h.number < g.window ==> h.difficulty == parent.header.difficulty)
      && (h.number >= GuardEnd(g) && h.number > 0 && h.number >= g.window ==>
            h.difficulty == if parent.header.difficulty == 0 then 1 else parent.header.difficulty)
  {
    hide RewardAt, RewardTransaction, BlockHash, Scale;
  }

  /** `uint64(float64(initial) * multiplier)`. */
  function GuardFloor(conv: Conversion, g: GenesisConfig): u64 {
    Scale(conv, g.initialDifficulty, g.guard.floorMultiplier)
  }

  /** A multiplier that keeps the product below 2^64 rounds it down. */
  lemma GuardFloorRounds(conv: Conversion, g: GenesisConfig)
    requires 0.0 <= g.initialDifficulty as real * g.guard.floorMultiplier < TWO64 as real
    ensures GuardFloor(conv, g) == (g.initialDifficulty as real * g.guard.floorMultiplier).Floor
  {
  }

  // ---------- whole runs ----------

  /** What block n carries if every block comes from a template. */
  function Expected(conv: Conversion, g: GenesisConfig, n: nat): u64 {
    var floor := GuardFloor(conv, g);
    if n == 0 then g.initialDifficulty
    else if n < GuardEnd(g) then floor
    else
      var base := if GuardEnd(g) > 1 then floor else g.initialDifficulty;
      if n >= g.window && base == 0 then 1 else base
  }

  predicate Carries(conv: Conversion, g: GenesisConfig, b: Block) {
    b.header.difficulty == Expected(conv, g, b.header.number)
  }

  /** Templates are those of CreateNewBlockV2, and blocks from elsewhere carry the difficulty such a template has. */
  ghost predicate Templated(sha: Sha256, conv: Conversion, g: GenesisConfig, w: Miners.World, e: Miners.Step) {
    match e
    case Take(_, payee, txs, difficulty, now) =>
      w.state.best.Some? ==> Offered(sha, conv, g, w.state.best.value, payee, txs, difficulty, now)
    case SubmitMined(_, _, _) => true
    case SubmitForeign(b) => Carries(conv, g, b)
  }

  ghost predicate AllTemplated(sha: Sha256, conv: Conversion, g: GenesisConfig, w: Miners.World, es: seq<Miners.Step>) {
    forall i :: 0 <= i < |es| ==> Templated(sha, conv, g, Miners.Run(sha, w, es[..i]), es[i])
  }

  /** Every ticket, every accepted block and the tip carry the expected difficulty. */
  predicate Steady(conv: Conversion, g: GenesisConfig, w: Miners.World) {
    && (forall m :: m in w.tickets ==> Carries(conv, g, w.tickets[m].template))
    && (forall i :: 0 <= i < |w.accepted| ==> Carries(conv, g, w.accepted[i]))
    && (w.state.best.Some? ==> Carries(conv, g, w.state.best.value))
  }

  /** The next block of a parent that carries what it should carries what it should. */
  lemma NextCarries(sha: Sha256, conv: Conversion, g: GenesisConfig, parent: Block, miner: Address,
                    txs: seq<Transaction>, now: Time)
    requires TemplateOn(sha, conv, g, parent, miner, txs, now).Built? && Carries(conv, g, parent)
    ensures Carries(conv, g, TemplateOn(sha, conv, g, parent, miner, txs, now).block)
  {
    TemplateDifficulty(sha, conv, g, parent, miner, txs, now);
    TemplateFields(sha, conv, g, parent, miner, txs, now);
    var n: nat := TemplateOn(sha, conv, g, parent, miner, txs, now).block.header.number;
    if n > 0 {
      assert parent.header.number == n - 1;
      ExpectedStep(conv, g, n);
    }
    hide TemplateOn, GuardEnd, GuardFloor, Expected;
    assert Carries(conv, g, parent);
    ExpectedZero(conv, g);
  }

  lemma ExpectedZero(conv: Conversion, g: GenesisConfig)
    ensures Expected(conv, g, 0) == g.initialDifficulty
  {
  }

  lemma ExpectedStep(conv: Conversion, g: GenesisConfig, n: nat)
    requires n > 0
    ensures Expected(conv, g, n) ==
      if n < GuardEnd(g) then GuardFloor(conv, g)
      else if n >= g.window && Expected(conv, g, n - 1) == 0 then 1
      else Expected(conv, g, n - 1)
  {
    hide GuardEnd, GuardFloor;
  }

  lemma TakenCarries(sha: Sha256, conv: Conversion, g: GenesisConfig, parent: Block, payee: Address,
                     txs: seq<Transaction>, difficulty: u64, now: Time)
    requires Carries(conv, g, parent)
    requires Offered(sha, conv, g, parent, payee, txs, difficulty, now)
    ensures Carries(conv, g, Template(sha, parent, payee, txs, difficulty, now))
  {
    var rest :| TemplateOn(sha, conv, g, parent, payee, rest, now)
                == Built(Template(sha, parent, payee, txs, difficulty, now));
    NextCarries(sha, conv, g, parent, payee, rest, now);
    hide Template, TemplateOn, Carries;
  }

  lemma SubmitSteady(conv: Conversion, g: GenesisConfig, w: Miners.World, b: Block)
    requires Steady(conv, g, w) && Carries(conv, g, b)
    ensures Steady(conv, g, Miners.SubmitBlock(w, b))
  {
    hide Carries, Acceptable, ApplyBlock;
  }

  lemma StepSteady(sha: Sha256, conv: Conversion, g: GenesisConfig, w: Miners.World, e: Miners.Step)
    requires Steady(conv, g, w) && Templated(sha, conv, g, w, e)
    ensures Steady(conv, g, Miners.Next(sha, w, e))
  {
    hide Template, TemplateOn, Miners.SubmitBlock, Expected;
    match e
    case Take(miner, payee, txs, difficulty, now) =>
      if w.state.best.Some? && w.state.blocks != [] {
        TakenCarries(sha, conv, g, w.state.best.value, payee, txs, difficulty, now);
      }
    case SubmitMined(miner, nonce, hash) =>
      if miner in w.tickets {
        SubmitSteady(conv, g, w, Miners.Mined(w.tickets[miner].template, nonce, hash));
      }
    case SubmitForeign(b) =>
      SubmitSteady(conv, g, w, b);
  }

  /** Over every run of any miners each accepted block and each template carries the expected difficulty. */
  lemma {:induction false} RunSteady(sha: Sha256, conv: Conversion, g: GenesisConfig, genesis: Block,
                                     es: seq<Miners.Step>)
    requires genesis.header.number == 0 && genesis.header.difficulty == g.initialDifficulty
    requires AllTemplated(sha, conv, g, Miners.Start(genesis), es)
    ensures Steady(conv, g, Miners.Run(sha, Miners.Start(genesis), es))
  {
    if es != [] {
      var last := |es| - 1;
      var before := Miners.Run(sha, Miners.Start(genesis), es[..last]);
      assert forall i :: 0 <= i < last ==> es[..last][..i] == es[..i];
      assert Templated(sha, conv, g, before, es[last]);
      hide Templated, Steady, Miners.Next;
      RunSteady(sha, conv, g, genesis, es[..last]);
      StepSteady(sha, conv, g, before, es[last]);
    }
  }

  /** Without a launch guard, and an initial difficulty of at least 1, it never moves. */
  lemma DifficultyNeverMoves(sha: Sha256, conv: Conversion, g: GenesisConfig, genesis: Block, es: seq<Miners.Step>)
    requires genesis.header.number == 0 && genesis.header.difficulty == g.initialDifficulty
    requires AllTemplated(sha, conv, g, Miners.Start(genesis), es)
    requires !g.guard.enabled && g.initialDifficulty >= 1
    ensures var w := Miners.Run(sha, Miners.Start(genesis), es);
      && (forall i :: 0 <= i < |w.accepted| ==> w.accepted[i].header.difficulty == g.initialDifficulty)
      && (forall m :: m in w.tickets ==> w.tickets[m].template.header.difficulty == g.initialDifficulty)
  {
    RunSteady(sha, conv, g, genesis, es);
    var w := Miners.Run(sha, Miners.Start(genesis), es);
    hide Miners.Run, AllTemplated;
    forall i | 0 <= i < |w.accepted| ensures w.accepted[i].header.difficulty == g.initialDifficulty {
      assert Carries(conv, g, w.accepted[i]);
    }
  }
}
