/**
 The supply at a height of the chain: any number of miners build the chain from templates
 that pay the schedule, and the value on it is accounted for block by block.
 */
module ChainSupply {
  import opened Types
  import opened Ledger
  import opened Issuance
  import opened Chain
  import opened Blockchain
  import Miners
  import Supply

  /** The block pays the schedule of its own number. */
  predicate PaysOwnNumber(conv: Conversion, g: GenesisConfig, b: Block) {
    Supply.Pays(conv, g, b, b.header.number)
  }

  /** Templates are those of CreateNewBlockV2, and blocks from elsewhere pay the same schedule. */
  ghost predicate Paying(sha: Sha256, conv: Conversion, g: GenesisConfig, w: Miners.World, e: Miners.Step) {
    match e
    case Take(_, payee, txs, difficulty, now) =>
      w.state.best.Some? ==> Offered(sha, conv, g, w.state.best.value, payee, txs, difficulty, now)
    case SubmitMined(_, _, _) => true
    case SubmitForeign(b) => PaysOwnNumber(conv, g, b)
  }

  ghost predicate AllPaying(sha: Sha256, conv: Conversion, g: GenesisConfig, w: Miners.World, es: seq<Miners.Step>) {
    forall i :: 0 <= i < |es| ==> Paying(sha, conv, g, Miners.Run(sha, w, es[..i]), es[i])
  }

  /** Every ticket and every accepted block pays its own number. */
  predicate Honoured(conv: Conversion, g: GenesisConfig, w: Miners.World) {
    && (forall m :: m in w.tickets ==> PaysOwnNumber(conv, g, w.tickets[m].template))
    && (forall i :: 0 <= i < |w.accepted| ==> PaysOwnNumber(conv, g, w.accepted[i]))
  }

  /** Mining changes neither the number nor the transactions. */
  lemma MinedPays(conv: Conversion, g: GenesisConfig, template: Block, nonce: u64, hash: Hash)
    requires PaysOwnNumber(conv, g, template)
    ensures PaysOwnNumber(conv, g, Miners.Mined(template, nonce, hash))
  {
  }

  lemma SubmitHonoured(conv: Conversion, g: GenesisConfig, w: Miners.World, b: Block)
    requires Honoured(conv, g, w) && PaysOwnNumber(conv, g, b)
    ensures Honoured(conv, g, Miners.SubmitBlock(w, b))
  {
    hide PaysOwnNumber, Acceptable;
  }

  lemma StepHonoured(sha: Sha256, conv: Conversion, g: GenesisConfig, w: Miners.World, e: Miners.Step)
    requires Honoured(conv, g, w) && Paying(sha, conv, g, w, e)
    ensures Honoured(conv, g, Miners.Next(sha, w, e))
  {
    hide PaysOwnNumber, Template, TemplateOn, Miners.SubmitBlock;
    match e
    case Take(miner, payee, txs, difficulty, now) =>
      if w.state.best.Some? && w.state.blocks != [] {
        TakenPays(sha, conv, g, w.state.best.value, payee, txs, difficulty, now);
      }
    case SubmitMined(miner, nonce, hash) =>
      if miner in w.tickets {
        MinedPays(conv, g, w.tickets[miner].template, nonce, hash);
        SubmitHonoured(conv, g, w, Miners.Mined(w.tickets[miner].template, nonce, hash));
      }
    case SubmitForeign(b) =>
      SubmitHonoured(conv, g, w, b);
  }

  lemma TakenPays(sha: Sha256, conv: Conversion, g: GenesisConfig, parent: Block, payee: Address,
                  txs: seq<Transaction>, difficulty: u64, now: Time)
    requires Offered(sha, conv, g, parent, payee, txs, difficulty, now)
    ensures PaysOwnNumber(conv, g, Template(sha, parent, payee, txs, difficulty, now))
  {
    var rest :| TemplateOn(sha, conv, g, parent, payee, rest, now)
                == Built(Template(sha, parent, payee, txs, difficulty, now));
    TemplatePaysSchedule(sha, conv, g, parent, payee, rest, now);
    hide Template, TemplateOn, RewardAt;
  }

  lemma {:induction false} RunHonoured(sha: Sha256, conv: Conversion, g: GenesisConfig, genesis: Block,
                                       es: seq<Miners.Step>)
    requires AllPaying(sha, conv, g, Miners.Start(genesis), es)
    ensures Honoured(conv, g, Miners.Run(sha, Miners.Start(genesis), es))
  {
    if es != [] {
      var last := |es| - 1;
      var before := Miners.Run(sha, Miners.Start(genesis), es[..last]);
      assert forall i :: 0 <= i < last ==> es[..last][..i] == es[..i];
      assert Paying(sha, conv, g, before, es[last]);
      hide Paying, Honoured, Miners.Next;
      RunHonoured(sha, conv, g, genesis, es[..last]);
      StepHonoured(sha, conv, g, before, es[last]);
    }
  }

  /** Accepted blocks carry the numbers 1, 2, ... so each pays the schedule of its position. */
  lemma AcceptedScheduled(conv: Conversion, g: GenesisConfig, genesis: Block, w: Miners.World)
    requires Miners.Invariant(genesis, w) && Honoured(conv, g, w)
    ensures Supply.Scheduled(conv, g, w.accepted) && w.state.height == |w.accepted|
  {
    hide Reflects, Supply.Pays;
    forall i: nat | i < |w.accepted| ensures Supply.Pays(conv, g, w.accepted[i], i + 1) {
      Miners.LogNumber(genesis, w, i);
      assert PaysOwnNumber(conv, g, w.accepted[i]);
    }
  }

  /** The genesis block has no transactions, so the outputs are those of the accepted blocks. */
  lemma {:induction false} GenesisAddsNothing(genesis: Block, blocks: seq<Block>)
    requires genesis.txs == []
    ensures ApplyBlocks(map[], [genesis] + blocks) == ApplyBlocks(map[], blocks)
  {
    var all := [genesis] + blocks;
    var n := |blocks|;
    if n == 0 {
      assert all[..0] == [];
      EmptyBlock(map[], genesis);
      assert ApplyBlocks(map[], all) == ApplyBlock(ApplyBlocks(map[], all[..0]), all[0]);
    } else {
      GenesisAddsNothing(genesis, blocks[..n - 1]);
      assert all[..n] == [genesis] + blocks[..n - 1];
    }
  }

  /**
   For any interleaving of miners whose templates follow the schedule, and any history of
   payments that ended up in the accepted blocks: at every height the node's unspent total
   is what the schedule has issued up to that height, minus the fees burned.
   */
  lemma SupplyAtHeight(sha: Sha256, conv: Conversion, g: GenesisConfig, genesis: Block,
                       steps: seq<Miners.Step>, es: seq<Supply.Event>)
    requires genesis.header.number == 0 && genesis.txs == [] && Sorted(g.halvings)
    requires Miners.AllAllowed(sha, Miners.Start(genesis), steps)
    requires AllPaying(sha, conv, g, Miners.Start(genesis), steps)
    requires Supply.AllAllowed(sha, Supply.State(map[], {}, 0, 0), es)
    requires Supply.MinedBlocks(es) == Miners.Run(sha, Miners.Start(genesis), steps).accepted
    ensures var node := Miners.Run(sha, Miners.Start(genesis), steps).state;
      var s := Supply.Run(sha, Supply.State(map[], {}, 0, 0), es);
      && node.utxos == s.utxos
      && Total(node.utxos) + s.fees == Issued(conv, BaseReward(conv, g), g.halvings, 0, node.height)
  {
    var w := Miners.Run(sha, Miners.Start(genesis), steps);
    Miners.RunKeepsInvariant(sha, genesis, steps);
    RunHonoured(sha, conv, g, genesis, steps);
    AcceptedScheduled(conv, g, genesis, w);
    GenesisAddsNothing(genesis, w.accepted);
    Supply.RunAppliesBlocks(sha, es);
    assert w.state.utxos == ApplyBlocks(map[], w.state.blocks);
    hide Supply.Run, Miners.Run, Supply.Scheduled, Supply.AllAllowed;
    Supply.SupplyClosedForm(sha, conv, g, es);
  }
}
