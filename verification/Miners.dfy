/**
 Any number of miners taking templates and submitting blocks in any interleaving. The
 lock makes taking a parent and adding a block single steps.
 */
module Miners {
  import opened Digits
  import opened Prelude
  import opened Types
  import opened Ledger
  import opened ProofOfWork
  import opened Chain

  /** A template in a miner's hands, and the position of the block it was built on. */
  datatype Ticket = Ticket(template: Block, parent: nat)

  /** The chain, the outstanding templates, and every block accepted since the start, in order. */
  datatype World = World(state: State, tickets: map<nat, Ticket>, accepted: seq<Block>)

  datatype Step =
    | Take(miner: nat, payee: Address, txs: seq<Transaction>, difficulty: u64, now: Time)
    | SubmitMined(miner: nat, nonce: u64, hash: Hash)
    | SubmitForeign(block: Block)

  /** A miner may change nothing but the nonce and the hash. */
  function Mined(template: Block, nonce: u64, hash: Hash): Block {
    Block(template.header.(nonce := nonce), template.txs, hash)
  }

  function SubmitBlock(w: World, b: Block): World {
    w.(state := Submit(w.state, b), accepted := w.accepted + if Acceptable(w.state, b) then [b] else [])
  }

  function Next(sha: Sha256, w: World, e: Step): World {
    match e
    case Take(miner, payee, txs, difficulty, now) =>
      if w.state.best.None? || w.state.blocks == [] then w
      else
        var t := Template(sha, w.state.best.value, payee, txs, difficulty, now);
        w.(tickets := w.tickets[miner := Ticket(t, |w.state.blocks| - 1)])
    case SubmitMined(miner, nonce, hash) =>
      if miner !in w.tickets then w else SubmitBlock(w, Mined(w.tickets[miner].template, nonce, hash))
    case SubmitForeign(b) => SubmitBlock(w, b)
  }

  /** Only block numbers from 1 on are submitted. */
  predicate Allowed(w: World, e: Step) {
    match e
    case Take(_, _, _, _, _) => true
    case SubmitMined(miner, _, _) => miner in w.tickets ==> w.tickets[miner].template.header.number >= 1
    case SubmitForeign(b) => b.header.number >= 1
  }

  function Run(sha: Sha256, w: World, es: seq<Step>): World {
    if es == [] then w else Next(sha, Run(sha, w, es[..|es| - 1]), es[|es| - 1])
  }

  predicate AllAllowed(sha: Sha256, w: World, es: seq<Step>) {
    forall i :: 0 <= i < |es| ==> Allowed(Run(sha, w, es[..i]), es[i])
  }

  function Start(genesis: Block): World {
    World(Accept(EmptyState(), genesis), map[], [])
  }

  /** A ticket names the hash and the successor number of the block it was built on. */
  predicate Honest(s: State, t: Ticket) {
    && t.parent < |s.blocks| <= TWO64
    && t.template.header.parentHash == s.blocks[t.parent].hash
    && t.template.header.number == NextNumber(t.parent)
  }

  predicate Invariant(genesis: Block, w: World) {
    && Shape(w.state) && Reflects(w.state, map[])
    && w.state.blocks == [genesis] + w.accepted
    && forall m :: m in w.tickets ==> Honest(w.state, w.tickets[m])
  }

  lemma SubmitKeepsInvariant(genesis: Block, w: World, b: Block)
    requires Invariant(genesis, w) && b.header.number >= 1
    ensures Invariant(genesis, SubmitBlock(w, b))
  {
    SubmitKeepsShape(w.state, b, map[]);
    var w' := SubmitBlock(w, b);
    PlacedBounded(w'.state);
    hide Acceptable, Shape, Reflects, ApplyBlock;
    forall m | m in w'.tickets ensures Honest(w'.state, w'.tickets[m]) {
      assert Honest(w.state, w.tickets[m]);
    }
  }

  lemma StepKeepsInvariant(sha: Sha256, genesis: Block, w: World, e: Step)
    requires Invariant(genesis, w) && Allowed(w, e)
    ensures Invariant(genesis, Next(sha, w, e))
    ensures w.state.blocks <= Next(sha, w, e).state.blocks
  {
    hide BlockHash, Reflects, Acceptable;
    match e
    case Take(miner, payee, txs, difficulty, now) =>
      PlacedBounded(w.state);
      var last := |w.state.blocks| - 1;
      assert w.state.blocks[last].header.number == last;
    case SubmitMined(miner, nonce, hash) =>
      if miner in w.tickets {
        SubmitKeepsInvariant(genesis, w, Mined(w.tickets[miner].template, nonce, hash));
      }
    case SubmitForeign(b) =>
      SubmitKeepsInvariant(genesis, w, b);
  }

  lemma AllowedPrefix(sha: Sha256, w: World, es: seq<Step>)
    requires es != [] && AllAllowed(sha, w, es)
    ensures AllAllowed(sha, w, es[..|es| - 1])
    ensures Allowed(Run(sha, w, es[..|es| - 1]), es[|es| - 1])
  {
    hide Allowed, Run;
    var front := es[..|es| - 1];
    assert forall i :: 0 <= i < |front| ==> front[..i] == es[..i] && front[i] == es[i];
  }

  /**
   Over every run: block i sits at index i, names block i - 1, is not older than it, the
   height and the best block are the last ones, and the outputs are those of the chain.
   */
  lemma {:induction false} RunKeepsInvariant(sha: Sha256, genesis: Block, es: seq<Step>)
    requires genesis.header.number == 0 && AllAllowed(sha, Start(genesis), es)
    ensures Invariant(genesis, Run(sha, Start(genesis), es))
  {
    if es == [] {
      GenesisShape(EmptyState(), genesis);
    } else {
      AllowedPrefix(sha, Start(genesis), es);
      hide Allowed, AllAllowed, Invariant, Start, Next;
      var last := |es| - 1;
      RunKeepsInvariant(sha, genesis, es[..last]);
      StepKeepsInvariant(sha, genesis, Run(sha, Start(genesis), es[..last]), es[last]);
    }
  }

  /** At most one block per height is ever accepted, over the whole history of acceptances. */
  lemma OneBlockPerHeight(sha: Sha256, genesis: Block, es: seq<Step>, i: nat, j: nat)
    requires genesis.header.number == 0 && AllAllowed(sha, Start(genesis), es)
    requires i < |Run(sha, Start(genesis), es).accepted| && j < |Run(sha, Start(genesis), es).accepted|
    ensures var log := Run(sha, Start(genesis), es).accepted;
      && log[i].header.number == i + 1
      && (log[i].header.number == log[j].header.number ==> i == j)
  {
    RunKeepsInvariant(sha, genesis, es);
    hide Run, Invariant, AllAllowed;
    var w := Run(sha, Start(genesis), es);
    LogNumber(genesis, w, i);
    LogNumber(genesis, w, j);
  }

  lemma LogNumber(genesis: Block, w: World, i: nat)
    requires Invariant(genesis, w) && i < |w.accepted|
    ensures w.accepted[i].header.number == i + 1
  {
    hide Reflects, Honest, Follows;
    assert w.state.blocks[i + 1] == w.accepted[i];
  }

  /** The chain only ever grows at its end. */
  lemma {:induction false} RunExtends(sha: Sha256, genesis: Block, w: World, es: seq<Step>)
    requires Invariant(genesis, w) && AllAllowed(sha, w, es)
    ensures Invariant(genesis, Run(sha, w, es)) && w.state.blocks <= Run(sha, w, es).state.blocks
  {
    if es != [] {
      AllowedPrefix(sha, w, es);
      hide Allowed, AllAllowed, Invariant, Next;
      var last := |es| - 1;
      RunExtends(sha, genesis, w, es[..last]);
      StepKeepsInvariant(sha, genesis, Run(sha, w, es[..last]), es[last]);
    }
  }

  /**
   A mined template is accepted exactly when nothing was accepted since it was taken, its
   time has come and its hash meets the target.
   */
  lemma TicketAcceptedIff(genesis: Block, w: World, miner: nat, nonce: u64, hash: Hash)
    requires Invariant(genesis, w) && miner in w.tickets && w.tickets[miner].template.header.number >= 1
    ensures var t := w.tickets[miner];
      Acceptable(w.state, Mined(t.template, nonce, hash))
      <==> && t.parent == |w.state.blocks| - 1
           && w.state.blocks[t.parent].header.timestamp <= t.template.header.timestamp
           && PassesV2(t.template.header.difficulty, hash)
  {
    hide PassesV2, Reflects;
    var t := w.tickets[miner];
    assert Honest(w.state, t);
    var last := |w.state.blocks| - 1;
    assert w.state.blocks[last].header.number == last;
    assert w.state.best == Some(w.state.blocks[last]);
    hide Linked;
  }

  /** A ticket taken now points at the tip; after any later run it is accepted only if the chain is still the same. */
  lemma TemplateRace(sha: Sha256, genesis: Block, w: World, miner: nat, payee: Address, txs: seq<Transaction>,
                     difficulty: u64, now: Time, es: seq<Step>, nonce: u64, hash: Hash)
    requires Invariant(genesis, w)
    requires var taken := Next(sha, w, Take(miner, payee, txs, difficulty, now));
      && AllAllowed(sha, taken, es)
      && Run(sha, taken, es).tickets.Keys >= {miner}
      && Run(sha, taken, es).tickets[miner] == taken.tickets[miner]
      && taken.tickets[miner].template.header.number >= 1
    ensures var later := Run(sha, Next(sha, w, Take(miner, payee, txs, difficulty, now)), es);
      Acceptable(later.state, Mined(later.tickets[miner].template, nonce, hash))
      <==> && later.state.blocks == w.state.blocks
           && w.state.blocks[|w.state.blocks| - 1].header.timestamp <= now
           && PassesV2(difficulty, hash)
  {
    var take := Take(miner, payee, txs, difficulty, now);
    var taken := Next(sha, w, take);
    StepKeepsInvariant(sha, genesis, w, take);
    RunExtends(sha, genesis, taken, es);
    var later := Run(sha, taken, es);
    TicketAcceptedIff(genesis, later, miner, nonce, hash);
    assert taken.tickets[miner].parent == |w.state.blocks| - 1;
    hide Run, PassesV2, Acceptable, Reflects, BlockHash;
  }

  /**
   The accepted chain, without going through the validation: numbers count up, each block
   names the one before it, no block is older than any earlier one, and beyond difficulty
   20 its hash is below 2^(256 - difficulty).
   */
  lemma ChainFacts(sha: Sha256, genesis: Block, es: seq<Step>)
    requires genesis.header.number == 0 && AllAllowed(sha, Start(genesis), es)
    ensures var blocks := Run(sha, Start(genesis), es).state.blocks;
      && blocks != [] && blocks[0] == genesis
      && (forall i :: 0 <= i < |blocks| ==> blocks[i].header.number == i)
      && (forall i :: 0 < i < |blocks| ==> blocks[i].header.parentHash == blocks[i - 1].hash)
      && (forall i, j :: 0 <= i <= j < |blocks| ==> blocks[i].header.timestamp <= blocks[j].header.timestamp)
      && (forall i :: 0 < i < |blocks| && blocks[i].header.difficulty > 20 ==>
            blocks[i].header.difficulty <= 64
            && Number(blocks[i].hash) < Pow2(256 - blocks[i].header.difficulty))
  {
    RunKeepsInvariant(sha, genesis, es);
    var blocks := Run(sha, Start(genesis), es).state.blocks;
    hide Run, AllAllowed, Honest, Reflects, PassesV2, Pow2, Number;
    forall i, j | 0 <= i <= j < |blocks| ensures blocks[i].header.timestamp <= blocks[j].header.timestamp {
      NeverOlder(blocks, i, j);
    }
    forall i | 0 < i < |blocks| && blocks[i].header.difficulty > 20
      ensures blocks[i].header.difficulty <= 64 && Number(blocks[i].hash) < Pow2(256 - blocks[i].header.difficulty)
    {
      assert Follows(blocks[i - 1], blocks[i]);
      PassesV2Iff(blocks[i].header.difficulty, blocks[i].hash);
    }
  }

  lemma {:induction false} NeverOlder(blocks: seq<Block>, i: nat, j: nat)
    requires Linked(blocks) && i <= j < |blocks|
    ensures blocks[i].header.timestamp <= blocks[j].header.timestamp
  {
    if i < j {
      NeverOlder(blocks, i, j - 1);
      assert Follows(blocks[j - 1], blocks[j]);
    }
  }
}
