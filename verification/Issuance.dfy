/**
 Block rewards, their total, the fee split and the difficulty of the next block. The
 program's float64 products are taken as real products, then rounded down.
 */
module Issuance {
  import opened Prelude
  import opened Types

  datatype Halving = Halving(afterBlocks: u64, multiplier: real)

  datatype LaunchGuard = LaunchGuard(enabled: bool, durationHours: u64, floorMultiplier: real)

  datatype GenesisConfig = GenesisConfig(
    initialBlockReward: real, halvings: seq<Halving>, blockTimeTarget: u64,
    initialDifficulty: u64, window: u64, guard: LaunchGuard, blockFeeRate: real, txFeeShareTreasury: real)

  /**
   The conversion `uint64(f)`. Within the 64-bit range it drops the fraction; outside, Go
   leaves the result to the platform, so nothing is said about it.
   */
  type Conversion = f: real -> u64 | forall x: real :: 0.0 <= x < TWO64 as real ==> f(x) == x.Floor
    witness (x: real) => if 0.0 <= x < TWO64 as real then Below(x, TWO64) else 0

  function Below(x: real, limit: nat): (n: nat)
    requires 0.0 <= x < limit as real
    ensures n == x.Floor && n < limit
  {
    x.Floor
  }

  /** `uint64(float64(x) * m)`. */
  function Scale(conv: Conversion, x: u64, m: real): u64 {
    conv(x as real * m)
  }

  /** An exact share, before rounding. */
  function Share(x: nat, m: real): real {
    x as real * m
  }

  predicate UnitInterval(m: real) { 0.0 <= m <= 1.0 }

  predicate GoodSchedule(hs: seq<Halving>) {
    forall i :: 0 <= i < |hs| ==> UnitInterval(hs[i].multiplier)
  }

  /** The reward after the first halvings, for block n: every event already passed multiplies again. */
  function Rewarded(conv: Conversion, base: u64, hs: seq<Halving>, n: u64): u64 {
    if hs == [] then base
    else
      var last := hs[|hs| - 1];
      var r := Rewarded(conv, base, hs[..|hs| - 1], n);
      if n > last.afterBlocks then Scale(conv, r, last.multiplier) else r
  }

  function BaseReward(conv: Conversion, g: GenesisConfig): u64 {
    conv(g.initialBlockReward * 1_000_000.0)
  }

  function RewardAt(conv: Conversion, g: GenesisConfig, n: u64): u64 {
    Rewarded(conv, BaseReward(conv, g), g.halvings, n)
  }

  /** The loop of calculateBlockReward. */
  method CalculateBlockReward(conv: Conversion, g: GenesisConfig, n: u64) returns (reward: u64)
    ensures reward == RewardAt(conv, g, n)
  {
    hide Scale;
    assert g.halvings[..0] == [];
    reward := BaseReward(conv, g);
    for i := 0 to |g.halvings|
      invariant reward == Rewarded(conv, BaseReward(conv, g), g.halvings[..i], n)
    {
      assert g.halvings[..i + 1][..i] == g.halvings[..i];
      if n > g.halvings[i].afterBlocks {
        reward := Scale(conv, reward, g.halvings[i].multiplier);
      }
    }
    assert g.halvings[..|g.halvings|] == g.halvings;
  }

  /** A multiplier of at most one stays in range and rounds the product down. */
  lemma ScaleRounds(conv: Conversion, x: u64, m: real)
    requires UnitInterval(m)
    ensures Scale(conv, x, m) == Share(x, m).Floor <= x
    ensures Share(x, m) - 1.0 < Scale(conv, x, m) as real <= Share(x, m)
  {
    var share := x as real * m;
    assert 0.0 <= share <= x as real * 1.0;
    assert share.Floor as real <= share;
    assert conv(share) == share.Floor;
  }

  lemma ScaleMonotone(conv: Conversion, x: u64, y: u64, m: real)
    requires x <= y && UnitInterval(m)
    ensures Scale(conv, x, m) <= Scale(conv, y, m)
  {
    ScaleRounds(conv, x, m);
    ScaleRounds(conv, y, m);
    ShareMonotone(x, y, m);
    FloorMonotone(Share(x, m), Share(y, m));
    hide *;
  }

  lemma ShareMonotone(x: nat, y: nat, m: real)
    requires x <= y && 0.0 <= m
    ensures Share(x, m) <= Share(y, m)
  {
    var d := (y - x) as real;
    assert y as real == x as real + d;
    assert d * m >= 0.0;
  }

  lemma FloorMonotone(a: real, b: real)
    requires a <= b
    ensures a.Floor <= b.Floor
  {
  }

  /** Rewards never rise with the height, whatever order the schedule lists its events in. */
  lemma {:induction false} RewardAntitone(conv: Conversion, base: u64, hs: seq<Halving>, n: u64, k: u64)
    requires GoodSchedule(hs) && n <= k
    ensures Rewarded(conv, base, hs, k) <= Rewarded(conv, base, hs, n) <= base
  {
    if hs != [] {
      var front, m := hs[..|hs| - 1], hs[|hs| - 1].multiplier;
      RewardAntitone(conv, base, front, n, k);
      var a, b := Rewarded(conv, base, front, k), Rewarded(conv, base, front, n);
      assert UnitInterval(m);
      hide Scale;
      ScaleMonotone(conv, a, b, m);
      ScaleRounds(conv, a, m);
      ScaleRounds(conv, b, m);
    }
  }

  // ---------- total issuance ----------

  /** The rewards of blocks lo + 1 .. n. */
  function RewardSum(conv: Conversion, base: u64, hs: seq<Halving>, lo: nat, n: nat): nat
    requires lo <= n < TWO64
  {
    if n == lo then 0 else RewardSum(conv, base, hs, lo, n - 1) + Rewarded(conv, base, hs, n)
  }

  predicate Sorted(hs: seq<Halving>) {
    forall i, j :: 0 <= i < j < |hs| ==> hs[i].afterBlocks <= hs[j].afterBlocks
  }

  function Times(reward: nat, count: nat): nat {
    reward * count
  }

  /** Piecewise linear: a constant reward up to each event, then the scaled reward. */
  function Issued(conv: Conversion, reward: u64, hs: seq<Halving>, lo: nat, n: nat): nat
    requires lo <= n
    decreases |hs|
  {
    if hs == [] || n <= hs[0].afterBlocks then Times(reward, n - lo)
    else
      var after, scaled, rest := hs[0].afterBlocks, Scale(conv, reward, hs[0].multiplier), hs[1..];
      if after <= lo then Issued(conv, scaled, rest, lo, n)
      else Times(reward, after - lo) + Issued(conv, scaled, rest, after, n)
  }

  /** An event already passed can be applied first. */
  lemma {:induction false} RewardedFirst(conv: Conversion, base: u64, hs: seq<Halving>, n: u64)
    requires hs != []
    ensures Rewarded(conv, base, hs, n)
      == Rewarded(conv, if n > hs[0].afterBlocks then Scale(conv, base, hs[0].multiplier) else base, hs[1..], n)
    decreases |hs|
  {
    hide Scale;
    var k := |hs| - 1;
    if k > 0 {
      RewardedFirst(conv, base, hs[..k], n);
      assert hs[..k][1..] == hs[1..][..k - 1];
    } else {
      assert hs[..0] == [] && hs[1..] == [];
      assert Rewarded(conv, base, hs[..0], n) == base;
    }
  }

  /** In a sorted schedule nothing happens up to the first event. */
  lemma {:induction false} RewardedEarly(conv: Conversion, base: u64, hs: seq<Halving>, n: u64)
    requires forall i :: 0 <= i < |hs| ==> n <= hs[i].afterBlocks
    ensures Rewarded(conv, base, hs, n) == base
  {
    if hs != [] { RewardedEarly(conv, base, hs[..|hs| - 1], n); }
  }

  lemma {:induction false} SumSplitAt(conv: Conversion, base: u64, hs: seq<Halving>, lo: nat, mid: nat, n: nat)
    requires lo <= mid <= n < TWO64
    ensures RewardSum(conv, base, hs, lo, n) == RewardSum(conv, base, hs, lo, mid) + RewardSum(conv, base, hs, mid, n)
  {
    if mid < n { SumSplitAt(conv, base, hs, lo, mid, n - 1); }
  }

  lemma {:induction false} SumEarly(conv: Conversion, base: u64, hs: seq<Halving>, lo: nat, n: nat)
    requires lo <= n < TWO64 && forall i :: 0 <= i < |hs| ==> n <= hs[i].afterBlocks
    ensures RewardSum(conv, base, hs, lo, n) == base * (n - lo)
  {
    if lo < n {
      SumEarly(conv, base, hs, lo, n - 1);
      RewardedEarly(conv, base, hs, n);
      assert base * (n - lo) == base * (n - 1 - lo) + base;
    }
  }

  lemma {:induction false} SumLate(conv: Conversion, base: u64, hs: seq<Halving>, lo: nat, n: nat)
    requires hs != [] && hs[0].afterBlocks <= lo <= n < TWO64
    ensures RewardSum(conv, base, hs, lo, n) == RewardSum(conv, Scale(conv, base, hs[0].multiplier), hs[1..], lo, n)
  {
    if lo < n {
      SumLate(conv, base, hs, lo, n - 1);
      RewardedFirst(conv, base, hs, n);
      hide Scale;
    }
  }

  /** The sum of the rewards is the piecewise-linear closed form. */
  lemma {:induction false} RewardSumClosed(conv: Conversion, base: u64, hs: seq<Halving>, lo: nat, n: nat)
    requires Sorted(hs) && lo <= n < TWO64
    ensures RewardSum(conv, base, hs, lo, n) == Issued(conv, base, hs, lo, n)
    decreases |hs|
  {
    if hs == [] || n <= hs[0].afterBlocks {
      SumEarly(conv, base, hs, lo, n);
    } else {
      var after, rest := hs[0].afterBlocks, hs[1..];
      var start := if after <= lo then lo else after;
      assert Sorted(rest);
      SumSplitAt(conv, base, hs, lo, start, n);
      SumEarlyUpTo(conv, base, hs, lo, start);
      SumLate(conv, base, hs, start, n);
      hide Scale;
      RewardSumClosed(conv, Scale(conv, base, hs[0].multiplier), rest, start, n);
    }
  }

  lemma SumEarlyUpTo(conv: Conversion, base: u64, hs: seq<Halving>, lo: nat, start: nat)
    requires Sorted(hs) && hs != [] && lo <= start < TWO64
    requires start == if hs[0].afterBlocks <= lo then lo else hs[0].afterBlocks
    ensures RewardSum(conv, base, hs, lo, start) == base * (start - lo)
  {
    if hs[0].afterBlocks > lo {
      SumEarly(conv, base, hs, lo, start);
    } else {
      assert base * (start - lo) == 0;
    }
  }

  // ---------- the fee split ----------

  datatype BlockReward = BlockReward(miner: u64, treasury: u64, total: u64)

  /** CalculateNetworkFees, with the reward already in smallest units. */
  function NetworkFees(conv: Conversion, g: GenesisConfig, reward: u64, txFees: u64): BlockReward
  {
    var treasuryFromBlock := Scale(conv, reward, g.blockFeeRate);
    var treasuryFromTx := Scale(conv, txFees, g.txFeeShareTreasury);
    BlockReward(Wrap64(Wrap64(reward - treasuryFromBlock) + Wrap64(txFees - treasuryFromTx)),
                Wrap64(treasuryFromBlock + treasuryFromTx), Wrap64(reward + txFees))
  }

  datatype Income = Income(reward: u64, txFees: u64)

  predicate Fits(bs: seq<Income>) {
    forall i :: 0 <= i < |bs| ==> bs[i].reward + bs[i].txFees < TWO64
  }

  function MinerSum(conv: Conversion, g: GenesisConfig, bs: seq<Income>): nat
  {
    if bs == [] then 0 else MinerSum(conv, g, bs[1..]) + NetworkFees(conv, g, bs[0].reward, bs[0].txFees).miner
  }

  function TreasurySum(conv: Conversion, g: GenesisConfig, bs: seq<Income>): nat
  {
    if bs == [] then 0 else TreasurySum(conv, g, bs[1..]) + NetworkFees(conv, g, bs[0].reward, bs[0].txFees).treasury
  }

  function IncomeSum(bs: seq<Income>): nat {
    if bs == [] then 0 else IncomeSum(bs[1..]) + bs[0].reward + bs[0].txFees
  }

  /** What the treasury is due, before rounding. */
  function ExactShare(g: GenesisConfig, bs: seq<Income>): real {
    if bs == [] then 0.0
    else ExactShare(g, bs[1..]) + (Share(bs[0].reward, g.blockFeeRate) + Share(bs[0].txFees, g.txFeeShareTreasury))
  }

  lemma FeesUnwrapped(conv: Conversion, g: GenesisConfig, b: Income)
    requires UnitInterval(g.blockFeeRate) && UnitInterval(g.txFeeShareTreasury) && b.reward + b.txFees < TWO64
    ensures var treasury := Scale(conv, b.reward, g.blockFeeRate) + Scale(conv, b.txFees, g.txFeeShareTreasury);
      && treasury <= b.reward + b.txFees
      && NetworkFees(conv, g, b.reward, b.txFees)
        == BlockReward(b.reward + b.txFees - treasury, treasury, b.reward + b.txFees)
  {
    hide Scale, Wrap64;
    ScaleRounds(conv, b.reward, g.blockFeeRate);
    ScaleRounds(conv, b.txFees, g.txFeeShareTreasury);
    var x, y := Scale(conv, b.reward, g.blockFeeRate), Scale(conv, b.txFees, g.txFeeShareTreasury);
    Unwrapped(b.reward - x);
    Unwrapped(b.txFees - y);
    Unwrapped(b.reward - x + (b.txFees - y));
    Unwrapped(x + y);
    Unwrapped(b.reward + b.txFees);
  }

  /** One block: nothing lost, and the treasury's part is rounded down by less than two units. */
  lemma FeesOfOneBlock(conv: Conversion, g: GenesisConfig, b: Income)
    requires UnitInterval(g.blockFeeRate) && UnitInterval(g.txFeeShareTreasury) && b.reward + b.txFees < TWO64
    ensures var r := NetworkFees(conv, g, b.reward, b.txFees);
      var share := Share(b.reward, g.blockFeeRate) + Share(b.txFees, g.txFeeShareTreasury);
      && r.miner + r.treasury == r.total == b.reward + b.txFees
      && share - 2.0 < r.treasury as real <= share
  {
    FeesUnwrapped(conv, g, b);
    hide Scale, Share, NetworkFees;
    ScaleRounds(conv, b.reward, g.blockFeeRate);
    ScaleRounds(conv, b.txFees, g.txFeeShareTreasury);
  }

  /** Over n blocks every unit is paid out once, and the treasury is short by less than 2n units. */
  lemma {:induction false} FeesConserve(conv: Conversion, g: GenesisConfig, bs: seq<Income>)
    requires UnitInterval(g.blockFeeRate) && UnitInterval(g.txFeeShareTreasury) && Fits(bs)
    ensures MinerSum(conv, g, bs) + TreasurySum(conv, g, bs) == IncomeSum(bs)
    ensures TreasurySum(conv, g, bs) as real <= ExactShare(g, bs)
    ensures bs != [] ==> ExactShare(g, bs) - TreasurySum(conv, g, bs) as real < 2.0 * |bs| as real
    ensures bs == [] ==> ExactShare(g, bs) == 0.0
  {
    if bs != [] {
      FeesConserve(conv, g, bs[1..]);
      hide NetworkFees, Share;
      FeesOfOneBlock(conv, g, bs[0]);
    }
  }

  /** Whatever the rates, the two parts add up to the total modulo 2^64. */
  lemma FeesAddUp(conv: Conversion, g: GenesisConfig, reward: u64, txFees: u64)
    ensures var r := NetworkFees(conv, g, reward, txFees);
      && r.total == Wrap64(reward + txFees)
      && Wrap64(r.miner + r.treasury) == r.total
  {
    var x: int, y: int := Scale(conv, reward, g.blockFeeRate), Scale(conv, txFees, g.txFeeShareTreasury);
    hide Scale, Wrap64;
    WrapOfSum(reward - x, txFees - y);
    WrapOfSum(reward - x + (txFees - y), x + y);
  }

  lemma WrapOfSum(x: int, y: int)
    ensures Wrap64(Wrap64(x) + Wrap64(y)) == Wrap64(x + y)
  {
    var q := x / TWO64 + y / TWO64;
    assert x + y == Wrap64(x) + Wrap64(y) + q * TWO64;
  }

  // ---------- difficulty of the next block ----------

  /**
   CalculateDifficulty of core/consensus.go; its adjustment factor is the constant 1. None
   is the division by zero of a launch guard without a block time.
   */
  function NextDifficulty(conv: Conversion, g: GenesisConfig, height: u64, parent: u64): Option<u64> {
    if height == 0 then Some(g.initialDifficulty)
    else if g.guard.enabled && g.blockTimeTarget == 0 then None
    else if g.guard.enabled && height < Wrap64(g.guard.durationHours * 3600) / g.blockTimeTarget
    then Some(Scale(conv, g.initialDifficulty, g.guard.floorMultiplier))
    else Some(if height < g.window || parent >= 1 then parent else 1)
  }

  // ---------- the schedule of the main network ----------

  /** The three halving events of its genesis file. */
  function MainSchedule(): seq<Halving> {
    [Halving(259_200, 0.5), Halving(777_600, 0.25), Halving(1_814_400, 0.125)]
  }

  /** Five coins of a million units each, and multipliers that multiply up. */
  lemma MainRewards(conv: Conversion, g: GenesisConfig, n: u64)
    requires g.initialBlockReward == 5.0 && g.halvings == MainSchedule()
    ensures RewardAt(conv, g, n) ==
      if n <= 259_200 then 5_000_000
      else if n <= 777_600 then 2_500_000
      else if n <= 1_814_400 then 625_000
      else 78_125
  {
    assert BaseReward(conv, g) == 5_000_000;
    assert Scale(conv, 5_000_000, 0.5) == 2_500_000 && Scale(conv, 2_500_000, 0.25) == 625_000;
    assert Scale(conv, 625_000, 0.125) == 78_125;
    var hs := MainSchedule();
    hide Scale, BaseReward;
    assert hs[..3] == hs && hs[..2][..1] == hs[..1] && hs[..1][..0] == [] && hs[..3][..2] == hs[..2];
    assert Rewarded(conv, 5_000_000, hs[..1], n) == if n > 259_200 then 2_500_000 else 5_000_000;
    assert Rewarded(conv, 5_000_000, hs[..2], n)
      == if n > 777_600 then 625_000 else Rewarded(conv, 5_000_000, hs[..1], n);
  }
}
