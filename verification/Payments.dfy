/**
 CreateTransaction of core/blockchain.go: coin selection over the sender's unspent
 outputs, in whatever order the map yields them, with 64-bit wrap-around.
 */
module Payments {
  import opened Prelude
  import opened Types
  import opened Ledger
  import opened Conservation
  import Undo

  const TWO63: nat := 0x8000_0000_0000_0000

  datatype PaymentError = InsufficientBalance

  function KeyOf(u: Utxo): OutPoint {
    OutPoint(u.txHash, u.index)
  }

  /** Entries carry the hash and index they are filed under. */
  predicate WellKeyed(m: Utxos) {
    forall k :: k in m ==> KeyOf(m[k]) == k
  }

  /** us lists the unspent outputs of a, each once, in some order. */
  predicate Enumerates(m: Utxos, a: Address, us: seq<Utxo>) {
    && (forall i :: 0 <= i < |us| ==> Spendable(m, KeyOf(us[i])) && m[KeyOf(us[i])] == us[i] && us[i].address == a)
    && (forall i, j :: 0 <= i < j < |us| ==> KeyOf(us[i]) != KeyOf(us[j]))
    && (forall k :: k in m ==> Spendable(m, k) && m[k].address == a ==> m[k] in us)
  }

  function PrefixSum(us: seq<Utxo>, n: nat): nat
    requires n <= |us|
  {
    if n == 0 then 0 else PrefixSum(us, n - 1) + us[n - 1].amount
  }

  /** How many outputs the selection loop takes, given that it took n so far. */
  function TakenFrom(us: seq<Utxo>, need: u64, n: nat): (r: nat)
    requires n <= |us|
    ensures n <= r <= |us|
    ensures r < |us| ==> Wrap64(PrefixSum(us, r)) >= need
    ensures forall i :: n <= i < r ==> Wrap64(PrefixSum(us, i)) < need
    decreases |us| - n
  {
    if n == |us| || Wrap64(PrefixSum(us, n)) >= need then n else TakenFrom(us, need, n + 1)
  }

  function InputFor(u: Utxo): TxInput {
    TxInput(u.txHash, u.index, [])
  }

  function InputsFor(us: seq<Utxo>, n: nat): (inputs: seq<TxInput>)
    requires n <= |us|
    ensures |inputs| == n
  {
    seq(n, i requires 0 <= i < n => InputFor(us[i]))
  }

  function Change(us: seq<Utxo>, n: nat, amount: u64, fee: u64): u64
    requires n <= |us|
  {
    Wrap64(PrefixSum(us, n) - amount - fee)
  }

  function OutputsFor(from: Address, to: Address, amount: u64, change: u64): seq<TxOutput> {
    [TxOutput(to, amount)] + if change > 0 then [TxOutput(from, change)] else []
  }

  function Unhashed(inputs: seq<TxInput>, outputs: seq<TxOutput>, from: Address, to: Address,
                    amount: u64, fee: u64, now: Time): Transaction
  {
    Transaction(from, to, amount, 0, fee, 0, 0, [], [], ZeroHash(), inputs, outputs, now)
  }

  function Hashed(sha: Sha256, tx: Transaction): Transaction {
    tx.(hash := TransactionHash(sha, tx))
  }

  function Payment(sha: Sha256, us: seq<Utxo>, from: Address, to: Address,
                   amount: u64, fee: u64, now: Time): Result<Transaction, PaymentError>
  {
    var need := Wrap64(amount + fee);
    if Wrap64(PrefixSum(us, |us|)) < need then Err(InsufficientBalance)
    else
      var n := TakenFrom(us, need, 0);
      var outputs := OutputsFor(from, to, amount, Change(us, n, amount, fee));
      Ok(Hashed(sha, Unhashed(InputsFor(us, n), outputs, from, to, amount, fee, now)))
  }

  /** The selection loop, step by step. */
  lemma SelectionStart(us: seq<Utxo>)
    ensures InputsFor(us, 0) == [] && Wrap64(PrefixSum(us, 0)) == 0
  {
  }

  lemma SelectionStep(us: seq<Utxo>, need: u64, n: nat)
    requires n < |us|
    ensures InputsFor(us, n + 1) == InputsFor(us, n) + [InputFor(us[n])]
    ensures Wrap64(PrefixSum(us, n + 1)) == Wrap64(Wrap64(PrefixSum(us, n)) + us[n].amount)
    ensures Wrap64(PrefixSum(us, n)) < need ==> TakenFrom(us, need, n) == TakenFrom(us, need, n + 1)
  {
  }

  /** Subtracting from the wrapped sum wraps to the same change. */
  lemma ChangeOfWrapped(us: seq<Utxo>, n: nat, amount: u64, fee: u64)
    requires n <= |us|
    ensures Wrap64(Wrap64(PrefixSum(us, n)) - amount - fee) == Change(us, n, amount, fee)
  {
    var x := PrefixSum(us, n);
    hide PrefixSum;
    WrapShift(Wrap64(x) - amount - fee, x / TWO64);
  }

  lemma WrapShift(y: int, q: int)
    ensures Wrap64(y + q * TWO64) == Wrap64(y)
  {
  }

  lemma SelectionStop(us: seq<Utxo>, need: u64, n: nat)
    requires n <= |us| && (n == |us| || Wrap64(PrefixSum(us, n)) >= need)
    ensures TakenFrom(us, need, n) == n
  {
  }

  // ---------- the selection, without overflow ----------

  lemma {:induction false} PrefixSumMonotone(us: seq<Utxo>, i: nat, j: nat)
    requires i <= j <= |us|
    ensures PrefixSum(us, i) <= PrefixSum(us, j)
  {
    if i < j { PrefixSumMonotone(us, i, j - 1); }
  }

  lemma OutputSumOfPayment(from: Address, to: Address, amount: u64, change: u64)
    ensures OutputSum(OutputsFor(from, to, amount, change)) == amount + change
  {
    var a, b := TxOutput(to, amount), TxOutput(from, change);
    assert OutputSum([a]) == OutputSum([a][..0]) + amount;
    assert [a, b][..1] == [a];
  }

  lemma {:induction false} InputSumOfSelection(m: Utxos, a: Address, us: seq<Utxo>, n: nat)
    requires Enumerates(m, a, us) && n <= |us|
    ensures InputSum(m, InputsFor(us, n)) == PrefixSum(us, n)
  {
    if n > 0 {
      InputSumOfSelection(m, a, us, n - 1);
      assert InputsFor(us, n)[..n - 1] == InputsFor(us, n - 1);
      assert InputKey(InputsFor(us, n)[n - 1]) == KeyOf(us[n - 1]);
    }
  }

  /** The whole enumeration is worth the balance. */
  lemma EnumerationSum(m: Utxos, a: Address, us: seq<Utxo>)
    requires Enumerates(m, a, us) && WellKeyed(m)
    ensures PrefixSum(us, |us|) == Balance(m, a)
  {
    PrefixBalance(m, a, us, |us|);
    var rest := m - Listed(us, |us|);
    forall k | k in rest ensures Owned({a})(rest[k]) == 0 {
      NotListed(m, a, us, k);
    }
    SumZero(rest, Owned({a}));
  }

  /** The keys of the first n listed outputs. */
  function Listed(us: seq<Utxo>, n: nat): set<OutPoint>
    requires n <= |us|
  {
    set i | 0 <= i < n :: KeyOf(us[i])
  }

  lemma NotListed(m: Utxos, a: Address, us: seq<Utxo>, k: OutPoint)
    requires Enumerates(m, a, us) && WellKeyed(m) && k in m && k !in Listed(us, |us|)
    ensures Owned({a})(m[k]) == 0
  {
  }

  lemma {:induction false} SumZero(m: Utxos, w: Weight)
    requires forall k :: k in m ==> w(m[k]) == 0
    ensures Sum(m, w) == 0
  {
    if m != map[] {
      var k :| k in m;
      SumSplit(m, w, k);
      SumZero(m - {k}, w);
    }
  }

  lemma ListedEntry(m: Utxos, a: Address, us: seq<Utxo>, n: nat)
    requires Enumerates(m, a, us) && n < |us|
    ensures var k := KeyOf(us[n]);
      && k in m && k !in Listed(us, n) && Owned({a})(m[k]) == us[n].amount
      && Listed(us, n + 1) == Listed(us, n) + {k}
  {
  }

  lemma {:induction false} PrefixBalance(m: Utxos, a: Address, us: seq<Utxo>, n: nat)
    requires Enumerates(m, a, us) && n <= |us|
    ensures Balance(m, a) == PrefixSum(us, n) + Sum(m - Listed(us, n), Owned({a}))
  {
    hide Enumerates, Sum, Owned;
    if n == 0 {
      assert m - Listed(us, n) == m;
    } else {
      hide Listed;
      PrefixBalance(m, a, us, n - 1);
      RestStep(m, a, us, n - 1);
    }
  }

  lemma RestStep(m: Utxos, a: Address, us: seq<Utxo>, n: nat)
    requires Enumerates(m, a, us) && n < |us|
    ensures Sum(m - Listed(us, n), Owned({a})) == us[n].amount + Sum(m - Listed(us, n + 1), Owned({a}))
  {
    ListedEntry(m, a, us, n);
    var k := KeyOf(us[n]);
    hide Enumerates, KeyOf, Listed;
    var before := m - Listed(us, n);
    SumSplit(before, Owned({a}), k);
    assert before - {k} == m - Listed(us, n + 1);
  }

  /** The two sums involved fit in 64 bits. */
  predicate NoOverflow(us: seq<Utxo>, amount: u64, fee: u64) {
    PrefixSum(us, |us|) < TWO64 && amount + fee < TWO64
  }

  /**
   Without overflow a payment succeeds exactly when the balance covers it; it spends
   distinct unspent outputs of the sender, its inputs are worth exactly its outputs plus
   its fee, and no input is superfluous.
   */
  lemma PaymentCorrect(sha: Sha256, m: Utxos, us: seq<Utxo>, from: Address, to: Address,
                       amount: u64, fee: u64, now: Time)
    requires WellKeyed(m) && Enumerates(m, from, us) && NoOverflow(us, amount, fee)
    ensures var r := Payment(sha, us, from, to, amount, fee, now);
      && (r.Ok? <==> Balance(m, from) >= amount + fee)
      && (r.Ok? ==>
        var tx := r.value;
        && DistinctInputs(tx.inputs) && InputsHeld(m, tx.inputs)
        && (forall i :: 0 <= i < |tx.inputs| ==> m[InputKey(tx.inputs[i])].address == from)
        && InputSum(m, tx.inputs) == OutputSum(tx.outputs) + tx.fee
        && tx.fee == fee && tx.outputs[0] == TxOutput(to, amount) && |tx.outputs| <= 2
        && (forall i :: 1 <= i < |tx.outputs| ==> tx.outputs[i].address == from)
        && (tx.inputs != [] ==> InputSum(m, tx.inputs[..|tx.inputs| - 1]) < amount + fee))
  {
    EnumerationSum(m, from, us);
    PaymentShape(sha, us, from, to, amount, fee, now);
    if Balance(m, from) >= amount + fee {
      SelectionCovers(us, amount, fee);
      var n := TakenFrom(us, amount + fee, 0);
      SelectedInputs(m, from, us, n);
      OutputSumOfPayment(from, to, amount, Change(us, n, amount, fee));
    }
    hide Payment, Enumerates, WellKeyed, InputsHeld, DistinctInputs, InputSum, PrefixSum, OutputSum;
    hide TakenFrom, Change, TransactionHash, InputsFor, Balance;
  }

  /** Without overflow the guard compares the true sums. */
  lemma PaymentShape(sha: Sha256, us: seq<Utxo>, from: Address, to: Address, amount: u64, fee: u64, now: Time)
    requires NoOverflow(us, amount, fee)
    ensures var n := TakenFrom(us, amount + fee, 0);
      Payment(sha, us, from, to, amount, fee, now)
      == if PrefixSum(us, |us|) < amount + fee then Err(InsufficientBalance)
         else Ok(Hashed(sha, Unhashed(InputsFor(us, n), OutputsFor(from, to, amount, Change(us, n, amount, fee)),
                                      from, to, amount, fee, now)))
  {
    hide PrefixSum, TakenFrom, InputsFor, OutputsFor, Hashed, Change;
  }

  /** Any selection of n listed outputs. */
  lemma SelectedInputs(m: Utxos, a: Address, us: seq<Utxo>, n: nat)
    requires Enumerates(m, a, us) && n <= |us|
    ensures var inputs := InputsFor(us, n);
      && DistinctInputs(inputs) && InputsHeld(m, inputs)
      && (forall i :: 0 <= i < n ==> m[InputKey(inputs[i])].address == a)
      && InputSum(m, inputs) == PrefixSum(us, n)
      && (n > 0 ==> InputSum(m, inputs[..n - 1]) == PrefixSum(us, n - 1))
  {
    var inputs := InputsFor(us, n);
    assert forall i :: 0 <= i < n ==> InputKey(inputs[i]) == KeyOf(us[i]);
    hide InputSum, PrefixSum, InputKey, KeyOf;
    SelectionSums(m, a, us, n);
  }

  lemma SelectionSums(m: Utxos, a: Address, us: seq<Utxo>, n: nat)
    requires Enumerates(m, a, us) && n <= |us|
    ensures var inputs := InputsFor(us, n);
      && InputSum(m, inputs) == PrefixSum(us, n)
      && (n > 0 ==> InputSum(m, inputs[..n - 1]) == PrefixSum(us, n - 1))
  {
    InputSumOfSelection(m, a, us, n);
    if n > 0 {
      InputSumOfSelection(m, a, us, n - 1);
      hide Enumerates, InputSum, PrefixSum, InputFor;
      assert InputsFor(us, n)[..n - 1] == InputsFor(us, n - 1);
    }
  }

  /** The selection loop stops with just enough, so the change does not underflow. */
  lemma SelectionCovers(us: seq<Utxo>, amount: u64, fee: u64)
    requires NoOverflow(us, amount, fee) && PrefixSum(us, |us|) >= amount + fee
    ensures var n := TakenFrom(us, amount + fee, 0);
      && PrefixSum(us, n) >= amount + fee
      && (n > 0 ==> PrefixSum(us, n - 1) < amount + fee)
      && Change(us, n, amount, fee) == PrefixSum(us, n) - amount - fee
  {
    var n := TakenFrom(us, amount + fee, 0);
    PrefixSumMonotone(us, n, |us|);
    if n > 0 {
      PrefixSumMonotone(us, n - 1, |us|);
    }
  }

  /** A selection that satisfies the wrapped comparison gives a change that does not wrap below zero. */
  lemma ChangeOfCovered(us: seq<Utxo>, n: nat, amount: u64, fee: u64)
    requires n <= |us| && Wrap64(PrefixSum(us, n)) >= Wrap64(amount + fee)
    ensures PrefixSum(us, n) == amount + Change(us, n, amount, fee) + fee + Wraps(us, n, amount, fee) * TWO64
  {
    var sum, need := PrefixSum(us, n), amount + fee;
    hide PrefixSum;
    var d := sum / TWO64 - need / TWO64;
    WrapShift(Wrap64(sum) - Wrap64(need), d);
    assert sum - need == Wrap64(sum) - Wrap64(need) + d * TWO64;
  }

  /** How often the inputs wrapped around, beyond amount plus fee. */
  function Wraps(us: seq<Utxo>, n: nat, amount: u64, fee: u64): int
    requires n <= |us|
  {
    PrefixSum(us, n) / TWO64 - (amount + fee) / TWO64
  }

  /**
   Every payment that is built, whatever the balance: the inputs exceed outputs and fee by
   2^64 for each time the selected sum wrapped around and amount plus fee did not.
   */
  lemma PaymentEquation(sha: Sha256, m: Utxos, us: seq<Utxo>, from: Address, to: Address,
                        amount: u64, fee: u64, now: Time)
    requires Enumerates(m, from, us) && Payment(sha, us, from, to, amount, fee, now).Ok?
    ensures var tx := Payment(sha, us, from, to, amount, fee, now).value;
      && tx.inputs == InputsFor(us, TakenFrom(us, Wrap64(amount + fee), 0))
      && InputSum(m, tx.inputs) == OutputSum(tx.outputs) + tx.fee + Wraps(us, |tx.inputs|, amount, fee) * TWO64
  {
    var tx := Payment(sha, us, from, to, amount, fee, now).value;
    var n := TakenFrom(us, Wrap64(amount + fee), 0);
    assert tx.inputs == InputsFor(us, n);
    assert tx.outputs == OutputsFor(from, to, amount, Change(us, n, amount, fee)) && tx.fee == fee;
    assert Wrap64(PrefixSum(us, n)) >= Wrap64(amount + fee);
    hide *;
    InputSumOfSelection(m, from, us, n);
    ChangeOfCovered(us, n, amount, fee);
    OutputSumOfPayment(from, to, amount, Change(us, n, amount, fee));
  }

  /** So a payment balances exactly when both sums wrapped around equally often. */
  lemma PaymentBalancesIff(sha: Sha256, m: Utxos, us: seq<Utxo>, from: Address, to: Address,
                           amount: u64, fee: u64, now: Time)
    requires Enumerates(m, from, us) && Payment(sha, us, from, to, amount, fee, now).Ok?
    ensures var tx := Payment(sha, us, from, to, amount, fee, now).value;
      InputSum(m, tx.inputs) == OutputSum(tx.outputs) + tx.fee
      <==> PrefixSum(us, |tx.inputs|) / TWO64 == (amount + fee) / TWO64
  {
    PaymentEquation(sha, m, us, from, to, amount, fee, now);
    var n := TakenFrom(us, Wrap64(amount + fee), 0);
    assert Wraps(us, n, amount, fee) == PrefixSum(us, n) / TWO64 - (amount + fee) / TWO64;
    hide *;
    NoMultiple(Wraps(us, n, amount, fee));
  }

  lemma NoMultiple(d: int)
    ensures d * TWO64 == 0 <==> d == 0
  {
  }

  /** With a balance of 64 bits that is: exactly when amount plus fee did not wrap around. */
  lemma SmallBalanceIff(sha: Sha256, m: Utxos, us: seq<Utxo>, from: Address, to: Address,
                        amount: u64, fee: u64, now: Time)
    requires Enumerates(m, from, us) && Payment(sha, us, from, to, amount, fee, now).Ok?
    requires PrefixSum(us, |us|) < TWO64
    ensures var tx := Payment(sha, us, from, to, amount, fee, now).value;
      InputSum(m, tx.inputs) == OutputSum(tx.outputs) + tx.fee <==> amount + fee < TWO64
  {
    PaymentBalancesIff(sha, m, us, from, to, amount, fee, now);
    var n := TakenFrom(us, Wrap64(amount + fee), 0);
    PrefixSumMonotone(us, n, |us|);
    assert |Payment(sha, us, from, to, amount, fee, now).value.inputs| == n;
    hide *;
    assert PrefixSum(us, n) / TWO64 == 0;
    assert (amount + fee) / TWO64 == 0 <==> amount + fee < TWO64;
  }

  /** An input on which it fails: an empty wallet pays 2^64 - 1 with fee 1. */
  lemma OverflowingPayment(sha: Sha256, from: Address, to: Address, now: Time)
    ensures var r := Payment(sha, [], from, to, TWO64 - 1, 1, now);
      r.Ok? && r.value.inputs == [] && r.value.outputs == [TxOutput(to, TWO64 - 1)]
  {
  }

  /**
   Another one, with a small amount: three outputs worth 2^64 more than the payment needs
   are all spent, and only the wrapped rest comes back.
   */
  lemma OverflowingBalance(sha: Sha256, us: seq<Utxo>, from: Address, to: Address, now: Time)
    requires |us| == 3 && us[0].amount == TWO63 && us[1].amount == TWO63 && us[2].amount == TWO63 + 5
    ensures var r := Payment(sha, us, from, to, TWO63 + 1, 0, now);
      && r.Ok? && |r.value.inputs| == 3
      && r.value.outputs == [TxOutput(to, TWO63 + 1), TxOutput(from, 4)]
      && PrefixSum(us, 3) == OutputSum(r.value.outputs) + TWO64
  {
    assert PrefixSum(us, 0) == 0 && PrefixSum(us, 1) == TWO63 && PrefixSum(us, 2) == TWO64;
    assert PrefixSum(us, 3) == TWO64 + TWO63 + 5;
    OutputSumOfPayment(from, to, TWO63 + 1, 4);
    ThreeTaken(us);
  }

  lemma ThreeTaken(us: seq<Utxo>)
    requires |us| == 3 && us[0].amount == TWO63 && us[1].amount == TWO63
    ensures TakenFrom(us, TWO63 + 1, 0) == 3
  {
    assert PrefixSum(us, 0) == 0 && PrefixSum(us, 1) == TWO63 && PrefixSum(us, 2) == TWO64;
    assert TakenFrom(us, TWO63 + 1, 2) == 3;
    assert TakenFrom(us, TWO63 + 1, 1) == 3;
  }

  // ---------- repeated payments ----------

  /** The hash covers only sender, receiver, amount and fee: a second identical payment has the same hash. */
  lemma RepeatedPaymentSameHash(sha: Sha256, us: seq<Utxo>, vs: seq<Utxo>, from: Address, to: Address,
                                amount: u64, fee: u64, now: Time, later: Time)
    requires Payment(sha, us, from, to, amount, fee, now).Ok? && Payment(sha, vs, from, to, amount, fee, later).Ok?
    ensures Payment(sha, us, from, to, amount, fee, now).value.hash
      == Payment(sha, vs, from, to, amount, fee, later).value.hash
  {
    var s := Payment(sha, us, from, to, amount, fee, now).value;
    var t := Payment(sha, vs, from, to, amount, fee, later).value;
    assert TransactionBytes(s) == TransactionBytes(t);
  }

  /** Applied while the first one's output is unspent and not among its inputs, it destroys that output. */
  lemma RepeatedPaymentLoses(m: Utxos, tx: Transaction, blockHash: Hash)
    requires DistinctInputs(tx.inputs) && InputsHeld(m, tx.inputs) && tx.outputs != []
    requires Spendable(m, OutputKey(tx.hash, 0)) && m[OutputKey(tx.hash, 0)].amount > 0
    requires OutputKey(tx.hash, 0) !in Undo.InputKeys(tx.inputs)
    ensures Total(ApplyTransaction(m, tx, blockHash)) + InputSum(m, tx.inputs) < Total(m) + OutputSum(tx.outputs)
  {
    TransferConservesIff(m, tx, blockHash);
    LedgerEquation(m, tx, blockHash);
    SpentValueOfHeld(m, tx.inputs);
    assert OutputKey(tx.hash, 0) in Undo.CreatedKeys(tx.hash, tx.outputs);
  }
}
