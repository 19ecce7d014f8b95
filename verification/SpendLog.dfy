/**
 Counting over any sequence of AddUTXO and SpendUTXO calls: an output can be spent at
 most once for each time it was added.
 */
module SpendLog {
  import opened Types
  import opened Ledger

  datatype Call =
    | AddCall(key: OutPoint, amount: u64, address: Address, blockHash: Hash)
    | SpendCall(key: OutPoint)

  function Perform(m: Utxos, c: Call): Utxos {
    match c
    case AddCall(k, amount, address, blockHash) => Add(m, k, amount, address, blockHash)
    case SpendCall(k) => Spend(m, k)
  }

  function PerformAll(m: Utxos, calls: seq<Call>): Utxos {
    if calls == [] then m else Perform(PerformAll(m, calls[..|calls| - 1]), calls[|calls| - 1])
  }

  /** Calls AddUTXO(k). */
  function Adds(calls: seq<Call>, k: OutPoint): nat {
    if calls == [] then 0
    else
      var c := calls[|calls| - 1];
      Adds(calls[..|calls| - 1], k) + if c.AddCall? && c.key == k then 1 else 0
  }

  /** Calls SpendUTXO(k) that returned true. */
  function Successes(m: Utxos, calls: seq<Call>, k: OutPoint): nat {
    if calls == [] then 0
    else
      var front, c := calls[..|calls| - 1], calls[|calls| - 1];
      Successes(m, front, k) + if c.SpendCall? && c.key == k && Spendable(PerformAll(m, front), k) then 1 else 0
  }

  /** Calls AddUTXO(k) that overwrote an entry still unspent. */
  function Losses(m: Utxos, calls: seq<Call>, k: OutPoint): nat {
    if calls == [] then 0
    else
      var front, c := calls[..|calls| - 1], calls[|calls| - 1];
      Losses(m, front, k) + if c.AddCall? && c.key == k && Spendable(PerformAll(m, front), k) then 1 else 0
  }

  function Held(m: Utxos, k: OutPoint): nat {
    if Spendable(m, k) then 1 else 0
  }

  /** Every addition ends in exactly one way: spent once, overwritten, or still held. */
  lemma {:induction false} EveryAdditionAccountedFor(m: Utxos, calls: seq<Call>, k: OutPoint)
    ensures Held(m, k) + Adds(calls, k) == Successes(m, calls, k) + Losses(m, calls, k) + Held(PerformAll(m, calls), k)
  {
    if calls != [] {
      EveryAdditionAccountedFor(m, calls[..|calls| - 1], k);
    }
  }

  /** Starting from the empty set, spends never outnumber additions. */
  lemma NoDoubleSpend(calls: seq<Call>, k: OutPoint)
    ensures Successes(map[], calls, k) <= Adds(calls, k)
  {
    EveryAdditionAccountedFor(map[], calls, k);
  }
}
