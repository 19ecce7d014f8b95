/**
 How mineBlock of mining/randomx.go divides the nonces between its workers, and that the
 division misses none and shares none.
 */
module NonceRange {
  import opened Prelude
  import opened Types
  import opened ProofOfWork
  import opened Digits

  datatype Range = Range(from: u64, to: u64)

  /** The 64-bit computation of one worker's range; the last worker takes the rest. */
  function RangeOf(start: u64, end: u64, threads: nat, worker: nat): Range
    requires threads >= 1
  {
    var nonceRange := Quotient(Wrap64(end - start), threads);
    var from := Wrap64(start + worker * nonceRange);
    Range(from, if worker == threads - 1 then end else Wrap64(from + nonceRange))
  }

  /** The worker a nonce falls to. */
  function OwnerOf(start: u64, end: u64, threads: nat, nonce: u64): nat
    requires threads >= 1 && start <= nonce < end
  {
    var nonceRange := Quotient(end - start, threads);
    if nonceRange == 0 then threads - 1
    else
      var w := Quotient(nonce - start, nonceRange);
      if w >= threads then threads - 1 else w
  }

  /** No worker's range overflows or leaves the interval. */
  lemma RangeExact(start: u64, end: u64, threads: nat, worker: nat)
    requires threads >= 1 && start <= end && worker < threads
    ensures var step := Quotient(end - start, threads);
      var r := RangeOf(start, end, threads, worker);
      && r.from == start + worker * step
      && r.to == (if worker == threads - 1 then end else start + (worker + 1) * step)
      && start <= r.from <= r.to <= end
  {
    var step := Quotient(end - start, threads);
    StepBounds(end - start, threads, worker);
    RangeUnwrapped(start, end, threads, worker, step, worker * step);
    hide *;
  }

  /** In 64 bits nothing wraps as long as the worker's last nonce is in the interval. */
  lemma RangeUnwrapped(start: u64, end: u64, threads: nat, worker: nat, step: nat, low: nat)
    requires threads >= 1 && start <= end && step == Quotient(end - start, threads) && low == worker * step
    requires start + low + step <= end
    ensures RangeOf(start, end, threads, worker)
      == Range(start + low, if worker == threads - 1 then end else start + low + step)
  {
    Unwrapped(end - start);
    Unwrapped(start + low);
    Unwrapped(start + low + step);
    hide Quotient, Wrap64;
  }

  lemma StepBounds(length: nat, threads: nat, worker: nat)
    requires worker < threads
    ensures var step := Quotient(length, threads);
      (worker + 1) * step == worker * step + step <= length
  {
    DivMod(length, threads);
    var step := Quotient(length, threads);
    hide Quotient, Remainder;
    MulMonotone(worker + 1, threads, step);
    MulSplit(worker, 1, step);
    Commutes(threads, step);
  }

  /** Every nonce of [start, end) belongs to exactly one worker, and no worker has any other. */
  lemma RangesPartition(start: u64, end: u64, threads: nat, worker: nat, nonce: u64)
    requires threads >= 1 && start <= end && worker < threads
    ensures RangeOf(start, end, threads, worker).from <= nonce < RangeOf(start, end, threads, worker).to
      <==> start <= nonce < end && OwnerOf(start, end, threads, nonce) == worker
  {
    var step := Quotient(end - start, threads);
    RangeExact(start, end, threads, worker);
    hide RangeOf, Quotient;
    if start <= nonce < end && step > 0 {
      var w := Quotient(nonce - start, step);
      DivMod(nonce - start, step);
      MulSplit(w, 1, step);
      MulSplit(worker, 1, step);
      if worker <= w {
        MulMonotone(worker, w, step);
      }
      if w <= worker {
        MulMonotone(w, worker, step);
      }
      if worker + 1 <= w {
        MulMonotone(worker + 1, w, step);
      }
      if w + 1 <= worker {
        MulMonotone(w + 1, worker, step);
      }
    }
  }

  lemma OwnerIsWorker(start: u64, end: u64, threads: nat, nonce: u64)
    requires threads >= 1 && start <= nonce < end
    ensures OwnerOf(start, end, threads, nonce) < threads
  {
  }

  /** The comparison of the RandomX miner's isValidHash, as an inequality. */
  predicate Valid(hashOf: u64 -> Hash, target: seq<byte>, nonce: u64) {
    Number(hashOf(nonce)) <= Value(target, 8)
  }

  /** The nonce loop of one worker; the stop signal is seen at the latest after `attempts` nonces. */
  method MineBlock(hashOf: u64 -> Hash, target: seq<byte>, start: u64, end: u64,
                   threads: nat, worker: nat, attempts: nat)
    returns (found: Option<u64>)
    requires |target| == 32 && threads >= 1 && start <= end && worker < threads
    ensures var range := RangeOf(start, end, threads, worker);
      found.Some? ==>
        && range.from <= found.value < range.to
        && Valid(hashOf, target, found.value)
        && forall n: u64 :: range.from <= n < found.value ==> !Valid(hashOf, target, n)
    ensures var range := RangeOf(start, end, threads, worker);
      found.None? && attempts >= end - start ==>
        forall n: u64 :: range.from <= n < range.to ==> !Valid(hashOf, target, n)
  {
    RangeExact(start, end, threads, worker);
    var range := RangeOf(start, end, threads, worker);
    hide RangeOf;
    var nonce: nat := range.from;
    var tried := 0;
    while nonce < range.to && tried < attempts
      invariant range.from <= nonce <= range.to && tried == nonce - range.from
      invariant forall n: u64 :: range.from <= n < nonce ==> !Valid(hashOf, target, n)
      decreases range.to - nonce
    {
      var ok := IsValidHash(hashOf(nonce), target);
      if ok {
        return Some(nonce);
      }
      nonce := nonce + 1;
      tried := tried + 1;
    }
    found := None;
  }
}
