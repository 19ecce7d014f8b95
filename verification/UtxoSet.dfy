/**
 The UTXOSet object of core/utxo.go. Its methods change the map in place; each is tied to
 the ledger function of the same name.
 */
module UtxoSet {
  import opened Types
  import opened Ledger
  import opened Payments

  class UTXOSet {
    var utxos: Utxos

    /** Entries are filed under their own hash and index. */
    ghost predicate Valid()
      reads this
    {
      WellKeyed(utxos)
    }

    constructor ()
      ensures Valid() && utxos == map[]
    {
      utxos := map[];
    }

    method AddUTXO(txHash: Hash, index: u32, amount: u64, address: Address, blockHash: Hash)
      requires Valid()
      modifies this
      ensures Valid() && utxos == Add(old(utxos), OutPoint(txHash, index), amount, address, blockHash)
    {
      utxos := utxos[OutPoint(txHash, index) := Utxo(txHash, index, amount, address, false, blockHash)];
    }

    method SpendUTXO(txHash: Hash, index: u32) returns (ok: bool)
      requires Valid()
      modifies this
      ensures Valid() && utxos == Spend(old(utxos), OutPoint(txHash, index))
      ensures ok == Spendable(old(utxos), OutPoint(txHash, index))
    {
      var key := OutPoint(txHash, index);
      if key in utxos && !utxos[key].spent {
        utxos := utxos[key := utxos[key].(spent := true)];
        return true;
      }
      ok := false;
    }

    /** The map is walked in an arbitrary order. */
    method GetUTXOs(address: Address) returns (result: seq<Utxo>)
      requires Valid()
      ensures Enumerates(utxos, address, result)
    {
      result := [];
      var rest := utxos.Keys;
      while rest != {}
        invariant rest <= utxos.Keys
        invariant forall i :: 0 <= i < |result| ==>
          Spendable(utxos, KeyOf(result[i])) && utxos[KeyOf(result[i])] == result[i]
          && result[i].address == address && KeyOf(result[i]) !in rest
        invariant forall i, j :: 0 <= i < j < |result| ==> KeyOf(result[i]) != KeyOf(result[j])
        invariant forall k :: k in utxos && k !in rest && Spendable(utxos, k) && utxos[k].address == address ==>
          utxos[k] in result
        decreases rest
      {
        var key :| key in rest;
        rest := rest - {key};
        var utxo := utxos[key];
        if utxo.address == address && !utxo.spent {
          assert KeyOf(utxo) == key;
          result := result + [utxo];
        }
      }
    }

    /** The sum wraps at 64 bits. */
    method GetBalance(address: Address) returns (balance: u64)
      requires Valid()
      ensures balance == Wrap64(Balance(utxos, address))
    {
      var us := GetUTXOs(address);
      EnumerationSum(utxos, address, us);
      balance := WrappedSum(us);
    }

    method RemoveUTXOs(blockHash: Hash)
      requires Valid()
      modifies this
      ensures Valid() && utxos == RemoveBlock(old(utxos), blockHash)
    {
      var rest := utxos.Keys;
      while rest != {}
        invariant rest <= old(utxos).Keys && utxos.Keys <= old(utxos).Keys
        invariant forall k :: k in utxos ==> utxos[k] == old(utxos)[k]
        invariant forall k :: k in old(utxos) ==>
          (k in utxos <==> k in rest || old(utxos)[k].blockHash != blockHash)
        decreases rest
      {
        var key :| key in rest;
        rest := rest - {key};
        if utxos[key].blockHash == blockHash {
          utxos := utxos - {key};
        }
      }
    }
  }

  /** `balance += utxo.Amount` over a list. */
  method WrappedSum(us: seq<Utxo>) returns (sum: u64)
    ensures sum == Wrap64(PrefixSum(us, |us|))
  {
    sum := 0;
    for i := 0 to |us|
      invariant sum == Wrap64(PrefixSum(us, i))
    {
      sum := Wrap64(sum + us[i].amount);
    }
  }
}
