/**
 What the hashes cover, byte by byte: block headers, transactions and block rewards. Equal
 hashes then mean equal fields, or two colliding inputs, and a tip hash binds its history.
 */
module Layout {
  import opened Digits
  import opened Prelude
  import opened Types
  import opened Ledger
  import opened Payments
  import opened Issuance
  import opened Chain
  import opened ProofOfWork
  import opened Merkle

  const SECOND: int := 1_000_000_000

  /** Big-endian fields are read back as the number written. */
  lemma FieldValue(x: nat)
    ensures x < TWO32 ==> Value(Bytes4(x), 8) == x
    ensures x < TWO64 ==> Value(Bytes8(x), 8) == x
  {
    Pow2Small();
    if x < TWO32 { ValueOfGroups(x, 4, 8); }
    if x < TWO64 { ValueOfGroups(x, 8, 8); }
  }

  /** The most significant byte comes first. */
  lemma BigEndian()
    ensures Bytes4(0x01020304) == [1, 2, 3, 4]
  {
    Pow2Small();
    GroupsOfValue([1, 2, 3, 4], 8);
    ValueOfFour(1, 2, 3, 4);
  }

  lemma ValueOfFour(a: byte, b: byte, c: byte, d: byte)
    ensures Value([a, b, c, d], 8) == ((a * 256 + b) * 256 + c) * 256 + d
  {
    Pow2Small();
    ValueSnoc([], a, 8);
    ValueSnoc([a], b, 8);
    ValueSnoc([a, b], c, 8);
    ValueSnoc([a, b, c], d, 8);
    assert [] + [a] == [a] && [a] + [b] == [a, b] && [a, b] + [c] == [a, b, c] && [a, b, c] + [d] == [a, b, c, d];
  }

  // ---------- block headers ----------

  /** Where each of the ten fields is among the 136 bytes; time is in whole seconds. */
  predicate HeaderAt(d: seq<byte>, h: BlockHeader) {
    && |d| == 136
    && d[..32] == h.parentHash
    && Value(d[32..40], 8) == h.number
    && Value(d[40..48], 8) == h.timestamp / SECOND % TWO64
    && Value(d[48..56], 8) == h.difficulty
    && d[56..76] == h.miner
    && Value(d[76..84], 8) == h.nonce
    && d[84..116] == h.merkleRoot
    && Value(d[116..120], 8) == h.txCount
    && Value(d[120..128], 8) == h.networkFee
    && Value(d[128..136], 8) == h.treasuryFee
  }

  lemma HeaderSlices(h: BlockHeader)
    ensures var d := HeaderBytes(h);
      && |d| == 136
      && d[..32] == h.parentHash && d[32..40] == Bytes8(h.number)
      && d[40..48] == Bytes8(Wrap64(UnixSeconds(h.timestamp))) && d[48..56] == Bytes8(h.difficulty)
      && d[56..76] == h.miner && d[76..84] == Bytes8(h.nonce) && d[84..116] == h.merkleRoot
      && d[116..120] == Bytes4(h.txCount) && d[120..128] == Bytes8(h.networkFee)
      && d[128..136] == Bytes8(h.treasuryFee)
  {
    hide Bytes4, Bytes8, UnixSeconds, Wrap64;
  }

  /** A block hash is the hash of exactly these bytes. */
  lemma HeaderLayout(sha: Sha256, h: BlockHeader)
    ensures BlockHash(sha, h) == sha(HeaderBytes(h)) && HeaderAt(HeaderBytes(h), h)
  {
    HeaderSlices(h);
    hide HeaderBytes, Bytes4, Bytes8, Value;
    FieldValue(h.number);
    FieldValue(Wrap64(UnixSeconds(h.timestamp)));
    FieldValue(h.difficulty);
    FieldValue(h.nonce);
    FieldValue(h.txCount);
    FieldValue(h.networkFee);
    FieldValue(h.treasuryFee);
  }

  predicate SameHeader(g: BlockHeader, h: BlockHeader) {
    && g.parentHash == h.parentHash && g.number == h.number
    && g.timestamp / SECOND % TWO64 == h.timestamp / SECOND % TWO64
    && g.difficulty == h.difficulty && g.miner == h.miner && g.nonce == h.nonce && g.merkleRoot == h.merkleRoot
    && g.txCount == h.txCount && g.networkFee == h.networkFee && g.treasuryFee == h.treasuryFee
  }

  /** The bytes are equal exactly when all ten fields are, times to the second and modulo 2^64. */
  lemma HeaderBytesIff(g: BlockHeader, h: BlockHeader)
    ensures HeaderBytes(g) == HeaderBytes(h) <==> SameHeader(g, h)
  {
    if HeaderBytes(g) == HeaderBytes(h) {
      HeaderLayout(_ => ZeroHash(), g);
      HeaderLayout(_ => ZeroHash(), h);
      hide HeaderBytes, Value;
    } else {
      hide Bytes4, Bytes8;
    }
  }

  function HeaderPair(g: BlockHeader, h: BlockHeader): (seq<byte>, seq<byte>) {
    (HeaderBytes(g), HeaderBytes(h))
  }

  /** Equal block hashes: equal headers, or a collision. */
  lemma BlockHashBinds(sha: Sha256, g: BlockHeader, h: BlockHeader)
    requires BlockHash(sha, g) == BlockHash(sha, h)
    ensures SameHeader(g, h) || Collides(sha, HeaderPair(g, h))
  {
    HeaderBytesIff(g, h);
    hide HeaderBytes, SameHeader;
  }

  // ---------- the miner's search ----------

  /**
   A candidate is the template with the tried nonce and the hash of its own bytes, and two
   nonces never hash the same bytes: the search does not repeat itself below 2^64 attempts.
   */
  lemma CandidatesDiffer(sha: Sha256, template: Block, m: u64, n: u64)
    requires m != n
    ensures var b, c := Candidate(template, sha, m), Candidate(template, sha, n);
      && b.header == template.header.(nonce := m) && b.txs == template.txs
      && b.hash == sha(HeaderBytes(b.header)) && HeaderAt(HeaderBytes(b.header), b.header)
      && HeaderBytes(b.header) != HeaderBytes(c.header)
      && (b.hash != c.hash || Collides(sha, HeaderPair(b.header, c.header)))
  {
    var b, c := Candidate(template, sha, m), Candidate(template, sha, n);
    HeaderLayout(sha, b.header);
    HeaderBytesIff(b.header, c.header);
    hide HeaderBytes, HeaderAt;
  }

  // ---------- a tip binds its history ----------

  /** Every block carries the hash of its own header. */
  predicate SelfHashed(sha: Sha256, blocks: seq<Block>) {
    forall i :: 0 <= i < |blocks| ==> blocks[i].hash == BlockHash(sha, blocks[i].header)
  }

  predicate SameHeaders(xs: seq<Block>, ys: seq<Block>) {
    |xs| == |ys| && forall i :: 0 <= i < |xs| ==> SameHeader(xs[i].header, ys[i].header)
  }

  /** The first difference below the tips. */
  function HistoryPair(xs: seq<Block>, ys: seq<Block>): (seq<byte>, seq<byte>)
    requires xs != [] && ys != []
    decreases |xs|
  {
    var i, j := |xs| - 1, |ys| - 1;
    if SameHeader(xs[i].header, ys[j].header) && i > 0 && j > 0 then HistoryPair(xs[..i], ys[..j])
    else HeaderPair(xs[i].header, ys[j].header)
  }

  lemma LinkedFront(blocks: seq<Block>)
    requires |blocks| > 1 && Linked(blocks)
    ensures Linked(blocks[..|blocks| - 1])
    ensures blocks[|blocks| - 1].header.parentHash == blocks[|blocks| - 2].hash
    ensures blocks[|blocks| - 1].header.number == |blocks| - 1
  {
  }

  /** Two chains with the same tip hash have the same headers throughout, or a collision is computed. */
  lemma {:induction false} TipBindsHistory(sha: Sha256, xs: seq<Block>, ys: seq<Block>)
    requires xs != [] && ys != [] && Linked(xs) && Linked(ys) && SelfHashed(sha, xs) && SelfHashed(sha, ys)
    requires xs[|xs| - 1].hash == ys[|ys| - 1].hash
    ensures SameHeaders(xs, ys) || Collides(sha, HistoryPair(xs, ys))
    decreases |xs|
  {
    var i, j := |xs| - 1, |ys| - 1;
    BlockHashBinds(sha, xs[i].header, ys[j].header);
    assert xs[i].header.number == i && ys[j].header.number == j;
    if SameHeader(xs[i].header, ys[j].header) && i > 0 {
      LinkedFront(xs);
      LinkedFront(ys);
      FrontHashed(sha, xs);
      FrontHashed(sha, ys);
      hide Linked, HeaderPair, Collides, SelfHashed, SameHeader;
      TipBindsHistory(sha, xs[..i], ys[..j]);
      if SameHeaders(xs[..i], ys[..j]) {
        SameHeadersSnoc(xs, ys);
      }
    }
  }

  lemma FrontHashed(sha: Sha256, xs: seq<Block>)
    requires xs != [] && SelfHashed(sha, xs)
    ensures SelfHashed(sha, xs[..|xs| - 1])
  {
  }

  lemma SameHeadersSnoc(xs: seq<Block>, ys: seq<Block>)
    requires xs != [] && ys != [] && SameHeaders(xs[..|xs| - 1], ys[..|ys| - 1])
    requires SameHeader(xs[|xs| - 1].header, ys[|ys| - 1].header)
    ensures SameHeaders(xs, ys)
  {
    hide SameHeader;
    var i := |xs| - 1;
    forall k | 0 <= k < |xs| ensures SameHeader(xs[k].header, ys[k].header) {
      if k < i { assert SameHeader(xs[..i][k].header, ys[..i][k].header); }
    }
  }

  // ---------- transactions ----------

  /** The 80 fixed bytes of a transaction and the data behind them. */
  predicate TransactionAt(d: seq<byte>, tx: Transaction) {
    && |d| == 80 + |tx.data|
    && d[..20] == tx.from && d[20..40] == tx.to
    && Value(d[40..48], 8) == tx.amount && Value(d[48..56], 8) == tx.nonce && Value(d[56..64], 8) == tx.fee
    && Value(d[64..72], 8) == tx.gasUsed && Value(d[72..80], 8) == tx.gasPrice
    && d[80..] == tx.data
  }

  lemma TransactionSlices(tx: Transaction)
    ensures var d := TransactionBytes(tx);
      && |d| == 80 + |tx.data| && d[..20] == tx.from && d[20..40] == tx.to && d[40..48] == Bytes8(tx.amount)
      && d[48..56] == Bytes8(tx.nonce) && d[56..64] == Bytes8(tx.fee) && d[64..72] == Bytes8(tx.gasUsed)
      && d[72..80] == Bytes8(tx.gasPrice) && d[80..] == tx.data
  {
    hide Bytes8;
  }

  lemma TransactionLayout(sha: Sha256, tx: Transaction)
    ensures TransactionHash(sha, tx) == sha(TransactionBytes(tx)) && TransactionAt(TransactionBytes(tx), tx)
  {
    TransactionSlices(tx);
    hide TransactionBytes, Bytes8, Value;
    FieldValue(tx.amount);
    FieldValue(tx.nonce);
    FieldValue(tx.fee);
    FieldValue(tx.gasUsed);
    FieldValue(tx.gasPrice);
  }

  /** A built payment carries what was asked for, and the hash of its own bytes. */
  lemma PaymentFields(sha: Sha256, us: seq<Utxo>, from: Address, to: Address, amount: u64, fee: u64, now: Time)
    requires Payment(sha, us, from, to, amount, fee, now).Ok?
    ensures var tx := Payment(sha, us, from, to, amount, fee, now).value;
      && tx.from == from && tx.to == to && tx.amount == amount && tx.fee == fee && tx.timestamp == now
      && tx.nonce == 0 && tx.gasUsed == 0 && tx.gasPrice == 0 && tx.data == [] && tx.signature == []
      && (forall i :: 0 <= i < |tx.inputs| ==> tx.inputs[i] == TxInput(us[i].txHash, us[i].index, []))
      && tx.hash == sha(TransactionBytes(tx)) && TransactionAt(TransactionBytes(tx), tx)
  {
    TransactionLayout(sha, Payment(sha, us, from, to, amount, fee, now).value);
    hide TransactionAt;
  }

  datatype Order = Order(from: Address, to: Address, amount: u64, fee: u64)

  /** Two payments share a hash exactly when sender, receiver, amount and fee agree, collisions aside. */
  lemma PaymentHashBinds(sha: Sha256, us: seq<Utxo>, vs: seq<Utxo>, o: Order, p: Order, now: Time, later: Time)
    requires Payment(sha, us, o.from, o.to, o.amount, o.fee, now).Ok?
    requires Payment(sha, vs, p.from, p.to, p.amount, p.fee, later).Ok?
    ensures var s := Payment(sha, us, o.from, o.to, o.amount, o.fee, now).value;
      var t := Payment(sha, vs, p.from, p.to, p.amount, p.fee, later).value;
      && (o == p ==> s.hash == t.hash)
      && (s.hash == t.hash ==> o == p || Collides(sha, (TransactionBytes(s), TransactionBytes(t))))
  {
    PaymentFields(sha, us, o.from, o.to, o.amount, o.fee, now);
    PaymentFields(sha, vs, p.from, p.to, p.amount, p.fee, later);
    var s := Payment(sha, us, o.from, o.to, o.amount, o.fee, now).value;
    var t := Payment(sha, vs, p.from, p.to, p.amount, p.fee, later).value;
    BytesDetermineCovered(s, t);
    hide Payment, TransactionBytes, TransactionAt;
  }

  // ---------- block rewards ----------

  /** The 76 bytes of a reward: payee and amount of its output, nanoseconds, a zero sender, the payee. */
  predicate RewardAtBytes(d: seq<byte>, miner: Address, amount: u64, now: Time) {
    && |d| == 76
    && d[..20] == miner && Value(d[20..28], 8) == amount && Value(d[28..36], 8) == now % TWO64
    && d[36..56] == seq(20, _ => 0) && d[56..] == miner
  }

  function RewardBytes(tx: Transaction): seq<byte> {
    InputBytes(tx.inputs) + OutputBytes(tx.outputs) + Bytes8(Wrap64(tx.timestamp)) + tx.from + tx.to
  }

  lemma RewardLayout(sha: Sha256, miner: Address, amount: u64, now: Time)
    ensures var tx := RewardTransaction(sha, miner, amount, now);
      tx.hash == sha(RewardBytes(tx)) && RewardAtBytes(RewardBytes(tx), miner, amount, now)
  {
    var tx := RewardTransaction(sha, miner, amount, now);
    OneOutput(TxOutput(miner, amount));
    assert InputBytes(tx.inputs) == [];
    hide Bytes8, InputBytes, OutputBytes;
    var d := RewardBytes(tx);
    assert d == miner + Bytes8(amount) + Bytes8(Wrap64(now)) + ZeroAddress() + miner;
    assert d[20..28] == Bytes8(amount) && d[28..36] == Bytes8(Wrap64(now)) && d[36..56] == ZeroAddress();
    hide RewardBytes;
    FieldValue(amount);
    FieldValue(Wrap64(now));
  }

  lemma OneOutput(o: TxOutput)
    ensures OutputBytes([o]) == o.address + Bytes8(o.amount)
  {
    hide Bytes8;
    assert [o][..0] == [];
    assert OutputBytes([o]) == OutputBytes([o][..0]) + o.address + Bytes8(o.amount);
  }

  /** Two rewards share a hash only for the same payee, amount and nanosecond, or by a collision. */
  lemma RewardHashBinds(sha: Sha256, miner: Address, amount: u64, now: Time, other: Address, more: u64, later: Time)
    ensures var s, t := RewardTransaction(sha, miner, amount, now), RewardTransaction(sha, other, more, later);
      (miner == other && amount == more && now % TWO64 == later % TWO64 ==> s.hash == t.hash)
      && (s.hash == t.hash ==>
            (miner == other && amount == more && now % TWO64 == later % TWO64)
            || Collides(sha, (RewardBytes(s), RewardBytes(t))))
  {
    var s, t := RewardTransaction(sha, miner, amount, now), RewardTransaction(sha, other, more, later);
    RewardLayout(sha, miner, amount, now);
    RewardLayout(sha, other, more, later);
    if miner == other && amount == more && now % TWO64 == later % TWO64 {
      assert Wrap64(now) == Wrap64(later);
      assert RewardBytes(s) == RewardBytes(t);
    }
    hide RewardTransaction, RewardBytes, Value;
  }

  // ---------- the genesis block ----------

  /** It starts the year 2021 in UTC, has no parent and no transactions, and its root and count check. */
  lemma GenesisFacts(sha: Sha256, g: GenesisConfig)
    ensures var b := Genesis(sha, g);
      && b.header.number == 0 && b.txs == [] && b.header.difficulty == g.initialDifficulty
      && b.header.parentHash == seq(32, _ => 0)
      && b.header.timestamp == ((2021 - 1970) * 365 + 13) * 86_400 * SECOND
      && b.hash == sha(HeaderBytes(b.header)) && MerkleChecks(sha, b.header, b.txs)
  {
  }
}
