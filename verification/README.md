# Kalon core: a verified model

This project models the parts of the Kalon node and miner whose promises range over all
inputs or all runs, and proves those promises with Dafny. `dafny verify dfyconfig.toml`
checks everything.

| file | models |
|---|---|
| `Digits`, `Types`, `Prelude` | positional numbers, big-endian fields, the data types, what each hash covers |
| `Checksum`, `Regroup`, `Utf8`, `Bech32`, `Bech32Codec` | `crypto/bech32.go` |
| `Bech32Prefix`, `Bip173` | what the checksum covers of the prefix; known answers |
| `Layout` | what block, transaction and reward hashes cover, byte by byte |
| `Ledger`, `UtxoSet`, `SpendLog`, `Undo` | `core/utxo.go` and `processTransactionUTXOs` |
| `Payments`, `Conservation`, `Ownership`, `Supply` | `CreateTransaction`, value over single transactions, who owns it, value over runs |
| `Chain`, `Blockchain`, `Miners` | `core/blockchain.go`: the state functions, the object, interleavings of miners |
| `Pool`, `Difficulty` | the mempool and the difficulty of templates, over whole runs |
| `Storage`, `Restart` | `storage/leveldb.go`, loading, crashes and restarts |
| `StoreOrder`, `Writers` | stores that overtake each other, and their single writes interleaved |
| `ProofOfWork`, `Merkle` | targets, hash tests, the miner's loop, the Merkle root |
| `Issuance`, `ChainSupply` | block rewards, halvings, the fee split; the supply at a height of the chain |
| `RateLimit` | `checkRateLimit` of the RPC server |
| `Mixing`, `NonceRange` | the invertible rounds and the nonce division of `mining/randomx.go` |

How it is modelled:

- Objects that the program changes in place are classes (`UTXOSet`, `BlockStorage`,
  `BlockchainV2`, `Server`); loops are methods with invariants. Each method is proved to
  compute a function of the old state, and the promises are proved about that function.
- SHA-256 is a parameter. Binding results are constructive: equal lists, or two inputs
  with the same hash, computed from the lists.
- Map iteration picks keys in an arbitrary order. Clock readings and stop signals are parameters.
- 64-bit wrap-around is explicit (`Wrap64`), 32-bit output indices too.
- Strings are byte strings. A `range` loop over a string decodes UTF-8 as Go does, so the
  bech32 results hold for every prefix, not only ASCII ones.
- float64 products in rewards and fees are real products. The conversion to `uint64` is a
  parameter: inside the 64-bit range it drops the fraction, outside nothing is said about it.

Where the code falls short of a promise, the model keeps the code, gives an input, and
proves exactly when the promise holds:

- A second block numbered 0 is always accepted (`Chain.SecondGenesisBreaksShape`).
- A transaction hash covers neither inputs, outputs nor time, so a repeated payment has the
  same hash and can destroy the first one's output (`Payments.RepeatedPaymentSameHash`,
  `Payments.RepeatedPaymentLoses`); the exact condition is `Conservation.TransferConservesIff`.
- The result of `SpendUTXO` is ignored, so an output named twice by one transaction pays
  twice (`Conservation.TwiceNamedInputCreatesValue`); the exact condition, for any inputs, is
  `Conservation.FreshTransferConservesIff`. Both causes together, with no assumption on the
  transaction: `Conservation.NeitherCreatedNorLostIff`.
- `amount+fee` can wrap around (`Payments.OverflowingPayment`), and so can the sum of the
  selected outputs (`Payments.OverflowingBalance`); a payment balances exactly when both
  wrapped equally often (`Payments.PaymentBalancesIff`).
- A store overtaken by a later one before a crash loses blocks that were stored
  (`StoreOrder.OvertakenStoreCrash`), and leaves a best-block mark behind that can splice
  the next chain with a foreign block (`StoreOrder.SplicedChain`), because loading compares
  no parent hashes. Finished stores survive exactly when no finished block has an
  unavailable one below it and the mark found on the disk is below one of them or is the
  chain's own (`StoreOrder.FinishedStoresSurviveIff`, `StoreOrder.FreshDiskSurvivesIff`);
  for any disk at all, `Restart.BootIff` and `Restart.RestartEqualsIff`.
- The best block is read and marked in separate steps, so two complete stores can leave the
  lower one marked (`Writers.LostMark`); exactly when is `Writers.HighestEndsBestIff`.
- A block submitted under its parent's hash loses the whole chain if its store is cut off
  (`Restart.RepeatedTipHashCrash`); a store is safe at every write exactly otherwise
  (`Restart.StoreCommitsIff`).
- A failed load keeps the outputs it had rebuilt; `Restart.FailedLoadCleanIff` says when
  that shows.
- The Merkle root alone does not bind the transactions (`Merkle.RootAloneDoesNotBind`): it
  binds the tree with repeated last elements filled in (`Merkle.RootBindsTree`). Root and
  count bind the list, for the covered fields and no others
  (`Merkle.HeaderBindsTransactions`, `Merkle.CoveredFieldsDecide`).
- A halving event multiplies the reward left by the earlier ones, so the main network's
  multipliers 0.5, 0.25 and 0.125 give 2.5, 0.625 and 0.078125 coins (`Issuance.MainRewards`).
- The memory round of the RandomX miner cannot be undone (`Mixing.MemoryRoundNotInjective`).
- At difficulty 0 and beyond 64 the miner can report nothing (`ProofOfWork.UnminableIff`).

Where documentation and code disagree the code is followed: `CHANGELOG.md` and
`RELEASE_NOTES.md` name 60 requests per minute, the limiter allows 600; the comment on
`CalculateTarget` says 2^256 / difficulty, the code asks for difficulty - 1 zero bits.

## Model

| member | source | states |
|---|---|---|
| Checksum.Polymod | crypto/bech32.go:196-211 | the two nested loops compute the shift register fed with all values from state 1 |
| Checksum.StepLinear | crypto/bech32.go:200-208 | one register step is linear over GF(2) in state and symbol together |
| Checksum.RunLinear | crypto/bech32.go:196-211 | polymod of the xor of two messages of equal length is the xor of their polymods |
| Checksum.StepKeepsState | crypto/bech32.go:200-208 | the register never exceeds 30 bits, even for prefix values up to 255 |
| Checksum.StepKernel | crypto/bech32.go:200-208 | the zero step maps no non-zero 30-bit state to zero |
| Checksum.RunZeros | crypto/bech32.go:196-211 | trailing zeros, however many, never turn a non-zero state into zero or back |
| Checksum.RunSix | crypto/bech32.go:200-208 | from the zero state six symbols are laid side by side, without feedback |
| Checksum.ChecksumUnique | crypto/bech32.go:164-171 | exactly one choice of six symbols makes polymod equal 1: the ones cut from polymod of the padded message xor 1 |
| Checksum.BurstChangesRegister | crypto/bech32.go:196-211 | messages differing only within six consecutive symbols never leave the same register, at any length |
| Regroup.ConvertBits | crypto/bech32.go:113-139 | the accumulator loop re-cuts the number the groups spell, adds zero bits when padding, and otherwise fails exactly on f or more or non-zero left-over bits |
| Regroup.ExactUndoesPadded | crypto/bech32.go:113-139 | cutting without padding recovers what was cut with padding |
| Regroup.PaddedUndoesExact | crypto/bech32.go:130-136 | the padding check admits only one grouping of the bytes |
| Utf8.FirstRune | crypto/bech32.go:147-153 | an ASCII byte is read as itself, any other byte as a rune of 0x80 or more; always at least one byte is consumed |
| Utf8.DecodesEncoding | crypto/bech32.go:147-153 | the rune loop reads back the UTF-8 encoding (RFC 3629, section 3) of every code point, whatever follows |
| Utf8.DecodesOnlyEncodings | crypto/bech32.go:147-153 | anything else counts as U+FFFD of width one |
| Utf8.AsciiBytes | crypto/bech32.go:83-87 | a string all of whose runes are ASCII consists of ASCII bytes |
| Bech32.VerifiesIffChecksum | crypto/bech32.go:142-193 | verifyChecksum accepts exactly the six symbols createChecksum returns |
| Bech32.DecodeOfEncode | crypto/bech32.go:46-110 | decoding an encoding returns exactly its prefix and bytes, for every byte prefix; only the empty prefix is refused |
| Bech32.EncodeOfDecode | crypto/bech32.go:46-110 | every accepted string is the encoding of what it decodes to |
| Bech32.AcceptedIffEncoding | crypto/bech32.go:46-110 | the accepted strings are exactly the encodings with a non-empty prefix |
| Bech32.BurstRejected | crypto/bech32.go:72-110 | replacing data characters of an accepted string by other charset characters within six consecutive positions is rejected as a checksum error |
| Bech32Prefix.PrefixBurstRejected | crypto/bech32.go:147-153 | exchanging prefix runes of an accepted string within six consecutive positions is rejected as a checksum error, for any prefix if each keeps `c >> 5`, for ASCII prefixes also if each keeps `c & 0x1f` |
| Bech32Prefix.ChecksumInput | crypto/bech32.go:147-156 | the checksum input is, position by position, the upper bits of each rune, a zero, the low five bits of each rune, the data |
| Bip173.SmallestVector | crypto/bech32.go:46-69 | the test vector a12uel5l of BIP-173 |
| Bip173.CharsetVector | crypto/bech32.go:17-18 | the test vector of BIP-173 with prefix abcdef and the symbols 0 to 31, which uses the whole charset |
| Bech32Codec.ExpandHrp | crypto/bech32.go:146-153 | the two passes over the prefix yield the words that Bech32Prefix.ChecksumInput describes |
| Bech32Codec.CreateChecksum | crypto/bech32.go:142-171 | the loops compute the checksum symbols |
| Bech32Codec.VerifyChecksum | crypto/bech32.go:174-193 | the loops decide whether the symbols verify |
| Bech32Codec.Encode | crypto/bech32.go:46-69 | the loops build the encoding |
| Bech32Codec.ValidCharacters | crypto/bech32.go:83-87 | the rune loop accepts exactly the strings all of whose bytes are in the charset |
| Bech32Codec.Decode | crypto/bech32.go:72-110 | the loops decode, with the same error for each refused string; prefix, data and checksum are bound by EncodeOfDecode, BurstRejected and PrefixBurstRejected |
| Bech32Codec.Bech32ToAddress | crypto/bech32.go:28-43 | the address is the data of a valid string of twenty bytes, else an error |
| Bech32Codec.AddressRoundTrip | crypto/bech32.go:22-43 | reading back an address written under any non-empty prefix returns it |
| Bech32Codec.AddressTextUnique | crypto/bech32.go:22-43 | under one prefix an address has only one text |
| Ledger.KeyBytesInjective | core/utxo.go:100-104 | different (hash, index) pairs never share a map key |
| Ledger.LedgerEquation | core/blockchain.go:274-285 | for any transaction: new total plus really spent amounts plus overwritten unspent amounts equals old total plus outputs |
| Ledger.BalancesSumToTotal | core/utxo.go:78-85 | balances over all addresses add up to the unspent total |
| Ownership.TransactionRecorded | core/blockchain.go:274-285 | output i of a transaction of at most 2^32 outputs is recorded unspent under its hash and i, with its amount and its receiver; entries it names are marked spent; all else stays |
| Ownership.OwnerEquation | core/blockchain.go:274-285 | any transaction and any set of owners: they gain what the outputs pay to them and lose what was really spent or overwritten of theirs |
| Ownership.BalanceOfTransfer | core/blockchain.go:274-285 | with distinct unspent inputs and a fresh hash every address gains the outputs addressed to it and loses its own inputs |
| Ownership.PaymentMovesBalances | core/blockchain.go:215-285 | a payment built without overflow and applied takes amount and fee from the sender, gives the amount to the receiver, and leaves every other balance alone |
| Ownership.RewardCredits | core/blockchain.go:507-537 | applying a block reward credits the miner with it and nobody else |
| Ownership.LaterSpendsEarlier | core/blockchain.go:172-177 | within a block an output is spent afterwards exactly when a later transaction of the block names it |
| UtxoSet.UTXOSet.AddUTXO | core/utxo.go:33-47 | files a new unspent entry under its key and changes nothing else |
| UtxoSet.UTXOSet.SpendUTXO | core/utxo.go:50-60 | marks the entry spent and returns true exactly when it was there and unspent |
| UtxoSet.UTXOSet.GetUTXOs | core/utxo.go:63-75 | lists every unspent output of the address exactly once, in some order |
| UtxoSet.UTXOSet.GetBalance | core/utxo.go:78-85 | the sum of the address's unspent amounts, wrapped at 64 bits |
| UtxoSet.UTXOSet.RemoveUTXOs | core/utxo.go:88-97 | deletes exactly the entries created by the block |
| SpendLog.EveryAdditionAccountedFor | core/utxo.go:33-60 | over any calls, every addition of a key is spent once, overwritten while unspent, or still held |
| SpendLog.NoDoubleSpend | core/utxo.go:50-60 | from the empty set, successful spends of a key never outnumber its additions |
| Undo.BlockEntries | core/blockchain.go:172-177 | exactly which entries any block adds, overwrites and marks spent |
| Undo.RemoveAfterApply | core/utxo.go:88-97 | what remains after applying any block and removing its outputs |
| Undo.UndoRestoresKeysIff | core/utxo.go:88-97 | every key is restored exactly when no output key was taken and the block hash was unused |
| Undo.UndoRestoresEntries | core/utxo.go:88-97 | then amounts, owners and origins are restored; only the spent marks of consumed outputs stay |
| Undo.FreshBlockUndone | core/utxo.go:88-97 | in particular for a block whose transaction hashes and own hash are new to the map |
| Undo.UndoIsIdentityIff | core/utxo.go:88-97 | the map is restored completely exactly when the block also spends no unspent entry of it |
| Conservation.TransferEquation | core/blockchain.go:274-285 | with distinct unspent inputs and a fresh hash the total changes by outputs minus inputs |
| Conservation.TransferConservesIff | core/utxo.go:33-47 | for distinct unspent inputs that equation holds exactly when no output lands on a key still worth something, in the map or, beyond 2^32 outputs, in the transaction itself |
| Conservation.FreshTransferConservesIff | core/blockchain.go:274-285 | for any inputs under a fresh hash it holds exactly when every input worth something is unspent and not already named by an earlier input; otherwise value is created, never lost |
| Conservation.TwiceNamedInputCreatesValue | core/blockchain.go:276-278 | one output of 5 named twice pays for an output of 10, and the total grows from 5 to 10 |
| Conservation.NeitherCreatedNorLostIff | core/blockchain.go:274-285 | for any transaction: value created is the inputs not really spent, value lost is what outputs overwrite; nothing is created exactly when every valuable input is unspent and named once, nothing is lost exactly under the condition of TransferConservesIff |
| Payments.PaymentCorrect | core/blockchain.go:215-271 | without overflow a payment succeeds iff the balance covers amount and fee; its inputs are distinct unspent outputs of the sender, equal outputs plus fee, and none is superfluous; the amount goes to the receiver and any change, at most one output, back to the sender |
| Payments.SelectionCovers | core/blockchain.go:229-250 | the selection stops with just enough and the change does not underflow |
| Payments.EnumerationSum | core/utxo.go:63-85 | the listed outputs are worth the balance, whatever the order |
| Payments.PaymentEquation | core/blockchain.go:225-250 | any payment built, at any balance: inputs exceed outputs and fee by 2^64 for each time the selected sum wrapped more often than amount plus fee |
| Payments.PaymentBalancesIff | core/blockchain.go:225-250 | any payment built balances exactly when the selected sum and amount plus fee wrapped equally often |
| Payments.SmallBalanceIff | core/blockchain.go:225-250 | with a 64-bit balance that is: exactly when amount plus fee did not wrap |
| Payments.OverflowingPayment | core/blockchain.go:225-250 | an empty wallet can build a payment of 2^64 - 1 with fee 1 |
| Payments.OverflowingBalance | core/blockchain.go:225-250 | outputs of 2^63, 2^63 and 2^63 + 5 all go into a payment of 2^63 + 1 that returns 4: 2^64 units are lost without amount plus fee wrapping |
| Payments.RepeatedPaymentSameHash | core/types.go:332-362 | two payments with the same sender, receiver, amount and fee have the same hash |
| Payments.RepeatedPaymentLoses | core/blockchain.go:274-285 | applied while the first one's output is unspent, the second destroys value |
| Supply.PaymentsConserve | core/blockchain.go:172-177 | any number of pooled payments with fresh hashes and still unspent inputs burn exactly their fees |
| Supply.EventConserves | core/blockchain.go:161-191 | building a payment or adding a block keeps the balance between value, rewards and fees |
| Supply.RunConserves | core/blockchain.go:161-285 | over every allowed run the unspent total is all rewards minus all fees |
| Supply.RewardsFollowSchedule | core/blockchain.go:441-537 | if the n-th block mined pays the schedule of number n, the rewards add up to the schedule's sum |
| Supply.SupplyClosedForm | core/blockchain.go:492-504 | for a sorted schedule the supply after any run is the closed form for its block count minus the fees |
| Supply.RunAppliesBlocks | core/blockchain.go:172-177 | the outputs after any run are those of its mined blocks |
| ChainSupply.RunHonoured | core/blockchain.go:441-537 | over any interleaving of miners every outstanding template and every accepted block pays the schedule of its own number |
| ChainSupply.SupplyAtHeight | core/blockchain.go:161-537 | at every height of a chain built by any miners, the node's unspent total is what the sorted schedule has issued up to that height minus the fees burned |
| Chain.GenesisShape | core/blockchain.go:91-95 | adding the genesis block to an empty chain gives a well-shaped chain |
| Chain.SubmitKeepsShape | core/blockchain.go:161-196 | any submission numbered 1 or more keeps numbers, links, timestamps, height, tip and outputs right, and is accepted iff it extends the tip |
| Chain.SecondGenesisBreaksShape | core/blockchain.go:308-312 | a block numbered 0 is always accepted and breaks the numbering |
| Blockchain.BlockchainV2.constructor | core/blockchain.go:73-98 | the object starts as loading and, at height 0, the genesis block make it; storage gets the genesis block exactly then |
| Blockchain.BlockchainV2.CreateGenesisBlockV2 | core/blockchain.go:134-158 | the genesis block is a fixed function of the configuration |
| Blockchain.BlockchainV2.ValidateBlockV2 | core/blockchain.go:308-341 | accepts exactly number 0 or a block extending the tip in hash, number, time and proof of work |
| Blockchain.BlockchainV2.ProcessTransactionUTXOs | core/blockchain.go:274-285 | the two loops apply the transaction to the outputs, and record output i unspent for its own receiver |
| Blockchain.BlockchainV2.AddBlockV2 | core/blockchain.go:161-211 | the whole new state and the store, on acceptance and on refusal; what stays pending is what the accepted block does not include |
| Blockchain.BlockchainV2.AddTransaction | core/blockchain.go:407-412 | files the transaction in the pool under its hash |
| Pool.PoolAfterSubmit | core/blockchain.go:172-177 | an accepted block takes exactly its own transactions out of the pool, a refused one none |
| Pool.PendingIff | core/blockchain.go:407-431 | over any additions and submissions a hash is pending exactly when it was added and no accepted block since includes it |
| Pool.PendingIsLastAdded | core/blockchain.go:407-412 | what is pending under a hash is the transaction last added with it |
| Pool.TemplateRepeatsNothing | core/blockchain.go:458-465 | a template built from the pool repeats no transaction hash of an accepted block, unless it was added again since |
| Pool.TemplateOffersPending | core/blockchain.go:458-465 | it offers everything pending, each hash once |
| Blockchain.BlockchainV2.LoadChainFromStorage | core/blockchain.go:545-594 | the whole new state, including the reset that keeps the outputs |
| Blockchain.BlockchainV2.CreateTransaction | core/blockchain.go:215-271 | the result is a payment from some enumeration of the sender's outputs |
| Blockchain.BlockchainV2.GetPendingTransactions | core/blockchain.go:415-424 | lists every mempool entry once, in some order |
| Blockchain.BlockchainV2.CreateNewBlockV2 | core/blockchain.go:441-489 | for every configuration: nil without a tip, a panic where the launch guard divides by zero, else a template on the current tip with reward, given and pending transactions; its fields and its difficulty are those of the next two rows |
| Difficulty.TemplateFields | core/blockchain.go:441-537 | every header field of a template but the difficulty, its transactions, and every field of its reward |
| Difficulty.TemplateDifficulty | core/consensus.go:150-195 | during the launch guard the initial difficulty times the multiplier, otherwise the parent's, from the window on at least 1 |
| Difficulty.GuardFloorRounds | core/consensus.go:158-160 | that product is rounded down whenever it fits in 64 bits |
| Difficulty.RunSteady | core/consensus.go:150-195 | over every run of miners each accepted block and each template carries the difficulty its number determines, in closed form |
| Difficulty.DifficultyNeverMoves | core/consensus.go:176-187 | without a launch guard every accepted block and template carries the genesis difficulty |
| Blockchain.TemplatePaysSchedule | core/blockchain.go:507-537 | a template is built unless the launch guard is on without a block time; its first transaction has no inputs and pays the miner exactly the scheduled reward of its number |
| Miners.StepKeepsInvariant | core/blockchain.go:161-196 | taking a template or submitting any block numbered 1 or more keeps the world consistent and only extends the chain |
| Miners.RunKeepsInvariant | core/blockchain.go:161-341 | over every interleaving block i sits at index i, names block i-1, is not older, and height, tip and outputs agree |
| Miners.OneBlockPerHeight | core/blockchain.go:325-328 | over the whole history at most one block per height is accepted |
| Miners.RunExtends | core/blockchain.go:179-182 | the chain only grows at its end |
| Miners.ChainFacts | core/blockchain.go:308-341 | over every run: numbers count up, each block names the one before, no block is older than any earlier one, and beyond difficulty 20 its hash is below 2^(256-d) |
| Miners.TicketAcceptedIff | core/blockchain.go:308-341 | a mined template is accepted iff its parent is still the tip, its time is not before the tip's and its hash passes |
| Miners.TemplateRace | core/blockchain.go:441-489 | after any later run it is accepted only if no block was accepted since it was taken |
| Storage.BlockStorage.StoreBlock | storage/leveldb.go:162-195 | the three writes, the last only for a number above the stored best |
| Storage.BlockStorage.GetBestBlock | storage/leveldb.go:236-257 | nothing when no best block was recorded, the recorded block, or an error |
| Storage.BlockStorage.GetBlockByNumber | storage/leveldb.go:217-233 | the block stored under the number, or an error |
| Storage.StoreCommutes | storage/leveldb.go:162-195 | stores of two blocks with different hashes and numbers commute |
| Storage.StoreOrderIrrelevant | storage/leveldb.go:162-195 | every order of storing the same blocks leaves the same database |
| Storage.BestIsHighest | storage/leveldb.go:181-192 | afterwards the best block is the highest stored |
| Storage.HighestIsBest | storage/leveldb.go:181-192 | if one store is above the old best, the highest of them ends up recorded and readable as best |
| Storage.LowerStoresKeepBest | storage/leveldb.go:181-192 | stores none of which is above the old best leave it as it is |
| Storage.StoredLookups | storage/leveldb.go:162-233 | after any stores each stored block is found under its number and hash, and every other number is as before |
| Restart.BootRebuilds | core/blockchain.go:545-594 | booting from a disk holding a chain rebuilds its blocks, height, tip and outputs |
| Restart.RestartEqualsRunning | core/blockchain.go:86-98 | a restarted node equals the running one in every field but the mempool |
| Restart.StoreCommits | storage/leveldb.go:162-195 | a store cut off after any write leaves the old chain, completed the new one |
| Restart.StoreCommitsIff | storage/leveldb.go:162-195 | that holds for every cut exactly when the block does not carry the hash of the block marked best |
| Restart.RepeatedTipHashCrash | storage/leveldb.go:162-195 | an input on which it fails: cut off after its first write, such a block leaves only genesis |
| Restart.BootIff | core/blockchain.go:545-594 | for any disk: a restart has an initial part of the chain with its outputs exactly when the mark is on one of its blocks with all below it stored, or loading gives up having read no outputs |
| Restart.RestartEqualsIff | core/blockchain.go:545-594 | for any disk: exactly when a restart equals the node that never stopped |
| Restart.EventKeepsInvariant | core/blockchain.go:73-211 | every boot, addition, crash or kill keeps disk and memory in agreement |
| Restart.RunKeepsInvariant | core/blockchain.go:73-211 | over any number of them the disk holds exactly the completed stores |
| Restart.CrashSafety | core/blockchain.go:545-594 | a restart at any time yields that whole chain, well-shaped, with its outputs |
| StoreOrder.AnyStoreOrder | core/blockchain.go:194-206 | once all stores above what the disk held have finished, in whatever order, a restart equals the running node exactly when the mark found on the disk was below the tip or on the tip itself |
| StoreOrder.FinishedStoresSurviveIff | core/blockchain.go:194-206 | after a crash with any non-empty set of stores finished, whatever mark the disk carried, a restart keeps them all on an initial part of the chain exactly when no finished block has an unavailable one below it and the mark was below one of them or on the chain's own block with all below it available; without leftovers a gap leaves only genesis |
| StoreOrder.FreshDiskSurvivesIff | core/blockchain.go:194-206 | for a node that started on an empty disk: exactly when the finished stores are downward closed, else only genesis is left |
| StoreOrder.OvertakenStoreCrash | core/blockchain.go:574-583 | an input on which it fails: one store overtaken by the next resets the chain to genesis but keeps the outputs of the blocks before the gap |
| StoreOrder.SplicedChain | core/blockchain.go:574-591 | after such a crash the node restarts from genesis, accepts and completely stores another block 1, and the next restart joins it with the old block 2 that names a different parent |
| Writers.AloneIsStore | storage/leveldb.go:162-195 | the steps of a writer alone are StoreBlock, and its interruptions |
| Writers.RunTracks | storage/leveldb.go:162-195 | at every moment of every schedule the disk holds, by hash and number, exactly what it held and what was put, and the mark is old or a writer's |
| Writers.MarkStaysIff | storage/leveldb.go:181-192 | once the highest writer marked its block, it stays marked exactly when no other writer is about to mark on an old reading |
| Writers.HighestEndsBestIff | storage/leveldb.go:181-192 | over any schedule that completes, the highest block ends up best exactly when, at its mark, no other writer had read a lower number and not yet marked; else the best ends below it |
| Writers.OldBestStays | storage/leveldb.go:181-192 | an old best at or above all writers stays best under every schedule |
| Writers.CrashAnywhereIff | core/blockchain.go:194-206 | crash between any two steps of any schedule: the restart keeps every block whose writer was through exactly when the mark is on a block of the chain at or above them and every block up to it has been put |
| Writers.LostMark | storage/leveldb.go:181-192 | blocks 1 and 2 both stored completely, block 1 marked best, and a restart without block 2 |
| Restart.FailedLoadCleanIff | core/blockchain.go:574-583 | after a failed load the outputs fit the chain exactly when no block read before the gap had outputs |
| ProofOfWork.CalculateTarget | core/consensus.go:198-235 | the byte loops write the target for min(max(d,1)-1, 256) zero bits |
| ProofOfWork.TargetValue | core/consensus.go:218-232 | those bytes spell 2^(256-z) - 1 |
| ProofOfWork.IsValidHash | core/consensus.go:238-264 | the comparison loops decide whether the hash, as a number, is at most the target |
| ProofOfWork.MeetsTarget | core/consensus.go:198-264 | both together decide hash < 2^(256 - min(max(d,1)-1, 256)) |
| ProofOfWork.MeetsAntitone | core/consensus.go:198-264 | raising the difficulty only rules hashes out |
| ProofOfWork.Target64Meaning | core/blockchain.go:615-620 | the 64-bit test means 1 <= d <= 64 and hash < 2^(256-d) |
| ProofOfWork.V2IsOneBitStricter | core/blockchain.go:605-621 | above 20 it is the 256-bit test one difficulty higher, up to 64 |
| ProofOfWork.ValidateProofOfWorkV2 | core/blockchain.go:605-621 | accepts difficulty 20 or less, else decides the 64-bit test |
| ProofOfWork.PassesV2Iff | core/blockchain.go:605-621 | the node accepts exactly difficulty 20 or less, or a hash below 2^(256-d) with d at most 64 |
| ProofOfWork.PassesV1Iff | core/consensus.go:128-147 | the consensus manager accepts exactly difficulty 20 or less, or a recomputed hash below 2^(257-d) |
| ProofOfWork.MineBlock | cmd/kalon-miner-v2/main.go:201-229 | a reported block is the template at the first nonce whose own hash meets the target, with the hash of its own header bytes; no report means none tried did |
| Layout.HeaderLayout | core/types.go:272-329 | a block hash covers 136 bytes that hold all ten header fields at fixed places, numbers big-endian, time in whole seconds |
| Layout.HeaderBytesIff | core/types.go:272-329 | two headers are hashed from the same bytes exactly when all ten fields agree, times in seconds modulo 2^64 |
| Layout.CandidatesDiffer | cmd/kalon-miner-v2/main.go:201-229 | two nonces below 2^64 are hashed from different bytes, so equal hashes are a collision |
| Layout.TipBindsHistory | core/blockchain.go:320-328 | two linked chains of self-hashed blocks with the same tip hash have the same headers throughout, or a collision is computed |
| Layout.GenesisFacts | core/blockchain.go:134-158 | the genesis block has no parent and no transactions, starts the year 2021, carries its own hash, and its root and count check |
| Layout.TransactionLayout | core/types.go:332-362 | a transaction hash covers 80 bytes of fixed fields and the data behind them |
| Layout.PaymentFields | core/blockchain.go:252-268 | a built payment carries sender, receiver, amount, fee, time and inputs as asked, and the hash of its own bytes |
| Layout.PaymentHashBinds | core/types.go:332-362 | two payments share a hash exactly when sender, receiver, amount and fee agree, collisions aside |
| Layout.RewardLayout | core/utxo.go:107-140 | a reward's hash covers its output, the nanosecond, a zero sender and the payee |
| Layout.RewardHashBinds | core/utxo.go:107-140 | two rewards share a hash exactly for the same payee, amount and nanosecond, collisions aside |
| ProofOfWork.MinedBlockPasses | cmd/kalon-miner-v2/main.go:211-220 | every reported block passes both validators on that same hash |
| ProofOfWork.UnminableIff | cmd/kalon-miner-v2/main.go:204-217 | no hash meets the target exactly at difficulty 0 or above 64 |
| Merkle.CalculateMerkleRoot | core/consensus.go:267-308 | the level loops compute the root of the tree |
| Merkle.RootOfTree | core/consensus.go:267-308 | the level loops compute the hash of the tree with repeated last elements filled in |
| Merkle.SmallRoots | core/consensus.go:267-308 | the roots of none, one, two and three transactions spelled out |
| Merkle.HashBindsTree | core/consensus.go:283-303 | trees of any shapes under one hash agree on all covered fields, or a collision is computed by descending them |
| Merkle.RootBindsTree | core/consensus.go:267-308 | for lists of any lengths: filled-in trees that agree have equal roots, and equal roots mean trees that agree or a computed collision |
| Merkle.BytesDetermineCovered | core/types.go:332-362 | transaction pre-images are equal exactly when all covered fields are |
| Merkle.HeaderBindsTransactions | core/consensus.go:78-87 | lists accepted under one root and count agree on all covered fields, or two colliding inputs are computed |
| Merkle.CoveredFieldsDecide | core/types.go:332-362 | the checks cannot tell lists apart that agree on the covered fields |
| Merkle.RootAloneDoesNotBind | core/consensus.go:286-294 | repeating the last of an odd number, three or more, of transactions keeps the root |
| Issuance.CalculateBlockReward | core/blockchain.go:492-504 | for every configuration the loop computes the reward that RewardAntitone and RewardSumClosed describe |
| Issuance.MainRewards | genesis/mainnet.json:7-12 | the main network's schedule pays 5000000, 2500000, 625000 and 78125 units |
| Issuance.RewardAntitone | core/blockchain.go:492-504 | rewards never rise with the height, for any schedule order |
| Issuance.RewardSumClosed | core/blockchain.go:492-504 | for a sorted schedule the rewards add up to the piecewise-linear closed form |
| Issuance.FeesAddUp | core/types.go:408-426 | whatever the rates, miner and treasury parts add up to the total modulo 2^64 |
| Issuance.FeesOfOneBlock | core/types.go:408-426 | miner and treasury parts add up to the total, the treasury is short by less than two units |
| Issuance.FeesConserve | core/types.go:408-426 | over n blocks nothing is lost and the treasury is short by less than 2n units |
| RateLimit.Server.CheckRateLimit | rpc/server_v2.go:1086-1121 | the answer and the whole new limiter state |
| RateLimit.RunTracks | rpc/server_v2.go:1107-1120 | what the stored window says about all earlier accepted requests of an address |
| RateLimit.SlidingBound | rpc/server_v2.go:1086-1121 | at most (k+1)*600 accepted requests of a non-loopback address in any k minutes, k >= 1 |
| RateLimit.RefusalJustified | rpc/server_v2.go:1107-1116 | a request is refused only when 600 were accepted within the minute before its check |
| RateLimit.WindowExact | rpc/server_v2.go:1096-1120 | within a minute of an address's first request exactly 600 pass, and later the next one does |
| RateLimit.LoopbackInvisible | rpc/server_v2.go:1089-1091 | loopback requests are always accepted, and however many come in between, the limiter and every other answer are as without them |
| Mixing.CryptographicMix | mining/randomx.go:309-329 | the loops mix the data and the eight words |
| Mixing.DataSeen | mining/randomx.go:309-317 | two data strings mix alike exactly when the 32 bytes read cyclically from round * 32 on agree |
| Mixing.MixingExample | mining/randomx.go:309-329 | the first two words of a worked example |
| Mixing.BitManipulation | mining/randomx.go:332-345 | rotation and flipping of every third byte |
| Mixing.ManipulatedByte | mining/randomx.go:332-361 | byte i moves by the round mod 7 plus 1 and is flipped where its new place plus the round is divisible by 3 |
| Mixing.RotateHash | mining/randomx.go:348-361 | the loop moves byte i to i + amount mod 32 |
| Mixing.ScrambleBijective | mining/randomx.go:309-361 | mixing then manipulation is a bijection on 32-byte states for every round and data, with an explicit inverse |
| Mixing.MemoryHardRound | mining/randomx.go:293-306 | the loop rewrites eight bytes in turn |
| Mixing.MemoryExample | mining/randomx.go:293-306 | the bytes of a worked example |
| Mixing.MemoryRoundForgets | mining/randomx.go:293-306 | every byte it touches ends with the parity of the round, and in round 0 bytes 0 to 7 end as zero |
| Mixing.MemoryRoundNotInjective | mining/randomx.go:293-306 | in every round, flipping the top bit of any of the eight touched bytes leaves the result unchanged |
| NonceRange.RangeExact | mining/randomx.go:165-173 | no worker's range overflows or leaves the interval |
| NonceRange.RangesPartition | mining/randomx.go:165-173 | a nonce is in a worker's range exactly when it is in the interval and the worker owns it |
| NonceRange.OwnerIsWorker | mining/randomx.go:165-173 | every nonce of the interval has an owner among the workers |
| NonceRange.MineBlock | mining/randomx.go:175-211 | a worker reports the first nonce of its range that meets the target, or none does |

## Left out

- HTTP, JSON-RPC dispatch, connection tracking, sleeps and tickers: input and output.
- JSON encoding of blocks for storage and between node and miner: taken as faithful for storage, not modelled for the template exchange.
- LevelDB failures: a write either happens or the process crashes first.
- Blocks, transactions and listed outputs are shared by reference in the program and values here: changes through an alias after a block was added are not captured.
- The mempool is a field of the chain object here; clearing it is left out. The event bus and the state manager are not modelled.
- Locks: taking a parent and adding a block in memory are single steps. So are single reads and writes of the database, and whole `StoreBlock` calls in `StoreOrder`; `Writers` interleaves their steps.
- A stored best block numbered 2^64 - 1, at which the loading loop's counter would wrap: the loop counts with unbounded integers here.
- Issuance.CalculateBlockReward: float64 rounding is replaced by real products, and nothing is known of a reward outside the 64-bit range, because the conversion is platform-defined there; so Issuance.RewardAntitone needs multipliers in [0, 1].
- Issuance.FeesConserve: fee rates lie in [0, 1] and each block's reward plus fees fits in 64 bits; beyond that only the sum modulo 2^64 is kept (Issuance.FeesAddUp).
- Difficulty.RunSteady: blocks from other nodes are assumed to carry the difficulty a template would, because the node never checks it.
- ChainSupply.SupplyAtHeight: blocks from other nodes are assumed to pay the schedule, because the node never checks a reward.
- Restart.RunKeepsInvariant: one writer, and no block carries its parent's hash as its own; Restart.StoreCommitsIff shows why.
- StoreOrder.FinishedStoresSurviveIff: a block hash stands for one block, among the chain's blocks from c on and on the disk; Restart.BootIff, which it rests on, does not need that. With no store finished, Restart.BootIff answers directly.
- Writers.CrashAnywhereIff: the same two remarks.
- Miners.RunKeepsInvariant: submissions are numbered 1 or more, because number 0 bypasses validation.
- RateLimit.SlidingBound: requests are counted at the last clock reading of the call.
- `ValidateBlock`'s other checks, signature checks, `GetCurrentReward`, `DifficultyAdjustment`, and the agreement of the two reward functions (their boundaries differ).
- Ed25519, BIP-39, key generation, SHA-256 internals, peer-to-peer networking, explorer, wallet command line.
