# Verified models of cardano-js-sdk

This project models the logic of eight parts of cardano-js-sdk in Dafny and proves what they promise.

- **Coin selection and change** (`Values`, `RequestedChange`, `Leftovers`, `MinCoin`, `BundleSize`, `Change`,
  `Selection`; helpers `Numbers`, `Seqs`, `Sorting`, `TxIns`, `Wrappers`): proportional change shares, leftover
  redistribution, merging for minimum coin quantities, splitting by bundle size, the retry with more UTxO until the fee
  is paid, and the round-robin selection around it. The ledger balance is carried through every stage to
  `Selection.Select`, which also says of every failure what the wallet lacks.
- **BIP32-Ed25519 derivation** (`LittleEndian`, `Bip32`): carry arithmetic on byte arrays, key derivation after
  section V of Khovratovich and Law, "BIP32-Ed25519: Hierarchical Deterministic Keys over a Non-linear Keyspace",
  over an abstract HMAC and an abstract group, and the commutation of private and public derivation.
- **Greedy credential cover and the fetch that uses it** (`Credentials`, `UtxoFetch`).
- **WebSocket client and server** (`WsStore`, `Notifications`, `Certificates`): UTxO computation against a ledger fold,
  ordered sending of concurrent notifications, reassembly of compound certificates.
- **Slot and epoch calculators** (`SlotCalc`): two algorithms proved inverse to each other across eras.
- **Chain-sync buffer and stability window** (`ChainSyncBuffer`, `StabilityWindow`): invariants over whole runs.
- **Serializable-object codec** (`Serializable`, `Text`).
- **CRC-8 and CIP-67 labels** (`Division`, `Crc8`, `Bitvectors`, `Cip67`): CIP-67, "Specification" section.

`dafny verify dfyconfig.toml` checks the whole project.

## How the code is modelled

- `bigint` and `number` are unbounded integers; BigInt division truncates toward zero (`RequestedChange.TruncDiv`), byte
  arithmetic wraps explicitly, table bytes are `bv8`.
- Exceptions and rejected promises are `Result` values. JavaScript maps are Dafny maps whose iteration order is
  arbitrary, so the theorems hold for every order.
- Closure and object state that the source mutates is a class with those fields, tied to a state-machine function;
  invariants are proved of that function for every run.
- Callbacks (minimum coin quantity, bundle size limit, fee estimate, random choice, HMAC, group operations, the order of
  transaction ids) are parameters, with only the laws stated in `requires`.

## What turned out false, and when it is true

- Deserializing does not always undo serializing: an object such as `{ __type: 'undefined' }` comes back as undefined,
  and with `value` as the type key payloads overwrite tags. `Serializable.RoundTrip` gives the exact condition.
- The chain-sync buffer deadlocks with length zero (`ChainSyncBuffer.ZeroLengthDeadlocks`) and with no other length
  (`ChainSyncBuffer.NeverStuck`).
- A chain-sync buffer of length one buffers nothing: its next pull waits for the acknowledgement of the event before
  (`ChainSyncBuffer.LengthOneNeverBuffers`). Every greater length is used in full (`ChainSyncBuffer.FillsBuffer`).
- The chain-sync buffer does not always tell its consumer that the source has ended: a falsy error is dropped
  (`ChainSyncBuffer.FalsyErrorNotTold`). An idle consumer is told exactly when the source completed or failed with a
  truthy error (`ChainSyncBuffer.ToldIff`).
- A covered request can still throw: an output with a zero quantity of an asset that is not there divides by zero
  (`Change.ZeroRequestDivides`). It does so exactly when nothing of a requested asset is selected or minted
  (`Change.ComputeChangeBundles`), hence never when covered quantities are positive (`Change.CoveredNotMissing`).
- The credential-based fetch is complete for every ledger exactly when every input address is of a kind the grouping
  keeps, that is no reward address and no string that does not parse (`UtxoFetch.CompleteIffFetchable`).
- After a transaction that failed phase 2 the client's UTxO can be wrong, because its loops read only inputs and outputs:
  an output that the ledger took as collateral is still listed (`WsStore.FailedTransactionListed`).
  `WsStore.AgreeIffHarmless` gives the exact condition, `WsStore.ServerShapedHarmless` what it comes to for failed
  transactions as the server sends them.
- A compound certificate keeps one credential, so its records come back exactly when their credentials agree
  (`Certificates.SplitBack`).
- A label can be encoded only in front of at most 56 hex digits (`Cip67.EncodeIs`).

## Model

| member | source | states |
|---|---|---|
| `Values.CoalesceTokenMaps` | packages/core/src/Asset/util/coalesceTokenMaps.ts:5-17 | the loop computes the entry-by-entry sum; no map at all when there is no entry |
| `Values.CoalescedConserves` | packages/core/src/util/coalesceValueQuantities.ts:6-9 | the coalesced value holds exactly the total of every token |
| `Values.CoalesceValueQuantities` | packages/core/src/util/coalesceValueQuantities.ts:6-9 | computes that coalesced value |
| `RequestedChange.MintToImplicitTokens` | packages/input-selection/src/util.ts:45-52 | gained minus spent is the mint, both parts are non-negative, and no asset is in both |
| `RequestedChange.UniqueTxAssetIds` | packages/input-selection/src/util.ts:54-84 | lists each asset of the outputs and of the mint, and no other, exactly once |
| `RequestedChange.SharesNeverOverAllocate` | packages/input-selection/src/change.ts:103-128 | for non-negative change and a positive whole, truncated proportional shares are non-negative and add up to at most the change |
| `RequestedChange.CreateBundlePerOutput` | packages/input-selection/src/change.ts:103-128 | one bundle per output with the truncated coin and asset shares of that output; divides by zero if and only if an output has an asset with a zero selected total |
| `RequestedChange.SmallestBundle` | packages/input-selection/src/change.ts:136-145 | finds the first bundle with the fewest assets |
| `RequestedChange.AddCoinLost` | packages/input-selection/src/change.ts:182-189 | only the first bundle changes, and only by the coins lost to division; without bundles there is a new one with just these coins |
| `RequestedChange.AddAssetLost` | packages/input-selection/src/change.ts:193-199 | adds exactly the quantity lost of one asset, to the first bundle that has some of it or else to the first with the fewest assets, and changes nothing else |
| `RequestedChange.AddAssetResidues` | packages/input-selection/src/change.ts:190-200 | raises every transaction asset that the shares fell short of to its excess, in any number of bundles; lowers no entry, and of the holders of an asset only the first gets more |
| `RequestedChange.ComputeRequestedAssetChangeBundles` | packages/input-selection/src/change.ts:155-203 | of Lovelace and of every transaction asset that the selection covers, the bundles hold exactly the excess and no negative amount; each bundle has the coin and asset shares of its output, and more only of coins in the first and of an asset in its first holder; divides by zero if and only if nothing of a requested asset is selected or minted |
| `Leftovers.GetLeftoverAssets` | packages/input-selection/src/change.ts:45-64 | collects, for exactly the assets outside the transaction, their non-zero quantities in the order of the UTxO, which sum to the selected total |
| `Leftovers.CoalesceSmallest` | packages/input-selection/src/change.ts:86-90 | with more quantities than bundles keeps the largest ones and merges the rest into the last; the sum is kept |
| `Leftovers.FitQuantities` | packages/input-selection/src/change.ts:82-90 | the quantities from the largest to the smallest; with more of them than bundles, the largest ones and, last, the sum of the others; the sum is kept |
| `Leftovers.DistributeAsset` | packages/input-selection/src/change.ts:81-99 | puts one asset's quantities into the first bundles, largest first and the surplus summed in the last, overwriting nothing and changing no other total |
| `Leftovers.RedistributeLeftoverAssets` | packages/input-selection/src/change.ts:73-101 | adds exactly the selected quantity of every asset outside the transaction, keeps every other total, overwrites no entry, and places each asset largest first from the first bundle on |
| `MinCoin.MergeWithSmallestBundle` | packages/input-selection/src/change.ts:205-218 | one bundle fewer, the same holdings, still sorted by coins: the given bundle and one with the fewest coins among the others are replaced by their sum |
| `MinCoin.MergeGroups` | packages/input-selection/src/change.ts:205-218 | merging a bundle that is short with another merges their groups, every other bundle stays the total of its own, and each group of several has a part that was short of the minimum |
| `MinCoin.MergeUntilSatisfied` | packages/input-selection/src/change.ts:243-257 | a run of steps each of which merges the last bundle short of its minimum with a smallest other one; ends with every bundle satisfied or with the one bundle holding everything; leaves bundles that are all satisfied as they are, sorted; each bundle is the total of a group of the starting ones |
| `MinCoin.NothingShort` | packages/input-selection/src/change.ts:243-257 | a run from bundles that all have their minimum merges nothing |
| `MinCoin.CoalesceForMinCoin` | packages/input-selection/src/change.ts:220-265 | conserves coins and every non-negative quantity; returned bundles are totals of groups that merged only because part of them was short, have positive asset quantities and their minimum each; bundles that all have their minimum come back sorted, less the empty ones; undefined only when the one bundle holding exactly everything does not reach its minimum |
| `BundleSize.PartitionAssets` | packages/input-selection/src/change.ts:291-304 | an exact partition of the asset map into pieces that are within the limit or single assets, each ended only where an asset of the next one would no longer fit |
| `BundleSize.PartitionTotal` | packages/input-selection/src/change.ts:291-304 | the pieces of a partition together hold the quantity the whole map has of each asset |
| `BundleSize.ShareCoins` | packages/input-selection/src/change.ts:306-319 | every piece gets its minimum, the first one the rest, all coins are handed out; fails if and only if the coins are below the sum of the minima |
| `BundleSize.SplitBundle` | packages/input-selection/src/change.ts:285-320 | a bundle within the limit is kept, any other becomes pieces that partition its tokens, are acceptable and, after the first, have just their minimum; every token is conserved; fails only when the coins do not reach for the minima of an acceptable cut |
| `BundleSize.SplitChange` | packages/input-selection/src/change.ts:278-323 | the change is the cuts of the bundles in their order, so every token is conserved and asset quantities stay positive; fails only on a bundle that is too large and has a cut whose minima its coins do not reach |
| `BundleSize.NothingToSplit` | packages/input-selection/src/change.ts:278-323 | change within the limit is left as it is |
| `Change.LeftoverExcess` | packages/input-selection/src/change.ts:325-372 | an asset that is neither in the outputs nor in the mint must come back in full |
| `Change.ComputeChangeBundles` | packages/input-selection/src/change.ts:325-372 | change that is returned has positive asset quantities, balances every covered token against inputs, mint, outputs, deposit and fee, and is cut from groups of the outputs' shares; false only when the value of exactly the positive excess is below its minimum; divides by zero if and only if nothing of a requested asset is selected or minted, and otherwise fails only when a group of shares cannot be split |
| `Change.MergedHasShare` | packages/input-selection/src/change.ts:103-128 | after merging every bundle still has at least the coin share of an output |
| `Change.SharesSplit` | packages/input-selection/src/change.ts:278-372 | no split fails when the coin share of every output reaches for the minima of the acceptable cuts |
| `Change.ExcessUnique` | packages/input-selection/src/change.ts:325-372 | that excess is a single value when every token is covered, so the cause of false leaves nothing open |
| `Change.ValidateChangeBundles` | packages/input-selection/src/change.ts:374-386 | accepts the bundles, unchanged, if and only if no token map exceeds the limit |
| `Change.MoveKeepsCover` | packages/input-selection/src/change.ts:408-426 | drawing one more UTxO never uncovers a token |
| `Change.ChangeAtFee` | packages/input-selection/src/change.ts:428-446 | change at a fee balances, has positive asset quantities and is within size; otherwise the excess is below its minimum, or the failure names what the selection cannot do with exactly its excess |
| `Change.RecomputeWithExtraUtxo` | packages/input-selection/src/change.ts:408-426 | for a selection that needs more, a result or a failure for the extended selection holds of the selection it started from |
| `Change.ComputeChangeAndAdjustForFee` | packages/input-selection/src/change.ts:398-481 | terminates; a result balances Lovelace and every covered asset, is within the size limit, and its inputs plus remaining UTxO are a permutation of the starting set; its inputs are the first selection on the pick sequence that needs no more, every one before it lacking the minimum or the fee; the fee is the estimate for acceptable change at no fee; every failure is explained: the whole wallet cannot pay its own fee, the excess of the whole wallet is below its minimum, a group of shares cannot be cut to size, or nothing of a requested asset is selected |
| `Change.BundleWithinMeans` | packages/input-selection/src/change.ts:325-372 | a bundle of any balancing change of a covering part of the wallet holds only positive quantities that the wallet and the mint have |
| `Change.CoveredNotMissing` | packages/input-selection/src/change.ts:103-128 | covered outputs with positive quantities never divide by zero, whatever UTxO are added |
| `Change.ZeroRequestDivides` | packages/input-selection/src/change.ts:103-128 | a coin-only UTxO that covers an output with a zero quantity of some asset: dividing by zero though everything is covered |
| `Change.EnoughNeverFails` | packages/input-selection/src/change.ts:396-481 | no failure can be explained for a wallet that has, on top of positive requests it covers, the minimum of anything it could make up and the fee of any covering part of it, and can make up nothing too large; so such a wallet always gets change |
| `Change.ChangeIsSmall` | packages/input-selection/src/change.ts:325-372 | with nothing too large there is at most one change bundle per output, each within the means of the wallet |
| `Change.GrowingFeeEnough` | packages/input-selection/src/change.ts:440-460 | for a fee bounded by the numbers of inputs and of change bundles, that is enough which pays for spending the whole wallet with one change bundle per output |
| `Selection.PreProcessArgs` | packages/input-selection/src/util.ts:54-84 | its result meets what the change computation demands, and implicit tokens net to the mint |
| `Selection.IsBalanceSufficient` | packages/input-selection/src/util.ts:125-146 | holds if and only if there is a UTxO and the whole wallet covers every transaction asset and the coins |
| `Selection.SufficientIffAffordable` | packages/input-selection/src/util.ts:125-146 | the tests of the transaction's assets and of the coins amount to affording every token |
| `Selection.PickLargestIsPick` | packages/input-selection/src/LargeFirstSelection/LargeFirstInputSelector.ts:40-53 | moves exactly one UTxO, and none that remained has more coins |
| `Selection.PickRandomMovesOne` | packages/input-selection/src/RoundRobinRandomImprove/index.ts:23-33 | whatever the random number, moves exactly one UTxO, and a coin-only one whenever there is one |
| `Selection.RoundRobinSelection` | packages/input-selection/src/RoundRobinRandomImprove/roundRobin.ts:75-125 | terminates with all UTxO accounted for, the required ones selected, and every requested token covered; each added UTxO was an improvement for a token when it came, and each token ends with no candidate left or one that is no improvement |
| `Selection.ImprovesIff` | packages/input-selection/src/RoundRobinRandomImprove/roundRobin.ts:12-36 | what improves: anything below the target, and from the target on what adds something without overshooting twice the target by more than it was missed, hence never beyond three times the target |
| `Selection.Select` | packages/input-selection/src/RoundRobinRandomImprove/index.ts:35-119 | end to end: coins and every asset balance with mint, deposit and fee; no input is lost, invented or repeated; required inputs are in; nothing is selected but what the round robin wants and what is then drawn while the minimum or the fee is lacking; size and input-count limits hold; the balance is refused exactly when the wallet is empty or cannot pay for a token; other failures are explained from a selection that covers everything; positive outputs never divide by zero; with enough for the minimum and the fee of what the wallet can make up only the input count can fail |
| `LittleEndian.AdderSum` | packages/crypto/src/Bip32/arithmetic.ts:11-46 | byte-wise carrying loses nothing: the bytes plus the final carry are worth the operands |
| `LittleEndian.AdderModulo` | packages/crypto/src/Bip32/arithmetic.ts:11-46 | dropping the carry out of 32 bytes leaves the sum modulo 2^256 |
| `LittleEndian.WrapIsModulo` | packages/crypto/src/Bip32/arithmetic.ts:11-46 | the reduction that carrying performs is the remainder modulo 2^256 |
| `LittleEndian.Add28Mul8` | packages/crypto/src/Bip32/arithmetic.ts:11-26 | the in-place loop equals (x + 8 * y[0..28]) mod 2^256, with a carry of at most 8 |
| `LittleEndian.Add256Bits` | packages/crypto/src/Bip32/arithmetic.ts:35-46 | the in-place loop equals (x + y) mod 2^256, with a carry of at most 1 |
| `LittleEndian.ValInjective` | packages/crypto/src/Bip32/arithmetic.ts:11-46 | byte strings of one length are determined by their value |
| `LittleEndian.ValToBytes` | packages/crypto/src/Bip32/arithmetic.ts:11-46 | a number that fits survives being written and read |
| `Bip32.DeriveHardened` | packages/crypto/src/Bip32/Bip32KeyDerivation.ts:22-39 | the two hashes are those of tag 0 and of tag 1 followed by scalar, IV and index, from one re-tagged buffer |
| `Bip32.HashSoft` | packages/crypto/src/Bip32/Bip32KeyDerivation.ts:48-62 | the two hashes are those of tag 2 and of tag 3 followed by the public point and the index |
| `Bip32.PointOfTrunc28Mul8` | packages/crypto/src/Bip32/Bip32KeyDerivation.ts:69-73 | the base point times eight times the low 28 bytes |
| `Bip32.DerivePrivateKey` | packages/crypto/src/Bip32/Bip32KeyDerivation.ts:99-114 | for every 32-bit index: with the hashes of the bytes written out for the hardened and the soft case, the scalar grows by eight times the low 28 bytes and the IV by the right half, modulo 2^256, and the chain code is the right half of the other hash; other indices fail |
| `Bip32.SameIvIff` | packages/crypto/src/Bip32/Bip32KeyDerivation.ts:99-114 | of one parent, two children share their IV if and only if the right halves of their hashes agree |
| `Bip32.SameScalarIff` | packages/crypto/src/Bip32/Bip32KeyDerivation.ts:99-114 | of one parent, two children share their scalar if and only if the low 28 bytes of their hashes agree |
| `Bip32.DerivePublicKey` | packages/crypto/src/Bip32/Bip32KeyDerivation.ts:125-148 | computes the child public key for soft indices, and fails on hardened and out-of-range ones |
| `Bip32.DeriveCommutes` | packages/crypto/src/Bip32/Bip32KeyDerivation.ts:48-148 | one soft step: deriving then taking the public key equals taking the public key then deriving |
| `Bip32.PathsCommute` | packages/crypto/src/Bip32/Bip32KeyDerivation.ts:48-148 | the same along every soft path of any length whose scalars stay below 2^255, for point and chain code |
| `Bip32.PathSteps` | packages/crypto/src/Bip32/Bip32PrivateKey.ts:133-141 | either derivation walks a path from its first index to its last |
| `Bip32.ClampScalar` | packages/crypto/src/Bip32/Bip32PrivateKey.ts:27-32 | the clamped scalar is divisible by 8 and in [2^254, 2^254 + 2^253); other bytes are untouched |
| `Bip32.StepInRange` | packages/crypto/src/Bip32/Bip32KeyDerivation.ts:99-114 | a step of any kind adds less than 2^227, keeps divisibility by 8 and does not wrap |
| `Bip32.PathInRange` | packages/crypto/src/Bip32/Bip32KeyDerivation.ts:99-114 | from a clamped root any mixed path of up to 2^26 steps keeps the scalar divisible by 8 and in [2^254, 2^255) |
| `Bip32.ClampedPathsCommute` | packages/crypto/src/Bip32/Bip32PrivateKey.ts:133-162 | below a clamped root, private and public derivation agree for every account path and soft path |
| `Credentials.ExtractCredentials` | packages/cardano-services-client/src/credentialUtils.ts:172-216 | each distinct address is listed once, under exactly its credentials; Byron and pointer addresses are set apart, each once |
| `Credentials.BuildCredentialList` | packages/cardano-services-client/src/credentialUtils.ts:226-255 | one entry per credential that has addresses, payment credentials first, with its addresses and their number |
| `Credentials.UpdateUncoveredCounts` | packages/cardano-services-client/src/credentialUtils.ts:258-262 | every count becomes the number of listed addresses not yet covered |
| `Credentials.FindBestCredential` | packages/cardano-services-client/src/credentialUtils.ts:265-286 | a largest count, a payment credential on ties, none if and only if all counts are zero |
| `Credentials.BestCoversShare` | packages/cardano-services-client/src/credentialUtils.ts:258-336 | for any cover by k credentials, a best credential newly covers at least 1/k of what is uncovered |
| `Credentials.GreedyStep` | packages/cardano-services-client/src/credentialUtils.ts:318-333 | a greedy step lowers k times the harmonic number of the uncovered addresses by at least one |
| `Credentials.MinimizeCredentialSet` | packages/cardano-services-client/src/credentialUtils.ts:309-336 | terminates with a sub-map that covers every address, of at most k * H(n) credentials for any cover of k credentials |
| `UtxoFetch.ControlledCredentials` | packages/cardano-services-client/src/credentialUtils.ts:92-122 | exactly the payment credentials of the given addresses |
| `UtxoFetch.MergeAndDeduplicate` | packages/cardano-services-client/src/UtxoProvider/BlockfrostUtxoProvider.ts:113-126 | first UTxO per reference, in the order of transaction id and then index |
| `UtxoFetch.FetchByAddresses` | packages/cardano-services-client/src/UtxoProvider/BlockfrostUtxoProvider.ts:180-189 | exactly the UTxO at the addresses |
| `UtxoFetch.FetchAllByCredentials` | packages/cardano-services-client/src/UtxoProvider/BlockfrostUtxoProvider.ts:159-178 | exactly the UTxO that a payment query finds or a filtered reward-account query lets through |
| `UtxoFetch.CoverFinds` | packages/cardano-services-client/src/UtxoProvider/BlockfrostUtxoProvider.ts:199-228 | every base or enterprise address has one of the credentials kept by the minimization |
| `UtxoFetch.GroupedByAll` | packages/cardano-services-client/src/credentialUtils.ts:172-216 | an address is grouped under exactly the credentials a query finds it by |
| `UtxoFetch.FetchByCredentials` | packages/cardano-services-client/src/UtxoProvider/BlockfrostUtxoProvider.ts:199-228 | complete for parseable payment addresses, controlled, unique and sorted; exactly what a cover within k times H(n) finds, reward accounts filtered, and what is at Byron and pointer addresses |
| `UtxoFetch.CompleteIffFetchable` | packages/cardano-services-client/src/UtxoProvider/BlockfrostUtxoProvider.ts:199-228 | such a fetch returns, whatever the ledger, everything the per-address fetch does if and only if every input address is of a kind the grouping keeps |
| `WsStore.RelevantSuffice` | packages/cardano-services-client/src/WebSocket.ts:138-146 | dropping irrelevant transactions, failed ones included, leaves the ledger's holdings of the addresses unchanged |
| `WsStore.RelevantIff` | packages/cardano-services-client/src/WebSocket.ts:138-146 | relevant exactly when by the ledger rule it spends or creates something at the addresses |
| `WsStore.IsUnspent` | packages/cardano-services-client/src/WebSocket.ts:623-633 | the flag loops decide whether a later transaction spends the output |
| `WsStore.CollectUnspent` | packages/cardano-services-client/src/WebSocket.ts:615-637 | the four nested loops list exactly the relevant unspent outputs in order |
| `WsStore.FoldHolds` | packages/cardano-services-client/src/WebSocket.ts:615-637 | an output is in the fold if and only if nothing after its transaction spends it, for bodies and for the ledger rule alike |
| `WsStore.LoopsComputeFold` | packages/cardano-services-client/src/WebSocket.ts:615-637 | on any list with distinct ids the loops list exactly the fold of remove-inputs, add-outputs over the bodies at the addresses, each reference once |
| `WsStore.AgreeIffHarmless` | packages/cardano-services-client/src/WebSocket.ts:615-637 | for histories in which every transaction names only unspent outputs, that fold gives the addresses what the ledger does if and only if every failed transaction lists no output at them, has no unspent return to them, lists no input that is left to them, and spends no collateral of theirs that is not listed as an input |
| `WsStore.ServerShapedHarmless` | packages/cardano-services/src/WsServer/transactions.ts:676-685 | of failed transactions as the server sends them: harmless if and only if they spend no output of the addresses and leave no return to them |
| `WsStore.RelevantListed` | packages/cardano-services-client/src/WebSocket.ts:611-637 | what is listed of the relevant transactions is the whole ledger at the addresses when none of them failed, and otherwise if and only if the failures are harmless |
| `WsStore.SortTxsSorted` | packages/cardano-services-client/src/WebSocket.ts:611-613 | the sort is a permutation in order of block and index |
| `WsStore.SortRelevant` | packages/cardano-services-client/src/WebSocket.ts:611-613 | filtering then sorting equals sorting then filtering |
| `WsStore.ReceiveValid` | packages/cardano-services-client/src/WebSocket.ts:341-376 | both maps stay keyed by id and disjoint, and nothing above a new tip stays |
| `WsStore.ReceiveStores` | packages/cardano-services-client/src/WebSocket.ts:340-366 | what a message leaves: listed transactions, the last of an id, and those stored before; partial ones unless a full one is stored; of both exactly what a new tip allows, unchanged |
| `WsStore.StoredIffDelivered` | packages/cardano-services-client/src/WebSocket.ts:340-366 | after any run a transaction is stored if and only if the last message listing its id had it and no tip since was below it |
| `WsStore.EveryRunValid` | packages/cardano-services-client/src/WebSocket.ts:341-376 | after every run of messages no transaction id is stored twice |
| `WsStore.WsClient.OnMessage` | packages/cardano-services-client/src/WebSocket.ts:341-376 | the handler's loops perform that store update |
| `WsStore.WsClient.UtxoByAddresses` | packages/cardano-services-client/src/WebSocket.ts:590-642 | rejects if and only if an address is not loaded or still loading; otherwise, for hydrated histories, lists exactly the ledger's UTxO at the addresses without duplicates when no relevant transaction failed, and if some did, exactly when that is harmless |
| `WsStore.FailedTransactionListed` | packages/cardano-services-client/src/WebSocket.ts:615-637 | a plausible history of a funding and a failed transaction after which the ledger has nothing at the address and the loops still list the spent collateral |
| `SlotCalc.EpochSlots` | packages/core/src/util/slotCalc.ts:131-160 | for any eras, the place of the walk after that many epochs, none exactly when there is no era; across well-formed eras the first slot of the epoch, in the era in force there |
| `SlotCalc.WalkIsEpoch` | packages/core/src/util/slotCalc.ts:131-160 | across ascending, aligned eras the walk of n epochs arrives at the first slot of epoch n |
| `SlotCalc.SlotEpoch` | packages/core/src/util/slotCalc.ts:26-53 | for eras in any order, the era and the epoch sum of the eras sorted by start, where the era is a latest one that has started; fails if and only if none has |
| `SlotCalc.OrderedRelevant` | packages/core/src/util/slotCalc.ts:31-37 | grouping by start and keeping the last of each group leaves the same eras as grouping the stably sorted eras |
| `SlotCalc.RelevantSum` | packages/core/src/util/slotCalc.ts:26-41 | dropping skipped and future eras and re-sorting changes neither the sum nor the era in force |
| `SlotCalc.SumIsEpoch` | packages/core/src/util/slotCalc.ts:26-53 | that sum is the epoch counted from the era in force |
| `SlotCalc.SlotInItsEpoch` | packages/core/src/util/slotCalc.ts:26-53 | every slot lies in the range of the epoch it maps to |
| `SlotCalc.EpochMapsBack` | packages/core/src/util/slotCalc.ts:131-160 | every slot of an epoch's range, both ends included, maps back to the epoch |
| `SlotCalc.EpochUnique` | packages/core/src/util/slotCalc.ts:131-160 | an epoch has one first slot and one era, so the two algorithms cannot disagree |
| `SlotCalc.EpochsAscend` | packages/core/src/util/slotCalc.ts:131-160 | later epochs start later |
| `SlotCalc.EpochsTile` | packages/core/src/util/slotCalc.ts:131-160 | consecutive epochs tile the slots without gap or overlap |
| `SlotCalc.SlotsOfEpoch` | packages/core/src/util/slotCalc.ts:26-160 | a slot maps to an epoch if and only if it is in the epoch's range |
| `SlotCalc.SlotEpochInfo` | packages/core/src/util/slotCalc.ts:96-122 | for eras in any order, the epoch sum of the eras sorted by start and the epoch-long range around the slot in a latest era that has started, none exactly when none has; across well-formed eras the epoch and its range are those of the other algorithm |
| `ChainSyncBuffer.Buffered.Next` | packages/projection/src/bufferChainSyncEvent.ts:16-44 | the closure performs the specified step |
| `ChainSyncBuffer.Buffered.OnSourceNext` | packages/projection/src/bufferChainSyncEvent.ts:54-58 | an emitted event enters the buffer and its pull replaces the used one |
| `ChainSyncBuffer.Buffered.OnSourceComplete` | packages/projection/src/bufferChainSyncEvent.ts:46-49 | completion is remembered and tried |
| `ChainSyncBuffer.Buffered.OnSourceError` | packages/projection/src/bufferChainSyncEvent.ts:50-53 | an error is remembered and tried |
| `ChainSyncBuffer.Buffered.RequestNext` | packages/projection/src/bufferChainSyncEvent.ts:38-42 | an acknowledgement makes the consumer ready and advances |
| `ChainSyncBuffer.Buffered.Teardown` | packages/projection/src/bufferChainSyncEvent.ts:61-63 | unsubscribing stops the machine |
| `ChainSyncBuffer.StepKeepsInv` | packages/projection/src/bufferChainSyncEvent.ts:9-64 | every action keeps: delivered ++ buffer = received, at most one unacknowledged event, at most length buffered, each pull used at most once and withheld only from a buffer that was full, the end told only after draining |
| `ChainSyncBuffer.EveryRunKeepsInv` | packages/projection/src/bufferChainSyncEvent.ts:9-64 | the same after every run, for every length of at least one |
| `ChainSyncBuffer.FillsBuffer` | packages/projection/src/bufferChainSyncEvent.ts:16-44 | for a length of at least two, while the consumer is busy events fill the buffer to its length, and each but the last is answered with a pull |
| `ChainSyncBuffer.LengthOneNeverBuffers` | packages/projection/src/bufferChainSyncEvent.ts:9-64 | with length one no run ever buffers an event: each pull waits for an acknowledgement |
| `ChainSyncBuffer.NeverStuck` | packages/projection/src/bufferChainSyncEvent.ts:9-64 | at rest the consumer is busy, a pull is outstanding or the source has ended; an idle consumer that is still subscribed after the end is one of a source that neither completed nor failed truthily |
| `ChainSyncBuffer.ToldIff` | packages/projection/src/bufferChainSyncEvent.ts:26-31 | an idle consumer that stays has been told of completion if and only if the source completed, of an error if and only if it failed truthily, and of nothing after a falsy error |
| `ChainSyncBuffer.FalsyErrorNotTold` | packages/projection/src/bufferChainSyncEvent.ts:26-31 | after a falsy error the consumer is not told, and nothing but unsubscribing is possible |
| `ChainSyncBuffer.ZeroNeverPulls` | packages/projection/src/bufferChainSyncEvent.ts:9-64 | with length zero no run ever pulls, so at most one event arrives |
| `ChainSyncBuffer.ZeroLengthDeadlocks` | packages/projection/src/bufferChainSyncEvent.ts:9-64 | with length zero a concrete run deadlocks |
| `StabilityWindow.StabilityWindowBuffer.DeleteOldBlockData` | packages/projection-typeorm/src/TypeormStabilityWindowBuffer.ts:117-132 | deletes exactly the data below height - k at compaction heights, nothing otherwise |
| `StabilityWindow.StabilityWindowBuffer.Project` | packages/projection-typeorm/src/TypeormStabilityWindowBuffer.ts:84-115 | performs the specified step on blocks and block data |
| `StabilityWindow.StabilityWindowBuffer.GetBlock` | packages/projection-typeorm/src/TypeormStabilityWindowBuffer.ts:61-82 | returns stored data with the hash, null if and only if there is none |
| `StabilityWindow.EveryRunKeepsInv` | packages/projection-typeorm/src/TypeormStabilityWindowBuffer.ts:84-132 | after every run the data is that of current chain blocks and every block in the window is stored |
| `StabilityWindow.StoredIffKept` | packages/projection-typeorm/src/TypeormStabilityWindowBuffer.ts:84-132 | after every run exactly those blocks are stored that came at most k below the tip and were neither undone nor compacted away since |
| `StabilityWindow.UndoableBlocksStored` | packages/projection/src/types.ts:80-95 | after every run each projected block that can still be undone has its own data in the buffer |
| `StabilityWindow.RollbackFindsBlock` | packages/projection/src/types.ts:80-95 | whatever rollback the node may make next, the block it undoes is stored |
| `StabilityWindow.InsertIsFresh` | packages/projection-typeorm/src/TypeormStabilityWindowBuffer.ts:99-115 | inserting block data never violates the primary key |
| `StabilityWindow.CompactedSize` | packages/projection-typeorm/src/TypeormStabilityWindowBuffer.ts:117-132 | right after storing a block at a compaction height at most k + 1 blocks are kept |
| `Serializable.OnlyJsonShapes` | packages/util/src/serializableObject.ts:59-122 | whatever is serialized, only null, booleans, numbers, strings, arrays and objects come out, at every depth |
| `Serializable.WireFormat` | packages/util/src/serializableObject.ts:58-121 | the tag and the payload written for each kind of value |
| `Serializable.RoundTrip` | packages/util/src/serializableObject.ts:59-172 | deserializing a serialized value gives it back if and only if no object at any depth carries a tag string under the type key and, when the type key is itself 'value', nothing needs a payload |
| `Serializable.RoundTripFields` | packages/util/src/serializableObject.ts:108-115 | names and order of an object's fields come back, and the fields if and only if their values do |
| `Serializable.FieldsKept` | packages/util/src/serializableObject.ts:108-115 | serializing keeps every field, in order, under its serialized name |
| `Serializable.TagFound` | packages/util/src/serializableObject.ts:139-140 | the reader sees a tag in a plain object if and only if the object collides |
| `Serializable.SetBack` | packages/util/src/serializableObject.ts:93-98 | a Set comes back if and only if its members do |
| `Serializable.SetMembers` | packages/util/src/serializableObject.ts:149-150 | a Set keeps every member and no primitive twice |
| `Serializable.MapBack` | packages/util/src/serializableObject.ts:99-107 | a Map comes back if and only if its pairs do |
| `Serializable.FurtherIgnored` | packages/util/src/serializableObject.ts:151-156 | a pair of a Map is read from its first two entries |
| `Serializable.TagLost` | packages/util/src/serializableObject.ts:59-172 | with 'value' as the type key the payload overwrites the tag, and what is then read |
| `Serializable.TagAlone` | packages/util/src/serializableObject.ts:140-142 | a tag without a value stands for undefined if and only if it says so |
| `Serializable.CollisionExample` | packages/util/src/serializableObject.ts:140-142 | an object that carries the tag 'undefined' is read as undefined |
| `Text.HexRoundTrip` | packages/util/src/serializableObject.ts:72-76 | hex text gives back the bytes |
| `Text.IntRoundTrip` | packages/util/src/serializableObject.ts:117-121 | decimal text gives back the integer, negative ones included |
| `Certificates.Compound` | packages/cardano-services/src/WsServer/transactions.ts:390-421 | for any lists: the unmatched, the unclaimed and the merged certificates; for distinct indexes, shared indexes move merged to the third list and everything else stays |
| `Certificates.CompoundTables` | packages/cardano-services/src/WsServer/transactions.ts:390-421 | the same as tables from index to certificate, with distinct indexes in all three results |
| `Certificates.PassesGiveWhole` | packages/cardano-services/src/WsServer/transactions.ts:458-488 | after the four passes exactly one of the seven lists has an index that any record has, and it has the certificate its records stand for |
| `Certificates.FourPasses` | packages/cardano-services/src/WsServer/transactions.ts:458-488 | the passes on lists compute those seven tables |
| `Certificates.Store` | packages/cardano-services/src/WsServer/transactions.ts:490-496 | writes each certificate of a list into its cell |
| `Certificates.MapCertificates` | packages/cardano-services/src/WsServer/transactions.ts:458-496 | for distinct indexes every index gets exactly one certificate, of the kind fixed by which base lists have it, and each cell is written exactly once |
| `Certificates.PartsRecovered` | packages/cardano-services/src/WsServer/transactions.ts:458-496 | every deposit, pool and dRep is read off the certificates again, at its index and nowhere else |
| `Certificates.CredentialKept` | packages/cardano-services/src/WsServer/transactions.ts:458-489 | the credential kept is that of the vote, or else of the registration, or else of the delegation |
| `Certificates.SplitBack` | packages/cardano-services/src/WsServer/transactions.ts:458-496 | all base records come back if and only if those under one index name the same credential |
| `Notifications.WsServer.OnNotification` | packages/cardano-services/src/WsServer/server.ts:187-192 | the next number is handed out |
| `Notifications.WsServer.Send` | packages/cardano-services/src/WsServer/server.ts:541-556 | stores the message and sends every message whose turn has come |
| `Notifications.EveryRunInOrder` | packages/cardano-services/src/WsServer/server.ts:541-556 | for every order in which handlers finish: messages are sent as 1, 2, 3, ... without gap or repeat, the next number is not pending, exactly the finished numbers above the last sent are held |
| `Notifications.SentIffAllEarlierDone` | packages/cardano-services/src/WsServer/server.ts:541-556 | a message has been sent if and only if its handler and all earlier ones have finished |
| `Notifications.RunExtends` | packages/cardano-services/src/WsServer/server.ts:541-556 | a later event never takes back or reorders what was sent |
| `Notifications.OrderDoesNotMatter` | packages/cardano-services/src/WsServer/server.ts:541-556 | runs in which the same handlers finished with the same messages leave the same state |
| `Notifications.AllDoneAllSent` | packages/cardano-services/src/WsServer/server.ts:541-556 | once all handlers have finished everything has been sent and nothing is held |
| `Division.RemainderDivides` | packages/core/src/Asset/crc8.ts:24-32 | long division with an eight-bit register finds a remainder: message = q * (x^8 + x^2 + x + 1) + r |
| `Division.RemainderUnique` | packages/core/src/Asset/crc8.ts:24-32 | there is no other remainder of degree below eight |
| `Division.ByteLater` | packages/core/src/Asset/crc8.ts:28-28 | feeding a byte equals feeding eight zeros and adding the byte |
| `Division.UnzeroInverts` | packages/core/src/Asset/crc8.ts:28-28 | feeding zeros is a bijection of the registers |
| `Crc8.EntryDivides` | packages/core/src/Asset/crc8.ts:3-18 | all 256 table entries are what long division leaves of their index times x^8 |
| `Crc8.CrcIsRemainder` | packages/core/src/Asset/crc8.ts:24-32 | on every byte sequence the table-driven value is the remainder of long division |
| `Crc8.Crc8` | packages/core/src/Asset/crc8.ts:24-32 | the loop's result is the one remainder of message * x^8 modulo the polynomial |
| `Crc8.TableInverse` | packages/core/src/Asset/crc8.ts:3-18 | the table is a permutation of the bytes, with its inverse |
| `Crc8.StepBijective` | packages/core/src/Asset/crc8.ts:28-28 | for every byte and result exactly one CRC leads there through the table |
| `Crc8.OneByteChange` | packages/core/src/Asset/crc8.ts:24-32 | changing one byte anywhere in a message of any length changes the CRC |
| `Crc8.CrcAppend` | packages/core/src/Asset/crc8.ts:24-32 | a message may be processed in parts through the previous parameter |
| `Cip67.EncodeIs` | packages/core/src/Asset/cip67.ts:73-77 | encoding succeeds if and only if the label is in 0..65535 and the content is hex of at most 56 digits, and gives bracketed label, checksum and content |
| `Cip67.LabelIs` | packages/core/src/Asset/cip67.ts:30-33 | the label is the number and the CRC-8 of its two bytes, high byte first, in hex between zeros |
| `Cip67.DecodeEncoded` | packages/core/src/Asset/cip67.ts:58-77 | decoding an encoded name returns the label and the content, for every label and every content that can be encoded |
| `Cip67.EncodeDecoded` | packages/core/src/Asset/cip67.ts:58-77 | decoding an asset name never throws, and what it returns encodes to the same name |
| `Cip67.DecodesIffEncoded` | packages/core/src/Asset/cip67.ts:41-71 | decoding recognises exactly the names that encoding makes |
| `Cip67.ChecksumCatches` | packages/core/src/Asset/cip67.ts:30-35 | changing one of the two bytes of a label number changes its checksum |
| `Text.PaddedHex` | packages/core/src/Asset/cip67.ts:75-75 | toString(16).padStart gives exactly the digits of that width |
| `Text.ParseFixed` | packages/core/src/Asset/cip67.ts:55-55 | parsing those digits gives the number back |
| `Text.FixedParse` | packages/core/src/Asset/cip67.ts:55-55 | lower-case digits are those of the number they parse to |

## Left out

- Network, database and file access (HTTP, WebSocket, Postgres, TypeORM, Blockfrost, Ogmios), loggers and RxJS glue: only
  the logic between them is modelled.
- Real HMAC-SHA512, Ed25519 and Blake2b, and libsodium's failures: abstract functions with the group law as a hypothesis.
- Fee adequacy of the final selection: it depends on the cost estimator, which is a parameter; only that the fee is its
  estimate for the final inputs is stated.
- changeAddressResolver, redeemers and the final sorting of the inputs in the round-robin selector; the other selectors,
  apart from the large-first pick.
- Aliasing of change bundle objects: bundles are values, and methods return the new list.
- Asynchrony of computeMinimumCoinQuantity and estimateTxCosts: they are functions of their arguments.
- deserializeDatum, deserializeMetadata and health or network-info events in the WebSocket client's message handler.
- Orphaned transactions at the same height as a new tip: the code drops only greater heights, and no more is claimed.
- WsStore.WsClient.UtxoByAddresses: the output index of a collateral return is a field of the modelled transaction, which
  the client does not have; it is at least the number of outputs.
- Sources that emit synchronously inside requestNext: a source answers a pull later.
- The memoized epochSlotsCalc wrapper and createSlotTimeCalc: the unmemoized calculation is modelled.
- SlotCalc.EpochSlots: that the walk arrives at an epoch is stated for ascending eras with positive epoch lengths and
  epoch-aligned boundaries; for others only the walk itself is. A negative epoch number, on which it never ends, is not
  modelled.
- SlotCalc.SlotEpoch: epoch lengths are positive; a length of zero gives NaN or Infinity.
- UtxoFetch.MergeAndDeduplicate: localeCompare on transaction ids is any comparison the caller gives; pagination and the
  CBOR cache are not modelled.
- Byron, pointer and reward address parsing: addresses are already parsed values.
- Serializable.RoundTrip: numbers are integers, so NaN and -0 are not told apart; Error values, cyclic objects, typed arrays
  other than bytes, the key `__proto__`, sparse arrays and invalid dates are not modelled; a custom key transform is
  assumed to be undone by its partner and not to reorder integer-like keys.
- Text.IntRoundTrip: of the strings BigInt accepts only an optional minus sign and decimal digits are modelled.
- Certificates.MapCertificates: the rows are already mapped to certificates, and the certificates written afterwards
  (unregistrations, dRep, pool and committee certificates) may overwrite cells.
- Certificates.Compound: the tables are stated for lists with distinct indexes; for repeated ones only the lists are.
- Notifications.WsServer.Send: messages that belong to no notification are sent at once and are not modelled; delivery to
  each client and the filter by its addresses are left out.
- Crc8.Crc8: previous is a byte; the source accepts any number and truncates it.
- Cip67.EncodeIs: the label is an integer.
- CBOR, bech32, transaction building, hardware and in-memory key agents, the CIP-30 API, CLI and the other packages.
