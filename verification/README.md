# Randioum: a verified model

A model in Dafny of the deterministic core of the Randioum blockchain node, with proofs about it. Each module follows
one part of the source. Where the source computes by changing things step by step, there is a class or a method with
loops, and its contract ties it to a specification function; the theorems are about that function, over every input,
every run or every reachable state.

`dafny verify dfyconfig.toml` checks everything.

| part of the source | specification | theorems | imperative form |
|---|---|---|---|
| ABI codec | `AbiTypes`, `AbiWords`, `AbiCodec`, `AbiSpec` | `AbiRoundTrip`, `AbiTheorems`, `AbiInjective`, `AbiLayout` | `AbiProcedures` |
| Merkle multiproof | `MerkleTree`, `Multiproof` | `MultiproofTheorems`, `MultiproofFrontier`, `MultiproofCounts` | `Multiproof` |
| AMM pool | `ContractStore`, `Isqrt`, `Amm` | `PoolMath`, `AmmTheorems`, `Ledger`, `AmmCalls`, `AmmEffects` | `Isqrt`, `AmmProcedure` |
| EVM core | `U256`, `WordBits`, `EvmMachine` | `EvmTheorems`, `EvmSemantics` | `U256`, `WordBits`, `EvmInterpreter` |
| light header sync | `LightSync` | `LightSync` | `LightSyncProcedure` |
| mempool | `MempoolModel` | `MempoolModel`, `MempoolPriority`, `MempoolProcedure`, `MempoolShards` | `MempoolProcedure` |
| planner, executor, closing of a block | `Executor`, `BaseFee`, `Settlement` | `ExecutorTheorems`, `ExecutorFees`, `BaseFee`, `Settlement` | `ExecutorProcedure` |
| consensus core, checkpoints | `Staking`, `Consensus`, `Checkpoint` | `ConsensusTheorems`, `ConsensusSteps`, `ConsensusCommits`, `ConsensusForks`, `Checkpoint` | `ConsensusProcedure`, `Checkpoint` |
| gossip erasure coding | `Erasure` | `ErasureTheorems` | `ErasureProcedure` |
| lending contract | `Lend` | `LendTheorems`, `LendCalls`, `LendEffects` | `LendProcedure` |
| stablecoin contract | `Stable` | `StableTheorems`, `StableCalls`, `StableEffects` | `StableProcedure` |
| execution cache | `ExecCache` | `ExecCache`, `ExecCacheOrder` | `ExecCache` |
| CRC-32 | `Crc32` | `Crc32` | `Crc32` |

`Common` holds options, 64-bit and 128-bit ranges and bytes; `Sums` sums over finite maps and inclusion-exclusion of
stake. Integer widths are explicit: `u64` is a bounded integer, a sum or product that can wrap is written with `Wrap64`
or `Wrap128`. SHA-256, Keccak and signature checks are parameters; where a key or an address is a hash of a text, the
text stands for it, which takes the hash to be injective.

## What the code does differently from what one would expect

The model follows the code, also where that is surprising. Each of these is stated with its exact condition by the
lemmas named.

- A trailing empty tuple, or one with fewer than 32 bytes after it, is encoded but not read back
  (`AbiTheorems.DecodeInvertsEncode` with `Fits`, `AbiTheorems.EmptyTupleIsNotReadBack`).
- The ABI decoder takes tails in any order and with gaps between them, so different inputs decode to one dynamic value;
  which inputs it takes is `AbiLayout.DecodesIffLaid`. Static values have one encoding (`AbiLayout.StaticReencodes`).
- A multiproof with a side node at the root proves nothing about its leaves (`MultiproofFrontier.RootSideNodeBindsNothing`);
  a leaf is proved exactly when it is bound (`BoundLeafIsGenuine`, `UnboundLeafCanClaimAnything`). A claimed count of
  2^64 - 1 leaves is not hashed at all (`MultiproofFrontier.FullCountTakesAnyRoot`).
- The integer square root never returns for x = n*n - 1 with n >= 2, so a first deposit with such a product hangs
  (`Isqrt.LoopStopsIff`, `AmmTheorems.FirstDepositHangsIff`).
- Binary EVM operators take (second, top): SUB gives second minus top, not the Yellow Paper's order
  (`EvmTheorems.OperandOrderShowsIff`). Call-data reads whose index passes 2^64 wrap to the start of the data
  (`EvmTheorems.WindowWraps`).
- A transaction the mempool refuses has still evicted everything worse than it (`MempoolModel.RefusalEvicts`). With
  different compute bids a shard may not pick its worst entry, and the victim depends on the shard count
  (`MempoolModel.ShardEndsOnWorstIff`, `MempoolShards.VictimIsWorstIff`, `MempoolShards.EvictionDependsOnShardsIff`). A fee
  near 2^64 gets rate 0 (`MempoolModel.FeeRateRoundsUp`).
- A self-transfer creates its amount and fee and keeps its nonce (`ExecutorTheorems.TransferKeepsMoneyIff`,
  `ExecutorTheorems.NonceStaysIff`; over a plan `ExecutorTheorems.ExecutionKeepsMoneyIff`, over a run of blocks
  `Settlement.RunKeepsSoundIff`).
- A block that uses more than the target lowers the base fee once its numbers do not fit 64 bits
  (`BaseFee.FeeFollowsIff`, `BaseFee.FullBlockCanDropFee`).
- The quorum threshold is computed on 64 bits, and two quorums need not meet once the product wraps
  (`ConsensusTheorems.QuorumsMeetIff`, `ConsensusTheorems.TwoThirdsIsOverHalfIff`); nor does an accepted checkpoint mean
  two thirds once the stake does not fit 64 bits (`Checkpoint.AcceptanceIsValidityIff`).
- A proposal sent again replaces the known block and drops its certificate (`ConsensusForks.StaysCertifiedIff`).
- Certificates of later rounds may commit another branch (`ConsensusCommits.CommitsOnOneChainIff`,
  `ConsensusForks.ForksCanCommit`).
- Liquidating oneself in the lending contract creates shares, and configuring again zeroes the totals while users keep
  theirs (`LendTheorems.LiquidationKeepsIff`, `LendTheorems.ConfiguringKeepsIff`).
- The stablecoin divides by a zero price (`StableTheorems.UndefinedIff`), native balance is created when its vault is the
  caller (`StableTheorems.CallKeeps`), and a liquidator is paid too little once a 128-bit product wraps
  (`StableTheorems.RewardCoversCoinsIff`).
- The health tests of both contracts cut a product to 128 bits, so a richly covered position can be liquidated; an
  uncovered one never passes (`LendEffects.HealthOkIff`, `StableEffects.CollateralisedIff`).
- Lending interest is added to the total debt and to nobody's own, so it can never be repaid
  (`LendTheorems.InterestStaysOwed`), and it is too little once its product wraps (`LendTheorems.InterestIsOwedIff`).
- Gossip reads a delivered message's topic from an entry that it has just erased, so the original message is delivered
  exactly when that memory still holds its topic (`ErasureTheorems.OriginalIsDeliveredIff`). A new entry can be evicted
  and used nevertheless (`ErasureTheorems.EntryIsGoneIff`, `ErasureTheorems.EntryCanBeGone`).
- A multiproof's leaf count is not bound by the root; what a proof with another count shows is said by
  `MultiproofCounts.AnyCountIsSound`.
- Past `max_headers` the arrival order decides which headers are kept (`LightSync.OrderIsIrrelevantIff`). The final test
  that drops a tip for missing ancestry never drops one (`LightSyncProcedure.LightHeaderSync.Settle`).

## Model

| member | source | states |
|---|---|---|
| `AbiTheorems.DecodeInvertsEncode` | src/abi_codec.cpp:900-953 | Decoding an encoding followed by any suffix within the size limits gives back the values and the encoded length exactly when `Fits` holds, and is an error otherwise; all nested types, no condition on the values beyond having been encoded |
| `AbiLayout.DecodesIffLaid` | src/abi_codec.cpp:455-828 | The decoder gives these values and this extent exactly when the input is a layout of them: padded words, sizes and offsets in place, tails after the heads at multiples of 32, apart where asked for, within all limits |
| `AbiLayout.StaticReencodes` | src/abi_codec.cpp:455-586 | Encoding a decoded static value gives back its bytes, so no two inputs decode to one static value |
| `AbiTheorems.SolidRoundTrip` | src/abi_codec.cpp:200-828 | For types without zero-width bytesN, zero-length fixed arrays and empty tuples, and valid UTF-8 texts, `Fits` always holds: the round trip is unconditional |
| `AbiInjective.EncoderTellsApart` | src/abi_codec.cpp:200-453 | For every type, value and limits: two encodings under the same types that agree after appending something have equal values and equal suffixes, so the encoder is injective and prefix-free on all it encodes |
| `AbiTheorems.EncodingIsSelfDelimiting` | src/abi_codec.cpp:200-453 | The same by way of the decoder, for types and texts that always read back |
| `AbiTheorems.EmptyTupleIsNotReadBack` | src/abi_codec.cpp:455-586 | A lone empty tuple encodes to nothing and is refused when read back without 32 bytes after it |
| `AbiSpec.TupleMeetsSpec` | src/abi_codec.cpp:200-255 | The offsets and bytes produced are the head/tail encoding of the ABI specification, `head(X1)..head(Xn) tail(X1)..tail(Xn)`, defined independently |
| `AbiSpec.StaticMeetsSpec` | src/abi_codec.cpp:257-375 | A static value's encoding is the specification's `enc` |
| `AbiSpec.DynamicMeetsSpec` | src/abi_codec.cpp:377-453 | A dynamic value's encoding is the specification's `enc`, whatever absolute position it is written at |
| `AbiRoundTrip.TupleRoundTrip` | src/abi_codec.cpp:717-828 | Tuple decoding inverts tuple encoding exactly when the components fit, at every depth and base offset |
| `AbiRoundTrip.DynamicRoundTrip` | src/abi_codec.cpp:588-715 | The same for one dynamic component |
| `AbiRoundTrip.StaticRoundTrip` | src/abi_codec.cpp:455-586 | The same for one static component |
| `AbiRoundTrip.RangesArePacked` | src/abi_codec.cpp:791-828 | The tails of an encoding occupy adjacent ranges starting where the heads end |
| `AbiRoundTrip.PackedRangesEnd` | src/abi_codec.cpp:791-828 | Adjacent ranges pass the overlap test and end where the last one ends |
| `AbiRoundTrip.StaticEncodingSize` | src/abi_codec.cpp:849-888 | A static value encodes to exactly its static size |
| `AbiRoundTrip.DynamicEncodingSize` | src/abi_codec.cpp:377-453 | A dynamic value encodes to a length that depends on the value alone, not on position or depth |
| `AbiRoundTrip.DynamicLenIsWordMultiple` | src/abi_codec.cpp:377-453 | Dynamic encodings are whole words |
| `AbiTypes.StaticSizeIsWordMultiple` | src/abi_codec.cpp:849-888 | Static sizes are multiples of 32 (also after 64-bit wrap-around) |
| `AbiWords.SizeWordRoundTrip` | src/abi_codec.cpp:56-76 | A 64-bit size written as a word reads back |
| `AbiWords.UintBitsMeanRange` | src/abi_codec.cpp:150-157 | The zero-prefix test accepts exactly the words below 2^bits |
| `AbiWords.IntBitsMeanRange` | src/abi_codec.cpp:159-170 | The sign-extension test accepts exactly the words whose two's-complement value is in the range of intN |
| `AbiWords.ValidUtf8IsText` | src/abi_codec.cpp:86-148 | Bytes the checker accepts are the UTF-8 encoding of a sequence of Unicode scalar values |
| `AbiWords.TextIsValidUtf8` | src/abi_codec.cpp:86-148 | Every sequence of Unicode scalar values encodes to bytes the checker accepts |
| `AbiWords.CheckUtf8` | src/abi_codec.cpp:86-148 | The byte loop decides validity |
| `AbiProcedures.WriteTuple` | src/abi_codec.cpp:200-255 | Appends exactly the encoding of the components to the output vector; on an error reports it and has appended nothing, or everything where only the last size test fails |
| `AbiProcedures.WriteStatic` | src/abi_codec.cpp:257-375 | Appends exactly a static value's encoding, or reports its error and has appended the elements before the one that fails |
| `AbiProcedures.WriteDynamic` | src/abi_codec.cpp:377-453 | Appends exactly a dynamic value's encoding, or reports its error and has appended at most a length word and what its components left |
| `AbiProcedures.HeadSizes` | src/abi_codec.cpp:200-217 | The head length with its overflow test |
| `AbiProcedures.ReadTuple` | src/abi_codec.cpp:717-828 | The two-pass loop reads what the specification function reads: heads, then tails, then the range check |
| `AbiProcedures.ReadStatic` | src/abi_codec.cpp:455-586 | Reads a static value |
| `AbiProcedures.ReadDynamic` | src/abi_codec.cpp:588-715 | Reads a dynamic value and how much it used |
| `AbiProcedures.ReadTails` | src/abi_codec.cpp:752-790 | Follows the offsets and collects the ranges |
| `AbiProcedures.CheckPacked` | src/abi_codec.cpp:800-828 | The walk over sorted ranges finds an overlap or the end |
| `MultiproofFrontier.BuiltProofVerifies` | src/multiproof.cpp:393-495 | Completeness: for every non-empty leaf list and every non-empty list of in-range targets a proof is built, it verifies to the root of the full tree, its leaves and side nodes are strictly increasing and no side node sits on a target |
| `MultiproofFrontier.FrontierProofIsSound` | src/multiproof.cpp:306-391 | Soundness: a proof that supplies at least the sibling frontier of its leaves and verifies to a tree's root carries that tree's leaves, or its own nodes hold a hash collision |
| `MultiproofCounts.AnyCountIsSound` | src/multiproof.cpp:306-391 | Whatever leaf count a proof claims: if it verifies to a tree's root, a bound leaf (or, for a claim too deep, its ancestor as many levels up) is the tree's node to which the same turns from the root lead, or there is a collision |
| `MultiproofCounts.SameDepthShowsLeaves` | src/multiproof.cpp:306-391 | When the claimed count gives the right depth, a bound leaf is the true leaf of its index below the true count, and some true leaf of a smaller index above, or there is a collision |
| `MultiproofCounts.RepeatedLastLeafHasSameRoot` | src/multiproof.cpp:420-440 | The root does not bind the count: repeating the last of an odd number of leaves keeps root and depth |
| `MultiproofTheorems.BoundLeafIsGenuine` | src/multiproof.cpp:306-391 | Soundness for a single leaf of any proof: a leaf whose path to the root is bound by supplied nodes is genuine, or there is a collision |
| `MultiproofFrontier.UnboundLeafCanClaimAnything` | src/multiproof.cpp:331-349 | The converse: in a proof that reaches the root, a leaf that is not bound can be given any value by a forged proof with the same positions and root |
| `MultiproofFrontier.RootSideNodeBindsNothing` | src/multiproof.cpp:331-349 | The level test admits a side node at the root, so a two-leaf proof can claim any leaf |
| `MultiproofFrontier.FullCountTakesAnyRoot` | src/multiproof.cpp:351-390 | A proof claiming 2^64 - 1 leaves is not hashed at all: the result is whatever was supplied at the root |
| `MultiproofFrontier.FrontierProofBindsAll` | src/multiproof.cpp:451-481 | With the sibling frontier supplied every leaf is bound and the root is reached |
| `MultiproofTheorems.ConsistentProofVerifies` | src/multiproof.cpp:306-391 | What verification computes: if the supplied nodes agree with an assignment that hashes upwards, the result is the assignment's root when the root is derivable, else nothing |
| `MultiproofTheorems.VerifiesIff` | src/multiproof.cpp:306-391 | A proof verifies exactly when some assignment that hashes upwards carries it and the root can be derived |
| `MultiproofTheorems.SuppliedIff` | src/multiproof.cpp:306-349 | What is supplied is taken exactly when every position is inside the claimed tree and has one hash |
| `MultiproofTheorems.HonestProofVerifies` | src/multiproof.cpp:306-391 | A proof made of a tree's nodes verifies to the tree's root exactly when the root is derivable |
| `MultiproofFrontier.BuiltProofIsHonest` | src/multiproof.cpp:451-495 | Leaves and side nodes of a built proof are nodes of the tree, odd rows duplicating their last node |
| `MultiproofFrontier.FrontierIncreasing` | src/multiproof.cpp:483-491 | Side nodes come out already sorted and free of duplicates, so the final sort changes nothing |
| `MultiproofFrontier.ClosureIsClosed` | src/multiproof.cpp:351-382 | Level by level hashing derives every node that the supplied ones determine |
| `Multiproof.VerifyAndRoot` | src/multiproof.cpp:306-391 | The map-filling loops compute the specification's result, failure for failure |
| `Multiproof.BuildFromLeaves` | src/multiproof.cpp:393-495 | The layer and frontier loops compute the specification's proof |
| `Multiproof.BuildLayers` | src/multiproof.cpp:418-439 | Each layer is the parent row of the one below |
| `Multiproof.CollectSides` | src/multiproof.cpp:451-481 | Collects each level's frontier |
| `MerkleTree.RootIsTopLayer` | src/multiproof.cpp:47-60 | The layer at the tree's depth is a single node, the recursively defined root |
| `MerkleTree.RootOfHalves` | src/multiproof.cpp:420-440 | The root of a full tree is the hash of its halves' roots, the left one first |
| `MerkleTree.NodeCountAtLevel` | src/multiproof.cpp:36-45 | Repeated halving gives the size of a level |
| `MerkleTree.TreeDepth` | src/multiproof.cpp:47-55 | The depth loop finds the first level of one node |
| `MerkleTree.DepthIsFirstSingle` | src/multiproof.cpp:47-55 | A level has one node exactly from the depth on |
| `MerkleTree.LayerAfterUpdate` | src/multiproof.cpp:418-439 | Changing one leaf changes only its ancestors |
| `Isqrt.LoopStopsIff` | src/module119_amm_apply.cpp:137-151 | The Newton loop stops exactly for 0 and for x where x + 1 is not a perfect square |
| `Isqrt.AlternatesForever` | src/module119_amm_apply.cpp:137-151 | Otherwise the iterates alternate between the root and the root plus one for ever |
| `Isqrt.IterateReachesRoot` | src/module119_amm_apply.cpp:137-151 | The iterates always reach the floor square root |
| `Isqrt.NewtonDown` | src/module119_amm_apply.cpp:137-151 | Above the floor root each iterate is strictly smaller |
| `Isqrt.NewtonAbove` | src/module119_amm_apply.cpp:137-151 | No iterate falls below the floor root |
| `Isqrt.IntegerSqrt` | src/module119_amm_apply.cpp:137-151 | On its domain the loop terminates with the floor square root, which fits 64 bits |
| `AmmTheorems.RunKeepsInvariant` | src/module119_amm_apply.cpp:189-512 | Over every run of create, add, remove and swap by any callers: supply squared is at most r0*r1, supply is zero exactly when either reserve is, LP balances sum to the supply, the tokens differ |
| `AmmTheorems.CallKeeps` | src/module119_amm_apply.cpp:189-512 | One call, applied or refused: the invariant stays; a swap does not lower r0*r1 and keeps the supply; add and remove do not lower reserves per share; the pool's token balances move with the reserves and token supplies are conserved unless the pool address itself calls |
| `AmmTheorems.RunKeepsBacking` | src/module119_amm_apply.cpp:189-512 | Over every run by other callers, pool token balance minus reserve and both token supplies are constant |
| `AmmCalls.CallAgrees` | src/module119_amm_apply.cpp:183-510 | Every call on any storage, told over the numbers in its slots: when it never returns, exactly when it is accepted, and the whole storage it leaves, event included |
| `AmmCalls.RunKeepsTerms` | src/module119_amm_apply.cpp:183-510 | A pool's fee and tokens are those it was created with, in every run |
| `AmmTheorems.FreshStoreIsInvariant` | src/module119_amm_apply.cpp:189-271 | A contract without storage of its own satisfies the invariant |
| `AmmTheorems.AddKeeps` | src/module119_amm_apply.cpp:288-367 | Adding liquidity keeps the invariant, the backing and the value of existing shares; token supplies are conserved when the caller is not the pool |
| `AmmTheorems.RemoveKeeps` | src/module119_amm_apply.cpp:369-429 | Removing liquidity keeps the invariant and the value of remaining shares, and the supply falls by exactly the shares burned; the backing is kept exactly when the caller is not the pool |
| `AmmTheorems.SwapKeeps` | src/module119_amm_apply.cpp:431-507 | A swap keeps the invariant, the tokens and the supply, and does not lower the product of the reserves; the backing is kept exactly when the caller is not the pool |
| `AmmTheorems.CreateKeeps` | src/module119_amm_apply.cpp:222-271 | Creating the pool, on storage that satisfies the invariant, keeps it |
| `AmmEffects.BurnQuoteIsMost` | src/module119_amm_apply.cpp:391-398 | The quotes are the largest amounts that the burned shares are worth |
| `AmmEffects.MintQuoteIsMost` | src/module119_amm_apply.cpp:310-325 | The quote is the largest number of shares that both deposits cover at the present ratio |
| `AmmEffects.SwapQuoteIsBest` | src/module119_amm_apply.cpp:449-456 | The quote is the largest payment that does not lower the product of the reserves, counting the input after its fee |
| `AmmEffects.AddGives` | src/module119_amm_apply.cpp:288-367 | An accepted addition takes both amounts and gives the caller the shares they mint at the stored reserves and supply, at least the minimum; nobody else's shares move |
| `AmmEffects.RemoveGives` | src/module119_amm_apply.cpp:369-429 | An accepted removal burns the caller's shares and pays what they are worth of both stored reserves, at least the minimums; nobody else's shares move |
| `AmmEffects.SwapGives` | src/module119_amm_apply.cpp:431-507 | An accepted swap takes the amount of one token from the caller and pays the constant-product price at the stored reserves, after the stored fee, in the other, at least the minimum; reserves follow and nobody's shares move |
| `AmmTheorems.FirstDepositHangsIff` | src/module119_amm_apply.cpp:303-309 | A call never returns exactly when it is a first deposit whose product plus one is a perfect square |
| `AmmTheorems.BooksAfter` | src/module119_amm_apply.cpp:311-507 | Storage after a call's two transfers, pool update and event: reserves, supply, shares and token balances in one statement |
| `PoolMath.GeometricMean` | src/module119_amm_apply.cpp:313-325 | Minting the smaller of the two proportional amounts keeps supply squared at most r0*r1 |
| `PoolMath.BurnKeepsShare` | src/module119_amm_apply.cpp:391-398 | Paying out the floor of a proportional part lowers neither reserve per remaining share |
| `PoolMath.SwapKeepsProduct` | src/module119_amm_apply.cpp:449-456 | The floored constant-product quote never lowers the product |
| `ContractStore.TransferMoves` | src/module119_amm_apply.cpp:153-181 | A token transfer moves the amount, touches nothing else and keeps the token's supply when the holders differ |
| `AmmProcedure.Amm119Apply` | src/module119_amm_apply.cpp:189-512 | The entry point builds exactly the specification's change list, is refused when it is, and is only entered where it terminates |
| `AmmProcedure.PoolCall.DoAdd` | src/module119_amm_apply.cpp:303-367 | Builds the change list of an addition |
| `AmmProcedure.PoolCall.DoRemove` | src/module119_amm_apply.cpp:369-429 | Builds the change list of a removal |
| `AmmProcedure.PoolCall.DoSwap` | src/module119_amm_apply.cpp:431-507 | Builds the change list of a swap in either direction |
| `AmmProcedure.PoolCall.Transfer` | src/module119_amm_apply.cpp:153-181 | Appends the transfer's two changes, or nothing |
| `U256.AddMod` | src/evm.cpp:251-258 | Limb addition with carries is addition mod 2^256 |
| `U256.SubMod` | src/evm.cpp:260-267 | Limb subtraction with borrows is subtraction mod 2^256 |
| `U256.MulMod` | src/evm.cpp:269-287 | Schoolbook multiplication, dropping what leaves the fourth limb, is multiplication mod 2^256 |
| `U256.Div` | src/evm.cpp:289-313 | The 256-step shift-and-subtract loop gives the integer quotient, zero for a zero divisor |
| `U256.Mod` | src/evm.cpp:315-337 | The same loop gives the remainder, zero for a zero divisor |
| `U256.RemainderBit` | src/evm.cpp:300-309 | One step: the shifted remainder never loses its top bit, also for divisors of 2^255 and more |
| `U256.DivisionStep` | src/evm.cpp:300-309 | Quotient and remainder of one more bit of the dividend, over the integers |
| `U256.Shl1` | src/evm.cpp:144-153 | Shifting limbs doubles the value mod 2^256 |
| `U256.BitOfValue` | src/evm.cpp:126-133 | The bit a limb test reads is that bit of the integer |
| `U256.SetBitAdds` | src/evm.cpp:135-142 | Setting a clear bit adds its power of two |
| `U256.Less` | src/evm.cpp:234-245 | Limb comparison from the top decides the order of the values |
| `WordBits.ApplyBits` | src/evm.cpp:339-361 | Limb-wise and, or and xor are the bitwise operations on the 256-bit value |
| `WordBits.AndPlusOr` | src/evm.cpp:339-353 | and plus or is plus: the three operations fit together arithmetically |
| `WordBits.FromBe32` | src/evm.cpp:192-202 | Big-endian bytes to limbs keeps the value |
| `WordBits.ToBe32` | src/evm.cpp:204-213 | Limbs to big-endian bytes keeps the value |
| `EvmTheorems.PushDataIsNeverExecuted` | src/evm.cpp:624-689 | In every run the program counter never enters an instruction of the linear scan, so push data is never executed |
| `EvmTheorems.RunKeepsInvariant` | src/evm.cpp:624-1259 | Every reachable state: boundary program counter, stack and memory caps, gas within the limit, as many turns as the state's step count and no more than its gas, overlay equal to the pending writes in order |
| `EvmTheorems.JumpsLandOnJumpDests` | src/evm.cpp:1179-1227 | Control leaves the linear order only to a JUMPDEST |
| `EvmTheorems.ScanMeaning` | src/evm.cpp:412-438 | The scan refuses code exactly when some push is cut off by the end, and otherwise finds exactly the JUMPDESTs on instruction boundaries |
| `EvmTheorems.InvalidCodeIsFoundBeforeRunning` | src/evm.cpp:541-556 | The status InvalidCode is given exactly for oversized code or a truncated push found by the scan; the test inside the PUSH case never fires |
| `EvmTheorems.GasBoundsTheRun` | src/evm.cpp:474-483 | Steps are at most gas used plus one, gas used at most the limit, and each reported write cost 20000 |
| `EvmTheorems.StepLimitNeedsGas` | src/evm.cpp:624-631 | With a gas limit below the step limit the step limit is never met |
| `EvmTheorems.CapsHold` | src/evm.cpp:466-493 | Stack and memory caps hold in every state, and memory never shrinks |
| `EvmTheorems.LoadSeesLastStore` | src/evm.cpp:1122-1178 | SLOAD gives the value of the last SSTORE to that key in the run, else the host's, else zero |
| `EvmSemantics.RunDoesItsOpcodes` | src/evm.cpp:589-1257 | In every run each state is what the opcode byte at the one before makes of it, told in integer arithmetic on the stack, byte by byte in memory and with its exact price: 0x03 leaves the entry below the top minus the top mod 2^256, and so on for every opcode |
| `EvmSemantics.TurnAgrees` | src/evm.cpp:589-1257 | The same for one turn from any state, and when a turn does not go on: its exact status, gas, data and writes, in the order in which the source asks |
| `EvmSemantics.RunEndsAsJudged` | src/evm.cpp:546-587 | A run ends with the status, gas and returned memory that its last state is judged to stop with, except that success without a way to store becomes a trap |
| `EvmSemantics.BitwiseDigits` | src/evm.cpp:852-902 | Each binary digit of and, or and xor is that operation on the operands' digits |
| `EvmTheorems.SuccessStoresLast` | src/evm.cpp:609-622 | After Ok each key of the host holds the last value stored to it in the run, other keys are unchanged; writes in order equal overlay over storage |
| `EvmTheorems.FailureLeavesHostAlone` | src/evm.cpp:609-622 | Supporting: after any status but Ok the host is unchanged and no writes are reported |
| `EvmTheorems.RunIsATrace` | src/evm.cpp:624-1259 | The recursive run is the trace of single turns, so the statements about traces speak about Execute |
| `EvmTheorems.MemoryRoundTrip` | src/evm.cpp:1031-1092 | MLOAD after MSTORE gives the word back and other bytes are unchanged |
| `EvmTheorems.WindowWraps` | src/evm.cpp:939-1016 | Call-data reads of any length are zero-padded for all data exactly when offset plus length stays within 2^64; beyond, they wrap to the start of the data |
| `EvmTheorems.OperandOrderShowsIff` | src/evm.cpp:733-815 | For SUB, DIV, MOD, LT and GT exactly on which operands (second, top) gives another result than (top, second); that an instruction takes (second, top) is EvmSemantics.TurnAgrees |
| `EvmTheorems.NothingBeginsInside` | src/evm.cpp:412-438 | No boundary of the linear scan lies inside another instruction |
| `EvmMachine.Step` | src/evm.cpp:690-1257 | One instruction that goes on costs at least its listed minimum, which is positive; one that stops the run loses no gas and no write |
| `EvmMachine.StepSStore` | src/evm.cpp:1156-1178 | SSTORE appends the write, updates the overlay and costs 20000, or fails without a write |
| `EvmMachine.StepReturn` | src/evm.cpp:580-607 | RETURN and REVERT end the run with their status, or fail, and cost nothing themselves |
| `EvmInterpreter.Evaluate` | src/evm.cpp:541-1259 | The interpreter over mutable fields ends with the receipt of the specification run and leaves the host's storage as the receipt says |
| `EvmInterpreter.BuildJumpDests` | src/evm.cpp:412-438 | The scanning loop computes the specification's jump destinations or its refusal |
| `EvmInterpreter.EvalOp` | src/evm.cpp:699-901 | Each binary operator on limbs is its integer meaning, second operand first: SUB is second minus top, DIV second by top |
| `EvmInterpreter.Execution.ExecPush` | src/evm.cpp:633-654 | Updates the fields as the specification step does, or halts as it does: PUSH1 to PUSH32 |
| `EvmInterpreter.Execution.ExecDup` | src/evm.cpp:656-671 | Updates the fields as the specification step does, or halts as it does: DUP1 to DUP16 |
| `EvmInterpreter.Execution.ExecSwap` | src/evm.cpp:673-687 | Updates the fields as the specification step does, or halts as it does: SWAP1 to SWAP16 |
| `EvmInterpreter.Execution.ExecBinary` | src/evm.cpp:699-901 | Updates the fields as the specification step does, or halts as it does: the binary operators |
| `EvmInterpreter.Execution.ExecSha3` | src/evm.cpp:903-937 | Updates the fields as the specification step does, or halts as it does: SHA3 with the hash as a parameter |
| `EvmInterpreter.Execution.ExecCallDataLoad` | src/evm.cpp:939-967 | Updates the fields as the specification step does, or halts as it does: CALLDATALOAD with its 64-bit wrapping index |
| `EvmInterpreter.Execution.ExecCallDataCopy` | src/evm.cpp:981-1016 | Updates the fields as the specification step does, or halts as it does: CALLDATACOPY |
| `EvmInterpreter.Execution.ExecMLoad` | src/evm.cpp:1031-1061 | Updates the fields as the specification step does, or halts as it does: MLOAD |
| `EvmInterpreter.Execution.ExecMStore` | src/evm.cpp:1063-1091 | Updates the fields as the specification step does, or halts as it does: MSTORE |
| `EvmInterpreter.Execution.ExecSLoad` | src/evm.cpp:1122-1154 | Updates the fields as the specification step does, or halts as it does: SLOAD through the overlay |
| `EvmInterpreter.Execution.ExecSStore` | src/evm.cpp:1156-1178 | Updates the fields as the specification step does, or halts as it does: SSTORE |
| `EvmInterpreter.Execution.ExecJump` | src/evm.cpp:1179-1199 | Updates the fields as the specification step does, or halts as it does: JUMP |
| `EvmInterpreter.Execution.ExecJumpI` | src/evm.cpp:1201-1226 | Updates the fields as the specification step does, or halts as it does: JUMPI |
| `EvmInterpreter.Execution.RunLoop` | src/evm.cpp:624-1259 | The loop over the step limit runs the specification to its halt |
| `EvmInterpreter.Execution.Finish` | src/evm.cpp:609-622 | Writes reach the host only on Ok and only if it can store |
| `LightSync.ArrivalOrderDoesNotMatter` | src/light_sync.cpp:128-175 | Any two sequences over the same headers, in any order and with repeats, give the same headers, when hashes are distinct and they fit the limit |
| `LightSync.OrderIsIrrelevantIff` | src/light_sync.cpp:128-175 | For any headers with distinct hashes every order of arrival gives the same known headers exactly when they fit the limit, or the limit is zero |
| `LightSync.TipIsUnique` | src/light_sync.cpp:97-126 | The tip is a function of the headers and checkpoints: at most one value satisfies its definition |
| `LightSync.TipExists` | src/light_sync.cpp:97-126 | There is a tip exactly when some linked header agrees with its checkpoint, and it is at least as good as every such header: higher, or equal and smaller in hash |
| `LightSync.TipHasLongestChain` | src/light_sync.cpp:98-126 | No chain allowed by the checkpoints is longer than the tip's, and of those as long the tip's hash is the smallest |
| `LightSync.AllowedMeansOnChain` | src/light_sync.cpp:32-68 | Walking back from a linked header, the checkpoint test passes exactly when the highest applicable checkpoint lies on the header's chain |
| `LightSync.ApplicableIsHighest` | src/light_sync.cpp:37-46 | The backward walk over sorted checkpoints finds the highest one not above the tip |
| `LightSync.OnePerHeight` | src/light_sync.cpp:51-68 | A chain has one header per height |
| `LightSync.LinkedStays` | src/light_sync.cpp:70-96 | Headers once linked stay linked as others arrive |
| `LightSync.OverTheLimitOrderMatters` | src/light_sync.cpp:128-131 | Witness: one header past the limit, offered last or first, gives different known headers |
| `LightSyncProcedure.LightHeaderSync.AddHeader` | src/light_sync.cpp:128-175 | Status, headers and tip after one header: on Ok the tip is the one defined by headers and checkpoints; otherwise nothing changed |
| `LightSyncProcedure.LightHeaderSync.Synchronise` | src/light_sync.cpp:128-175 | After any sequence of headers the tip is the one defined by what was accepted |
| `LightSyncProcedure.LightHeaderSync.ConnectAll` | src/light_sync.cpp:146-158 | The fixpoint loop, whatever order the table is walked in, marks exactly the headers linked to a height-0 header |
| `LightSyncProcedure.LightHeaderSync.UpdateTip` | src/light_sync.cpp:160-172 | One pass over the table in any order leaves the best eligible header as tip |
| `LightSyncProcedure.LightHeaderSync.Settle` | src/light_sync.cpp:146-172 | Connecting, choosing and the final checkpoint test together leave the defined tip; the branch that drops the tip is unreachable |
| `LightSyncProcedure.LightHeaderSync.CheckpointAllows` | src/light_sync.cpp:32-49 | Decides whether the chain agrees with the applicable checkpoint |
| `LightSyncProcedure.LightHeaderSync.AncestorHash` | src/light_sync.cpp:51-68 | Walks down parent links to a height |
| `LightSyncProcedure.LightHeaderSync.SetCheckpoints` | src/light_sync.cpp:16-30 | Sorts, keeps one checkpoint per height, and drops a tip that disagrees |
| `LightSyncProcedure.Normalise` | src/light_sync.cpp:17-19 | Sorted strictly by height, with the same heights as given |
| `LightSyncProcedure.LinkedIsConnected` | src/light_sync.cpp:70-96 | At the fixpoint every linked header is marked connected |
| `MempoolProcedure.Mempool.PlayAll` | src/mempool.cpp:303-371 | Refinement over every sequence of add and remove with one compute bid: results and contents are those of a single sorted pool, whatever the shard count |
| `MempoolProcedure.Mempool.Add` | src/mempool.cpp:303-347 | One add on shards is one add on the single pool when bids agree; whatever the bids, what it evicts is worse than the newcomer and than every version-one entry that stays |
| `MempoolProcedure.Mempool.Remove` | src/mempool.cpp:349-371 | Removes exactly that transaction |
| `MempoolProcedure.Mempool.Contains` | src/mempool.cpp:91-95 | Looks in the one shard its id chooses, and decides membership of the whole pool |
| `MempoolProcedure.Mempool.OrderedTxs` | src/mempool.cpp:116-164 | The k-way merge over shard cursors lists the first `limit` transactions of the pool, each offered before all that follow in the sense of MempoolPriority.PriorityMeans |
| `MempoolProcedure.Mempool.OrderedTxids` | src/mempool.cpp:373-414 | The same merge for ids |
| `MempoolProcedure.ListingIgnoresShards` | src/mempool.cpp:116-164 | Two listings of one pool's contents are the same transactions in the same order, so the shard count does not show |
| `MempoolProcedure.ListingsAgree` | src/mempool.cpp:116-414 | The listing of ids names the transactions of the other listing in the same places |
| `MempoolProcedure.Mempool.EvictUntilFit` | src/mempool.cpp:188-295 | Evicts worst entries of all shards until the newcomer fits or is itself no better, as the single pool does |
| `MempoolProcedure.Mempool.FindWorst` | src/mempool.cpp:205-262 | The candidate over the shards is the worst of the shards' own candidates; none exactly when the pool is empty |
| `MempoolModel.AdmittedIffItFitsBesideBetter` | src/mempool.cpp:188-295 | A newcomer is admitted exactly when it fits beside the entries at least as good as it |
| `MempoolModel.RefusalEvicts` | src/mempool.cpp:188-295 | A refused newcomer has still evicted every worse entry: exactly the entries at least as good remain |
| `MempoolModel.EvictKeepsBetter` | src/mempool.cpp:188-295 | Only entries worse than the newcomer are evicted, and caps hold for what is admitted |
| `MempoolModel.DifferentBidsDependOnShards` | src/mempool.cpp:205-262 | Witness: of two keys where the higher bid has the lower fee, one shard picks the other key than two shards do |
| `MempoolShards.VictimIsWorstIff` | src/mempool.cpp:242-262 | On any shards, the entry evicted is the worst of the whole pool exactly when the shard that holds the worst ends on it, in the sense of ShardEndsOnWorstIff |
| `MempoolShards.EvictionDependsOnShardsIff` | src/mempool.cpp:242-293 | Of two transactions in one shard or kept apart by n, an eviction leaves different pools exactly when the higher bid has the lower fee, or the same fee and the higher id |
| `MempoolShards.ShardCountShows` | src/mempool.cpp:242-293 | For all such transactions those shards exist, hold the same pool, and evict differently |
| `MempoolModel.PickWorstIsWorst` | src/mempool.cpp:205-240 | With equal bids the walk from the end of a shard finds its worst entry |
| `MempoolModel.ShardEndsOnWorstIff` | src/mempool.cpp:193-209 | For any bids, what a sorted shard picks is its worst entry exactly when every other key goes, by fee or by fee and id, after the first key of the last stretch of equal bid, version and fee; a shard ending on a version-one key always does |
| `MempoolModel.PickIsWorstIff` | src/mempool.cpp:193-209 | Supporting: the same, in terms of the keys passed over by the walk |
| `MempoolModel.PickOfTwoIff` | src/mempool.cpp:193-209 | For two v2 keys in one shard: the pick is the worse one exactly unless the higher bid has the lower fee, or the same fee and the higher id |
| `MempoolModel.FirstInOrderIsUnique` | src/mempool.cpp:116-164 | The first `limit` keys in order are determined by the set of keys |
| `MempoolModel.OrdersAreTotal` | src/mempool.cpp:23-43 | Supporting: both orders are strict and total on distinct ids, and admission is eviction seen from the other side; their directions are MempoolPriority.KeysFollowTransactions |
| `MempoolPriority.KeysFollowTransactions` | src/mempool.cpp:23-43 | The two orders of keys are the orders of transactions: offered first by version, then by rate, fee and id, or by bid, fee per gas and id; evicted first by version, then in reverse, or by fee per gas and id |
| `MempoolPriority.PriorityMeans` | src/mempool.cpp:116-164 | In a listing version-two transactions come first, rates and fees at equal rates never rise among the old ones, bids and fees per gas at equal bids never rise among the new ones |
| `MempoolPriority.EvictionMeans` | src/mempool.cpp:188-347 | Whatever the bids and shards: what an addition evicts is old-style as long as an old-style one stays, and then of no higher rate, and it is worse than the newcomer |
| `MempoolPriority.AddSucceedsIff` | src/mempool.cpp:166-347 | With one compute bid, a transaction is admitted exactly when it keeps to the limits and floors, is new, and fits beside the transactions that it cannot displace |
| `MempoolPriority.OfferMeans` | src/mempool.cpp:57-70 | The fee per gas is the most that the maximum and base fee plus priority fee allow |
| `MempoolPriority.BidMeans` | src/mempool.cpp:72-89 | The compute bid is price times limit as far as 64 bits go, with their defaults |
| `MempoolModel.FeeRateRoundsUp` | src/mempool.cpp:49-55 | The rate is the fee per byte rounded up, except that near 2^64 the sum wraps and the rate is 0 |
| `MempoolProcedure.InsertKeepsOrder` | src/mempool.cpp:318-345 | Inserting into a shard's order keeps it sorted and adds one key |
| `MempoolProcedure.AddKeepsValid` | src/mempool.cpp:303-347 | Adding keeps ids and keys of the pool consistent |
| `ExecutorTheorems.GroupEqualsAnyOrder` | src/exec_engine.cpp:1232-1351 | A conflict-free group without self-transfers, executed from one snapshot with retries, leaves the accounts, burned fees and tips of executing it one at a time in any order (money within 64 bits) |
| `ExecutorTheorems.PlanEqualsSerial` | src/exec_engine.cpp:1232-1980 | When all money fits 64 bits, executing conflict-free groups without self-transfers equals executing their transfers one at a time in plan order, and conserves money |
| `ExecutorTheorems.ExecutionIsSerial` | src/exec_engine.cpp:1884-1980 | For any groups, conflicting or not: the result is that of executing the applied transfers one at a time in the order applied, each of them succeeding |
| `ExecutorTheorems.EveryTransactionHasOneFate` | src/exec_engine.cpp:1884-1985 | Applied and aborted together are exactly the planned transfers, each once |
| `ExecutorTheorems.OrderDoesNotMatter` | src/exec_engine.cpp:1295-1351 | Conflict-free transfers give the same world in every order |
| `ExecutorTheorems.ExecutionKeepsMoney` | src/exec_engine.cpp:1295-1351 | Balances plus burned fees plus tips are conserved when no transfer pays its own sender |
| `ExecutorTheorems.TransferKeepsMoneyIff` | src/exec_engine.cpp:1333-1348 | An applied transfer conserves money exactly when it is not a self-transfer (or moves nothing); a self-transfer adds amount and fee |
| `ExecutorTheorems.ExecutionKeepsMoneyIff` | src/exec_engine.cpp:1223-1980 | Over any plan, conflicting or not, money grows by exactly the amounts and fees of the applied self-transfers, so it is kept exactly when those are zero |
| `ExecutorFees.RunAccounts` | src/exec_engine.cpp:1180-1221 | Over any plan: burned fees and tips are exactly those due from the applied transfers (whole fee for old ones, base fee times gas for new ones; priority fee within the offer times gas), and each account ends with what it had plus what it was sent less amount and both fees of what it sent to others, its nonce having counted those |
| `ExecutorFees.BlockFees` | src/exec_engine.cpp:1987-2030 | A settled block adds exactly the burned fees due to the burned total and the tips due to the tip pool, at the base fee it began with |
| `ExecutorFees.FateIff` | src/exec_engine.cpp:1180-1351 | A transfer tried on any accounts is applied, or left for a later pass, exactly on the stated conditions on version, offer, sender, nonce, balances and totals |
| `ExecutorFees.AppliedDoes` | src/exec_engine.cpp:1333-1348 | What one applied transfer does to any account's balance and nonce, and to both totals |
| `ExecutorTheorems.NonceStaysIff` | src/exec_engine.cpp:1333-1348 | The nonce of an applied transfer stays exactly when it pays its own sender, which gains the amount and can apply it again |
| `ExecutorTheorems.PlanPartitionsBatch` | src/exec_engine.cpp:976-1008 | The plan's groups are conflict-free and together are the batch |
| `ExecutorTheorems.FeesFit` | src/exec_engine.cpp:1180-1221 | When all money fits 64 bits, an attempt that succeeds on the current accounts is applied: the burned and tip totals never wrap |
| `ExecutorTheorems.WaitersChangeNothing` | src/exec_engine.cpp:1236-1351 | A pass over transfers that all must wait changes nothing and retries all of them |
| `Settlement.RunKeepsSoundIff` | src/exec_engine.cpp:1223-2030 | Over every run of blocks: coins in accounts, in the tip pool and burned grow by exactly what settled blocks create by self-transfers, and stay equal to the minted supply exactly when that is nothing |
| `Settlement.OrdinaryRunSettles` | src/exec_engine.cpp:1991-2030 | From books in which everything minted is accounted for, in every run of blocks without self-transfers every block settles: neither tips nor burned fees can make it fail |
| `Settlement.BlockKeepsSoundIff` | src/exec_engine.cpp:1223-2030 | The same equivalence for one block, settled, taken back or halted |
| `Settlement.SettlesIff` | src/exec_engine.cpp:1987-2030 | A block settles exactly when its tips fit the tip pool and its burned fees fit under the minted supply, itself within the maximum; the base fee never stands in the way |
| `Settlement.ReportIsComplete` | src/exec_engine.cpp:1980-2030 | A settled block reports each planned transaction, in sorted lists: as applied exactly what the run applied, as aborted exactly what it aborted, and never both when planned ids are distinct |
| `Settlement.HaltedReports` | src/exec_engine.cpp:1137-1172 | A halted chain changes nothing and reports every planned transaction as aborted |
| `Settlement.GasIsSumIff` | src/exec_engine.cpp:1955-1960 | The gas counted is the sum over applied transactions exactly while it fits 64 bits |
| `Settlement.SettledLeavesRest` | src/exec_engine.cpp:1987-2030 | Settling writes the base fee, and the two totals where there is something to add; nothing else |
| `BaseFee.FeeFollowsIff` | src/state.cpp:375-431 | For every usable market, fee and gas: the next fee rises above the target, falls below it and stays on it, as far as the bounds allow, exactly unless in a busy block the demand or the scaled fee loses its upper bits and comes out lower |
| `BaseFee.RoomyMarketFollows` | src/state.cpp:375-431 | In a market whose largest fee and demand leave room in 64 bits (BaseFee.DefaultMarketIsRoomy: the default has) the fee follows demand in every block |
| `BaseFee.FeeGrowsWithGas` | src/state.cpp:375-431 | There, more gas never makes the next block cheaper |
| `BaseFee.FeeMovesBy` | src/state.cpp:391-415 | There, a busy block raises the fee by its share of the excess demand at the stored rate, and by one at least, a quiet one lowers it likewise, within the bounds |
| `BaseFee.MarketIsStored` | src/state.cpp:338-373 | Parameters that make sense are used as stored, each from its own key |
| `BaseFee.RepairsAre` | src/state.cpp:355-372 | Parameters out of bounds are moved to the nearest bound, a least fee or target of zero to one |
| `BaseFee.FeeNowIs` | src/state.cpp:329-336 | The fee in force is the stored one, moved into its range |
| `BaseFee.FullBlockCanDropFee` | src/state.cpp:375-431 | A full block that should double a fee of 2^63 drops it to the minimum |
| `BaseFee.DemandMeans` | src/state.cpp:385-389 | Demand in millionths is below, or above, one million exactly when counted gas is below the target, or above it by a millionth |
| `ExecutorProcedure.MakePlan` | src/exec_engine.cpp:976-1008 | First-fit placement into groups grown in place |
| `ExecutorProcedure.DoConflict` | src/exec_engine.cpp:954-974 | The list intersections decide whether two transfers share an account |
| `ExecutorProcedure.Execution.Execute` | src/exec_engine.cpp:1223-1980 | All groups, passes and commits on the mutable state give the specification's world and fates, keep the record of changes that leads back to the accounts before the block, and count the gas |
| `ExecutorProcedure.ExecutePlan` | src/exec_engine.cpp:1126-2030 | The whole block on the mutable state: everything it settles to with its sorted reports, or, when tips or burned fees do not fit, exactly the accounts and totals before it |
| `ExecutorProcedure.Execution.RevertAll` | src/exec_engine.cpp:1991-2030 | Taking back the recorded changes, the latest first, gives the accounts before the block |
| `ExecutorProcedure.GlobalState.Settle` | src/exec_engine.cpp:1987-2030 | Base fee, tip pool and burned total are all booked, or none is |
| `ExecutorProcedure.GlobalState.ApplyBatch` | src/state.cpp:1972-2108 | Applies the changes in order and records what restores the accounts before them |
| `ExecutorProcedure.GlobalState.BurnFees` | src/state.cpp:1104-1141 | Adds to the burned total when that fits the minted supply, and changes nothing otherwise |
| `ExecutorProcedure.Execution.RunOneGroup` | src/exec_engine.cpp:1232-1980 | Up to three passes over what is left, stopping when a pass settles nothing; what then stays is reported aborted, twice in the last case, so that the reports agree as sets |
| `ExecutorProcedure.Execution.RunPass` | src/exec_engine.cpp:1253-1962 | One snapshot, effects, then commits in id order |
| `ExecutorProcedure.Execution.CommitOne` | src/exec_engine.cpp:1884-1962 | Commits an effect only if its accounts still are as in the snapshot |
| `ExecutorProcedure.GlobalState.Revert` | src/exec_engine.cpp:1937-1948 | Reverting a delta restores the accounts before it |
| `ConsensusTheorems.ConflictingCertificatesSlash` | src/consensus.cpp:230-319 | In every run without partition recovery, certificates for different blocks in one round mean that a signer of the first was slashed in between |
| `ConsensusTheorems.OnlyEquivocatorsAreSlashed` | src/consensus.cpp:230-268 | A validator is slashed only for its own signed vote contradicting its recorded vote of that round |
| `ConsensusTheorems.RunKeepsOneVoteEach` | src/consensus.cpp:230-268 | In every run a validator's recorded signatures of one round are all for the block it voted for |
| `ConsensusTheorems.RunKeepsVotes` | src/consensus.cpp:230-268 | Without recovery a recorded vote never changes |
| `ConsensusTheorems.RunOnlySlashes` | src/consensus.cpp:230-268 | Over every run stake changes only by slashing: totals fall, and slashed stays slashed |
| `ConsensusTheorems.RunKeepsChain` | src/consensus.cpp:191-228 | In every run blocks are filed under their ids, one height above a known parent, and a committed block is certified |
| `ConsensusSteps.VoteDoes` | src/consensus.cpp:230-364 | What a heard vote that contradicts none does to every part of the core: it is noted, certifies its block exactly when the unslashed stake behind it reaches the threshold, and commits and rewards exactly when three generations are then certified |
| `ConsensusSteps.ContradictionDoes` | src/consensus.cpp:230-268 | A contradicting vote takes its voter's whole stake and changes nothing else, and the core stops exactly when the callback refuses |
| `ConsensusSteps.ProposalDoes` | src/consensus.cpp:191-228 | A proposal is filed exactly when it is from the round's leader, not of a past round and one above a known parent, and changes nothing but that block and the progress |
| `ConsensusSteps.RecoveryDoes` | src/consensus.cpp:366-391 | After the timeout and no sooner all votes and signatures are forgotten |
| `ConsensusSteps.HighQcIsHighest` | src/consensus.cpp:270-319 | Over every run the highest certificate is genesis' own or one of those formed, and none formed is of a higher round |
| `ConsensusSteps.CommitIsRewarded` | src/consensus.cpp:321-364 | In every run the last height rewarded is that of the committed block |
| `ConsensusForks.StaysCertifiedIff` | src/consensus.cpp:191-228 | Over every run a certified block stays certified exactly as long as no proposal with its id is filed again |
| `ConsensusForks.CertificateIsLostIff` | src/consensus.cpp:191-228 | One event takes a certificate away exactly when it is such a proposal: from the round's leader, not of a past round, on a known parent, while neither halted nor invalid |
| `ConsensusForks.CertificateCanBeLost` | src/consensus.cpp:191-228 | For every ledger with a validator of enough stake there is a run in which a certificate is lost |
| `ConsensusCommits.CommitsOnOneChainIff` | src/consensus.cpp:191-391 | For every run: all blocks it ever commits, genesis included, are on one chain exactly when each event that changes the commit left as its highest certified block one built on every earlier commit, or went back below it |
| `ConsensusCommits.CommitAgreesIff` | src/consensus.cpp:321-364 | One event that changes the commit: the new commit is a known block, and on one chain with a given block exactly when the highest certified block is built on that block, or the new commit is below it |
| `ConsensusCommits.RunKeepsTree` | src/consensus.cpp:191-364 | In every run the blocks are a tree over genesis, and what is committed is three certified generations deep |
| `ConsensusForks.ForksCanCommit` | src/consensus.cpp:321-364 | There is no lock rule: for every such ledger there is a run that commits two different blocks of height one, so its commits are not on one chain, without recovery and with nobody slashed |
| `ConsensusTheorems.HighQcNeverFalls` | src/consensus.cpp:270-364 | Supporting: the round of the highest certificate never falls |
| `ConsensusTheorems.ThresholdIsOverHalf` | src/consensus.cpp:73-82 | With a fraction of at least one half and no overflow any weight that reaches the threshold is more than half the stake |
| `ConsensusTheorems.ThresholdIsOverHalfIff` | src/consensus.cpp:73-82 | For every fraction and total, the threshold is more than half the stake exactly when the product as 64 bits hold it reaches the denominator times half the total, and adding one does not wrap |
| `ConsensusTheorems.TwoThirdsIsOverHalfIff` | src/consensus.cpp:73-82 | With the default two thirds that is so exactly for stake below 2^63 |
| `ConsensusTheorems.QuorumsMeetIff` | src/consensus.cpp:73-82 | However stake is spread, any two sets reaching the threshold share a validator exactly when the wrapped product reaches the denominator times half the total |
| `ConsensusTheorems.WrappedQuorumIsAnything` | src/consensus.cpp:73-82 | Witness: at total stake 2^63 and fraction 2/3 the 64-bit product wraps and one unit of stake is a quorum |
| `ConsensusTheorems.DisjointQuorums` | src/consensus.cpp:270-319 | Two sets each over half, before and after stake fell, that share no unslashed validator cannot both exist |
| `ConsensusProcedure.ConsensusCore.HandleAll` | src/consensus.cpp:191-391 | The object after any sequence of events is the specification's state |
| `ConsensusProcedure.ConsensusCore.OnProposalReceived` | src/consensus.cpp:191-228 | Files a proposal on a known parent, as the specification does |
| `ConsensusProcedure.ConsensusCore.OnVoteReceived` | src/consensus.cpp:230-268 | Records a vote, slashes an equivocation, and tries to certify |
| `ConsensusProcedure.ConsensusCore.TryFormQcNow` | src/consensus.cpp:270-319 | Certifies when unslashed signers reach the threshold |
| `ConsensusProcedure.ConsensusCore.TryCommitNow` | src/consensus.cpp:321-364 | Commits the grandparent of the highest certified block when all three are certified, and rewards each height once in a row |
| `ConsensusProcedure.ConsensusCore.RecoverIfPartitioned` | src/consensus.cpp:374-391 | Clears votes after the timeout and says whether it did |
| `Checkpoint.AcceptedCheckpointsOverlap` | src/checkpoint.cpp:95-146 | While bonded stake fits 64 bits, two checkpoints the code accepts against one ledger share signers holding at least a third of it |
| `Checkpoint.HonestThirdPreventsForks` | src/checkpoint.cpp:95-146 | While bonded stake fits 64 bits: if less than a third of it signs two headers of one height, both accepted checkpoints have one header |
| `Checkpoint.VerifySignedCheckpoint` | src/checkpoint.cpp:95-146 | The loop and the comparison decide, on 64 bits, exactly `Accepts`: distinct, unslashed, staked signers, good signatures, signed stake within 64 bits and two thirds of the wrapped total |
| `Checkpoint.AcceptsIsValid` | src/checkpoint.cpp:95-146 | While bonded stake fits 64 bits, what is accepted is exactly what two thirds of it signed |
| `Checkpoint.AcceptanceIsValidityIff` | src/checkpoint.cpp:95-146 | Where every staked validator can sign, acceptance means signed by two thirds of the true stake, for every list of signatures, exactly when bonded stake fits 64 bits |
| `Checkpoint.EverybodySignsIff` | src/checkpoint.cpp:95-146 | A list signed by all stake is accepted exactly when that stake fits 64 bits |
| `Checkpoint.WrappedTotalIsNoQuorum` | src/checkpoint.cpp:135-143 | Witness: at total stake 2^64 + 1 the total wraps and one unit of signed stake is accepted though it is no quorum |
| `Staking.TotalBonded` | src/staking.cpp:9-17 | The loop sums unslashed bonds, wrapping at 64 bits |
| `Staking.SlashOnlyLowers` | src/staking.cpp:86-100 | Slashing zeroes one validator's bond and touches no other |
| `ErasureTheorems.AnyEnoughShardsDeliver` | src/net_gossip.cpp:393-511 | Shards of one message in any order, with repeats, to a fresh receiver: one message is delivered, when at least n distinct ones have arrived, and nothing before; its payload is the original, its topic whatever the erased entry reads as at that arrival |
| `ErasureTheorems.OriginalIsDeliveredIff` | src/net_gossip.cpp:495-511 | Once enough have arrived, exactly the original message was delivered if and only if the topic read from the erased entry, at the arrival that completed it, is the original's |
| `ErasureTheorems.ParityRecovers` | src/net_gossip.cpp:259-265 | XOR of the parity and the other pieces is the missing piece |
| `ErasureTheorems.CompleteRestores` | src/net_gossip.cpp:461-493 | Completing and gathering gives back the payload at its original length |
| `ErasureTheorems.PiecesJoinToPayload` | src/net_gossip.cpp:244-257 | Cut, padded, joined and cut again, a payload is itself |
| `ErasureTheorems.DeliveredHasItsDigest` | src/net_gossip.cpp:495-511 | Supporting: whatever arrives, at most one message is delivered, under the read topic; its payload has, with the topic its shards claim, the digest they claim, never delivered before |
| `ErasureTheorems.OneShard` | src/net_gossip.cpp:393-511 | One more shard: where the receiver stands afterwards and what it delivers, the topic being what the erased entry reads as |
| `ErasureTheorems.OnShardKeepsShape` | src/net_gossip.cpp:407-445 | Buffers keep their sizes whatever arrives |
| `ErasureTheorems.EntryIsGoneIff` | src/net_gossip.cpp:407-429 | The entry that a shard has just opened is evicted at once, and used although erased, exactly when its message was not in flight, the table is too full and the oldest key in the order list is the message's own |
| `ErasureTheorems.EntryCanBeGone` | src/net_gossip.cpp:393-511 | A run that gets there: a message delivered before leaves its key in the order list |
| `ErasureTheorems.AcceptedIff` | src/net_gossip.cpp:393-503 | A frame is accepted exactly when it is well formed, its entry is not evicted at once, its header is the entry's, and a payload it completes has the claimed digest |
| `ErasureTheorems.FirstCopyIsKept` | src/net_gossip.cpp:432-445 | The first copy of each shard is kept where it belongs, and nothing else in the entry changes |
| `ErasureTheorems.LatestAreRemembered` | src/net_gossip.cpp:184-192 | Over every run the receiver remembers exactly the messages delivered last, as many as it has room for |
| `ErasureTheorems.PiecesAreCut` | src/net_gossip.cpp:244-257 | A piece holds its part of the payload, and zeros beyond |
| `ErasureProcedure.MakeShards` | src/net_gossip.cpp:232-294 | The frames of publish, data shards in order and then parity, with the count cut to 16 bits and the length to 32; none exactly when the payload limit is within the header or the cut count is zero |
| `ErasureProcedure.FittingIsSentWhole` | src/net_gossip.cpp:232-294 | A message whose count and length fit their fields goes out as all of its shards |
| `ErasureProcedure.GossipReceiver.OnInbound` | src/net_gossip.cpp:393-511 | The handler on its mutable maps replies as the specification does; the topic of a delivery, which is read after its entry is erased, is a parameter |
| `ErasureProcedure.ReceiveAll` | src/net_gossip.cpp:393-511 | Fed shard by shard, each with what an erased entry would read as, delivers what the specification run delivers |
| `ErasureProcedure.GossipReceiver.DedupRemember` | src/net_gossip.cpp:184-192 | Remembers a digest, forgetting the oldest over the limit |
| `ErasureProcedure.GossipReceiver.Recover` | src/net_gossip.cpp:461-479 | Rebuilds the missing piece in place |
| `LendTheorems.RunKeepsBooks` | src/module119_lend_apply.cpp:281-714 | Over every run of calls after configuration, by others than the vault and without self-liquidation: shares sum to their total, debts sum to at most theirs, vault balance plus debts minus shares is constant, and the total debt that is nobody's never falls |
| `LendCalls.CallAgrees` | src/module119_lend_apply.cpp:281-714 | Every call on any storage, height and price, told over the numbers in its slots: exactly when it is accepted, and the whole storage it leaves, configuration, interest and event included |
| `LendTheorems.RunKeepsConfig` | src/module119_lend_apply.cpp:281-714 | The asset, both ratios and both rates are those last configured, in every run of other calls |
| `LendTheorems.CallKeepsBooks` | src/module119_lend_apply.cpp:412-714 | The same for one call |
| `LendTheorems.LiquidationKeepsIff` | src/module119_lend_apply.cpp:624-711 | A liquidation keeps the books sound exactly when the victim is not the caller: liquidating oneself creates the seized shares |
| `LendTheorems.ConfiguringKeepsIff` | src/module119_lend_apply.cpp:346-410 | Anyone may configure again; it keeps the books sound exactly when nobody holds shares or debt |
| `LendTheorems.GuardsNeverFire` | src/module119_lend_apply.cpp:508-605 | In sound books no user has more than a total, so the tests against going below zero never refuse |
| `LendEffects.HealthOkIff` | src/module119_lend_apply.cpp:236-251 | The health test passes exactly for a position whose collateral covers its debt and whose 128-bit product does not wrap below it: it never passes an uncovered one |
| `LendEffects.CoveredCanFail` | src/module119_lend_apply.cpp:236-251 | A hugely over-covered position whose product wraps to zero fails the test |
| `LendEffects.DepositGives` | src/module119_lend_apply.cpp:442-476 | A deposit takes the amount and gives the caller as many shares; nobody else is touched |
| `LendEffects.WithdrawGives` | src/module119_lend_apply.cpp:478-526 | A withdrawal pays the shares out and leaves the caller truly covered at the stored collateral factor, without any wrap; nobody else is touched |
| `LendEffects.BorrowGives` | src/module119_lend_apply.cpp:528-580 | A loan pays what it adds to the caller's debt and leaves the caller truly covered at the stored collateral factor, without any wrap; nobody else is touched |
| `LendEffects.RepayGives` | src/module119_lend_apply.cpp:582-622 | A repayment takes no more than the debt and lowers it by what it takes; nobody else is touched |
| `LendEffects.LiquidateGives` | src/module119_lend_apply.cpp:624-711 | A liquidated position fails the health test at the stored threshold, and is truly uncovered there exactly unless the 128-bit product wraps below its debt; the victim's debt falls by what the liquidator pays the vault, the shares seized, with the distance of the two stored ratios as bonus, go from victim to liquidator; nobody else is touched |
| `LendTheorems.AccrueDoes` | src/module119_lend_apply.cpp:315-344 | Interest touches only the total debt, which does not fall |
| `LendTheorems.AccrueAdds` | src/module119_lend_apply.cpp:315-344 | An accrual that goes through adds exactly its quoted interest, at the stored rate and over the epochs since the stored height, to the total debt |
| `LendTheorems.InterestIsOwedIff` | src/module119_lend_apply.cpp:328-338 | The quoted interest is debt times rate times epochs over 10000 exactly when that product is below 2^128 |
| `LendTheorems.InterestStaysOwed` | src/module119_lend_apply.cpp:281-714 | Interest is added to nobody's debt: over every ordinary run the total debt stays at least what was nobody's before, however much is repaid |
| `LendProcedure.Lend119Apply` | src/module119_lend_apply.cpp:281-714 | The entry point, with its list of changes and its override of the total debt, builds the specification's changes |
| `LendProcedure.LendCall.DoAccrue` | src/module119_lend_apply.cpp:315-344 | Accrues on the list and the override |
| `LendProcedure.LendCall.DoLiquidate` | src/module119_lend_apply.cpp:624-711 | Builds a liquidation's changes |
| `StableTheorems.RunKeepsBooks` | src/module118_apply.cpp:300-746 | Over every run by callers other than the vault, parameter changes included: coins sum to debts sum to total debt, collateral sums to its total, vault balance minus total collateral and the sum of native balances are constant |
| `StableCalls.CallAgrees` | src/module118_apply.cpp:300-746 | Every call on any storage, accounts, height and prices, told over the numbers in its slots and the feed's point: exactly when it is accepted, and the whole storage and accounts it leaves, event included |
| `StableTheorems.CallKeeps` | src/module118_apply.cpp:300-746 | One successful call keeps the books sound; it keeps the native balances' sum exactly unless the vault itself calls one that moves balance, and then the surplus survives only a deposit |
| `StableTheorems.WithdrawSucceedsIff` | src/module118_apply.cpp:471-537 | In sound books with a solvent vault a withdrawal succeeds exactly when it is covered, priced and the account has room: the vault and the total never refuse it |
| `StableTheorems.BurnSucceedsIff` | src/module118_apply.cpp:597-632 | In sound books a burn succeeds exactly when the caller holds the coins and owes as much |
| `StableTheorems.EveryoneCanLeave` | src/module118_apply.cpp:471-632 | Whoever holds coins for its debt can burn them and take all its collateral back, at any price |
| `StableTheorems.UndefinedIff` | src/module118_apply.cpp:648-680 | A call divides by zero exactly when it liquidates a debt, by a caller with the coins, while the feed says price zero |
| `StableTheorems.GuardsNeverFire` | src/module118_apply.cpp:523-721 | In sound books nobody holds more than a total |
| `StableEffects.CollateralisedIff` | src/module118_apply.cpp:250-266 | The ratio test passes exactly for a position whose collateral covers its debt and whose 128-bit product does not wrap below it |
| `StableEffects.CoveredCanFail` | src/module118_apply.cpp:250-266 | A hugely over-covered position whose product wraps to zero fails the test |
| `StableEffects.DepositGives` | src/module118_apply.cpp:409-469 | A deposit moves native balance to the vault and adds as much collateral for the caller |
| `StableEffects.WithdrawGives` | src/module118_apply.cpp:471-537 | A withdrawal pays the caller's collateral out of the vault and leaves its position truly covered at the stored collateral ratio and the feed's fresh point, without any wrap |
| `StableEffects.MintGives` | src/module118_apply.cpp:539-595 | A mint raises the caller's coins and debt alike, and leaves its position truly covered at the stored collateral ratio and the feed's fresh point, without any wrap |
| `StableEffects.BurnGives` | src/module118_apply.cpp:597-632 | A burn lowers the caller's coins and debt alike, and nothing else |
| `StableEffects.LiquidateGives` | src/module118_apply.cpp:634-743 | A liquidated position fails the test at the stored liquidation ratio, and is truly uncovered there exactly unless the 128-bit product wraps below its debt; at a positive price the caller's coins and the target's debt fall alike, and the reward, with the stored penalty, leaves the target's collateral and the vault for the caller; nobody else is touched |
| `StableTheorems.RunKeepsCeiling` | src/module118_apply.cpp:564-570 | Without a parameter change the debt stays within the ceiling |
| `StableTheorems.RewardCoversCoins` | src/module118_apply.cpp:679-692 | Where the 128-bit product does not wrap, any quote is worth at least the coins burned, for every penalty |
| `StableTheorems.RewardCoversCoinsIff` | src/module118_apply.cpp:679-692 | For every quote the contract goes on with, the reward covers the coins burned exactly when the 128-bit product does not wrap |
| `StableTheorems.RewardCanFallShort` | src/module118_apply.cpp:679-692 | A price of 19 decimals and a burn for which it wraps and the quote is accepted and too small |
| `StableTheorems.FreshBooksAreSound` | src/module118_apply.cpp:300-320 | A contract nobody has used is sound |
| `StableTheorems.PaidOut` | src/module118_apply.cpp:499-517 | What a payout does to vault and sum of balances, also when the vault pays itself |
| `StableTheorems.CallStaysReadable` | src/module118_apply.cpp:300-746 | Every number the contract stores can be read back |
| `StableProcedure.Stable118Apply` | src/module118_apply.cpp:300-746 | The entry point fills its two lists with the specification's changes, or refuses |
| `StableProcedure.StableCall.DoLiquidate` | src/module118_apply.cpp:634-743 | Builds a liquidation's changes, or is undefined where it divides by zero |
| `StableProcedure.StableCall.DoMint` | src/module118_apply.cpp:539-595 | Builds a mint's changes |
| `ExecCache.RunKeeps` | src/exec_cache.cpp:57-159 | After every sequence of operations: bytes is the sum of entry sizes, the FIFO's generations rise, and each entry's record is in it |
| `ExecCache.OneRecordEach` | src/exec_cache.cpp:57-159 | A live entry's record with its generation occurs once in the FIFO |
| `ExecCache.HitsAreFresh` | src/exec_cache.cpp:63-116 | A hit returns the value of the last put of that key with no invalidate or clear since |
| `ExecCacheOrder.LookupsAreTheList` | src/exec_cache.cpp:57-159 | After every sequence of operations every lookup, the number of entries and the bytes are those of a plain list in order of last put, without generations or stale records |
| `ExecCacheOrder.RunIsList` | src/exec_cache.cpp:57-159 | The live entries in the order of their records are that list's items: puts move to the end and trim from the front, invalidation removes one key only |
| `ExecCache.PutHitsIffItFits` | src/exec_cache.cpp:74-100 | A put can be read back exactly when its own size is within the byte limit |
| `ExecCache.EvictKeepsWhatFits` | src/exec_cache.cpp:136-158 | Eviction is oldest-first: if the entries put since some point fit together they all stay |
| `ExecCache.EvictKeepsNewest` | src/exec_cache.cpp:136-158 | What eviction leaves is exactly the entries put from some generation on: the oldest puts go first |
| `ExecCache.EvictKeeps` | src/exec_cache.cpp:136-158 | After eviction both limits hold and the index stays exact, stale records notwithstanding |
| `ExecCache.PutKeeps` | src/exec_cache.cpp:74-100 | A put keeps the index exact and ends within both limits |
| `ExecCache.BytesCoverEach` | src/exec_cache.cpp:83-87 | No entry is larger than the byte count, so the clamp to zero never runs |
| `ExecCache.BasicCache.PutValue` | src/exec_cache.cpp:74-100 | The object after a put |
| `ExecCache.BasicCache.EvictIfNeeded` | src/exec_cache.cpp:136-158 | The eviction loop over stale and live records |
| `ExecCache.BasicCache.InvalidateKey` | src/exec_cache.cpp:102-116 | The object after an invalidation |
| `ExecCache.BasicCache.GetCopy` | src/exec_cache.cpp:63-72 | What a lookup returns |
| `Crc32.Crc32Ieee` | src/crc32.cpp:46-68 | The 8-byte sliced loop with its byte tail is the bit-serial CRC, for every byte string |
| `Crc32.CheckValue` | src/crc32.cpp:46-68 | The published check value: the digits 1 to 9 have the checksum CBF43926 |
| `Crc32.PolyCoefficients` | src/crc32.cpp:11-23 | The generator's exponents are 32, 26, 23, 22, 16, 12, 11, 10, 8, 7, 5, 4, 2, 1 and 0 |
| `Crc32.SlicedIsBytewise` | src/crc32.cpp:50-61 | Eight lookups at once equal eight one-byte steps, by linearity over XOR |
| `Crc32.BytewiseIsBitSerial` | src/crc32.cpp:63-66 | One-byte table steps equal feeding the bits one at a time |
| `Crc32.MakeTables` | src/crc32.cpp:13-35 | The eight tables hold the steps of every byte followed by 0 to 7 zero bytes |
| `Crc32.NextTable` | src/crc32.cpp:25-35 | Each table follows from the one before by one byte step |
| `Crc32.StepsAreLinear` | src/crc32.cpp:13-35 | Shift steps distribute over XOR |
| `Crc32.BurstsAreDetected` | src/crc32.cpp:46-68 | Changing any four adjacent bytes changes the CRC |
| `Crc32.BitBurstsAreDetected` | src/crc32.cpp:46-68 | Two messages that differ only within some 32 consecutive bits, at any bit offset, have different checksums |
| `Crc32.BytewiseConcat` | src/crc32.cpp:46-68 | The register after two strings is that of the second from that of the first |

## Left out

Weaker on purpose:

- AbiTheorems.DecodeInvertsEncode: size limits are below 2^63 and bytesN widths at most 32 by type, because the encoder copies wider values past its 32-byte word; the one-value wrappers encode_value and decode_value are not modelled.
- MultiproofFrontier.FrontierProofIsSound: is for the tree's own leaf count, other counts being MultiproofCounts.AnyCountIsSound; this and the other theorems about trees are for fewer than 2^64 - 1 leaves.
- AmmProcedure.Amm119Apply: is entered only where the square root loop ends; where it does not, the specification says `Hangs`.
- EvmInterpreter.Evaluate: the host is the storage of one account that either can or cannot load and store, rather than a table of callbacks.
- MempoolProcedure.Mempool.PlayAll: the equality with a single pool is for one common compute bid, outside of which the victim depends on the shards as MempoolShards says; sizes are unbounded naturals, where the source has size_t.
- ExecutorProcedure.ExecutePlan: only transfers, so contract calls, deploys and upgrades are not modelled; apply_batch and the storage commits are taken to succeed.
- ExecutorProcedure.Execution.Execute: likewise only transfers.
- ConsensusTheorems.ConflictingCertificatesSlash: takes total stake times the quorum numerator to fit 64 bits, since the threshold is meaningless otherwise, and proposal ids to be injective.
- ErasureTheorems.AnyEnoughShardsDeliver: is about whole shards, as sent when the piece count fits 16 bits and the length 32 (ErasureProcedure.FittingIsSentWhole); what a receiver makes of cut ones is not described.
- ErasureProcedure.GossipReceiver.OnInbound: where the source uses an entry after erasing it, which C++ leaves undefined, the model takes the topic it reads to be any value, and an entry that evicts itself (exactly ErasureTheorems.EntryIsGoneIff) to be a refused frame.
- ErasureTheorems.DeliveredHasItsDigest: the digest is that of the payload with the topic claimed by its shards, not with the topic read after the entry is erased.
- ExecCache.HitsAreFresh: the generation counter is unbounded, where the source has 64 bits.

Not modelled:

- Byte layouts around the cores: multiproof files, AMM, lending and stablecoin call inputs, gossip frames, transfer payloads, checkpoint files; calls and frames are taken as already parsed.
- std::sort is modelled as a stable insertion sort; where equal keys can occur the order among them is not observable in what is modelled.
- The mempool's shard-number tie-breaks, which never decide because ids are distinct; its priority queue is a set of cursors, and the transaction codec a parameter.
- Accumulated chain work of light sync, which no decision uses.
- Leader election, the slash and reward callbacks and signatures of the consensus core: parameters of the model.
- Checkpoint normalisation and comparison.
- Gossip peer queues, rate limits and the unsharded path.
- Oracle feeds of the contracts: the latest point of a feed, with its power of ten, is a parameter.
- The scheduler that forms batches and rejects transactions; the per-transaction results and change counts of the executor's report.
- Tip distribution, block rewards and the rest of the global state beyond what executing a block changes.
- Chain storage, Merkle state, the stack virtual machine, the bridge, RPC, command line, simulations and benchmarks.
