# Verified core of an Ethereum execution node

A Dafny model of the parts of the node where a mistake costs most, and proofs about them.
`dafny verify dfyconfig.toml` checks everything.

- **Blockchain tree** (`Chain`, `TreeModel`, `TreeInsert`, `TreeReorg`, `TreeRuns`, `TreeTables`, `BlockIndices`,
  `TreeIndices`, `TreePurge`, `TreeWalk`, `BlockchainTree`, `Substate`). Side chains, the canonical chain and four
  redundant indices form a state machine with three operations: insert a block, finalise a block, make a block
  canonical. `TreeModel` states what each operation means on values. The classes `BlockIndices` and `BlockchainTree`
  carry the operations out in place, loop by loop, and are proved to refine that machine. The results hold over every
  run.
- **RLP** (`RlpBytes`, `Rlp`, `RlpExact`, `RlpBuffers`, `HeaderCodec`, `ReceiptCodec`). The serialisation of Appendix B
  of the Yellow Paper, read against a shape (the caller's type), and the two codecs built on it.
- **Logs** (`Bloom`, `LogFilter`). Topic filters, their cartesian-product form, and the bloom pre-check.
- **Fork identifiers** (`ForkId`). EIP-2124 with the timestamps of EIP-6122.
- **Consensus arithmetic** (`BaseFee`, `Nonces`, `Accounting`). The EIP-1559 base fee over runs of headers, the nonce
  check, and ether accounting after a block.

Assumptions, all explicit in the contracts:

- A hash determines its block, and a block's number is one more than its parent's (`TreeModel.SealedBy`). The tree
  relies on the second half without checking it; `Chains.ForkNeedsMatchingNumber` says what happens otherwise.
- Finalisation targets do not decrease and are not above the canonical tip (`TreeRuns.Allowed`).
- Keccak-256, CRC-32, block execution and the check of one transaction against its header are parameters.
- Buffers are shorter than 2^64 bytes, as a 64-bit `usize` demands.

Behaviour that differs from what the documentation or a first reading suggests; the model follows the code:

- `new_chain_fork` finds the parent by number only, and nothing checks the parent hash against it. A misnumbered
  block is accepted and later fails to connect (`Chains.ForkNeedsMatchingNumber`).
- `make_canonical` promises to accept any canonical block, but only finds canonical blocks from the last finalised
  one on (`Trees.BlockchainTree.MakeCanonical`).
- A header with a zero base fee is read back without one, and a lone placeholder byte is accepted where no field is
  missing (`HeaderCodec.BlockHeaderExact`).
- The length announced by a typed receipt's string header is ignored (`ReceiptCodec.AnnouncedLengthIgnored`).
- `length` of an integer of 56 bytes or more is short, so a list with such an integer anywhere inside is written with
  a wrong header and is not read back; every other value is (`RlpExact.LengthExact`, `RlpExact.RoundTripExact`).
- A topic filter does not always mean "every position admits the log". A position without alternatives makes it
  accept everything. Where a position beyond the log's topics has a value among its alternatives, only the first
  alternative of every position counts. Otherwise a filter with values refuses logs that only its nulls admit.
  `LogFilters.FilterTopicsMeaning` says what every filter accepts, `LogFilters.FilterTopicsDisagrees` exactly when
  that differs from the positions, and `LogFilters.FilterTopicsAgrees` for which filters it never does.
- The lazily kept fork cache goes stale exactly on the changes listed by `ForkIds.Missed`, which need a time fork to
  be active before all block forks (`ForkIds.LazyExact`, `ForkIds.HeadStep`).
- A peer with the same schedule can be refused. `ForkIds.SameScheduleExact` says exactly when, for any two heads and
  also with caches that went stale. At heads where an active time fork implies all block forks this comes to: both are
  in the same epoch, that epoch started with a block fork, the next fork is a time fork, and the local block number
  has reached its timestamp (`ForkIds.SameSchedule`, `ForkIds.ConfusedPeers`). At other heads a timestamp can be
  taken for a block number, or a peer in another epoch be called stale (`ForkIds.UnorderedPeers`,
  `ForkIds.UnorderedPeerIsStale`).
- The old balance reported for an account of the DAO move is not always the one before the block
  (`Accounting.ReportedBefore`, `Accounting.RewardMisreported`). The list in `crates/executor/src/eth_dao_fork.rs` has 116 distinct
  accounts and not the beneficiary, so no account is met twice there (`Accounting.NoneMetTwice`).
- No block can be built on a gas limit below 1024, or below 512 just before London, where the limit is doubled
  (`BaseFees.HasChildExact`).
- The bytecode table of a side chain always holds the changesets of a run of blocks ending with the chain
  (`TreeTables.RunTraced`). Without reorgs that run starts right above the canonical chain
  (`TreeTables.RunGrounded`). A reorg can move the canonical block below a chain and leaves its table alone
  (`TreeTables.CanonicalizedGrounded`, `TreeTables.DisplacedBlockMissing`).

## Model

| member | source | states |
|---|---|---|
| `Substate.ApplyTxsCounts` | crates/executor/src/substate.rs:22-42 | after applying transactions every bytecode's count has risen by its number of occurrences, and hashes already held keep their code |
| `Substate.RevertTxsUndoes` | crates/executor/src/substate.rs:93-113 | reverting transactions in forward order from any table with matching counts gives back the table before them and never meets a missing bytecode |
| `Substate.RevertOneUndoesApply` | crates/executor/src/substate.rs:93-113 | reverting one changeset exactly undoes applying it |
| `Substate.RevertSuffixIsApplyPrefix` | crates/executor/src/substate.rs:93-113 | reverting any suffix of applied changesets never panics and leaves the table that applying only the prefix gives |
| `Substate.SubStateData.ApplyOne` | crates/executor/src/substate.rs:29-47 | the in-place loop computes the specified table |
| `Substate.SubStateData.Revert` | crates/executor/src/substate.rs:93-123 | the in-place loop succeeds exactly when the specified revert is defined, and computes it |
| `Chains.AppendBlockKeepsOk` | crates/executor/src/blockchain_tree/chain.rs:202-229 | a successful append keeps blocks linked, one changeset per block, and a substate that is the changesets applied to some base |
| `Chains.RevertAboveParent` | crates/executor/src/blockchain_tree/chain.rs:147-172 | the revert range of a fork is inside the changesets, and reverting it gives the state at the fork block |
| `Chains.ForkKeepsOk` | crates/executor/src/blockchain_tree/chain.rs:132-177 | forking at any held block executes on the chain's base table with the changesets up to that block, fails only if execution does, and gives a chain that keeps the invariant |
| `Chains.ForkNeedsMatchingNumber` | crates/executor/src/blockchain_tree/chain.rs:141-145 | a block naming parent `i` but numbered after `j` is accepted, and connects to the part its fork number cuts off iff `i` is `j` |
| `Chains.SplitThenAppendRestores` | crates/executor/src/blockchain_tree/chain.rs:233-299 | splitting by hash or by number at any held block, then appending the pending part, restores blocks, changesets and substate exactly |
| `TreeModel.RootIsCanonical` | crates/executor/src/blockchain_tree/mod.rs:273-291 | following fork links from any chain ends at a canonical block, at or above the finalised one and below the chain |
| `TreeModel.ForkLink` | crates/executor/src/blockchain_tree/mod.rs:273-291 | each fork link leads to a chain that starts strictly lower and has the same root, or to the canonical root itself, which is in the window |
| `TreeInsert.InsertedKeepsInv` | crates/executor/src/blockchain_tree/mod.rs:320-377 | inserting any block keeps the invariant, and none of the inner consistency errors or panics can come out |
| `TreeInsert.InsertedMeaning` | crates/executor/src/blockchain_tree/mod.rs:320-377 | for a number in range `true` means exactly that the block is now held, `false` exactly that neither it nor its parent is known; without `true` nothing changes |
| `TreeReorg.PathIsAncestry` | crates/executor/src/blockchain_tree/mod.rs:441-479 | the parts collected for a block are its side-chain ancestry by parent hash, lowest first |
| `TreeReorg.CanonicalizedKeepsInv` | crates/executor/src/blockchain_tree/mod.rs:441-505 | making any side block canonical keeps the invariant |
| `TreeReorg.CanonicalizedMeaning` | crates/executor/src/blockchain_tree/mod.rs:441-505 | the block becomes the tip above its own ancestry, everything below the fork is untouched and above the finalised block, the known blocks are conserved, and displaced blocks come back as one new chain |
| `TreeReorg.CanonicalizedChains` | crates/executor/src/blockchain_tree/mod.rs:423-505 | every other chain is left alone, loses exactly its promoted lower part, or disappears because it was promoted whole |
| `TreeRuns.FinalizedKeepsInv` | crates/executor/src/blockchain_tree/mod.rs:380-388 | finalising keeps the invariant |
| `TreeRuns.FinalizedMeaning` | crates/executor/src/blockchain_tree/mod.rs:380-388 | exactly the chains whose root lies in [old finalised, new finalised) go; every other chain is unchanged and keeps its root |
| `TreeRuns.RunKeepsFinalized` | crates/executor/src/blockchain_tree/mod.rs:320-505 | every run keeps the invariant and every canonical block up to the finalised one |
| `TreeRuns.FinalizedForever` | crates/executor/src/blockchain_tree/mod.rs:320-505 | a block finalised at any point of a run is canonical for the rest of it |
| `TreeTables.HeldOnce` | crates/executor/src/blockchain_tree/mod.rs:320-505 | every known block is held once, in the database or in one chain, with one changeset |
| `TreeTables.ReorgMoves` | crates/executor/src/blockchain_tree/mod.rs:441-505 | a reorg changes no known block's changeset |
| `TreeTables.ExecutedOn` | crates/executor/src/blockchain_tree/mod.rs:320-377 | a block on a side chain is executed on its parent and on exactly the changesets from the start of that chain's table up to the parent, and is held iff execution succeeds |
| `TreeTables.InsertedKeepsStart` | crates/executor/src/blockchain_tree/mod.rs:320-377 | inserting any block leaves every chain, and the start of its table, in place |
| `TreeTables.InsertedNewStart` | crates/executor/src/blockchain_tree/chain.rs:96-177 | a new chain's table starts with its block on the canonical chain, and on a side chain where that chain's does |
| `TreeTables.CanonicalizedKeepsStart` | crates/executor/src/blockchain_tree/mod.rs:441-505 | every chain a reorg leaves keeps the start of its table, also when its lower part was promoted |
| `TreeTables.DisplacedStart` | crates/executor/src/blockchain_tree/mod.rs:487-505 | the table of the displaced blocks' chain is made of exactly their changesets |
| `TreeTables.RunTraced` | crates/executor/src/blockchain_tree/mod.rs:320-505 | over every run each chain's table is the changesets of a run of blocks that ends with its tip and covers it |
| `TreeTables.RunGrounded` | crates/executor/src/blockchain_tree/mod.rs:320-388 | over every run without reorgs each chain's table is that of its whole side ancestry and no more |
| `TreeTables.CanonicalizedGrounded` | crates/executor/src/blockchain_tree/mod.rs:441-505 | such a table is still that of the side ancestry after a reorg iff the blocks between the old and the new canonical root bring no bytecode in |
| `TreeTables.DisplacedBlockMissing` | crates/executor/src/blockchain_tree/mod.rs:441-505 | a reorg after which a table lacks a displaced block |
| `TreeIndices.AgreeMeaning` | crates/executor/src/blockchain_tree/block_indices.rs:12-33 | what agreement of the indices means: number groups are exactly the side blocks of that number, fork groups exactly the first blocks of chains on that parent, no group is empty, the window is the newest canonical hashes |
| `TreePurge.NextWork` | crates/executor/src/blockchain_tree/block_indices.rs:171-209 | removing one chain changes the work left by exactly that chain and the chains that started on it |
| `TreePurge.PurgeEnd` | crates/executor/src/blockchain_tree/mod.rs:380-388 | when no work is left, the chains and indices are those of the finalised state |
| `TreeWalk.WalkEndIndices` | crates/executor/src/blockchain_tree/mod.rs:441-479 | after the walk, removing the collected blocks from the indices leaves them in agreement with the remaining chains |
| `TreeWalk.MovedIsCanonicalized` | crates/executor/src/blockchain_tree/mod.rs:480-505 | committing the collected chain, and reinserting what it displaced, gives the specified state with indices in agreement |
| `Indices.GroupAddAll` | crates/executor/src/blockchain_tree/block_indices.rs:93-103 | inserting a chain's blocks one by one gives the grouping of the larger block set |
| `Indices.GroupRemoveAll` | crates/executor/src/blockchain_tree/block_indices.rs:171-209 | removing blocks one by one gives the grouping of the smaller block set, without empty groups |
| `Indices.BlockIndices.InsertChain` | crates/executor/src/blockchain_tree/block_indices.rs:93-103 | the exact new contents of all four indices |
| `Indices.BlockIndices.RemoveChain` | crates/executor/src/blockchain_tree/block_indices.rs:171-209 | the exact new contents of the indices, and the owners of the chains that started on the removed one |
| `Indices.BlockIndices.CanonicalizeBlocks` | crates/executor/src/blockchain_tree/block_indices.rs:214-254 | the canonical window above the first block is replaced, and the blocks leave the side indices |
| `Indices.BlockIndices.FinalizeCanonicalBlocks` | crates/executor/src/blockchain_tree/block_indices.rs:258-294 | the owners of chains on the passed canonical blocks are returned, and the window is trimmed |
| `Trees.BlockchainTree.constructor` | crates/executor/src/blockchain_tree/mod.rs:106-151 | the tree starts valid on any linked database |
| `Trees.BlockchainTree.CanonicalFork` | crates/executor/src/blockchain_tree/mod.rs:273-291 | the loop over fork links terminates and finds the root of every known chain |
| `Trees.BlockchainTree.InsertBlockWithSenders` | crates/executor/src/blockchain_tree/mod.rs:320-377 | the object refines the insertion of the state machine, with the same answer, and the indices still agree |
| `Trees.BlockchainTree.RemoveOrphans` | crates/executor/src/blockchain_tree/mod.rs:380-388 | the worklist, taken in any order, terminates by (chains left, worklist size) with nothing left to remove |
| `Trees.BlockchainTree.FinalizeBlock` | crates/executor/src/blockchain_tree/mod.rs:380-388 | the object refines finalisation, and the indices still agree |
| `Trees.BlockchainTree.SplitChain` | crates/executor/src/blockchain_tree/mod.rs:423-436 | the lower part is returned and the upper part is put back under the same id in chains and indices |
| `Trees.BlockchainTree.MakeCanonical` | crates/executor/src/blockchain_tree/mod.rs:441-552 | the object refines the reorganisation without reaching a panic; the answer says exactly which hashes are found |
| `Trees.BlockchainTree.ExecuteAll` | crates/executor/src/blockchain_tree/mod.rs:320-505 | after any legal run the object stands for the state the run ends in, and the indices agree with the chains |
| `BigEndian.ZerolessToBe` | crates/rlp/src/encode.rs:7-10 | fixed-width bytes without leading zeros are the minimal big-endian form |
| `Words.LeadingZerosExact` | crates/rlp/src/encode.rs:35-41 | shifting bits out one by one, a number's bits and its leading zeros fill the word |
| `BigEndian.LeadingZeroBytes` | crates/rlp/src/encode.rs:112-122 | leading zero bits divided by eight are exactly the zero bytes the encoder drops |
| `BigEndian.ByteLengthExact` | crates/rlp/src/encode.rs:296-305 | the bits rounded up to bytes are the minimal big-endian length |
| `BigEndian.PadKeepsValue` | crates/rlp/src/decode.rs:155-172 | left padding does not change the number read |
| `BigEndian.MinFromBe` | crates/rlp/src/decode.rs:155-172 | a byte string without a leading zero is the minimal form of its number |
| `RlpExact.HeaderSound` | crates/rlp/src/decode.rs:85-152 | every header that is read is canonical: the buffer is its encoding followed by the rest, or starts with a lone byte |
| `RlpExact.HeaderComplete` | crates/rlp/src/encode.rs:14-25 | every header with enough bytes behind it is read back |
| `RlpExact.TextExact` | crates/rlp/src/decode.rs:366-378 | byte strings: decoding gives `s` and `rest` iff the buffer is `encode(s)` followed by `rest` |
| `RlpExact.UintExact` | crates/rlp/src/decode.rs:174-202 | unsigned integers of any width: the same iff |
| `RlpExact.FixedExact` | crates/rlp/src/decode.rs:348-364 | byte arrays: the same iff |
| `RlpExact.FlagExact` | crates/rlp/src/decode.rs:211-219 | booleans: the same iff |
| `RlpExact.UintEncodersAgree` | crates/rlp/src/encode.rs:112-138 | the built-in integer encoder writes the bytes of the big-integer encoder |
| `RlpExact.HeaderLength` | crates/rlp/src/encode.rs:35-41 | the length computed from leading zero bits is the length of the header written |
| `RlpExact.UintLengthExact` | crates/rlp/src/encode.rs:112-122 | the same for built-in integers |
| `RlpExact.LengthExact` | crates/rlp/src/encode.rs:374-405 | at any nesting depth `length` never exceeds the bytes `encode` writes, and equals them iff no integer inside has more than 55 bytes |
| `RlpExact.NumLengthExact` | crates/rlp/src/encode.rs:296-311 | `length` of an integer is right iff it has at most 55 bytes |
| `RlpExact.DecodeSound` | crates/rlp/src/decode.rs:411-431 | whatever decoding any shape yields has that shape and was read from its own canonical encoding |
| `RlpExact.DecodeComplete` | crates/rlp/src/decode.rs:411-431 | what the encoder writes for a value without wide integers, followed by anything, is read back |
| `RlpExact.DecodeCanonical` | crates/rlp/src/decode.rs:85-431 | for every shape: decode gives `v` and `rest` iff the buffer is the canonical encoding of `v` followed by `rest` |
| `RlpExact.DecodeExact` | crates/rlp/src/decode.rs:85-202 | for vectors and structures nested to any depth over integers of at most 55 bytes: decode gives `v` and `rest` iff the buffer is `encode(v)` followed by `rest` |
| `RlpExact.EncodingsArePrefixFree` | crates/rlp/src/encode.rs:374-405 | two encodings of one shape that start the same buffer are equal |
| `RlpExact.RoundTripExact` | crates/rlp/src/encode.rs:374-405 | the encoding of any value of any shape is read back iff it is not a list with an integer of more than 55 bytes at some depth |
| `RlpBuffers.SkipZeros` | crates/rlp/src/encode.rs:7-10 | the counting loop computes the view without leading zeros |
| `RlpBuffers.LeftPad` | crates/rlp/src/decode.rs:155-172 | the array copy computes the padded bytes or refuses exactly as specified |
| `RlpBuffers.ListHeader` | crates/rlp/src/encode.rs:374-384 | the accumulating loop computes the payload length |
| `RlpBuffers.Output.PutHeader` | crates/rlp/src/encode.rs:14-25 | appends the header's encoding to the buffer |
| `RlpBuffers.Output.PutBytes` | crates/rlp/src/encode.rs:90-95 | appends a byte string's encoding |
| `RlpBuffers.Output.PutUint` | crates/rlp/src/encode.rs:124-136 | appends an integer's encoding |
| `RlpBuffers.Output.PutList` | crates/rlp/src/encode.rs:395-405 | appends a list's encoding |
| `RlpBuffers.Cursor.ReadHeader` | crates/rlp/src/decode.rs:85-152 | advances the cursor and returns as the specified header decoder does, error cases included |
| `RlpBuffers.Cursor.ReadUint` | crates/rlp/src/decode.rs:174-202 | the same for integers |
| `RlpBuffers.Cursor.ReadFixed` | crates/rlp/src/decode.rs:348-364 | the same for byte arrays |
| `RlpBuffers.Cursor.ReadVector` | crates/rlp/src/decode.rs:411-431 | the loop over the payload view reads exactly the specified elements |
| `RlpBuffers.Cursor.ReadStruct` | crates/rlp/rlp-derive/src/de.rs:36-66 | a derived structure is read field by field and must consume its announced length |
| `RlpBuffers.WriteThenRead` | crates/rlp/src/encode.rs:395-405 | writing a value to a buffer and reading it through a cursor returns it and leaves the cursor on what follows |
| `HeaderCodec.BlockHeaderExact` | crates/primitives/src/header.rs:193-279 | decoding gives header `h` and `rest` iff `h` has no zero base fee and the buffer is the encoding of `h`, or of `h` with a zero base fee where `h` has none, followed by `rest` |
| `HeaderCodec.BlockHeaderRoundTrip` | crates/primitives/src/header.rs:193-279 | a written header is read back unchanged iff its base fee is not a zero |
| `HeaderCodec.BlockHeaderLengthExact` | crates/primitives/src/header.rs:161-231 | `length` is the number of bytes written, with every combination of optional fields |
| `HeaderCodec.TailSound` | crates/primitives/src/header.rs:259-269 | what the optional fields are read from |
| `HeaderCodec.TailComplete` | crates/primitives/src/header.rs:213-223 | the written optional fields are read back, a zero base fee as a missing one |
| `HeaderCodec.WriteBlockHeader` | crates/primitives/src/header.rs:193-224 | appends the specified bytes to the buffer |
| `HeaderCodec.ReadBlockHeader` | crates/primitives/src/header.rs:235-278 | the cursor reads what is specified: a header, an error, or the panic of a number over 64 bits |
| `ReceiptCodec.BodyExact` | crates/primitives/src/receipt.rs:82-105 | the receipt list, logs included, is read exactly from its own encoding |
| `ReceiptCodec.ReceiptExact` | crates/primitives/src/receipt.rs:126-157 | the exact set of buffers from which a receipt is read |
| `ReceiptCodec.ReceiptRoundTrip` | crates/primitives/src/receipt.rs:48-73 | every receipt, with or without its string header and with anything behind it, is read back |
| `ReceiptCodec.AnnouncedLengthIgnored` | crates/primitives/src/receipt.rs:136-148 | a typed receipt announced as empty is read all the same, so decoding is not injective |
| `ReceiptCodec.ReceiptLengthExact` | crates/primitives/src/receipt.rs:76-118 | `length` is the number of bytes written |
| `ReceiptCodec.WriteReceipt` | crates/primitives/src/receipt.rs:48-73 | appends the specified bytes |
| `ReceiptCodec.ReadReceipt` | crates/primitives/src/receipt.rs:126-157 | the cursor reads what is specified, error cases included |
| `Blooms.Accrue` | crates/primitives/src/bloom.rs:101-131 | the shifting loop sets exactly the three bits of an item |
| `Blooms.AddPairs` | crates/primitives/src/bloom.rs:194-201 | the adding loop sets the same three bits |
| `Blooms.ElevenBitsTakeTwoBytes` | crates/primitives/src/bloom.rs:22-29 | `log2` of 2048 is such that an index takes two bytes |
| `Blooms.AddItemIsOr` | crates/primitives/src/bloom.rs:194-201 | adding an item is a union with the item's own bloom |
| `Blooms.LogsBloomIsLeast` | crates/primitives/src/bloom.rs:204-216 | a bloom contains a receipt's bloom iff it contains the item of every address and topic in it: no bit is missing and none is extra |
| `Blooms.BlockBloomIsLeast` | crates/executor/src/executor.rs:526-533 | the same for the union over a block's receipts |
| `Blooms.MakeLogsBloom` | crates/primitives/src/bloom.rs:204-216 | the nested loops build the specified bloom |
| `Blooms.FoldReceipts` | crates/executor/src/executor.rs:526-533 | the fold builds the specified union |
| `Blooms.OrInPlace` | crates/primitives/src/bloom.rs:133-143 | byte by byte, the union |
| `Blooms.ContainsBloom` | crates/primitives/src/bloom.rs:159-174 | true iff every bit is contained |
| `LogFilters.CartesianHas` | crates/primitives/src/filter.rs:322-345 | the product holds exactly the ways to pick one alternative per position |
| `LogFilters.ScanExact` | crates/primitives/src/filter.rs:787-826 | any list of combinations is accepted iff one that is not all null matches before an over-long one, or all are null |
| `LogFilters.ProductStart` | crates/primitives/src/filter.rs:323-345 | the product starts with the first alternatives, and is empty iff some position has none |
| `LogFilters.LongComesEarly` | crates/primitives/src/filter.rs:323-345 | if a position beyond the log has a value, an over-long combination comes before the leading positions ever change |
| `LogFilters.FilterTopicsMeaning` | crates/primitives/src/filter.rs:787-826 | what every filter accepts, in terms of its positions |
| `LogFilters.AcceptedIsAdmitted` | crates/primitives/src/filter.rs:787-826 | a filter with alternatives at every position accepts only logs that every position admits |
| `LogFilters.FilterTopicsDisagrees` | crates/primitives/src/filter.rs:787-826 | for every filter and log, exactly when acceptance differs from every position admitting the log |
| `LogFilters.FilterTopicsAgrees` | crates/primitives/src/filter.rs:787-826 | the filters for which acceptance is every position admitting the log, whatever the log: a condition on the filter alone, both ways |
| `LogFilters.FilterTopicsExact` | crates/primitives/src/filter.rs:787-826 | for filters with no empty list and no null among alternatives, scanning the product by prefix accepts a log iff every constrained position exists in it with one of the alternatives |
| `LogFilters.NullAlternativeHidesMatch` | crates/primitives/src/filter.rs:803-812 | two positions where the order of null and a value decides |
| `LogFilters.LoneNullRefuses` | crates/primitives/src/filter.rs:803-826 | one position where a log is refused in either order although null admits it |
| `LogFilters.EmptyAlternativesAcceptAll` | crates/primitives/src/filter.rs:787-826 | an empty list of alternatives at any position accepts every log |
| `LogFilters.AcceptedMentions` | crates/primitives/src/filter.rs:787-826 | an accepted log contains every non-null value of some entry, for any flattened filter |
| `LogFilters.NoFalseNegatives` | crates/primitives/src/filter.rs:654-701 | if any log of a block passes any address and topic filter, the block's bloom passes both pre-checks |
| `LogFilters.MakeCartesian` | crates/primitives/src/filter.rs:323-345 | the nested loops compute the product |
| `LogFilters.RunFilterTopics` | crates/primitives/src/filter.rs:787-826 | the loop with its flag, `continue` and `break` computes the specified verdict |
| `LogFilters.RunReplace` | crates/primitives/src/filter.rs:704-726 | wildcards are replaced by the log's topics, and never out of range |
| `LogFilters.RunMatchesTopics` | crates/primitives/src/filter.rs:668-687 | true iff there is no entry, or some entry has all its parts in the bloom |
| `LogFilters.RunMatchesAddress` | crates/primitives/src/filter.rs:690-701 | true iff there is no part, or some part is in the bloom |
| `ForkIds.ScheduleIsSchedule` | crates/primitives/src/forkid.rs:176-200 | any collection of forks gives an ascending schedule of exactly its positive keys after genesis |
| `ForkIds.OrderedPrefix` | crates/primitives/src/forkid.rs:339-370 | at a head where an active time fork implies all block forks, the active forks are a prefix |
| `ForkIds.Counts` | crates/primitives/src/forkid.rs:339-370 | at any head the active forks are a prefix of the block forks and a prefix of the time forks |
| `ForkIds.LazyExact` | crates/primitives/src/forkid.rs:202-231 | for any schedule and any two heads, a change of the active forks goes unnoticed iff it is one of the listed kinds, and caches are equal iff the active forks are |
| `ForkIds.HeadStep` | crates/primitives/src/forkid.rs:202-231 | between heads where an active time fork implies all block forks nothing is missed |
| `ForkIds.ForkFilter.SetHead` | crates/primitives/src/forkid.rs:202-231 | on any head, a transition is returned iff the active forks change and the change is not a missed one, and the cache is right iff nothing was missed |
| `ForkIds.ForkFilter.SetHeads` | crates/primitives/src/forkid.rs:202-238 | after any sequence of heads: the head the cache is right for, and every transition returned on the way |
| `ForkIds.OrderedIsFollowed` | crates/primitives/src/forkid.rs:202-238 | along ordered heads the cache is never left behind |
| `ForkIds.ForkFilter.SetOrderedHeads` | crates/primitives/src/forkid.rs:202-238 | along ordered heads the cache equals recomputation and a transition is returned iff the active forks changed |
| `ForkIds.UnorderedHeadGoesStale` | crates/primitives/src/forkid.rs:202-231 | a schedule and two heads where a newly active fork is missed |
| `ForkIds.RunComputeCache` | crates/primitives/src/forkid.rs:339-370 | the loop computes the specified cache |
| `ForkIds.ForkIdCounted` | crates/primitives/src/forkid.rs:339-370 | at any head the announced identifier is the hash of the latest active fork and the number of the first inactive one |
| `ForkIds.CurrentHash` | crates/primitives/src/forkid.rs:258-281 | at any head and with any cache, the current hash is accepted iff the block number, or once time forks are active the timestamp, is below the announced next fork |
| `ForkIds.PastHash` | crates/primitives/src/forkid.rs:284-300 | the hash of any earlier active fork is accepted iff the announced next fork is the active one after it, and otherwise refused as stale |
| `ForkIds.FutureHash` | crates/primitives/src/forkid.rs:302-308 | the hash of any fork that is not active is accepted |
| `ForkIds.UnknownHash` | crates/primitives/src/forkid.rs:310-311 | at any head a hash outside the schedule is refused as incompatible |
| `ForkIds.SameScheduleExact` | crates/primitives/src/forkid.rs:254-312 | exactly when a node accepts another with the same schedule, for any two heads and for caches of earlier heads |
| `ForkIds.SameSchedule` | crates/primitives/src/forkid.rs:254-312 | at two heads where an active time fork implies all block forks: accepted unless both are in one epoch and a block number has passed the timestamp of the next fork |
| `ForkIds.SameScheduleConnects` | crates/primitives/src/forkid.rs:254-312 | at two such heads with numbers below every fork timestamp, both always accept each other |
| `ForkIds.ConfusedPeers` | crates/primitives/src/forkid.rs:254-281 | a schedule and an ordered head at which two such nodes refuse each other |
| `ForkIds.UnorderedPeers` | crates/primitives/src/forkid.rs:254-281 | a schedule and an unordered head at which two such nodes refuse each other |
| `ForkIds.UnorderedPeerIsStale` | crates/primitives/src/forkid.rs:284-300 | two heads in different epochs at which a node with the same schedule is refused as stale |
| `ForkIds.ForkFilter.CheckForkId` | crates/primitives/src/forkid.rs:254-312 | the iterator walk computes the specified verdict |
| `BaseFees.LimitExact` | crates/consensus/src/validation.rs:309-321 | a gas limit is accepted iff it moves by less than 1/1024, and then both limits are at least 1024 |
| `BaseFees.SmallLimitHasNoChild` | crates/consensus/src/validation.rs:300-321 | a limit below 1024 after any London doubling has no successor |
| `BaseFees.HasChildExact` | crates/consensus/src/validation.rs:16-341 | exactly which blocks some header passes both validations on: gas limit at least 1024, or 512 just before London, the next fee defined, and no 64-bit overflow |
| `BaseFees.NextBaseFeeExact` | crates/consensus/src/validation.rs:247-270 | within the gas limit nothing is truncated, saturated or divided by zero; only the final sum can overflow |
| `BaseFees.FeeIsRounded` | crates/consensus/src/validation.rs:247-270 | the fee is the exact rational rule rounded by at most one unit |
| `BaseFees.FeeMonotone` | crates/consensus/src/validation.rs:247-270 | more gas used never gives a lower fee |
| `BaseFees.FeeStep` | crates/consensus/src/validation.rs:247-270 | 8·next ≥ 7·fee, growth at most max(1, fee·(t+1)/8t), at least 7 stays at least 7, and the direction of the change |
| `BaseFees.NeverDividesByZero` | crates/consensus/src/validation.rs:273-341 | validation fails to give an answer only when a number, a doubled gas limit or the fee itself exceeds 64 bits |
| `BaseFees.LondonBlock` | crates/consensus/src/validation.rs:300-341 | an accepted London block starts a run with the initial fee |
| `BaseFees.RunFromLondon` | crates/consensus/src/validation.rs:16-341 | in every accepted run from London all gas limits are at least 1024 and all fees at least 7 |
| `BaseFees.RunStep` | crates/consensus/src/validation.rs:273-341 | every step of every such run follows the fee rule and its bounds |
| `BaseFees.RunDecay` | crates/consensus/src/validation.rs:247-341 | over i blocks the fee falls at most to (7/8)^i of the initial one |
| `Nonces.NoFault` | crates/consensus/src/validation.rs:138-178 | no fault from a position on iff every later nonce is the state nonce plus the sender's earlier transactions |
| `Nonces.ValidateAll` | crates/consensus/src/validation.rs:138-178 | the one-pass loop accepts iff every transaction is consistent, and otherwise returns the first fault |
| `Nonces.SenderNoncesFollow` | crates/consensus/src/validation.rs:138-178 | accepted transactions of one sender carry rising nonces |
| `Accounting.IncrementsConserve` | crates/executor/src/executor.rs:231-268 | however addresses collide, the map gives each address what it was paid, and sums to what was paid |
| `Accounting.PaymentsAreMinted` | crates/executor/src/executor.rs:240-265 | the payments sum to the reward, 1/32 of it per ommer, the ommer rewards and the withdrawals in wei |
| `Accounting.CreditingConserves` | crates/executor/src/executor.rs:331-365 | crediting raises the total by exactly the increments |
| `Accounting.DaoConserves` | crates/executor/src/executor.rs:294-328 | the balance move leaves the total unchanged, for any list and even if the beneficiary is on it |
| `Accounting.DaoEmpties` | crates/executor/src/executor.rs:294-328 | every listed account other than the beneficiary ends empty, every unlisted one as it was |
| `Accounting.ReportedNow` | crates/executor/src/executor.rs:473-484 | the reported changes, those of the DAO move overwriting the others, give exactly the final balances, and nothing changes unreported |
| `Accounting.ReportedBefore` | crates/executor/src/executor.rs:473-484 | a reported old balance is the one before the block iff the account is not in the DAO move, or is met once and was paid nothing, or is met again and held nothing |
| `Accounting.NoneMetTwice` | crates/executor/src/executor.rs:294-328 | a list without repetition and without the beneficiary meets no account twice |
| `Accounting.RewardMisreported` | crates/executor/src/executor.rs:473-484 | a rewarded block beneficiary that the move meets once is reported with a wrong old balance |
| `Accounting.BlockConserves` | crates/executor/src/executor.rs:473-485 | after a block the total has risen by exactly what the block mints, with or without the DAO move |
| `Accounting.EveryoneIsPaid` | crates/executor/src/executor.rs:473-477 | every balance has risen by exactly the payments to that address |
| `Accounting.Executor.PostBlockIncrements` | crates/executor/src/executor.rs:231-268 | the loops build the specified map, or fail iff an ommer is more than eight blocks back |
| `Accounting.Executor.AddWithdrawals` | crates/primitives/src/withdrawal.rs:24-26 | withdrawals are credited in wei |
| `Accounting.Executor.IncrementBalance` | crates/executor/src/executor.rs:331-365 | the account's new balance and state, and the change reported |
| `Accounting.Executor.ApplyIncrements` | crates/executor/src/executor.rs:473-477 | the map is visited in any order with the same outcome |
| `Accounting.Executor.DaoFork` | crates/executor/src/executor.rs:294-328 | the in-place loop performs the specified move and returns an entry for every account it meets |
| `Accounting.Executor.PostBlock` | crates/executor/src/executor.rs:473-485 | the whole post-block update and all the changes it reports |

## Left out

- `Chain` is a value: `append_block` and `append_chain` return the new chain instead of changing the old one in place; its ordered block map is a sequence in number order.
- Account and storage parts of the substate: reverting them is not an exact inverse as written; only bytecode reference counts are modelled.
- `update_canonical_hashes` and `all_chain_hashes`: the first has a loop without a decreasing measure, and no ancestry claim is made about the second.
- Database transactions, state providers, pipeline progress and their errors: the database is the sequence of canonical blocks.
- The 64-bit width of block numbers in the tree, and the 32-bit width of lengths on smaller machines.
- Sender recovery, trie roots, the EVM and Keccak-256 and CRC-32 themselves.
- `Trees.BlockchainTree.constructor`: does not cover a reorganisation depth and a number of additional hashes that are both zero; no canonical hash is kept then, and the tree never takes a block.
- `Substate.SubStateData.ApplyOne`: leaves out accounts, storage and block rewards.
- `Substate.SubStateData.Revert`: leaves out accounts, storage and block rewards.
- `TreeRuns.FinalizedKeepsInv`: not stated for a target below the last finalised block or above the tip, as for the method.
- `TreeRuns.FinalizedMeaning`: not stated for a target below the last finalised block or above the tip, as for the method.
- `Trees.BlockchainTree.FinalizeBlock`: not stated for a target below the last finalised block or above the tip, which the callers do not pass.
- `HeaderCodec.WriteBlockHeader`: the fifteen fixed fields are written by one loop over the list of fields, where the source writes them one statement each.
- `LogFilters.FilterTopicsExact`: states the positionwise meaning only for filters without an empty list and without a null among other alternatives; `LogFilters.FilterTopicsMeaning` covers the others.
- `LogFilters.FilterTopicsAgrees`: does not fix the length of a topic at 32 bytes; the logs that tell a filter from its positions use topics that no position mentions.
- Block range and block hash filters, serde of filters, and the RPC around them.
- Optional trailing fields of derived RLP structures, the other RLP element types (addresses of peers, strings, node records), and `encode_iter`.
- Timestamps and Merge rules beyond the two header checks modelled, ommer and withdrawal checks of block validation, and per-transaction type checks.
- `Accounting.Executor.PostBlock`: takes the reward and the fork activations as arguments, and reports balances only, not nonces and code.
- Networking, discovery, transaction pool, staged sync, RPC, CLI and metrics.
