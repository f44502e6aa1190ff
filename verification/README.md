# Verified models of the chain's core

This project models, in Dafny, the parts of the Egochain node (an Evmos v16 fork) where correctness is least
visible from the code, and proves what they are for.

- **The record codec and the Ethereum transaction index.** `Arith`, `Wire`, `UnknownFields`, `EncodingGuide` and
  `Message` model the generated protobuf code: varint loops on registers of fixed width, buffers filled from their end,
  the tag loop and the group-aware skipper. `TxResultCodec` and `Web3Codec` are its two instances. `IndexKeys`, `KVIndexer`,
  `IndexRecords`, `IndexLookup`, `IndexBounds` and `Reindex` model the index built on it, its records, the lookups and the
  re-index command; `IndexerService` is the two-goroutine protocol that feeds it, as a state machine over all interleavings, and
  `ServiceIndex` joins the two.
- **EIP-712 schema inference.** `Json`, `Flatten`, `TypeNames`, `Schema`, `SchemaSound`, `SchemaConformance` and
  `SchemaPayload` model flattening and the recursive walk that invents a type map for a transaction, and say exactly
  which transactions conform to the schema inferred from them.
- **Allowances over authorization grants.** `Coins`, `Authz`, `Bank` and `Chains` model the stores. `Allowances`,
  `Erc20`, `Erc20Runs` and `Erc20Ledger` are the ERC-20 face of a bank denomination, `Ics20` the transfer allocations,
  `Staking` and `StakingRuns` the staking grants.
- **Fees.** `SigGas` is the recursive gas charge for multisignatures, `Burn` the fee-burning post handler.

Objects whose methods change them in the source are classes here, loops are loops, and each such method is proved
against a specification: for the grants, a predicate on the store before and after that does not mention how the
store is kept (`Allowances.ApproveStep` and its companions). Statements about runs are about all finite sequences of
such steps.

## What the models take as given

- The keepers of the Cosmos SDK (authorizations, bank, staking) are maps with the contracts written in `Authz`,
  `Chains` and `Bank`: an expired grant reads as absent, a grant is saved only with an expiry in the future, deleting
  a missing grant is an error, `Add` and `SafeSub` of one coin rebuild a strictly sorted positive list. Whether the
  bank or the staking module accepts a message beyond that is a parameter.
- Panics (256-bit overflow, a missing amount, an exhausted gas meter) count as failure of the call.
- A call that returns an error is rolled back with its transaction. Where the code has already changed something by
  then, the contract says so: a grant charged for a send the bank then refuses, and the message types a staking call
  went through before one was refused. The bounds over runs hold with and without the rollback of these. A staking
  message that was executed but whose grant cannot be charged (`Staking.Precompile.Execute`) counts as rolled back.
- Decoding of transactions and events, block fetching and the outcome of database writes are parameters of the
  index. Block heights stay below 2^63 - 1.
- Object keys have no path characters (letters, digits, underscore), and title-casing is upper-casing the first
  letter of each word. Names within an object are distinct, or the first one counts.

## Where the code differs from what it or its comments promise

- The position lookup answers with another block's record when a hash is indexed again later
  (`IndexLookup.Agreement`, `IndexLookup.IncludedTwice`).
- `index-eth-tx backward` on an empty index says it starts from the latest block but starts one below it
  (`Reindex.BackwardOmitsLatest`, `Reindex.OneBlockOmitted`). Where a hash is in two blocks, the direction decides
  which record its lookup finds (`Reindex.DirectionIrrelevant`, `Reindex.DirectionDecides`).
- The indexing service takes `IndexBlock` failures as done and never comes back to such a block
  (`IndexerService.NeverAgain`, `IndexerService.AtRestStored`), and it relies on the node to answer for the height it
  was asked (`IndexerService.ConsecutiveIffRightAnswer`). A restart takes up a missed block only if nothing at or above
  it is in the index (`ServiceIndex.TakenUpIff`).
- The skipper does not look at field numbers: it accepts groups closed under another number, and numbers out of range
  inside groups, unlike the encoding guide (`EncodingGuide.AcceptedInGuideIff`, `EncodingGuide.MismatchedGroup`,
  `EncodingGuide.NumberZero`).
- The `Approval` event of `approve`, `increaseAllowance` and `decreaseAllowance` names the token contract as owner,
  not the account whose allowance changed; `transferFrom` names the account (`Erc20.Precompile.Approve`). A negative
  amount is logged as given (`Erc20Runs.NegativeApprovalLogged`).
- `approve` of zero fails when there is a grant for other denominations only, and succeeds when there is none at all
  (`Allowances.CanApprove`, `Erc20Runs.ZeroApprovalRefused`). A grant in its last instant can be spent or taken away,
  but not set to another amount (`Allowances.Writable`, `Erc20Runs.LastInstant`).
- A transfer allocation decreased to zero cannot be increased again (`Ics20.IncreaseUndoesDecrease`).
- Null fields and arrays of arrays get no type, and only the first element of an array is looked at, so such payloads
  do not conform to their own schema (`SchemaConformance.ConformsIffSupported`, `SchemaConformance.NullFieldFails`).

## Model

| member | source | states |
|---|---|---|
| Wire.SovExact | types/indexer.pb.go:213-215 | the closed form of `sov` is the number of bytes the varint encoding has, for every number |
| Wire.ReadWritten | types/indexer.pb.go:225-238 | reading undoes writing for every number of up to ten bytes, whatever follows |
| Wire.ReadVarintLoop | types/indexer.pb.go:225-238 | the shift-and-or loop on a w-bit register computes the varint truncated to w bits, with its exact overflow and end-of-input errors |
| Wire.EncodeVarint | types/indexer.pb.go:172-182 | writing into the buffer backwards puts exactly the varint before `offset`, touches nothing else and never leaves the buffer |
| Wire.SkipPrefix | types/indexer.pb.go:403-480 | skipping decides by the bytes of the field: more bytes behind it change nothing |
| Wire.SkipLoop | types/indexer.pb.go:403-480 | the loop with its depth counter and its overflowing index refines the recursive skipper; where that finds the data truncated, the loop may report an end beyond the data, which its caller rejects |
| UnknownFields.SkipField | types/indexer.pb.go:403-480 | a well-formed field, nested groups included, is skipped whole at any depth of enclosing groups |
| UnknownFields.SkipIffWellFormed | types/indexer.pb.go:403-480 | the skipper accepts exactly the inputs that begin with a field of the grammar in `UnknownFields.WellFormed`, and passes over exactly that field |
| EncodingGuide.Unambiguous | types/indexer.pb.go:403-480 | the bytes determine the field, nested groups included, and where it ends |
| EncodingGuide.SkippedFieldUnique | types/indexer.pb.go:403-480 | what the skipper passes over is the encoding of one field and of no other |
| EncodingGuide.AcceptedInGuideIff | types/indexer.pb.go:403-480 | an accepted input begins with a field of the encoding guide if and only if the one field it begins with has all its field numbers in range and every group closed under the number that opened it |
| EncodingGuide.AnyClosingTag | types/indexer.pb.go:460-466 | a start-group tag and an end-group tag are skipped as a pair whatever field numbers they carry, and are a field of the guide exactly when the numbers agree and are in range |
| EncodingGuide.MismatchedGroup | types/indexer.pb.go:460-466 | a counterexample: a group of field 1 closed by field 2 is accepted and no field of the guide |
| EncodingGuide.NumberZero | types/indexer.pb.go:403-480 | another: field number zero inside a group |
| Message.Compose | types/indexer.pb.go:219-402 | decoding is a left fold: if x decodes from m to m', then x followed by y decodes from m as y does from m' |
| Message.UnknownIgnored | types/indexer.pb.go:382-394 | a well-formed field the message does not know leaves no trace |
| Message.UnknownInserted | types/indexer.pb.go:382-394 | the same at any field boundary inside an encoding |
| Message.ReadTagLoop | types/indexer.pb.go:224-246 | the tag loop gives field number and wire type with the 32-bit truncation and the illegal-tag and end-group errors |
| TxResultCodec.SizeExact | types/indexer.pb.go:183-211 | `Size` is the length of the encoding |
| TxResultCodec.MarshalToSizedBuffer | types/indexer.pb.go:124-170 | writing the fields from last to first fills exactly the last `Size` bytes of a large enough buffer with the encoding and keeps the rest |
| TxResultCodec.Marshal | types/indexer.pb.go:109-117 | the allocated buffer is filled exactly |
| TxResultCodec.Unmarshal | types/indexer.pb.go:219-402 | the tag loop, with registers of the field widths, computes the merge specified by the generic decoder, errors included, and terminates |
| TxResultCodec.SignedRoundTrip | types/indexer.pb.go:124-170 | signed 64-bit and 32-bit numbers survive sign extension, truncation and reinterpretation |
| TxResultCodec.DecodeMerges | types/indexer.pb.go:219-402 | decoding an encoded record merges it into the record decoded into, field by field |
| TxResultCodec.RoundTrip | types/indexer.pb.go:124-402 | unmarshalling the marshalled bytes gives the record back, for every record |
| TxResultCodec.LastOneWins | types/indexer.pb.go:219-402 | concatenated encodings decode to the merge in which the later one wins |
| TxResultCodec.EmptyIffZero | types/indexer.pb.go:124-170 | only the zero record has an empty encoding |
| TxResultCodec.EncodeInjective | types/indexer.pb.go:124-170 | different records have different encodings |
| Web3Codec.SizeExact | types/web3.pb.go:155-173 | `Size` is the length of the encoding, length-delimited fields included |
| Web3Codec.MarshalToSizedBuffer | types/web3.pb.go:117-142 | the backward writer fills exactly the last `Size` bytes |
| Web3Codec.Unmarshal | types/web3.pb.go:181-315 | the loop computes the specified merge; a length that overflows the index is rejected |
| Web3Codec.BlobLoop | types/web3.pb.go:229-261 | reading a length and slicing gives the payload exactly when it lies inside the data |
| Web3Codec.DecodeMerges | types/web3.pb.go:181-315 | decoding an encoded message merges it into the message decoded into |
| Web3Codec.RoundTrip | types/web3.pb.go:117-315 | unmarshalling undoes marshalling |
| Web3Codec.LastOneWins | types/web3.pb.go:181-315 | of concatenated encodings the later one wins |
| IndexKeys.IndexKeyInjective | indexer/kv_indexer.go:168-172 | an index key determines height and index |
| IndexKeys.HashKeyInjective | indexer/kv_indexer.go:163-165 | a hash key determines the hash |
| IndexKeys.KeysDisjoint | indexer/kv_indexer.go:163-172 | no hash key is an index key |
| IndexKeys.KeyOrder | indexer/kv_indexer.go:168-172 | on non-negative numbers byte order of keys is numeric order on (height, index) |
| IndexKeys.KeyOrderUnsigned | indexer/kv_indexer.go:168-172 | for all numbers, key order is the order of the numbers read as unsigned |
| IndexKeys.KeyOrderNegative | indexer/kv_indexer.go:168-172 | a negative height sorts after every non-negative one, where numeric and key order part |
| IndexKeys.HeightRoundTrip | indexer/kv_indexer.go:225-231 | the height parsed from a key is the one it was made from |
| IndexKeys.KeyLayout | indexer/kv_indexer.go:163-172 | the prefix byte, the hash, and both numbers as eight bytes each, most significant first |
| KVIndexer.PositionsExact | indexer/kv_indexer.go:57-113 | the walk reaches every kept message once, in block order, and no other |
| KVIndexer.Indexer.IndexBlock | indexer/kv_indexer.go:50-122 | the loops with their 32-bit and 64-bit counters write, in one batch, exactly the entries specified for the block; a batch that cannot be written leaves the database as it was and is reported |
| IndexRecords.IndexedIff | indexer/kv_indexer.go:57-103 | which messages of a block are indexed, read off the block: the four filters, and the events for a succeeding transaction |
| IndexRecords.EntrySays | indexer/kv_indexer.go:83-111 | what a record says: height, position, and gas and failure from the events of a succeeding transaction, gas limit and failed otherwise |
| IndexRecords.CumulativeGas | indexer/kv_indexer.go:78-110 | cumulative gas starts anew with each transaction and grows by the gas of every indexed message, as a 64-bit number |
| IndexLookup.HashLookup | indexer/kv_indexer.go:135-148 | after any sequence of writes a hash finds the last record written for it, and nothing if there is none |
| IndexLookup.IndexLookup | indexer/kv_indexer.go:151-160 | a position finds the last record written for the hash last written there |
| IndexLookup.EthIndexIsPosition | indexer/kv_indexer.go:56-111 | the Ethereum indices of a block are 0, 1, 2, ... in block order |
| IndexLookup.Agreement | indexer/kv_indexer.go:50-160 | for every run of blocks, both lookups of a message agree, and give its own record if and only if its hash was not indexed again later |
| IndexLookup.IncludedTwice | indexer/kv_indexer.go:135-160 | the counterexample: a hash indexed in two blocks is answered with the later record at the earlier position |
| IndexLookup.DistinctAgreement | indexer/kv_indexer.go:50-160 | with distinct hashes every message is found under both keys |
| IndexRecords.FoundSays | indexer/kv_indexer.go:50-160 | both lookups of an indexed message give a record that says what happened to it and its place in the block |
| IndexLookup.NothingElse | indexer/kv_indexer.go:135-160 | an unknown hash, an unknown height or an index past the end is not found |
| IndexBounds.KeyHeightMonotone | indexer/kv_indexer.go:175-198 | among well-formed index keys a smaller key never has a greater height |
| IndexBounds.LoadLastBlock | indexer/kv_indexer.go:175-185 | the greatest height present, -1 if there is none; an error exactly when the greatest key under the prefix has the wrong length |
| IndexBounds.LoadFirstBlock | indexer/kv_indexer.go:188-198 | the least height present, -1 if there is none; an error exactly when the least key under the prefix has the wrong length |
| IndexBounds.RunHeights | indexer/kv_indexer.go:50-198 | after any run the heights present are those of the blocks with an indexed message |
| Reindex.IndexTwice | indexer/kv_indexer.go:50-122 | indexing a block twice is indexing it once |
| Reindex.SharedKey | indexer/kv_indexer.go:50-122 | blocks of different heights write a key in common only for a hash they share |
| Reindex.DisjointBlocks | indexer/kv_indexer.go:50-122 | blocks of different heights that share no hash write no key in common |
| Reindex.OrderIrrelevant | indexer/kv_indexer.go:50-122 | sequences of independent blocks with the same members leave the same database, in any order and with any repetition |
| Reindex.IndexForward | server/indexer_cmd.go:99-111 | the forward loop indexes every block after the last indexed one up to the latest, stops at the first that cannot be loaded or written, and does nothing if the last key cannot be parsed |
| Reindex.IndexBackward | server/indexer_cmd.go:84-97 | the backward loop indexes every block below the first indexed one down to 1, stops at the first that cannot be loaded or written, and does nothing if the first key cannot be parsed; on an empty index it starts below the latest block |
| Reindex.DirectionIrrelevant | server/indexer_cmd.go:83-111 | on every database, both directions over the same heights leave the same result if and only if no hash is in two of the blocks |
| Reindex.BackwardOmitsLatest | server/indexer_cmd.go:84-111 | on an empty index the two directions of the command leave the same database if and only if the latest block has nothing to index and no hash is in two of the blocks below it |
| Reindex.ForwardAddsLatest | server/indexer_cmd.go:84-111 | on an empty index the forward result is the backward one with the latest block on top, if and only if the latest block has every hash that two blocks below it share |
| Reindex.OneBlockOmitted | server/indexer_cmd.go:89-93 | a counterexample: a store of one block with one message, of which going backward indexes nothing |
| Reindex.DirectionDecides | server/indexer_cmd.go:83-111 | another: nothing in the latest block, one transaction in both blocks below it |
| IndexerService.StepKeepsInvariant | server/indexer_service.go:63-110 | every step of either goroutine keeps: heights consecutive, no lost wake-up, and the bounds that tie the program points to the shared state |
| IndexerService.Safety | server/indexer_service.go:63-110 | in every interleaving with failures and timeouts the heights handed to `IndexBlock` are consecutive, without gap or repetition, and a consumer waiting while there is work has a signal queued or coming |
| IndexerService.WrongAnswerSkips | server/indexer_service.go:95-108 | for every start and every wrong answer there is a run, honest otherwise, after which the heights are not consecutive |
| IndexerService.ConsecutiveIffRightAnswer | server/indexer_service.go:95-108 | in every reachable state in which a block is about to be indexed: the heights stay consecutive on all honest runs after the answer if and only if the answer is for the height asked |
| IndexerService.NeverAgain | server/indexer_service.go:104-107 | a height whose `IndexBlock` failed is never handed over again, in any run, so it is never stored |
| IndexerService.StoredIffNoneFailed | server/indexer_service.go:95-108 | in every run all blocks handed over are stored if and only if no `IndexBlock` failed |
| IndexerService.AtRestStored | server/indexer_service.go:82-110 | at rest every announced block is stored if and only if no `IndexBlock` of the run failed |
| IndexerService.FailedBlockLost | server/indexer_service.go:104-107 | the counterexample: the first block fails, the service comes to rest and the block is in no index |
| ServiceIndex.DatabaseIs | server/indexer_service.go:82-110 | in every run the database is the one that indexing the stored blocks in order gives |
| ServiceIndex.EverythingFound | server/indexer_service.go:78-110 | from header to lookup: at rest, with no failed `IndexBlock` and all hashes different, every message of every earlier and every announced block is found under both keys |
| ServiceIndex.TakenUpIff | server/indexer_service.go:78-84 | a block that was missed is taken up after a restart if and only if no block at its height or above has left anything in the index |
| ServiceIndex.LatestIs | server/indexer_service.go:63-76 | `latestBlock` is the highest header seen |
| ServiceIndex.StartIs | server/indexer_service.go:78-84 | the service begins after the block the database reported, or, if it reported none, after the highest header seen until then |
| ServiceIndex.TakenUpFromNothing | server/indexer_service.go:78-110 | on an index in which nothing is found, at rest exactly the announced blocks above the highest header seen before the service began have been handed over |
| ServiceIndex.TimeoutSuffices | server/indexer_service.go:86-94 | a consumer that waits with work to do goes on after the timeout alone |
| IndexerService.QuietStepProgresses | server/indexer_service.go:82-110 | without new headers, failed fetches and timeouts every step lowers a rank |
| IndexerService.QuietRunsEnd | server/indexer_service.go:82-110 | a quiet run is no longer than that rank |
| IndexerService.AtRestCaughtUp | server/indexer_service.go:82-110 | a quiet run that cannot go on has handed over every announced block: no wake-up is lost and none is needed |
| Json.DecimalDenotes | ethereum/eip712/message.go:136-138 | a decimal name denotes its number and has no leading zero |
| Json.DecimalInjective | ethereum/eip712/message.go:136-138 | different numbers have different decimal names |
| Flatten.MsgFieldIs | ethereum/eip712/message.go:136-138 | the name of a message is "msg" and its number |
| Flatten.FlattenPayloadMessages | ethereum/eip712/message.go:71-93 | the loop succeeds exactly on payloads whose messages are objects and whose `msg{i}` names are free, and gives the messages as fields in place of `msgs` |
| Flatten.FlatFind | ethereum/eip712/message.go:71-149 | after flattening `msg{i}` is the i-th message and every other field is as it was |
| Flatten.FlattenInvertible | ethereum/eip712/message.go:71-149 | flattened object and count give back every field of the payload |
| Flatten.FlattenInjective | ethereum/eip712/message.go:71-149 | payloads whose flattened objects hold the same fields, in any order, and as many messages, hold the same fields |
| TypeNames.SanitizeTypedef | ethereum/eip712/types.go:340-358 | the buffer loop computes the part-wise title-casing |
| TypeNames.SanitizeClean | ethereum/eip712/types.go:340-358 | no separator is left in a sanitized name |
| TypeNames.SanitizeFixed | ethereum/eip712/types.go:340-358 | sanitizing a sanitized type name changes nothing, so references and definitions agree |
| TypeNames.SplitJoin | ethereum/eip712/types.go:124-127 | splitting at a separator loses nothing |
| TypeNames.JoinSplit | ethereum/eip712/types.go:124-127 | joined parts are found again |
| TypeNames.SanitizePath | ethereum/eip712/types.go:340-358 | the name of every path of words is "Type" and the words in title case |
| TypeNames.FooBarBaz | ethereum/eip712/types.go:340-358 | `_.foo_bar.baz` becomes `TypeFooBarBaz` |
| Schema.SortedKeysAre | ethereum/eip712/types.go:226-246 | the key list holds each key of the object once, in descending order |
| Schema.DescendingUnique | ethereum/eip712/types.go:226-246 | a set of keys has one such list, so the order of keys in the text does not matter |
| Schema.TypesAreEqual | ethereum/eip712/types.go:322-334 | true exactly of equal lists |
| Schema.TypeMap.AddTypesToRoot | ethereum/eip712/types.go:280-310 | takes the first index whose name is free or already holds the same types; fails exactly when all 1000 names belong to other types |
| Schema.TypeMap.RecursivelyAddTypesToRoot | ethereum/eip712/types.go:145-222 | the mutating walk refines the recursive inference |
| Schema.TypeMap.CreateEIP712Types | ethereum/eip712/types.go:37-139 | the loop over the messages refines their inference in turn; a message without a type, or that is no object, fails it |
| Schema.MsgRootType | ethereum/eip712/types.go:117-130 | the method computes the root type, and fails on a missing, empty or non-string type |
| SchemaPayload.RootTypeLast | ethereum/eip712/types.go:117-130 | the root type is "Type" and what follows the last slash |
| SchemaPayload.RootTypeWhole | ethereum/eip712/types.go:117-130 | without a slash, "Type" and the whole message type |
| SchemaPayload.RootTypeNone | ethereum/eip712/types.go:117-122 | there is none exactly for a missing, empty or non-string type |
| SchemaPayload.MessageNamed | ethereum/eip712/types.go:93-139 | the type of a message is "Type", what follows the last slash of its type, and a number below 1000 |
| SchemaPayload.FieldNamed | ethereum/eip712/types.go:145-222 | the type of an object in a field is named after the path to the field, with a number, and with brackets for an array |
| SchemaSound.InferGrows | ethereum/eip712/types.go:280-310 | existing entries are never overwritten |
| SchemaSound.InferStable | ethereum/eip712/types.go:145-310 | inferring an object again, in any later map, with messages appended to the transaction schema or without, changes nothing and gives the same name |
| SchemaSound.InferSeesShape | ethereum/eip712/types.go:145-246 | objects of the same shape, in any order of keys, are given the same name and map |
| SchemaConformance.InferDescribes | ethereum/eip712/types.go:145-222 | the inferred entry lists exactly the typeable fields with their types, now and in every later map |
| SchemaConformance.BaseAdmits | ethereum/eip712/types.go:145-222 | an inferred type admits exactly the values of the shape it was inferred from |
| SchemaConformance.ConformsIffSupported | ethereum/eip712/types.go:145-222 | in every later map an object conforms to its inferred type if and only if it has no null, no nested array and no array of mixed shapes |
| SchemaConformance.NullFieldFails | ethereum/eip712/types.go:145-222 | a counterexample: an object with a null field gets a type without it, to which it does not conform |
| SchemaConformance.InferClosed | ethereum/eip712/types.go:145-310 | every type name the map refers to stays primitive or defined |
| SchemaPayload.TxHasMessages | ethereum/eip712/types.go:93-139 | after n messages the transaction schema is the fixed header followed by msg0 ... msg{n-1} with their inferred types |
| SchemaPayload.MessageConforms | ethereum/eip712/types.go:79-139 | each message conforms to its type in the final map, after all later messages, if and only if it is supported |
| SchemaPayload.CreateTypesClosed | ethereum/eip712/types.go:37-139 | the final map is closed |
| SchemaPayload.PayloadConforms | ethereum/eip712/types.go:37-139 | the whole flattened transaction conforms to its own schema if and only if it has exactly the header fields and messages, a well-formed header and supported messages |
| SchemaPayload.SignedPayloadConforms | ethereum/eip712/message.go:27-93 | the same of the payload before flattening: exactly the header fields and `msgs`, a well-formed header and supported messages |
| SchemaPayload.DomainConforms | ethereum/eip712/types.go:37-60 | in every final map the domain type admits exactly objects of four strings and the number of the chain |
| SchemaPayload.SameShapeSameType | ethereum/eip712/types.go:79-139 | a later message of the same type and shape is given the name of the earlier one, whatever came between, and adds nothing but its entry in the transaction schema; it cannot fail |
| Coins.UpdateOrAddCoin | precompiles/erc20/types.go:148-159 | the list stays strictly sorted and positive; the coin has the new amount and all others theirs |
| Coins.Canonical | precompiles/erc20/types.go:148-159 | a valid coin list is determined by its amounts |
| Authz.Uint256 | precompiles/common/types.go:113-116 | the bounds of an amount are those of 256 bits |
| Bank.MoveMoves | precompiles/erc20/tx.go:91-102 | a bank send takes the amount from the sender, gives it to the recipient and touches no other balance |
| Bank.MoveConserves | precompiles/erc20/tx.go:91-102 | a bank send keeps the supply of every denomination |
| Erc20.Precompile.CreateAuthorization | precompiles/erc20/approve.go:223-238 | a new grant, over none or an expired one, sets this allowance and no other, now and at all later times |
| Erc20.Precompile.UpdateAuthorization | precompiles/erc20/approve.go:240-247 | a live grant written back changes this allowance only, and keeps expiry and recipients |
| Erc20.Precompile.RemoveSpendLimitOrDeleteAuthorization | precompiles/erc20/approve.go:252-277 | the exact success condition; the allowance becomes zero, others stay, an emptied grant is deleted |
| Erc20.Precompile.Approve | precompiles/erc20/approve.go:35-91 | succeeds exactly when specified, sets the allowance, keeps spend limits valid, and logs the amount under the address of the contract as owner |
| Erc20.Precompile.IncreaseAllowance | precompiles/erc20/approve.go:102-150 | the exact success condition, 256-bit overflow included; the allowance grows by the added value and the log carries the new allowance |
| Erc20.Precompile.DecreaseAllowance | precompiles/erc20/approve.go:164-221 | the exact success condition; the allowance shrinks by the subtracted value and the log carries the new allowance |
| Erc20.Precompile.DispatchSend | precompiles/erc20/tx.go:95-102 | a covered send charges the grant, then moves the coins: two balances change by the amount, all others stay; a send the bank refuses has charged the grant |
| Erc20.Precompile.Transfer | precompiles/erc20/tx.go:69-134 | the exact success condition, every balance, allowance and logs of `transfer` and `transferFrom`; the logged approval is what the allowance query answers afterwards |
| Erc20Runs.PlainMap | precompiles/erc20/query.go:181-231 | through the allowance query the grant store is a plain map: a call changes at most the entry it names, to the value it should |
| Erc20Runs.StepBalanced | precompiles/erc20/tx.go:69-134 | each step keeps allowance plus spending within approved plus increased minus decreased |
| Erc20Runs.RunBalanced | precompiles/erc20/tx.go:69-134 | the same over every run of any number of token contracts, with equality unless a grant expired or the bank refused a covered send |
| Erc20Runs.SpendingBounded | precompiles/erc20/tx.go:69-134 | nobody moves more than they were allowed since the last approval |
| Erc20Runs.RunConserves | precompiles/erc20/tx.go:69-134 | total balances of every denomination are conserved over every run |
| Erc20Ledger.Ledger | precompiles/erc20/tx.go:69-134 | in every run each balance is what it was, plus what the account received, less what it sent |
| Erc20Ledger.SpentIsSent | precompiles/erc20/tx.go:69-134 | what a spender moves is part of what the owner sends |
| Erc20Ledger.SinceApproval | precompiles/erc20/tx.go:69-134 | after an approval, and up to the next one, what the spender moved and what is still allowed is within the approved amount plus increases minus decreases, summed call by call |
| Erc20Runs.ApproveLogsAllowance | precompiles/erc20/approve.go:61-90 | the value `approve` logs is the allowance right after it if and only if it is not negative |
| Erc20Runs.NegativeApprovalLogged | precompiles/erc20/approve.go:69-90 | the counterexample: a negative amount over a grant removes it and is logged as given |
| Erc20Runs.ZeroApprovalRefused | precompiles/erc20/approve.go:252-277 | approving zero is refused over a grant for another denomination and accepted over none |
| Erc20Runs.LastInstant | precompiles/erc20/approve.go:240-247 | in its last instant a grant can be spent or taken away, but not set to another amount |
| Ics20.CheckAllocationExists | precompiles/ics20/types.go:334-352 | finds the first allocation of the channel, exactly when it has some of the denomination |
| Ics20.DecreaseInPlace | precompiles/ics20/approve_common.go:190-207 | ranging over the cells while deleting from them, stale last cell included, leaves the limit with that one coin reduced or removed |
| Ics20.DecreaseLimit | precompiles/ics20/approve_common.go:190-207 | the limit stays sorted and positive, one amount falls by the expense and all others stay |
| Ics20.IncreaseAllowance | precompiles/ics20/approve_common.go:105-156 | the exact success condition, 256-bit overflow included; one coin of one allocation grows, everything else stays, and the event carries all allocations the grant now has |
| Ics20.DecreaseAllowance | precompiles/ics20/approve_common.go:159-223 | the exact success condition; one coin of one allocation shrinks, everything else stays, and the event carries all allocations the grant now has |
| Ics20.DecreaseUndoesIncrease | precompiles/ics20/approve_common.go:105-223 | after an increase an equal decrease succeeds and restores the store exactly |
| Ics20.IncreaseUndoesDecrease | precompiles/ics20/approve_common.go:105-223 | after a decrease an equal increase succeeds, and restores the store, if and only if the decrease left something |
| Ics20.TakenAwayForGood | precompiles/ics20/approve_common.go:125-130 | the counterexample: a coin taken to zero cannot be increased again |
| Staking.Precompile.GrantOrDelete | precompiles/staking/approve.go:195-255 | no limit, a limit or deletion, with the exact success condition |
| Staking.Precompile.Approve | precompiles/staking/approve.go:35-70 | the types gone through have no limit for 2^256 - 1, no grant for zero and the amount as limit otherwise; no other grant changes, and the first refused type is one that cannot be granted |
| Staking.Precompile.Increase | precompiles/staking/approve.go:285-313 | one limit grows by the amount, no limit stays none; exact success condition |
| Staking.Precompile.Decrease | precompiles/staking/approve.go:258-282 | one limit shrinks by the amount, no limit stays none; exact success condition |
| Staking.Precompile.IncreaseAllowance | precompiles/staking/approve.go:162-191 | each limit grows by the amount once for every time its type is named, no limit stays none and 2^256 - 1 is refused over a limit, up to the first refused type |
| Staking.Precompile.DecreaseAllowance | precompiles/staking/approve.go:119-159 | each limit shrinks by the amount once for every time its type is named, no limit stays none and 2^256 - 1 is refused over a limit, up to the first refused type |
| Staking.Precompile.Update | precompiles/staking/approve.go:316-339 | what is left of the limit is written back, or the grant deleted at zero |
| Staking.Precompile.Execute | precompiles/staking/tx.go:92-173 | a message is executed exactly when its delegator and its limit permit it, the call succeeds exactly when the grant can then be charged, and is charged; the caller's own needs no grant; a contract that delegates its own coins has them deducted from its EVM balance |
| Staking.UsedKeeps | precompiles/staking/approve.go:316-339 | a use leaves the grant with less, or none, keeps its expiry and validators, and changes no other grant |
| StakingRuns.UnlimitedStays | precompiles/staking/approve.go:258-339 | a grant without limit stays so under increase, decrease and use |
| StakingRuns.RunBalanced | precompiles/staking/tx.go:133-159 | in every run a live limit is exactly what was approved plus increased minus decreased minus executed |
| StakingRuns.ExecutionBounded | precompiles/authorization/types.go:162-184 | over every run what was executed under a limited grant stays within approved plus increased minus decreased |
| StakingRuns.SinceApproval | precompiles/staking/approve.go:35-313 | after an approval of an amount, and up to the next one, a live limit is that amount plus increases minus decreases minus executed, summed call by call; after 2^256 - 1 there is no limit |
| SigGas.SigVerificationGasConsumer | app/ante/sigverify.go:37-63 | succeeds exactly when every selected key has a signature, every selected leaf is an eth_secp256k1 key and the gas suffices; then 21000 per leaf are charged; no index leaves its list in a well-formed tree |
| SigGas.ConsumeMultisignatureVerificationGas | app/ante/sigverify.go:66-90 | the same for one node, bit by bit, with the signature index equal to the number of set bits seen |
| SigGas.NextBit | app/ante/sigverify.go:70-86 | a set bit advances the signature index by one and adds the leaves of its subtree |
| Burn.BurnDecorator.CoinsToBurn | app/post/burn.go:58-69 | for valid fees a valid list with min(fee, balance) of every denomination, always covered by the balance |
| Burn.BurnDecorator.PostHandle | app/post/burn.go:37-97 | for valid fees the burn cannot fail, the collector keeps max(0, balance - fee) of each denomination, no other account changes and the recorded supply falls by what was burned; skipped transactions change nothing |
| Burn.DebitedSupply | app/post/burn.go:71-75 | the sum of all balances falls by exactly the burned amount |

## Left out

- Wire.SkipLoop: does not tell "unexpected EOF" from "invalid length", because the generated code decides between them by where a 64-bit index overflows; both are one error here.
- Web3Codec.BlobLoop: the same two errors are one here.
- Web3Codec.Unmarshal: the same two errors are one here, and the partly overwritten message left behind when decoding fails is not described.
- TxResultCodec.Unmarshal: the same two errors are one here, and the partly overwritten record left behind when decoding fails is not described.
- KVIndexer.Indexer.IndexBlock: does not model the log messages about skipped transactions and mismatching indices.
- IndexerService.Safety: does not model torn reads of the shared latest height; reads and writes of it are atomic steps.
- Schema.TypeMap.CreateEIP712Types: does not model gjson's path syntax in keys, nor the recovery from panics.
- Erc20.Precompile.Approve: does not model stores into which a grant with an unsorted or duplicated spend limit was put by other means.
- Erc20.Precompile.Transfer: does not model locked coins, send restrictions and blocked recipients one by one; together they are the parameter `accepts`.
- Staking.Precompile.Execute: does not model the emitted events, which carry shares and completion times of the staking module; one method stands for the four message types, whose code differs in the message and, for `Delegate`, in the mirrored balance.
- Argument parsing, ABI packing, gas of the precompiles, logging and telemetry.
- Queries of the ERC-20 precompile other than the allowance (name, symbol, decimals, balances).
- Acceptance of IBC transfers under an allocation and the revocation calls, which only delete grants.
- The legacy EIP-712 path and the encodings that call the schema inference.
- Wiring, command line, JSON-RPC and the modules of the chain not named above.
