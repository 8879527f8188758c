# Verified model of the AmazeChain node's hard core

A Dafny 4.11 model of six parts of the AmazeChain node and proofs of what they
promise. `dafny verify dfyconfig.toml` checks the whole project.

- **Contract ABI codec** (`Words`, `AbiTypes`, `AbiCodec`, `AbiRoundTrip`,
  `AbiLayout`, `AbiTotality`, `AbiMethods`): the head/tail encoder, the
  offset-following decoder, and the 32-byte word codec under them. The encoder's
  bytes are the only ones that meet the layout the format prescribes, place by
  place. Decoding undoes encoding for every type tree, exactly when the numbers are
  in range and no empty static value stands at the end of its buffer; decoding any
  bytes gives a well-typed value or an error. `Selectors` and `SelectorLaws` are
  the selector parser against the signature printer, and what it accepts.
- **Transaction and block accounting** (`Ledger`, `Transition`, `TransitionLaws`,
  `Processor`, `BlockProcess`): gas purchase, refund, fees and the block's transaction loop in
  64-bit and 256-bit arithmetic. The machine arithmetic is shown equal to the
  unbounded accounting of section 6 of the Yellow Paper with EIP-1559, EIP-2028
  and EIP-3529, which conserves money and gas. The EVM is a function that
  conserves the sum of balances and returns no more gas than it got.
- **Priority queues** (`HeapSpec`, `PriorityQueue`, `LazyServing`,
  `LazyPriorityQueue`, `LazyQueueRuns`): the block stack with index callbacks,
  container/heap over it, the lazy queue of two heaps that trade places, with
  priorities that change with time, what a pop takes and exactly when it is the
  greatest, and what holds over all its runs from construction on.
- **Fork choice and canonical chain** (`CanonicalChain`, `AncestorHashes`): block
  writes, reorganisation and head update over the stored tables, over every run
  and every outcome of the tie-break; and the ancestor-hash cache.
- **Keystore** (`TimedUnlocks`, `Accounts`, `Wallets`, `AccountCaches`): the
  unlock/expire protocol as interleaved steps, the wallet diff with the replay of
  its events, and the account cache against the key directory.
- **Chain configuration** (`ChainConfigs`): the compatibility loop and the fork
  order.

Go integers are `int` or `nat`; where a width matters (`uint64` gas and block
arithmetic, `uint256` money and difficulty, 256-bit words, priorities compared
by a wrapping difference) the wrap is written out. Database calls succeed.
Randomness, clocks, file contents, the EVM and callbacks are parameters.

Departures, and places where code and documentation differ:

- `reorg` compares two block numbers as pointers at internal/blockchain.go:1492
  where line 1483 compares values; the model compares values at both places.
  Likewise, the nil tests after `rawdb.ReadBlock` at lines 1532 to 1540 compare
  an interface that holds a typed nil; the model takes them as meant.
- Genesis is stored with total difficulty 0 (internal/genesis_block.go:56), so a
  recorded difficulty is the sum along the ancestry without genesis.
- `refreshWallets` gives an account no wallet when an old wallet's URL names
  another account (accounts/keystore/keystore.go:155-168). The property "one
  wallet per account" is stated with that exact condition.
- An argument of a static type of size zero packs to nothing and is rejected when
  it stands at the end of the buffer (accounts/abi/unpack.go:193). The ABI round
  trip is stated with the exact condition, and `AbiRoundTrip.EmptyArrayFails` is
  the failing case.
- `ParseSelector` takes whatever follows a type in a list for the comma
  (accounts/abi/selector_parser.go:95-97) and brackets behind the list of arguments
  for a slice of them (lines 105-107). `SelectorLaws.AcceptedIsSpelled` says what is
  accepted and exactly when it is the signature of its types;
  `SelectorLaws.AnySeparator` and `SelectorLaws.MarkedList` are accepted strings
  that are not signatures.
- A key file replaced without a later modification time is not read again
  (accounts/keystore/file_cache.go:72-75). Agreement after a scan is stated with
  the exact condition, and `AccountCaches.MissedChange` is the failing case.
- An array type of 2^58 or more elements makes `start+32*size` wrap around
  (accounts/abi/unpack.go:125), and the check can pass on a short buffer. The
  model has the wrap; `AbiTotality.ArrayGuardWraps` gives the exact condition and
  `AbiTotality.GuardFails` the failing case.
- The loop of `CheckCompatible` can rewind past compatible blocks when the stored
  Petersburg block comes before Constantinople (params/config.go:856-862), which
  `CheckConfigForkOrder` admits for chain 77. `ChainConfigs.CheckCompatible` gives
  the exact condition on the two configurations and the height, and
  `ChainConfigs.UnorderedRewind` a case.
- The lazy queue re-estimates until one period after a refresh, but the next
  refresh comes no sooner than two periods after it (common/prque/lazyqueue.go:94-112),
  so estimates can be past their time. Each estimate is recorded with the time it
  is made for. Whatever the callbacks and the arrangement of the heaps, a pop is of
  greatest actual priority if and only if at most one value is queued or no
  estimate's time is past (`LazyServing.PopExactly`, over runs
  `LazyQueueRuns.PopIsGreatest`). `LazyServing.LesserPop` and, from construction on,
  `LazyQueueRuns.LatePop` are failing cases. `Update` with a negative index pushes
  nil.

## Model

| member | source | states |
|---|---|---|
| Words.BERoundTrip | common/math/big.go:223-232 | reading back n bytes written big-endian gives the number modulo 256^n |
| Words.FromBESuffix | accounts/abi/unpack.go:36-74 | the last k bytes of a word hold its value modulo 256^k, which is what the narrow reads take |
| Words.WriteWord | common/math/big.go:223-232 | the inner loop writes exactly one word's bytes in front of what is written, or as many as fit, and nothing else |
| Words.ReadBits | common/math/big.go:223-232 | the tail of the buffer holds the magnitude big-endian, as many bytes as words or buffer allow, and the rest is untouched |
| Words.PaddedMeans | common/math/big.go:184-191 | the padded bytes of a number read back as the number, so padding never cuts it |
| Words.PaddedBigBytes | common/math/big.go:184-191 | the zeroed buffer filled by ReadBits, or the minimal bytes, is the whole number in n bytes or as many more as it needs |
| Words.U256Bytes | common/math/big.go:235-243 | the bytes of any integer are the 32-byte word of its two's complement residue |
| Words.WordRoundTrip | common/math/big.go:235-243 | the word of any integer reads back as the integer modulo 2^256 |
| AbiTypes.SizeIsWords | accounts/abi/type.go:383-398 | every head size is a whole number of words, and one word unless the type is a static array or tuple |
| AbiTypes.HeadSizeOfRepeat | accounts/abi/type.go:383-398 | the heads of n equal elements take n times one head |
| AbiCodec.LengthPrefixPointsTo | accounts/abi/unpack.go:256-283 | an accepted offset and length delimit a part of the buffer, so every slice taken is in bounds |
| AbiCodec.TuplePointsTo | accounts/abi/unpack.go:286-297 | an accepted offset lies within the buffer |
| AbiCodec.ElementsError | accounts/abi/unpack.go:122-127 | on any buffer Go can hold, the wrapped check accepts exactly the counts that have a word each |
| AbiRoundTrip.StaticSize | accounts/abi/type.go:383-398 | a static value encodes to exactly its type's size |
| AbiRoundTrip.HeadsSize | accounts/abi/type.go:306-343 | the heads of a list take exactly its head size, whatever the values |
| AbiRoundTrip.IntegerRoundTrip | accounts/abi/unpack.go:36-74 | reading the packed word of a number at any integer width gives the number, taken into the 256-bit range where it did not fit |
| AbiRoundTrip.LeafRoundTrip | accounts/abi/pack.go:38-71 | every static elementary value embedded anywhere in a buffer is read back |
| AbiRoundTrip.StringRoundTrip | accounts/abi/pack.go:31-34 | bytes and strings are read back through offset, length and padding |
| AbiRoundTrip.DecodeUndoesEnc | accounts/abi/unpack.go:192-253 | a value whose head and tail are embedded at any two places of a buffer is read back wrapped if it has room, and is rejected if not |
| AbiRoundTrip.ComponentsUndo | accounts/abi/unpack.go:121-188 | the components of a list encoded at any base are read back in order, each at its own offset |
| AbiRoundTrip.UnpackPacked | accounts/abi/argument.go:184-262 | unpacking a packed argument list gives the values wrapped into 256 bits if there is room and an error otherwise |
| AbiRoundTrip.RoundTripExactly | accounts/abi/argument.go:184-262 | the round trip is the identity if and only if there is room and every number is in range |
| AbiRoundTrip.RoundTrip | accounts/abi/argument.go:184-262 | with no empty static component the round trip is the identity if and only if the numbers are in range |
| AbiRoundTrip.EmptyStatic | accounts/abi/unpack.go:192-195 | arguments that are all static and empty pack to nothing and are always rejected |
| AbiRoundTrip.EmptyArrayFails | accounts/abi/unpack.go:192-195 | a single uint256[0] argument does not round-trip |
| AbiLayout.BytesLayout | accounts/abi/pack.go:31-34 | a string or byte string is its length word, the bytes, and zeros up to a whole word and no further |
| AbiLayout.LeafTells | accounts/abi/pack.go:38-71 | an elementary value's encoding is the one byte string with its number, or its bytes in place: an address behind twelve zero bytes, fixed bytes and functions in front of zeros |
| AbiLayout.EncodesIff | accounts/abi/type.go:269-348 | a byte string has the layout of a value, count first for a slice, static components in their heads, dynamic ones behind contiguous offsets, if and only if it is the encoder's |
| AbiLayout.EncodesAllIff | accounts/abi/argument.go:222-262 | the same for an argument list |
| AbiLayout.EncIsWords | accounts/abi/type.go:269-348 | every encoding is a number of whole words |
| AbiLayout.ReadIsWritten | accounts/abi/unpack.go:36-74 | a number read from any word, written again, has the bytes it was read from, or the low ones of a machine integer |
| AbiLayout.LeafReads | accounts/abi/unpack.go:77-118 | from any word: a boolean only from 0 and 1, an address from the last twenty bytes, fixed bytes from the first, and a function exactly if the last eight bytes are zero |
| AbiLayout.PrefixReads | accounts/abi/unpack.go:256-283 | on any buffer an offset and a length are followed exactly if they stay within it, and otherwise each gives its own error |
| AbiLayout.TupleReads | accounts/abi/unpack.go:286-297 | on any buffer an offset is accepted exactly up to its end |
| AbiTotality.DecodedIsWellTyped | accounts/abi/unpack.go:192-253 | decoding any bytes as any well-formed type ends with a value of that type, in range, or an error |
| AbiTotality.RepeatedAreWellTyped | accounts/abi/unpack.go:121-158 | the same for the elements of slices and arrays |
| AbiTotality.TupleIsWellTyped | accounts/abi/unpack.go:160-188 | the same for tuples and argument lists |
| AbiTotality.DecodedFits | accounts/abi/unpack.go:121-188 | a static value that decodes lies within the buffer, so no position or size the decoder goes on to wraps around |
| AbiTotality.TupleFits | accounts/abi/unpack.go:160-188 | the same for the heads of a list |
| AbiTotality.GuardWraps | accounts/abi/unpack.go:125-127 | the check lets too many elements through if and only if there are 2^58 or more and 32 times their number wraps to no more than the buffer |
| AbiTotality.GuardHolds | accounts/abi/unpack.go:121-253 | for types with smaller arrays it never does, at any depth |
| AbiTotality.ArrayGuardWraps | accounts/abi/unpack.go:121-253 | one array of smaller ones is let through by mistake if and only if it has 2^58 elements or more and 32 times their count wraps to what the buffer holds from where they start, at the index or, with dynamic elements, at the offset there |
| AbiTotality.GuardFails | accounts/abi/unpack.go:125-127 | uint256[2^58] passes the check on 32 bytes |
| AbiMethods.PackNum | accounts/abi/pack.go:74-85 | lengths and offsets become the word of the number |
| AbiMethods.PackLeaf | accounts/abi/pack.go:38-71 | an elementary value becomes the encoding whose layout AbiLayout.LeafTells gives |
| AbiMethods.PackType | accounts/abi/type.go:269-348 | packing gives the prescribed encoding if and only if the value has the type's shape, and a type error otherwise |
| AbiMethods.PackElements | accounts/abi/type.go:280-305 | slices and arrays: length prefix, heads with offsets, tails |
| AbiMethods.PackRepeated | accounts/abi/type.go:285-305 | the element loop lays out heads and tails of one element type behind a prefix |
| AbiMethods.PackFields | accounts/abi/type.go:306-343 | tuples: the loop lays out heads with offsets and tails, field by field |
| AbiMethods.SumOfSizes | accounts/abi/argument.go:232-236 | the first offset is the sum of the head sizes |
| AbiMethods.Pack | accounts/abi/argument.go:222-262 | the argument loop returns the encoding of the list, or the count or type error |
| AbiMethods.ToGoType | accounts/abi/unpack.go:192-253 | the recursive decoder, leaf by leaf, returns what the format's decoding function gives, errors included |
| AbiMethods.ReadBoolWord | accounts/abi/unpack.go:77-92 | the byte loop accepts exactly the words of 0 and 1 |
| AbiMethods.ReadRaw | accounts/abi/unpack.go:205-246 | succeeds if and only if the word at the index is the offset of a length word followed by that many bytes, all below 2^63, and gives those bytes; equals the recursive reader for strings and bytes |
| AbiMethods.ForEachUnpack | accounts/abi/unpack.go:121-158 | after the check in wrapping arithmetic the element loop with its stepping index returns the elements in order, or the first error |
| AbiMethods.ForTupleUnpack | accounts/abi/unpack.go:160-188 | counting virtual arguments puts every field at the sum of the head sizes before it |
| AbiMethods.NonIndexedSnoc | accounts/abi/argument.go:64-72 | of arguments in order, one more is kept exactly if it is not indexed |
| AbiMethods.DropIndexed | accounts/abi/argument.go:64-72 | the loop keeps the arguments that are not indexed, in order |
| AbiMethods.UnpackValues | accounts/abi/argument.go:184-213 | the arguments not indexed are decoded as one tuple |
| AbiMethods.ArgumentsRoundTrip | accounts/abi/argument.go:184-262 | Pack of the arguments that are not indexed and then UnpackValues is the identity if and only if there is room and the numbers are in range; there is room when no static type is empty |
| Selectors.TokenStops | accounts/abi/selector_parser.go:41-58 | a word in front of a non-word character is read as that word |
| Selectors.SuffixesStop | accounts/abi/selector_parser.go:70-82 | any array suffixes are read and nothing after them |
| Selectors.TypeRoundTrip | accounts/abi/selector_parser.go:86-120 | a printed type in front of a comma or parenthesis is read back as its tree |
| Selectors.TypeRejected | accounts/abi/selector_parser.go:86-109 | a type with an empty tuple or an array of tuples other than one slice leaves an error or brackets nothing can read |
| Selectors.AssembliesRoundTrip | accounts/abi/selector_parser.go:122-145 | assembling the parsed parts gives the arguments of the type tree, the slice marker removed |
| Selectors.SelectorRoundTrip | accounts/abi/selector_parser.go:151-176 | parsing a method's signature returns its name and type tree if the types are readable, and fails otherwise |
| Selectors.CanonicalOfArg | accounts/abi/type.go:69-206 | the canonical string built from a parsed argument is the string it was parsed from |
| Selectors.SignatureRoundTrip | accounts/abi/method.go:115-118 | the parsed selector prints the signature it was parsed from |
| Selectors.ArgsTell | accounts/abi/selector_parser.go:122-145 | different lists of types give different arguments |
| Selectors.SignatureTells | accounts/abi/method.go:115-118 | equal signatures are of equal names and types, over all type trees, read by the parser or not |
| Selectors.ParseToken | accounts/abi/selector_parser.go:41-58 | the scanning loop returns the longest token and the rest, or an error |
| Selectors.ParseBrackets | accounts/abi/selector_parser.go:70-82 | one pair of brackets is moved over with its digits, or rejected |
| Selectors.ParseElementaryType | accounts/abi/selector_parser.go:64-84 | token and suffixes, as the grammar function says |
| Selectors.ParseCompositeType | accounts/abi/selector_parser.go:86-109 | the list loop returns all parts with the slice marker, or the first error |
| Selectors.ParseType | accounts/abi/selector_parser.go:111-120 | elementary or composite by the first character |
| Selectors.AssembleArgs | accounts/abi/selector_parser.go:122-145 | the loop numbers the arguments and turns marked tuples into tuple slices |
| Selectors.ParseSelector | accounts/abi/selector_parser.go:151-176 | identifier, argument list and nothing more, or an error |
| SelectorLaws.TokenIs | accounts/abi/selector_parser.go:29-58 | a token is the longest beginning of letters, digits after the first place, and in identifiers $ and _ |
| SelectorLaws.NameIs | accounts/abi/selector_parser.go:124-126 | arguments are named by their number in decimal without leading zeros |
| SelectorLaws.TypeSpells | accounts/abi/selector_parser.go:64-120 | whatever is parsed as a type is the spelling of one, followed by what is left |
| SelectorLaws.SpelledIsPrinted | accounts/abi/selector_parser.go:86-109 | a spelling is as long as its type's own string, and the same exactly if only commas separate |
| SelectorLaws.AcceptedIsSpelled | accounts/abi/selector_parser.go:151-176 | every accepted string with arguments is a name and a spelled list, and the signature of the types spelled if and only if commas separate them and no brackets follow |
| SelectorLaws.AnySeparator | accounts/abi/selector_parser.go:95-100 | any other separator of two types is accepted with the same result |
| SelectorLaws.MarkedList | accounts/abi/selector_parser.go:105-107 | brackets behind the list are accepted as an argument that is no type |
| Ledger.TotalUpdate | internal/state_transition.go:228-267 | changing one balance changes the sum of all by the difference |
| Transition.IntrinsicCost | internal/state_transition.go:134-181 | the intrinsic gas is at least 21000; TransitionLaws gives it exactly |
| Transition.CappedRefund | internal/state_transition.go:480-486 | the refund is at most the counter and at most the quotient's share of the gas spent |
| Transition.RefundIsGreatest | internal/state_transition.go:480-486 | no greater amount is within the counter and the share |
| Transition.GasUsed | internal/state_transition.go:480-500 | gas used never underflows and is at most the gas spent |
| Transition.RefundIsCapped | internal/state_transition.go:425-486 | gas used is the gas spent less the counter, or less a fifth, before London a half, of the gas spent where the counter is more |
| Transition.AsMessage | common/transaction/transaction.go:612-645 | the message's gas price never exceeds the fee cap |
| Transition.AcceptedCanPay | internal/state_transition.go:228-317 | a message that passes every check is funded for gas and value, has bought at least the intrinsic gas, and can still cover its value after buying |
| Transition.FeesDoNotWrap | common/transaction/transaction.go:629-636 | for an accepted transaction tip plus base fee does not wrap, the gas price is base fee plus effective tip, and the cost checked fits 256 bits |
| Transition.SettledTotal | internal/state_transition.go:425-453 | refund, tip and collected base fee give back what was bought but the burnt base fee, whichever addresses coincide |
| Transition.ApplyConserves | internal/state_transition.go:332-478 | an applied message lowers the sum of balances by exactly the burnt base fee |
| Transition.EachPays | internal/state_transition.go:332-478 | the sender pays for exactly the gas used, the coinbase gets the tip and the collector the base fee, even on one account, and no other balance moves but by the EVM |
| TransitionLaws.BareCost | internal/state_transition.go:134-141 | a bare message costs 21000, or 53000 if it creates a contract since Homestead |
| TransitionLaws.ByteCost | internal/state_transition.go:142-175 | one more byte costs 4, 16 or 68 by its value and the rules, and 2 more where it starts a word of init code since Shanghai |
| TransitionLaws.AccessCost | internal/state_transition.go:176-180 | an address costs 2400 and a storage key 1900 |
| TransitionLaws.RejectionIsFirstFault | internal/state_transition.go:228-398 | a message is refused for the first of its faults in the order of the checks, and accepted if and only if it has none |
| TransitionLaws.MessageOf | common/transaction/transaction.go:612-645 | the message has the transaction's fields and fees, and before London its price |
| TransitionLaws.PriceIsFeeAndTip | common/transaction/transaction.go:629-636 | an accepted transaction pays the base fee and a tip, all of the tip offered unless the cap leaves room for less |
| TransitionLaws.BoughtIs | internal/state_transition.go:259-422 | the EVM starts with the gas paid for, the nonce of a call raised and nothing else changed |
| TransitionLaws.AppliedIs | internal/state_transition.go:412-478 | nonces, code and failure are what the EVM leaves |
| Processor.GasPool.AddGas | common/gaspool.go:30-36 | adds within the 64-bit range |
| Processor.GasPool.SubGas | common/gaspool.go:40-46 | takes the amount, or reports the limit and takes nothing |
| Processor.State.AddBalance | internal/state_transition.go:489-490 | the balance becomes the sum modulo 2^256, exact while the sum of all money fits; nothing else changes |
| Processor.State.SubBalance | internal/state_transition.go:263-265 | the balance becomes the difference, exact when the account holds the amount and 2^256 more otherwise; nothing else changes |
| Processor.ToWordSize | internal/state_transition.go:503-509 | the guarded 64-bit form is the size rounded up to words, at the maximum too |
| Processor.AddGuarded | internal/state_transition.go:152-174 | the division guards reject exactly the sums that overflow 64 bits |
| Processor.CountNonZero | internal/state_transition.go:144-151 | the loop counts the non-zero bytes |
| Processor.IntrinsicGas | internal/state_transition.go:134-181 | rejects exactly when the data part overflows, and otherwise returns the intrinsic gas in 64 bits |
| Processor.FundsCheck | internal/state_transition.go:229-254 | the overflow flags of the 256-bit products and sum make the test that of unbounded arithmetic |
| Processor.StateTransition.BuyGas | internal/state_transition.go:228-267 | buys exactly when funds and pool suffice, and otherwise changes nothing |
| Processor.StateTransition.PreCheck | internal/state_transition.go:282-317 | the checks in their order; a rejection changes nothing, and otherwise the gas is bought |
| Processor.StateTransition.RefundGas | internal/state_transition.go:480-495 | the capped refund is added, its price goes back to the sender and the gas to the pool |
| Processor.StateTransition.PayFees | internal/state_transition.go:434-453 | tip to the coinbase and base fee to the collector, without wrapping |
| Processor.StateTransition.Settle | internal/state_transition.go:425-453 | refund and fees together |
| Processor.StateTransition.Execute | internal/state_transition.go:399-478 | the 64-bit and 256-bit execution equals the unbounded accounting |
| Processor.StateTransition.TransitionDb | internal/state_transition.go:332-478 | errors exactly as the checks prescribe; a rejection before the purchase changes nothing, one after it leaves exactly the gas bought; otherwise world, pool and result are those of the unbounded accounting |
| BlockProcess.StepConserves | internal/state_processor.go:159-225 | one applied transaction changes the sum of balances by minus gas used times base fee, or by nothing with a collector or before London |
| BlockProcess.RunConserves | internal/state_processor.go:62-130 | over the whole block the sum of balances falls by total gas times base fee under London without a collector and not at all otherwise, and the gas used fits the limit |
| BlockProcess.ApplyTransaction | internal/state_processor.go:159-225 | gas moves from pool to receipt, cumulative gas adds up and the receipt tells whether the EVM failed, or the transaction is refused |
| BlockProcess.Process | internal/state_processor.go:62-130 | pool plus gas used is the gas limit throughout, receipts carry prefix sums and failures, the worlds form a run that starts from the state given, also when the block is refused, and the block's gas must match its header |
| HeapSpec.BeforeIsGreater | common/prque/sstack.go:114-120 | within a window of 2^63 the wrapping comparison is the order of the priorities |
| HeapSpec.UpOrders | common/prque/prque.go:56-58 | sifting up repairs the heap order |
| HeapSpec.DownOrders | common/prque/prque.go:68-71 | sifting down repairs the heap order |
| HeapSpec.PushKeepsHeap | common/prque/prque.go:56-58 | push keeps the heap and adds exactly the item |
| HeapSpec.PopTakesGreatest | common/prque/prque.go:68-71 | pop keeps the heap and takes exactly one item, none comes before it |
| HeapSpec.RemoveTakesIndexed | common/prque/prque.go:79-84 | remove keeps the heap and takes exactly the item at the index |
| HeapSpec.Rebase | common/prque/sstack.go:34-35 | a heap in one window of 2^63 is a heap in every window that holds its items |
| HeapSpec.PushKeeps | common/prque/sstack.go:34-35 | push keeps a heap if the priorities then in the queue spread less than 2^63, wherever they were before |
| HeapSpec.PopTakesFirst | common/prque/prque.go:68-71 | pop takes an item that no other comes before, in either order |
| HeapSpec.PopIsGreatest | common/prque/sstack.go:114-120 | if the priorities stand, wrapped around, for numbers that spread less than 2^63, the item popped has the greatest |
| HeapSpec.RemoveTakes | common/prque/prque.go:79-84 | remove takes exactly the item at the index and keeps the heap |
| HeapSpec.RunKeepsHeap | common/prque/prque.go:56-84 | over every run whose priorities spread less than 2^63 at each point the heap is kept and no item is lost or duplicated |
| HeapSpec.WindowMoves | common/prque/sstack.go:34-35 | pushing 0 and 2^63 - 1, removing the first and pushing 2^63 is such a run, although no window holds both ends |
| PriorityQueue.SStack.constructor | common/prque/sstack.go:61-69 | an empty stack with one block |
| PriorityQueue.SStack.Push | common/prque/sstack.go:73-89 | the blocks refine the sequence with the item appended, in a new block where one is full, and its index is reported |
| PriorityQueue.SStack.Pop | common/prque/sstack.go:93-105 | the last item leaves across block borders and -1 is reported for it |
| PriorityQueue.SStack.Less | common/prque/sstack.go:114-120 | the comparison of the refined sequence's items |
| PriorityQueue.SStack.Swap | common/prque/sstack.go:123-131 | two items trade places and both new indices are reported |
| PriorityQueue.HeapUp | common/prque/prque.go:56-58 | the up loop over the stack refines sifting up; reported indices stay right |
| PriorityQueue.HeapDown | common/prque/prque.go:68-71 | the down loop refines sifting down; reported indices stay right |
| PriorityQueue.HeapPush | common/prque/prque.go:56-58 | push over blocks; the last index reported for every item is its position |
| PriorityQueue.HeapPop | common/prque/prque.go:68-71 | pop over blocks; -1 is reported for the item and the others' indices stay right |
| PriorityQueue.HeapRemove | common/prque/prque.go:79-84 | the same for removal by index |
| PriorityQueue.Prque.Push | common/prque/prque.go:56-58 | the queue stays ordered and gains exactly the item; reports are made for queued values only, and all last indices stay right |
| PriorityQueue.Prque.Peek | common/prque/prque.go:61-64 | an item that none comes before |
| PriorityQueue.Prque.Pop | common/prque/prque.go:68-71 | hands out an item of greatest priority, also in the wrap-around order; -1 is reported for it and all last indices stay right |
| PriorityQueue.Prque.Remove | common/prque/prque.go:79-84 | takes exactly the indexed item and reports -1 for it; a negative index changes nothing |
| PriorityQueue.TracksPlaces | common/prque/sstack.go:73-131 | the index last reported for a value is where it stands in the heap, and -1 once it is gone |
| PriorityQueue.Prque.Perform | common/prque/prque.go:56-84 | after any run the blocks hold what the run leaves, and the last index reported for a value is its position while queued and -1 once gone |
| LazyServing.TopBounds | common/prque/lazyqueue.go:140-151 | while the estimates hold, no queued item's actual priority is above the greater of the two heaps' tops |
| LazyServing.ServedIs | common/prque/lazyqueue.go:138-173 | whatever the callback pushes back, every item handed out is queued at the time and the best of what is there if the estimates bound, it ends when the callback stops or nothing is left, and what is left is queued again |
| LazyServing.ServedDescends | common/prque/lazyqueue.go:156-173 | with nothing pushed back, items come in non-increasing actual priority and none twice |
| LazyServing.ServedMakes | common/prque/lazyqueue.go:138-173 | after any call each queued value carries the estimate recorded for it, which is the one from before or one made now |
| LazyServing.ChoiceIsBest | common/prque/lazyqueue.go:125-151 | a pop gives nothing if and only if nothing is queued, and otherwise a queued value, of greatest actual priority if the heap items bound |
| LazyServing.InTimeIsGreatest | common/prque/lazyqueue.go:41-48 | while no estimate's time is past a pop is of greatest actual priority |
| LazyServing.LapsedIsLess | common/prque/lazyqueue.go:41-48 | once one estimate's time is past and another value is queued, there are callbacks and heaps with these very estimates from which a lesser value is popped |
| LazyServing.PopExactly | common/prque/lazyqueue.go:125-151 | a pop is of greatest actual priority for all callbacks and heaps with given estimates if and only if at most one value is queued or no estimate's time is past |
| LazyServing.LesserPop | common/prque/lazyqueue.go:138-151 | with 1 estimated at 1 and 2 at 0, and actual priorities 1 and 2, the pop takes value 1 |
| LazyPriorityQueue.IndexFindsItem | common/prque/lazyqueue.go:182-211 | the last index reported for an item leads back to it, whichever heap it is in and however often the heaps were swapped |
| LazyPriorityQueue.LazyQueue.constructor | common/prque/lazyqueue.go:71-91 | two empty heaps with three readings of the clock |
| LazyPriorityQueue.LazyQueue.Push | common/prque/lazyqueue.go:115-117 | the item joins the second heap with its estimate; all last indices stay right, -1 for values not queued |
| LazyPriorityQueue.LazyQueue.RefreshOnce | common/prque/lazyqueue.go:104-112 | every item of the first heap is re-estimated into the second, the others keep their estimates, the heaps trade places and the index offset flips; no item is lost |
| LazyPriorityQueue.LazyQueue.Refresh | common/prque/lazyqueue.go:94-101 | with a positive period there are no swaps, with nothing changed, or exactly two, from any two refresh times in order; after two all items are in the first heap, estimated now until now plus the period |
| LazyPriorityQueue.LazyQueue.Remove | common/prque/lazyqueue.go:182-187 | the index last reported for an item removes that very item and no other; -1 is reported for it |
| LazyPriorityQueue.LazyQueue.Update | common/prque/lazyqueue.go:120-122 | the index last reported for an item re-estimates that very item and changes no other; a negative index pushes nil |
| LazyPriorityQueue.LazyQueue.MultiPop | common/prque/lazyqueue.go:156-173 | what is handed out and the heaps it leaves are exactly what the loop over two heaps gives from the heaps before; by that every item handed out is queued at the time, and the greatest by actual priority if the estimates hold, whatever the callback pushed back; what is left keeps its estimate or gets one made now |
| LazyPriorityQueue.LazyQueue.Pop | common/prque/lazyqueue.go:125-136 | returns the item the two heaps give and removes only it, or nothing if and only if empty; it is of greatest actual priority if the estimates hold; the rest keep their estimates or get one made now |
| LazyQueueRuns.ReportTells | common/prque/lazyqueue.go:182-211 | a value is queued if and only if its last report is not -1, and the report leads to its place |
| LazyQueueRuns.Create | common/prque/lazyqueue.go:71-85 | a new queue, with heaps, pop queue and its reports all new, is empty and satisfies the invariant of runs |
| LazyQueueRuns.DoRefresh | common/prque/lazyqueue.go:94-101 | a refresh that is due records every estimate as made now for one period, and one that is not changes nothing |
| LazyQueueRuns.DoMultiPop | common/prque/lazyqueue.go:156-173 | items and heaps are what the loop gives; while no estimate's time is past, items are handed out by actual priority; each estimate left is the recorded one |
| LazyQueueRuns.QueuesAreKept | common/prque/lazyqueue.go:94-187 | that the heaps carry exactly the recorded estimates, each value once, is kept by push, removal, update, refresh and MultiPop |
| LazyQueueRuns.DoCall | common/prque/lazyqueue.go:94-187 | every call keeps the invariant: heaps and records agree, no record is of the future or for later than new ones, indices are right, and the call does what it promises |
| LazyQueueRuns.Perform | common/prque/lazyqueue.go:71-187 | any sequence of calls at times that do not go back is a run of such calls |
| LazyQueueRuns.CreateAndPerform | common/prque/lazyqueue.go:71-187 | from construction on, every sequence of calls is a run that starts from the empty queue |
| LazyQueueRuns.PopIsGreatest | common/prque/lazyqueue.go:124-136 | in every run, a pop while no queued value's estimate is past its time takes exactly one value, of greatest actual priority of all queued then |
| LazyQueueRuns.LatePop | common/prque/lazyqueue.go:104-151 | in every run from construction that pushes two values and pops after the time their estimates are made for, with the right callbacks the lesser value is popped |
| CanonicalChain.AncestryAt | internal/blockchain.go:1480-1501 | walking i parent links lands i numbers lower, on a stored block with the remaining ancestry |
| CanonicalChain.GenesisIsSound | internal/genesis_block.go:56-73 | the tables as genesis leaves them satisfy the invariant, with a heaviest block as head |
| CanonicalChain.RecordedDescends | internal/blockchain.go:1278-1310 | every block with a recorded difficulty has its whole ancestry stored and recorded, down to genesis |
| CanonicalChain.TdIsSum | internal/blockchain.go:1278-1293 | a recorded difficulty is the sum along the ancestry modulo 2^256, and the sum itself if and only if that fits |
| CanonicalChain.IndexIsLinked | internal/blockchain.go:1471-1604 | the index holds exactly the numbers up to the head, is parent-linked, starts at genesis and ends at the head |
| CanonicalChain.ReorgNeeded | internal/forkchoice.go:76-108 | greater difficulty always wins and lesser never, whatever the tie-break |
| CanonicalChain.ChoiceIsConsistent | internal/forkchoice.go:76-108 | two chains that differ in difficulty or length never both replace each other, and one does; equals are decided by preservation, then the coin |
| CanonicalChain.StoreKeeps | internal/blockchain.go:1262-1275 | storing a side-chain block without difficulty keeps the invariant |
| CanonicalChain.RecordKeeps | internal/blockchain.go:1278-1310 | recording a block keeps the invariant and changes no recorded difficulty |
| CanonicalChain.WriteKeeps | internal/blockchain.go:1278-1339 | every block write keeps the invariant and never lowers the head's difficulty; head and index stay or are the new block's |
| CanonicalChain.WriteKeepsHeaviest | internal/forkchoice.go:76-108 | every block write keeps the head a heaviest block of all recorded |
| CanonicalChain.HeadAfterWrite | internal/forkchoice.go:76-108 | after a write the head is the heavier of head and block; of equally heavy ones the lower; of equally high ones the block exactly if the head is not preserved and the block is, or the coin says so |
| CanonicalChain.HeadOnTie | internal/forkchoice.go:95-108 | the same for a block whose parent's difficulty and its own add up to the head's |
| CanonicalChain.Run | internal/blockchain.go:1262-1369 | over every run of block writes and coin outcomes the index is the chain of the head, the head is a heaviest block of all recorded, recorded difficulties never change and the head's never falls |
| CanonicalChain.Reduce | internal/blockchain.go:1480-1501 | the longer side is walked down to the shorter one's number, or to where it ends |
| CanonicalChain.WalkBack | internal/blockchain.go:1514-1541 | both sides step back to the ancestor they share, or report the side that ends first |
| CanonicalChain.FindCommon | internal/blockchain.go:1471-1541 | succeeds if and only if the two ancestries meet, and then splits both at the highest common block |
| CanonicalChain.RewrittenIsIndex | internal/blockchain.go:1562-1595 | markers rewritten from the common ancestor, cut off above and topped with the new head are exactly the new head's index |
| CanonicalChain.RecordedMeet | internal/blockchain.go:1471-1541 | between recorded blocks reorg always finds a common ancestor |
| CanonicalChain.BlockChain.constructor | internal/genesis_block.go:50-84 | a chain of genesis alone, satisfying the invariant, with the head heaviest |
| CanonicalChain.BlockChain.WriteHeadBlock | internal/blockchain.go:1342-1369 | block, marker and head are set |
| CanonicalChain.BlockChain.MarkAdded | internal/blockchain.go:1562-1573 | the added blocks but the first are marked, oldest first |
| CanonicalChain.BlockChain.DropMarkers | internal/blockchain.go:1582-1595 | all markers from the number on are removed if there is one at it |
| CanonicalChain.BlockChain.Reorg | internal/blockchain.go:1471-1604 | fails if and only if the chains do not meet, with nothing changed and the shorter-reaching side named; otherwise rewrites the index from the split |
| CanonicalChain.BlockChain.WriteBlockWithoutState | internal/blockchain.go:1262-1275 | only the block table changes, and the invariant stays |
| CanonicalChain.BlockChain.WriteBlockWithState | internal/blockchain.go:1278-1339 | an unknown parent changes nothing; every failure leaves head and index; from a sound state the tables become those of the chosen head, no other failure exists, and the status says canonical exactly if the block is heavier, or equally heavy and lower, or also equally high and favoured |
| CanonicalChain.BlockChain.Adopt | internal/blockchain.go:1316-1333 | from a sound state the index becomes the new head's, by reorganisation or extension |
| AncestorHashes.WalkIsTrail | internal/evm.go:82-113 | walking parent links from scratch to block n gives the n-th hash of the trail, or zero past its end |
| AncestorHashes.TrailNext | internal/evm.go:99-110 | one lookup extends a prefix of the trail by its next hash, and fails exactly at its end |
| AncestorHashes.WalkFollows | internal/evm.go:82-113 | along blocks each the parent of the one before, the walk gives the hash at the number asked for, and zero below a block that is not found |
| AncestorHashes.GetHashFn.constructor | internal/evm.go:82-86 | an empty cache |
| AncestorHashes.GetHashFn.Get | internal/evm.go:87-112 | the cache stays a prefix of the ancestor hashes and only grows, and the answer is that of a walk from scratch, whatever was asked before |
| TimedUnlocks.StepKeeps | accounts/keystore/keystore.go:322-405 | every step of every goroutine keeps the protocol's invariant |
| TimedUnlocks.RunKeeps | accounts/keystore/keystore.go:322-405 | in every interleaving no key in the map is zeroed, every abort channel is closed at most once and open while its entry is in the map, and every timed entry has a goroutine to end it |
| TimedUnlocks.StaleStep | accounts/keystore/keystore.go:387-405 | a goroutine that holds an entry no longer in the map changes neither map nor keys |
| TimedUnlocks.StaleForever | accounts/keystore/keystore.go:340-405 | an entry that left the map never returns and its key is not zeroed later |
| TimedUnlocks.StaleTimerIsHarmless | accounts/keystore/keystore.go:387-405 | a timer that outlived its entry never removes or zeroes a newer key |
| TimedUnlocks.ChangeHasCause | accounts/keystore/keystore.go:340-405 | what an address is unlocked with changes only by expire of that very entry, which zeroes its key, or by a new unlock of a timed entry, which closes its channel |
| TimedUnlocks.EndedOnlyByLock | accounts/keystore/keystore.go:322-367 | an indefinite unlock stays until the goroutine of a Lock of that entry ends it |
| TimedUnlocks.UnlockUnlocks | accounts/keystore/keystore.go:340-367 | unlocking puts an entry with the new key and timing into the map and starts its timer, stopping the timer of a timed entry there before; an address unlocked for good keeps its key and the new one is zeroed |
| TimedUnlocks.OtherStepsMoveOne | accounts/keystore/keystore.go:340-405 | decrypting, firing and stopping move one goroutine and leave map, entries and keys alone |
| TimedUnlocks.LockLocks | accounts/keystore/keystore.go:322-331 | Lock of an unlocked address can go through, and then it is locked with its key zeroed and nothing else changed; of a locked address it does nothing |
| TimedUnlocks.ExpireTakesEffect | accounts/keystore/keystore.go:387-405 | in every interleaving, when a goroutine of expire ends, its entry is gone from the map and its key zeroed, or a new unlock took its place |
| TimedUnlocks.LockTakesEffect | accounts/keystore/keystore.go:322-405 | so when the goroutine of a Lock ends, the entry it found is gone and its key zeroed, or it was replaced meanwhile |
| TimedUnlocks.TimerTakesEffect | accounts/keystore/keystore.go:340-405 | and when the timer's goroutine ends, the same holds of a timed unlock |
| Accounts.CmpIsOrder | accounts/url.go:98-103 | URL comparison is antisymmetric and total, and zero only for equal URLs |
| Accounts.BelowTrans | accounts/url.go:98-103 | and transitive |
| Accounts.BelowMeans | accounts/url.go:98-103 | it is lexicographic, by scheme first and then by path |
| Accounts.Search | accounts/manager.go:248-272 | sort.Search returns the least index from which a monotone test holds |
| Accounts.FindPlace | accounts/keystore/account_cache.go:108-115 | the binary search over a sorted list finds the first place not before a URL |
| Wallets.Merge | accounts/manager.go:248-258 | the wallet goes in front of the first not before it |
| Wallets.Drop | accounts/manager.go:262-272 | the first wallet not before it is taken out |
| Wallets.InsertedIsAscending | accounts/manager.go:248-258 | merging a wallet with a new URL keeps the list strictly sorted and adds only it |
| Wallets.RemovedIsAscending | accounts/manager.go:262-272 | dropping a wallet in the list removes exactly it |
| Wallets.AscendingIsUnique | accounts/manager.go:248-272 | a strictly sorted list is determined by its wallets |
| Wallets.Manager.Update | accounts/manager.go:133-147 | an event is applied and the list stays sorted |
| Wallets.Manager.Follow | accounts/manager.go:133-147 | a sequence of events is replayed in order |
| Wallets.OneWalletEach | accounts/keystore/keystore.go:149-174 | there is one wallet per account in order if and only if no old wallet's URL names another account |
| Wallets.ReplacedFileHasNoWallet | accounts/keystore/keystore.go:155-168 | one old wallet and one account at its URL with another address leave no wallet |
| Wallets.KeyStore.DropBefore | accounts/keystore/keystore.go:150-154 | old wallets in front of the next account are dropped with events |
| Wallets.KeyStore.TakeAccount | accounts/keystore/keystore.go:155-168 | an account gets a new wallet, its old one, or none on a conflict, and list and events stay in step |
| Wallets.KeyStore.DropLeftover | accounts/keystore/keystore.go:170-174 | the old wallets left are dropped with events |
| Wallets.KeyStore.RefreshWallets | accounts/keystore/keystore.go:138-181 | the new list has the accounts without conflict in order, keeps the objects of surviving accounts, and replaying the events on any manager's list exchanges exactly the old wallets for the new, which for the old list itself gives the new list; the events are the changes only, one for each wallet |
| AccountCaches.FileCache.Scan | accounts/keystore/file_cache.go:39-93 | creates, deletes and updates are the set differences of the listing with the last one and the files newer than the last maximum; an error changes nothing |
| AccountCaches.NewestIs | accounts/keystore/file_cache.go:55-80 | the time kept is the newest of the key files' times, or the zero time |
| AccountCaches.ListingIs | accounts/keystore/file_cache.go:55-80 | exactly the key files are listed, as they were read |
| AccountCaches.RemoveAccount | accounts/keystore/account_cache.go:157-164 | the first occurrence is taken out |
| AccountCaches.InsertKeepsPartition | accounts/keystore/account_cache.go:104-117 | inserting an account and appending it to its address' entry keeps the partition |
| AccountCaches.RemoveKeepsPartition | accounts/keystore/account_cache.go:120-147 | removing an account from the list and its entry keeps the partition, without an empty entry |
| AccountCaches.AddedShows | accounts/keystore/account_cache.go:104-117 | adding a file's account changes what the cache shows for that path only |
| AccountCaches.WithoutPathShows | accounts/keystore/account_cache.go:133-147 | deleting by file changes what the cache shows for that path only |
| AccountCaches.FindPath | accounts/keystore/account_cache.go:133-147 | the binary search by path finds what a linear search would |
| AccountCaches.InSyncIff | accounts/keystore/account_cache.go:241-300 | a scan leaves the cache in agreement with the directory if and only if every file that decodes differently now is newer than the last maximum |
| AccountCaches.MissedChange | accounts/keystore/file_cache.go:72-75 | a key replaced at the same modification time is missed |
| AccountCaches.Pick | accounts/keystore/account_cache.go:169-200 | the answer does not depend on the order of the candidates |
| AccountCaches.CandidatesAre | accounts/keystore/account_cache.go:170-174 | the candidates are the accounts of the address, each as often as it is cached, or all |
| AccountCaches.AnswerMeans | accounts/keystore/account_cache.go:169-200 | an account with the URL named is found, and otherwise only one that is the only candidate; nothing matches if and only if there is none, or none has the URL and no address is given; an ambiguous answer lists all of several candidates in order |
| AccountCaches.AccountCache.constructor | accounts/keystore/account_cache.go:77-86 | an empty cache |
| AccountCaches.AccountCache.Add | accounts/keystore/account_cache.go:104-117 | the list stays sorted and partitioned with the account at its place, once |
| AccountCaches.AccountCache.Delete | accounts/keystore/account_cache.go:120-130 | the same, without the first occurrence |
| AccountCaches.AccountCache.DeleteByFile | accounts/keystore/account_cache.go:133-147 | the same, without the file's account |
| AccountCaches.AccountCache.AddFile | accounts/keystore/account_cache.go:258-291 | a file that decodes is added, one that does not is skipped |
| AccountCaches.AccountCache.HandleCreates | accounts/keystore/account_cache.go:287-291 | new files are shown as they decode, in any order of handling |
| AccountCaches.AccountCache.HandleDeletes | accounts/keystore/account_cache.go:292-294 | deleted files are no longer shown |
| AccountCaches.AccountCache.HandleUpdates | accounts/keystore/account_cache.go:295-300 | changed files are shown as they decode now |
| AccountCaches.AccountCache.ScanAccounts | accounts/keystore/account_cache.go:241-309 | the cache shows new and newer files as they decode, drops those gone and keeps the rest; an error changes nothing |
| AccountCaches.AccountCache.Rescan | accounts/keystore/account_cache.go:241-309 | a cache in agreement with the last directory agrees with the present one after a scan, exactly if changes carry a later time |
| AccountCaches.AccountCache.Find | accounts/keystore/account_cache.go:169-200 | answers as a linear scan over all accounts would, with the matches sorted when ambiguous; a path without a separator is taken to be in the key directory |
| ChainConfigs.CheckIsCompatible | params/config.go:830-917 | no error is returned if and only if no test fails at the height |
| ChainConfigs.CompatibleMeans | params/config.go:830-917 | compatible means: every fork is active at the same blocks up to the height, where the new Petersburg may follow the stored Constantinople, and DAO support and chain id agree once their forks are active |
| ChainConfigs.ErrorIsFirstConflict | params/config.go:830-968 | an error is about the first conflict in the order of the checks and names the blocks stored and wanted |
| ChainConfigs.RewindIsLastAgreement | params/config.go:953-968 | the block to rewind to is the last at which the two schedules agree, or 0 |
| ChainConfigs.RewindIsLower | params/config.go:953-968 | the block to rewind to is below the height or 0 |
| ChainConfigs.FailsAbove | params/config.go:830-968 | a conflict persists at every height above the block to rewind to, but for Petersburg's when the stored block comes before both Constantinople and the new one |
| ChainConfigs.CompatibleBelow | params/config.go:830-931 | configurations compatible at a height are compatible at every lower one |
| ChainConfigs.RewindIsMaximal | params/config.go:761-775 | from wherever the loop is, it ends at the lowest conflict, and all heights above are incompatible if and only if the two configurations and the height do not skip |
| ChainConfigs.CheckCompatible | params/config.go:761-775 | the loop ends; nil if and only if compatible at the height; otherwise the block to rewind to is compatible or 0, and every height above it is incompatible if and only if no compatible blocks are skipped, as with Petersburg not before Constantinople |
| ChainConfigs.UnorderedRewind | params/config.go:856-862 | with Petersburg at 5 and Constantinople at 10 the loop returns 4 although 5 to 9 are compatible |
| ChainConfigs.NextFork | params/config.go:808-826 | comparing with the last fork that counts decides the order of the whole list |
| ChainConfigs.OrderMeans | params/config.go:779-828 | the order by name: no fork without the mandatory ones before it, and none scheduled before an earlier one |
| ChainConfigs.CheckConfigForkOrder | params/config.go:779-828 | accepts exactly the ordered configurations with no mandatory fork skipped, and any order for chain 77 |

## Left out

- Reflection: values are trees, not Go objects; arrays of the wrong Go length and the fixed-point and hash kinds of the ABI are not modelled.
- Go buffers are shorter than 2^63 bytes, and a packed list is assumed to fit one.
- AbiCodec.ElementsError: where the wrapped check passes, reflection cannot build the 2^58 elements, unless they take no memory as in uint256[0][2^58], when the source goes through them one by one; the model has an error in both cases.
- NewType's name checks and field naming: the selector model takes the type strings as they are.
- Selectors.ParseSelector: a bare identifier makes the source read past the end of the string, so something must follow it.
- Processor.StateTransition.TransitionDb: free transactions, Parlia and bailout are not modelled.
- Processor.IntrinsicGas: the access-list part wraps in 64 bits in the source; conservation assumes it fits.
- BlockProcess.Process: block rewards, receipts' roots and logs, the DAO fork's state change and self-destruct burning are left out.
- CanTransfer and Transfer of internal/evm.go: they would add easy members only.
- LazyPriorityQueue.LazyQueue.MultiPop: the callback pushes back only values handed to it, in this call and still with it; its replies are a list, after which it stops, and one call happens at one time.
- LazyQueueRuns.DoCall: an application pushes a value only when it is not queued, and updates and removes a value by its last report.
- Reset of the queues after construction: it restores neither the index offset nor the wrap-around flag.
- CanonicalChain.BlockChain.WriteBlockWithState: receipts, the transaction-lookup index, the difficulty cache and the future-block set are left out; hashes are collision-free and block numbers below 2^64 - 1.
- `insertSideChain`, `recoverAncestors` and the future-block loops: they depend on storage and timing outside the model.
- AncestorHashes.GetHashFn.Get: a header is found under its own number.
- Goroutine scheduling: a step is what happens between taking and releasing the mutex; timers may fire at any time.
- Wallets.Merge and Wallets.Drop: one wallet at a time, as the event loop calls them; dropping an absent wallet removes its successor, as in the source.
- AccountCaches.AccountCache.ScanAccounts: the directory does not change while it is read, and accounts added since the last scan have their file.
- Files outside the keystore scheme, the watcher and the reload throttle.
- ChainConfigs.CheckCompatible: fork blocks are below 2^64, where the source's conversions do not truncate.
- EVM interpreter, consensus engines, storage, cryptography, JSON, networking, command line and logging.
