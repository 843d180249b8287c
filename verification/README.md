# Spellbook wallet and relay: a verified model

This project models the byte-level and settlement logic of the Spellbook wallet (`src/spellbook`) and of its
Chia relay (`relay`), and proves what that logic is for. Check it with `dafny verify dfyconfig.toml`.

## What is modelled

* **The Chia wire stack.** `Clvm`, `ClvmLoops` and `TreeHashing` are the wallet's CLVM printer, reader and tree
  hash; `ClvmWalk` is the relay's own measure of the same bytes, a counter and no tree; `Streamable` is the
  relay's bundle and message codec with its moving reader. `BitGroups`, `Bech32m` and `Bech32mText` are bit
  regrouping, the checksum and the text form (BIP-173 and BIP-350); `Bech32mVector` is a string of that standard.
* **Offers.** `OfferBundle` is the wallet's own bundle reader, `OfferConditions` spend conditions, `Offer` one side
  of an offer, `OfferString` making and parsing the offer string, `OfferTake` taking and completing it.
  `OfferMade`, `OfferBytes`, `OfferSettlement` and `OfferAnnouncements` hold the results: what parsing recovers, in
  which order a side spends, what it signs and what bytes leave the wallet, which offers settle, that the settled
  bundle conserves mojos and pays both parties, and which announcements it makes.
* **EVM calldata.** `Abi` and `AbiRoundTrip` are the recursive codec (Solidity Contract ABI Specification,
  "Formal Specification of the Encoding"); `V4Swap` the swap parameters that are decoded and re-encoded, `V4Args`
  their structs as typed arguments; `UniversalRouter` the command-list checker; `RouterComplete` exactly which encoded
  calls it accepts; `CallMeaning` what its bytes mean to a contract that loads words; `RouterRun` what the router may do
  on chain, with the proof that the checker's verdict holds in every run; `RouterAccepts` that accepted calls run, and
  where soundness ends; `LpCalldata` the liquidity builders and their decoders, `LpApprovals` their calls and approvals
  written out, `LpBuilders` when a builder succeeds.
* **Smaller pieces.** `Bip39` (BIP-39, "Generating the mnemonic"), `Rlp` (Ethereum Yellow Paper, Appendix B;
  EIP-155), `PeerProtocol` (one request in flight, and the manager's cache), `RateLimit` and `BackupRecord`.

`Wrappers`, `Radix`, `Bytes` and `Sorting` are shared: results, positional numbers, byte strings, stable sorting.

## How to read it

A loop of the source is a method, and its `ensures` ties it to a specification function; the properties are lemmas
about those functions. An exception of the source is `Err`; which message it carries is not modelled. SHA-256 is any
function from byte strings to 32 bytes, and a statement that needs it injective asks that only of the byte strings
that were hashed. Curves, zlib and key derivation are functions of the `Lib` and `Wallet` records with the laws in
`Lawful`: decompress after compress is the identity below the 6 MiB cap, and honest signatures aggregate.
Addresses of the router are numbers below 2^160, and hex text is already decoded.

Chia coin ids sort as byte strings; they all have 32 bytes, so the model sorts them as numbers. The settlement
program is one opaque program whose stored bytes are its printed form; on chain it creates one coin for each payment and
one announcement for each group.

The router's execution relation leaves swap amounts open: a swap takes at most its stated input and pays at least
its stated minimum, a sweep or unwrap pays the whole balance or reverts, and a V4 batch must close with no open
delta. No amount moves of a V4 currency at the address of the native sentinel, where no token contract exists. What
a command means is defined apart from the checker's decoder, by the words that stand at fixed places of the calldata
and behind its offsets; only the parameters of a V4 batch mean the struct that they are the encoding of. The
soundness theorem asks that the wallet is not the address 2, that two native tokens do not meet a V4 batch, and that
a token sold into itself is sold in less than 2^255; the first two are needed (`RouterAccepts.SentinelWallet`,
`RouterAccepts.NativeRoundTrip`).

## Where the code does not do what a reader might expect

* An ABI argument list with a static argument of several words beside a dynamic one is laid out with wrong offsets,
  and a dynamic array directly over static arrays is read as plain words (`AbiRoundTrip.MisalignedBytes`,
  `AbiRoundTrip.ArrayOfStaticArrays`). `AbiRoundTrip.RoundTrip` excludes both.
* A signed integer word that is not sign-extended is read as a value outside its type (`AbiRoundTrip.SignedWordsRead`).
* The relay accepts CLVM size prefixes that the wallet refuses (`ClvmWalk.WidePrefixDisagrees`).
* An offer made from several coins can be parsed and never taken (`OfferSettlement.ManyInputsRefused`), and a take with
  two settlement coins on one side raises while printing an empty list (`OfferTake.CompletionSpends`).
* A group without its memo list reads as the same payment but is not the canonical group. An offer that asks by it is
  taken when its maker asserts the canonical announcement, and its bundle balances, but makes no such announcement
  (`OfferAnnouncements.ShortGroupTaken`); when its maker asserts that group's own announcement, it is refused
  (`OfferAnnouncements.ShortAssertionRefused`).
* Sell and buy token may be the two names of the native currency. The router checker then accepts a V4 round trip with
  a minimum that a run need not pay (`RouterAccepts.NativeRoundTrip`).
* A bech32m text whose last symbol has stray padding bits is accepted (`Bech32mText.Reencode`).
* A hand-edited backup record that is marked bad without being required is opened by issuing a code
  (`BackupRecord.IssueOpens`, `BackupRecord.UntrustedExample`).

## Model

| member | source | states |
|---|---|---|
| `Clvm.ParsePrinted` | src/spellbook/chia_sign.py:101-256 | Round trip at any offset: for every s-expression with printable atoms and any bytes before and after, reading at the offset returns the expression and the position right after its printed form. |
| `Clvm.PrintPrefixFree` | src/spellbook/chia_sign.py:114-134 | Printed programs are prefix-free: equal concatenations have equal programs and equal rests. |
| `Clvm.ParseLocal` | src/spellbook/chia_sign.py:187-256 | What the reader returns depends only on the bytes it consumed, wherever they stand. |
| `Clvm.PrintIsShortest` | src/spellbook/chia_sign.py:101-134 | The printed form is the canonical one: every byte string that reads as the same program is longer, or is that form. |
| `Clvm.AtomIntOfBytes` | src/spellbook/chia_offer.py:457-460 | Reading the minimal signed form of a non-negative integer gives the integer back. |
| `Clvm.IntIsShortest` | src/spellbook/chia_sign.py:163-172 | The signed form of a non-negative integer is the shortest atom with that value, and the only one of its length. |
| `Clvm.ItemsOfList` | src/spellbook/chia_offer.py:445-454 | Walking a built list gives exactly its items. |
| `Clvm.ListOfItems` | src/spellbook/chia_offer.py:445-454 | A proper list is the list of the items that walking it finds; with ItemsOfList, both directions. |
| `Bytes.BitLengthBytes` | src/spellbook/chia_sign.py:163-172 | The source's (bit_length + 7) // 8 is the least number of bytes that holds the integer. |
| `Bytes.BytesOrder` | src/spellbook/chia_offer.py:819-819 | Byte strings of one length order as their numbers, so coins sorted by id are sorted by number. |
| `ClvmLoops.Serialize` | src/spellbook/chia_sign.py:114-134 | The explicit-stack printer writes the recursive printed form, or fails exactly when an atom is too long; that form is the shortest that reads back (`Clvm.PrintIsShortest`). |
| `ClvmLoops.ReadAtomAt` | src/spellbook/chia_sign.py:187-218 | The size loop reads the atom that the recursive reading names, with the same refusals. |
| `ClvmLoops.DeserPartial` | src/spellbook/chia_sign.py:226-256 | The explicit-stack reader equals the recursive reading for every input and position, and terminates. |
| `ClvmLoops.ExpandPair` | src/spellbook/chia_sign.py:226-256 | Replacing a PARSE item by CONS, PARSE, PARSE leaves the outcome of the remaining work unchanged and adds one pending program. |
| `TreeHashing.Sha256Tree` | src/spellbook/chia_sign.py:137-160 | The post-order stack walk computes the recursive tree hash for every s-expression. |
| `TreeHashing.TreeHashInjective` | src/spellbook/chia_sign.py:137-160 | Equal tree hashes mean equal trees, unless the hash collides on two byte strings that were hashed. |
| `TreeHashing.ListHash` | src/spellbook/chia_sign.py:137-160 | The tree hash of a list written out: atoms behind the byte 1, pairs behind the byte 2, first before rest. |
| `ClvmWalk.CountLeadingOnes` | relay/streamable.py:162-186 | The shift loop counts the leading one bits of a byte. |
| `ClvmWalk.ClvmAtomTotal` | relay/streamable.py:162-186 | The relay's atom measure: size prefix plus contents, with its refusals. |
| `ClvmWalk.ClvmProgramLength` | relay/streamable.py:189-208 | The pending-counter loop measures exactly the walk specification, and terminates. |
| `ClvmWalk.WalkLocal` | relay/streamable.py:189-208 | A program's measured length does not depend on the bytes around it. |
| `ClvmWalk.CounterIsPendingParses` | relay/streamable.py:189-208 | Walking with as many pending programs as the wallet reader's stack has PARSE items ends where that reader ends. |
| `ClvmWalk.ReaderAndWalkerAgree` | relay/streamable.py:162-208 | The wallet's reader succeeds at a position exactly when the relay's walk succeeds there and no atom starts with 0xF8..0xFD, and then both end at the same place. |
| `ClvmWalk.WidePrefixDisagrees` | src/spellbook/chia_sign.py:209-210 | A concrete 0xF8 program that the relay measures and the wallet refuses. |
| `ClvmWalk.WalkPrinted` | relay/streamable.py:211-218 | Every printed program is measured by the relay at its full length, at any offset. |
| `Streamable.Reader.Read` | relay/streamable.py:50-61 | Reading n bytes returns them and moves the position, or fails and leaves the position alone. |
| `Streamable.Reader.ReadProgram` | relay/streamable.py:221-226 | Reads one self-delimiting program within a length limit. |
| `Streamable.Reader.ReadSpends` | relay/streamable.py:289-293 | The list loop reads the spends of the decoder function, in order. |
| `Streamable.ParseSpendBundle` | relay/streamable.py:423-442 | The reader-driven parser is the decoder function: caps, no trailing bytes, every error case. |
| `Streamable.BundleRoundTrip` | relay/streamable.py:408-442 | Parsing an encoded bundle returns it exactly when it is within the caps: 1 to 10000 spends, puzzles and solutions of at most 2097152 bytes. |
| `Streamable.ReencodeAccepted` | relay/streamable.py:408-442 | Re-encoding an accepted bundle gives the accepted bytes, so no two byte strings stand for one bundle. |
| `Streamable.BundleFields` | relay/streamable.py:423-442 | Where everything stands in an accepted bundle: four bytes of count, spends one after another (32 bytes of parent, 32 of puzzle hash, 8 of amount, puzzle, solution), 96 bytes of signature. |
| `Streamable.MessageCodec` | relay/streamable.py:461-482 | A frame decodes to a message exactly when the message encodes to that frame. |
| `Streamable.FrameFields` | relay/streamable.py:461-482 | Where everything stands in a frame: type, a flag byte, two bytes of id if it is 1, four bytes of length, payload. |
| `BitGroups.Regroup` | src/spellbook/chia_sign.py:516-532 | The accumulator loop emits the digits of the whole bit string in the new width and leaves the remainder. |
| `BitGroups.ConvertBits` | src/spellbook/chia_sign.py:516-532 | Padding and padding refusal exactly as specified on values. |
| `BitGroups.EightsOfFives` | src/spellbook/chia_sign.py:516-532 | Bytes regrouped to five bits and back are the same bytes. |
| `BitGroups.FivesOfEights` | src/spellbook/chia_sign.py:516-532 | Five-bit groups regrouped to bytes and back are the same groups exactly when the padding is clean. |
| `Bech32m.Polymod` | src/spellbook/chia_sign.py:501-509 | The checksum loop computes the recursive polymod. |
| `Bech32m.PolymodLinear` | src/spellbook/chia_sign.py:501-509 | The polymod is linear over exclusive or. |
| `Bech32m.ChecksumUnique` | src/spellbook/chia_sign.py:267-272 | Six appended symbols make the polymod the wanted constant exactly when they are the computed checksum (BIP-173, BIP-350). |
| `Bech32mText.Bech32mEncode` | src/spellbook/chia_sign.py:267-272 | The text encoder writes part, separator, regrouped payload and checksum. |
| `Bech32mText.Bech32mDecode` | src/spellbook/chia_sign.py:275-298 | The decoder loop equals the decoding specification, including every refusal. |
| `Bech32mText.RoundTrip` | src/spellbook/chia_sign.py:267-298 | For ASCII human-readable parts: decoding an encoded text returns the same part and payload exactly when the part is non-empty, has no upper-case letter and does not start with white space. |
| `Bech32mText.AcceptedIsAssembled` | src/spellbook/chia_sign.py:275-298 | An accepted text, trimmed and lowered, is the assembled form of what was read from it. |
| `Bech32mText.Reencode` | src/spellbook/chia_sign.py:267-298 | For ASCII text: encoding what was decoded gives the cleaned-up text back exactly when the padding bits were clean. |
| `Bech32mVector.StandardString` | src/spellbook/chia_sign.py:260-298 | The valid string of BIP-350 in which every symbol occurs is what the encoder assembles from its prefix and symbols, and what the decoder takes apart. |
| `Abi.EncodeSequence` | src/spellbook/abi.py:209-223 | The loop that fills head and tail side by side writes the head/tail layout. |
| `Abi.DecodeSequence` | src/spellbook/abi.py:319-341 | The two-pass loop (heads, then deferred values) decodes the recursive specification. |
| `AbiRoundTrip.ValueDecoded` | src/spellbook/abi.py:354-433 | Wherever the encoding of a nested value stands, the decoder reads the value, stops at its exact end, and the span computation gives its exact length. |
| `AbiRoundTrip.RoundTrip` | src/spellbook/abi.py:226-309 | Decoding encoded arguments returns the values, whatever bytes follow, for all supported nested types with one-word static heads beside dynamic ones. |
| `AbiRoundTrip.EncodeInjective` | src/spellbook/abi.py:226-236 | Two value lists with one encoding are equal. |
| `AbiRoundTrip.BaseWritten` | src/spellbook/abi.py:108-206 | What an encoded base value looks like: a number in its word, negative ones shifted by 2^256, addresses on the right and fixed bytes on the left of zeros, byte strings behind their length and before fewer than 32 zeros. |
| `AbiRoundTrip.ArrayOfStaticArrays` | src/spellbook/abi.py:372-375 | A dynamic array directly over static arrays comes back exactly when it is empty. |
| `AbiRoundTrip.MisalignedBytes` | src/spellbook/abi.py:209-223 | A two-word static argument beside a byte string round-trips for exactly one payload: two copies of the word 64. |
| `AbiRoundTrip.SignedWordsRead` | src/spellbook/abi.py:436-456 | A signed word is always read; it re-encodes to itself exactly when it is sign-extended. |
| `V4Swap.HeadTailLoop` | src/spellbook/dex.py:950-970 | The loop with real head lengths writes heads with offsets from the true head size, then tails. |
| `V4Swap.V4ExactIn` | src/spellbook/dex.py:2263-2293 | The path decoder with its hop loop equals the decoding specification. |
| `V4Swap.ExactInCanonical` | src/spellbook/dex.py:2263-2293 | The path decoder accepts a byte string exactly when it is the encoding of an in-range path of 1 to 8 hops with hook data of at most 4096 bytes, and returns that path. |
| `V4Swap.ExactInInjective` | src/spellbook/dex.py:2227-2234 | The nested-offset encoding of paths is injective. |
| `V4Swap.SingleCanonical` | src/spellbook/dex.py:2237-2260 | The single-pool decoder accepts exactly the encodings of in-range swaps, negative tick spacings included. |
| `V4Args.SingleIsArgs` | src/spellbook/dex.py:2237-2260 | The struct of a single-pool swap, encoded as one dynamic tuple of typed arguments (address, address, uint24, int24, address, bool, uint128, uint128, bytes), is the layout the decoder insists on, with every field in range. |
| `V4Args.PathIsArgs` | src/spellbook/dex.py:2263-2293 | The same for a path: currency, dynamic array of dynamic path keys (address, uint24, int24, address, bytes), two uint128. |
| `V4Swap.ExactInAccepted` | src/spellbook/dex.py:2263-2293 | An encoded path in the range of its types is returned exactly with 1 to 8 hops and hook data of at most 4096 bytes each, and refused otherwise. |
| `UniversalRouter.DecodeV4Swap` | src/spellbook/dex.py:2302-2378 | The batch checker's loops give the specified verdict: leading swaps summed, then one settle and one take in either order. |
| `UniversalRouter.DecodeUniversalRouter` | src/spellbook/dex.py:2381-2494 | The command loop with its four sums gives the specified verdict for every call; that verdict is exactly the one of `RouterComplete.AcceptedExactly` and sound by `RouterRun.AcceptedCallIsSafe`. |
| `UniversalRouter.PlanCanonical` | src/spellbook/dex.py:2311-2317 | A batch input is accepted as a plan exactly when it is the encoding of that plan. |
| `RouterComplete.CmdRead` | src/spellbook/dex.py:2404-2471 | Completeness of reading: from the encoded arguments of a command (v3 swap, v2 swap, wrap, unwrap, sweep, V4 batch with all six actions) the checker reads that command, and refuses it exactly for a path, a hop count or hook data out of bounds. |
| `RouterComplete.AcceptedExactly` | src/spellbook/dex.py:2381-2494 | For every list of commands and every deadline or none: the encoded call is accepted exactly when each command's recipient, tokens and payer are approved, the commands together spend exactly the sell amount (and the value, when native), and their guaranteed minimums reach the approved minimum; the answer is the sum of those minimums. Stated over the arguments, without the decoder. |
| `RouterComplete.SwapAccepted` | src/spellbook/dex.py:2414-2447 | One v3 swap, paid by the wallet, has call data and is accepted with its minimum. |
| `RouterComplete.WrapThenSwap` | src/spellbook/dex.py:2407-2447 | Wrapping the value into the router and swapping what it holds is accepted with the swap's minimum. |
| `RouterComplete.SwapThenUnwrap` | src/spellbook/dex.py:2414-2471 | Swapping into the router and unwrapping to the wallet is accepted with the unwrap's minimum. |
| `RouterComplete.SwapThenSweep` | src/spellbook/dex.py:2414-2464 | Swapping into the router and sweeping the bought token to the wallet is accepted with the sweep's minimum. |
| `CallMeaning.CommandMeaning` | src/spellbook/dex.py:2404-2471 | What the checker reads from a command is what the words of its input mean, and the only thing they can mean: recipient, amounts, flag and path tokens stand at fixed places and behind one offset; a V4 input and its swap parameters mean the structs they encode. |
| `CallMeaning.CallRead` | src/spellbook/dex.py:2385-2392 | The commands and inputs that the checker decodes from the call are those that the offsets and lengths of its words delimit, with or without a deadline. |
| `CallMeaning.CallOnce` | src/spellbook/dex.py:2385-2392 | The words of a call delimit one list of commands and inputs. |
| `RouterRun.BatchSafe` | src/spellbook/dex.py:2338-2378 | Every run of an approved V4 batch that leaves no delta open takes at most the summed input from the wallet and pays it at least the guaranteed output. |
| `RouterRun.AcceptedCallIsSafe` | src/spellbook/dex.py:2381-2494 | Soundness: in every run of what an accepted call means that does not revert, the wallet gives up at most the approved amount of the sell token and nothing else, and receives at least the guaranteed output, which is at least the approved minimum; one token on both sides included, save a V4 batch between two native ones. |
| `RouterRun.AcceptedCallMeans` | src/spellbook/dex.py:2381-2494 | The words of an accepted call have a meaning as a command list, and only one. |
| `RouterAccepts.PlainSwapAccepted` | src/spellbook/dex.py:2416-2447 | The checker accepts the encoded call of one v2 swap of the sell token into the buy token with the wallet as recipient, the exact sell amount and a sufficient minimum, and guarantees that minimum. |
| `RouterAccepts.PlainSwapRuns` | src/spellbook/dex.py:2416-2447 | That command has a run, in which the wallet pays the whole sell amount and the recipient gets the minimum. |
| `RouterAccepts.TwoHopAccepted` | src/spellbook/dex.py:2302-2378 | The encoded call of a V4 batch (a two-pool swap, a settle, a take) is accepted with the swap's minimum for every intent its currencies match, and means that batch. |
| `RouterAccepts.TwoHopSettles` | src/spellbook/dex.py:2302-2378 | Between two different tokens that batch has a run, in which the wallet pays the whole sell amount and gets the minimum. |
| `RouterAccepts.SentinelWallet` | src/spellbook/dex.py:2393-2394 | Why the wallet must not be address 2: the plain swap is accepted for it, and has a run in which the wallet pays and gets nothing, against the guarantee. |
| `RouterAccepts.NativeRoundTrip` | src/spellbook/dex.py:2337-2378 | Why two native tokens must not meet a V4 batch: a round trip from the native currency back into it is accepted with its minimum, and has a run in which the wallet gets nothing, against the guarantee. |
| `OfferBundle.ParseSolutionsBundle` | src/spellbook/chia_offer.py:573-615 | The moving-position loop equals the reading specification, including every refusal. |
| `OfferBundle.BundleCodec` | src/spellbook/chia_offer.py:573-635 | The wallet accepts a byte string exactly when it is the printed form of spends whose puzzle reveals hash to their coins' puzzle hashes, and returns those spends. |
| `OfferBundle.RelayAgreement` | relay/streamable.py:423-442 | Within the relay's caps the wallet and the relay accept the same tied bundles and read the same spends. |
| `OfferConditions.SolutionRead` | src/spellbook/chia_offer.py:463-494 | The conditions read from a printed standard solution are the conditions it was built from. |
| `OfferConditions.StandardExactly` | src/spellbook/chia_offer.py:463-494 | A solution reads as conditions exactly when it is the program (() (q . conditions) ()) of them. |
| `Offer.ValidateLegs` | src/spellbook/chia_offer.py:974-1004 | The leg loops accept exactly one positive native leg on each side. |
| `Offer.CheckAll` | src/spellbook/chia_offer.py:1025-1030 | Checks every input against its derivation index and sums the amounts. |
| `Offer.BuildSpends` | src/spellbook/chia_offer.py:1082-1109 | The spend loop: the first coin by id carries the conditions and creates the settlement coin, the others carry none. |
| `Offer.BuildSideLoops` | src/spellbook/chia_offer.py:1007-1117 | One side built by the loops is the specified side, with every refusal; what that side is, is `OfferBytes.SideInOrder` and `OfferBytes.SideSays`. |
| `OfferString.ParseOfferLoop` | src/spellbook/chia_offer.py:712-772 | The parser's loop equals the parsing specification: one dummy spend, standard maker spends, raw fallback. |
| `OfferString.DecompressExactly` | src/spellbook/chia_offer.py:406-440 | A blob decompresses exactly when its two-byte version is 1 to 6 and the decompressor of that version returns the whole. |
| `OfferString.SortedExactly` | src/spellbook/chia_offer.py:729-772 | The spends of a bundle are an offer exactly when one of them, the settlement puzzle at the zero parent, asks, and every other is a standard spend of a real coin; those are the maker's, in order. |
| `OfferString.PayloadExactly` | src/spellbook/chia_offer.py:712-772 | What is an offer, both ways: a compressed bundle, or as a fallback a bundle as it stands, with one asking spend, one standard spend or more and 96 bytes of signature. |
| `OfferMade.NonceForgetsOrder` | src/spellbook/chia_offer.py:812-824 | The nonce is the same for every order of the coins when equal coin ids mean equal coins. |
| `OfferMade.NonceTellsCoins` | src/spellbook/chia_offer.py:812-824 | Equal nonces mean the same multiset of coins, unless the hash collides on something hashed. |
| `OfferMade.NonceListsCoins` | src/spellbook/chia_offer.py:812-824 | The nonce is the tree hash of the list of every coin once, by ascending id, each as parent, puzzle hash and amount in its shortest form. |
| `OfferMade.CoinIdHashes` | src/spellbook/chia_offer.py:559-560 | A coin id is the hash of parent, puzzle hash and the shortest signed form of the amount. |
| `OfferMade.RequestedRead` | src/spellbook/chia_offer.py:677-709 | A dummy spend with one group, canonical or not, reads back as the nonce and payments of that group and the group itself. |
| `OfferMade.GroupsAsked` | src/spellbook/chia_offer.py:677-709 | A dummy spend with several groups reads as all their payments in order under one nonce, and is refused when a group has another nonce. |
| `OfferMade.MadeIsParsed` | src/spellbook/chia_offer.py:1120-1171 | Parsing the string of any made offer (non-zero parents, bundle below the decompression cap) recovers nonce, payments, groups, maker spends, signature, bundle bytes and offer id. |
| `OfferBytes.SideInOrder` | src/spellbook/chia_offer.py:1082-1109 | Every built side spends exactly its inputs, by ascending coin id; each spend reveals the wallet's own puzzle and has one signature over its own coin and conditions; the settlement coin is a child of the input with the least id. |
| `OfferBytes.SideSays` | src/spellbook/chia_offer.py:1041-1109 | What a built side says, opcode by opcode: the first spend pays the settlement puzzle the offered amount, the change and the fee where there is any, and asserts the hash of settlement puzzle hash and group; the others say nothing; the one group asks for the requested payment under the nonce of the inputs. |
| `OfferBytes.MadeBytes` | src/spellbook/chia_offer.py:1137-1171 | What a made offer is: its id is the hash of a bundle that reads as the dummy spend (zero parent, amount zero, the settlement puzzle, the groups) and the side's spends under the aggregate of the side's signatures, and its text decodes to version 6 and the compressed bundle. |
| `OfferBytes.ParsedTied` | src/spellbook/chia_offer.py:573-615 | Every spend of a parsed offer reveals a puzzle that hashes to its coin's puzzle hash. |
| `OfferTake.CompletionSpends` | src/spellbook/chia_offer.py:1212-1240 | The completion loop returns a spend for exactly one settlement coin whose amount is what the groups pay, and fails for two or more. |
| `OfferTake.TakeSettles` | src/spellbook/chia_offer.py:1251-1340 | In every take that returns, each side created exactly one settlement coin, the completion spends exactly those coins with the other side's groups, and the amounts are what those groups pay; the bundle is printed under the aggregate of the maker's signature and every signature of the taker's side, and the transaction id is its hash. |
| `OfferBytes.TakeBytes` | src/spellbook/chia_offer.py:1333-1338 | In every take that returns, the bundle bytes read as the spends of the take under the aggregate of the maker's signature and one signature of the wallet for each taker spend, over that spend's own coin and conditions; the transaction id is the hash of those bytes. |
| `OfferSettlement.OriginReads` | src/spellbook/chia_offer.py:1082-1103 | The first spend of a side reads as one settlement output, one change output if any, the reserved fee and one asserted announcement. |
| `OfferSettlement.SideBuilds` | src/spellbook/chia_offer.py:1007-1117 | A side can be built exactly when the fee is not negative, there is one positive native leg each way, every input is a coin of the wallet's standard or legacy puzzle, and the inputs cover offer plus fee. |
| `OfferSettlement.EndToEnd` | src/spellbook/chia_offer.py:1120-1340 | Every offer made from one coin parses from its string and is taken by any sufficient side with an exact receive leg; the bundle pays the taker the offered amount, the maker the requested amount, coins spent equal coins created plus both fees, and it is handed out as bytes that read as those spends under the aggregate of the maker's signature and one taker signature per taker spend. |
| `OfferSettlement.BuiltSideMakesOffer` | src/spellbook/chia_offer.py:1120-1171 | Every side that can be built from amounts below 2^64 makes an offer. |
| `OfferSettlement.ManyInputsRefused` | src/spellbook/chia_offer.py:790-794 | An offer made from two or more coins parses, and every take of it is refused. |
| `OfferSettlement.TakerProtected` | src/spellbook/chia_offer.py:1251-1340 | Whoever made the offer: in every take that returns, the first completion pays the taker exactly the leg it receives, and the taker's spends spend its inputs, create exactly the requested total and the change, and reserve the fee. |
| `OfferAnnouncements.AnnouncedExactly` | src/spellbook/chia_offer.py:1318-1332 | In every take that returns, the bundle makes the announcement of a group exactly when the group is one of the offer's or of the taker's, as long as the hash tells the groups apart and neither party spends a coin at the settlement puzzle. |
| `OfferAnnouncements.AnnouncementsMatch` | src/spellbook/chia_offer.py:1277-1293 | In every take that returns, the taker's own assertions are met; the maker asserts the announcement of the canonical group, and it is made exactly when that group is among the groups of the parsed offer. |
| `OfferAnnouncements.AssertionsMet` | src/spellbook/chia_offer.py:1329-1332 | In every take of a made offer that returns, each announcement that a spend of either party asserts is made by a settlement spend of the same bundle. |
| `OfferAnnouncements.ShortGroupReads` | src/spellbook/chia_offer.py:695-707 | A group without its memo list reads as the same payment and pays it, but is another tree than the canonical group. |
| `OfferAnnouncements.ShortOfferMade` | src/spellbook/chia_offer.py:1137-1171 | Every side that makes an offer also makes one that asks by the short group. |
| `OfferAnnouncements.ShortGroupTaken` | src/spellbook/chia_offer.py:1277-1332 | Such an offer, its maker asserting the canonical announcement, parses from its string and is taken; the bundle balances and pays both parties, but no spend of it makes the announcement the maker asserts. |
| `OfferAnnouncements.ShortAssertionRefused` | src/spellbook/chia_offer.py:1289-1293 | When its maker asserts the short group's own announcement instead, every take is refused. |
| `LpCalldata.StructIsArgs` | src/spellbook/dex.py:950-970 | Over one-word heads the real-length layout is the general argument encoding. |
| `LpCalldata.JoinedHeads` | src/spellbook/dex.py:950-970 | A head entry of several words is the same as its words written separately. |
| `LpCalldata.V2AddDecoded` | src/spellbook/dex.py:2682-2708 | The v2 add decoder returns what the builder was given exactly when the call keeps to the approved tokens, caps, minimums and recipient. |
| `LpCalldata.V2RemoveDecoded` | src/spellbook/dex.py:2745-2770 | The same for v2 remove, with the exact LP amount. |
| `LpCalldata.V3MintDecoded` | src/spellbook/dex.py:2711-2742 | The same for v3 mint, negative ticks included. |
| `LpCalldata.V3CollectDecoded` | src/spellbook/dex.py:2785-2796 | The same for v3 collect. |
| `LpCalldata.V3RemoveDecoded` | src/spellbook/dex.py:2799-2830 | The same for the v3 multicall of decreaseLiquidity and collect. |
| `LpCalldata.V4AddDecoded` | src/spellbook/dex.py:2604-2659 | The v4 add decoder returns what the builder was given, through nested unlock data, exactly when pool, caps, value and recipient are the approved ones and the pool has no hooks. |
| `LpCalldata.V4TakeDecoded` | src/spellbook/dex.py:2833-2881 | The v4 remove and claim decoder returns what the builder was given exactly when position, liquidity, currencies, recipient and burn are approved and the minimums are at least the approved ones. |
| `LpApprovals.V2AddApproved` | src/spellbook/dex.py:1069-1091 | The v2 add call is its selector and the standard encoding of its typed arguments, and is approved exactly for these two ERC-20 tokens and this recipient, at most the approved amounts and at least the approved minimums. |
| `LpApprovals.V2RemoveApproved` | src/spellbook/dex.py:1165-1186 | The same for v2 remove, with exactly the approved liquidity. |
| `LpApprovals.V3MintApproved` | src/spellbook/dex.py:1128-1157 | The same for v3 mint, with the approved fee and ticks. |
| `LpApprovals.V3RemoveApproved` | src/spellbook/dex.py:1232-1257 | The v3 remove call is a multicall of a decrease and of a collect of everything, argument by argument, and is approved exactly for that position, liquidity and recipient and sufficient minimums. |
| `LpApprovals.V4AddApproved` | src/spellbook/dex.py:1469-1491 | The v4 add call unlocks a mint and a settle, argument by argument through both layers of bytes, and is approved exactly for the pool without hooks, owner, caps and value. |
| `LpApprovals.V4TakeApproved` | src/spellbook/dex.py:1494-1527 | The v4 remove or claim call unlocks a decrease, a take and a burn if asked, and is approved exactly for that position, liquidity, currencies, recipient and burn and sufficient minimums. |
| `LpBuilders.V2AddBuilds` | src/spellbook/dex.py:1069-1091 | The v2 add builder succeeds exactly on positive desired amounts and deadline, non-negative minimums and values in the range of their types. |
| `LpBuilders.V2RemoveBuilds` | src/spellbook/dex.py:1165-1186 | The same for v2 remove. |
| `LpBuilders.V3MintBuilds` | src/spellbook/dex.py:1128-1157 | The same for v3 mint, with sorted tokens, a pool fee and ordered ticks. |
| `LpBuilders.V3CollectBuilds` | src/spellbook/dex.py:1215-1229 | The same for v3 collect. |
| `LpBuilders.V3RemoveBuilds` | src/spellbook/dex.py:1232-1257 | The same for the v3 multicall of decreaseLiquidity and collect. |
| `LpBuilders.V4AddBuilds` | src/spellbook/dex.py:1469-1491 | The v4 add builder succeeds exactly for sorted currencies, ordered ticks that are multiples of a non-zero tick spacing strictly between -2^23 and 2^23, positive liquidity and deadline and values in range. |
| `LpBuilders.V4TakeBuilds` | src/spellbook/dex.py:1494-1527 | The v4 remove and claim builders succeed exactly for sorted currencies, a 20-byte recipient, a positive position and deadline and values in range. |
| `Bip39.MnemonicFromEntropy` | src/spellbook/seed.py:106-119 | The loop that takes eleven bits at a time writes the base-2048 digits of entropy and checksum. |
| `Bip39.PackWords` | src/spellbook/seed.py:132-136 | The shift loop folds the words' positions into one number, or stops at an unknown word. |
| `Bip39.EntropyFromMnemonic` | src/spellbook/seed.py:122-142 | The seed decoder equals its specification. |
| `Bip39.ValidateMnemonic` | src/spellbook/stdkeys.py:59-84 | The second decoder equals its own specification, which compares only the digest's first byte. |
| `Bip39.DecodersAgree` | src/spellbook/stdkeys.py:59-84 | Both decoders accept the same word lists with the same entropy, for every hash. |
| `Bip39.BothWays` | src/spellbook/seed.py:106-142 | A word list encodes an entropy exactly when it decodes to it, for all five sizes and every hash. |
| `Rlp.IntBytesMinimal` | src/spellbook/evm.py:106-107 | Integers are printed in their least number of bytes and determined by them. |
| `Rlp.StringRead` | src/spellbook/evm.py:93-103 | A printed string, followed by anything, reads as that string and what follows. |
| `Rlp.ListRead` | src/spellbook/evm.py:93-112 | A printed list, followed by anything, reads as its items and what follows: lists are injective and prefix-free. |
| `Rlp.UnsignedTells` | src/spellbook/evm.py:262-266 | Two unsigned transactions with equal bytes, even in front of other bytes, are equal in all seven fields; which field stands where is `Rlp.UnsignedFields`. |
| `Rlp.UnsignedFields` | src/spellbook/evm.py:262-266 | The unsigned bytes read as nine items: nonce, gas price, gas limit, destination or nothing, value, data, chain id and two empty strings, no number with a leading zero. |
| `Rlp.StringIsShortest` | src/spellbook/evm.py:93-103 | A string is printed in the fewest bytes that read as it, and no other form is as short. |
| `Rlp.ListIsShortest` | src/spellbook/evm.py:93-112 | The same for a list. |
| `PeerProtocol.RunKeeps` | relay/peer.py:339-358 | In every interleaving a pending request exists only while its owner holds the lock, and ids stay within 1 to 65535. |
| `PeerProtocol.CompletesOnce` | relay/peer.py:291-337 | In every run a completed future keeps its outcome. |
| `PeerProtocol.ResultComesFromItsAnswer` | relay/peer.py:303-312 | A future gets a result only from a frame of the expected type with no id or the sent id, while it is pending and its owner holds the lock. |
| `PeerProtocol.NothingPendingWhenFree` | relay/peer.py:339-358 | With the lock free nothing is pending. |
| `PeerProtocol.TimeoutClearsItsOwn` | relay/peer.py:353-358 | The unconditional clearing after a timeout never clears another owner's request. |
| `PeerProtocol.IdsInOrder` | relay/peer.py:345-346 | Request number n is sent with id n mod 65535 + 1. |
| `PeerProtocol.LateAnswerIsIgnored` | relay/peer.py:303-312 | A late answer that names an earlier request resolves nothing until 65535 requests have gone by. |
| `PeerProtocol.ChiaPeer.Begin` | relay/peer.py:342-350 | Sending is one step of the machine, or the refusal step when not connected. |
| `PeerProtocol.ChiaPeer.Dispatch` | relay/peer.py:291-312 | Handling a frame is the dispatch step. |
| `PeerProtocol.ChiaPeer.Finish` | relay/peer.py:356-358 | Leaving the lock is the finish step. |
| `PeerProtocol.ChiaPeer.ReaderExit` | relay/peer.py:283-289 | The end of the reader is the reader-exit step. |
| `PeerProtocol.ChiaPeer.Close` | relay/peer.py:233-243 | Closing is the close step. |
| `PeerProtocol.PeerManager.IngestCoinStates` | relay/peer.py:646-652 | After any sequence of updates each cached coin is its last ingested state and the peak is the greatest height seen. |
| `PeerProtocol.PeerManager.IngestPeak` | relay/peer.py:654-658 | The peak stays the greatest height ingested. |
| `RateLimit.Bucket.Request` | relay/server.py:319-328 | With a monotone clock a request is accepted exactly when the full history has fewer than 60 accepts in the last 60 seconds. |
| `RateLimit.KeptAreRecent` | relay/server.py:321-324 | The length of the pruned deque is the number of accepts of the whole history in the window. |
| `RateLimit.AtMostSixty` | relay/server.py:319-328 | Any 60-second window holds at most 60 accepted requests. |
| `BackupRecord.PendingStays` | src/spellbook/custody.py:634-682 | Over any sequence of calls a pending record never becomes legacy. |
| `BackupRecord.IssueOpens` | src/spellbook/custody.py:708-722 | Issuing a code turns pending into legacy exactly for a record marked bad without being required and not confirmed for the live seed. |
| `BackupRecord.UntrustedExample` | src/spellbook/custody.py:708-722 | Such a record: pending before the code is issued, legacy after. |
| `BackupRecord.ConfirmedExactly` | src/spellbook/custody.py:645-682 | Over any sequence of calls a seed is confirmed exactly when the last confirmation named it. |
| `BackupRecord.IssuedCode` | src/spellbook/custody.py:708-746 | Until the next one is issued, a code succeeds at most once and is compared with at most five wrong guesses. |
| `BackupRecord.IssuedExactly` | src/spellbook/custody.py:708-746 | An issued code, after any four or fewer wrong guesses: exactly until seven days have gone by the right guess succeeds and confirms the seed, a fifth wrong one ends the code, later it has expired, and for another seed nothing changes. |
| `BackupRecord.CodeBudget` | src/spellbook/custody.py:725-746 | From any record, wrong guesses are bounded by what is left of the outstanding code, and nothing succeeds without one. |
| `BackupRecord.Store.RequireBackup` | src/spellbook/custody.py:634-642 | The read-modify-write equals the operation used in the run properties. |
| `BackupRecord.Store.ConfirmBackup` | src/spellbook/custody.py:645-654 | The same for confirming. |
| `BackupRecord.Store.IssueBackupCode` | src/spellbook/custody.py:708-722 | The same for issuing a code. |
| `BackupRecord.Store.ConfirmWithCode` | src/spellbook/custody.py:725-746 | The same for a guess, with its outcome. |

## Left out

- AbiRoundTrip.RoundTrip: asks for one-word static arguments beside dynamic ones and no dynamic array directly over a static array, because the code does not round-trip there; there is no exact condition by type, since some misaligned values survive by coincidence.
- AbiRoundTrip.EncodeInjective: asks for the same types as the round trip that it follows from.
- RouterRun.AcceptedCallIsSafe: asks that the wallet is not address 2 and that no V4 batch stands between two native tokens, where the verdict does not hold; and that a token sold into itself is sold in less than 2^255, the amount that stands for the router's balance.
- CallMeaning.CommandMeaning: says nothing of a command that the checker refuses, and V4 parameters in a form other than their encoding have no meaning.
- OfferMade.MadeIsParsed: asks that the bundle is below the 6 MiB decompression cap, which `make_offer` does not check.
- OfferSettlement.EndToEnd: asks for change puzzle hashes of 32 bytes other than the settlement puzzle's, inputs not locked by that puzzle, and taker amounts below 2^64.
- OfferAnnouncements.AnnouncementsMatch: the exact form asks that the nonces of the two parties differ, since a taker's group may otherwise be the maker's.
- BackupRecord.PendingStays: asks that the record is not marked bad without being required, which the code never writes; what happens then is `BackupRecord.IssueOpens`.
- Rlp.UnsignedTells: asks for field and payload lengths below 2^64, what the length prefix can carry.
- Rlp.UnsignedFields: asks for the same lengths.
- RouterComplete.AcceptedExactly: speaks of calls that an encoder writes; any other accepted call is covered by `RouterRun.AcceptedCallMeans` and `RouterRun.AcceptedCallIsSafe`.
- OfferBytes.TakeBytes: asks that the maker's spends are tied to their coins, as in every parsed offer (`OfferBytes.ParsedTied`).
- OfferSettlement.SideBuilds: asks for a change puzzle hash of 32 bytes and amounts below 2^128.
- SHA-256, Keccak, BLS and secp256k1 curves, zlib, key derivation: foreign libraries, seen through the laws stated above.
- CLVM execution, the compiled puzzles and signature messages: a settlement puzzle pays and announces its groups, a standard spend obeys its quoted conditions.
- Asset dictionaries with several keys: only native legs pass validation, so a side has one leg.
- UTF-8 validity of ABI strings; a string value is its bytes.
- Bech32mText.Bech32mDecode: white space and letter case outside ASCII, which `strip` and `lower` also change.
- Parsing of ABI type strings, hex and decimal text, and the joining and splitting of mnemonics.
- Addresses (`address_for_puzzle_hash`, `puzzle_hash_for_address`): the same regrouping and checksum as the offer text.
- Handshakes, coin-state pushes and the remaining relay messages: length-prefixed fields with easy claims.
- `cancel_offer`, legacy sweeps beyond the choice of puzzle, swap builders and the 0x AllowanceHolder decoder: single-branch bindings.
- The signed transaction of `_sign_legacy_to`: the same list printer with three other fields.
- PeerProtocol: fairness of the lock, socket exceptions by kind, and the times of peaks; a step may happen whenever its guard holds.
- RateLimit.Bucket.Request: one bucket, since one token passes the bearer check; times are exact numbers.
- BackupRecord: file ownership and JSON parsing are one case, an unreadable file; the code's text and its normalization are the hash that a guess gives.
- Hosted fallback sources, peer discovery and retirement, web handlers, command lines, policy and ledger: input and output plumbing.
