# Verified models of a transaction library

This project models the codecs, folds and small state machines of a library that
builds, signs and transports cryptocurrency transactions, and proves what they
promise. Hashes, HMAC, curve operations, signature checks and deflate are left open:
they are parameters, with only the laws named in the statements that need them.

Each operation that works by changing things is a method with the source's own loops,
stacks, buffers and error exits, and is tied to a function that says what it computes.
The lemmas are about those functions.

| file | what it models |
|---|---|
| `Fragments`, `Peeling`, `Recovery` | one step of the fountain decoder, and whole streams of parts |
| `Sampler`, `Choice` | the alias table, and the choice of the fragments a part mixes |
| `Crc32`, `Decoder`, `Encoder`, `Strangers` | the checksum, the decoder and encoder as objects, and streams with strings of others in them |
| `TapTree`, `TapCommitment`, `Taproot`, `TapOverrun`, `TapControl`, `TapLayout` | taproot trees, the fold of a leaf listing, its one crash, control blocks |
| `Cbor`, `CborRoundTrip`, `CborLayout`, `CborScan`, `CborForms`, `CborSplit` | the CBOR codec, and the iterative scanner against the well-formed items of RFC 8949 |
| `Rlp`, `RlpLayout` | the RLP codec |
| `Radix`, `Base58` | in-place radix conversion |
| `BitGroups`, `Polymod`, `VariantGap`, `SliceWriter`, `Bech32`, `Segwit`, `CashAddr`, `Checksums` | bit regrouping, the linear checksums, and the addresses made with them |
| `Script`, `Templates`, `Satisfy`, `TapSatisfy`, `Finalize`, `Acceptance`, `Completeness`, `StackLayout` | script templates, the stacks that satisfy them, an interpreter and exactly which stacks it accepts, and exactly when an input is finalized |
| `Ceiling`, `Base32`, `Bbqr`, `Joiner`, `JoinerStrangers` | cutting a file into QR parts and joining them, among parts of other files too |
| `Numerals` | the alphabets of base58, base32 and BBQr, and texts as numerals |
| `Sighash`, `SighashOf`, `SighashLayout` | what signature hashes commit to, and where each field stands |
| `Protobuf`, `TronTx`, `TronRoundTrip`, `TronLayout` | Tron transactions as protobuf messages, written canonically and parsed back |
| `Multiasset`, `MultiassetCbor`, `Flatten`, `CardanoTx`, `CardanoRoundTrip`, `CardanoLayout`, `CardanoForms` | Cardano transactions: tokens grouped and flattened, canonical CBOR, and reading it back |
| `CardanoDerive`, `CardanoInputs` | key derivation along a path, private and public |
| `Blake2b`, `Blake2bTrace` | the streaming hash against the hash of a whole message, call by call |
| `Bytewords` | words for bytes, and the delay line of the decoder |
| `LetterCase` | the case of letters in addresses and strings, and which strings are accepted |
| `Ur`, `UrText`, `UrLayout` | UR strings, and the text of fountain parts: CBOR in bytewords in a string, and back |
| `Bytes`, `Layout`, `Ascii`, `Option` | integers as bytes, byte strings by position, the case of letters, and optional values |

## How to read it

Byte strings are sequences of `byte`, an integer below 256 (bit vectors in the fountain
code, where fragments are XORed). Shifts and masks by constants are written as products
and remainders of powers of two. Lengths are 64-bit: where a statement depends on it, it
says so (`Fits`, `< U64`).

A writer and a reader that agree may still agree on the wrong bytes. The files named
`...Layout`, and `Checksums`, `Numerals`, `CardanoInputs` and `Blake2bTrace`, say what the
bytes are without the functions that write them: byte by byte, digit by digit, or as
published constants. `CborForms` and `CardanoForms` say the same of what is read.

Four results say where the code does not do what one would expect:

- `walk` (`src/taproot.rs`) crashes on some listings that its own comment rules out.
  `TapOverrun.WalkPanicsExactlyWhenOverfull` says exactly which, and
  `TapOverrun.StaircasePanics` shows one.
- A bech32 string with an upper-case or an empty human-readable part does not parse
  back: `Bech32.ParseInvertsEncode` covers every case. CashAddr types of 16 and more,
  and prefixes with a colon or in upper case, do not decode back:
  `CashAddr.DecodeInvertsEncode` covers every case.
- `scan_item` (`src/cbor.rs`) takes integers and tags that claim an indefinite length, which
  section 3 of RFC 8949 reserves. `CborForms.ScanIsExact` says which forms it takes,
  `CborForms.WellFormedUnlessOdd` when what it takes is well-formed, and
  `CborForms.OddIntegerIsScanned` shows one that is not.
- The comment at `src/cardano_derive.rs:333` says that clamping a root clears the two
  highest bits. The code clears three, and the model follows the code.

## Model

| member | source | states |
|---|---|---|
| Peeling.StepKeepsPool | src/bcur/fountain.rs:530-595 | One turn of the loop of `reduce` keeps the pool's shape: held parts ascending, of two indexes or more, free of known ones, at most 2n+16, distinct, and none covering another when n <= 256; what it requeues is well formed |
| Peeling.StepKeepsTruth | src/bcur/fountain.rs:530-595 | Against any message: if known fragments, held parts and the part in hand are true of it, so are the new pool and everything requeued |
| Peeling.RequeueLeavesRoom | src/bcur/fountain.rs:565-586 | Whenever a held part is requeued, the part that covers it is pushed: the cap cannot drop it |
| Peeling.StepDecreases | src/bcur/fountain.rs:530-595 | The loop ends: the total of indexes in queue and pool falls, or stays while the number of irreducible queue entries falls |
| Recovery.DrainKeepsTruth | src/bcur/fountain.rs:530-595 | A whole run of `reduce` keeps every fragment and held part true of the message |
| Recovery.DrainExtends | src/bcur/fountain.rs:530-595 | A known fragment is never lost or changed by later parts |
| Recovery.OnHoldIsAntichain | src/bcur/fountain.rs:327-339 | What the pool's shape means for any two held parts: ascending, at least two unknown indexes, different sets, and neither inside the other for up to 256 fragments |
| Recovery.AbsorbIsTrue | src/bcur/fountain.rs:445-613 | After any stream of true parts, every known fragment is the message's and every held part is the XOR of the fragments it indexes |
| Recovery.PeelingIsExhausted | src/bcur/fountain.rs:530-595 | After any stream that lost no part to the cap, of no part ever received is exactly one fragment missing |
| Recovery.PeelableIsKnown | src/bcur/fountain.rs:530-595 | Every fragment that belief propagation gets from the received index sets is known, whatever the order of arrival |
| Recovery.ShortStreamsLoseNothing | src/bcur/fountain.rs:576-586 | A stream of no more parts than the cap loses none |
| Recovery.SingletonsSuffice | src/bcur/fountain.rs:530-595 | A part of one fragment makes it known, cap or no cap |
| Sampler.New | src/bcur/fountain.rs:65-103 | The alias table built by the loops gives every degree its weight, in exact reals: its own share plus what other cells give it |
| Sampler.LeftoversAreOnes | src/bcur/fountain.rs:94-103 | When the filling loop ends, nothing is left that weighs less than one, and everything left weighs exactly one |
| Sampler.CellAnswers | src/bcur/fountain.rs:105-115 | Which pairs of draws pick a degree: those of two disjoint ranges in each of n cells of equal width |
| Sampler.DegreeHasItsProbability | src/bcur/fountain.rs:65-115 | The area of the draws that pick degree d is 1/d over the harmonic sum |
| Choice.ChooseFragments | src/bcur/fountain.rs:119-143 | The method picks the indexes its specification does, by removing from what remains |
| Choice.ChosenIsAChooser | src/bcur/fountain.rs:119-143 | Corollary, for any well-formed tables and any draws: the choice is an ascending nonempty set of indexes below the length, and parts 1 to n are single fragments |
| Choice.ChosenAreDrawn | src/bcur/fountain.rs:119-143 | The indexes are those that as many draws as the degree pick in turn, from the third on: each, of the indexes not picked yet in ascending order, the one its share of their number lands on |
| Crc32.NibbleStep | src/bcur/mod.rs:129-151 | The finite fact behind the table: four bit-serial steps of the checksum register are one table lookup by the low nibble |
| Crc32.Compute | src/bcur/mod.rs:153-176 | The nibble-table loop computes the bit-serial CRC-32 |
| Decoder.Decoder.Receive | src/bcur/fountain.rs:445-500 | The object's new state and result are those of the specification, from every valid state, and it stays valid |
| Decoder.Decoder.Reduce | src/bcur/fountain.rs:530-595 | The work-queue loop over the object's fields drains the queue as the specification does, and ends |
| Decoder.Decoder.Finish | src/bcur/fountain.rs:598-613 | Completion checks padding and checksum, and empties the decoder when they are wrong |
| Decoder.ErrorsChangeNothing | src/bcur/fountain.rs:445-500 | Corollary: an error leaves the decoder as it was, but for a bad checksum of the whole message, which empties it |
| Decoder.AllAssembled | src/bcur/fountain.rs:598-613 | Once all fragments are known, the buffer is the fragments end to end |
| Encoder.PrepareIsOk | src/bcur/fountain.rs:179-203 | What the constructor accepts is a message cut into equal fragments with zero padding |
| Strangers.EncoderTakes | src/bcur/fountain.rs:179-203 | The constructor accepts exactly types of lower-case letters, digits and dashes, and payloads that are not empty and have a 32-bit length |
| Ceiling.CutIsFewestAndShortest | src/bcur/fountain.rs:179-203 | Evening out the fragments keeps their number at the fewest the limit allows, and no shorter fragment gives as few |
| Encoder.Encoder.NextPart | src/bcur/fountain.rs:233-265 | Each call emits the part of the next sequence number: the XOR of the fragments chosen for it |
| Encoder.StreamIsFaithful | src/bcur/fountain.rs:445-613 | Any stream of one encoder's parts, with loss, repetition and in any order, is accepted part by part, and a decoder that completes has exactly the message |
| Encoder.OriginalsSuffice | src/bcur/fountain.rs:445-613 | A stream that has parts 1 to seq_len completes, whatever else is in it |
| Encoder.SinglePartSuffices | src/bcur/fountain.rs:233-265 | A message of one fragment is complete after any one part |
| Encoder.ShortPeelableSuffices | src/bcur/fountain.rs:576-586 | So is a message whose parts, no more than twice the fragments and 16, lead belief propagation to every fragment |
| Encoder.PeelableSuffices | src/bcur/fountain.rs:445-613 | A stream completes as soon as belief propagation over its index sets reaches every fragment, if the cap was not reached |
| Strangers.StrangerIsRefused | src/bcur/fountain.rs:445-500 | In the middle of a message a decoder takes nothing but readable parts with its very type, number of fragments, length, checksum and fragment length: anything else is an error that names what is wrong and changes nothing |
| Strangers.OtherMessageIsRefused | src/bcur/fountain.rs:445-500 | So every part of any other message is refused, even if only its checksum differs: as another type, or as inconsistent |
| Strangers.FirstPartIsTaken | src/bcur/fountain.rs:445-522 | An empty decoder takes a readable part exactly if the number of fragments is the least that holds the message, and both keep to the limits; each refusal has its error |
| Strangers.SingleIsTaken | src/bcur/fountain.rs:454-472 | A payload in one string completes an empty decoder exactly if it keeps to the limit |
| Strangers.AnswerIsDone | src/bcur/fountain.rs:445-500 | A call that succeeds answers true exactly if the message is complete |
| Strangers.RunIsVouched | src/bcur/fountain.rs:445-613 | Whatever strings a decoder is given, a message it ends up with has the length and CRC-32 that some part it heard tells, or came in one string, and the limits hold all along |
| Strangers.StraysLeaveNoTrace | src/bcur/fountain.rs:445-613 | A stream with strings of other messages, and strings that are none, between its own parts leads to what its own parts alone do |
| Strangers.OriginalsSufficeAmongStrays | src/bcur/fountain.rs:445-613 | With such strings between them, parts 1 to seq_len still complete the message |
| Ur.ReadIndex | src/bcur/mod.rs:194-205 | The loop over digits with its overflow checks is the specification |
| Ur.IndexIsExact | src/bcur/mod.rs:194-205 | It accepts exactly the digits of positive 32-bit numbers, leading zeros and all |
| Ur.PrintReadsBack | src/bcur/mod.rs:224-247 | A UR printed is parsed back into its type, sequence and body |
| LetterCase.UrExactly | src/bcur/mod.rs:224-247 | Exactly which strings are parsed, and into what: scheme in any case, type, slash, two numbers and a slash or nothing, and a body without slashes |
| Ur.ParseOfLower | src/bcur/mod.rs:224-247 | The case of a string only shows in the case of its parts |
| UrText.ChecksumIsCrc | src/bcur/bytewords.rs:94-94 | What bytewords append is the CRC-32 of the data |
| UrText.PartReadsBack | src/bcur/fountain.rs:252-309 | A part is read back from its CBOR |
| UrText.ScanText | src/bcur/fountain.rs:449-472 | Taking a scanned string apart is the specification, errors included |
| UrText.NextText | src/bcur/fountain.rs:233-265 | The string written is that of the part emitted |
| UrText.TextReadsBack | src/bcur/fountain.rs:233-482 | The string of a part is scanned as that part |
| UrText.TextStandsForPart | src/bcur/fountain.rs:445-500 | A decoder takes the string of a part, in whatever case, for the part |
| UrText.TextStreamIsFaithful | src/bcur/fountain.rs:445-613 | Over any stream of one encoder's strings, in any case, a decoder has what its parts lead to, and if it completes, exactly the payload |
| UrText.TextsOfOriginalsSuffice | src/bcur/fountain.rs:445-613 | The strings of parts 1 to seq_len, in any order and case and among any others, give the payload back |
| UrText.TextsAmongStraysSuffice | src/bcur/fountain.rs:445-613 | The same with strings of others, or of nothing, in between: the strings of parts 1 to seq_len, in any order and case, give the payload back |
| UrLayout.PartIsArray | src/bcur/fountain.rs:252-262 | A part is the CBOR array of sequence number, fragment count, message length, checksum and data |
| UrLayout.PartExactly | src/bcur/fountain.rs:286-309 | Bytes are read as a part exactly if they are an array of five, four numbers of 32 bits and a byte string in one piece, each head in any of its forms, and nothing after |
| UrLayout.TextInOrder | src/bcur/fountain.rs:233-265 | The string is `ur:`, the type, a slash, for a part of several `number-count/` in decimal, and the data and its CRC-32 in minimal words |
| UrLayout.MinimalByPosition | src/bcur/bytewords.rs:91-117 | Byte i is written as the first and last letter of its word, at 2i |
| UrLayout.WholeByPosition | src/bcur/bytewords.rs:62-117 | Byte i is written as its word at 5i, with a space or a dash between words by the style |
| Checksums.CheckValue | src/bcur/mod.rs:129-176 | The CRC-32 of the digits 1 to 9 is its published check value |
| TapTree.ListingDeterminesTree | src/taproot.rs:118-184 | No two trees have the same depth-first listing |
| TapTree.PathLeadsToRoot | src/taproot.rs:107-113 | Folding a leaf's siblings from the leaf hash gives the tree's root |
| TapCommitment.RootBindsLeaves | src/taproot.rs:78-91 | A path that folds to a tree's root is the path of one of its leaves with that version and script, unless the hash collides on what was hashed |
| TapLayout.SmallerChildFirst | src/taproot.rs:85-91 | Of two hashes that differ first at some byte, a branch hashes the one with the smaller byte there first, whichever way round it is given them |
| TapLayout.BranchOfAnyTwo | src/taproot.rs:85-91 | That covers every pair of 32-byte hashes but equal ones, of which the order is no matter |
| TapLayout.LeafByPosition | src/taproot.rs:78-81 | A leaf hashes its version, the CompactSize of its script, and the script |
| TapLayout.RootOfThree | src/taproot.rs:8-15 | The root of the tree drawn in the documentation: a leaf beside a branch of two |
| Taproot.RunKeepsForest | src/taproot.rs:118-184 | After any prefix of a listing the stack stands for a forest whose leaves are that prefix, at strictly rising depths |
| Taproot.WalkOfTree | src/taproot.rs:118-184 | On the listing of a tree the fold ends with one node, the recursive merkle root, and the target's siblings as the path |
| Taproot.WalkAcceptsExactlyTrees | src/taproot.rs:118-184 | It succeeds exactly on the listings of full binary trees of height at most 128 with valid versions, a target among the leaves and room for its path; the tree is unique |
| Taproot.Walk | src/taproot.rs:118-184 | The method over a 129-slot array and the caller's buffer ends as the fold does, writes the path's nodes and nothing in front of them |
| TapOverrun.WalkPanicsExactlyWhenOverfull | src/taproot.rs:129-151 | It writes past its stack exactly on the listings in which a full staircase of folded trees of depths 0 to 128 comes before one more leaf, if the target is a leaf and its path has room |
| TapOverrun.StaircasePanics | src/taproot.rs:151-151 | Leaves at depths 0, 1, ..., 128, 128 do so |
| TapControl.MerkleRootFromPath | src/taproot.rs:94-113 | The loop over a path's bytes is the fold over its 32-byte nodes |
| TapControl.ControlBlockToSlice | src/taproot.rs:216-231 | What is written is the control block of the specification, and every error exit is its |
| TapControl.ControlBlockSpends | src/taproot.rs:216-279 | The control block of any leaf of any tree is 33 + 32 * depth bytes, parses back to its parts, and verifies for the tweaked output key and for no other |
| TapLayout.BlockByPosition | src/taproot.rs:216-231 | A control block is version and parity in one byte, the internal key at 1, and node m of the path, from the leaf up, at 33 + 32m |
| TapLayout.NoBlockIsAnnex | src/taproot.rs:66-75 | The versions accepted are exactly the even ones whose control blocks do not start with the annex tag |
| TapLayout.ParsesExactly | src/taproot.rs:248-259 | Exactly 33 bytes and up to 128 nodes parse as a control block, with a first byte that is no annex tag, even with its low bit; and into what |
| Layout.CompactSizeBytes | src/btcvarint.rs:16-37 | The bytes of a CompactSize: one, or a marker and a little-endian number of 2, 4 or 8 bytes |
| Cbor.HeadReadsBack | src/cbor.rs:87-104 | A head in shortest form is read back wherever it is written |
| Cbor.EncodeInto | src/cbor.rs:114-145 | The recursive encoder appends the encoding to what was written before |
| Cbor.DecodeValue | src/cbor.rs:245-284 | The recursive decoder with its loops is the specification, errors included |
| CborRoundTrip.SortSorts | src/cbor.rs:128-132 | Map entries come out in canonical order, none lost and none made up |
| CborRoundTrip.MapOrderIsIrrelevant | src/cbor.rs:124-139 | Maps with the same entries and distinct keys encode the same, in whatever order they were built |
| CborRoundTrip.CanonEncodes | src/cbor.rs:114-145 | Sorting the maps of a value at every depth does not change its encoding |
| CborRoundTrip.RoundTrip | src/cbor.rs:152-284 | Decoding an encoding with anything after it gives the value with its maps sorted and consumes exactly the encoding, if it is nested at most 64 deep; if not, it is refused as too deep |
| CborRoundTrip.EncodingIsInjective | src/cbor.rs:114-145 | Two values encode the same exactly when they differ only in the order of their maps |
| CborLayout.HeadByPosition | src/cbor.rs:87-104 | A head has the major type in its top three bits and its argument in the other five, or in the fewest of 1, 2, 4 or 8 bytes that hold it, most significant first |
| CborLayout.ScalarsByPosition | src/cbor.rs:114-145 | Numbers, byte strings, booleans and null are of types 0, 2 and 7, with the content after the head |
| CborLayout.ArrayByPosition | src/cbor.rs:114-123 | An array is a head of type 4 with the number of items, and item i after the ones before it |
| CborLayout.MapByPosition | src/cbor.rs:124-139 | A map whose keys are in order is a head of type 5 with the number of entries, and each key with its value |
| CborLayout.OrderOfKeys | src/cbor.rs:124-139 | Of two keys the shorter comes first, and of two as long the one with the smaller byte where they first differ |
| CborLayout.FirstByteDecides | src/cbor.rs:152-284 | What the decoder makes of a first byte: reserved and indefinite lengths, types and simple values it refuses, each with its error, and the simple values it takes |
| CborScan.ScanItem | src/cbor.rs:303-377 | The loop over a stack of open containers accepts exactly what the recursive grammar accepts, stops where it does, gives its error, and leaves the position on error |
| CborScan.ScanChunks | src/cbor.rs:381-393 | The chunks of an indefinite-length string are those of the grammar |
| CborScan.ChecksRefuseNoItem | src/cbor.rs:233-238 | Refusing containers that claim more items than bytes are left refuses nothing that the bare grammar accepts |
| CborScan.DecodeStopsWhereScanDoes | src/cbor.rs:245-377 | Whatever decodes is scanned, to the same position |
| CborForms.ScanIsExact | src/cbor.rs:303-393 | An item is found, ending at a position, exactly if the bytes up to there are an item in one of the forms of RFC 8949, or such a form with integers or tags of indefinite length in it |
| CborForms.FormIsUnique | src/cbor.rs:303-393 | No bytes at a position are an item in two forms |
| CborForms.SplitIsExact | src/cbor.rs:397-411 | An array is split into some pieces exactly if the data starts with an array head, in any form, for that many items and then the pieces, each an item in one of the forms of RFC 8949 |
| CborForms.WellFormedUnlessOdd | src/cbor.rs:319-349 | What is found is well-formed if and only if its form has no integer or tag of indefinite length in it |
| CborForms.OddIntegerIsScanned | src/cbor.rs:321-322 | The byte 0x1f alone is taken for an item, and no well-formed item is written like that |
| CborSplit.EncodingIsItem | src/cbor.rs:114-145 | Every encoding is exactly one item, if each raw part in it is |
| CborSplit.SplitArrayItems | src/cbor.rs:397-411 | The splitting loop is its specification |
| CborSplit.SplitPieces | src/cbor.rs:397-411 | The pieces are single items, and are what follows the head end to end |
| CborSplit.ArraySplits | src/cbor.rs:397-411 | An encoded array splits into the encodings of its items, raw items included |
| Rlp.UintReadsBack | src/rlp.rs:67-100 | Integers are read back from up to eight bytes, with or without leading zeros, and refused from more |
| Rlp.EncodeList | src/rlp.rs:229-237 | The encoding loops write the specification's bytes |
| Rlp.DecodeList | src/rlp.rs:166-225 | The decoding loops, re-slicing as they go, are the specification, errors included |
| Rlp.EncodedReadsBack | src/rlp.rs:166-213 | An item is read back from the front of anything that starts with its encoding |
| Rlp.DecodeInvertsEncode | src/rlp.rs:132-237 | Bytes decode to a list of items exactly when they are the items' encodings end to end: every other input, canonical or not, is refused |
| RlpLayout.ItemByPosition | src/rlp.rs:83-147 | A byte below 0x80 is itself; other strings have heads from 0x80 and lists from 0xc0, with lengths past 55 in counted big-endian bytes |
| RlpLayout.ItemsInOrder | src/rlp.rs:132-237 | The content of a list is its items, each after the ones before |
| Radix.MultiplyAdd | src/base58.rs:62-66 | The in-place loop multiplies the number that the digits denote and adds to it, with the carry that is left |
| Radix.Push | src/base58.rs:59-72 | After each input digit the buffer holds the digits of the value read so far, the top one not zero; it fails exactly when they no longer fit |
| Base58.EncodeToSlice | src/base58.rs:43-85 | Writes the base58 text when it fits, and fails exactly when it does not |
| Base58.DecodeToSlice | src/base58.rs:102-129 | Writes the bytes, or fails on whichever comes first: a character outside the alphabet, or a number that has outgrown the buffer |
| Base58.Decode32 | src/base58.rs:143-183 | Succeeds exactly on the texts of 32 bytes |
| Base58.DecodeInvertsEncode | src/base58.rs:43-129 | Decoding the text of any bytes gives them back |
| Base58.EncodeInvertsDecode | src/base58.rs:43-129 | Every text over the alphabet decodes, into no more bytes than characters, and encodes back to itself |
| Base58.HundredBytes | src/base58.rs:36-39 | 256^100 is at most 58^138 |
| Base58.BoundSuffices | src/base58.rs:36-39 | n * 138 / 100 + 1 characters suffice for any n bytes |
| Numerals.Base58Letters | src/base58.rs:12-12 | The digits are the alphabet in its order |
| Numerals.Base58IsNumeral | src/base58.rs:43-85 | A text is a `1` for each zero byte in front, and the numeral in base 58, without leading zeros, of the big-endian number the other bytes are |
| BitGroups.ConvertBits | src/bech32.rs:122-151 | The accumulator loop regroups the string of bits, with its padding and overflow rules, to a sink of any room |
| BitGroups.RegroupsBack | src/bech32.rs:122-151 | Regrouping wide values into narrow ones with padding, and back without, is the identity |
| BitGroups.RegroupsOnlyBack | src/bech32.rs:122-151 | Narrow values are accepted back only if they are what regrouping their result gives |
| Numerals.SymbolsAreNumber | src/bech32.rs:122-151 | Bytes regrouped by five bits are the same number, times a power of two below 32 for the zero bits at the end |
| Polymod.StepAdds | src/bech32.rs:155-171 | The checksum step is linear over GF(2), for bech32 and CashAddr |
| Polymod.StepSeparates | src/bech32.rs:155-171 | The step is injective on registers |
| Polymod.SubstitutionTells | src/bech32.rs:155-171 | One symbol replaced anywhere leaves a different register at the end |
| Polymod.OnlyChecksum | src/bech32.rs:206-212 | The checksum symbols bring the register to its goal, and no other symbols do |
| SliceWriters.SliceWriter.PushSlice | src/bech32.rs:108-116 | Appends when there is room, and changes nothing when there is not |
| Bech32.EncodeRaw | src/bech32.rs:188-215 | Writes the string when it fits, and fails exactly when it does not |
| Bech32.ParseText | src/bech32.rs:220-243 | Parsing is its specification, in the order of its checks |
| Bech32.ParseInvertsEncode | src/bech32.rs:188-243 | What parsing an encoded string gives, in every case: its parts, or the refusal of mixed case or of an empty human-readable part |
| Bech32.EncodeInvertsParse | src/bech32.rs:188-243 | Every string that parses is, up to case, the encoding of its parts |
| Bech32.DecodeInvertsEncode | src/bech32.rs:262-279 | Payloads come back from strings with a lower-case human-readable part |
| Bech32.EncodeInvertsDecode | src/bech32.rs:262-279 | Every string that decodes is, up to case, the string of what it decodes to |
| Bech32.SubstitutionIsDetected | src/bech32.rs:220-243 | One data symbol replaced by another never verifies under the same variant |
| Segwit.EncodeAddress | src/bech32.rs:296-309 | Refuses what the program rules refuse, and otherwise writes the address when it fits |
| Segwit.DecodeAddress | src/bech32.rs:314-346 | Decoding is its specification, in the order of its checks |
| Segwit.DecodeInvertsEncode | src/bech32.rs:296-346 | Every witness program an address can be made of is decoded from it |
| Segwit.EncodeInvertsDecode | src/bech32.rs:296-346 | Every address that decodes is, up to case, the address of its program |
| VariantGap.SubstitutionStays | src/bech32.rs:155-212 | One symbol replaced by another, with up to 72 symbols after it, never makes up for the difference between the constants of the two variants |
| Bech32.ShortSubstitutionIsRefused | src/bech32.rs:220-243 | One data symbol replaced by another never verifies under either variant, in strings of up to 72 characters after it |
| Segwit.SubstitutionIsRefused | src/bech32.rs:314-346 | One wrong character anywhere in a valid address is always noticed, be it in the prefix, the separator, the version or the data, and whatever it is replaced by, other than the same letter in another case |
| LetterCase.SegwitInEitherCase | src/bech32.rs:220-346 | An address decodes the same in upper and in lower case |
| LetterCase.MixedIsRefused | src/bech32.rs:220-346 | With letters of both cases in it, it is refused as such |
| CashAddr.EncodeAddress | src/bech32.rs:436-468 | Refuses hash lengths without a size, and otherwise writes the address when it fits |
| CashAddr.DecodeAddress | src/bech32.rs:473-522 | Decoding is its specification, in the order of its checks |
| CashAddr.DecodeInvertsEncode | src/bech32.rs:436-522 | What decoding an address gives, in every case: hash and type, or the refusal of its prefix or of a type whose top bit shows |
| CashAddr.EncodeInvertsDecode | src/bech32.rs:436-522 | Every address that decodes is, up to case, the address of its hash, of a type below 16, with its prefix or without |
| CashAddr.SubstitutionIsRefused | src/bech32.rs:473-522 | One wrong character anywhere is always noticed, in addresses with their prefix or without; a colon lost or gained, if the prefix is not itself spelled in the alphabet |
| LetterCase.CashAddrInAnyCase | src/bech32.rs:473-522 | An address decodes the same in whatever case |
| LetterCase.PrefixMayBeLeftOut | src/bech32.rs:473-522 | And without its prefix as with it |
| Checksums.GeneratorRows | src/bech32.rs:155-391 | Each bit of the top symbol adds its row of the published generators, of BIP-173 and of CashAddr |
| Checksums.LowPartShifts | src/bech32.rs:155-391 | Below the top symbol a step shifts the register by one symbol and takes the new one in: with linearity and the rows, the whole step |
| Checksums.LettersInOrder | src/bech32.rs:15-15 | The letters stand for 0 to 31 in the order of BIP-173 |
| Checksums.VersionDecidesConstant | src/bech32.rs:314-346 | A decoded segwit address ends on the constant 1 if its version is 0, and on that of BIP-350 otherwise |
| Checksums.SegwitInOrder | src/bech32.rs:296-309 | An address is the human-readable part, a `1`, and the letters of the version, of the program by five bits, and of six symbols that bring the register to the constant of its version |
| Checksums.ProgramRules | src/bech32.rs:283-291 | Which versions and lengths of witness programs have addresses |
| Checksums.CashAddrInOrder | src/bech32.rs:436-468 | An address is the prefix, one colon, and the letters of the version byte and the hash by five bits, and of eight symbols that bring the register to 1 |
| Checksums.SizesByRule | src/bech32.rs:406-431 | Hash sizes run from 20 by fours and from 32 by eights, and no other length has an address |
| Script.PushReadsBack | src/pushbytes.rs:36-113 | A push in its shortest form is read back from the front of whatever follows |
| Templates.ReadTemplate | src/psbt/finalize.rs:97-124 | The parser and its callback over pushes are the specification |
| Templates.TemplateInvertsScript | src/psbt/finalize.rs:97-124 | It recognises exactly the P2PKH, P2PK and multisig scripts: pushes in any but the direct form, or anything between them, are refused |
| Templates.TapTemplateInvertsScript | src/psbt/finalize.rs:157-184 | It recognises exactly the scripts of 1 to 18 keys with a threshold they can reach |
| Satisfy.Builder.Push | src/psbt/finalize.rs:28-31 | Appends an item; there must be room |
| Satisfy.SatisfyTemplate | src/psbt/finalize.rs:127-152 | Builds the specification's stack, of at most 17 items |
| Satisfy.EmbeddedMatches | src/psbt/finalize.rs:136-149 | CHECKMULTISIG's greedy matching succeeds whenever the signatures match some of the keys in order |
| Satisfy.SatisfiedAccepts | src/psbt/finalize.rs:127-152 | The script of every template accepts the stack built for it and leaves only the verdict, if stored signatures are good |
| Satisfy.SatisfiedWhenSigned | src/psbt/finalize.rs:136-149 | A multisig is satisfied exactly when enough of its keys have signed |
| TapSatisfy.PushChosen | src/psbt/finalize.rs:212-233 | The two loops push one entry a key, the last key's first, and tell whether enough have signed |
| TapSatisfy.ChosenAligned | src/psbt/finalize.rs:212-233 | Every entry is empty or good for its key, and exactly the threshold are signatures |
| TapSatisfy.TapScriptAccepts | src/psbt/finalize.rs:157-237 | CHECKSIG, CHECKSIGADD and NUMEQUAL accept any such entries |
| TapSatisfy.BestIsShortest | src/psbt/finalize.rs:189-237 | The witness is of the first leaf among those with a witness and the shortest control block; there is none only if no leaf has one |
| TapSatisfy.LeafAccepts | src/psbt/finalize.rs:189-237 | The leaf of a witness accepts it |
| Finalize.BuildFinal | src/psbt/finalize.rs:244-285 | Builds the specification's stacks, of at most 20 items each, or fails as looking up the input or resolving the output does |
| Finalize.FinalizedSpends | src/psbt/finalize.rs:244-285 | Whatever is finalized spends its output under the interpreter, leaving nothing over: bare, P2SH, P2WSH and nested scripts, P2WPKH, and taproot by key and by script |
| Acceptance.MatchesExactly | src/psbt/finalize.rs:127-150 | The search of CHECKMULTISIG for keys, greedy from the last on, succeeds exactly if the signatures can be given keys they are good for, in order |
| Acceptance.ScriptAcceptsExactly | src/psbt/finalize.rs:97-150 | The interpreter accepts, of all stacks, exactly those that open a standard script: key and signature of the hash, signature of the key, or an empty item and as many signatures as it takes, in the order of the keys |
| Acceptance.TapScriptAcceptsExactly | src/psbt/finalize.rs:153-240 | And for a tapscript of keys exactly the stacks with one entry a key, the first key's on top, empty or good for it, with as many not empty as the threshold |
| Acceptance.KeyHashSpent | src/psbt/finalize.rs:244-285 | Under the interpreter a key hash is spent exactly by a good signature and its key, of that hash, in the witness |
| Acceptance.ScriptHashSpent | src/psbt/finalize.rs:244-285 | A script hash, with a standard script on top, exactly by the stacks that open it, if the hash is its hash |
| Acceptance.LeafSpent | src/psbt/finalize.rs:189-285 | And a taproot output by a tapscript of keys exactly if the control block proves it a leaf and the stack opens it |
| Completeness.ScriptBytes | src/psbt/finalize.rs:97-124 | The three standard scripts, byte by byte |
| Completeness.KeyHashFinalized | src/psbt/finalize.rs:244-285 | An output that asks for a key hash, bare or in P2SH, is finalized exactly when a key of that hash has signed, and then with such a signature and its key |
| Completeness.WitnessScriptFinalized | src/psbt/finalize.rs:244-285 | One that asks for a witness script, exactly when the script is standard and has been signed: by its key, a key of its hash, or as many of its keys as it takes |
| Completeness.LegacyFinalized | src/psbt/finalize.rs:244-285 | And one that asks for any other script, with its funding transaction, exactly in the same cases |
| Completeness.TaprootFinalized | src/psbt/finalize.rs:189-285 | A taproot output is finalized exactly when its key has signed, or some leaf that it commits to has signatures enough; a signature of the key goes first |
| Completeness.RefusedExactly | src/psbt/finalize.rs:97-285 | An input is refused exactly when it is not there, or what it lacks or has wrong is as described by its records and the output script |
| StackLayout.PushByPosition | src/pushbytes.rs:8-48 | A push has its length in the opcode up to 75, and otherwise after one of three opcodes, in the fewest bytes |
| StackLayout.TapScriptByPosition | src/psbt/finalize.rs:157-187 | Key i of a tapscript stands at 34i, with CHECKSIG after the first and CHECKSIGADD after the others, and the threshold and NUMEQUAL at the end |
| StackLayout.SatisfiedByPosition | src/psbt/finalize.rs:127-150 | What stands where: signature and key, signature, or an empty item and the signature of each key that signed, in the order of the keys, until there are enough |
| StackLayout.FinalByPosition | src/psbt/finalize.rs:244-285 | That stack goes in the scriptSig, or in the witness with the script on top |
| StackLayout.LeafWitnessByPosition | src/psbt/finalize.rs:189-240 | In the witness of a leaf, script and control block are on top, and below them key by key, the first key next to them, a signature of that leaf or nothing |
| Base32.EncodeBase32 | src/bbqr.rs:298-307 | Words of 40 bits, five bytes at a time, give the regrouping of the whole string of bits |
| Base32.DecodeBase32 | src/bbqr.rs:332-356 | And back: the bits left over must be zero, and fewer than five |
| Bbqr.HeaderReadsBack | src/bbqr.rs:212-261 | A header is read back from the front of whatever follows |
| Bbqr.EncodePart | src/bbqr.rs:286-310 | The part codec writes the specification's text, or fails as it does |
| Bbqr.DecodePart | src/bbqr.rs:315-360 | The part codec reads what the specification reads, or fails as it does |
| Bbqr.EncodedLenIsExact | src/bbqr.rs:265-270 | The length computed beforehand is the length written |
| Bbqr.DecodeInvertsEncode | src/bbqr.rs:286-360 | Decoding an encoded part gives back its header and data |
| Bbqr.EncodeInvertsDecode | src/bbqr.rs:286-360 | Encoding a decoded part gives its text in upper case |
| LetterCase.PartInAnyCase | src/bbqr.rs:193-366 | A part decodes, or does not, in whatever case, and to the same |
| Numerals.HeaderByPosition | src/bbqr.rs:243-262 | A header is `B$`, encoding, file type, and number and index of the part in two digits of base 36 each |
| Numerals.BbqrDigits | src/bbqr.rs:56-250 | The digits of base32 and of base 36 are their alphabets in order |
| Numerals.HexByPosition | src/bbqr.rs:286-330 | Byte i stands at 2i as two hexadecimal digits, the high one first |
| Joiner.SplitRawParts | src/bbqr.rs:456-503 | The loop cuts as the specification does |
| Joiner.CutIsFewestAndEven | src/bbqr.rs:462-481 | After evening out, the parts are still as few as their length allows, and no fewer groups in each give as few |
| Joiner.PartsAreShort | src/bbqr.rs:456-503 | No part is longer than asked |
| Joiner.Joiner.Receive | src/bbqr.rs:594-623 | The object's new state and result are those of the specification; its counters stay exact and its limit kept |
| Joiner.Joiner.Finish | src/bbqr.rs:627-640 | Puts the parts together in order, and decompresses them if it has to |
| Joiner.ReceivedKeeps | src/bbqr.rs:594-623 | An error changes nothing, what is known stays known, and the result tells whether all parts are |
| Joiner.JoinInvertsSplit | src/bbqr.rs:456-640 | Any stream of all the parts, in any order and with repetitions, is joined into the data that was cut |
| Joiner.LackingIsIncomplete | src/bbqr.rs:587-589 | A joiner that lacks a part is not complete |
| Joiner.FileGoesThrough | src/bbqr.rs:430-437 | A file comes back whole, compressed or not, as long as decompression undoes compression |
| JoinerStrangers.FirstPart | src/bbqr.rs:594-623 | The first part decides encoding, file type and number of parts, and is recorded at its index, unless it alone is over the limit |
| JoinerStrangers.LaterPart | src/bbqr.rs:594-623 | What becomes of any later part: refused if of another file or in conflict with what is known, ignored if known, refused if over the limit, and otherwise recorded, and nothing else |
| JoinerStrangers.StraysLeaveNoTrace | src/bbqr.rs:594-623 | Texts that are no parts, and parts of files of another encoding, type or number, leave no trace |
| JoinerStrangers.JoinAmongStrays | src/bbqr.rs:594-640 | All the parts of a file, in any order, with such texts between them, are joined into the data that was cut |
| Sighash.UnifiedCommits | src/btcraw.rs:714-815 | Two unified preimages are equal exactly when hash type, script type and everything that hash type covers are, unless the hash collides on what was hashed |
| Sighash.TaprootCommits | src/btcraw.rs:574-655 | The same of BIP-341 preimages |
| SighashOf.TaprootMidstate | src/btcraw.rs:200-232 | The streamed aggregates are those of the whole lists |
| SighashOf.WriteUnified | src/btcraw.rs:714-815 | The streaming writer writes the preimage of what is committed to, or fails as the specification does |
| SighashOf.WriteTaproot | src/btcraw.rs:574-655 | The same for BIP-341 |
| SighashOf.UnifiedSignaturesCommit | src/btcraw.rs:714-815 | For any two inputs of any two transactions with equal preimages: which fields must be equal under which hash type |
| SighashOf.TaprootSignaturesCommit | src/btcraw.rs:574-655 | The same for equal BIP-341 preimages |
| SighashOf.KeyPathShortcut | src/btcraw.rs:438-479 | The 175 bytes of the key-path shortcut are the general preimage |
| SighashOf.ScriptPathShortcut | src/btcraw.rs:483-496 | And those of the script-path shortcut, with its extension of 37 bytes |
| SighashLayout.InputsByPosition | src/btcraw.rs:83-227 | In the list of outpoints, input i stands at 36i: its transaction id last byte first, and its output number; sequence number i stands at 4i |
| SighashLayout.AmountsByPosition | src/btcraw.rs:200-212 | Amount i stands at 8i |
| SighashLayout.ScriptsByPosition | src/btcraw.rs:200-212 | Scripts stand one after the other, each after its CompactSize |
| SighashLayout.OutputsByPosition | src/btcraw.rs:90-94 | Outputs stand one after the other: amount, CompactSize, script |
| SighashLayout.TaprootByPosition | src/btcraw.rs:574-652 | Every byte of a BIP-341 preimage by position, for each hash type: epoch, hash type, version, lock time, the hashes over inputs and outputs, spend type, the input signed, annex, single output and leaf, and its length |
| SighashLayout.UnifiedByPosition | src/btcraw.rs:714-818 | The same for the unified hash, with the fifth byte of the lock time, the script type, and the script after the input |
| SighashLayout.HashTypes | src/btcraw.rs:582-712 | The hash types accepted, listed: seven of BIP-341, six unified ones for taproot, and any with bit 0x20 for other scripts |
| SighashLayout.HashedExactly | src/btcraw.rs:574-756 | There is a signature hash exactly if the hash type is one of those, the input exists, an annex starts with 0x50, and signing a single output there is one of that index |
| Protobuf.TakeVarint | src/trontx.rs:121-140 | The shifting loop reads the varint of the specification, of ten bytes and 64 bits at most, with its errors |
| Protobuf.Read64 | src/trontx.rs:65-140 | Every 64-bit number is read back from the front of whatever follows its varint |
| Protobuf.ReadFields | src/trontx.rs:143-152 | The loop over the fields of a message is the fold of its step over them, up to the first error of a tag or a field |
| TronTx.Parse | src/trontx.rs:592-668 | The loop over the fields of the raw data, and the two nested messages, are the specification, errors included |
| TronTx.EncodeSigned | src/trontx.rs:561-576 | The signed transaction is the raw data and its signatures, each in its field |
| TronTx.TransactionLenIsExact | src/trontx.rs:697-699 | The length computed beforehand is the length written, for any raw data and any number of signatures |
| TronRoundTrip.InterpretReadsBack | src/trontx.rs:333-436 | The message of every contract is read back as that contract, with zeros and empty fields left out |
| TronRoundTrip.ContractReadsBack | src/trontx.rs:359-366 | So is the contract around it, three messages deep |
| TronRoundTrip.ParseIsExact | src/trontx.rs:503-668 | Bytes parse to a transaction exactly when they are its own, its integers are in range, and no known contract is passed off as another: everything else is refused, unless the hash collides on the two byte strings compared |
| TronRoundTrip.RawDataIsInjective | src/trontx.rs:503-512 | Different transactions are signed as different bytes |
| TronLayout.ContractNames | src/trontx.rs:217-330 | The type numbers 1, 2 and 31, and the three type URLs, spelled out |
| TronLayout.ParameterByFields | src/trontx.rs:333-357 | The fields of each contract, by their tag bytes and in order |
| TronLayout.ContractByFields | src/trontx.rs:359-368 | Type number, the `Any` of URL and parameter, and permission, by their tag bytes |
| TronLayout.RawDataByFields | src/trontx.rs:503-525 | The seven fields of what is signed, by their tag bytes and in order, each left out when it is the default |
| TronLayout.TransactionByFields | src/trontx.rs:705-717 | The raw data and then each signature, by their tag bytes |
| TronLayout.VarintByDigits | src/trontx.rs:65-75 | A varint has seven bits a byte, low bits first, the high bit on all but the last, and no needless byte |
| Multiasset.GroupAssets | src/cardanotx.rs:126-146 | The grouping loop is its specification, up to the first total that overflows |
| Multiasset.GroupedConserves | src/cardanotx.rs:126-146 | Grouping fails exactly when the total of some token outgrows 64 bits, and otherwise keeps the total of every policy and name |
| MultiassetCbor.GroupsEncodeAlike | src/cardanotx.rs:147-157 | Groups that hold the same totals are encoded the same, whatever the order of policies and names |
| MultiassetCbor.CanonPolicies | src/cardanotx.rs:147-157 | The map in canonical order is that of groups that hold the same totals |
| Flatten.FlattenAssets | src/cardanotx.rs:431-450 | The nested loops and the sort are the specification |
| Flatten.SortOrders | src/cardanotx.rs:444-448 | Assets come out by policy, then by name, none lost and none made up |
| Flatten.TokensReadBack | src/cardanotx.rs:126-450 | What is flattened from a decoded map has every total of the groups that were written, and is grouped and encoded as they were |
| CardanoTx.Write | src/cardanotx.rs:175-330 | Building the body, with its errors in order, and writing the transaction are the specification |
| CardanoTx.Read | src/cardanotx.rs:335-450 | Reading is the specification: which parts may be missing, and what is refused |
| CardanoRoundTrip.ReencodingIsIdentical | src/cardanotx.rs:175-450 | Every transaction written is read back, with inputs, addresses, amounts, fee, time to live and witnesses as they were and every token total kept, and is written again as the same bytes |
| CardanoRoundTrip.BalancesDecideOutput | src/cardanotx.rs:126-210 | An output is written the same for the same token totals, however they are split up and ordered |
| CardanoLayout.InputByBytes | src/cardanotx.rs:175-200 | An input is an array of the 32-byte id and the number of the output |
| CardanoLayout.OutputByBytes | src/cardanotx.rs:162-200 | An output is an array of the address and the amount, or of the address and an array of amount and tokens |
| CardanoLayout.TokenByBytes | src/cardanotx.rs:126-160 | A single token is a map from its policy to a map from its name to its amount |
| CardanoLayout.BodyByBytes | src/cardanotx.rs:175-210 | The body is a map of inputs under 0, outputs under 1, fee under 2, and time to live under 3 unless zero, in this order |
| CardanoLayout.WitnessesByBytes | src/cardanotx.rs:301-318 | The witness set is an empty map, or the witnesses under 0 |
| CardanoLayout.WitnessByBytes | src/cardanotx.rs:301-318 | A witness is an array of public key and signature |
| CardanoLayout.TransactionByBytes | src/cardanotx.rs:321-332 | The transaction is an array of the body, the witness set, true and null |
| CardanoForms.WrittenExactly | src/cardanotx.rs:126-330 | A transaction is written exactly if it has inputs, of 32 bytes each, and outputs, each with an address and no token total above 64 bits; otherwise which error comes first |
| CardanoForms.ReadExactly | src/cardanotx.rs:335-425 | Bytes are read as a transaction exactly if the first two items of an array stand for it: the first entry under each key, other entries ignored, a missing list empty and a missing number zero |
| CardanoForms.TokensRead | src/cardanotx.rs:427-450 | Tokens are read exactly from maps of numbers under names under policies, in the order of policy and name, and entries for one token in the order of the map |
| CardanoDerive.Add28Mul8 | src/cardano_derive.rs:375-389 | The carry loops compute x + 8 * y over the low 28 bytes of y, modulo 2^256 |
| CardanoDerive.Add256 | src/cardano_derive.rs:392-401 | The carry loop adds modulo 2^256 |
| CardanoDerive.ClampedScalar | src/cardano_derive.rs:333-337 | A clamped root scalar is a multiple of 8 from 2^254 up to 2^254 + 2^253 |
| CardanoDerive.DerivePath | src/cardano_derive.rs:171-225 | The loop derives the descendant of the specification |
| CardanoDerive.ScalarsStayBelow | src/cardano_derive.rs:171-225 | Along any path of up to 2^26 steps from a root, scalars stay multiples of 8 below 2^255, so none wraps |
| CardanoDerive.PublicPathAgrees | src/cardano_derive.rs:288-316 | Over every soft path, deriving the extended public key gives the extended public key of the derived private key |
| CardanoDerive.HardenedIsRefused | src/cardano_derive.rs:288-316 | No path with a hardened step can be derived from a public key |
| CardanoInputs.InputsByPosition | src/cardano_derive.rs:171-196 | The HMAC inputs of a hardened child are tags 0 and 1, scalar, nonce and index; those of a soft child tags 2 and 3, public key and index; the index little-endian at the end |
| CardanoInputs.InputsDiffer | src/cardano_derive.rs:171-196 | No two children of a key share an HMAC input, and no child uses one twice |
| CardanoInputs.KeysDiffer | src/cardano_derive.rs:171-196 | Hardened children of keys with another scalar or nonce have other inputs |
| CardanoInputs.ChildByPosition | src/cardano_derive.rs:171-215 | The child: scalar plus 8 times the first 28 bytes of one output, nonce plus its last 32, both modulo 2^256, and the last half of the other output as chain code |
| CardanoInputs.PublicChildByPosition | src/cardano_derive.rs:288-307 | A public child: the point moved by 8 times the first 28 bytes of the one output, and the last half of the other |
| CardanoInputs.PathsCompose | src/cardano_derive.rs:219-225 | A path is walked from its front: down one and then another is down both |
| Blake2b.Stream.Update | src/hash.rs:221-236 | Whatever pieces data comes in, the state is that of the blocks before the buffer, and the buffer holds the rest |
| Blake2b.Stream.Finalize | src/hash.rs:239-247 | The digest is that of the whole message |
| Blake2b.HashInPieces | src/hash.rs:221-247 | Hashing a message in any pieces gives the hash of their concatenation |
| Blake2bTrace.HashByCalls | src/hash.rs:221-253 | The compression calls for a message, as RFC 7693 has them: every full block that others follow, counted and not last, and then the last one, padded and marked |
| Blake2bTrace.DigestByPosition | src/hash.rs:238-253 | The digest is the words of the state, little-endian |
| Bytewords.DelayLine.Push | src/bcur/bytewords.rs:145-153 | Bytes leave the line four late, for the buffer and the checksum; it fails exactly when the buffer is full |
| Bytewords.DecodeToSlice | src/bcur/bytewords.rs:138-187 | Decoding is its specification: which of the possible errors comes first, and what is written |
| Bytewords.EncodeToSlice | src/bcur/bytewords.rs:91-117 | The loop writes the words of the data and its checksum when they fit, and fails exactly when they do not |
| Bytewords.CaseDoesNotCount | src/bcur/bytewords.rs:138-187 | Decoding ignores the case of letters |
| Bytewords.DecodeInvertsEncode | src/bcur/bytewords.rs:91-187 | Data comes back from its words |
| Bytewords.EncodeInvertsDecode | src/bcur/bytewords.rs:91-187 | A text that decodes is, up to case, the encoding of its data |

## Left out

- Rounding of the sampler's floating-point numbers, the Xoshiro256 generator that feeds it, and the decoder's cache of one table: weights are exact reals and draws a parameter.
- Updates of a fragment in place while it is XORed: fragments are values.
- Taproot output keys: tweaking is a parameter, of which only the parity bit being 0 or 1 is used.
- The writers that fill a caller's buffer in `src/bbqr.rs` and `src/rlp.rs`: what is written is a value, and only its length is compared with the room.
- The closures that `convert_bits` hands its output to: the model collects what they are given, up to the room they have, and then does with it what they do.
- Script numbers of more than one byte, opcodes outside the templates, OP_CODESEPARATOR, leaf versions other than tapscript's, annexes on input, resource limits and minimality rules: the interpreter of `Script` and `Finalize` refuses or ignores them.
- Reading a PSBT and writing the finalized one back: an input is its records, and the output it spends is given.
- The legacy and BIP-143 signature hashes, and the tag and final hash around a preimage.
- Key sizes, encodings and arithmetic of Ed25519: multiplying the base point is a parameter that adds up where a statement says so.
- The insides of the compression function of BLAKE2b, and the parameter block that starts it.
- The list of bytewords itself: it is a parameter whose words are told apart by their first and last letters.
- Single-part URs written to a caller's buffer, and payloads wrapped as CBOR byte strings (`src/bcur/mod.rs`).
- Which byte strings are UTF-8, in a Tron type URL: a parameter that accepts ASCII.
- Signing Cardano transactions and verifying their witnesses: hashing the body and appending what a signer returns.
- Zcash transactions (`src/zcashtx.rs`), transaction signing and sizes (`src/btctx.rs`), and the sums of `src/reward.rs`.
- CborForms.SplitIsExact: only for data shorter than 2^64 bytes, as any in memory is.
- CborForms.ScanIsExact: only for data shorter than 2^64 bytes, as any in memory is.
- CborScan.ChecksRefuseNoItem: only for data shorter than 2^64 bytes, as any in memory is.
- CardanoDerive.PublicPathAgrees: assumes that adding a multiple of the base point to another gives the multiple of the sum, for sums that do not wrap.
