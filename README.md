# Airdrop snapshot and Merkle pipeline, modelled in Dafny

This project models the scripts of the Matters airdrop repository.

- **Snapshot scripts** turn on-chain data into *sources*. Each source is one JSON file with a category, a timestamp and an `airdrop` object from address to token amount. There are five snapshot scripts: collection owners, token owners, tokens, transfers and POAP holders. Two older scrapers also produce sources.
- **`putJSONFile`** writes every file. It merges the new fields over whatever record the file held before.
- **Summing.** The airdrops are summed per address, and each address's proof file gets one field per category.
- **Merkle tree.** The `Generator` checksums the addresses and scales the amounts by the token's decimals. It builds a sorted-pair keccak256 Merkle tree over the packed `(address, uint256)` leaves and writes the root with every recipient's proof.
- **Analytics.** Two scripts summarise the proofs and the sources.

The model has these parts:

- **`Dicts`** (a JavaScript object as an ordered dictionary): `obj[k] = v` moves no existing key, and `Object.keys` order is insertion order.
- **`Json`**: JSON values.
- **`Store`** (the file system as a map from path to record): `FileStore` is a class whose `files` field the writing methods update.
- **`Text`**: the string operations.
- **`Eth`**: ethers' `getAddress` (EIP-55), hex encoding and `solidityPack`.
- **`Units`**: ethers' `parseUnits`.
- **`MerkleTree`**: merkletreejs with `sortPairs`.
- **The two `sum` functions**: `Totals` and `MerkleSum`.
- **`Generator`**: a class around `Recipient` objects whose proofs it attaches in place.
- **`Snapshot`**: the map-building loops every snapshot shares, and the config update.
- **One module per script**: `Transfers`, `CollectionOwners`, `TokenSnapshot`, `TokenOwners`, `Poap`, `PoapOwners`, `TokenScraper`, `PoapScraper`, `Listing`, `Counts` and `AddressesReport`.

How the scripts are modelled:

- Each script's loop over its configured keys is a `Run` method for one key. `Run` changes the store and states the files it leaves.
- Loops in the source are `while`/`for` loops here. Each is proved equal to a specification function, and the properties are lemmas about that function.
- keccak256 is a parameter (`Keccak = Bytes -> Digest`). Nothing is required of it beyond its 32-byte output.
- Data fetched from Alchemy or The Graph are parameters of `Run`: owners, transfers and token holders. So are the directory listing and the `createdAt` timestamp.
- Every thrown error or `throwErrorAndExit` becomes a `Failure` or an `Option<Error>` result, never a precondition.

## Model

| member | source | states |
|---|---|---|
| Wrappers.MapResult | scripts/utils/generator.ts:28-36 | a loop whose body may throw gives, when it completes, one result per input |
| Wrappers.MapResultSuccess | scripts/utils/generator.ts:28-36 | such a loop completes exactly when every single call does, and then holds the calls' results in input order |
| Wrappers.MapResultFailure | scripts/utils/generator.ts:28-36 | when it stops, the error is that of the first call that fails |
| Dicts.UniqMembers | scripts/snapshots/transfers.ts:94 | `_.uniq` keeps exactly the elements of its input, each once |
| Dicts.UniqSnoc | scripts/snapshots/transfers.ts:94 | appending x to the input of `_.uniq` appends x to its output unless x was already there |
| Dicts.UniqOfDistinct | scripts/snapshots/transfers.ts:94 | `_.uniq` of a list without repeats is that list |
| Dicts.SetKeys | scripts/utils/sum.ts:11-15 | after a run of assignments from `{}`, `Object.keys` is `_.uniq` of the assigned keys |
| Dicts.OverwritesSnoc | scripts/scrapers/tokens.ts:31-33 | one more assignment at the end of a run is one more `obj[k] = v` on its result |
| Dicts.OverwritesMeaning | scripts/scrapers/tokens.ts:30-33 | a run of assignments keeps each key once, in order of first assignment, with the last value assigned to it, and no other key |
| Dicts.LastValueAt | scripts/scrapers/tokens.ts:30-33 | a key has a last value exactly when some pair assigns it, and that value comes from a pair that no later pair with the key overrides |
| Text.NatToString | scripts/utils/generator.ts:34 | the decimal digits of n denote n, with no leading zero |
| Text.IntToStringSign | scripts/utils/generator.ts:34 | the rendering starts with '-' exactly for negative numbers |
| Text.Split | scripts/snapshots/transfers.ts:58 | `split` with one separator character always gives at least one part |
| Text.SplitWithout | scripts/snapshots/tokenOwners.ts:29 | a string without the separator splits into itself |
| Text.SplitFirst | scripts/snapshots/tokenOwners.ts:29 | splitting at the first separator gives the text before it, then the parts of the rest |
| Text.BeforeFirst | scripts/analytics/addresses.ts:33 | `s.split(pat)[0]` is a prefix of s, and all of s when pat does not occur |
| Text.ParseInt | scripts/snapshots/transfers.ts:59-60 | `parseInt(s, 10)` skips leading white space, then reads an optional sign and the longest run of digits, NaN when there is none (proved in Text.LeadingDigits, Text.ParseSigned and Text.ParseIntOfIntToString) |
| Text.LeadingDigits | scripts/snapshots/transfers.ts:59-60 | the digits `parseInt` reads are the longest all-digit prefix |
| Text.ParseSigned | scripts/snapshots/transfers.ts:59-60 | `parseInt` is NaN exactly when no digit follows the optional sign |
| Text.ParseIntOfIntToString | scripts/snapshots/transfers.ts:59-60 | `parseInt` reads back every integer `String(n)` writes |
| Eth.ChecksumOfLower | scripts/utils/generator.ts:32 | the EIP-55 checksum of 40 lower-case digits is a "0x" string of 42 characters |
| Eth.GetAddress | scripts/utils/generator.ts:32 | `getAddress` on hex input: the EIP-55 checksum of the 40 digits, or the error of the first failing test (its meaning is Eth.GetAddressSpec) |
| Eth.GetAddressSpec | scripts/utils/generator.ts:32 | the model of `getAddress` accepts 40 hex digits after an optional "0x" (mixed-case input only when it is already the checksum), returns the EIP-55 checksum of their lower case, and otherwise fails with the matching error; ICAP input is not modelled |
| Eth.GetAddressIdempotent | scripts/utils/generator.ts:32 | a checksummed address is returned unchanged |
| Eth.GetAddressIgnoresCase | scripts/snapshots/transfers.ts:41 | two accepted inputs that agree up to letter case give the same address |
| Eth.GetAddressAcceptsLowerCase | scripts/snapshots/transfers.ts:41-45 | any 40 lower-case hex digits, the zero address among them, are accepted |
| Eth.Hex | scripts/utils/generator.ts:66 | `getHexRoot`/`getHexProof` text is "0x" and two digits per byte |
| Eth.HexDecode | scripts/utils/generator.ts:48 | `arrayify` of hex data gives one byte per two digits |
| Eth.HexRoundTrip | scripts/utils/generator.ts:48 | decoding the hex text of a buffer gives the buffer back |
| Eth.HexIsHexData | scripts/utils/generator.ts:66 | the hex text of a buffer is well-formed hex data |
| Eth.HexDigitAt | scripts/utils/generator.ts:66 | digit j of the hex text is the high or the low nibble of byte j/2 |
| Eth.HexByteAt | scripts/utils/generator.ts:66 | byte i is written as its high nibble then its low nibble |
| Eth.AddressBytesLength | scripts/utils/generator.ts:48 | an address is 20 bytes of hex data |
| Eth.BigEndian | scripts/utils/generator.ts:48 | the big-endian encoding has the requested number of bytes |
| Eth.BigEndianRoundTrip | scripts/utils/generator.ts:48 | a number below 256^n is recovered from its n big-endian bytes |
| Eth.Uint256Word | scripts/utils/generator.ts:48 | an accepted uint256 is packed into one 32-byte word |
| Eth.PackAddressUint256 | scripts/utils/generator.ts:48 | `solidityPack(['address', 'uint256'], …)`: the 20 address bytes then the value's 32-byte word, failing on a malformed address or a value outside 0..2^256-1 (proved in Eth.PackedEncodingInjective) |
| Eth.PackedEncodingInjective | scripts/utils/generator.ts:48 | the packed `(address, uint256)` of in-range inputs is 52 bytes and determines the address bytes and the value |
| Units.ParseUnits | scripts/utils/generator.ts:34 | `parseUnits(value, decimals)`: the decimal string scaled by 10^decimals, or the error for bad decimals, bad syntax or excess precision (proved in Units.ParseUnitsOfParts, Units.ParseUnitsOfInteger and Units.ParseUnitsRejectsExcessPrecision) |
| Units.TrimTrailingZeros | scripts/utils/generator.ts:34 | the trimmed fraction is a prefix, does not end in '0', and only zeros were dropped |
| Units.SplitPartsDigits | scripts/utils/generator.ts:34 | the parts of a digits-and-dots string are digits |
| Units.TrimmedValue | scripts/utils/generator.ts:34 | dropping trailing zeros divides the value by the matching power of ten |
| Units.ScaleExact | scripts/utils/generator.ts:34 | a fraction no longer than `decimals` scales exactly |
| Units.ParseUnitsOfParts | scripts/utils/generator.ts:34 | a well-formed number string scales to its whole and fractional parts times the power of ten, negated after a '-' |
| Units.ParseUnitsOfDigits | scripts/utils/generator.ts:34 | a signed run of digits scales to its value times 10^decimals |
| Units.ParseUnitsOfInteger | scripts/utils/generator.ts:34 | `parseUnits(tokens.toString(), decimals)` is exactly tokens × 10^decimals for every integer and every decimals in 0..256 |
| Units.UnsignedOfIntToString | scripts/utils/generator.ts:34 | the digits after the sign of `String(n)` are those of abs(n) |
| Units.ParseUnitsOfFraction | scripts/utils/generator.ts:34 | `whole.fraction` with at most `decimals` fractional digits scales exactly |
| Units.SplitDecimal | scripts/utils/generator.ts:34 | `whole.fraction` passes the syntax check and splits into its two parts |
| Units.ParseUnitsRejectsExcessPrecision | scripts/utils/generator.ts:34 | more significant fractional digits than `decimals` is an error, never a truncation |
| Store.ReadJSONFile | scripts/utils/file.ts:6-19 | a read succeeds exactly when the file exists or `ignore` is set, gives the file's record or `{}`, and otherwise fails with "missing file" |
| Store.Merge | scripts/utils/file.ts:28 | `{ ...old, ...data }` has the fields of both, data's values winning, old values kept elsewhere |
| Store.FileStore.Put | scripts/utils/file.ts:21-31 | `putJSONFile` merges data over the old record (or `{}`) at dst and returns data itself |
| Store.FileStore.Write | scripts/utils/generator.ts:78-90 | `writeFileSync` replaces the file's record |
| Store.FileStore.Remove | scripts/analytics/counts.ts:51 | `rimraf.sync` deletes the file and touches no other |
| Store.PutFile | scripts/utils/file.ts:21-31 | the files after `putJSONFile(dst, data)`: dst holds data merged over its old record or `{}` (proved in Store.PutOverrides, Store.PutKeepsOldFields and Store.PutOtherPaths) |
| Store.PutOverrides | scripts/utils/file.ts:28 | after a put, each field of data holds data's value |
| Store.PutKeepsOldFields | scripts/utils/file.ts:22-28 | a field data does not mention keeps its old value (or stays absent) |
| Store.PutOtherPaths | scripts/utils/file.ts:21-31 | a put creates or changes no file but dst |
| Store.PutThenRead | scripts/utils/file.ts:6-31 | reading back after a put finds the file with the merged record |
| Store.RemoveThenPut | scripts/analytics/counts.ts:50-57 | removing then putting leaves exactly data in the file, no old field left |
| Store.PutIdempotent | scripts/utils/file.ts:21-31 | putting the same data twice is putting it once |
| Store.PutsCommute | scripts/utils/file.ts:21-31 | puts with disjoint field sets commute, to the same file or not |
| Store.MergeCommute | scripts/utils/file.ts:28 | merges of disjoint field sets commute |
| Store.ApplyPuts | scripts/utils/file.ts:21-31 | the files after a run of `putJSONFile` calls in order (proved in Store.LastWriteWins, Store.ApplyPutsPaths and Store.ApplyPutsAppend) |
| Store.LastWriteWins | scripts/utils/file.ts:21-31 | after a run of puts each field of each file holds the value of the last put carrying it, or its old value |
| Store.ApplyPutsPaths | scripts/utils/file.ts:21-31 | a run of puts creates exactly the files it names |
| Store.ApplyPutsSnoc | scripts/utils/file.ts:21-31 | one more put at the end of a run acts on the run's result |
| Store.ApplyPutsAppend | scripts/utils/file.ts:21-31 | two runs of puts in sequence are their concatenation |
| Store.LatestWriteAt | scripts/utils/file.ts:21-31 | a put of field k with no later put of k decides k |
| Store.LatestWriteUntouched | scripts/utils/file.ts:21-31 | puts that never carry k to a file leave k as it was |
| Totals.Add | scripts/utils/sum.ts:11-15 | adding to an address grows its amount by the given amount, appends it if new, and changes no other address |
| Totals.Accumulate | scripts/utils/sum.ts:11-15 | the truthiness test on the running total adds either way: a missing or zero total is replaced by what adding to it would give |
| Totals.Sum | scripts/utils/sum.ts:4-20 | the nested loops compute the running totals over the airdrops in order |
| Totals.AddKeysOrder | scripts/utils/sum.ts:8-16 | the key order of the totals is `_.uniq` of the keys seen so far |
| Totals.AddKeysAmount | scripts/utils/sum.ts:8-16 | one airdrop adds its amount to each of its addresses once and changes no other |
| Totals.SumSpec | scripts/utils/sum.ts:4-20 | the running totals after each airdrop in turn, starting from `{}` (its meaning is Totals.SumMeaning) |
| Totals.SumMeaning | scripts/utils/sum.ts:4-20 | the result's keys are `_.uniq` of all keys in order, and every address totals its amounts over all airdrops |
| Totals.AllKeysMembers | scripts/utils/sum.ts:7-17 | an address occurs in the keys exactly when some airdrop has it |
| Totals.SumKeysAndValues | scripts/utils/sum.ts:4-20 | an address is in the result exactly when some airdrop has it, with its total; addresses are not canonicalised, so case variants stay apart |
| Totals.SumSingle | scripts/utils/sum.ts:4-20 | one airdrop sums to itself, key order included |
| Totals.TotalAppend | scripts/utils/sum.ts:4-20 | totals split over concatenated lists of airdrops |
| Totals.TotalPermutation | scripts/utils/sum.ts:4-20 | the total of an address does not depend on the order of the airdrops |
| Totals.SumPermutation | scripts/utils/sum.ts:4-20 | reordering the airdrops changes at most the key order of the result |
| MerkleSum.Sum | scripts/generate-merkle/sum.ts:13-34 | the totals are those of `Totals` over the sources' airdrops, and the store has received every source's puts in order |
| MerkleSum.SumStep | scripts/generate-merkle/sum.ts:16-31 | one more source adds its keys to the totals and appends its puts |
| MerkleSum.SumDrop | scripts/generate-merkle/sum.ts:19-30 | the inner loop adds one source's amounts and performs its puts |
| MerkleSum.AddStep | scripts/generate-merkle/sum.ts:22-26 | one address step is the guarded accumulation |
| MerkleSum.PutStep | scripts/generate-merkle/sum.ts:28-29 | one address step appends that address's put |
| MerkleSum.WritesPerPair | scripts/generate-merkle/sum.ts:16-31 | there is exactly one write per (source, address) pair |
| MerkleSum.PutsOfMembers | scripts/generate-merkle/sum.ts:28-29 | every put writes one pair's category and amount to that address's proof file |
| MerkleSum.PutsOfAppend | scripts/generate-merkle/sum.ts:16-31 | the puts of a list of sources split at any source |
| MerkleSum.ProofPathCase | scripts/generate-merkle/sum.ts:28 | two addresses share a proof file exactly when they agree up to case |
| MerkleSum.DropPutsAvoid | scripts/generate-merkle/sum.ts:28-29 | a later key of another case-folded address never writes this address's field |
| MerkleSum.PutsOfAvoid | scripts/generate-merkle/sum.ts:28-29 | sources of category c without the address in any case never write field c of its proof file |
| MerkleSum.PutsAround | scripts/generate-merkle/sum.ts:16-31 | the puts split before, at and after any source |
| MerkleSum.DropLeavesAmount | scripts/generate-merkle/sum.ts:28-29 | after one source, its address's proof file holds the address's amount when no later key of the source folds to the same case |
| MerkleSum.LaterSourcesKeep | scripts/generate-merkle/sum.ts:28-29 | sources that never carry c to the address's file keep field c as it was |
| MerkleSum.StoreHoldsLastAmount | scripts/generate-merkle/sum.ts:16-31 | after the sum, a proof file holds the amount of the last pair of its category for that address |
| MerkleSum.OtherCategoriesKept | scripts/generate-merkle/sum.ts:29 | fields that are no source's category survive in every file |
| MerkleSum.SharedCategory | scripts/generate-merkle/sum.ts:22-29 | two sources of one category: the total adds both amounts, the proof file keeps only the later one |
| MerkleSum.TwoTotals | scripts/generate-merkle/sum.ts:22-26 | the totals of two airdrops add per address |
| MerkleTree.Compare | scripts/utils/generator.ts:57-63 | `Buffer.compare` gives -1, 0 or 1 |
| MerkleTree.CompareSpec | scripts/utils/generator.ts:57-63 | the order is total: only equal buffers compare equal, and swapping flips the sign |
| MerkleTree.HashPair | scripts/utils/generator.ts:57-63 | the parent of two nodes: keccak256 of the two sorted by `Buffer.compare` and concatenated (proved in MerkleTree.HashPairSymmetric) |
| MerkleTree.HashPairSymmetric | scripts/utils/generator.ts:62 | with `sortPairs` the order of two sibling nodes does not matter |
| MerkleTree.NextLayer | scripts/utils/generator.ts:57-63 | the next layer has half the nodes (rounded up): node k hashes nodes 2k and 2k+1, and an odd last node is promoted |
| MerkleTree.Layers | scripts/utils/generator.ts:57-63 | the layers start at the leaves and end with a single root (or nothing for no leaves) |
| MerkleTree.Root | scripts/utils/generator.ts:66 | `getRoot()`: the single node of the top layer, or an empty buffer when there are no leaves (proved in MerkleTree.RootOfNextLayer and MerkleTree.ProofsVerify) |
| MerkleTree.GetProof | scripts/utils/generator.ts:73 | `getProof(leaf, index)`: the sibling of the leaf's ancestor in every layer that has one (proved in MerkleTree.ProofsVerify) |
| MerkleTree.FoldProof | scripts/utils/generator.ts:57-75 | the claim check: a leaf hashed with each proof node in turn by sorted pairs (proved in MerkleTree.ProofsVerify) |
| MerkleTree.TopLayerProof | scripts/utils/generator.ts:73 | the top layer contributes nothing to a proof |
| MerkleTree.RootOfNextLayer | scripts/utils/generator.ts:66 | a tree of several nodes has the root of its next layer |
| MerkleTree.FirstStep | scripts/utils/generator.ts:73 | a leaf's first partner hashes it into its parent in the next layer |
| MerkleTree.ProofsVerify | scripts/utils/generator.ts:57-75 | every leaf's proof folds, with sorted-pair hashing, back to the root |
| MerkleTree.SingleLeaf | scripts/utils/generator.ts:57-66 | one leaf is its own root, with an empty proof |
| MerkleTree.TwoLeaves | scripts/utils/generator.ts:57-73 | two leaves hash into the root, each proved by the other |
| MerkleTree.NoLeaves | scripts/utils/generator.ts:66 | no leaves give an empty root |
| Generator.Entry | scripts/utils/generator.ts:30-35 | one airdrop entry's recipient: the checksummed address and the scaled value, or the first failing step's error (its meaning is Generator.EntrySpec) |
| Generator.RecipientsOf | scripts/utils/generator.ts:26-37 | the constructor's recipients, or the error of the first failing entry (its meaning is Generator.RecipientsSpec) |
| Generator.GenerateLeaf | scripts/utils/generator.ts:45-51 | `generateLeaf`: keccak256 of the packed (address, value) (its meaning is Generator.LeafSpec) |
| Generator.LeavesOf | scripts/utils/generator.ts:59 | the leaves of the recipients in order; the first failing leaf stops the map (proved in Generator.RecipientsLeaves) |
| Generator.Recipient.constructor | scripts/utils/generator.ts:30-35 | a recipient starts with its address and value and no proof |
| Generator.Generator.Create | scripts/utils/generator.ts:26-37 | the constructor builds one fresh recipient per entry in key order, or fails with the first entry's error |
| Generator.NewRecipients | scripts/utils/generator.ts:28-36 | the constructor's loop pushes each entry's recipient and stops at the first error |
| Generator.Generator.Process | scripts/utils/generator.ts:53-92 | the file at the output path holds the hex root and every recipient with its proof; recipients get their proofs in place; a leaf that cannot be packed stops it |
| Generator.AttachProofs | scripts/utils/generator.ts:70-75 | recipient i gets proof i, through the shared objects |
| Generator.EntrySpec | scripts/utils/generator.ts:30-35 | an entry is accepted exactly when `getAddress` accepts its key and decimals is in 0..256, and then gives the checksummed address and tokens × 10^decimals; otherwise it gives the error of the failing step |
| Generator.RecipientsSpec | scripts/utils/generator.ts:26-37 | the constructor succeeds exactly when every key is an address and the decimals are valid (or there is no entry); recipient i is then key i checksummed with its scaled amount |
| Generator.EntryOfItem | scripts/utils/generator.ts:28-35 | entry i is the i-th key checksummed with its scaled value |
| Generator.LeafSpec | scripts/utils/generator.ts:45-51 | a leaf exists exactly for hex data and a value that fits 256 bits, and is keccak256 of the packed pair |
| Generator.RecipientsLeaves | scripts/utils/generator.ts:59 | after a successful constructor every leaf exists unless a scaled amount exceeds 256 bits |
| Generator.CheckedAddressLeaf | scripts/utils/generator.ts:45-51 | a checksummed address always packs; only the value can fail |
| Generator.RecipientProofVerifies | scripts/utils/generator.ts:66-75 | the proof attached to recipient i, decoded from hex, folds recipient i's leaf to the root written |
| Snapshot.RawKeys | scripts/scrapers/poap.ts:50-52 | taking owner strings as they are never fails and changes nothing |
| Snapshot.OccurrencesPositive | scripts/snapshots/collectionOwners.ts:77-84 | an address occurs a positive number of times exactly when it is listed |
| Snapshot.Assigned | scripts/snapshots/poap.ts:51-54 | `addresses[k] = amount` for every key in turn from `{}` (its meaning is Snapshot.AssignedMeaning) |
| Snapshot.TallyStep | scripts/snapshots/collectionOwners.ts:79-83 | one guarded tally step: in cumulative mode a non-zero entry grows by amount; a missing or zero entry, or any entry outside cumulative mode, is set to amount (proved in Snapshot.TallyStepMeaning) |
| Snapshot.Tallied | scripts/snapshots/collectionOwners.ts:77-84 | the guarded tally of every key in turn from `{}` (its meaning is Snapshot.TalliedMeaning and Snapshot.TalliedNotCumulative) |
| Snapshot.AssignedSnoc | scripts/snapshots/poap.ts:52-54 | one more assignment appends one `obj[k] = amount` |
| Snapshot.TalliedSnoc | scripts/snapshots/collectionOwners.ts:77-84 | one more owner appends one guarded tally step |
| Snapshot.AssignedMeaning | scripts/snapshots/poap.ts:51-54 | assigning gives every listed key once, in order of first listing, each holding the amount |
| Snapshot.TalliedNotCumulative | scripts/snapshots/collectionOwners.ts:52-56 | outside cumulative mode the guarded tally only assigns |
| Snapshot.TalliedMeaning | scripts/snapshots/collectionOwners.ts:77-84 | the cumulative tally gives every key once, in first-listing order, holding amount × its number of occurrences, for any sign of amount |
| Snapshot.TallyStepMeaning | scripts/snapshots/collectionOwners.ts:79-83 | one cumulative step keeps that meaning |
| Snapshot.Assign | scripts/snapshots/poap.ts:51-54 | the assigning loop fails with the first rejected owner's error, and otherwise gives the assignment of the keys |
| Snapshot.Tally | scripts/snapshots/collectionOwners.ts:50-57 | the tally loop fails with the first rejected owner's error, and otherwise gives the tally of the keys |
| Snapshot.LastOwners | scripts/snapshots/collectionOwners.ts:70-73 | the token-to-owner loop is the run of assignments of those pairs |
| Snapshot.LastTransferWins | scripts/snapshots/collectionOwners.ts:70-73 | a token is a key exactly when some transfer moves it, and its owner is the `to` of its last transfer |
| Snapshot.TallyHolders | scripts/snapshots/collectionOwners.ts:70-84 | the two loops of the cumulative branch give the tally of the tokens' last owners |
| Snapshot.KeyedAssignMeaning | scripts/snapshots/poap.ts:51-54 | filing owners under getAddress succeeds exactly when every owner is accepted; each address then has the amount once, in order of its first owner |
| Snapshot.CaseVariantsCollapse | scripts/snapshots/poap.ts:53 | owners that differ only in case share one checksummed key |
| Snapshot.KeyedTallyMeaning | scripts/snapshots/collectionOwners.ts:77-84 | the keyed cumulative tally succeeds exactly when every owner is accepted, and each address then has amount × the number of owners filed under it |
| Snapshot.WithSource | scripts/snapshots/poap.ts:71-72 | the config update needs `sources` to spread (a list, or a string spread into its characters); it then replaces only `sources`, with `_.uniq` of the spread values and the new entry, and otherwise fails |
| Snapshot.Spread | scripts/snapshots/poap.ts:71 | `[...config.sources]`: an array gives its items and a string its characters, each a one-character string; any other value is not iterable |
| Snapshot.StringSourcesSpread | scripts/snapshots/poap.ts:71 | a string `sources` such as `"ab"` is spread into `["a", "b"]` before the entry is appended, and the update goes through |
| Snapshot.SourceListed | scripts/snapshots/poap.ts:71 | the new list has no repeats, holds every old entry and the new one and nothing else, and starts with the old list |
| Snapshot.ConfigUpdate | scripts/snapshots/poap.ts:69-72 | the update succeeds exactly when the config exists with `sources` that spread; a missing config is fatal; the config then holds the old config with the new sources |
| Snapshot.UpdateSources | scripts/snapshots/poap.ts:69-72 | the update method reads, extends and puts the config, or leaves every file as it was and returns the error |
| Snapshot.PublishSource | scripts/snapshots/poap.ts:65-72 | the source file is written either way, and the config only when its update goes through |
| Snapshot.PublishedOutcome | scripts/snapshots/poap.ts:65-72 | publishing merges the record into its file and lists `./<name>` in the config; no other file changes |
| Transfers.WithoutZero | scripts/snapshots/transfers.ts:43-45 | the zero address is skipped, and every other address keeps its number of occurrences |
| Transfers.CountTransfers | scripts/snapshots/transfers.ts:39-52 | the counting loop fails with the first rejected recipient's error, and otherwise tallies 1 per transfer for the non-zero recipients |
| Transfers.CountMeaning | scripts/snapshots/transfers.ts:39-52 | every non-zero recipient is counted once, in order of its first transfer, with its number of transfers |
| Transfers.FirstMatch | scripts/snapshots/transfers.ts:57-65 | the index found passes the test, and no earlier one does |
| Transfers.FirstMatchAt | scripts/snapshots/transfers.ts:57-65 | a passing index with no passing index before it is the one found |
| Transfers.GetAmountInRange | scripts/snapshots/transfers.ts:54-68 | the indexed search with early return gives the amount of the first range holding the count, or 0 |
| Transfers.AmountAt | scripts/snapshots/transfers.ts:54-68 | the search stops at the first range holding the count |
| Transfers.RangeHolds | scripts/snapshots/transfers.ts:58-62 | the per-key test splits at ':', parses both bounds, and compares |
| Transfers.InRange | scripts/snapshots/transfers.ts:58-62 | the per-key test: both bounds parsed with `parseInt`, min < count and count ≤ max, with a NaN or zero max unbounded and a NaN min never matching (proved in Transfers.BoundedRange, Transfers.EmptyMaxRange and Transfers.MissingMaxRange) |
| Transfers.AmountInRange | scripts/snapshots/transfers.ts:54-68 | the amount of the first range in key order that holds the count, or 0 (its meaning is Transfers.AmountInRangeSpec) |
| Transfers.AmountInRangeSpec | scripts/snapshots/transfers.ts:54-68 | the amount is 0 when no range holds the count, and otherwise that of a holding range with none before it |
| Transfers.BoundedRange | scripts/snapshots/transfers.ts:58-62 | `"min:max"` holds exactly for min < count ≤ max, with max 0 unbounded |
| Transfers.EmptyMaxRange | scripts/snapshots/transfers.ts:60 | `"min:"` has no upper bound |
| Transfers.MissingMaxRange | scripts/snapshots/transfers.ts:58-60 | `"min"` has no upper bound |
| Transfers.AirdropOf | scripts/snapshots/transfers.ts:71-76 | every counted address, in count order, gets the amount of its count |
| Transfers.AmountsByCount | scripts/snapshots/transfers.ts:71-76 | the pricing loop computes that airdrop |
| Transfers.Run | scripts/snapshots/transfers.ts:29-96 | one contract: a rejected recipient stops the script with nothing written; otherwise `transfer-<contract>.json` gets the airdrop and the counts and is listed in the config |
| CollectionOwners.OwnersAirdrop | scripts/snapshots/collectionOwners.ts:42-84 | the `addresses` map of one contract: the assignment of the checksummed owners outside cumulative mode, the tally of the tokens' last owners in it (its meaning is CollectionOwners.OwnersAirdropConstant and CollectionOwners.OwnersAirdropCumulative) |
| CollectionOwners.OwnersAirdropConstant | scripts/snapshots/collectionOwners.ts:42-57 | outside cumulative mode every owner's checksummed address gets the amount once, in order of first listing, and a rejected owner stops the snapshot |
| CollectionOwners.OwnersAirdropCumulative | scripts/snapshots/collectionOwners.ts:59-84 | in cumulative mode each address gets amount × the number of tokens it last received; the zero address is not filtered |
| CollectionOwners.Run | scripts/snapshots/collectionOwners.ts:36-104 | one contract: the airdrop of its mode is written to `collection-owners-<key>.json` and listed, or the first error stops it before any write |
| TokenSnapshot.PublishedAirdrop | scripts/snapshots/tokens.ts:39-59 | the outer `addresses` map as published: empty outside cumulative mode once every owner is accepted (proved in TokenSnapshot.ShadowedAirdrop) |
| TokenSnapshot.ShadowedAirdrop | scripts/snapshots/tokens.ts:39-59 | outside cumulative mode the published airdrop is empty whatever the owners; it fails exactly when the intended one does, and agrees with it in cumulative mode |
| TokenSnapshot.ShadowedAirdropWitness | scripts/snapshots/tokens.ts:50 | with the zero address as the only owner, the published airdrop is empty while the intended one gives it the amount |
| TokenSnapshot.Run | scripts/snapshots/tokens.ts:36-105 | one contract as written: the shadowed branch publishes an empty airdrop |
| TokenSnapshot.IntendedRun | scripts/snapshots/tokens.ts:36-105 | one contract without the inner declaration: the airdrop built is the one published |
| TokenOwners.SplitKey | scripts/snapshots/tokenOwners.ts:29 | `key.split(':')` destructured: the first part, and the second or undefined (proved in TokenOwners.SplitKeyParts and TokenOwners.SplitKeyWithoutColon) |
| TokenOwners.SplitKeyParts | scripts/snapshots/tokenOwners.ts:29 | a `contract:tokenId` key gives back both halves |
| TokenOwners.SplitKeyWithoutColon | scripts/snapshots/tokenOwners.ts:29 | a key without ':' is all contract, with an undefined token id |
| TokenOwners.Run | scripts/snapshots/tokenOwners.ts:27-61 | one key: every owner's checksummed address gets the amount, the file is written and listed, or a rejected owner stops it |
| Poap.Run | scripts/snapshots/poap.ts:45-73 | one event: every holder's checksummed address gets the event's amount, `poap-<id>.json` is written and listed, or a rejected holder stops it |
| PoapOwners.Run | scripts/snapshots/poapOwners.ts:46-68 | one event: as the POAP snapshot, but one put under `sources/` and nothing else written |
| PoapOwners.ConfigUntouched | scripts/snapshots/poapOwners.ts:37 | the output under `sources/` is never the config, and no other file changes |
| TokenScraper.HolderAmounts | scripts/scrapers/tokens.ts:37-45 | the cumulative tally of the owner of every token id (its meaning is TokenScraper.HolderAmountsMeaning) |
| TokenScraper.HolderAmountsMeaning | scripts/scrapers/tokens.ts:37-45 | every owner string, as fetched, gets amount × the number of tokens it last received; case variants stay apart |
| TokenScraper.Run | scripts/scrapers/tokens.ts:26-56 | one contract: the tally of the last owners is put to `token-<contract>.json`; nothing can fail and the config is not touched |
| PoapScraper.RawIdsKept | scripts/scrapers/poap.ts:50-52 | two different holder ids, even case variants, are two entries with the amount each |
| PoapScraper.Run | scripts/scrapers/poap.ts:43-64 | one event: the assignment of the raw ids is put to `poap-<id>.json`; the config is not touched |
| Listing.JsonFiles | scripts/analytics/counts.ts:20 | the filter keeps at most the listed names |
| Listing.JsonFilesMeaning | scripts/analytics/counts.ts:20-24 | a name is kept exactly when it contains ".json"; no source at all exactly when no name contains it |
| Listing.JsonFilesOrder | scripts/analytics/counts.ts:20 | the filter keeps the listing order: the kept names of two listings in a row are those of the first then those of the second, and one name is kept exactly when it contains ".json" |
| Listing.JsonFilesIdempotent | scripts/analytics/counts.ts:20 | filtering twice is filtering once |
| Counts.PropertyKey | scripts/analytics/counts.ts:35 | a category is an object key: strings as they are, numbers, booleans, null and undefined as JavaScript writes them; only a list or an object fails |
| Counts.KeyCount | scripts/analytics/counts.ts:35 | `Object.keys(x).length` is undefined for null or undefined (a throw), and otherwise the number of keys, indices or characters |
| Counts.CountOf | scripts/analytics/counts.ts:34-35 | one source file's category and its number of addresses, or the error of a missing file or a malformed field (proved in Counts.SnapshotFileCount) |
| Counts.CountCategories | scripts/analytics/counts.ts:31-36 | the source loop gives the `categories` object of the counts, or the first source's error |
| Counts.CategoryCountsMeaning | scripts/analytics/counts.ts:31-36 | it succeeds exactly when every source counts; categories are keyed in first-seen order, and a repeated category keeps the count of its last source |
| Counts.DistinctCategoriesTotal | scripts/analytics/counts.ts:39 | when no two sources share a category, `totalAddresses` is the sum of all their counts |
| Counts.SnapshotFileCount | scripts/analytics/counts.ts:34-35 | a source written by a snapshot script counts its category with its number of addresses |
| Counts.Addend | scripts/analytics/counts.ts:45 | what `acc + v` adds to a number: a number itself, `null` 0 and a boolean 0 or 1; nothing for `undefined`, a string, a list or an object |
| Counts.TokenTotal | scripts/analytics/counts.ts:44-47 | the sum of the entries' totals as the reducer adds them, undefined when one does not add as a number (proved in Counts.TokenTotalDefined and Counts.CoercedTotals) |
| Counts.Entries | scripts/analytics/counts.ts:44-47 | the values `Object.keys(v).map(k => v[k])` visits: an array's items, an ordered object's fields, a string's characters, nothing for a number or a boolean |
| Counts.AddressTotals | scripts/analytics/counts.ts:41-47 | `totalUniqueAddresses` and `totalTokenAllocated` from the addresses record, or the error of a malformed field (proved in Counts.AddressTotalsOfList) |
| Counts.AddressTotalsOfList | scripts/analytics/counts.ts:41-47 | an `addresses` list counts its entries and sums their totals, and fails only on a total that does not add as a number |
| Counts.TokenTotalDefined | scripts/analytics/counts.ts:44-47 | `totalTokenAllocated` is a number exactly when every entry has a `total` that adds as a number |
| Counts.CoercedTotals | scripts/analytics/counts.ts:44-47 | a `null` total adds 0 and `true` adds 1, and a missing total leaves no number |
| Counts.CountsOf | scripts/analytics/counts.ts:18-57 | the record the script writes for a listing, or the error that stops it: no source, a missing file or a malformed field (proved in Counts.Run) |
| Counts.Run | scripts/analytics/counts.ts:18-57 | no source, a missing file or a malformed field stops the script with no file changed; otherwise `analytics-counts.json` holds exactly the four counts |
| Counts.CountAndWrite | scripts/analytics/counts.ts:26-57 | from the addresses file and the sources, it computes the counts and replaces the output file |
| AddressesReport.Entry | scripts/analytics/addresses.ts:31-33 | a proof's report entry: the file name's address, then the record without `proof` and `index` (its meaning is AddressesReport.EntryMeaning) |
| AddressesReport.EntryMeaning | scripts/analytics/addresses.ts:31-33 | a proof's entry drops `proof` and `index`, keeps every other field, and has the file name's address unless the record carries its own |
| AddressesReport.AddressOfProofName | scripts/analytics/addresses.ts:33 | the name `<address>.json` of a proof file gives back the address |
| AddressesReport.CollectEntries | scripts/analytics/addresses.ts:27-34 | the reading loop pushes each proof's entry, or fails at the first missing file |
| AddressesReport.Insert | scripts/analytics/addresses.ts:39 | one insertion step of the stable sort: one more element than the list (proved in AddressesReport.InsertPermutes, AddressesReport.InsertDescending and AddressesReport.InsertKeepsOrder) |
| AddressesReport.InsertPermutes | scripts/analytics/addresses.ts:39 | inserting keeps every element |
| AddressesReport.InsertDescending | scripts/analytics/addresses.ts:39 | inserting into a descending list keeps it descending |
| AddressesReport.InsertKeepsOrder | scripts/analytics/addresses.ts:39 | inserting keeps the relative order of entries with equal totals |
| AddressesReport.SortByTotal | scripts/analytics/addresses.ts:39 | `sort((a, b) => b.total - a.total)` keeps the number of entries (its meaning is AddressesReport.SortByTotalSpec) |
| AddressesReport.SortByTotalSpec | scripts/analytics/addresses.ts:39 | the sort is by descending `total`, a permutation, and stable |
| AddressesReport.SortedTotal | scripts/analytics/addresses.ts:39 | sorting does not change the sum of the totals |
| AddressesReport.ReportOf | scripts/analytics/addresses.ts:18-39 | the report the script writes for a listing, or the error that stops it (its meaning is AddressesReport.ReportMeaning) |
| AddressesReport.ReportMeaning | scripts/analytics/addresses.ts:18-39 | the report succeeds exactly when there is a proof and every proof file exists, and then lists one entry per proof in descending order of total |
| AddressesReport.ReportTotals | scripts/analytics/counts.ts:41-47 | the counts read from the report are its number of entries and the sum of their totals |
| AddressesReport.Run | scripts/analytics/addresses.ts:18-39 | no proof or a missing file stops the script with nothing changed; otherwise `analytics-addresses.json` holds exactly the sorted report |

## Left out

- Network and process I/O are not modelled: the Alchemy and The Graph queries, `fs.readdirSync`, the logger, `process.argv` and the clock. Their results are parameters of the `Run` methods (owners, transfers, holder ids, directory listings, `createdAt`). scripts/utils/alchemy.ts, scripts/utils/readFile.ts and scripts/utils/error.ts are not part of this model beyond these parameters.
- The outer loop of each snapshot script over its configured keys, and the reading of its config file, are not modelled. Each `Run` is one iteration.
- scripts/generate-merkle/index.ts and scripts/generate-merkle.ts are not part of this model. They read the sources, call `MerkleSum.Sum` and then the `Generator`.
- `JSON.stringify` text, pretty printing and the field order of records read from a file are not modelled. A record is a map; `JFields` stands for an object whose field order is unknown, and a `JObj` written is read back as the same `JObj`.
- `mkdirSync` of the parent directory is left out: the store has no directories.
- `path.join` normalisation is left out. `Join` concatenates with "/" for the plain names the scripts use.
- JavaScript numbers are modelled as `int`. Floating point, NaN and `Infinity` are not modelled, except where the scripts parse or test numbers.
- Counts.AddressTotals: the model follows JavaScript for numeric, `null` (adds 0) and boolean (adds 0 or 1) totals. It reports `NonNumericTotal` where JavaScript goes on: a missing (undefined) `total` makes the sum NaN; a string, list or object `total` turns the sum into a string by concatenation (`0 + "5"` is `"05"`); an entry that is `null` throws a TypeError.
- Counts.TokenTotal: the same cases. It is `None` where JavaScript's sum is NaN or a string, or where it throws.
- Counts.Entries: the values of a `JFields` object are a map, not a list, in the model, so it is refused as `NotAList`; JavaScript would sum them, and the sum would not depend on their order.
- Counts.PropertyKey: JavaScript would stringify a list or an object used as a category. The model refuses it with `NotAString`.
- AddressesReport.SortByTotal: the comparator `b.total - a.total` converts both totals to numbers. The model agrees for numbers, `null` (0) and booleans (0 or 1). A string, list or object total that JavaScript reads as a number (such as `"5"` or `[5]`) sorts by that number, where the model uses 0. An undefined or non-numeric total makes the comparator return NaN, which counts as "equal"; the model gives that entry the total 0. The model's sort is a stable insertion sort, as `Array.prototype.sort` is stable; only the algorithm differs.
- Object keys that look like array indices are not modelled. JavaScript lists them first, in numeric order; the model keeps insertion order for every key. Addresses and ids with a "0x" prefix are never such keys.
- `toLowerCase`/`toLocaleLowerCase` cover ASCII letters only. Addresses are ASCII.
- `_.uniq` compares config entries by structural JSON equality. The source's SameValueZero agrees for the strings the scripts append.
- keccak256 is a parameter, and nothing is proved about collisions. The root-verification lemma holds for every hash function.
- Eth.GetAddress / Eth.GetAddressSpec: ICAP input is not modelled (the snapshot data are 0x-hex). ethers v5 converts an ICAP address ("XE", two check digits and 30 or 31 base-36 digits) to its checksummed hex form; the model refuses it as an invalid address.
- Generator.Generator.Process: the inner `getHexProof(leaf, index)` lookup is modelled by index. merkletreejs uses the index when it is given one.

## Findings

| source | as written | input that shows it | evidently intended | confidence | as-written member | corrected member |
|---|---|---|---|---|---|---|
| scripts/snapshots/tokens.ts:50 | the non-cumulative branch declares a second `addresses` map, so the published airdrop stays empty | one owner, the zero address, in non-cumulative mode: nothing is published for it | publish the map the branch builds, as scripts/snapshots/collectionOwners.ts:39-57 does | high, not executed | TokenSnapshot.Run, TokenSnapshot.ShadowedAirdropWitness | TokenSnapshot.IntendedRun, CollectionOwners.OwnersAirdropConstant |
