# Verified models of the storage engines of erigon-lib

Six parts of the library keep a fast structure on disk that has to agree with a simple one. This project models them in
Dafny, in the form of the code where the code changes things step by step, and proves the agreement for all inputs and
all runs:

- `recsplit`: a minimal perfect hash index. The builder writes a tree of salts as Golomb-Rice codes, the reader walks it by
  arithmetic and skip tables. `RecSplitIndex.IndexKeys` goes from keys and offsets to lookups.
- `compress`: a dictionary and Huffman compressor and its decompressor. `Compressor.RoundTrip` goes from words through the
  intermediate file, both codes and the bytes of the file back to words; `Compressor.ParallelRoundTrip` does so for every
  interleaving of the reader and its workers.
- `aggregator`: summary tables, change files and merged state files. `AggregatorRun.Life` shows that every run is a run of
  three plain maps; `CommitmentStore.Life` does the same for the branch data of a prefix.
- `commitment`: the bytes of branch updates, how they merge, and the cursor that folds and unfolds the hex Patricia tree.
  `HexKeys.KeysExactly` says when the keys of the tree after a run are the old ones with the updated ones and without the
  deleted ones, with every branch node in place.
- `etl`: the external merge sort with its three buffers.
- `bptree`: bulk insertion into a 2-3 B+ tree.

Bytes are natural numbers below 256, keys are sequences of them, machine words are sequences of bits, and where a width
matters (uint16 split points, the 5, 11 and 16 bits of a Golomb table entry, 64-bit codes) it is written out. Hash functions
(`remix`, murmur, Keccak) are arbitrary functions. Calls into code that is not modelled are inputs with a stated condition:
the matches found in a word, the suffix array, the sorted output of the bucket collector, and the updates that the commitment
trie makes. Salt searches stop at the first salt that works and require that there is one.

## Findings

Where the code does not do what its comments or its callers rely on, there is an input and the exact condition.

- Leaf size 2 in an index (recsplit/recsplit.go:283 checks the number of nodes only for larger leaves): from 2049 keys in a
  bucket on, the number of nodes runs into the bits of the parameter. `LeafTwoStraight` says for which bucket sizes a reader
  may rely on the table, `ThreeThousand` and `SkipsTooLittle` are two sizes where it may not, `RootMisread` says what is read.
- Leaf size 1 is accepted by `NewRecSplit`, but its leaves are counted and not coded: for m keys the table says 2m - 1 nodes
  where m - 1 are written (`LeafOne`).
- With one key per bucket the table stays empty and no lookup is covered (`Covered`). An index of a single key answers 0
  whatever its offset is (`Lookup`).
- `Next` with bytes in its buffer loses characters unless the word is empty or ends with a pattern (compress/decompress.go:580;
  `LosesOne`, `LosesNone`).
- `Match` with an empty argument that does not match leaves the cursor behind the word's length (`Getter.Match`).
- The loop that waits for room in the compression queue (compress/parallel_compress.go:333) compares with `<` where `>` seems
  meant: its condition never holds (`NeverWaits`), so the queue is not limited.
- lcp[n-1] is not set to zero, as the comment at compress/parallel_compress.go:804 says: it keeps what the buffer had (`Kasai`).
- With an aggregation step of 1 the first file is never found through the arch, because block 0 also means "never"
  (aggregator/aggregator.go:1937; `FirstFileFound`).
- Without an unwind limit every `Aggregate` that is due fails, because its change files are still open (`StateWriter.Writer.Aggregate`).
- `DeleteAccount` of an address without an account leaves its storage and code (`OrphanStorage`; `Knows` is the exact
  condition, which even depends on whether an empty slice is nil).
- Branch data drops the extension of a cell with a storage key (`KeptWhole`). Merging updates that are not compatible does not
  compose them (`ComposesExactly`).
- A commitment run ends early, in a panic, exactly if a key goes through a branch node that is missing and that the root leads
  to, by its own hash or by the hash of a child of a node that is there (commitment/hex_patricia_hashed.go:814-818;
  `CompletesIff`, `MissingRoot` is a run that does). This holds unless there is a branch node at the empty path beside a root
  that has not been looked up and leads elsewhere: such a node is asked for only if the root gets empty on the way, so that one
  missing below it need not matter (`NotRooted`).
- The tree holds the right keys after a run, and finds them again, exactly if every storage item that is updated has its
  account in the tree at that time (`KeysExactly`). Without it the nibbles that are derived for the item are those behind its
  account (commitment/hex_patricia_hashed.go:274-280; `ItemReadBack`, `ItemAlone`), and an item of an account that was deleted
  in the same run brings the account back (`AccountBack`). This is for trees in which no two accounts agree in all but the last
  nibble: a branch node for two such accounts is lost exactly if the cell above it had an account (the test for depth 64 at
  commitment/hex_patricia_hashed.go:1142; `LastNibbleExactly`, `SharedLost`).
- A run leaves a root that the next run cannot always start from. Of a new object the root is not marked as present, and stays
  so when it was read from branch data (`FreshStays`), so that the next run takes all its children for deleted (`FreshDrops`).
  A root that comes down to one account does not lead to it (`StaleRoot`), and the next account takes its place
  (`RootForgets`). Otherwise the next run can go on (`NextBegins`). `Reset` keeps the keys if the root is the branch
  node at the empty path, and forgets them all if there is no such node (`NextReset`).
- Behind the end of a table a load appends. That gives what putting gives, and is not refused, exactly if no pair of a key but
  its last has a value (`AppendIsPut`). Otherwise a key with two values is refused, and one with a value and then none stays
  (`AppendOutcome`; `AppendRefusesRepeated` and `AppendKeepsDeleted` are two such loads). The oldest-value buffer never stores
  the empty key (`Collector.Load`).
- An upsert does not update: an existing key keeps its value (bptree/bulk.go:222-229; `UpdatesNothing`). A sorted batch with a
  repeated key is accepted and makes the tree invalid (`Tree23.Upsert`). The tree's own check walks the nodes to compare
  neighbouring leaves, but only where the first is no leaf: it rejects nothing there (bptree/node.go:198-214; `CheckChained`),
  and does not depend on the items of the leaves at all (`ItemsUnchecked`), so that every tree of more than a leaf that passes
  has one with leaves that are not chained, which passes too (`ChainUnchecked`).

## Model

| member | source | states |
|---|---|---|
| `SplitTree.AggrBoundsValid` | recsplit/recsplit.go:131-182 | for every leaf size from 2 to 24 the aggregation bounds of the constructor give parameters with which every split terminates |
| `SplitCode.CodeSize` | recsplit/recsplit.go:402-502 | the number of coded nodes and of low-part bits of a tree depends on the number of its keys only, so that a table by size can say what to skip |
| `SplitCode.WholeNodes` | recsplit/index.go:181-183 | on sizes that are whole multiples of a unit the table's node count is the number of nodes that are coded, although single keys have no code |
| `SplitCode.StraightExactly` | recsplit/recsplit.go:254-287 | a bucket size is straight, recursively through all its parts, exactly if the table has its bits right and the node counts of what may be skipped fit |
| `SplitCode.SmallIsStraight` | recsplit/recsplit.go:254-287 | every size with fewer than 2048 nodes is straight |
| `GolombTable.ComputeGolombRice` | recsplit/recsplit.go:254-287 | the packed entry, or a panic exactly if a sum outgrows its field; the entry is exact if and only if there are fewer than 2048 nodes |
| `GolombTable.EntryIsExact` | recsplit/recsplit.go:254-287 | the stored parameter and node count are the true ones exactly below 2048 nodes |
| `GolombTable.GolombParam` | recsplit/recsplit.go:292-307 | the table grows to the size and returns the parameter that is stored for it |
| `GolombRice.Builder.AppendFixed` | recsplit/golomb_rice.go:61-83 | the low bits are appended to the bit string, across word boundaries, and nothing before changes |
| `GolombRice.Builder.AppendUnaryAll` | recsplit/golomb_rice.go:39-56 | the unary codes of all numbers are appended |
| `GolombRice.Reader.ReadNext` | recsplit/golomb_rice.go:119-153 | the next unary number and the next low part are joined, and both cursors move behind them |
| `GolombRice.Reader.SkipSubtree` | recsplit/golomb_rice.go:99-117 | the unary cursor moves behind as many set bits as there are nodes, the other by the given bits |
| `GolombRice.SkipOrRead` | recsplit/golomb_rice.go:99-153 | skipping n nodes and reading n numbers leave two readers in the same state |
| `GolombRice.RoundTrip` | recsplit/golomb_rice.go:39-153 | values written as all low parts and then all high parts, behind anything else, are read back |
| `RecSplitTree.Builder.Recsplit` | recsplit/recsplit.go:402-502 | permuting the bucket in place through the shared buffers appends exactly the code of the keys' tree and puts every offset at the record that the tree assigns to its key; nothing outside the slice changes |
| `RecSplitBuckets.Buckets.RecsplitCurrentBucket` | recsplit/recsplit.go:350-399 | the bucket's code, records and start positions are added, or a collision is reported exactly if two fingerprints are equal |
| `RecSplitBuckets.Buckets.LoadFuncBucket` | recsplit/recsplit.go:505-519 | a change of bucket closes the open one, and the buckets in between are empty |
| `RecSplitBuckets.Buckets.Load` | recsplit/recsplit.go:566-576 | all buckets are written, or a collision is reported exactly if two items share bucket and fingerprint |
| `RecSplitLookup.Walk` | recsplit/index.go:213-262 | from the start of a bucket the reader's loop ends at the number of the record that holds the key's offset, for every key of the bucket and every straight size |
| `RecSplitIndex.OpenIndex` | recsplit/index.go:72-156 | opening a built file gives back its parts, its base data id and the same Golomb table |
| `RecSplitIndex.Remap` | recsplit/recsplit.go:204-207 | the bucket of a hash is its share of the 64-bit range, rounded down |
| `RecSplitIndex.RemapMonotone` | recsplit/recsplit.go:204-207 | buckets are in the order of the hashes |
| `RecSplitIndex.Lookup` | recsplit/index.go:201-265 | the lookup of any added key returns its offset when the table covers its bucket; with a single key it returns 0 |
| `RecSplitIndex.Covered` | recsplit/recsplit.go:350-399 | the table covers a key exactly if some bucket has two keys and the size of the key's bucket is straight |
| `RecSplitIndex.TwoTogether` | recsplit/recsplit.go:131-182 | with buckets meant for two keys or more, two keys always share one |
| `RecSplitIndex.RecSplit.AddKey` | recsplit/recsplit.go:312-348 | the item is collected with its bucket and fingerprint, unless the index is built |
| `RecSplitIndex.RecSplit.Build` | recsplit/recsplit.go:529-664 | the exact case of every error, and otherwise a file that indexes the collected items and starts with the base data id |
| `RecSplitIndex.IndexKeys` | recsplit/index.go:201-265 | new index, all keys added, built, opened, every key looked up: the offsets come back in order and the base data id too, or a collision is reported exactly if two keys share bucket and fingerprint |
| `RecSplitLeafTwo.LargerLeaves` | recsplit/recsplit.go:280-286 | from leaf size 3 on every size that does not panic is straight |
| `RecSplitLeafTwo.LeafTwoNodes` | recsplit/recsplit.go:254-287 | the node count of every size with leaves of two |
| `RecSplitLeafTwo.LeafTwoStraight` | recsplit/recsplit.go:280-286 | with leaf size 2 a size is straight exactly up to 2048, and up to 4096 where the parameter is odd |
| `RecSplitLeafTwo.OneBitMore` | recsplit/index.go:177-179 | between 2049 and 4096 keys and with an even parameter the low parts take one bit more than the reader assumes |
| `RecSplitLeafTwo.ThreeThousand` | recsplit/recsplit.go:280-286 | 3000 keys: the stored parameter is 7 instead of 6 and the stored node count 951 instead of 2999 |
| `RecSplitLeafTwo.SkipsTooLittle` | recsplit/index.go:217-229 | 4097 keys: the reader skips 7 nodes of 2055 |
| `RecSplitLeafTwo.StartsEarly` | recsplit/golomb_rice.go:119-153 | a salt that is read one bit early is right only if that bit is set and its high part is zero |
| `RecSplitLeafTwo.RootMisread` | recsplit/index.go:213-218 | exactly when the first read of such a bucket still gives the right salt |
| `RecSplitLeafTwo.LeafOne` | recsplit/recsplit.go:254-287 | leaf size 1: for every number m of keys 2m - 1 nodes are counted and m - 1 are written |
| `Ring.Ring.PushFront` | compress/compress.go:625-649 | the cell is in front of the same cells, in a buffer that is doubled when it is full |
| `OptimiseCluster.OptimiseCluster` | compress/parallel_compress.go:45-182 | for sound matches the output is the intermediate form of the word with some cover by dictionary patterns that saves at least 4 characters for each, and the counters grow by exactly the marks of that cover |
| `OptimiseCluster.Best` | compress/parallel_compress.go:73-97 | leaving the match out before the first cell, and taking it before any cell that is looked at, saves no more than what is chosen, nor as much with a higher score; the search stops only at a cell behind the match |
| `OptimiseCluster.SavingIsCovered` | compress/parallel_compress.go:79-130 | what a chain claims to save is the number of covered characters less 4 for every pattern |
| `Intermediate.WriteIntermediate` | compress/parallel_compress.go:371-403 | with one worker the intermediate file holds the forms of all words one behind the other, and the counters exactly what they count |
| `Tally.TallyAll` | compress/parallel_compress.go:458-463 | adding up all position maps and uses gives the counts of all marks together |
| `ParallelRun.Safe` | compress/parallel_compress.go:313-443 | in every state of every interleaving no closed channel was used, the file holds the words before outCount in input order, and once out is closed no word is in a channel, the queue or at a worker |
| `ParallelRun.Progress` | compress/parallel_compress.go:184-204 | every reachable state that is not the end has a next step: there is no deadlock |
| `ParallelRun.Bounded` | compress/parallel_compress.go:313-443 | no run has more than 20 steps per word, one per worker and six more |
| `ParallelRun.NeverWaits` | compress/parallel_compress.go:330-337 | the condition of the waiting loop is never met |
| `ParallelRun.Parallel` | compress/parallel_compress.go:184-443 | a run that cannot go on has written the same file and counted the same marks as the loop without workers |
| `ParallelQueue.Sequential` | compress/parallel_compress.go:371-403 | the loop without workers writes the forms in input order and counts the marks of every word |
| `HuffmanBuild.BuildCodes` | compress/parallel_compress.go:477-519 | a tree with every symbol once whose paths are the stored codes; the sum of uses times lengths is minimal over all prefix codes; the height is bounded by the Fibonacci numbers |
| `HuffmanBook.WordsPrefixFree` | compress/compress.go:365-412 | no stored code word starts another |
| `HuffmanDict.SetDepth` | compress/compress.go:397-412 | every symbol gets the length of its path, others keep theirs |
| `HuffmanDict.WrittenDepthFirst` | compress/compress.go:346-351 | sorting by reversed code puts the symbols in depth-first order, so that depths alone tell the tree |
| `HuffmanBook.MakeBook` | compress/parallel_compress.go:473-519 | from different symbols with uses: the codes of one tree, and a dictionary that lists this tree |
| `DecodeTables.AcceptsMatches` | compress/decompress.go:74-91 | the condensed search accepts a code word exactly for the indices that it is meant for |
| `DecodeTables.CheckDistanceSpec` | compress/decompress.go:477-496 | the precomputed distances are exactly the multiples of a power of two up to 512 |
| `DecodeTables.InsertWord` | compress/decompress.go:57-72 | the word's indices find its cell and all others what they found before, in dense and condensed tables alike |
| `DecodeTables.MakeTable` | compress/decompress.go:263-333 | from depths and symbols alone, tables of up to 9 bits that decode the tree, for every condensing threshold |
| `HuffmanCoder.Coder.Encode` | compress/compress.go:561-583 | the bits of the code are appended, lowest first |
| `HuffmanCoder.Coder.Flush` | compress/compress.go:585-594 | zero bits up to the next byte |
| `Reencode.ReencodeWord` | compress/parallel_compress.go:662-735 | one intermediate form becomes the encoded word at the end of the data, and the reader stands at the next form |
| `SegmentFile.WriteSegment` | compress/parallel_compress.go:543-651 | the bytes of the counts, the sizes, both dictionaries and the words |
| `SegmentFile.NewDecompressor` | compress/decompress.go:146-261 | a written file opens to the same counts, words and tables that decode both trees; too short or too deep exactly if it is |
| `Getter.Getter.Next` | compress/decompress.go:529-588 | the word is appended and the cursor moves behind it, except for the characters that Lost counts |
| `Getter.LosesOne` | compress/decompress.go:578-586 | one byte in the buffer and the plain word "ab": one character is lost |
| `Getter.LosesNone` | compress/decompress.go:578-586 | nothing is lost exactly for an empty buffer, an empty word, or a word that ends with a pattern |
| `Getter.Getter.NextUncompressed` | compress/decompress.go:590-613 | the word, for a word without patterns |
| `Getter.Getter.Skip` | compress/decompress.go:616-651 | the cursor lands where Next does |
| `Getter.Getter.SkipUncompressed` | compress/decompress.go:653-670 | the same for a word without patterns |
| `Getter.Getter.Match` | compress/decompress.go:674-736 | true exactly if the word is the argument, then like Next; otherwise the cursor stays, unless the argument is empty |
| `Getter.Getter.MatchPrefix` | compress/decompress.go:739-818 | true exactly if the argument is a prefix of the word; the cursor never moves |
| `Compressor.RoundTrip` | compress/parallel_compress.go:371-735 | words to the bytes of a compressed file with one worker, opened and read back: the same words in the same order, and their counts |
| `Compressor.ParallelRoundTrip` | compress/parallel_compress.go:184-735 | the same from the last state of any interleaving with workers |
| `SuffixLcp.FilterEven` | compress/parallel_compress.go:773-783 | the even half of the suffix array, in place, is the sorted order of the characters' suffixes |
| `SuffixLcp.Invert` | compress/parallel_compress.go:784-792 | inv is the inverse of the filtered order |
| `SuffixLcp.Kasai` | compress/parallel_compress.go:793-827 | for every rank but the last the exact number of equal non-separator characters; the last entry keeps its old value |
| `ChangeFiles.AggregateToBtree` | aggregator/aggregator.go:834-879 | a sorted tree with the newest value and the number of changes of every key, and an anchor for every address |
| `ChangeFiles.CleanTable` | aggregator/aggregator.go:632-671 | counts go down by the aggregated changes, keys without any left go, and it fails exactly if a count is too low |
| `StateDomain.UpdateArch` | aggregator/aggregator.go:675-697 | the slot of every changed key is raised to the block and no slot is lowered |
| `StateFiles.ArchSound` | aggregator/aggregator.go:1927-1950 | starting where the arch says never hides the newest file that has the key |
| `StateFiles.FirstFileFound` | aggregator/aggregator.go:1937-1940 | a first file up to block 0 is never found, a longer one always |
| `MergeCursors.Top` | aggregator/aggregator.go:2652-2682 | the heap's top has the least key, and of equal keys the latest block |
| `StateMerge.MergeIntoStateFile` | aggregator/aggregator.go:3092-3255 | beside anchors the output has exactly the newest values, without deletion markers if it starts at block 0 and with them otherwise; an anchor that is not the last item stands before an item of its address |
| `StateMerge.MergedExactly` | aggregator/aggregator.go:3153-3200 | which items that are no anchors are in the merged stream |
| `StateMerge.MergedAnchors` | aggregator/aggregator.go:3153-3216 | every anchor in the output but the last item stands right before an item of its address |
| `StateMerge.MergedAscends` | aggregator/aggregator.go:3092-3255 | the merged file is strictly sorted |
| `StateMerge.MergedNewest` | aggregator/aggregator.go:3111-3172 | it holds only newest values, and all of them but deletion markers merged from block 0 on and anchors |
| `StateMerge.AnchorKept` | aggregator/aggregator.go:3153-3216 | an address's anchor stays before its items |
| `MergePlan.FindLargestMerge` | aggregator/aggregator.go:2918-2958 | the plan is for the first file that can be doubled, up to the largest number of doublings that stays aligned, within the last block and within the span; none exactly if no file can be doubled |
| `MergePlan.PlanIsLargest` | aggregator/aggregator.go:2933-2952 | no longer doubling of the planned file is possible, and none of an earlier file |
| `MergePlan.PlanGood` | aggregator/aggregator.go:2933-2956 | the planned files are at least two and exactly the blocks of the plan, a doubling of the step |
| `MergePlan.SwitchedPartition` | aggregator/aggregator.go:1217-1251 | putting the merged file in their place keeps a partition whose spans are doublings of the step and never grow |
| `MergePlan.SamePlan` | aggregator/aggregator.go:1510-1568 | the range planned for one type is planned for every other, so that the mismatch errors cannot occur |
| `MergePlan.FilesLeft` | aggregator/aggregator.go:2918-2958 | when nothing can be merged, there are as many files as the number of steps has binary digits 1 |
| `PrefixRuns.Runs` | aggregator/aggregator.go:2753-2800 | the cursors of DeleteAccount stand at all items of the address, in the table, the trees and the files |
| `StateStore.Domain.Update` | aggregator/aggregator.go:2562-2597 | the value is read back, all others stay, and a change is recorded exactly if the value changes |
| `StateStore.Domain.Delete` | aggregator/aggregator.go:2684-2737 | the key is read as empty; it is found exactly if Knows says so, and only then anything is written |
| `StateStore.Domain.DeleteBelow` | aggregator/aggregator.go:2753-2868 | every key below the address is read as empty, all others stay |
| `StateStore.Domain.AggregateOldest` | aggregator/aggregator.go:623-673 | moving the oldest changes to a new file leaves every read as it is |
| `StateStore.Domain.FinishMerge` | aggregator/aggregator.go:1217-1251 | switching to the merged file leaves every read as it is, and a file from block 0 on has no deletion markers |
| `StateWriter.Writer.DeleteAccount` | aggregator/aggregator.go:2739-2874 | an account that is found goes with its code and all of its storage, one that is not leaves both, and when it is found |
| `StateWriter.Writer.Reset` | aggregator/aggregator.go:2161-2187 | the next block's change file is opened, or an error exactly in the stated cases |
| `StateWriter.Writer.Aggregate` | aggregator/aggregator.go:2548-2560 | nothing that is read changes; it fails exactly if files are due and there is no unwind limit or they are gone |
| `StateWriter.Writer.PlanMerge` | aggregator/aggregator.go:1510-1568 | all types plan the same range; the errors do not occur |
| `AggregatorRun.Execute` | aggregator/aggregator.go:2069-2115 | every operation does to three plain maps what Step says, and returns what they hold |
| `AggregatorRun.Life` | aggregator/aggregator.go:2562-2914 | every run of reads, writes, deletions, transactions, blocks, aggregations and merges from block 0 on is a run of three plain maps with the same results |
| `AggregatorRun.OrphanStorage` | aggregator/aggregator.go:2739-2756 | a value below an address without an account survives DeleteAccount |
| `BranchMerge.MergeHexBranches` | commitment/commitment.go:359-436 | the bytes of the merged update, or what is met first if one of the two cannot be read: a panic where the maps or a flag byte are missing, an error where a length is wrong |
| `BranchMerge.BranchMerger.Merge` | commitment/commitment.go:470-573 | the same bytes, panic or error as MergeHexBranches, whatever its buffer held |
| `BranchMerge.ComposesExactly` | commitment/commitment.go:359-436 | the merged update can be read and is the two one after the other, on every row, exactly if they are compatible |
| `BranchMerge.MergeAssociative` | commitment/commitment.go:359-436 | merging is associative along a chain of updates |
| `BranchMerge.CompleteStays` | commitment/commitment.go:352-356 | nothing older changes what a complete update says |
| `BranchMerge.BranchFn` | aggregator/aggregator.go:2202-2243 | stopping at a complete merge returns what all records together say; it panics only if they are not complete together |
| `CommitmentStore.MergeCommitments` | aggregator/aggregator.go:1701-1703 | the merged record leads from every row from which the older one leads to the newer one's start, or the newer one alone to its end |
| `CommitmentStore.MergeIntoStateFile` | aggregator/aggregator.go:3111-3166 | the merged record of several files does what they do, also where an empty one is dropped in the first file |
| `CommitmentStore.Branches.Commit` | aggregator/aggregator.go:2464-2513 | the table and the change file get a merged, overlapping record; the row that is read becomes the updated one |
| `CommitmentStore.Branches.Aggregate` | aggregator/aggregator.go:623-673 | merging the oldest overlapping changes into a new file leaves the row as it is, and never fails |
| `CommitmentStore.Branches.Read` | aggregator/aggregator.go:2202-2243 | the current row, and nothing only if it is empty; it never panics |
| `CommitmentStore.Life` | aggregator/aggregator.go:2202-2516 | updates, aggregations and file merges in any order: every read gives the row that the updates before it have built |
| `BranchCodec.EncodeBranch` | commitment/commitment.go:117-180 | the bytes of the maps and of the stored parts of every selected cell, and the last nibble |
| `BranchCodec.DecodeCells` | commitment/commitment.go:438-457 | maps and cells of every data that can be read; otherwise a panic or an error, by what is met first |
| `BranchCodec.EncodedDecodes` | commitment/commitment.go:117-180 | encoded for the touched and present children, the same maps and cells are decoded but for a dropped extension |
| `BranchCodec.KeptWhole` | commitment/commitment.go:141-160 | a cell comes back whole exactly if it has no storage key or no extension |
| `PlainKeys.ExtractPlainKeys` | commitment/commitment.go:184-257 | the keys in the order of the children; if the data cannot be read a panic or an error, by what is met first |
| `PlainKeys.ReplacePlainKeys` | commitment/commitment.go:259-346 | the new keys in their places with every other byte kept, exactly if the data can be read and there are enough keys; otherwise a panic, also for a missing key, or an error, by what is met first |
| `PlainKeys.ExtractReplaced` | commitment/commitment.go:184-346 | what replacing returns for encoded data can be read, and extracting from it gives the new keys |
| `PlainKeys.ReplaceExtracted` | commitment/commitment.go:184-346 | putting the extracted keys back gives the same bytes |
| `HexPatricia.HexPatriciaHashed.NeedUnfolding` | commitment/hex_patricia_hashed.go:752-801 | the array form refines the cursor: how much is to be unfolded towards a key |
| `HexPatricia.HexPatriciaHashed.Unfold` | commitment/hex_patricia_hashed.go:804-953 | the arrays show the unfolded cursor, and it fails exactly if the branch node is missing |
| `HexPatricia.HexPatriciaHashed.Fold` | commitment/hex_patricia_hashed.go:962-1166 | the arrays show the folded cursor, with one row less and its update recorded (see `FoldGood` and `KeysAfter`) |
| `HexPatricia.HexPatriciaHashed.UpdateCell` | commitment/hex_patricia_hashed.go:1207-1243 | the arrays show the cursor with the cell that stands for the key (see `UpdatedCell`) |
| `HexPatricia.HexPatriciaHashed.DeleteCell` | commitment/hex_patricia_hashed.go:1168-1205 | the arrays show the cursor without the key (see `DeletedCell`) |
| `HexPatricia.HexPatriciaHashed.ProcessUpdates` | commitment/hex_patricia_hashed.go:1721-1799 | all sorted keys are arrived at, with the current key a prefix of the key and its length the top depth less one, changed and folded along a trace of cursors, exactly if no key goes through a missing branch node that the root leads to (see `CompletesIff` for the condition on the root); otherwise it stops at the first such key; if the tree was sound, its keys and branch nodes are the right ones afterwards exactly if updated storage items have their accounts |
| `HexRun.TraceKeeps` | commitment/hex_patricia_hashed.go:1721-1799 | before and after every key each row's path is a proper prefix of the next row's and shorter than 128 nibbles, every cell fits below its path, and nothing that was folded belongs to a later key |
| `HexRun.EndsEarly` | commitment/hex_patricia_hashed.go:804-820 | a run ends early only at a branch node that is missing on the way to the key and that the root leads to |
| `HexReach.StopsThere` | commitment/hex_patricia_hashed.go:804-953 | no run comes through a key with such a node on its way: the keys before leave the way to it as it is |
| `HexReach.CompletesIff` | commitment/hex_patricia_hashed.go:1721-1799 | a run comes to its end if no key goes through such a node, and only then when a branch node at the empty path is one that the root leads to or is yet to be looked up |
| `HexReach.AllComplete` | commitment/hex_patricia_hashed.go:1721-1799 | all ascending lists of keys can be processed exactly if every branch node that the root leads to, above the last nibble, is there; the only-if under the same condition on the root |
| `HexReach.MissingRoot` | commitment/hex_patricia_hashed.go:814-818 | a run that ends early: a root with a hash and no branch nodes |
| `HexReach.NotRooted` | commitment/hex_patricia_hashed.go:809-813 | a run that comes to its end although a node below a branch node at the empty path is missing: the root, a single key, does not lead there |
| `HexRun.FoldKeepsSettled` | commitment/hex_patricia_hashed.go:962-1166 | every branch node is updated once |
| `HexRun.EveryNodeTouched` | commitment/hex_patricia_hashed.go:1721-1799 | a key that changes something touches the root, and its child in an update of every branch node on its way |
| `HexRun.EveryUpdateFits` | commitment/hex_patricia_hashed.go:962-1166 | every update is compatible with the branch node that it is for, and writes all its children if there was no node |
| `HexPatricia.HexPatriciaHashed.Reset` | commitment/hex_patricia_hashed.go:1331-1344 | the arrays show the cursor without its root, which is to be looked up again |
| `HexStore.DerivedTip` | commitment/hex_patricia_hashed.go:266-303 | the nibbles derived for a cell lead to its storage item, its branch node or its account |
| `HexStore.LoweredCarries` | commitment/hex_patricia_hashed.go:151-195 | a cell that moves down stands for the same keys and branch node, but not for the account above it |
| `HexStore.LiftedCarries` | commitment/hex_patricia_hashed.go:197-238 | the cell above takes over the keys and the branch node of the one child that is left, and keeps its account |
| `HexStore.AboveKept` | commitment/hex_patricia_hashed.go:1136-1145 | the cell above a branch node stands for the keys of all its children |
| `HexStore.KeptRead` | commitment/hex_patricia_hashed.go:305-386 | a cell that is written and read again stands for the same keys, and leads to them |
| `HexHeld.RowNode` | commitment/hex_patricia_hashed.go:1060-1127 | after the update of a row the stored branch node has two children or more, all of them sound and standing for the keys of the row |
| `HexHeld.RowRecorded` | commitment/hex_patricia_hashed.go:997-1127 | an update lists a child exactly if there is a key below it, and one below another child, and its cells can be read |
| `HexKept.FoldGood` | commitment/hex_patricia_hashed.go:962-1166 | folding keeps that rows, root and stored branch nodes together stand for the keys of the tree |
| `HexGrown.UnfoldGood` | commitment/hex_patricia_hashed.go:804-953 | so does unfolding |
| `HexGrown.LiftedLowered` | commitment/hex_patricia_hashed.go:151-238 | folding a cell that was unfolded gives it back |
| `HexChanged.UpdatedCell` | commitment/hex_patricia_hashed.go:1207-1243 | the updated cell stands for the keys that it had and the new one |
| `HexChanged.DeletedCell` | commitment/hex_patricia_hashed.go:1168-1205 | nothing is held any more at or below the place of a deleted key; a cell above it, where the key was not, stands for what it did |
| `HexChanged.ChangedChild` | commitment/hex_patricia_hashed.go:1168-1243 | the child at the cursor stands for its keys after the change, or is not present and there is none |
| `HexChanged.ChangeGood` | commitment/hex_patricia_hashed.go:1744-1752 | changing a key keeps that the tree stands for its keys, with the key or without it and what is below |
| `HexKeys.KeysAfter` | commitment/hex_patricia_hashed.go:1721-1799 | after a run the root and the stored branch nodes hold exactly the old keys with the updated and without the deleted ones, every branch node that the root leads to is there, and every update lists exactly the children with keys |
| `HexKeys.KeysExactly` | commitment/hex_patricia_hashed.go:1721-1799 | they do so if and only if every storage item that is updated has its account in the tree at that time |
| `HexKeys.HeldExactly` | commitment/hex_patricia_hashed.go:1721-1799 | which keys these are: a listed one exactly if it is not deleted, another exactly if it was there and is not below a deleted one |
| `HexKeys.AfterOk` | commitment/hex_patricia_hashed.go:804-858 | every branch node after the run can be read |
| `HexKeys.NextBegins` | commitment/hex_patricia_hashed.go:1721-1799 | a second run on the same object finds all its branch nodes, whatever its keys are, and starts with the keys that the first one left |
| `HexKeys.NextReset` | commitment/hex_patricia_hashed.go:1331-1344 | so does one after Reset if the root is the branch node at the empty path; without such a node it starts with no keys |
| `HexLimits.ItemReadBack` | commitment/hex_patricia_hashed.go:274-300 | a storage item without its account is found again exactly if it was written below the end of the account |
| `HexLimits.LastNibbleExactly` | commitment/hex_patricia_hashed.go:1136-1145 | a new branch node of accounts that agree in all but the last nibble is kept exactly if the cell above had no account |
| `HexLimits.ItemAlone` | commitment/hex_patricia_hashed.go:1230-1241 | the run over one storage item in an empty tree |
| `HexLimits.SharedLost` | commitment/hex_patricia_hashed.go:1136-1145 | two accounts that agree in all but the last nibble, in an empty tree: the second one is lost |
| `HexLimits.AccountBack` | commitment/hex_patricia_hashed.go:1168-1243 | an account is deleted and one of its storage items updated: the account is there again |
| `HexLimits.FreshStays` | commitment/hex_patricia_hashed.go:98-113 | the root of a new object that is read from branch data is not marked as present after the run |
| `HexLimits.FreshDrops` | commitment/hex_patricia_hashed.go:818-827 | the next run takes all children of such a root for deleted |
| `HexLimits.StaleRoot` | commitment/hex_patricia_hashed.go:1031-1059 | a root that comes down to one account does not lead to it |
| `HexLimits.RootForgets` | commitment/hex_patricia_hashed.go:1207-1243 | the next account takes the place of the one in such a root |
| `EtlMerge.StableSort` | etl/buffers.go:136-141 | the stable order by key |
| `EtlMerge.MergeSortFiles` | etl/collector.go:257-290 | every pair of every run once, by key and then by run |
| `EtlCollector.Collector.Collect` | etl/collector.go:92-102 | the pair is collected behind the others, whatever is flushed |
| `EtlCollector.Collector.FlushBuffer` | etl/collector.go:106-127 | nothing collected is lost, on disk or in memory |
| `EtlCollector.Collector.Load` | etl/collector.go:129-235 | exactly the collected keys are delivered, in order; passed on are with the slice buffer the stable sort of all pairs, with the append buffer per key the concatenation in collection order, with the oldest buffer the first value of every key that is not empty |
| `EtlCollector.Collector.LoadInto` | etl/collector.go:150-210 | the pairs of Load are appended exactly if something was collected and all collected keys are behind the table's last: then every key gets its value, nothing is deleted, and it is refused exactly if a key has two; otherwise the last pair of every key decides |
| `EtlLaws.DeliversKeys` | etl/collector.go:257-290 | with any buffer exactly the collected keys are delivered |
| `EtlTable.PutHolds` | etl/collector.go:166-218 | putting: the last pair of every key decides, and an empty value deletes |
| `EtlTable.AppendOutcome` | etl/collector.go:166-218 | sorted pairs behind the end of the table: refused exactly if a key has two values, otherwise all values are added and nothing is deleted |
| `EtlTable.AppendIsPut` | etl/collector.go:166-218 | there appending does what putting does exactly if no pair of a key but its last has a value |
| `EtlTable.AppendKeepsDeleted` | etl/collector.go:166-205 | a key with a value and then without one: deleted by putting, kept by appending |
| `EtlTable.AppendRefusesRepeated` | etl/collector.go:166-205 | a key with two values: the second append is refused |
| `BpItems.MergeSplit` | bptree/bulk.go:307-322 | a sorted batch can be cut at the separators and merged child by child |
| `BpItems.MergeStrict` | bptree/bulk.go:25 | merged into strictly sorted items, a sorted batch gives strictly sorted ones exactly if it has no key twice |
| `BpUpsert.AddOrReplaceLeaf` | bptree/bulk.go:183-305 | the leaf's items merged with the batch by key, existing ones kept |
| `BpUpsert.UpsertNode` | bptree/bulk.go:24-181 | trees of the same height with the merged items, chained to what followed, and the keys that follow each of them |
| `BpUpsert.LaterChild` | bptree/bulk.go:105-131 | only the first child can get a new first key, so that no earlier leaf has to be changed |
| `BpUpsert.Promote` | bptree/node.go:119-134 | one well-shaped root over all trees, with the same items |
| `BpRoot.WalkNodesPostOrder` | bptree/node.go:374-393 | every node behind those below it |
| `BpRoot.CheckKey` | bptree/node.go:178-197 | a key passes exactly if some leaf points to it and no internal node below has it |
| `BpRoot.CheckChained` | bptree/node.go:198-214 | the loop over neighbours rejects nothing |
| `BpRoot.CheckNode` | bptree/node.go:146-224 | the check of a tree accepts exactly the right sizes with keys that pass |
| `BpRoot.ShapedIsValid` | bptree/node.go:146-224 | well-shaped trees pass the tree's own check |
| `BpRoot.ItemsUnchecked` | bptree/node.go:146-224 | trees that differ only in the items of their leaves pass or fail together |
| `BpRoot.ChainUnchecked` | bptree/node.go:198-214 | every tree of more than a leaf that passes does so too with items with which its leaves are not chained |
| `BpRoot.Tree23.Upsert` | bptree/tree.go:127-137 | an unsorted batch is refused; otherwise equal depth, 2 or 3 children, chained leaves and right separators with the merged items, and a valid tree exactly if the batch has no key twice |
| `BpRoot.UpdatesNothing` | bptree/bulk.go:222-229 | an item of a batch is in the tree afterwards exactly if its key was new or had the same value |
| `BpRoot.FirstValueStays` | bptree/bulk.go:183-305 | over any batches a key keeps the value with which it first came |
| `BpRoot.UpsertAll` | bptree/tree.go:123-137 | after any strictly sorted batches the tree is valid, passes its check and holds what the batches leave |

## Left out

- recsplit: enumerated indices (`Enums`), the Elias-Fano lists, which are exact sequences here, and a second attempt after a
  collision, for which `ResetNextSalt` does not clear the bits written so far.
- `RecSplitIndex.RecSplit.Build`: that a salt exists for every split is required, and bucket sizes from 65535 on are excluded.
- `Compressor.RoundTrip`: takes the matches in a word from a match finder that is sound and ordered; the patricia tree, the
  dictionary builder and the optimality of the cover, which is a heuristic, are not modelled. There have to be fewer than
  Fib(65) symbols, so that a code fits a machine word.
- `Compressor.ParallelRoundTrip`: what the workers write for a word is a function of the word, some cover of it, as
  `OptimiseCluster` gives one.
- `SegmentFile.NewDecompressor`: files that were not written by the compressor. The code recovers from a panic on these and
  then returns neither a decompressor nor an error.
- compress: words shorter than they are declared, files that are read with the wrong offsets, `Reset` to other positions.
- aggregator: history and bitmap files, change sets and their indexes, reading at an older block, the 32-bit width of the
  counts, reference transformation of branch data in files (its two halves are `ReplacePlainKeys` and `ExtractPlainKeys`),
  and the locks: the operations of a run follow each other.
- `CommitmentStore.Life`: one prefix; prefixes do not influence each other. Every update is required to keep only children
  that are there, which `EveryUpdateFits` shows for the updates of a commitment run.
- commitment: hash values, the binary Patricia tree, and the encoding of the whole state.
- `HexPatricia.HexPatriciaHashed.ProcessUpdates`: a plain key is named by its hashed key, balances, nonces, code hashes and
  storage values are not modelled, and not what `RootHash` writes over the nibbles of the root at the end.
- `HexKeys.KeysAfter`: for trees in which no two accounts agree in all but the last nibble, before and after every key.
- `BranchMerge.MergeHexBranches`: a field length of 2^63 or more counts as an error, where the code turns it into a negative
  number and goes on; nil and empty data are the same.
- `BranchMerge.BranchMerger.Merge`: the same two.
- `BranchCodec.DecodeCells`: the same length; and no part of a cell is cut to the size of its array.
- `PlainKeys.ExtractPlainKeys`: the same length.
- `PlainKeys.ReplacePlainKeys`: the same length.
- etl: transformations before collecting, loaders other than the identity, duplicate-sorted tables, and temporary files, which
  are sequences of pairs.
- bptree: deletion, hashing, statistics, graphs and files. Nodes are values, not changed in place: not captured is that a
  leftmost leaf may share its array with the slices of the batch, into which the code appends (bptree/bulk.go:235-237, 300-303).
- The remaining packages (kv, txpool, downloader, rlp, gRPC interfaces, types and configuration).
