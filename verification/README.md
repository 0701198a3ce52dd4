# Verified model of wedding-cake

A Dafny model of the index engine `wedding-cake-cpp`: the shallow tree, the buffer room, the
ingestion pipeline with its donuts on disk, and the byte formats, with proofs of what they
promise. `dafny verify dfyconfig.toml` checks all of it.

## What is modelled

* **Shallow tree** (`Buckets`, `TreeSpec`, `TreeTheorems`, `LookupTheorems`, `ShallowTree`,
  `ShallowTreeQueries`). The tree is specified as a function of the presented hashes and built by
  methods that partition one array in place through one scratch buffer. Lookup re-derives the
  mask of unused bytes on its way down. Proved: construction fails exactly on duplicates; the
  order of the input does not show; `m` hashes make `m` leaves and at most `2m - 1` nodes; every
  inserted hash is found with its own index; what an answer means for any number of
  reassurance bytes, and that enough of them make the tree the map itself.
* **Buffer room** (`BufferRoom`, `BufferRoomTheorems`). Two mutexes, three condition variables, the
  reader count and the discard flag, as atomic steps of any number of threads, spurious
  wake-ups included. Proved over every interleaving: a worker's view has exactly `C` items and
  never changes, a search thread's view only grows, nothing is lost, every call that returns has done
  its work once, there is no deadlock, and a discard comes to its end within a bounded number of steps.
* **Donuts** (`DonutFiles`, `DonutHydration`, `DonutHistory`, `RemainderDonut`). A donut in memory and
  its two files as functions of the appended batches. Proved: when chunking shows in the bytes and
  when it does not; which files reloading accepts; which histories reload.
* **Ingestion pipeline** (`Ingestion`, `IngestionTheorems`, `IngestionRuns`, `IngestionDeterminism`,
  `IngestionLookups`, `IngesterBuffer`, `IngesterWaits`, `IngesterWorker`, `LookupableBufferRoom`,
  `TierRestart`). Feeders, flushers, the worker and discards as steps; the classes of the program
  are proved to make exactly these steps, and its waits and notifications to lose no wake-up. Proved
  over every run: the stream is conserved, backpressure bounds the queue, a flush means stored,
  batches make progress, exactly when the disk depends on the stream alone, every lookup answers
  from the stream, exactly when the worker throws, and exactly when a restart finds the tier again.
* **Byte formats** (`Bits`, `Bytes`, `PrefixSuffix`, `DonutEntries`, `HashesOrderFile`, `Manifest`).
  Splitting a hash at any bit, sentinel-safe records, seekable record files, and a transaction
  log that recovers after being cut at any byte, with the exact condition on the flushes of its callers.

Exceptions and failed assertions of the program are `Err` results. Files are byte sequences, file
handles are positions, and the no-match sentinel is `None`. Capacities, the number of donuts in
a room and the width of hashes are parameters; the program fixes them to 65535, 4 and usually 32.
Lemmas carry `{:induction false}` so that every induction is spelled out in its body.

## Where code and documentation differ

* `README.md:17` promises reproducible storage. The next suffix index is taken from the size of the map
  (`ingester_evolver_types.hpp:136`), which a repeated hash does not increase. So the bytes depend on the
  contents alone exactly if, wherever these are cut, no hash is repeated before the cut or no
  hash follows it: `Reproducible`, which holds whenever no hash is repeated. `ChunkingIsInvisibleExactlyIfReproducible`
  proves this for batches and `SchedulesShowExactly` for runs of the pipeline; `ChunkingCanShow` is the smallest
  input and `ScheduleThatShows` a run. `ReloadsExactlyIfResumable` says which donuts reload.
* `shallow_tree.hpp:316` and `:389` speak of Shannon entropy. The code minimises the sum of squared bucket
  sizes, which can pick another byte; the model follows the code.
* `buffer_room.hpp:139-144` purges discarded items from disk if they can; filled donuts cannot, so the folders of
  discarded donuts stay. `RestartSucceedsExactly` and `DiscardsComeBack` say what a restart makes of that,
  and `DiscardsPreventRestart`, `RepeatPreventsRestart` and `DiscardedComesBack` show it on runs.
* `manifest_engine.hpp:84-90` flushes the handles it is given before the commit record. `RecoveryRestoresExactly` says which
  handles a caller must pass for recovery to be right, and `CommitWithoutHandleLoses` shows the loss.
* `ms_prefix_path_test.cpp` expects folders `MSPrefix` and files `_LSSuffixEntries.bin`; the code writes `MsPrefix`
  and `_LsSuffixEntries.bin`, and `PathSpellsTheIndex` follows the code.
* `manifest_engine.hpp:54` accepts a commit as soon as its magic is complete, even when the slice number
  behind it is cut off.

## Model

| member | source | states |
|---|---|---|
| Buckets.PartitionPermutes | include/wedding_cake/shallow_tree.hpp:105-111 | Concatenating the buckets 0 to 255 permutes the span |
| Buckets.BucketPermutation | include/wedding_cake/shallow_tree.hpp:94-111 | Buckets of two orderings of one collection are permutations of each other |
| Buckets.BucketInOrder | include/wedding_cake/shallow_tree.hpp:105-109 | A bucket keeps the order of the span: each item comes behind those before it |
| ShallowTrees.CountByte | include/wedding_cake/shallow_tree.hpp:94-97 | The counts are the sizes of the buckets of the span |
| ShallowTrees.BucketOffsets | include/wedding_cake/shallow_tree.hpp:99-103 | The running sums are where the buckets start |
| ShallowTrees.Scatter | include/wedding_cake/shallow_tree.hpp:105-109 | Every item lands in its bucket in the old order, and only scratch cells of this call are written |
| ShallowTrees.BucketPartitionByByte | include/wedding_cake/shallow_tree.hpp:89-114 | A stable counting sort whatever the scratch buffer held: the span becomes its buckets in order, the counts are their sizes, everything else is unchanged |
| ShallowTrees.MakeLeafNode | include/wedding_cake/shallow_tree.hpp:272-298 | The leaf holds the index and the first unused bytes of the hash, padded with zeros |
| ShallowTrees.CalculateByteScore | include/wedding_cake/shallow_tree.hpp:370-397 | The score is the sum of squared bucket sizes, which `ScoreCountsPairs` says is the number of pairs left together |
| ShallowTrees.ChooseByte | include/wedding_cake/shallow_tree.hpp:316-328 | The chosen byte is the first unused one with the least score |
| ShallowTrees.FillSlots | include/wedding_cake/shallow_tree.hpp:347-364 | Slot by slot the subtrees of the buckets, or the failure of one of them; the span is only permuted |
| ShallowTrees.RecurseGenerateNode | include/wedding_cake/shallow_tree.hpp:301-367 | Building in place with the shared scratch buffer gives the specified subtree or the duplicate error |
| ShallowTrees.Construct | include/wedding_cake/shallow_tree.hpp:128-168 | The constructor gives the specified tree or error for every size, tail and input, also the empty one, and only permutes the input |
| TreeTheorems.SplitsByScore | include/wedding_cake/shallow_tree.hpp:388-397 | A byte splits the span exactly if its score is below the square of the size |
| TreeTheorems.ScoreCountsPairs | include/wedding_cake/shallow_tree.hpp:388-397 | The score of a byte is the number of pairs of hashes that agree on it |
| TreeTheorems.ChosenByteSeparatesMost | include/wedding_cake/shallow_tree.hpp:316-328 | The chosen byte is the first of the unused ones that leave the fewest such pairs together |
| TreeTheorems.ChosenByteSplits | include/wedding_cake/shallow_tree.hpp:316-328 | The greedy choice puts the span into at least two buckets unless there are duplicates |
| TreeTheorems.DuplicatesDetectedExactly | include/wedding_cake/shallow_tree.hpp:307-367 | At any depth, building fails if and only if two hashes agree on every unused byte |
| TreeTheorems.OrderIndependence | include/wedding_cake/shallow_tree.hpp:301-367 | Permuted inputs give the same subtree or both fail |
| TreeTheorems.SizeBound | include/wedding_cake/shallow_tree.hpp:301-367 | A subtree of m hashes has m leaves and at most 2m - 1 nodes, and depth plus unused bytes is the hash width at every node |
| LookupTheorems.LookupExact | include/wedding_cake/shallow_tree.hpp:192-228 | A lookup answers p if and only if it reaches a leaf and an inserted hash of index p agrees with the target on the path bytes and the reassurance bytes |
| LookupTheorems.LeafReached | include/wedding_cake/shallow_tree.hpp:216-228 | A target that equals an inserted hash outside the tail reaches a leaf |
| LookupTheorems.InsertedIsFound | include/wedding_cake/shallow_tree.hpp:192-230 | An inserted hash is found with its own index, because the mask re-derived at its leaf is the builder's |
| LookupTheorems.FullReassuranceIsTheMap | include/wedding_cake/shallow_tree.hpp:198-213 | With reassurance for every unused byte an answer p means equality outside the tail with a hash of index p, and conversely |
| LookupTheorems.UnusedInOrder | include/wedding_cake/shallow_tree.hpp:272-298 | The reassurance bytes come in the order of their places: each stands behind as many as there are unused places below it |
| ShallowTreeQueries.ConstructedIsWellFormed | include/wedding_cake/shallow_tree.hpp:128-168 | Every constructed tree has the shape that lookups rely on |
| ShallowTreeQueries.Branches | include/wedding_cake/shallow_tree.hpp:330-364 | A node above two hashes or more branches on the chosen byte, and slot v holds the subtree of the hashes whose byte there is v |
| ShallowTreeQueries.ConstructsExactly | include/wedding_cake/shallow_tree.hpp:128-168 | For every size, tail and input which of the three errors is raised, and what a tree remembers of its input |
| ShallowTreeQueries.SameOutsideTailMeans | include/wedding_cake/shallow_tree.hpp:138-154 | Hashes are told apart by exactly the bytes that start behind the tail bits |
| ShallowTreeQueries.NothingElseIsFound | include/wedding_cake/shallow_tree.hpp:175-178 | Targets of another size, and all targets in an empty tree, have no match |
| ShallowTreeQueries.CheckLeaf | include/wedding_cake/shallow_tree.hpp:195-214 | The loop over the unused bytes accepts exactly the targets that match the reassurance bytes |
| ShallowTreeQueries.LookupHashUniqueReassuredCandidate | include/wedding_cake/shallow_tree.hpp:175-231 | The loop from the root gives the answer the theorems speak of, also for empty trees and targets of another size |
| ShallowTreeQueries.VisitAllNodes | include/wedding_cake/shallow_tree.hpp:235-255 | The explicit stack visits every node exactly once |
| ShallowTreeQueries.NodesAreReached | include/wedding_cake/shallow_tree.hpp:235-255 | The nodes visited are exactly those that some path of byte values leads to |
| ShallowTreeQueries.CountNodes | include/wedding_cake/shallow_tree.hpp:257-261 | The count is the number of nodes of the tree |
| ShallowTreeQueries.ConstructionFailsExactlyOnDuplicates | include/wedding_cake/shallow_tree.hpp:128-168 | For supported sizes the only error is the duplicate error, and it is raised if and only if two inputs agree outside the tail |
| ShallowTreeQueries.TreeAgreesWithMap | include/wedding_cake/shallow_tree.hpp:128-231 | Build, then look up: any target equal to an input outside the tail gives the presentation index of that input |
| ShallowTreeQueries.TreeIgnoresInputOrder | include/wedding_cake/shallow_tree.hpp:128-168 | Inputs that are permutations of each other give identical trees or the same error |
| ShallowTreeQueries.TreeIsSmall | include/wedding_cake/shallow_tree.hpp:257-261 | m hashes make exactly m leaves and a node count of at most 2m - 1 |
| ShallowTreeQueries.AnswersAreReassured | include/wedding_cake/shallow_tree.hpp:170-231 | For any reassurance count, exactly which targets are answered with p |
| ShallowTreeQueries.EnoughReassuranceMakesAnswersExact | include/wedding_cake/shallow_tree.hpp:170-231 | With enough reassurance bytes there are no false positives |
| BufferRoomTheorems.StepIsInv | libs/evolving_disk_state/include/evolving_disk_state/buffer_room.hpp:42-172 | Every atomic step of every thread, every new call and every spurious wake-up keeps the invariant of locks, flag, reader count and program counters |
| BufferRoomTheorems.RunIsInv | libs/evolving_disk_state/include/evolving_disk_state/buffer_room.hpp:42-172 | The invariant holds in every state of every run |
| BufferRoomTheorems.ItemsStep | libs/evolving_disk_state/include/evolving_disk_state/buffer_room.hpp:51-54 | One step changes the items by nothing, one pushed item, or the clear |
| BufferRoomTheorems.StepKeepsViews | libs/evolving_disk_state/include/evolving_disk_state/buffer_room.hpp:78-90 | While a thread is registered no step clears the items, and none changes them for a worker or inside a lambda |
| BufferRoomTheorems.WorkerViewIsStable | libs/evolving_disk_state/include/evolving_disk_state/buffer_room.hpp:66-90 | From registration to the end of the call the room holds exactly C items, always the same ones |
| BufferRoomTheorems.ReaderViewOnlyGrows | libs/evolving_disk_state/include/evolving_disk_state/buffer_room.hpp:96-114 | A search thread's view extends what was there at its registration and is fixed during its lambda |
| BufferRoomTheorems.NothingIsLost | libs/evolving_disk_state/include/evolving_disk_state/buffer_room.hpp:42-60 | Purged items followed by present items only ever grow at the end |
| BufferRoomTheorems.CallsActOnce | libs/evolving_disk_state/include/evolving_disk_state/buffer_room.hpp:42-153 | Over any stretch of a run, a call that has returned did what it is for exactly once and nothing else: `Feed` pushed its item, a view ran its lambda, on exactly C items if it asked for a full room, `Discard` purged everything; only a view can be refused, and only by a discard |
| BufferRoomTheorems.NoDeadlock | libs/evolving_disk_state/include/evolving_disk_state/buffer_room.hpp:42-153 | If no thread can step, none is registered or discarding, and the waiting ones are producers at a full room or workers at a room that is not full |
| BufferRoomTheorems.LockHoldersMove | libs/evolving_disk_state/include/evolving_disk_state/buffer_room.hpp:50-54 | Locks are nested state before data, so the holder of the last one can step |
| BufferRoomTheorems.DiscardMakesProgress | libs/evolving_disk_state/include/evolving_disk_state/buffer_room.hpp:119-153 | Once the flag is set nobody registers, items change only by the clear without readers, and each step of a reader or the discarder lowers a measure that no other step changes |
| BufferRoomTheorems.DiscardEnds | libs/evolving_disk_state/include/evolving_disk_state/buffer_room.hpp:119-153 | Over any stretch of a run with the flag set, new calls and spurious wake-ups included, readers and the discarder together take at most as many steps as were left at its start, which is at most four per reader and nine, and two more for each spurious wake-up of the discarder |
| BufferRoomTheorems.DiscardClears | libs/evolving_disk_state/include/evolving_disk_state/buffer_room.hpp:119-153 | Over such a stretch nothing changes until the clear; behind it, also once the flag is reset, exactly what was there has been purged and the room is empty |
| BufferRoomTheorems.DiscardIsNeverBlocked | libs/evolving_disk_state/include/evolving_disk_state/buffer_room.hpp:127-149 | During a discard a thread it waits for can step, or the state mutex is given back with the next step |
| PrefixSuffix.SplitThenJoin | apps/wedding_cake/include/donut_entries_calculator.hpp:211-240 | Masked prefix and masked suffix rejoin to the hash, for every prefix width up to the whole hash, shared byte included; the program holds the width in eight bits, so it is at most 255 there |
| PrefixSuffix.PrefixIndexIsQuotient | apps/wedding_cake/include/hash_prefix_suffix.hpp:144-160 | The index read from a window of eight bytes is the top p bits of the whole hash |
| PrefixSuffix.SuffixIsRemainder | apps/wedding_cake/include/hash_prefix_suffix.hpp:123-137 | The masked suffix is the hash modulo the weight of the prefix |
| PrefixSuffix.PrefixIsTheRest | apps/wedding_cake/include/hash_prefix_suffix.hpp:108-121 | The masked prefix, put back in its place, is the hash without the remainder |
| PrefixSuffix.WholeBytesIsLeast | apps/wedding_cake/include/hash_prefix_suffix.hpp:80-102 | The number of bytes of a prefix or a suffix is the least that holds its bits |
| PrefixSuffix.IndexAndSuffixMakeTheHash | apps/wedding_cake/include/hash_prefix_suffix.hpp:108-160 | As numbers, the hash is prefix index times weight plus masked suffix, both in range |
| PrefixSuffix.MakeMsPrefixPath | apps/wedding_cake/include/hash_prefix_suffix.hpp:176-221 | The loop builds one folder per byte of the masked index, most significant first, and fails above 64 bits |
| PrefixSuffix.PathSpellsTheIndex | apps/wedding_cake/include/hash_prefix_suffix.hpp:176-221 | The path spells the bytes of the low p bits in digits 0 to F, most significant first, in as few levels as hold them; without prefix bits it is one file, beyond 64 there is none |
| PrefixSuffix.PathsAreDistinct | apps/wedding_cake/include/hash_prefix_suffix.hpp:190-220 | Different indices below 2^p live at different paths |
| DonutEntries.WidthIsLeast | apps/wedding_cake/include/donut_entries_calculator.hpp:156-173 | The computed width is the least b with 256^b above the capacity |
| DonutEntries.WidthExists | apps/wedding_cake/include/donut_entries_calculator.hpp:156-173 | Only a donut without slots is refused |
| DonutEntries.IndicesAvoidSentinel | apps/wedding_cake/include/donut_entries_calculator.hpp:156-173 | A width lets every index of the donut be written and differ from the all-ones sentinel if and only if it is at least the computed one |
| DonutEntries.WriteHashesOrderFileEntry | apps/wedding_cake/include/donut_entries_calculator.hpp:59-102 | Writes the record to the front of the buffer and nothing behind it; fails exactly when a real index looks like the sentinel |
| DonutEntries.CollisionExactly | apps/wedding_cake/include/donut_entries_calculator.hpp:85-100 | An index looks like the sentinel exactly if the bytes that are kept of it are all ones |
| DonutEntries.ReadHashesOrderEntryFromBytes | apps/wedding_cake/include/donut_entries_calculator.hpp:243-277 | All ones is a gap, anything else prefix bytes and index |
| DonutEntries.WriteSuffixesFileEntry | apps/wedding_cake/include/donut_entries_calculator.hpp:120-143 | Masked suffix and the distance of the two global indices for a hash, nothing for a gap, and nothing behind the record |
| DonutEntries.LocalPiIs | apps/wedding_cake/include/types.hpp:60-66 | The distance of an index from the start of its donut, and no match for one before it |
| DonutEntries.GapReadsBack | apps/wedding_cake/include/donut_entries_calculator.hpp:68-73 | A gap reads back as a gap for every format |
| DonutEntries.EntryReadsBack | apps/wedding_cake/include/donut_entries_calculator.hpp:75-82 | A real record reads back as written if and only if its index fits and the record is not all ones |
| DonutEntries.RecordsGiveTheHashBack | apps/wedding_cake/include/donut_entries_calculator.hpp:211-295 | A suffix record gives back its index and, with the prefix of its order record, the hash |
| HashesOrderFiles.RecordReadsBack | apps/wedding_cake/include/hashes_order_file.hpp:109-136 | A record decodes to itself if and only if its fields fit their widths and the index is not the sentinel |
| HashesOrderFiles.RecordIsOneNumber | apps/wedding_cake/include/hashes_order_file.hpp:109-136 | A record in range is one little-endian number: index, above it prefix bits, above them spare bits; no match is all ones |
| HashesOrderFiles.PrefixBytesIsLeast | apps/wedding_cake/include/hashes_order_file.hpp:30-42 | A format has as few bytes as hold the prefix, and the spare bits fill them up |
| HashesOrderFiles.HashesOrderFileWriter.Append | apps/wedding_cake/include/hashes_order_file.hpp:109-136 | The file grows by the encoded record |
| HashesOrderFiles.HashesOrderFileReader.SeekEntry | apps/wedding_cake/include/hashes_order_file.hpp:195-199 | The position is where the record of that index starts |
| HashesOrderFiles.HashesOrderFileReader.ReadNext | apps/wedding_cake/include/hashes_order_file.hpp:207-240 | Decodes the bytes at the position, zeros standing for missing ones, and gives the default record at the end |
| HashesOrderFiles.SeekAndReadGivesTheRecord | apps/wedding_cake/include/hashes_order_file.hpp:195-240 | In a file of any records, the bytes at index k decode to record k if and only if that record is in range |
| HashesOrderFiles.WriteThenRead | apps/wedding_cake/include/hashes_order_file.hpp:109-240 | Appending a list and seeking to k reads record k back |
| DonutFiles.RecordsWithoutPrefix | apps/wedding_cake/include/ingester_evolver_types.hpp:121-133 | With no prefix bits an order record is its index alone and a suffix record holds the whole hash |
| DonutFiles.InsertAllMeaning | apps/wedding_cake/include/ingester_evolver_types.hpp:155-162 | The map keeps what it knew and maps each new hash to a place where it stands |
| DonutFiles.InsertAllSize | apps/wedding_cake/include/ingester_evolver_types.hpp:136-162 | The map grows by the number of hashes if and only if none is repeated |
| DonutFiles.ChunkingIsInvisibleExactlyWithoutRepeats | apps/wedding_cake/include/ingester_evolver_types.hpp:116-176 | Appending a and then b leaves the donut and bytes of appending a ++ b if and only if a repeats no hash or b holds none |
| DonutFiles.ChunkingCanShow | apps/wedding_cake/include/ingester_evolver_types.hpp:136 | A repeated hash followed by another one makes the two byte strings differ |
| DonutFiles.AppendedIsOk | apps/wedding_cake/include/ingester_evolver_types.hpp:116-176 | Every append keeps: map and suffix file are functions of the contents, and for reproducible contents the order file too |
| DonutFiles.NoRepeatsIsReproducible | apps/wedding_cake/include/ingester_evolver_types.hpp:136 | Contents that repeat no hash are reproducible |
| DonutFiles.ReverseMeaning | apps/wedding_cake/include/ingester_evolver_types.hpp:155-162 | The map of the slots finds the first place of a hash, and nothing else |
| DonutFiles.SuffixFileReadsBack | apps/wedding_cake/include/ingester_evolver_types.hpp:135-153 | After any appends the suffix file has one record per hash, of the hash and an index of as many bytes as the capacity needs; each record reads back as the hash and its slot |
| DonutFiles.OrderFileReadsBack | apps/wedding_cake/include/ingester_evolver_types.hpp:93-153 | The order file of some contents is a header byte 2 and two bytes per slot, which read back as the number of hashes before it, or as a gap |
| DonutHydrations.HydrationAcceptsExactlyWrittenFiles | apps/wedding_cake/include/ingester_evolver_types.hpp:195-290 | Reloading accepts an order file with contents s if and only if it is byte for byte the one written for s and the suffix file starts with the hashes of s |
| DonutHydrations.MissingFilesAreEmpty | apps/wedding_cake/include/ingester_evolver_types.hpp:195-230 | Missing files, or an order file without its header, reload as a donut without slots; another header is refused |
| DonutHistories.OrderFileIsCanonicalExactly | apps/wedding_cake/include/ingester_evolver_types.hpp:135-153 | After any batches the order file is some donut's file only if the history is resumable, and then it is the file of the contents |
| DonutHistories.ReloadsExactlyIfResumable | apps/wedding_cake/include/ingester_evolver_types.hpp:195-290 | After any appends, reloading succeeds if and only if no hash had been repeated when a later batch brought a hash; it then gives the same slots and map |
| DonutHistories.ReloadsExactlyIfLegible | apps/wedding_cake/include/ingester_evolver_types.hpp:195-290 | A donut with any history reloads, as it was, if and only if its order file is the one of its contents |
| DonutHistories.RepeatDoesNotReload | apps/wedding_cake/include/ingester_evolver_types.hpp:264-268 | Any hash twice in one batch and any hash in the next one: the donut does not reload |
| DonutHistories.BytesDependOnContentsAlone | apps/wedding_cake/include/ingester_evolver_types.hpp:116-176 | Any way to cut reproducible contents into batches leaves the donut and files of appending them at once |
| DonutHistories.ChunkingIsInvisibleExactlyIfReproducible | apps/wedding_cake/include/ingester_evolver_types.hpp:116-176 | All ways to cut the contents leave the same donut and files if and only if, wherever they are cut, no hash is repeated before the cut or none follows it |
| RemainderDonuts.RemainderDonut.CreateNew | apps/wedding_cake/include/ingester_evolver_types.hpp:88-100 | A new folder has an order file of one header byte and an empty suffix file, both open |
| RemainderDonuts.RemainderDonut.Existing | apps/wedding_cake/include/ingester_evolver_types.hpp:77-87 | An existing folder keeps its files, which are not opened again |
| RemainderDonuts.RemainderDonut.WriteSlot | apps/wedding_cake/include/ingester_evolver_types.hpp:137-153 | One slot appends its suffix record unless it is a gap, and its order record; the sentinel assertion cannot fail |
| RemainderDonuts.RemainderDonut.WriteSlots | apps/wedding_cake/include/ingester_evolver_types.hpp:135-153 | The loop appends the records of the batch, numbered from the size of the map |
| RemainderDonuts.RemainderDonut.WriteReverse | apps/wedding_cake/include/ingester_evolver_types.hpp:155-162 | The map keeps the first index of every hash |
| RemainderDonuts.RemainderDonut.AppendHashes | apps/wedding_cake/include/ingester_evolver_types.hpp:116-176 | Takes what fits, leaves exactly the specified donut and files, closes and seals when full, and fails without effect if files are not open |
| RemainderDonuts.RemainderDonut.HydrateRecord | apps/wedding_cake/include/ingester_evolver_types.hpp:254-289 | One record adds a gap or the next hash, or fails on order or truncation |
| RemainderDonuts.RemainderDonut.HydrateSelfForLookup | apps/wedding_cake/include/ingester_evolver_types.hpp:195-290 | The loop over both files rebuilds slots and map, or fails, exactly as specified, for any bytes; the map is then the one of the slots |
| RemainderDonuts.RemainderDonut.ReverseLookup | apps/wedding_cake/include/ingester_evolver_types.hpp:186-192 | The global index of the first slot that holds the hash; no match means that no slot does |
| Manifest.ManifestEngine.RecordMicrostepDeclaration | include/evolving_disk_state_old/manifest_engine.hpp:74-82 | The log grows by the declaration record, the name cut to its length byte |
| Manifest.ManifestEngine.CommitWorkSlice | include/evolving_disk_state_old/manifest_engine.hpp:84-101 | The log grows by the commit record |
| Manifest.RunCalls | include/evolving_disk_state_old/manifest_engine.hpp:74-101 | The calls of a session on a fresh engine leave the log that the crash theorems cut |
| Manifest.LastCommittedLengths | include/evolving_disk_state_old/manifest_engine.hpp:33-62 | The parse loop computes the specified lengths for any bytes |
| Manifest.CrashAtAnyByte | include/evolving_disk_state_old/manifest_engine.hpp:37-62 | A log of whole calls cut at any byte recovers exactly what the surviving calls committed |
| Manifest.MagicIsEnough | include/evolving_disk_state_old/manifest_engine.hpp:50-58 | In a log that ends inside a commit, the commit counts from the last byte of its magic on |
| Manifest.OtherMagicCommitsNothing | include/evolving_disk_state_old/manifest_engine.hpp:50-58 | A commit record with another magic commits nothing and is passed over |
| Manifest.GarbageIsIgnored | include/evolving_disk_state_old/manifest_engine.hpp:37-62 | Bytes behind whole calls that are no record are ignored |
| Manifest.DeclarationFormat | include/evolving_disk_state_old/manifest_engine.hpp:74-82 | The bytes of a declaration, one by one |
| Manifest.CommitFormat | include/evolving_disk_state_old/manifest_engine.hpp:84-101 | The bytes of a commit, one by one |
| Manifest.LogTellsSizes | include/evolving_disk_state_old/manifest_engine.hpp:74-101 | Replaying the log of a session gives the sizes of its declared and of its committed contents |
| Manifest.CommittedIsFlushedExactly | include/evolving_disk_state_old/manifest_engine.hpp:84-101 | Throughout a session committed contents are a prefix of flushed ones, if and only if every commit is given the handle of every declared file that is not flushed so far |
| Manifest.FilesOnlyGrow | include/evolving_disk_state_old/manifest_engine.hpp:74-101 | Declared and flushed contents are always prefixes of what was written |
| Manifest.PassingHandlesCovers | include/evolving_disk_state_old/slice_context.hpp:17-27 | Passing the handles of the files declared since the last commit is enough |
| Manifest.CommitWithoutHandleLoses | include/evolving_disk_state_old/manifest_engine.hpp:29-101 | A commit without the handle of a declared file: recovery from the complete log finds a zero for the committed byte |
| Manifest.RecoverStateDirectory | include/evolving_disk_state_old/manifest_engine.hpp:29-72 | Whatever order the files come in, existing committed files are resized to their committed lengths and others left alone |
| Manifest.CrashRestoresCommittedContents | include/evolving_disk_state_old/manifest_engine.hpp:29-101 | If the commits so far were given the handles they need, then after a crash at any byte with unflushed data in any state, recovery gives every committed file exactly its committed contents and leaves the others alone |
| Manifest.RecoveryRestoresExactly | include/evolving_disk_state_old/manifest_engine.hpp:29-101 | Recovery does so after every crash of a session, with the log cut at any byte and each file holding what was flushed and then anything, if and only if every commit is given the handle of every declared file that is not flushed so far |
| Manifest.SurvivingIsAPoint | include/evolving_disk_state_old/manifest_engine.hpp:29-101 | The surviving calls are those of the session up to some point |
| IngesterBuffers.IngesterBuffer.constructor | apps/wedding_cake/include/ingester_buffer.hpp:26-31 | An empty buffer at the given index |
| IngesterBuffers.IngesterBuffer.FeedBlockOfHashes | apps/wedding_cake/include/ingester_buffer.hpp:42-71 | Behind the wait: the block is queued and every hash mapped to its last index, or dropped after a stop; the pipeline's feed step |
| IngesterBuffers.IngesterBuffer.RequestFlush | apps/wedding_cake/include/ingester_buffer.hpp:75-80 | Returns at once on an empty buffer, otherwise asks for a flush; the pipeline's flush step |
| IngesterBuffers.IngesterBuffer.Stop | apps/wedding_cake/include/ingester_buffer.hpp:88-97 | Sets the stop flag and withdraws flush requests |
| IngesterBuffers.IngesterBuffer.BatchDone | apps/wedding_cake/include/ingester_buffer.hpp:127-147 | Fails exactly on its two assertions, otherwise new capacity, first index past the batch, empty map, flush answered |
| IngesterBuffers.IngesterBuffer.ForwardLookup | apps/wedding_cake/include/ingester_buffer.hpp:166-175 | Between worker rounds: the slot of the stream for every index that is not handed downstream, and the failed range assertion for every other |
| IngesterBuffers.IngesterBuffer.ReverseLookup | apps/wedding_cake/include/ingester_buffer.hpp:177-184 | The last place of the hash in the part of the stream that is not handed downstream; no match means absence there |
| IngesterWorkers.IngesterTierFolder.AwaitRoom | apps/wedding_cake/include/ingester_tier_folder.hpp:116 | The wait of a promotion ends with space in the room, with any number of discards before and after |
| IngesterWorkers.IngesterTierFolder.OtherThreads | libs/evolving_disk_state/include/evolving_disk_state/buffer_room.hpp:119-153 | While the worker holds its lock any number of discards may happen; they are a run of the pipeline's steps |
| IngesterWorkers.IngesterTierFolder.PromoteHatchlingAndSpawnNext | apps/wedding_cake/include/ingester_tier_folder.hpp:111-121 | The full hatchling goes to the room and a new one starts behind it, or throws exactly if its offset is 2^31 or more; a run of the pipeline's steps |
| IngesterWorkers.IngesterTierFolder.HatchlingForwardLookup | apps/wedding_cake/include/ingester_evolver_types.hpp:179-183 | In any reachable state: the slot of the stream for every index in the hatchling's part, and the failed range assertion for every other |
| IngesterWorkers.IngesterTierFolder.HatchlingReverseLookup | apps/wedding_cake/include/ingester_evolver_types.hpp:186-192 | The first place of the hash in the hatchling's part of the stream; no match means absence there |
| IngesterWorkers.IngesterTierFolder.RoomForwardLookup | apps/wedding_cake/include/lookupable_buffer_room.hpp:67-85 | The slot of the stream for every index in the room's part, so the search never misses; the failed assertion for every other index |
| IngesterWorkers.IngesterTierFolder.RoomReverseLookup | apps/wedding_cake/include/lookupable_buffer_room.hpp:87-100 | The first place of the hash in the room's part of the stream; no match means absence there |
| IngesterWorkers.FillHatchling | apps/wedding_cake/include/ingestor_worker.hpp:33-50 | One round always takes something, erases it from the buffer and promotes a full hatchling, or throws as the promotion does; a run of the pipeline's steps |
| IngesterWorkers.DrainBatch | apps/wedding_cake/include/ingestor_worker.hpp:32-63 | The nested loops drain the batch, with discards before every round, as a run of the pipeline's steps, or throw exactly if 2^31 slots or more are promoted |
| IngesterWorkers.WorkerRound | apps/wedding_cake/include/ingestor_worker.hpp:18-66 | From any reachable state a round of the worker is a run of the pipeline's steps, none of its assertions fails, and it empties the buffer unless it throws, which it does exactly if 2^31 slots or more are promoted |
| IngestionTheorems.StepIsInv | apps/wedding_cake/include/ingester_buffer.hpp:42-148 | Every step of feeders, flushers, worker and discards keeps the pipeline invariant |
| IngestionTheorems.RunIsInv | apps/wedding_cake/include/ingestor_worker.hpp:13-67 | The invariant holds after any sequence of steps |
| IngestionTheorems.StepStaysSound | apps/wedding_cake/include/ingester_evolver_types.hpp:116-176 | Every step keeps: donuts have a history of appends, their contents determine map and files as far as those are reproducible, and the buffer's map knows the last place of every queued hash |
| IngestionTheorems.ReachedIsSound | apps/wedding_cake/include/ingestor_worker.hpp:13-67 | Both invariants hold in every state that a fresh pipeline reaches |
| IngestionTheorems.StreamIsConserved | apps/wedding_cake/include/ingestor_worker.hpp:32-63 | After any run discarded donuts, room, hatchling and RAM buffer concatenate to the accepted stream; promoted donuts are full and contiguous and the buffer starts where the hatchling ends |
| IngestionTheorems.FedIsTheBlocks | apps/wedding_cake/include/ingester_buffer.hpp:42-71 | The accepted stream is made of exactly the blocks that were fed before a stop |
| IngestionTheorems.FeedsExactlyWhen | apps/wedding_cake/include/ingester_buffer.hpp:48-52 | A feed waits exactly while what is queued would fill the hatchling, and never once stopped |
| IngestionTheorems.TakesExactlyWhen | apps/wedding_cake/include/ingester_buffer.hpp:115-119 | The worker takes a batch exactly when that fills the hatchling, or on a flush or a stop |
| IngestionTheorems.StopIsForGood | apps/wedding_cake/include/ingester_buffer.hpp:88-97 | After a stop nothing is accepted, and whenever the worker is outside its lambda no feeder and no flusher waits |
| IngestionTheorems.WorkerAssertionsHold | apps/wedding_cake/include/ingester_buffer.hpp:119-130 | In every reachable state a batch is not empty, an append takes something and fits, the returned capacity is positive and the next donut starts behind the last |
| IngestionTheorems.ThrowsExactly | libs/evolving_disk_state/include/evolving_disk_state/tier_folder.hpp:49-67 | In any reachable state the worker has thrown, or throws with its next step, exactly if a donut is to start at an offset of 2^31 or more; that takes as many accepted slots, and nothing happens afterwards |
| IngestionTheorems.QueueIsBounded | apps/wedding_cake/include/ingester_buffer.hpp:47-50 | The queue stays below the donut capacity plus the largest block |
| IngestionTheorems.StepGrows | apps/wedding_cake/include/ingestor_worker.hpp:36-50 | The stream and what is stored of it never shrink |
| IngestionTheorems.FlushedIsStored | apps/wedding_cake/include/ingester_buffer.hpp:75-85 | Whatever happens in between, a flush that may return without a stop has everything accepted before its call stored |
| IngestionTheorems.BatchMakesProgress | apps/wedding_cake/include/ingestor_worker.hpp:32-51 | Inside the lambda only a full room holds the worker up, each of its steps lowers a measure, and only discards interleave |
| IngestionTheorems.WaitersHaveAWorker | apps/wedding_cake/include/ingester_buffer.hpp:48-84 | A held-up feeder or flusher means the worker can take the batch |
| IngestionRuns.OffsetsRunOut | libs/evolving_disk_state/include/evolving_disk_state/tier_folder.hpp:49-67 | For any capacity some run of the pipeline throws |
| IngesterWaits.StepIsInv | apps/wedding_cake/include/ingester_buffer.hpp:42-148 | Every atomic action of any number of feeders, flushers and stops and one worker, every new call and every spurious wake-up keeps the invariant of mutex, wait predicates and notifications |
| IngesterWaits.NoWakeUpIsLost | apps/wedding_cake/include/ingester_buffer.hpp:48-147 | In every run, whenever a sleeping feeder, flusher or worker could go on, a thread that can move at once has the notification for it ahead |
| IngesterWaits.NoDeadlock | apps/wedding_cake/include/ingester_buffer.hpp:48-147 | If no thread can move, all are outside, except that the worker has ended or rightly waits for items |
| IngesterWaits.FeedQueuesOnce | apps/wedding_cake/include/ingester_buffer.hpp:42-71 | In every run, a feed that has returned queued its block exactly once, while there was space, and changed nothing else; or it found the buffer stopped and changed nothing |
| IngesterWaits.FlushReturns | apps/wedding_cake/include/ingester_buffer.hpp:75-85 | In every run, a flush that has returned found the queue empty, or the buffer is stopped, or the worker has taken the queue since, knowing of the request |
| IngesterWaits.StopStops | apps/wedding_cake/include/ingester_buffer.hpp:88-97 | A stop that has returned has stopped the buffer for good; a destructor has also asked the worker to end |
| IngesterWaits.WorkerEnds | apps/wedding_cake/include/ingester.hpp:31-39 | Behind the two requests of the destructor every action of the worker brings its end nearer, at most eight are left, and nobody sets it back |
| IngesterWaits.ActionsAreSteps | apps/wedding_cake/include/ingester_buffer.hpp:42-122 | Behind their waits, feeders, flushers and stops do to the buffer what the pipeline's steps do; a feed goes on, a flush returns and the worker takes a batch exactly when those steps are enabled |
| IngesterWaits.LambdaIsReturn | apps/wedding_cake/include/ingester_buffer.hpp:126-147 | The bookkeeping behind the lambda is the pipeline's step that returns the batch |
| IngestionDeterminism.DonutIsItsWindow | apps/wedding_cake/include/ingester_evolver_types.hpp:116-176 | After any run the k-th donut holds the k-th window of the stream, and if that is reproducible it is, bytes included, the donut of appending the window at once |
| IngestionDeterminism.SchedulesDoNotShow | apps/wedding_cake/include/ingestor_worker.hpp:21-64 | Two runs with any blocks, flushes and discards that agree on a reproducible window have byte-identical donuts for it |
| IngestionDeterminism.SameStreamSameDisk | apps/wedding_cake/include/ingester_tier_folder.hpp:111-121 | With the queue drained and the contents of every donut reproducible, the same stream leaves the same donuts and the same hatchling, bytes included |
| IngestionDeterminism.ScheduleThatShows | apps/wedding_cake/include/ingestor_worker.hpp:21-64 | For every donut that can be started: if a hash is repeated before a cut and another follows it, the run that feeds up to the cut, flushes, and feeds the rest stores other bytes than appending at once |
| IngestionDeterminism.SchedulesShowExactly | apps/wedding_cake/include/ingestor_worker.hpp:21-64 | Every run that fills its k-th donut with given contents stores the same bytes, if and only if the contents are reproducible or no k-th donut can be started |
| LookupableBufferRooms.LookupableBufferRoom.InitializeAdd | libs/evolving_disk_state/include/evolving_disk_state/buffer_room.hpp:31-37 | Adds a donut, or fails without effect when the room is full |
| LookupableBufferRooms.LookupableBufferRoom.ForwardLookup | apps/wedding_cake/include/lookupable_buffer_room.hpp:67-85 | The search from newest to oldest gives the slot of the newest donut that holds the index, and says when an assertion fails |
| LookupableBufferRooms.LookupableBufferRoom.ReverseLookup | apps/wedding_cake/include/lookupable_buffer_room.hpp:87-100 | A hit comes from the oldest donut that knows the hash; a miss means none does |
| IngestionLookups.RangesCoverTheStream | apps/wedding_cake/include/ingester_tier_folder.hpp:33-41 | Every accepted slot is discarded or in the range of exactly one of room, hatchling and RAM buffer |
| TierRestarts.HydrateDonut | apps/wedding_cake/include/ingester_tier_hydrator.hpp:19-31 | Loading one folder gives what its two files determine |
| TierRestarts.HydrateBufferRoom | apps/wedding_cake/include/ingester_tier_folder.hpp:89-108 | Loads all folders but the last, none if there are none, or fails on too many folders, a bad file or an unfilled donut |
| TierRestarts.StartIngester | apps/wedding_cake/include/ingester.hpp:19-27 | Starting on any folders gives the specified tier or fails; without folders an empty tier at offset 0 |
| TierRestarts.FirstStart | apps/wedding_cake/include/ingester_tier_folder.hpp:77-83 | A start without folders is the start of the pipeline: an empty hatchling at offset 0 and an empty room |
| TierRestarts.StartsExactly | apps/wedding_cake/include/ingester_tier_folder.hpp:56-108 | Which lists of folders a tier starts from, and what is then in it |
| TierRestarts.RestartSucceedsExactly | apps/wedding_cake/include/ingester_tier_folder.hpp:56-108 | On the folders of any reachable state, repeated hashes included, a start succeeds if and only if the hatchling exists with space, at most as many donuts were ever filled as the room takes, and every order file is the one of its contents; it then finds the hatchling and all filled donuts, discarded ones included |
| TierRestarts.ReproducibleRestarts | apps/wedding_cake/include/ingester_tier_folder.hpp:56-108 | With reproducible contents in every donut, numbers alone decide whether a start succeeds |
| TierRestarts.DiscardsComeBack | apps/wedding_cake/include/ingester_tier_folder.hpp:99-107 | The restarted room is the room before if and only if nothing was ever discarded |
| TierRestarts.RepeatPreventsRestart | apps/wedding_cake/include/ingester_evolver_types.hpp:264-268 | Two equal hashes, a flush, any other hash, a flush: a reachable state with space everywhere on whose folders no start succeeds |
| TierRestarts.DiscardsPreventRestart | apps/wedding_cake/include/ingester_tier_folder.hpp:89-93 | One donut more than the room takes, each discarded in turn, whatever the contents: a reachable state on whose folders no start succeeds |
| TierRestarts.DiscardedComesBack | apps/wedding_cake/include/ingester_tier_folder.hpp:99-107 | One filled and discarded donut: the start succeeds, and finds it in the room that was empty |

## Left out

- ShallowTrees.CalculateByteScore: the score is the sum as an integer; the program negates it and converts it to a double.
- ShallowTrees.ChooseByte: scores are compared as integers; the double comparison of the program agrees as long as the square of the number of hashes stays within 2^53.
- TreeTheorems.ChosenByteSplits: sizes whose square passes 2^53, where rounded scores can tie.
- ShallowTrees.Construct: masks are sets of byte indexes instead of 64-bit words, nodes are values instead of heap nodes, and a tree with a leaf needs at least one reassurance byte, since with none a leaf is written past its end.
- TreeTheorems.OrderIndependence: `sort_partition_by_byte` is not modelled; it is unused.
- BufferRoomTheorems.DiscardMakesProgress: one action at a time, `DiscardEnds` and `DiscardClears` are about runs; a waiting worker may miss a discard that ends before it wakes up.
- BufferRooms.Start: one discard at a time; several concurrent discards and lambdas that call back into the room are not modelled.
- IngesterBuffers.IngesterBuffer.FeedBlockOfHashes: the wait itself is the method's precondition; waits and notifications are the subject of `IngesterWaits`.
- Ingestions.Do: a discard of the room and a feed into it are one step each; their interleaving with readers is the subject of `BufferRoomTheorems`.
- IngesterWorkers.WorkerRound: the exit of the thread, which `IngesterWaits` has; the worker may leave unflushed slots in the queue when it is asked to stop.
- IngestionTheorems.BatchMakesProgress: a discard is one step, so the wait of a promotion for the end of a discard does not appear; `DiscardEnds` bounds it.
- IngesterWaits.Do: the lambda is one action that returns any capacity; what it does is the subject of `Ingestions`.
- IngesterWorkers.IngesterTierFolder.PromoteHatchlingAndSpawnNext: the moved-from hatchling behind the exception, which ends the program.
- IngesterWorkers.IngesterTierFolder.RoomForwardLookup: lookups while a discard is under way, which the room refuses, and the unlocked reads of `first_offset` and `next_offset`; the same for `RoomReverseLookup`.
- RemainderDonuts.RemainderDonut.AppendHashes: streams always accept what is written; buffering inside a stream before a flush is not modelled.
- TierRestarts.RestartSucceedsExactly: folders hold what was appended, so a crash with unflushed streams is not covered.
- TierRestarts.Startup: names of folders; those that do not parse are not in the list.
- HashesOrderFiles.HashesOrderFileReader.SeekEntry: the state of the stream, which the program returns.
- HashesOrderFiles.HashesOrderFileReader.ReadNext: prefix widths up to 63; at 64 the program shifts by the full width of the word. The fail state of a stream after the end is not modelled.
- PrefixSuffix.SplitThenJoin: the program narrows the prefix width to eight bits; widths from 256 on, possible for hashes of 32 bytes and more, would be taken modulo 256 there.
- Manifest.LastCommittedLengths: names longer than 255 bytes are recorded by their length modulo 256, as in the program; such names are outside the theorem on contents.
- Manifest.ManifestEngine.CommitWorkSlice: the flush of the data files before the record is part of `Manifest.After`, not of the class.
- Manifest.CrashRestoresCommittedContents: a log that starts empty and one crash; continuing to write the same log after a recovery is not modelled, since torn records stay in it.
- PrefixSuffix.MakeMsPrefixPath: paths are lists of names.
- Generic and superseded parts: `LSSuffixEntriesFile`, `OutputBuffer`, `ExternalFeeder`, `SliceContext` beyond the handles it passes, `TierOrchestrator`, `Tier0`, `Sack`, `Store`, the stubs of `StoreB`, the generic `TierFolder`, and the bake and icing cascade described in `docs/`.
