# A Dafny model of the code-graph archive and the GitHub observation archive

The repository keeps two kinds of durable history. A KGA archive is one append-only file of Merkle pages, commit
manifests, checkpoints and indexes, from which any archived generation of a code graph can be read back. The observation
archive is a set of tables of facts about GitHub issues, pulls and commits, filled by synchronization cycles and
maintenance jobs. This project models both, and the two loops outside them whose correctness is least obvious: the
conditional pagination cache and the acquisition of commits.

`dafny verify dfyconfig.toml` checks the whole project. Every file holds one module.

## How it is organized

**The KGA archive.** `Collections` and `Wrappers` hold shared notions. `Text`, `Orders`, `Model` and `Shards` hold
encodings, sorting, the archived values and the shards. `Wire` and `Log` give the bytes of frames and the file of a log
of records (pages, commits, indexes). `Trailers`, `Chain`, `Scan` and `Recovery` are the backward searches, the
checkpoint chain, the forward scan and the argument that only genuine trailers validate. `Reopen` and `Durability` prove
that a file cut at any byte reopens with the commits kept, and at most one more whose trailer was torn off. `PageStore`,
`ArchiveWriter`, `Trees`, `RadixTree`, `ArchiveReader` and `Recorder` are the page cache, the writer, the stored trees,
their updates, the reader and the recorder, as classes over the same log. `Runs` puts them together: over every run of
appends, commits, finalizations, extensions, crashes and reopenings a generation once committed reads back unchanged,
and a list of appends is such a run, whose commits read back as the folds of what was captured. `NativeReader`, `Sha256`
and `Sha256Constants` are the C reader, its digest, and where the numbers of the digest come from.

**Generations.** `StoreDiff` models the relational queries that compare two generations of the CBM store, and shows that
folding what they capture into the archived generation gives the published one, with the contents of its records.
`BuildProtocol` is the sequence of durable steps around one commit and the loop over all of them, under interruptions at
every step; without any, and with room in the file, it completes. `Sessions` adds the crash: what it leaves of the
archive file is opened again, is still paired with the published store, and the next session goes on from there.

**The observation archive.** `Facts` and `FactQueries` are the publication tables, heads, SHA index and queries;
`Cycles` and `Jobs` the tables of synchronization cycles and maintenance jobs; `Observations` the class whose methods
are the transactions over all of them. `Backfill` drives it and proves what a complete backfill means. `FamilyPlan` is
the closure of requested fact families and the pass that reads them.

**Loops against remotes.** `Pagination` is the conditional page cache; `Connections` the GraphQL connections read in
rounds; `GitClosure`, `GitSources` and `GitRetention` the verification, batching and acquisition of commits.

## What is assumed

- JSON, zlib, CRC-32 and the page parsers are one `Codec` of functions, assumed to be inverse where one encodes what
  another decodes (`Codec.Sound`). The page hash is a function of fixed width; where equal digests have to mean equal
  contents, only the pages of the two trees compared are assumed not to collide (`Trees.HashesApart`). That equal
  contents have equal digests needs no such assumption.
- A crash keeps any prefix of the file that holds at least everything flushed. Reads past the end are short. The index
  that reopening writes on its compatibility path is flushed at its end, and the next crash may come before that.
- `Genuine`: a frame that validates at an offset was written there. `NoStrayFooter`: no frame of the log has the footer
  magic where a cut could end on it. `NoCollision`: no frame header carries the checkpoint magic. They are stated for
  the log at hand, and a log they hold of keeps them for each of its first parts; a step that crashes supposes them of
  the log it strikes, which includes one that ends in the index of an earlier reopening.
- Files stay below `OFFSET_LIMIT`, the number whose bytes are the footer magic read one byte late; a write beyond it
  fails (`FULL`). Results that promise success suppose a bound on the bytes of
  one record and room for the records (`ArchiveWriter.HasRoom`).
- The CBM runner is its durable state (pending and current commit, the published store). What CBM publishes is a
  well-formed generation, and it reports a no-op only when it left the store alone.
- A validator of a page stands for one body of its address, and a 304 is sent exactly when that body is current.
- A Git store answers each query from one state; that a failing member of a batch shows in the batch, and that a fetch
  is atomic, are hypotheses of the results that use them and of nothing else.
- The server of a GraphQL connection hands out finitely many cursors.

## Where the code and its documentation disagree

The docstring of `paginate_cached` says that `per_page` is fixed at 100, but the code only supplies 100 as a default.
`Pagination.FreshExactlyAtHundred` gives the condition under which the cache is right, for every value a caller may
pass, and `Pagination.SmallerGoesStale` a run that goes wrong for every smaller one.

The page cache counts a page twice if it is remembered under a key that survived the eviction. Both callers remember
only pages they did not find; `PageStore.PutSize` states exactly when the count is right.

## Model

| member | source | states |
|---|---|---|
| Wire.UnpackPack | gh_puller/codebase/archive.py:201-209 | Packing a number into big-endian bytes and unpacking it gives the number back, for every width that holds it. |
| Wire.OffsetIsNotMagic | gh_puller/codebase/archive.py:201-209 | No offset below the admitted file size has the bytes of the footer magic, so an offset field can never be mistaken for it. |
| Wire.ReadStoredFrame | gh_puller/codebase/archive.py:212-229 | A frame that was written reads back wherever its bytes lie in a file: header, sizes, checksum, digest and payload all agree. |
| Wire.ReadFrameInPrefix | gh_puller/codebase/archive.py:212-229 | A frame that validates in a prefix of a file validates in the whole file, with the same contents. |
| Log.FrameReadsBack | gh_puller/codebase/archive.py:564-572 | The frame of every appended record reads back from any cut of the file that keeps all of it. |
| Log.TrailerReadsBack | gh_puller/codebase/archive.py:584-607 | The checkpoint or footer of every appended record reads back from any cut that keeps it. |
| Log.HeadRecord | gh_puller/codebase/archive.py:584-607 | The offset that the next checkpoint links to is that of the last record with a trailer; it already reaches all commits, and only pages follow it. |
| Trailers.MagicsDoNotOverlap | gh_puller/codebase/archive.py:336-350 | Two occurrences of a trailer magic never overlap, which is why the inner search may continue before the match. |
| Trailers.RFind | gh_puller/codebase/archive.py:338-341 | The result is the greatest match that ends at or before the limit; none means that there is none. |
| Trailers.SearchWindow | gh_puller/codebase/archive.py:336-353 | A window without a result holds no valid trailer, and a result is the last valid trailer of the whole file, given that nothing valid lies behind the window. |
| Trailers.FindLast | gh_puller/codebase/archive.py:325-382 | For every file and every chunk size above 7 the windowed backward search ends and returns the greatest offset whose trailer validates, across window boundaries. |
| Chain.LoadChain | gh_puller/codebase/archive.py:385-410 | Starting from the last valid checkpoint the loop collects exactly the manifests of the backward walk, oldest first, and fails exactly where the walk does (a cycle, a bad link, a bad frame). |
| Chain.FollowChain | gh_puller/codebase/archive.py:385-410 | The loop over the links gives what the recursive walk gives, and where the file may be cut. |
| Scan.ScanFrames | gh_puller/codebase/archive.py:237-272 | The scanning loop reports the frames and the stopping offset of the recursive definition of a scan, for every file, start and limit. |
| Scan.ScanUndoesAppend | gh_puller/codebase/archive.py:237-272 | Scanning any cut of a clean archive from any record on finds exactly the frames that the cut keeps whole, past interleaved checkpoints and embedded footers, and stops where the first cut record starts. |
| Recovery.CheckpointIsGenuine | gh_puller/codebase/archive.py:309-322 | An offset whose checkpoint validates is that of a checkpoint which was written there and which the cut keeps whole. |
| Recovery.FooterIsGenuine | gh_puller/codebase/archive.py:288-301 | An offset whose footer validates is that of a footer which was written there and which the cut keeps whole. |
| Recovery.IndexListsCommits | gh_puller/codebase/archive.py:594-607 | An index record of a well-formed log lists exactly the commits before it. |
| Reopen.LoadCommits | gh_puller/codebase/archive.py:556-562 | The manifests of the commit frames found by a scan, in order; it fails exactly when one of them does not decode. |
| Reopen.Open | gh_puller/codebase/archive.py:486-533 | Resuming an archive gives the commits, the truncated file, the chain link and the append position of the specification, on the footer, checkpoint and scanning paths alike. |
| Reopen.OpenByScanning | gh_puller/codebase/archive.py:507-533 | The compatibility path gives what the forward scan defines. |
| Reopen.View | gh_puller/codebase/archive.py:816-851 | The reader captures the commits that its specification names, whether the archive is complete or incomplete. |
| Durability.KeptCount | gh_puller/codebase/archive.py:486-533 | Every cut keeps some first records whole and no more. |
| Durability.ChainReachesCommits | gh_puller/codebase/archive.py:385-410 | From the newest trailer of any first records of a clean log the chain reaches exactly their commits, through embedded footers. |
| Durability.NewestCheckpoint | gh_puller/codebase/archive.py:325-354 | The checkpoint found behind a cut is that of the last checkpointed commit which the cut keeps. |
| Durability.NewestFooter | gh_puller/codebase/archive.py:357-382 | The footer found behind a cut is that of the last index which the cut keeps. |
| Durability.ReopenRecovers | gh_puller/codebase/archive.py:486-533 | Reopening a clean archive cut at any byte succeeds, and holds every commit kept whole, in order, and at most one more: the commit behind them whose frame was kept and only its trailer torn off. |
| Durability.ReaderAgreesWithWriter | gh_puller/codebase/archive.py:816-851 | A reader of a cut archive captures exactly the commits that a writer resumes from. |
| Durability.CompleteExactlyBehindIndex | gh_puller/codebase/archive.py:816-851 | A reader that insists on a complete archive accepts exactly the cuts right behind an index, and captures every commit they keep. |
| Durability.CleanPrefix | gh_puller/codebase/archive.py:504-533 | What a cut leaves behind is clean again, so every guarantee applies anew to later appends and crashes. |
| PageStore.EvictedIsLargestFit | gh_puller/codebase/archive.py:421-428 | Eviction drops a prefix of the entries, and the shortest one that makes room. |
| PageStore.PutSize | gh_puller/codebase/archive.py:421-428 | Adding the new size to the running total is right if and only if the key is new or its old entry was empty. |
| PageStore.PageCache.Remember | gh_puller/codebase/archive.py:421-428 | The cache never exceeds its byte bound; a page that was not cached keeps the size field equal to the sum of entry sizes, and exactly when it does not is stated. |
| PageStore.PageCache.Lookup | gh_puller/codebase/archive.py:435-447 | A hit returns the cached page and makes it the newest entry; size and contents stay. |
| PageStore.PageCache.ReadPage | gh_puller/codebase/archive.py:435-447 | For references that match the stored page a cached read equals an uncached one, whatever was read before; a miss equals the fresh read exactly. |
| ArchiveWriter.StoredPageReads | gh_puller/codebase/archive.py:430-447 | A stored page reads back through every reference that matches its hash and count. |
| ArchiveWriter.Writer.Create | gh_puller/codebase/archive.py:461-548 | A new archive is valid, empty and open. |
| ArchiveWriter.Writer.Resume | gh_puller/codebase/archive.py:461-548 | A resumed writer holds exactly the records that recovery left. |
| ArchiveWriter.Writer.WriteFrame | gh_puller/codebase/archive.py:564-572 | Appending a frame adds exactly its bytes at the end of the buffer and reports where it lies. |
| ArchiveWriter.Writer.StorePage | gh_puller/codebase/archive.py:574-582 | The new page is appended with the hash of its logical contents, and the reference names its offset, hash and count; it fails exactly when the page does not fit below the offset limit, and then nothing is written. |
| ArchiveWriter.Writer.Commit | gh_puller/codebase/archive.py:584-592 | One commit record linked to the previous trailer is appended, and afterwards every record is flushed; it fails exactly when the record does not fit, and then nothing changed. |
| ArchiveWriter.Writer.Finalize | gh_puller/codebase/archive.py:594-607 | An index of all commits is appended and flushed, and the writer is closed with its final size; it fails exactly when the index does not fit. |
| ArchiveWriter.Writer.CloseIncomplete | gh_puller/codebase/archive.py:619-626 | What was buffered reaches the file, without a commit. |
| ArchiveWriter.Writer.VerifyAppended | gh_puller/codebase/archive.py:609-617 | The answer is yes exactly when the archive was finalized and everything since the writer started scans as frames that end with the index. |
| ArchiveWriter.FinalizedVerifies | gh_puller/codebase/archive.py:594-617 | Every finalized clean archive passes its own verification, from whichever record its writer started. |
| Trees.SlotsCountAll | gh_puller/codebase/archive.py:706-712 | The counts of the leaves add up to the size of the map. |
| Trees.RepresentsIsStable | gh_puller/codebase/archive.py:629-717 | Pages written later never change what an old root stores. |
| Trees.RootHashIsInjective | gh_puller/codebase/archive.py:676-717 | Two maps with equal root hashes are equal, if no page of the one tree collides with a page of the other. |
| Trees.GraphDigestIsInjective | gh_puller/codebase/archive.py:720-726 | Two generations have equal graph digests if and only if they have equal nodes and edges, if their pages and the two pairs of root hashes do not collide. |
| Trees.SameRowsSameHash | gh_puller/codebase/archive.py:638-717 | Two trees of the same rows have the same root hash, wherever their pages lie; nothing is assumed of the hash. |
| Trees.DigestIsCanonical | gh_puller/codebase/archive.py:638-726 | Two trees whose pages do not collide, whatever updates produced them and wherever those pages lie, have equal hashes if and only if they store the same map. |
| RadixTree.RecordMap | gh_puller/codebase/archive.py:99-106 | The dictionary is built if and only if no key occurs twice, and then holds exactly the listed records. |
| RadixTree.GroupBySlot | gh_puller/codebase/archive.py:695-697 | Every change is grouped under the shard of its key, and no change is lost or added. |
| RadixTree.ApplyChanges | gh_puller/codebase/archive.py:669-675 | Fails exactly on deleting an absent key, and otherwise gives override and delete. |
| RadixTree.RadixTree.UpdateLeaf | gh_puller/codebase/archive.py:658-684 | A leaf of one shard becomes the leaf of the changed slice, or disappears when the slice is empty; it fails only on deleting an absent key or when the leaf does not fit. |
| RadixTree.RadixTree.StoreRoot | gh_puller/codebase/archive.py:704-717 | The stored root represents the map that its children cover, with the count of their sum, and is stored whenever there is room for one page. |
| RadixTree.RadixTree.UpdateChildren | gh_puller/codebase/archive.py:695-703 | After the loop over the changed shards the children cover the overridden map; a shard that was not touched keeps its page. |
| RadixTree.RadixTree.Update | gh_puller/codebase/archive.py:651-717 | One update of the root gives a tree of the overridden map, written behind all earlier pages and reading only flushed ones, in at most one page for each changed shard and the root. |
| RadixTree.RadixTree.Apply | gh_puller/codebase/archive.py:638-642 | The tree refines a map under override and delete: the new root represents the new map, only pages are appended, an absent deletion always fails, and with room for one page more than there are changes nothing else does. |
| ArchiveReader.RepresentedReads | gh_puller/codebase/archive.py:882-938 | Every tree that the writer stores reads as the map that it represents. |
| ArchiveReader.Archive.ReadTyped | gh_puller/codebase/archive.py:882-907 | A reference whose page validates in the wanted tree gives that page, cached or not. |
| ArchiveReader.Archive.Records | gh_puller/codebase/archive.py:909-938 | The explicit-stack traversal of a well-formed tree returns exactly its map, each leaf in its shard and no identity twice. |
| ArchiveReader.Archive.LoadRows | gh_puller/codebase/archive.py:940-956 | Loading a commit returns the rows of its node and edge trees; an unknown commit fails. |
| ArchiveReader.Archive.LoadCoverage | gh_puller/codebase/archive.py:958-982 | A commit without coverage gives none, and otherwise the recorded rows and metadata come back; what is read agrees with every field of the manifest and with both recorded digests, or the call fails. |
| ArchiveReader.LastBySha | gh_puller/codebase/archive.py:826-834 | Looking a SHA up finds its last commit. |
| Recorder.HistoryHolds | gh_puller/codebase/archive.py:1098-1250 | Whatever is appended later, commit i still stores generation i. |
| Recorder.RebuildAgrees | gh_puller/codebase/archive.py:720-750 | A commit recorded as differences and one rebuilt as a snapshot in another file have the same graph, coverage and materialization digests and root hashes, when they stand for one generation. |
| Recorder.KGARecorder.constructor | gh_puller/codebase/archive.py:1101-1124 | A recorder opened behind recovered commits continues from the roots of the last one. |
| Recorder.KGARecorder.AppendGraph | gh_puller/codebase/archive.py:1167-1177 | A snapshot starts from nothing and mutations from the latest roots; both trees then store the next generation. |
| Recorder.KGARecorder.AppendCoverage | gh_puller/codebase/archive.py:1178-1213 | The coverage fields describe the next coverage state with its two digests, and losing a recorded coverage fails. |
| Recorder.KGARecorder.Append | gh_puller/codebase/archive.py:1145-1237 | The history grows by exactly the fold of the capture over the latest generation, and the log by pages and the one commit that stores it; it fails when the fold does, and otherwise only without room for a record for each change, each root and the commit, and then no commit is added. |
| Runs.ArchivedReads | gh_puller/codebase/archive.py:940-982 | Commit i of an archive reads as generation i from the file alone. |
| Runs.LoadGeneration | gh_puller/codebase/archive.py:940-982 | Loading the last commit of a SHA, or the latest commit, returns exactly the rows and coverage of its generation. |
| Runs.LeftArchives | gh_puller/codebase/archive.py:486-533 | What reopening leaves of a log archives a prefix of its history. |
| Runs.CrashCanReopen | gh_puller/codebase/archive.py:486-533 | After a crash that keeps any bytes at or beyond the last flush the archive can be reopened, with every flushed commit; the crash may strike a run, an append, or an earlier reopening that was writing its index. |
| Runs.RunKeepsHistory | gh_puller/codebase/archive.py:486-607 | In every run of appends, commits, finalizations, extensions, crashes and reopenings the committed generations only grow at the end. |
| Runs.RunReadsBack | gh_puller/codebase/archive.py:909-982 | A generation once committed reads back at every later point of the run, at the same place, whatever happened since. |
| Runs.AppendIsSteps | gh_puller/codebase/archive.py:1145-1237 | A successful append is a run of steps: its pages, and the commit that holds the generation, linked to the last trailer. |
| Runs.ReachedIsIntact | gh_puller/codebase/archive.py:486-607 | What one step keeps, every sequence of steps keeps. |
| Runs.AppendAll | gh_puller/codebase/archive.py:1145-1237 | After a list of appends generation i is the fold of the first i captures, and reads back from the file; the list is appended to its end when every capture is accepted and there is room, and all of it is a run of steps. |
| Text.EncodeOrder | csrc/kga_reader.c:289-314 | Byte order of UTF-8 encodings is code-point order, for all pairs of strings. |
| Text.EncodeIsUtf8 | csrc/kga_reader.c:289-314 | The encoding of every character is that of section 3 of RFC 3629: the shortest form, marked bytes, the bits in order. |
| Text.EncodeBefore | csrc/kga_reader.c:316-342 | Cutting a string at an ASCII separator commutes with encoding it. |
| Text.JoinTakeSplit | gh_puller/codebase/archive.py:91-96 | Joining the first n pieces of a split cuts the string at its n-th separator. |
| Orders.SortedIsUnique | gh_puller/codebase/archive.py:676-711 | Only one listing of a set is strictly increasing, so sorted pages forget insertion order. |
| Orders.Sort | gh_puller/codebase/archive.py:676-711 | Insertion produces that listing. |
| Shards.GraphShardMatches | csrc/kga_reader.c:316-330 | The byte loop accepts a shard exactly when it is the identity before its third dot. |
| Shards.CoverageShardMatches | csrc/kga_reader.c:332-342 | The byte test accepts a shard exactly when it is the path before its first slash, or a dot when that is empty. |
| Shards.GraphShardAgrees | csrc/kga_reader.c:316-330 | The C test on encoded strings accepts exactly the shard that the writer computes, for all strings. |
| Shards.CoverageShardAgrees | csrc/kga_reader.c:332-342 | The same for coverage paths. |
| NativeReader.QSort | csrc/kga_reader.c:377-377 | Sorting a batch keeps its rows as a multiset and orders them by the comparison of its tree. |
| NativeReader.RowIsRefusedExactly | csrc/kga_reader.c:344-487 | The importer refuses a row exactly for a wrong number of components, a text that holds a NUL, or a line that does not fit; of every other row it takes each component, in its place and as UTF-8, and the fields. |
| NativeReader.NeighboursSuffice | csrc/kga_reader.c:377-383 | In a sorted batch unequal neighbours make all identities distinct. |
| NativeReader.ChildRowsAreDistinct | csrc/kga_reader.c:534-562 | Strict slot order, shard membership and in-leaf uniqueness together make every identity below a root unique, and the rows number the sum of the counts. |
| NativeReader.StoredTreeIsAcceptable | csrc/kga_reader.c:489-571 | The reader accepts every tree of validated rows that the writer stores, and the rows below it are exactly its map, each component of a key as UTF-8 in its place. |
| NativeReader.ImportContext.ImportLeaf | csrc/kga_reader.c:344-487 | An accepted leaf feeds exactly its rows, once each; it is accepted if and only if its count, rows, shards and identities are right and the importer takes them. |
| NativeReader.ImportContext.HasNoDuplicates | csrc/kga_reader.c:378-383 | The neighbour loop answers whether the batch has no duplicate. |
| NativeReader.ImportContext.ImportTree | csrc/kga_reader.c:489-571 | A leaf or root is accepted if and only if it is well formed at its depth (and the importer takes its rows), and then exactly the rows below it are fed. |
| NativeReader.ImportContext.ImportRoot | csrc/kga_reader.c:573-670 | When a tree is accepted no identity was fed twice across its leaves and the rows fed number exactly the root count, which justifies the uniqueness promised to the importer. |
| Sha256.PaddingIsMinimal | csrc/kga_sha256.c:120-141 | The padding is the shortest that section 5.1.1 of FIPS 180-4 admits, for every message size. |
| Sha256.PadIsInjective | csrc/kga_sha256.c:120-141 | Distinct messages of fewer than 2^64 bits have distinct padded forms. |
| Sha256.Rotations | csrc/kga_sha256.c:32-34 | The pair of C shifts moves every bit down by the amount and around, as section 3.2 of FIPS 180-4 demands, for every amount below 32. |
| Sha256Constants.RoundConstantsAreRoots | csrc/kga_sha256.c:21-30 | Round constant t is the first 32 bits of the fraction of the cube root of the t-th prime (section 4.2.2 of FIPS 180-4). |
| Sha256Constants.InitialHashIsRoots | csrc/kga_sha256.c:102-107 | Word t of the initial hash value is the first 32 bits of the fraction of the square root of the t-th prime (section 5.3.3). |
| Sha256.ChBits | csrc/kga_sha256.c:36-38 | Each bit of the first word chooses between the bits of the other two. |
| Sha256.MajBits | csrc/kga_sha256.c:40-42 | Each bit is the one that at least two of the three words have. |
| Sha256.BigSigma0Bits | csrc/kga_sha256.c:44-46 | Each bit is the parity of the bits 2, 13 and 22 places above it, around the word. |
| Sha256.BigSigma1Bits | csrc/kga_sha256.c:48-50 | The same for 6, 11 and 25 places. |
| Sha256.SmallSigma0Bits | csrc/kga_sha256.c:52-54 | The same for 7 and 18 places around the word and 3 places within it. |
| Sha256.SmallSigma1Bits | csrc/kga_sha256.c:56-58 | The same for 17 and 19 places around the word and 10 places within it. |
| Sha256.Context.Transform | csrc/kga_sha256.c:60-100 | One call is the compression of section 6.2.2 of FIPS 180-4 on the block, for every state and block, with the functions and constants that the lemmas above pin bit by bit. |
| Sha256.Context.Update | csrc/kga_sha256.c:109-118 | Only the concatenation of the pieces absorbed so far matters. |
| Sha256.Context.PadBuffer | csrc/kga_sha256.c:120-129 | In the one-block and the two-block ending alike, the blocks hashed and the block left are the padded message. |
| Sha256.Context.Finalize | csrc/kga_sha256.c:120-141 | The bytes written are the digest of everything absorbed. |
| Sha256.Sha256 | csrc/kga_sha256.c:143-147 | The function equals the SHA-256 of FIPS 180-4 for every message of fewer than 2^64 bits. |
| Sha256.Sha256InTwoUpdates | csrc/kga_sha256.c:109-141 | Splitting the message over two calls, anywhere, gives the digest of the whole. |
| Model.GraphIsRefusedExactly | gh_puller/codebase/store.py:92-240 | A graph is refused exactly for its project, a missing or mislabelled project root, a node, an edge, or a missing endpoint. |
| Model.MetadataIsRefusedExactly | gh_puller/codebase/store.py:172-196 | Coverage metadata is refused exactly for a text, another project, a count, a version 0, or the flag. |
| StoreDiff.DiffListsChanges | gh_puller/codebase/store.py:531-554 | The two halves of a diff query list every changed key exactly once, and no other key. |
| StoreDiff.DiffIsExact | gh_puller/codebase/store.py:531-578 | Applying the new rows of the changed keys turns the old rows into the new ones. |
| StoreDiff.NodeMapInserts | gh_puller/codebase/store.py:580-592 | Inserting the node map violates neither its primary key nor its unique column, and every row pairs nodes of one name. |
| StoreDiff.InsertNodeMap | gh_puller/codebase/store.py:582-592 | The constrained insert succeeds exactly when both columns are unique. |
| StoreDiff.EdgeDiffIsByName | gh_puller/codebase/store.py:593-622 | Although ids are local to a generation, the edge queries list exactly the edges whose identity by names changed, in the same order. |
| StoreDiff.TableDiffIsExact | gh_puller/codebase/store.py:553-578 | Collecting the diff of two valid tables succeeds and turns the old rows into the new ones. |
| StoreDiff.GenerationIsShown | gh_puller/codebase/store.py:115-168 | Of a well-formed store exactly one generation shape counts: the row under each name has the label, name, path, lines and parsed properties of its record, each edge and coverage row likewise, and there are no other rows. |
| StoreDiff.DiffRebuilds | gh_puller/codebase/store.py:531-578 | Updating the tree of the old rows by the collected diff is never refused and ends in the root hash of a tree built from the new rows alone. |
| StoreDiff.PinnedGeneration.ChangesAfterPublish | gh_puller/codebase/store.py:527-647 | For any two well-formed generations the node, edge and coverage mutations are exact: they apply to the old rows and give the new ones, which have the contents of the new records. |
| StoreDiff.CoverageChanges | gh_puller/codebase/store.py:402-462 | The coverage captured is exact, as a snapshot or as mutations, through gained and missing attachments. |
| StoreDiff.Snapshot | gh_puller/codebase/store.py:704-722 | A snapshot holds every row of the generation, with the contents of its records. |
| StoreDiff.LoadCoverage | gh_puller/codebase/store.py:465-473 | The coverage loaded is that of the generation. |
| StoreDiff.CaptureGeneration | gh_puller/codebase/store.py:724-761 | Whichever path is taken, folding the capture into the archived generation gives the published one, whose rows have the label, name, path, lines and parsed properties of the records of the store. |
| BuildProtocol.RecoverCommittedPending | gh_puller/codebase/build.py:111-114 | A pending commit that the archive already holds is acknowledged, and the pairing of store and archive survives an interruption in between. |
| BuildProtocol.PinPrevious | gh_puller/codebase/build.py:147-179 | Only the generation of the archive head is ever pinned; unless its recovery is interrupted, the call succeeds exactly for the next commit of the selection, when nothing but it or the head was announced. |
| BuildProtocol.RecordGeneration | gh_puller/codebase/build.py:180-221 | At most one generation is appended, the published one, and the pairing survives every interruption; uninterrupted and with room it is appended, unless it lost its coverage. |
| BuildProtocol.BuildCommit | gh_puller/codebase/build.py:117-221 | Under every interruption the archive gains nothing or exactly the generation published for the target, a later difference is taken only against the archive head's generation, and what happened to the file is a run of steps. Uninterrupted, with a fitting target and room, the commit is built. |
| BuildProtocol.BuildCommits | gh_puller/codebase/build.py:501-517 | The loop archives the selected commits in order, each with the contents of the store published for it, or stops with a prefix of them; uninterrupted and with room it completes the selection, from whatever an interrupted build left announced. |
| BuildProtocol.CaptureIsSmall | gh_puller/codebase/build.py:186-214 | However the next generation is captured, recording it takes no more records than the rows of both generations, the three roots and the commit. |
| Sessions.AppendStrikes | gh_puller/codebase/build.py:209-214 | What the file holds while the announced commit is being written is among the states that a crash may strike. |
| Sessions.CrashKeepsSession | gh_puller/codebase/build.py:104-160 | Whatever prefix of the file a crash leaves, the reopened archive and the published store are paired again, the archive holds every commit it held, and a commit that did reach it is the announced one with the published generation. |
| Sessions.BuildAgain | gh_puller/codebase/build.py:450-517 | A new session opens what is left of the file and goes on with the next commit: the state it ends in is again one that a crash may strike, and uninterrupted and with room it completes the selection. |
| Facts.AggregateCoverage | gh_puller/github/maintenance.py:1159-1169 | The aggregate is the worst of the coverages, unavailable before forbidden before partial, and otherwise the first; it is complete when there are none. |
| Facts.InsertObservation | gh_puller/github/observations.py:1353-1391 | Inserting an observation keeps every head the maximum of its subject and the SHA index exact, for any order; it fails exactly on a malformed reference list. |
| Facts.MalformedExactly | gh_puller/github/observations.py:1353-1391 | A complete commit-references observation is malformed exactly without a list of references or for a reference that names no object ID. |
| Facts.InsertBatch | gh_puller/github/observations.py:1335-1391 | All facts of a publication are appended with heads and index maintained, or none when a reference list is malformed. |
| FactQueries.LatestUntilIsMaximum | gh_puller/github/observations.py:1736-1754 | The window query picks, of each subject, the closed observation that ends last, then starts last, then was published last, and misses no subject with a closed observation. |
| FactQueries.CurrentIsAsOf | gh_puller/github/observations.py:1718-1754 | At any time at or after all windows the incrementally kept heads are the as-of view. |
| FactQueries.AsOfIsStable | gh_puller/github/observations.py:1736-1754 | Publications whose windows end after T leave the view as of T unchanged. |
| FactQueries.IndexedIsReference | gh_puller/github/observations.py:2290-2302 | What the index names are complete commit-reference observations that refer to the SHA. |
| FactQueries.IterCommitReferences | gh_puller/github/observations.py:763-822 | The indexed and the full-scan path yield the same sequence: every reference of a complete commit-references observation up to the cutoff that names a selected SHA, once, in order of observation and position, with its observation and resource. |
| Observations.ObservationArchive.Publish | gh_puller/github/observations.py:1231-1401 | A new key appends its facts, knows their payloads by digest and closes its task; a known key returns the original batch exactly when operation and facts are those of the batch, and fails otherwise, and neither changes anything. When it succeeds is stated exactly. |
| Observations.PublishedIsSame | gh_puller/github/observations.py:1231-1330 | Repeating a publication finds the batch under its key and takes it for the same. |
| Observations.AdmittedExactly | gh_puller/github/observations.py:1231-1330 | An operation or a list of facts is refused exactly for an empty key, a kind or task that does not fit, an empty or repeated subject, an unsupported family, a resource below 1, a window that is turned around or still open, or a source digest that is none. |
| Observations.ObservationArchive.StartCycle | gh_puller/github/observations.py:248-291 | The sole active cycle is resumed; otherwise a cycle with the requested start, the current checkpoint and nothing discovered begins, unless it would precede the checkpoint. |
| Observations.ObservationArchive.BeginDiscovery | gh_puller/github/observations.py:945-981 | Returns the cursor to request next, none after the terminal page; it fails exactly for an empty cursor or an inactive cycle. |
| Observations.ObservationArchive.SaveDiscoveryPage | gh_puller/github/observations.py:983-1060 | Page, catalog entries and work become durable together and only for the cursor that the cycle waits for, extending its chain by this page; each entry is the one observed last. A well-formed page at that cursor fails only on a conflicting work key. |
| Observations.ObservationArchive.EnqueueTasks | gh_puller/github/observations.py:1062-1089 | Adds the missing work of an active cycle; fails only on a conflicting key, and then changes nothing. |
| Observations.ObservationArchive.CompleteTask | gh_puller/github/observations.py:1204-1229 | Closes a pending piece of work at that time and changes nothing else; repeating the call changes nothing. |
| Observations.ObservationArchive.CompleteCycle | gh_puller/github/observations.py:1499-1555 | Succeeds exactly after terminal discovery when every piece of its work is closed; the checkpoint becomes the start of the cycle and never moves back. |
| Cycles.StartKeeps | gh_puller/github/observations.py:248-291 | Starting a cycle keeps all invariants: one active cycle, complete cycles done, the checkpoint the greatest start. |
| Cycles.CompletionKeeps | gh_puller/github/observations.py:1499-1555 | Completing a cycle keeps them, and the checkpoint rises to its start. |
| Cycles.CompleteTraversal | gh_puller/github/observations.py:945-1060 | In every valid state the pages of a completed discovery lead from the initial cursor to the terminal response without a gap, and with distinct cursors each was consumed exactly once. |
| Cycles.InsertTasks | gh_puller/github/observations.py:1801-1834 | Every draft is present afterwards with its definition and no other changed; nothing is returned exactly on a conflict of definitions. |
| Cycles.PutItems | gh_puller/github/observations.py:1015-1038 | Each entry is the one observed last, whether stored before or drafted, and of equal ones the last; nothing else is stored. |
| Jobs.SortDrafts | gh_puller/github/observations.py:330-333 | The drafts are listed in strictly ascending key order, without loss; there is no listing exactly when a key repeats. |
| Jobs.DoneIsCounted | gh_puller/github/observations.py:1936-1966 | The counts agree if and only if every task of the job is done. |
| Jobs.CompleteKeeps | gh_puller/github/observations.py:1936-1966 | Completing a pending task and advancing its job keeps every count and every status right. |
| Jobs.StatusFollowsTasks | gh_puller/github/observations.py:1936-1966 | In every valid state a job is complete if and only if all its tasks are. |
| Observations.VerifyJob | gh_puller/github/observations.py:2195-2237 | A stored job is accepted exactly when its identity, scope and drafts are those requested. |
| Observations.ObservationArchive.StartMaintenanceJob | gh_puller/github/observations.py:301-404 | A known key resumes its identical job; otherwise a job with its sorted tasks, all still to do, is added unless another is active. A well-formed request fails only for these reasons. |
| Observations.ObservationArchive.TakeMaintenanceTasks | gh_puller/github/observations.py:445-505 | Claims the first pending tasks of the job and kind, up to the limit, and gives each one more attempt and nothing else. |
| Observations.ObservationArchive.CompleteMaintenanceTask | gh_puller/github/observations.py:1403-1455 | Completes an attempted task of an active job with its outcome and advances that job alone; repeating with the same outcome changes nothing. When it succeeds is stated exactly. |
| Observations.ObservationArchive.RecordMaintenanceTaskError | gh_puller/github/observations.py:507-535 | Records the failure of a pending attempt and nothing else. |
| Backfill.FindPopulation | gh_puller/github/maintenance.py:440-484 | The scan of the frozen range finds exactly the complete sources without a readable scan, and of every commit they name the first place, by resource and then by observation; it fails exactly when a source is malformed. |
| Backfill.PlanBackfill | gh_puller/github/maintenance.py:440-493 | The plan holds every source up to the cutoff without a matching scan and every named commit without a reconstruction, nothing else, and the commits in the order of their first places; there is one exactly when every source can be read. |
| Backfill.ChunksPartition | gh_puller/github/maintenance.py:1032-1089 | The batches of a plan partition its population in order. |
| Backfill.PlannedTask | gh_puller/github/maintenance.py:1032-1125 | Some batch covers each missing scan and each pending commit, as decoded from its stored scope. |
| Backfill.PlanKeysAreDistinct | gh_puller/github/maintenance.py:1032-1134 | No two batches of a plan share a key. |
| Backfill.OnlyPlanned | gh_puller/github/maintenance.py:1032-1125 | No batch covers anything outside the plan. |
| Backfill.PlannedIsExecutable | gh_puller/github/maintenance.py:1032-1125 | Every batch of a plan fits its kind: sources up to the cutoff, or distinct commits. |
| Backfill.DonePlanIsBaseline | gh_puller/github/maintenance.py:440-493 | When every batch of a plan did its work, every source up to the cutoff has a matching scan and every commit it names a reconstruction. |
| Backfill.Maintainer.PublishOnce | gh_puller/github/collector.py:197-234 | Afterwards the archive has a publication of these facts under the key, its own or an earlier one, and nothing else was added; it fails exactly when there is no earlier one and the archive refuses the facts. |
| Backfill.Maintainer.ScanSource | gh_puller/github/collector.py:1540-1624 | After success a derived observation matches the source exactly, and what is added has the subject, resource and window of the source; it succeeds exactly when the source can be read and its scan is published or can be. |
| Backfill.Maintainer.RetainCommits | gh_puller/github/collector.py:145-195 | After success every commit of the batch has a commit-object observation of schema 2; under a new key one observation for each commit is added, in order, with the outcome and payload of its reconstruction. It succeeds exactly when they are published or can be. |
| Backfill.AddedCommitIsTrue | gh_puller/github/collector.py:1738-1764 | A commit-object observation that a run adds has the coverage and the payload of the reconstruction of its commit. |
| Backfill.Maintainer.ExecuteTask | gh_puller/github/maintenance.py:900-933 | After success the work of the batch is in the archive, and the scope of the batch fitted its kind; an open batch that fits succeeds when the archive takes what it makes. |
| Backfill.Maintainer.GuardTask | gh_puller/github/maintenance.py:879-898 | At most this batch is completed, only after its work is in the archive and with the worst outcome of its commits; a failed attempt completes nothing, and an attempt of an open batch that the archive takes does not fail. |
| Backfill.Maintainer.ClaimTasks | gh_puller/github/maintenance.py:831-864 | No commit batch is claimed while a scan batch is pending; nothing is claimed twice, and something is while the job is active. |
| Backfill.Maintainer.Run | gh_puller/github/maintenance.py:815-877 | The loop ends, keeps every completed batch faithful, and reports completion only when the job is complete, which it is when every batch fits and the archive takes what they make. |
| Backfill.Maintainer.ChooseBackfill | gh_puller/github/maintenance.py:415-539 | An active job is resumed exactly when it is a backfill of this request and the caller's key is absent or its own, and otherwise nothing happens; without one, the job of the key is taken or a new one is started, and when that succeeds is stated exactly. |
| Backfill.ChosenIsCalled | gh_puller/github/maintenance.py:415-432 | A caller's key has 1 to 200 characters and names the job, and a resumed job is a backfill of this request. |
| Backfill.Maintainer.RunBackfill | gh_puller/github/maintenance.py:391-539 | Runs the job chosen, active before, known by its key or new over everything observed before the call; every observation it adds is a scan of its source or says what was reconstructed, and after completion the baseline holds at the cutoff of its plan. Once there is a job it completes, if every source can be read and names object IDs, and its resource, window and stored payload are in order. |
| Backfill.CompleteBackfill | gh_puller/github/maintenance.py:391-539 | Whenever a backfill job is complete, after whatever interruptions, every source up to its cutoff has a matching scan and every commit it names a reconstruction. |
| FamilyPlan.CloseFamilies | gh_puller/github/maintenance.py:178-190 | The loop ends with the least dependency-closed set that holds the root and the requested families. |
| FamilyPlan.ParentFamilyPlan | gh_puller/github/maintenance.py:173-199 | The effective families are that closure and the commit consequences of any source in it. |
| FamilyPlan.PlansAreOrdered | gh_puller/github/maintenance.py:173-199 | Commit families are effective exactly when some source is, and every other family has its dependencies. |
| FamilyPlan.RefreshReviewComments | gh_puller/github/maintenance.py:734-752 | Review comments are read when the pull or its threads are complete, and otherwise take the worse of both coverages. |
| FamilyPlan.RefreshCommonFamilies | gh_puller/github/maintenance.py:616-674 | Every effective family of the first part has the coverage its reads imply, and no fact is used before it is recorded. |
| FamilyPlan.RefreshPullFamilies | gh_puller/github/maintenance.py:708-813 | The same for the families of a pull. |
| FamilyPlan.AggregateFamilies | gh_puller/github/maintenance.py:1159-1169 | The result is the coverage of one of the families and of no lower rank than any. |
| FamilyPlan.ConcludeCommits | gh_puller/github/maintenance.py:687-698 | The commit families take the aggregate of their sources, and of it and the retained commits. |
| FamilyPlan.RefreshParent | gh_puller/github/maintenance.py:601-706 | With a complete root of the expected kind every effective family has an outcome, so no family is left unobserved, each has the coverage its reads imply, and the result has the highest rank. |
| Pagination.CachedPages | gh_puller/github/client.py:2025-2059 | A cache is used exactly when key, sizes, validators, distinct addresses and the total fit the previous answer and the last page is not full. |
| Pagination.PaginateResponse | gh_puller/github/client.py:406-440 | Following the links returns the whole collection, and a cache is made exactly when every page has a validator, all but the last hold 100 items and the last fewer. |
| Pagination.ValidatePages | gh_puller/github/client.py:355-375 | All pages are unchanged, with their validators renewed, or the first changed page is reported with its response; a 304 without a validator cannot occur. |
| Pagination.PaginateCached | gh_puller/github/client.py:340-404 | The answer is the previous one exactly when the cache is usable and every page of it unchanged, and otherwise the collection. |
| Pagination.StaleExactlyWhenGrown | gh_puller/github/client.py:340-404 | An answer is stale if and only if the cached pages stand and items were added after them, for every page size. |
| Pagination.HundredIsFresh | gh_puller/github/client.py:340-404 | With pages of 100 an answer is always the collection. |
| Pagination.StaysPaired | gh_puller/github/client.py:340-440 | With honest validators the next pair of answer and cache is again one that may be fed back. |
| Pagination.RunIsFresh | gh_puller/github/client.py:306-404 | Every call of a run that feeds back its own answer and cache returns what a full pagination would, with pages of 100. |
| Pagination.SmallerGoesStale | gh_puller/github/client.py:350-352 | For every smaller page size there is a run that answers a stale collection. |
| Pagination.FreshExactlyAtHundred | gh_puller/github/client.py:350-352 | Feeding back is safe if and only if the caller leaves per_page out or asks for at least 100. |
| Connections.AppendPage | gh_puller/github/client.py:1984-2015 | A page is taken exactly when its total stands, it repeats no node, does not exceed the total, and has a fresh cursor or completes the total. |
| Connections.ReadConnections | gh_puller/github/client.py:1012-1091 | The rounds end against finitely many cursors; they succeed if and only if every connection can be read, and then return all of each, once and in order. |
| Connections.ReadPage | gh_puller/github/client.py:1331-1399 | Reading on fails only for a connection that cannot be read. |
| Connections.ReadIsUnique | gh_puller/github/client.py:1012-1091 | What reading a connection returns is determined by the connection. |
| GitClosure.ClosureFailures | gh_puller/github/git_store.py:869-899 | The bisection ends; every root it reports fails alone, and when a failing member shows in its batch it reports exactly the failing roots. It has a result whenever the walks end, and always without targets. |
| GitClosure.VerifyCommits | gh_puller/github/git_store.py:814-841 | A commit is complete exactly when its closure is, and its snapshot is in doubt only when both its history and its tree fail; there is a result whenever the walks end and every commit has a readable tree. |
| GitClosure.Reconstruction | gh_puller/github/git_store.py:843-850 | Exactly the commits that the store holds are verified, and successfully whenever the walks end and each of them has a readable tree. |
| GitSources.SourceGroups | gh_puller/github/git_store.py:1217-1237 | One group for every source of a missing commit, in rank order with pull refs first, each with exactly its missing commits. |
| GitSources.RankIsOrder | gh_puller/github/git_store.py:1217-1237 | The rank puts pull refs first and then orders by repository, ref and number. |
| GitSources.SourceBatches | gh_puller/github/git_store.py:1240-1267 | The batches partition the active groups in order, each within the limit and of one remote and one kind, and no batch could have taken the next group. |
| GitSources.FetchSourceBatch | gh_puller/github/git_store.py:740-803 | The bisection ends with an answer for every source, and with atomic fetches a source succeeds exactly when it can be fetched alone; it succeeds whenever no single source is interrupted and every refusal is a known absence, and fails on an unknown refusal. |
| GitRetention.OneMoreAttempt | gh_puller/github/git_store.py:330-353 | An attempt keeps the status the join of all outcomes, and follows the schedule of the commit. |
| GitRetention.SortSources | gh_puller/github/git_store.py:278-296 | A source is refused exactly when its repository is missing or its ref is not advertised, taken as equivalent only when a staged pull ref has its tip, and fetched in every other case. |
| GitRetention.TryGroup | gh_puller/github/git_store.py:309-353 | A source is tried for exactly its pending commits, and each attempt shows what the store has of the commit behind the ref, or why nothing was fetched; settled commits keep their attempts. Nothing fails while stores and remotes settle. |
| GitRetention.TryBatches | gh_puller/github/git_store.py:248-353 | Every pending commit is tried with all its sources in order, and none again once it is available; it ends with a result while stores and remotes settle. |
| GitRetention.UpstreamAttempts | gh_puller/github/git_store.py:354-388 | What is still pending gets one last attempt against the upstream refs, with a result while stores and remotes settle. |
| GitRetention.RetainCommits | gh_puller/github/git_store.py:190-407 | For every commit the status is the join of its attempt outcomes, no attempt follows an available one, every source was tried unless it became available, and exactly the commits that are not unavailable are pinned. With atomic fetches an attempt from a source that is neither refused nor staged fails exactly when the source cannot be fetched alone, and otherwise shows what the store of its step reconstructs. Invalid input fails, and valid input succeeds whenever stores and remotes settle at every step. |
| GitRetention.SettledAreAvailable | gh_puller/github/git_store.py:225-243 | The commits that sources are looked for are exactly those that the managed store did not have in full at first; every other was available at once. |
| GitRetention.YieldedIsRetained | gh_puller/github/git_store.py:275-353 | A commit is available in the end if some source that it is routed to yields it whenever it is tried: not refused, fetched or staged, reachable, and all of it in the store. |

## Left out

- Backfill.Maintainer.RunBackfill: the statistics in a job's scope are one function of the observations and the plan; that no other operation stores a job under a backfill key is a requirement (`Backfill.AllPlanned`), which every backfill keeps; that the payloads of sources are stored and their windows closed is asked where completion is promised, not carried as an invariant of the tables.
- Backfill.Maintainer.Run: models the gathered attempts of one claim one after the other, in any order of claims, not interleaved.
- BuildProtocol.BuildCommits: requires distinct commits in the selection, which Git revision listings give.
- Runs.LoadGeneration: speaks of the last commit of a SHA; earlier commits of the same SHA are reached by position, as in `Runs.ArchivedReads`.
- PageStore.PageCache.ReadPage: says nothing of a cache hit whose reference disagrees with the stored page, because the source does not compare it again.
- StoreDiff.CaptureGeneration: requires the pinned store to be the archive head's generation; that the build protocol guarantees this is `BuildProtocol.PinPrevious`.
- FamilyPlan.RefreshParent: the coverage of commit references is fixed up to its rank, since complete and null coverage share one.
- GitSources.FetchSourceBatch: retries and backoff of one fetch are part of the fetch.
- GitRetention.RetainCommits: a failing upstream synchronization ends the acquisition without a result and is not a separate outcome; attempt times and preflight records are not modelled.
- Pagination.PaginateCached: requires a usable cache to be one that this client made for the previous answer, as its documentation does; a failing request ends the call without a result; page observers are not modelled.
- Connections.ReadConnections: the two callers, several pulls and the three relations of an issue, are one loop over keys; the requests of one round are answered key by key.
- FactQueries.IterCommitReferences: rows come in observation order; the order of the as-of and current views is not modelled.
- Recorder.KGARecorder.Append: a recorder is not used again after a failed append; the build closes it, and reopening is part of `Runs` and `Sessions`.
- Sessions.BuildAgain: the shortcut for an archive that is already complete, and the checks of the repository, engine and project, are not part of a session; what CBM publishes for the remaining commits is given.
- A wrong shape of decoded JSON is folded into "no page", "no manifest" or "no row"; the errors are not told apart.
- The shifts by whole bytes that read and write lengths in the C digest are multiplications and divisions.
- An edge whose local name is NULL gets an identity of three components, which no archived key has.
- Payloads are compared by their digests, as the tables do; the extractors that find SHAs in payloads are one function.
- Sync work is claimed and retried like maintenance work; `take_tasks` and `record_task_error` of the sync side, request counters, discovery signals and progress reporting would only add easy members.
- The recorder's statistics (pages read and written, changed rows) and manifest provenance are not modelled.
- `verify_snapshot`, `load_raw` and the restorable manifest of the reader are not modelled.
- The closed-commit refreshes of `_refresh_tasks` and Git reference observations are not modelled.
- HTTP transport, quota handling, Git subprocesses, error-text classification, agents, events, benchmarks, the monitor and the CLI are outside this model.
