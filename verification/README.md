# A verified model of a replicated, chunked file store

The system is a coordinator and a fixed number of storage nodes. The coordinator cuts an upload
into chunks and stores every chunk on the least loaded live nodes, keeps a metadata map, per-node
byte totals and an ordered index over them, fails over between replicas on download, and rebuilds
its state from the nodes' listings at start-up. A node keeps its files behind a two-file crash
journal and caches its byte total. Node and coordinator, and coordinator and client, talk over
sockets on which text lines and binary payloads follow each other.

This project models that code and proves what it guarantees, for every number of nodes, replica
count and chunk size, every interleaving of client operations, every failure and revival of nodes,
every crash between two persistent steps of a node, and every way a stream can be split. To verify
everything: `dafny verify dfyconfig.toml`.

## How it is organised

**Strings, streams, names.** `Text`, `Descriptors` (the loops over sockets, with arbitrary short
reads and writes), `ChunkNames`, `Chunking`, `Sums`, `Wrappers`. `Logs` is the record of what a node
has put on disk and on the wire, in one order, so that a crash is a point in it.

**A node.** `Journal` gives every persistent state an operation passes through; `CrashRecovery` says
what booting makes of each of them; `Durability` extends that to runs of operations, crashes and
boots. `NodeStorage` is the storage class itself, proved to pass through exactly the states of
`Journal` and to keep its byte cache. `NodeProtocol` gives the meaning of a stream of requests and
`NodeServer` is the server class proved against it.

**The coordinator as a state machine.** `Cluster` has one event for each block that holds the
metadata lock and for each request a node carries out; any number of uploads, deletions and downloads
are in flight at once. A store that is not acknowledged may do anything to that one chunk name.
`Invariants`, `Bytes`, `Contents` and `Orphans` are the inductive invariants; `Runs` states the
theorems about reachable states; `Refinement` reads the store as a map from names to bytes;
`Attribution`, `Balance`, `Resilience` and `Replication` are about single operations within runs, and
`Overlap` about runs in which uploads and deletions of one name overlap, as the code lets them. `Load`
has the totals, the index and what "least loaded" means. `Layers` connects the two halves: what the machine
assumes of a request to a node is what nodes do, also when they crash.

**The coordinator as a program.** `NodeLoads` (the array and the ordered set), `Coordinator` (the
globals and the lock blocks, each proved to be one event of the machine), `UploadHandler`,
`DownloadHandler`, `DeleteHandler`, `Maintenance` and `RebuildHandler` (the handlers with their loops,
each proved to be a run of the machine with the stated outcome), `ClientProtocol` and `ClientHandler`
(a whole client session), with `Steps` and `Interference` for pieces of runs, and `Examples` (sessions
that show limits). Wherever a handler does not hold the lock it calls `Coordinator.Server.LetOthers`,
whose contract allows any run of events of other operations; a handler knows nothing else about it, so
what is proved of it holds among any other handlers. The parameter `others` says whether there are any,
and which names they spare.

**Restart.** `Rebuild` says what listings are turned into, `Restart` that the metadata comes back,
`Totals` that the byte totals do, and `AfterRestart` that the restarted server is in a state from
which every theorem about runs holds again. `Listings` is about the text of the nodes' replies, and
`Statuses` about that of their replies to the health check, which `Maintenance` reads.

## What turned out not to hold

Each of these is stated exactly, with the condition under which the code does what it should, and
shown on a concrete input.

- Recovery with status `t` and an empty or stale modifying name deletes whatever that name denotes
  (`CrashRecovery.CrashThenRecover`, `HarmfulWindow`). The empty name denotes the storage directory:
  removing it throws, and the node never boots again (`HarmfulWindowIsReal`, `StuckForever`); or, on an
  empty node, it goes, and every store from then on is acknowledged and lost
  (`EmptyNodeLosesStorage`, `Durability.NothingIsKept`, `NodeServer.Server.Start`). The comment at
  src/node_server.cpp:34-35 promises more than that.
- Recovery truncates the status file before it removes the partial file, so a crash inside recovery
  can forget a partial file (`CrashRecovery.SecondCrash`, `SecondCrashLosesTrack`).
- NODE_STORE of a name whose parent directory is missing answers OK, stores nothing and adds -1 to the
  cached total (`NodeStorage.NodeInternal.CreateFile`, `NodeProtocol.AcknowledgedIsStored`,
  `MissingParentIsAcknowledged`).
- Nodes cut names at the first NUL, so the chunks of a file whose name holds one overwrite each other,
  and may overwrite a chunk of another file, whose name need not hold one
  (`ChunkNames.ChunksKeptApart`, `Layers.StoreIsTouch`, `SecondChunkOverwrites`, `CutNameIsAdmitted`,
  `CutNameHitsOtherFile`); a name that starts with NUL denotes the storage directory itself
  (`NodeServer.Server.HandleStore`).
- The contiguity check of a download cannot see that a suffix of chunks was lost
  (`Rebuild.ContiguousMeansPrefix`, `Resilience.LostSuffixIsServed`, `Examples.LostSuffix`).
- An upload can succeed with reduced replication and no warning: when none of its own requests failed,
  exactly when at some selection fewer of the nodes it was connected to were live than replicas are
  wanted (`Replication.WarningTells`). That can be so from the start (`Examples.ReducedWithoutWarning`) or
  because another client's command marks a node dead in between (`Examples.KilledInBetween`).
- KILL_NODE with a word that is no number kills node 0, since the failed extraction stores 0
  (`ClientProtocol.KillLine`, `KillWordMeansNodeZero`).
- A node with more files than an int counts comes back from the dead under the total 0, since the
  failed extraction of the count keeps the total from being read (`Statuses.ReplyTells`).
- Nothing keeps a deletion apart from an upload of the same name. Both can succeed and the uploaded file
  be unlisted, or listed and on no node (`Overlap.ClashLosesEntry`, `ClashLosesCopies`); exactly when, is
  `Overlap.CommitMustComeLast` and `StoredAmongDeletions`. The state machine in `Cluster` has guards that
  keep them apart, and everything else is proved of its runs.

An aborted overwrite, which is a limit of scope, leaves the old metadata in place while replicas may
already hold new bytes; such names are recorded as tainted, and the theorems about contents exclude
them until the next successful upload or deletion.

## Model

| member | source | states |
|---|---|---|
| `Text.ValueByPosition` | tcpServer/server.cpp:966-975 | what a run of digits denotes: each digit counts by its position, the first one most |
| `Text.DecimalIsCanonical` | tcpServer/server.cpp:434 | the number written for a value is its one numeral without leading zeros |
| `Text.NextNumberSplits` | tcpServer/server.cpp:966-975 | extracting a number splits the text into blanks, a signed run of digits that ends where no digit follows, and the rest, in the only possible way, or fails |
| `Text.SizeArgumentOf` | tcpServer/server.cpp:966-975 | a size in range is read as itself, any larger one as the largest size_t |
| `Text.NextWordSplits` | tcpServer/server.cpp:946-975 | extracting a word splits the text into blanks, a word up to the next blank, and the rest, in the only possible way |
| `Text.NumberTexts` | tcpServer/server.cpp:966-975 | what "12", " -12" and a word are read as, as int and as size |
| `ChunkNames.LastMark` | tcpServer/server.cpp:239-241 | rfind: the last position of the mark, and no later one exists |
| `ChunkNames.LastMarkOfChunkName` | tcpServer/server.cpp:239-242 | the last mark of a chunk name is the one before its index, even if the file name contains marks and digits |
| `ChunkNames.ChunkNameRoundTrip` | tcpServer/server.cpp:239-242 | splitting a chunk name recovers file and index for every file name and every index in int range; beyond it std::stoi throws |
| `ChunkNames.ParsedAtLastMark` | tcpServer/server.cpp:239-242 | any name is split at its last mark, into a file name and what std::stoi makes of the rest, or its exception |
| `ChunkNames.NotAChunkIff` | tcpServer/server.cpp:239-240 | a name is skipped if and only if it holds no mark |
| `ChunkNames.ChunkNameInjective` | tcpServer/server.cpp:434 | as the coordinator writes them, chunks of different files, or different chunks of a file, never share a name |
| `ChunkNames.CutChunkName` | src/node_server.cpp:214-217 | what a node, which reads names up to the first NUL, takes a chunk name for: the name itself, or the cut file name without any index |
| `ChunkNames.ChunksKeptApart` | src/node_server.cpp:214-217 | two different chunks, of one file or of two, share a file on a node if and only if both file names are cut to the same one, or one of them is cut to exactly the name of the other chunk |
| `Chunking.OffsetClosedForm` | tcpServer/server.cpp:390-401 | after k rounds the loop has read the smaller of k chunks and the file |
| `Chunking.JoinedIsPrefix` | tcpServer/server.cpp:390-401 | the first k chunks end to end are the first so many bytes |
| `Chunking.ChunkingLossless` | tcpServer/server.cpp:390-507 | the number of chunks is the size divided by the chunk size rounded up, all are full but possibly the last, sizes add up, and the concatenation is the file |
| `Descriptors.SendAll` | src/tcp_helpers.cpp:8-24 | everything is sent in order, or the connection is broken after a proper prefix, however writes are split; and every piece stands in the log behind all persistent changes made so far |
| `Descriptors.RecvLine` | src/tcp_helpers.cpp:26-46 | returns exactly the first line and leaves what follows it, however reads are split |
| `Descriptors.SendFileData` | src/tcp_helpers.cpp:48-92 | on success header and exactly the announced bytes of the source have been sent; on an unbroken connection failure means that the source was too short, after header and all of it |
| `Descriptors.RecvFileData` | src/tcp_helpers.cpp:94-109 | fills exactly the first n places in place from the stream, or the stream held fewer (read_exact in tcpServer/server.cpp:185-195 is the same loop) |
| `Descriptors.Drain` | tcpServer/server.cpp:304-312 | takes exactly n bytes off the stream, or all there are |
| `Descriptors.PipePayload` | src/node_server.cpp:178-209 | the pipe receives the announced payload, or as much as arrives, in order, and nothing behind it |
| `Journal.BodyShape` | node/nodeinternal.cpp:262-323 | no step of an operation changes another entry or the journal files, and where the steps end |
| `Journal.JournalWrites` | node/nodeinternal.cpp:476-517 | the journal is opened and closed one truncation or one write at a time, the name changes only under status t, and the status says m or i exactly at the end, when the name is there or gone |
| `Journal.ParentSplits` | node/nodeinternal.cpp:272-273 | the directory a path needs is what stands before its last slash, or the storage directory |
| `CrashRecovery.OnlyJournalledPartial` | node/nodeinternal.cpp:476-517 | at every micro-step only the named entry differs, and it can be partial only while the status is m and the journal names it |
| `CrashRecovery.CrashThenRecover` | src/node_server.cpp:36-45 | after a crash at any micro-step recovery leaves all other files alone and the named one absent, old or complete, if and only if the journal is harmless there |
| `CrashRecovery.HarmfulWindow` | node/nodeinternal.cpp:476-517 | with a properly closed journal the harmful states are exactly those with status t and an empty modifying name |
| `CrashRecovery.HarmfulWindowIsReal` | src/node_server.cpp:37-40 | a concrete crash after which recovery throws |
| `CrashRecovery.StuckForever` | src/node_server.cpp:37-40 | from there no number of boots succeeds, and no file is ever lost |
| `CrashRecovery.EmptyNodeLosesStorage` | src/node_server.cpp:37-40 | the same crash on a node that holds nothing removes the storage directory, and the node comes up without it |
| `CrashRecovery.RecoverDirectory` | node/nodeinternal.cpp:310-323 | a journal entry that names a directory throws if the directory has children and deletes it otherwise |
| `CrashRecovery.SecondCrash` | node/nodeinternal.cpp:476-496 | a crash inside recovery is cleaned up by the next boot if and only if the journal is harmless and still asks for recovery while the file is there |
| `CrashRecovery.SecondCrashLosesTrack` | node/nodeinternal.cpp:478-480 | a concrete crash inside recovery after which the partial file stays for good |
| `Durability.EventKeepsSafe` | node/nodeinternal.cpp:262-323 | no completed, interrupted or recovered operation on another name endangers a complete file the journal does not name |
| `Durability.SafeForever` | node/nodeinternal.cpp:262-323 | the same over any run of operations, crashes, boots and crashes inside boots |
| `Durability.StoredIsSafe` | node/nodeinternal.cpp:262-308 | after a returned store the file is complete and no journal entry names it, if and only if its parent directory exists |
| `Durability.AcknowledgedIsDurable` | src/node_server.cpp:211-241 | from the first byte of OK on, wherever the process dies, a stored chunk keeps its exact bytes over any later operations on other names, crashes and boots |
| `Durability.NothingIsKept` | node/nodeinternal.cpp:262-291 | a node without its storage directory returns success from every store and keeps none |
| `NodeStorage.NodeInternal.IndicateStartModifying` | node/nodeinternal.cpp:476-496 | the outermost call passes through the six opening journal states in order, a nested one changes nothing on disk |
| `NodeStorage.NodeInternal.IndicateEndModifying` | node/nodeinternal.cpp:498-517 | the outermost call passes through the five closing states and leaves status i and no name |
| `NodeStorage.NodeInternal.CreateFile` | node/nodeinternal.cpp:262-291 | the persistent states passed through are those of the journal model, the nesting depth is restored on every return path, and the cache stays in step if and only if the file existed or its parent directory does |
| `NodeStorage.NodeInternal.StoreData` | node/nodeinternal.cpp:272-287 | the file ends up as everything the input delivered, one persistent step per block |
| `NodeStorage.NodeInternal.ReplaceFile` | node/nodeinternal.cpp:293-308 | the nested deletion and creation stay inside one journal entry, what they leave on disk and in the cache for any name, directories included, and when the exception escapes with both entries open |
| `NodeStorage.NodeInternal.DeleteFile` | node/nodeinternal.cpp:310-323 | removes exactly the named entry and its bytes from the cache; when remove throws the journal entry stays open |
| `NodeStorage.NodeInternal.CreateDirectory` | node/nodeinternal.cpp:325-341 | adds exactly the directory when its parent exists and nothing has its name, and never moves the cache; without a parent it throws with the journal entry open |
| `NodeStorage.NodeInternal.DeleteDirectory` | node/nodeinternal.cpp:343-376 | what goes and what stays, and that the cache still equals the sum over what is left |
| `NodeStorage.NodeInternal.ClearExistingData` | node/nodeinternal.cpp:121-145 | ends empty with an idle journal and an exact cache |
| `NodeStorage.NodeInternal.ComputeNodeSize` | node/nodeinternal.cpp:147-172 | the cache is exact afterwards, in whatever order the iterator yields the files |
| `NodeStorage.NodeInternal.GetFileSize` | node/nodeinternal.cpp:227-260 | the size of a file, the sum under a directory, -1 for neither |
| `NodeStorage.NodeInternal.CheckError` | node/nodeinternal.cpp:402-434 | the code of each status byte, of an empty status file and of any other content |
| `NodeStorage.NodeInternal.RecoverAtStart` | src/node_server.cpp:36-45 | leaves the disk as the recovery model says, throwing exactly when it does |
| `NodeServer.Server.Start` | src/node_server.cpp:33-45 | what recovery at start-up leaves, exactly when it throws, and that the node can serve afterwards if and only if the journal did not name the storage directory |
| `NodeProtocol.HeadLineParses` | src/node_server.cpp:103-159 | every request line the coordinator writes is read as that request |
| `NodeProtocol.ServeExecutes` | src/node_server.cpp:103-209 | for any sequence of requests with any payload bytes the loop executes exactly that sequence, under names cut at their first NUL |
| `NodeProtocol.AcknowledgedIsStored` | node/nodeinternal.cpp:271-288 | a store answered with OK has left the bytes under the name if and only if its parent directory is the storage directory |
| `NodeProtocol.MissingParentIsAcknowledged` | node/nodeinternal.cpp:271-288 | a concrete request line that is answered OK, stores nothing and takes one byte off the cached total |
| `NodeProtocol.AnswersReadBack` | tcpServer/server.cpp:449-458 | the coordinator reads back exactly the answers that were written, with nothing left over |
| `NodeProtocol.FramingRoundTrip` | tcpServer/server.cpp:689-714 | both directions together: requests, execution on the files, and replies with the same name, size and bytes (`Layers.RetrieveIsRead`, `StoreIsTouch` and `DeleteIsTouch` say what execution means for one request) |
| `NodeProtocol.StoreText` | src/node_server.cpp:114-122 | the text answered to a store line whose size is no number |
| `NodeProtocol.AbsentTexts` | src/node_server.cpp:250-254 | the text answered to a retrieval and to a deletion of a file that is not there |
| `NodeProtocol.ListingText` | src/node_server.cpp:305-336 | the text of a listing of two files |
| `NodeProtocol.ServeStops` | src/node_server.cpp:103-159 | NODE_KILL is answered OK and nothing behind it is read; a line that never ends is no command |
| `NodeProtocol.CutStore` | src/node_server.cpp:178-241 | a connection that breaks off inside a payload leaves what has arrived under the name, answered OK |
| `NodeProtocol.CacheStaysExact` | node/nodeinternal.cpp:262-323 | an exact cache stays exact over any sequence of requests whose names have no directory in front |
| `NodeServer.Server.HandleStore` | src/node_server.cpp:169-245 | takes exactly the payload off the connection and stores it under the name; every persistent change of the store is in the log before the first byte of OK; and if the payload arrived whole, its bytes are permanent from that byte on, at every crash point |
| `NodeServer.Server.HandleRetrieve` | src/node_server.cpp:247-281 | sends the reply of the specification, whose meaning is `Layers.RetrieveIsRead`: the file as its header and exactly its bytes, or the error line; for a name cut to nothing only a header |
| `NodeServer.Server.HandleDelete` | src/node_server.cpp:283-303 | OK and gone, or the error line and an exact cache; for a name cut to nothing the exception, or the storage directory gone |
| `NodeServer.Server.HandleList` | src/node_server.cpp:305-336 | the announced count and one line with the right size for every file |
| `NodeServer.Server.HandleStatus` | src/node_server.cpp:338-352 | sends the reply of the specification, whose meaning is `Statuses.ReplyTells`: the number of files and the cached total |
| `NodeServer.Server.Dispatch` | src/node_server.cpp:115-158 | a command line has exactly the effect, the replies and the consumption its meaning says, and what becomes of the server |
| `NodeServer.Server.HandleConnection` | src/node_server.cpp:103-167 | a whole connection, however split, leaves the storage and has sent the replies that its stream means |
| `Layers.ChunkNameIsFlat` | tcpServer/server.cpp:319-323 | chunk names of accepted file names never need a directory on a node |
| `Layers.StoreIsTouch` | src/node_server.cpp:211-241 | the text of a store request leaves the whole chunk under its name and is answered as acknowledged, which is the state machine's acknowledged step, if and only if the name holds no NUL |
| `Layers.SecondChunkOverwrites` | src/node_server.cpp:211-217 | of two different chunks stored in turn, of one file or of two, the first reads back as itself unless the cut names collide, and then as the second |
| `Layers.CutNameIsAdmitted` | tcpServer/server.cpp:319-323 | a concrete upload line with such a name is accepted, and its first chunk reads back as its second |
| `Layers.CutNameHitsOtherFile` | tcpServer/server.cpp:319-323 | a concrete upload line that is accepted and overwrites a chunk of another file, whose name holds no NUL |
| `Layers.DeleteIsTouch` | src/node_server.cpp:283-303 | the text of a deletion request is the state machine's step if and only if the name is not cut to that of another file, and is acknowledged exactly when the file was there |
| `Layers.RetrieveIsRead` | src/node_server.cpp:247-281 | the text of a retrieve request changes nothing on the node, and the coordinator reads from the reply exactly the bytes on that disk if the file is there and a refusal if it is not, with nothing left over (for a name with a NUL, those of the cut name) |
| `Layers.CrashIsTouch` | src/node_server.cpp:36-45 | a request cut off by a crash and recovered is some effect on that one chunk name |
| `Load.AdjustBytes` | tcpServer/server.cpp:96-100 | a list of updates moves each total by exactly its copies' sizes |
| `Load.BumpAgrees` | tcpServer/server.cpp:920-926 | one update, also of a node that was killed, keeps the index in agreement, and the node counts as live again |
| `Load.AdjustAgrees` | tcpServer/server.cpp:96-100 | any list of updates keeps the index in agreement with the array |
| `Load.LeastLoadedUnique` | tcpServer/server.cpp:406-417 | there is only one least loaded choice |
| `Load.EqualTotals` | tcpServer/server.cpp:406-417 | among nodes with equal totals the first ones are chosen, in order |
| `NodeLoads.LoadIndex.UpdateNodeSize` | tcpServer/server.cpp:96-100 | array and set move together |
| `NodeLoads.LoadIndex.AdjustFile` | tcpServer/server.cpp:520-528 | the loops over chunks and replicas are the list of updates of all their copies |
| `NodeLoads.LoadIndex.SelectNodes` | tcpServer/server.cpp:406-417 | walking the index picks as many distinct eligible nodes as wanted and available, each lighter by (bytes, id) than every one left out |
| `NodeLoads.LoadIndex.Reset` | tcpServer/server.cpp:920-926 | a reported total replaces the old one in array and set |
| `NodeLoads.LoadIndex.Remove` | tcpServer/server.cpp:1024-1028 | exactly the node's entry goes, the totals stay |
| `NodeLoads.LoadIndex.Refill` | tcpServer/server.cpp:269-272 | the index holds every node once under its total and nothing else |
| `Invariants.SoundKept` | tcpServer/server.cpp:72-88 | every event keeps shapes, the agreement of the index with the array, and that dead nodes are nodes |
| `Invariants.IndexVisitsLiveNodes` | tcpServer/server.cpp:356-369 | walking the index visits exactly the live nodes, each once |
| `Invariants.NamedKept` | tcpServer/server.cpp:329-343 | every event keeps pending_uploads exact and at most one writer for each name |
| `Bytes.InPlaceBytes` | tcpServer/server.cpp:425-487 | a step of an upload moves each total by exactly the change of that upload's own account, with partial replica failure included |
| `Bytes.ConservedKept` | tcpServer/server.cpp:72-88 | every event keeps each total equal to committed plus reserved minus removed plus drift |
| `Bytes.DriftOnlyMoves` | tcpServer/server.cpp:784-791 | only the end of a deletion and a revival change the drift |
| `Contents.PlacedTouched` | tcpServer/server.cpp:434 | changing one chunk file leaves every placement that does not list it intact |
| `Contents.DeliversSlice` | tcpServer/server.cpp:653-718 | a listed replica of an undisturbed file delivers the right slice |
| `Contents.FaithfulKept` | tcpServer/server.cpp:390-590 | every event keeps committed contents, uploads on their way and running downloads faithful |
| `Orphans.TidyKept` | tcpServer/server.cpp:532-574 | every event keeps exact which chunk files of a name exist while it is replaced or deleted |
| `Runs.StartUpInv` | tcpServer/server.cpp:198-276 | what a rebuild leaves satisfies all invariants |
| `Runs.RunKeepsInv` | tcpServer/server.cpp:72-88 | so does every state of every run |
| `Runs.BytesConserved` | tcpServer/server.cpp:76-79 | in every reachable state each total is committed plus reserved minus removed bytes plus drift |
| `Runs.IndexExact` | tcpServer/server.cpp:81-88 | in every reachable state every live node has exactly one entry, under its total, through kills, updates of killed nodes and revivals |
| `Runs.PendingIsInFlight` | tcpServer/server.cpp:329-349 | in every reachable state pending_uploads is exactly the names of unfinished uploads, one for each |
| `Runs.ReplicasHoldContent` | tcpServer/server.cpp:390-590 | in every reachable state an uploaded file passes the contiguity check, its slices make up its content, and unless disturbed every listed replica holds exactly its slice |
| `Runs.DownloadIsExact` | tcpServer/server.cpp:610-737 | a download that found every chunk while nobody wrote to its name has sent exactly the committed bytes, whatever else interleaved |
| `Runs.SweptExactly` | tcpServer/server.cpp:532-574 | after the sweep the chunk files of the name are exactly the new placement |
| `Runs.OverwriteSweepExact` | tcpServer/server.cpp:532-574 | so they are after a successful overwrite that no node failed, with the new bytes, whether there are more or fewer chunks |
| `Runs.SweepSparesNewCopies` | tcpServer/server.cpp:549-551 | no sweep step deletes a freshly written copy |
| `Runs.DeleteCompletes` | tcpServer/server.cpp:754-804 | a deletion has missed no copy exactly when all were removed, and what is left of the name is on nodes that failed it |
| `Runs.DeletionDrift` | tcpServer/server.cpp:759-798 | a deletion leaves as drift exactly the bytes of the copies it failed to remove; these and the removed ones are all its copies, and their nodes failed it |
| `Attribution.UploadAccount` | tcpServer/server.cpp:425-487 | under any interleaving an upload's own steps add up to its own account |
| `Attribution.AbortIsNeutral` | tcpServer/server.cpp:513-530 | an aborted upload has no net effect on any total and leaves the metadata alone |
| `Attribution.DeletionAccount` | tcpServer/server.cpp:784-791 | under any interleaving a deletion's own steps add up to what it removed |
| `Attribution.DeleteReleasesItsShare` | tcpServer/server.cpp:784-804 | a deletion that replies OK has lowered every total by exactly its share |
| `Balance.SelectLean` | tcpServer/server.cpp:406-417 | choosing the least loaded nodes puts a chunk on one of two available nodes alone only when that node is not ahead |
| `Balance.ReserveLean` | tcpServer/server.cpp:427-432 | reserving puts no node further ahead than its pending choices allow for |
| `Balance.LoadStaysBalanced` | tcpServer/server.cpp:403-432 | under any interleaving, two nodes that stay up and are released evenly end no further apart than they were, or than one chunk for every upload that may have chosen its nodes and not yet reserved |
| `Balance.OneUploadAtATime` | tcpServer/server.cpp:403-487 | when uploads follow one another the gap between two nodes that stay up, and are released evenly, stays within what it was or one chunk, whatever other nodes are killed, found dead or come back; neither of the two itself comes back under a new total |
| `Resilience.ReadAllJoins` | tcpServer/server.cpp:653-724 | reading with fail-over yields all chunks when each has a replica in reach and strictly fewer bytes when one has not |
| `Resilience.FailoverExact` | tcpServer/server.cpp:653-724 | in every reachable state and for every set of nodes out of reach, a read is exact if and only if each chunk has a listed replica in reach |
| `Resilience.LostSuffixPasses` | tcpServer/server.cpp:626-637 | any prefix of a file's chunks passes the contiguity check with a consistent size |
| `Resilience.LostSuffixIsServed` | tcpServer/server.cpp:626-724 | and is then served as exactly those bytes |
| `Resilience.UnreducedUpload` | tcpServer/server.cpp:496-504 | without reduced replication every chunk is on as many distinct nodes as configured |
| `Resilience.ChangesAreCounted` | tcpServer/server.cpp:578-588 | no event changes a file's entry or content without being counted for its name |
| `Resilience.SurvivesLosingNodes` | tcpServer/server.cpp:496-504 | such a file is read exactly after any run that does not write to it, with any number of nodes lost below the replica count |
| `Replication.WarningTells` | tcpServer/server.cpp:496-498 | over any interleaving: with the warning some chunk is short of replicas; without it every chunk has them if and only if at every selection of this upload enough of the nodes it was connected to were live |
| `Overlap.GuardedIsFree` | tcpServer/server.cpp:329-343 | the runs of the state machine are among the runs that the code allows |
| `Overlap.NextSound` | tcpServer/server.cpp:740-753 | without the guards against overlapping uploads and deletions of one name the index still agrees with the array and every event is still defined |
| `Overlap.LastWord` | tcpServer/server.cpp:577-590 | whatever overlaps, the last commit or end of a deletion decides whether a name is listed, and as what |
| `Overlap.CommitMustComeLast` | tcpServer/server.cpp:795-798 | when an upload and a deletion of one name have both ended, the name is listed if and only if the commit came after the end of the deletion |
| `Overlap.StoredAmongDeletions` | tcpServer/server.cpp:759-791 | with deletions of its name at any time, the placement of a committed upload holds if and only if no deletion request has spoiled one of its copies after that copy was stored |
| `Overlap.ClashLosesEntry` | tcpServer/server.cpp:740-805 | a concrete run from a start-up state in which upload and deletion both succeed and the uploaded file is not listed |
| `Overlap.ClashLosesCopies` | tcpServer/server.cpp:740-805 | the same with the two ends exchanged: the uploaded file is listed and on no node |
| `Refinement.RunMeans` | tcpServer/server.cpp:577-590 | of all events only commits and ends of deletions mean anything for the map of names to bytes |
| `Refinement.StoreIsMap` | tcpServer/server.cpp:610-737 | after any run the names listed are those of performing commits and deletions in order, and an undisturbed file reads as what they say, exactly when each chunk has a replica in reach |
| `Rebuild.OrderedLists` | tcpServer/server.cpp:252-262 | the chunks of a file come out ascending, each once, with what was found |
| `Rebuild.ContiguousMeansPrefix` | tcpServer/server.cpp:626-637 | rebuilt metadata passes the contiguity check if and only if the surviving indices are the first so many |
| `Rebuild.LastSizeWins` | tcpServer/server.cpp:239-245 | of two lines about one chunk the second decides the size, and both nodes are recorded in order |
| `Rebuild.OddNames` | tcpServer/server.cpp:239-242 | a name without a mark is skipped, and one without a number behind its last mark throws |
| `Restart.CollectReflects` | tcpServer/server.cpp:237-247 | the collected map says of every chunk exactly which nodes listed it and with which size |
| `Restart.LogDescribes` | tcpServer/server.cpp:209-250 | with exact disks the listings name for each chunk exactly its listed nodes, ascending, with its size |
| `Restart.RestartRoundTrip` | tcpServer/server.cpp:198-266 | with all nodes reachable and exact disks the rebuilt map is the old one up to the order of replicas |
| `Totals.ListingBytes` | tcpServer/server.cpp:247 | a node's lines add up to what its disk holds, in any order |
| `Totals.AnyShareBytes` | tcpServer/server.cpp:76-79 | a disk that holds exactly a node's copies has exactly its share of the committed bytes |
| `Totals.RestartBytes` | tcpServer/server.cpp:201-272 | after a restart each total is the size of the node's store and its share of the committed files |
| `AfterRestart.SettledExact` | tcpServer/server.cpp:198-276 | in a reachable state with nothing in flight and no stray chunk file the disks are exact |
| `AfterRestart.RestartIsStartUp` | tcpServer/server.cpp:198-276 | from such a state the restarted server has the same files and contents, no drift, and all theorems about runs hold for it again |
| `Listings.ListingReadsBack` | tcpServer/server.cpp:219-235 | the reply to NODE_LIST is read as exactly the names and sizes it was written for |
| `Listings.OddLines` | tcpServer/server.cpp:224-238 | a line with a missing or bad size lists the name with size 0, a blank line lists nothing, and a header without a positive count announces none |
| `Listings.CutEntries` | tcpServer/server.cpp:229-231 | a reply that breaks off counts as far as it got |
| `Listings.AnswerLists` | src/node_server.cpp:305-336 | from what a node holds through the text of its reply to the lines the coordinator works on: every file once with its size |
| `Listings.RestartFromReplies` | tcpServer/server.cpp:198-276 | from a settled state the text the nodes send brings back the same files and contents without drift, in a state that runs may start from |
| `RebuildHandler.OrderChunks` | tcpServer/server.cpp:256-259 | the loop over one file's chunks yields them in order with their total |
| `RebuildHandler.FinishFiles` | tcpServer/server.cpp:252-266 | the loop over the files, in any order, yields the map of the specification |
| `RebuildHandler.AbsorbText` | tcpServer/server.cpp:229-248 | what one line of text does to map and totals, or the exception |
| `RebuildHandler.ReadListing` | tcpServer/server.cpp:219-249 | the reply of one node, read off its connection line by line as far as header or stream go, updates map and totals as specified, or throws at a malformed name |
| `RebuildHandler.ReadAllListings` | tcpServer/server.cpp:209-250 | the replies of all reachable nodes in order, or the exception exactly when a line throws |
| `RebuildHandler.RebuildMetadata` | tcpServer/server.cpp:198-276 | from the text of the replies: the specified map, totals and a fresh index, in a state that runs may start from |
| `Coordinator.Server.AdmitUpload` | tcpServer/server.cpp:329-343 | admits if and only if the name is not pending, as one event |
| `Coordinator.Server.ConnectLive` | tcpServer/server.cpp:356-369 | connections to exactly the live reachable nodes; exactly the unreachable ones are dead |
| `Coordinator.Server.SelectNodes` | tcpServer/server.cpp:406-417 | the selection block is one event and picks the least loaded live connections |
| `Coordinator.Server.ReserveBytes` | tcpServer/server.cpp:427-432 | the reservation block is one event |
| `Coordinator.Server.StoreReplica` | tcpServer/server.cpp:443-461 | one worker's request and reply are one event |
| `Coordinator.Server.DropFailed` | tcpServer/server.cpp:467-487 | exactly the failed replicas give their bytes back, are dead and lose their connection; the others are kept in order |
| `Cluster.AnsweredInOrder` | tcpServer/server.cpp:468-471 | the replicas recorded for a chunk keep the order in which they were chosen |
| `Coordinator.Server.SettleChunk` | tcpServer/server.cpp:467-487 | that block is one event |
| `Coordinator.Server.SweepCopy` | tcpServer/server.cpp:548-573 | one old copy is one event: kept, deleted, or left where the node cannot be reached |
| `Coordinator.Server.AbortUpload` | tcpServer/server.cpp:520-528 | the abort block is one event |
| `Coordinator.Server.CommitUpload` | tcpServer/server.cpp:577-590 | the commit block is one event |
| `Coordinator.Server.Retrieve` | tcpServer/server.cpp:656-718 | one attempt at one replica is one event, and which outcomes mark the node dead |
| `Coordinator.Server.EraseCopy` | tcpServer/server.cpp:759-791 | only an acknowledgement releases bytes; everything else leaves the node dead |
| `Coordinator.Server.DeleteCopy` | tcpServer/server.cpp:759-791 | that is one event |
| `Coordinator.Server.EndDelete` | tcpServer/server.cpp:795-798 | the last block of a deletion is one event |
| `Coordinator.Server.KillNode` | tcpServer/server.cpp:1024-1028 | the kill block is one event |
| `Coordinator.Server.ReviveNode` | tcpServer/server.cpp:920-926 | the revival block is one event |
| `Interference.OthersLeaveFiles` | tcpServer/server.cpp:434 | while an upload is in flight no other operation touches a chunk file of its name |
| `Interference.RunNoNewWriter` | tcpServer/server.cpp:329-343 | operations that spare a name leave it without a new writer |
| `UploadHandler.StoreReplicas` | tcpServer/server.cpp:437-463 | the joined workers have asked every chosen node once and recorded its answer, with other handlers running in between |
| `UploadHandler.PlaceChunk` | tcpServer/server.cpp:403-507 | one chunk is a stretch of a run among others; no node is found exactly when none of the connected ones is live; with no failed replica the chunk is on as many nodes as wanted and live then; failed ones are dead and disconnected |
| `UploadHandler.ReadPiece` | tcpServer/server.cpp:390-401 | the piece read is that slice of the content and the stream has moved by exactly its length |
| `UploadHandler.ReceiveChunks` | tcpServer/server.cpp:390-508 | however the loop ends, and whatever others do, exactly bytes_read bytes are off the stream; it ends without nodes only if a selection found none; and willing nodes never fail |
| `UploadHandler.AdmitOrReject` | tcpServer/server.cpp:318-349 | exactly the names that contain a slash or two dots in a row are invalid, exactly the valid pending ones are in progress; the payload of a rejected upload is drained and nothing else changes; all others are admitted as one event |
| `UploadHandler.BadNameContains` | tcpServer/server.cpp:319 | the check as a search for the two substrings |
| `UploadHandler.SomeNames` | tcpServer/server.cpp:319 | names with single dots pass, and two concrete ones are rejected |
| `UploadHandler.NewPlacements` | tcpServer/server.cpp:538-543 | exactly the (index, node) pairs of the new chunks |
| `UploadHandler.SweepOld` | tcpServer/server.cpp:537-574 | every old copy is visited once; those the new chunks do not have are gone wherever their deletion is acknowledged, and nobody else puts them back |
| `UploadHandler.HandleUpload` | tcpServer/server.cpp:314-608 | invalid are exactly the names that contain a slash or two dots in a row; with any run of other operations between its blocks: on every way out, no nodes midway included, exactly filesize bytes are consumed; a failed upload has cancelled its own steps on every node and left the metadata alone; success commits exactly the bytes received and sweeps the old copies; and what the warning and its absence mean. Alone it changes nothing on failure and only its name on success, and available nodes make it succeed |
| `DownloadHandler.CheckChunks` | tcpServer/server.cpp:624-637 | passes exactly the metadata whose chunks are numbered from 0 without a gap and have replicas, and otherwise reports the first chunk that is wrong and what is wrong with it |
| `DownloadHandler.Ask` | tcpServer/server.cpp:656-714 | exactly which replica is skipped, cannot be connected to, stays silent, misses the file, breaks off or delivers, by liveness, behaviour, open connection and disk; and after which answers the connection is kept, opened anew or dropped |
| `DownloadHandler.FetchChunk` | tcpServer/server.cpp:653-724 | the loop over replicas is a stretch of a run among others; in calm it delivers what the fail-over read of that chunk says, and newly dead are exactly those of the replicas asked that left the request unanswered |
| `DownloadHandler.FetchAll` | tcpServer/server.cpp:653-733 | the loop over chunks, on one connection at a time, the same for the file: what is delivered, and which nodes are dead afterwards |
| `DownloadHandler.HandleDownload` | tcpServer/server.cpp:610-737 | which reply and which announced size; with any run of other operations between its blocks and nodes changing their behaviour from chunk to chunk, a download that finds every chunk while nobody writes to its name hands over exactly the committed bytes; in calm, exactly the fail-over read, and newly dead are exactly the nodes that were asked and accepted no connection or never answered, not those that only missed a chunk or broke off |
| `DeleteHandler.EraseAll` | tcpServer/server.cpp:754-793 | every copy is tried once, with other handlers running in between, and all_deleted holds exactly when none was missed |
| `DeleteHandler.HandleDelete` | tcpServer/server.cpp:740-805 | with any run of other operations between its blocks: the name is gone; the reply is OK exactly when no copy was missed; its own steps have released exactly what it removed, which is then the whole file; and what is left is on missed nodes. Alone, OK exactly when every node acknowledges, and newly dead are exactly the nodes with a copy that was not acknowledged |
| `Maintenance.HandleKill` | tcpServer/server.cpp:1003-1033 | which of the four replies; exactly when a node is killed, and that then only its index entry and its liveness change |
| `Statuses.ReportReadsBack` | tcpServer/server.cpp:913-918 | the line written for a count and a total is read as that total, as far as both fit |
| `Statuses.OtherReplies` | tcpServer/server.cpp:913-918 | another tag is skipped, a count that is no number leaves the total 0, and a negative total is taken over |
| `Statuses.ReplyTells` | src/node_server.cpp:338-358 | from what a node holds through the text of its reply to the total the coordinator takes over: the cached total, negative ones as 0; but 0 from a node with more files than an int counts |
| `Maintenance.HealthCheck` | tcpServer/server.cpp:893-936 | from the text of the replies: exactly the dead nodes whose reply is a report are live again, under the total it reports; and a node that answers with what it holds is back under its cached total, which is the sum over its files where the cache is exact |
| `ClientProtocol.ReadLine` | tcpServer/server.cpp:166-182 | the next line without carriage returns, or the empty line at the end of the stream |
| `ClientProtocol.ReturnsGo` | tcpServer/server.cpp:166-182 | carriage returns are dropped wherever they stand in a line, and nothing else is |
| `ClientProtocol.UploadTexts` | tcpServer/server.cpp:966-975 | "UPLOAD f 12" asks for 12 bytes under the name f, in either case; without a number it is a usage error |
| `ClientProtocol.KillLine` | tcpServer/server.cpp:1003-1007 | a word with a digit, possibly behind a sign, means that number or the nearest int; a word means node 0 if and only if it is no such number or the number is 0 |
| `ClientProtocol.KillWordMeansNodeZero` | tcpServer/server.cpp:1003-1007 | two concrete command lines without a number that kill node 0 |
| `ClientProtocol.KillTexts` | tcpServer/server.cpp:1003-1007 | "KILL_NODE 12" means node 12, "KILL_NODE -12" node -12, and without a word node -1 |
| `ClientProtocol.SessionRoundTrip` | tcpServer/server.cpp:946-975 | any sequence of commands with any payload bytes is taken off the stream exactly |
| `ClientProtocol.SessionEnds` | tcpServer/server.cpp:946-962 | QUIT, an empty line and the end of the stream end the session, whatever follows |
| `ClientProtocol.CutOff` | tcpServer/server.cpp:966-975 | a stream that ends inside a payload leaves one upload with what has arrived |
| `ClientHandler.HandleCommand` | tcpServer/server.cpp:961-1033 | one command, with others running between its blocks, has done what its handler says and takes exactly its payload off the stream |
| `ClientHandler.HandleClient` | tcpServer/server.cpp:940-1040 | a whole session, with any run of other operations that spare its names before, between and inside its commands, serves exactly the requests its stream means, in order, each as it should be, as one run of the state machine |
| `Examples.ReducedWithoutWarning` | tcpServer/server.cpp:496-498 | a session from start-up in which an upload with two wanted replicas is answered OK without a warning and has one |
| `Examples.KilledInBetween` | tcpServer/server.cpp:405-417 | a session from start-up in which both nodes are connected, one is killed before the first chunk, and the upload ends reduced without a warning |
| `Examples.LostSuffix` | tcpServer/server.cpp:624-637 | a session from start-up in which a file that has lost its last chunk is announced and sent without it, as if complete |

## Left out

- HandleClient: other clients do not begin to write the names that this client writes, before its session has ended; uploads and deletions that overlap on one name are the subject of `Overlap`.
- HandleDownload: a chunk is handed to the client with one send whose result the code ignores, so a short send loses bytes; `emitted` is what has been handed over.
- ReadListing: (and AbsorbText, ReadAllListings) a stored name whose index parses as negative is ignored, where the code enters it under that index, which makes the file fail the contiguity check; the coordinator never produces such names.
- ReceiveChunks: sizes, totals and chunk indices are unbounded integers; overflow of off_t, size_t and int counters is not modelled, except where a number is read from text.
- StoreIsTouch: the state machine's disks know chunks by the coordinator's names, so what is proved of it holds for runs in which no file name at all holds a NUL; this lemma and `ChunksKeptApart` say why.
- HandleConnection: after a request has removed an empty storage directory, by a name cut to nothing, the model stops, where the code goes on without that directory.
- PipePayload: a pipe that takes no more bytes is left out; the read end stays open until the store has read everything.
- ParseCommand: an UPLOAD line without a size reads an uninitialised variable in the code and counts as a usage error here.
- ClearExistingData: remove_all is one persistent step.
- HandleDelete: a name that an upload or another deletion is writing is excluded, since the code never checks pending_uploads in handle_delete; `Overlap` says what happens then.
- AdmitUpload: an upload of a name that is being deleted is excluded for the same reason, here and in AdmitOrReject, HandleUpload and HandleCommand.
- The delayed effect of a store that timed out: its effect on the one chunk name happens when its failure is noticed; a node serves one connection at a time, so it is ordered before later requests to that node.
- Sockets, ports, timeouts, threads, pipes and descriptors as such: a connection attempt succeeds or fails, workers are asked one after another, a pipe is the bytes written to it.
- File system details: permissions, path limits, symbolic links, and paths that use `.`, `..` or repeated slashes; directory order is a parameter.
- The RANDOM_FAILURES macros: a crash at any step is covered.
- LIST and STATUS towards clients, welcome lines, wording of replies, console output, the terminal interface and the client program's prompt.
- A reply line to the client is one send whose result the code ignores, so nothing is claimed about when it arrives.
