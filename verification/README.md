# Verified model of libtorrent's core

This project models the parts of the bundled libtorrent library that decide what to
download, where to keep it and whom to ask for it, and proves what they promise.

- **Piece picker** (`PickerTypes`, `Buckets`, `Cascades`, `Rebuild`, `Blocks`, `Queue`,
  `Cursors`, `Picker`, `PickPieces`, `PickerRuns`). The picker keeps all pieces worth
  downloading in one list, grouped in buckets by priority, with back-pointers from each
  piece. Small changes are made by cascades of displacements, large ones by a counting
  sort. Beside the list it keeps a queue of pieces being downloaded whose block states
  live in a compacting store, and two cursors. The main results: every operation keeps
  the whole invariant, over every run; the incremental lists agree with a rebuild; and
  what `pick_pieces` returns is allowed, bounded, in the order of its pass, told from the
  fields of the pieces (rare before common, wanted before less wanted), with nothing left
  out for something that comes later, and, when it is less than asked for, complete.
- **Disk cache** (`DiskBlocks`, `DiskReads`, `DiskCache`, `DiskThread`, `DiskRuns`). A piece
  *stands for* its bytes on disk overlaid with its cached blocks. Flushing, evicting and
  caching never change what a piece stands for, a write job changes it like a direct write
  would, and a hash job reads exactly that. Block counters stay exact between all jobs of
  every run of reads, writes and hash jobs, so evictions free exactly what is asked for and
  the flush loops end, having taken the least recently used entries, or the longest runs,
  and no more of them than needed. What a read delivers was on disk, but need not be any more; when it
  is, is proved exactly.
- **Peer list** (`PeerTypes`, `PeerScan`, `PeerList`, `PeerRuns`). The search for a peer
  to connect to goes once around a list from which it erases on the way, and still returns
  an eligible peer that none beats: none has failed less often, none of those is local
  where it is not, and so on through its fields. Candidate and seed counters and the order of the list
  are exact over every run.
- **File layout** (`FileStorage`), **HTTP parser** (`Text`, `HttpParser`), **handshake
  synchronisation** (`SyncSearch`), **UTF conversion** (`Utf`) and **metadata transfer**
  (`Metadata`). `Lists` holds what several of them share.

`dafny verify dfyconfig.toml` checks everything.

How the model reads the program:

- A random number is an arbitrary one: every result holds for all of them. Times, results
  of disk reads, hash comparisons and the fate of connections are arguments.
- Pointers and iterators are positions in a sequence; a list erased from shifts them as
  the program does. A peer erased during the search is looked at before it is erased.
- Integer widths are modelled where the code depends on them: the availability counter
  of a piece (ten bits), the request counter of a block (fourteen bits), the failure
  count of a peer (five bits) and the time of its last connection (sixteen bits), decoded
  characters (32 bits) and numbers in HTTP headers (saturated at 64 bits). Other integers
  are unbounded.
- One job or method call is one step; locks are not modelled.

Where the code and its stated invariants differ, the code is followed and the exact
condition is proved:

- `piece_picker::init` keeps its counters exact if and only if shrinking the piece map cuts
  off no filtered piece (`Picker.PiecePicker.Init`; a picker where it does not:
  `Picker.InitExample`).
- Of two pieces with the same number of peers a higher user priority puts one no later,
  unless nobody but seeds has them: then there is nothing to halve, and 4, 5 and 6 count as
  1, 2 and 3 (`PickerTypes.WantedFirst` has the exact condition; two such pieces:
  `PickerTypes.WantedExample`). The remarks at the field
  `piece_priority` (piece_picker.hpp, lines 376 to 384) describe other levels than the code
  and the table above `priority()`; the code is followed.
- `policy::set_seed` only lowers the candidate counter; it stays exact if and only if the
  change does not turn the peer into a candidate (`PeerList.Policy.SetSeed`; a list where it
  does: `PeerList.SeedExample`).
- A block's request counter, and with it the picker's invariant, keeps its meaning if and
  only if it does not wrap (`Blocks.RequestKeeps`, `Picker.PiecePicker.MarkAsDownloading`; an
  entry where it does: `Blocks.RequestExample`).
- A block in the read cache is not dropped when its bytes on disk change. A job keeps a
  piece's cached blocks as on disk if and only if it changes no block that stays cached
  (`DiskRuns.MirrorKeptExactly`), a cached block is stale if and only if the disk has changed
  since it was read (`DiskRuns.LoadedSince`), and a read delivers the bytes on disk if and
  only if it does not hit a block that differs (`DiskRuns.ReadExactly`). Read, write, hash and
  read again: the last read delivers the old bytes (`DiskRuns.StaleRead`).
- `map_file` undoes `map_block` if and only if the file has no base offset
  (`FileStorage.MapFileUndoes`; a file with one: `FileStorage.FileBaseExample`).
- A 100 Continue response leaves no trace in the next one if and only if it announces
  neither a length nor a range (`HttpParser.ContinueExactly`).
- The slot arithmetic of the metadata extension can be undone if and only if there are at
  least 256 bytes, although smaller sizes are accepted (`Metadata.RoundTripExactly`); a
  refused piece of metadata clears all marks if and only if the last request reached the
  last slot (`Metadata.Plugin.Received`; a run where marks stay: `Metadata.RefusedInPart`);
  and a request is made if and only if fewer than 256 peers have metadata
  (`Metadata.Plugin.MetadataRequest`).
- The UTF-8 check accepts some sequences that RFC 3629 does not (`Utf.LegalExactly`,
  `Utf.ExtraExample`).

## Model

| member | source | states |
|---|---|---|
| `PickerTypes.PiecePos.Priority` | jni/libtorrent/include/libtorrent/piece_picker.hpp:420-444 | a piece is left out of the lists exactly when it is filtered, had or not available, and the multiples of four belong to exactly the pieces being downloaded |
| `PickerTypes.RarerFirst` | jni/libtorrent/include/libtorrent/piece_picker.hpp:420-444 | of two pieces alike but for their peers the rarer one is never behind; it is ahead for user priorities 1 to 3, and for 4 to 6 exactly when half its peers are fewer |
| `PickerTypes.WantedFirst` | jni/libtorrent/include/libtorrent/piece_picker.hpp:407-441 | of two unstarted pieces with the same number of peers the one wanted more is not behind if and only if there is such a peer, or its priority is the highest, or both are up to three or both above, or its priority less three is no lower than the other |
| `PickerTypes.WantedExample` | jni/libtorrent/include/libtorrent/piece_picker.hpp:431-441 | with one seed and no other peer a piece of priority 4 is behind one of priority 3 |
| `PickerTypes.StartedFirst` | jni/libtorrent/include/libtorrent/piece_picker.hpp:407-441 | a piece in progress is ahead of an unstarted one of the same user priority that is no rarer, and behind rarer ones |
| `PickerTypes.TopFirst` | jni/libtorrent/include/libtorrent/piece_picker.hpp:428-429 | the highest user priority disregards availability: no unstarted piece is ahead of it, and nothing is once it is in progress |
| `PickerTypes.HalvedAvailability` | jni/libtorrent/include/libtorrent/piece_picker.hpp:431-441 | user priorities 4 to 6 stand where 1 to 3 stand with half the peers |
| `Buckets.MoveDown` | jni/libtorrent/src/piece_picker.cpp:662-688 | one displacement step towards a lower bucket turns a layout with one piece out of place into one with the piece one bucket lower |
| `Buckets.MoveUp` | jni/libtorrent/src/piece_picker.cpp:699-725 | the same for a step to a higher bucket |
| `Buckets.SwapInBucket` | jni/libtorrent/src/piece_picker.cpp:738-765 | swapping two pieces of a bucket, back-pointers included, keeps the layout |
| `Buckets.Displace` | jni/libtorrent/src/piece_picker.cpp:550-572 | putting the piece in hand where another is and taking that one up, with the boundaries in between raised, keeps the layout apart from the piece in hand |
| `Buckets.PopTop` | jni/libtorrent/src/piece_picker.cpp:614-629 | removing the last piece of the last bucket keeps the layout of the rest |
| `Buckets.LayoutUnique` | jni/libtorrent/src/piece_picker.cpp:261-470 | two layouts of the same priorities have the same boundaries and the same pieces in every bucket |
| `Buckets.BucketMembers` | jni/libtorrent/src/piece_picker.cpp:511-520 | a bucket holds exactly the pieces of its priority |
| `Buckets.ListIsSorted` | jni/libtorrent/src/piece_picker.cpp:1487-1497 | the list runs through the priorities in order |
| `Cascades.InsertCascade` | jni/libtorrent/src/piece_picker.cpp:538-587 | the insertion cascade ends in a layout that contains the new piece |
| `Cascades.RemoveCascade` | jni/libtorrent/src/piece_picker.cpp:597-629 | the removal cascade ends in a layout without the piece |
| `Cascades.UpdateCascade` | jni/libtorrent/src/piece_picker.cpp:662-735 | the cascade after a change of priority, in either direction, ends in a layout for the new priorities |
| `Rebuild.CountPieces` | jni/libtorrent/src/piece_picker.cpp:955-965 | counts the pieces of each priority and notes the rank of each in its bucket |
| `Rebuild.SumCounts` | jni/libtorrent/src/piece_picker.cpp:971-978 | turns counts into boundaries |
| `Rebuild.FillBuckets` | jni/libtorrent/src/piece_picker.cpp:984-993 | every listed piece is written to its own slot of its bucket |
| `Rebuild.ShuffleBucket` | jni/libtorrent/src/piece_picker.cpp:995-1002 | whatever the random numbers are, shuffling a bucket leaves the pieces in their buckets |
| `Rebuild.RebuildBuckets` | jni/libtorrent/src/piece_picker.cpp:948-1016 | the counting sort makes a layout from any state of the lists |
| `Picker.PiecePicker.Add` | jni/libtorrent/src/piece_picker.cpp:522-587 | a piece missing from an otherwise correct layout is put in; the picker's invariant is kept |
| `Picker.PiecePicker.Remove` | jni/libtorrent/src/piece_picker.cpp:589-629 | a piece that may no longer be listed is taken out; the layout is right again |
| `Picker.PiecePicker.Update` | jni/libtorrent/src/piece_picker.cpp:633-736 | a piece whose priority changed is moved to its bucket, or inserted or removed |
| `Picker.PiecePicker.Shuffle` | jni/libtorrent/src/piece_picker.cpp:738-765 | a piece changes places inside its bucket |
| `Picker.PiecePicker.UpdatePieces` | jni/libtorrent/src/piece_picker.cpp:948-1016 | after a rebuild the lists are in order and not stale; no record changes but for its position |
| `Picker.PiecePicker.Init` | jni/libtorrent/src/piece_picker.cpp:81-126 | everything but the priorities is reset, the block counts are those given, a last count of zero standing for a full piece, and the filtered counters are added up; they are exact if and only if the new size cuts no filtered piece off |
| `Picker.InitExample` | jni/libtorrent/src/piece_picker.cpp:81-126 | two pieces, the second filtered and then cut off: the counter still counts it |
| `Picker.BlocksAddUp` | jni/libtorrent/src/piece_picker.cpp:1669-1677 | all pieces have the same number of blocks but the last, so that their blocks add up |
| `Picker.PiecePicker.IncRefcountAll` | jni/libtorrent/src/piece_picker.cpp:830-841 | one more seed; the lists turn stale with the first one, and with no other |
| `Picker.PiecePicker.DecRefcountAll` | jni/libtorrent/src/piece_picker.cpp:843-869 | one seed less, the lists turning stale with the last one; with no seed counted, one peer less for every piece and nothing else in its record, and stale lists |
| `Picker.PiecePicker.IncRefcount` | jni/libtorrent/src/piece_picker.cpp:871-888 | one piece's availability, a ten-bit counter, goes up; the lists follow |
| `Picker.PiecePicker.DecRefcount` | jni/libtorrent/src/piece_picker.cpp:890-902 | one piece's availability goes down; the lists follow |
| `Picker.PiecePicker.ChangeRefcounts` | jni/libtorrent/src/piece_picker.cpp:904-946 | the availability of every piece in the mask changes by one |
| `Picker.PiecePicker.WeHave` | jni/libtorrent/src/piece_picker.cpp:1062-1152 | the piece is had, its queue entry gone, cursors and counters exact, the lists in order |
| `Picker.PiecePicker.WeDontHave` | jni/libtorrent/src/piece_picker.cpp:1018-1056 | the piece is no longer had; cursors, counters and lists follow |
| `Picker.PiecePicker.SetPiecePriority` | jni/libtorrent/src/piece_picker.cpp:1154-1252 | the priority changes, filtered counters and cursors follow; the result tells whether the piece was or became filtered |
| `Picker.PiecePicker.MarkAsDownloading` | jni/libtorrent/src/piece_picker.cpp:1997-2054 | a free or requested block gets one more request, a block being written or finished none; nothing else in the queue changes; all invariants hold afterwards if and only if the fourteen-bit request counter of the block did not wrap |
| `Picker.PiecePicker.MarkAsWriting` | jni/libtorrent/src/piece_picker.cpp:2086-2153 | a block goes to writing, with a queue entry made if there is none |
| `Picker.PiecePicker.MarkAsFinished` | jni/libtorrent/src/piece_picker.cpp:2196-2266 | a block goes to finished, with a queue entry made if there is none and the piece is not had |
| `Picker.PiecePicker.WriteFailed` | jni/libtorrent/src/piece_picker.cpp:2155-2194 | a written block is free again, and the entry is gone if nothing is left in it |
| `Picker.PiecePicker.AbortDownload` | jni/libtorrent/src/piece_picker.cpp:2301-2375 | one request less; an entry with nothing left in it is gone |
| `Picker.PiecePicker.RestorePiece` | jni/libtorrent/src/piece_picker.cpp:796-828 | the piece's entry is gone and the piece open again |
| `Blocks.RequestKeeps` | jni/libtorrent/src/piece_picker.cpp:2034-2051 | a request keeps counters and states in step if and only if the fourteen-bit peer counter does not wrap |
| `Blocks.RequestExample` | jni/libtorrent/src/piece_picker.cpp:2034-2051 | a block requested by 16383 peers gets one request more and counts as requested by none |
| `Blocks.WriteKeeps` | jni/libtorrent/src/piece_picker.cpp:2123-2151 | writing keeps counters and states in step and leaves the speed empty exactly when nothing is requested |
| `Blocks.FinishKeeps` | jni/libtorrent/src/piece_picker.cpp:2235-2265 | the same for finishing a block |
| `Blocks.FailWriteKeeps` | jni/libtorrent/src/piece_picker.cpp:2164-2178 | the same for a failed write |
| `Blocks.AbortKeeps` | jni/libtorrent/src/piece_picker.cpp:2323-2374 | the same for an aborted request |
| `Blocks.AllDone` | jni/libtorrent/src/piece_picker.cpp:1921-1949 | an entry whose counters add up to the number of blocks has every block finished or being written |
| `Queue.SlotOwned` | jni/libtorrent/src/piece_picker.cpp:159-202 | every slot of the block storage in use belongs to a queue entry, so with as many slots as entries the slots are a permutation |
| `Queue.AddDownloadPiece` | jni/libtorrent/src/piece_picker.cpp:159-185 | a new entry gets a slot of its own; when the storage moves, every other entry keeps its block states |
| `Queue.EraseDownloadPiece` | jni/libtorrent/src/piece_picker.cpp:187-204 | the last slot moves into the freed one; every other entry keeps its block states |
| `Queue.SortPiece` | jni/libtorrent/src/piece_picker.cpp:767-794 | an entry moves to its place in the descending queue; the queue stands for the same block states |
| `Queue.Rewrite` | jni/libtorrent/src/piece_picker.cpp:2034-2051 | writing one block record changes the block states of its own entry only |
| `Cursors.ScanCursors` | jni/libtorrent/src/piece_picker.cpp:110-125 | the cursors enclose the pieces that are neither had nor filtered |
| `Cursors.CloseCursors` | jni/libtorrent/src/piece_picker.cpp:1121-1145 | when a piece is had or filtered the cursors move to the next open piece |
| `Cursors.OpenCursors` | jni/libtorrent/src/piece_picker.cpp:1037-1049 | when a piece opens the cursors move out to include it |
| `Cursors.Window` | jni/libtorrent/src/piece_picker.cpp:1419-1447 | every open piece lies between the cursors |
| `PickPieces.AddBlocksDownloading` | jni/libtorrent/src/piece_picker.cpp:1803-1897 | the free blocks of a piece being downloaded all end up in the result or in one of the two reserves, unless the request is filled or the parole rule forbids the piece: in the result those nobody else is at work on or whose speed class suits, in the first reserve those of a neighbouring class, in the second those of another class or of a piece others are at work on when whole pieces are preferred |
| `PickPieces.AddBlocks` | jni/libtorrent/src/piece_picker.cpp:1733-1801 | the same for any piece that is neither skipped nor suggested |
| `PickPieces.ExpandPiece` | jni/libtorrent/src/piece_picker.cpp:1899-1919 | the range holds the piece and only pieces that can be picked, is no longer than asked for, and stops only there, at the ends of the torrent or at a piece that cannot be picked |
| `PickPieces.AppendBlocks` | jni/libtorrent/src/piece_picker.cpp:1290-1304 | the first reserve, then the second, come after what is there, as many blocks as are asked for; moving reserves into the result loses no block |
| `PickPieces.InTurnByGrade` | jni/libtorrent/src/piece_picker.cpp:1559-1566 | with the reserves appended in turn the better choices come first, and none of them is left out for a worse one |
| `PickPieces.PickPartials` | jni/libtorrent/src/piece_picker.cpp:1383-1403 | after the pass over partial pieces everything pickable in them has been found, or the request is filled, the better choices first and none of them left out for a worse one |
| `PickPieces.ReverseOrder` | jni/libtorrent/src/piece_picker.cpp:1453-1483 | the reverse pass visits every listed piece once, groups of four priorities in reverse and each group forward |
| `PickPieces.PickAnywhere` | jni/libtorrent/src/piece_picker.cpp:1505-1550 | the random pass ends; it adds only free blocks of pieces it can pick, none twice when no two pieces are picked together; and if the request is not filled it has offered every unstarted piece the peer has that was not suggested, wherever it began |
| `PickPieces.PickBusy` | jni/libtorrent/src/piece_picker.cpp:1570-1596 | one block, requested from another peer, of a wanted piece the peer has, or none if and only if there is none |
| `PickPieces.Choose` | jni/libtorrent/src/piece_picker.cpp:1346-1596 | only pickable blocks, but for one busy block at the end, added off parole exactly when the request stays short and there is one; no more than asked for when whole pieces are not preferred; none twice when no two pieces are picked together and no suggestion is repeated; a short result holds every pickable block of the suggested pieces, of the partial ones if preferred, and of all wanted pieces (sequential), all listed ones (rarest first) or all unstarted ones (neither); partial pieces come first if preferred, then suggested ones, and among those compared the peer's own speed class before a neighbouring one before others, with nothing better left out for something worse; a plain sequential or rarest-first result, forward or reverse, is in the order of its pass, and nothing is left out that comes before something taken |
| `PickPieces.PickFrom` | jni/libtorrent/src/piece_picker.cpp:1346-1596 | the same for the picker object, with stale lists rebuilt first; and told from the records of the pieces, a plain rarest-first result has, among pieces of the same user priority and state, the rarer before the more common (in halves for priorities 4 to 6), the more wanted of equal availability before the less wanted, pieces in progress before others as rare, and leaves out no block that would come before one it has; in reverse the more common come first |
| `PickPieces.KeepsPlace` | jni/libtorrent/include/libtorrent/piece_picker.hpp:420-441 | the order of the priorities, forward and reverse, is the order by user priority, state and number of peers |
| `PickerRuns.Run` | jni/libtorrent/src/piece_picker.cpp:261-470 | over every run from `init` all invariants hold, in particular lists that are not stale are in order |
| `PickerRuns.CompareWithRebuild` | jni/libtorrent/src/piece_picker.cpp:948-1016 | a fresh rebuild has the same boundaries and the same pieces in each bucket as the lists maintained call by call |
| `DiskBlocks.OverlayAt` | jni/libtorrent/src/disk_io_thread.cpp:667-750 | byte by byte, a flush leaves the cached byte where the block was cached and in range, and the old byte elsewhere |
| `DiskBlocks.RunIsOverlay` | jni/libtorrent/src/disk_io_thread.cpp:694-724 | writing a run in one go leaves the same bytes as writing its blocks one by one, short last block included |
| `DiskBlocks.FlushRange` | jni/libtorrent/src/disk_io_thread.cpp:667-772 | in both modes the disk ends up as the old disk overlaid with the cached blocks in range; the writes are the maximal runs, each at its own offset, once; exactly the blocks in range are freed and counted |
| `DiskBlocks.FlushKeepsWhole` | jni/libtorrent/src/disk_io_thread.cpp:667-772 | a flush of any part of an entry does not change what cache and disk together stand for |
| `DiskBlocks.CacheIsWrite` | jni/libtorrent/src/disk_io_thread.cpp:1870-1890 | caching a block is as good as writing it |
| `DiskBlocks.LargestRun` | jni/libtorrent/src/disk_io_thread.cpp:576-606 | the position and length of a longest run of cached blocks |
| `DiskBlocks.FreeEnds` | jni/libtorrent/src/disk_io_thread.cpp:520-549 | exactly the requested number of blocks is freed, from both ends only, and neither scan leaves the piece |
| `DiskBlocks.FreePiece` | jni/libtorrent/src/disk_io_thread.cpp:480-498 | every buffer is freed and counted |
| `DiskReads.ReadIntoPiece` | jni/libtorrent/src/disk_io_thread.cpp:811-942 | a read that succeeds leaves the disk's bytes in a stretch of blocks that ends at the piece's end, the number asked for or the buffer limit, and touches no other block; a read that cannot start or fails leaves the entry empty |
| `DiskReads.IsCacheHit` | jni/libtorrent/src/disk_io_thread.cpp:1161-1183 | the two look-ups are true exactly when every block of the request is cached |
| `DiskReads.CopyOut` | jni/libtorrent/src/disk_io_thread.cpp:1234-1248 | copies exactly the cached bytes of the request, also across a block boundary |
| `DiskReads.CachedIsDisk` | jni/libtorrent/src/disk_io_thread.cpp:1234-1248 | where the cached blocks are as on disk, these are the bytes on disk |
| `DiskReads.ServeMiss` | jni/libtorrent/src/disk_io_thread.cpp:1229-1248 | a result that is not negative delivers exactly the bytes on disk after the missing blocks are read; every block of the entry is as before or as on disk |
| `DiskCache.RunBound` | jni/libtorrent/src/disk_io_thread.cpp:558-574 | no run of cached blocks is longer than the computed length |
| `DiskCache.MostContiguous` | jni/libtorrent/src/disk_io_thread.cpp:643-650 | the write entry with the longest run |
| `DiskCache.ClearOldestReadPiece` | jni/libtorrent/src/disk_io_thread.cpp:500-556 | nothing is freed if the oldest entry is to be kept or less than a second old, otherwise exactly the smaller of requested and cached; the kept entry is found at its new place |
| `DiskCache.ClearReadBlocks` | jni/libtorrent/src/disk_io_thread.cpp:617-623 | blocks go from the least recently used read entries, each at least a second old, before any used later loses one; the loop stops short only when the oldest entry is to be kept or younger than a second |
| `DiskCache.FlushAndRemove` | jni/libtorrent/src/disk_io_thread.cpp:659-665 | the entry goes, its piece on disk is now what cache and disk stood for, and no piece changes its contents |
| `DiskCache.FlushContiguous` | jni/libtorrent/src/disk_io_thread.cpp:576-611 | a longest run of the entry, and nothing else, is written and freed if it is long enough, and otherwise nothing; an empty entry is dropped; no piece changes its contents |
| `DiskCache.OldestTakenNext` | jni/libtorrent/src/disk_io_thread.cpp:627-640 | taking the least recently used entry keeps this: entries go whole, each used no later than every one left, the first in the list of those used at one time, and the last of them was still needed |
| `DiskCache.LongestNext` | jni/libtorrent/src/disk_io_thread.cpp:641-655 | taking a longest run keeps this: each step took exactly a longest run there was, it was still needed, and no run left is longer |
| `DiskCache.FlushWriteBlocks` | jni/libtorrent/src/disk_io_thread.cpp:627-656 | both write loops stop, with enough blocks freed or nothing left to write; `lru` has taken whole entries, the least recently used ones and no more than needed, `largest_contiguous` one longest run after the other and no more than needed |
| `DiskCache.StoreBlock` | jni/libtorrent/src/disk_io_thread.cpp:1862-1906 | whichever way the block takes, its piece now stands for itself with the block in place and no other piece changes; it joins the entry of its piece, where runs shorter than the write line stay and otherwise the longest is written, or starts an entry of its own, or is written alone |
| `DiskCache.StoreInEntry` | jni/libtorrent/src/disk_io_thread.cpp:1868-1894 | the entry has the block and is used now; if no run of it is as long as the write line it stays in the cache and the disk as it is, otherwise exactly a longest run is written and freed |
| `DiskThread.Cache.FlushCacheBlocks` | jni/libtorrent/src/disk_io_thread.cpp:613-657 | all counters stay exact; freed is what the cache lost, and enough unless there is nothing left to free or writes are to be kept; read entries go by age, and for what they do not give write entries go by age, or longest runs by length, and no more than needed |
| `DiskThread.Cache.WriteJob` | jni/libtorrent/src/disk_io_thread.cpp:1846-1917 | the piece stands for itself with the block in place, other pieces are unchanged, counters exact, and the buffer limit holds unless there is nothing to write; below the limit nothing happens but the storing of the block |
| `DiskThread.Cache.HashJob` | jni/libtorrent/src/disk_io_thread.cpp:1918-1944 | the bytes hashed are what cache and disk stood for |
| `DiskThread.Cache.CopyFromPiece` | jni/libtorrent/src/disk_io_thread.cpp:1185-1249 | for any entry, the counters stay exact; a hit delivers the cached bytes without a disk read; a miss that gets through delivers the bytes on disk with exactly one; no block is cached that was not before or is not as on disk; the entry is used now |
| `DiskThread.Cache.ReadAheadExactly` | jni/libtorrent/src/disk_io_thread.cpp:984-987 | a read goes as far ahead as the rest of the piece and the cache line, and no further than three blocks or half of what reads may use of the cache |
| `DiskThread.Cache.CacheReadBlock` | jni/libtorrent/src/disk_io_thread.cpp:975-1006 | a new entry, used now, holds what is on disk: the blocks from the one asked for on, as many as the read-ahead says or as the piece has unless the pool is full, and no others; the counters stay exact |
| `DiskThread.Cache.TryReadFromCache` | jni/libtorrent/src/disk_io_thread.cpp:1251-1288 | for any state of the read cache, the counters stay exact; a hit delivers the cached bytes, everything else the bytes on disk, and there is an answer if there is room |
| `DiskThread.Cache.ReadJob` | jni/libtorrent/src/disk_io_thread.cpp:1776-1845 | a read job fails only when a disk read does; otherwise it delivers the cached bytes on a hit and the bytes on disk if not; the counters stay exact |
| `DiskRuns.Run` | jni/libtorrent/src/disk_io_thread.cpp:1386-1944 | over every sequence of read, write and hash jobs, before and after each of them both caches rest on the disk and all counters are exact; the trace says what each job did and delivered |
| `DiskRuns.StandsNext` | jni/libtorrent/src/disk_io_thread.cpp:1846-1944 | one job changes what cache and disk stand for exactly as a direct write would |
| `DiskRuns.RunStands` | jni/libtorrent/src/disk_io_thread.cpp:1776-1944 | at every point of a run cache and disk stand for exactly what was written |
| `DiskRuns.HashSeesWrites` | jni/libtorrent/src/disk_io_thread.cpp:1918-1944 | a hash job of a run reads its piece with every earlier write, and no other, in place |
| `DiskRuns.MirrorKeptExactly` | jni/libtorrent/src/disk_io_thread.cpp:1776-1944 | a job keeps the cached blocks of a piece as on disk if and only if it changes no block on disk that stays in the read cache |
| `DiskRuns.HashKeepsMirror` | jni/libtorrent/src/disk_io_thread.cpp:1918-1944 | before a hash job: its piece will be mirrored after it if and only if the cached blocks hold what the piece stands for; other pieces are left alone |
| `DiskRuns.ReadExactly` | jni/libtorrent/src/disk_io_thread.cpp:1185-1288 | a read that does not fail delivers the bytes on disk if and only if it is not a hit on bytes that differ from them |
| `DiskRuns.LoadedSince` | jni/libtorrent/src/disk_io_thread.cpp:1185-1288 | in every run, a cached block holds what was on disk at some point since when it has been cached, and is stale if and only if the block on disk has changed since |
| `DiskRuns.ReadWasOnDisk` | jni/libtorrent/src/disk_io_thread.cpp:1776-1845 | in every run, each byte a read delivers was on disk at its position at some point since when its block has been cached |
| `DiskRuns.SettledReads` | jni/libtorrent/src/disk_io_thread.cpp:1776-1944 | reads of a piece that was hashed before it was first read, and not written after, deliver exactly what was written |
| `DiskRuns.StaleRead` | jni/libtorrent/src/disk_io_thread.cpp:1776-1944 | read a block, write other bytes to it, hash, read again: the hash sees the new bytes and the last read delivers the old ones |
| `PeerTypes.ComparePeerOrder` | jni/libtorrent/src/policy.cpp:1501-1533 | the comparison of connect candidates is a strict weak order |
| `PeerTypes.ComparePeerMeans` | jni/libtorrent/src/policy.cpp:1501-1533 | not being beaten is, field by field: no more failures; with as many, local if the other is; then connected to no later; then from no lesser source (tracker before local discovery before DHT before peer exchange); then, while downloading, no lower AS figure; then no further away |
| `PeerTypes.SourceRankMeans` | jni/libtorrent/src/policy.cpp:117-125 | sources are compared by the best one that only one of the two peers has |
| `PeerTypes.EligibleMeans` | jni/libtorrent/src/policy.cpp:540-556 | who may be connected to now, and who may be forgotten, exactly, by the fields of the peer and the settings |
| `PeerTypes.CompareEraseMeans` | jni/libtorrent/src/policy.cpp:1485-1497 | which of two peers is forgotten first, by their fields |
| `PeerTypes.SortedInserted` | jni/libtorrent/src/policy.cpp:1026-1088 | inserting at either bound of the address keeps the list sorted and without duplicates |
| `PeerScan.StepErase` | jni/libtorrent/src/policy.cpp:621-635 | erasing the visited peer leaves the cursor on the next one and everything not yet visited in the list |
| `PeerScan.VisitsEachOnce` | jni/libtorrent/src/policy.cpp:590-652 | no position is visited twice |
| `PeerScan.BestChanges` | jni/libtorrent/src/policy.cpp:643-651 | a peer the best one does not beat becomes the best one: none visited beats it |
| `PeerScan.VisitNext` | jni/libtorrent/src/policy.cpp:590-652 | one turn of the scan keeps list, cursor, candidate and erase candidate in step, also when a peer is erased |
| `PeerScan.FindCandidate` | jni/libtorrent/src/policy.cpp:558-675 | the result is an eligible peer, its wait over, that no visited eligible peer beats, or the end if none is eligible; the list loses only peers that may be forgotten, in order |
| `PeerScan.FoundMeans` | jni/libtorrent/src/policy.cpp:558-675 | the result in terms of the list before the search: among at most 300 peers from the cursor on, none that may be connected to now is better in its fields, or there is none |
| `PeerScan.Weed` | jni/libtorrent/src/policy.cpp:448-502 | only peers that may be forgotten go; counters and order are kept; below 95 percent of the size nobody goes; all who go but at most one are known from resume data only and have failed; nobody visited who may be forgotten stays unless the one who went last was to be forgotten before, known from resume data only or with more failures; and the scan of at most 300 ends early only when the list is short enough |
| `PeerScan.WeedLoses` | jni/libtorrent/src/policy.cpp:448-502 | an overfull list with a peer in reach that may be forgotten loses one |
| `PeerList.Policy.ErasePeer` | jni/libtorrent/src/policy.cpp:391-431 | the peer is gone, both counters and the order are right, and the cursor stays on its peer or moves to the next |
| `PeerList.Policy.ErasePeers` | jni/libtorrent/src/policy.cpp:448-502 | what weeding promises, for the list; below 95 percent of the size nothing goes |
| `PeerList.Policy.FindConnectCandidate` | jni/libtorrent/src/policy.cpp:558-675 | what the search promises, for the list, from the cursor on: a peer that may be connected to now and is, field by field, no worse than any other in reach, or none if there is none; below 95 percent of the size nobody is forgotten |
| `PeerList.Policy.ConnectOnePeer` | jni/libtorrent/src/policy.cpp:1169-1197 | the best peer in reach, field by field, is stamped with the time, as `connect_to_peer` does before it tries, and gets connected, or one more failure up to 31; it was neither connected nor banned |
| `PeerList.Policy.BanPeer` | jni/libtorrent/src/policy.cpp:504-513 | the peer is banned, the counters exact |
| `PeerList.Policy.SetConnection` | jni/libtorrent/src/policy.cpp:515-524 | the peer is connected, the counters exact |
| `PeerList.Policy.SetFailcount` | jni/libtorrent/src/policy.cpp:526-537 | the five-bit failure count is set, the counters exact |
| `PeerList.Policy.SetSeed` | jni/libtorrent/src/policy.cpp:961-978 | the seed mark is set; the candidate counter stays exact if and only if this does not make a peer a candidate |
| `PeerList.SeedExample` | jni/libtorrent/src/policy.cpp:961-978 | a seed is heard of, the torrent finishes and the seed mark is taken off: the peer can be connected to and the counter does not count it |
| `PeerList.Policy.AddPeer` | jni/libtorrent/src/policy.cpp:980-1167 | a known peer is updated in place, a new one inserted where it belongs with nothing held against it, unless it is refused, for its address or its port, or the list is full; only peers that may be forgotten make room; order and counters are kept |
| `PeerList.HeardMeans` | jni/libtorrent/src/policy.cpp:1116-1138 | news of a peer: it can be connected to at this port, the source is added, a failure is forgiven if the news comes from a tracker alone, and a seed is not believed of a connected peer |
| `PeerList.Policy.NewConnection` | jni/libtorrent/src/policy.cpp:684-889 | a connection that is let in belongs to a connected peer of its address, known before or inserted with nothing known but where it is; nobody else changes; one that is turned away came when there were too many, or the list was full, or the address was banned or connected; order and counters are kept |
| `PeerList.Policy.UpdatePeerPort` | jni/libtorrent/src/policy.cpp:891-945 | the peer has the new port and counts as connectable there, in place of an unconnected one with that endpoint, or is gone when a connected one has it, which is updated; nothing else changes and endpoints stay unique |
| `PeerList.Policy.ConnectionClosed` | jni/libtorrent/src/policy.cpp:1200-1252 | the peer is not connected, has one failure more, at most 31, exactly when the connection failed, and the time unless it may reconnect fast; nobody else changes, the counters are exact |
| `PeerList.Policy.RecalculateCandidates` | jni/libtorrent/src/policy.cpp:1270-1284 | the counter is exact for the new state of the torrent |
| `PeerRuns.Run` | jni/libtorrent/src/policy.cpp:1301-1385 | over every run the candidate counter is the number of candidates, the seed counter that of seeds, and the list sorted |
| `FileStorage.MaxElement` | jni/libtorrent/src/file_storage.cpp:245-251 | the first of the largest files |
| `FileStorage.BestMatch` | jni/libtorrent/src/file_storage.cpp:269-276 | the largest later file that fits the gap |
| `FileStorage.FillGap` | jni/libtorrent/src/file_storage.cpp:263-315 | a gap is filled by the largest later file that fits, or if there is none by padding that ends on a multiple of 8192; placed files and the set of files are kept |
| `FileStorage.Optimized` | jni/libtorrent/src/file_storage.cpp:234-320 | the loop ends; every file is there as often as before, besides padding; offsets run on without a gap; the first of the largest files comes first; without a negative limit every file that is no padding and larger than both the limit and 8192 starts at a multiple of 8192; padding stands directly before such a file, ends the gap, and is there only where no later file would have fitted; and a file that stands before one it used to follow was the largest that fitted into such a gap |
| `FileStorage.Storage.Optimize` | jni/libtorrent/src/file_storage.cpp:234-320 | the same for the object, with the total size the sum of the sizes |
| `FileStorage.Storage.AddFile` | jni/libtorrent/src/file_storage.cpp:208-232 | the file comes after the last one and the total grows by its size |
| `FileStorage.Slices` | jni/libtorrent/src/file_storage.cpp:117-155 | the slices lie in their files, are not empty, and cover exactly the requested interval in order |
| `FileStorage.Storage.MapBlock` | jni/libtorrent/src/file_storage.cpp:117-155 | the same for a block of a piece |
| `FileStorage.EveryByteOnce` | jni/libtorrent/src/file_storage.cpp:117-155 | every byte asked for is in exactly one slice |
| `FileStorage.MapFileUndoes` | jni/libtorrent/src/file_storage.cpp:157-169 | a slice maps back to its place if and only if its file has no base offset |
| `FileStorage.FileBaseExample` | jni/libtorrent/src/file_storage.cpp:157-169 | a file with a base of one: its first byte is mapped back to its second |
| `FileStorage.PiecesAddUp` | jni/libtorrent/src/file_storage.cpp:48-61 | the piece sizes, none empty or too large, add up to the total size |
| `FileStorage.Storage.Finish` | jni/libtorrent/src/create_torrent.cpp:241-246 | the number of pieces is the rounded-up quotient, so the piece sizes add up |
| `Text.ReadsBack` | jni/libtorrent/src/http_parser.cpp:206-216 | a number printed in the middle of a text is read back, up to its end |
| `Text.ReadsNumber` | jni/libtorrent/src/http_parser.cpp:195-216 | a number is read after any white space, with its sign, and cut to what 64 bits hold |
| `Text.ToLowerMeans` | jni/libtorrent/src/escape_string.cpp:103-106 | the 26 capitals go to their small letters, everything else stays |
| `HttpParser.SeenInParts` | jni/libtorrent/src/http_parser.cpp:75-252 | taking in a prefix and then the whole gives the same parser as the whole at once, across 100 Continue restarts, header, body and errors |
| `HttpParser.HeaderLines` | jni/libtorrent/src/http_parser.cpp:145-232 | the header loop ends where the header does, or waits for a complete line |
| `HttpParser.Parse` | jni/libtorrent/src/http_parser.cpp:75-252 | the parser is the one that has seen the whole buffer; without an error the reported counts are the growth of header and body |
| `HttpParser.SeenBodyEnds` | jni/libtorrent/src/http_parser.cpp:234-250 | the body is what has arrived up to its length, and finished exactly when it is all there |
| `HttpParser.Http.Incoming` | jni/libtorrent/src/http_parser.cpp:75-252 | the parser depends on the bytes received and not on how they were cut up |
| `HttpParser.Http.GetBody` | jni/libtorrent/src/http_parser.cpp:254-264 | the body bytes received, no more than the content length |
| `HttpParser.Http.Reset` | jni/libtorrent/src/http_parser.cpp:266-280 | a new message can begin |
| `HttpParser.Feed` | jni/libtorrent/src/http_parser.cpp:75-252 | for every way to cut a message up, the final parser is that of the message, and without an error the counts add up to the header length and to the body within its length |
| `HttpParser.ResponseLine` | jni/libtorrent/src/http_parser.cpp:124-129 | a response line gives protocol, status code and message |
| `HttpParser.RequestLine` | jni/libtorrent/src/http_parser.cpp:130-141 | a request line gives method, path and protocol, and no body |
| `HttpParser.RequestMethod` | jni/libtorrent/src/http_parser.cpp:130-141 | the method of a request is kept in small letters |
| `HttpParser.HeaderField` | jni/libtorrent/src/http_parser.cpp:180-226 | a field is found under its name in lower case, without blanks and tabs before its value, the first of a name stays; content length and range are taken over |
| `HttpParser.ContentLengthField` | jni/libtorrent/src/http_parser.cpp:183-195 | however its name is spelled in small and capital letters, a content length is taken over |
| `HttpParser.ContentRangeField` | jni/libtorrent/src/http_parser.cpp:183-226 | the same for a range, however the unit is spelled or if it is left out |
| `HttpParser.ResponseIsRead` | jni/libtorrent/src/http_parser.cpp:75-252 | a response with a content length, however spelled, and as many body bytes is finished, with exactly that body |
| `HttpParser.ContinueIsTransparent` | jni/libtorrent/src/http_parser.cpp:94-170 | a message after 100 Continue responses that announce neither length nor range is parsed as it is alone: same state, first line (the server message for a response), content length, range and finished flag, every position and the body bounds further on by the length of those responses, their header fields before its own |
| `HttpParser.ContinueExactly` | jni/libtorrent/src/http_parser.cpp:94-170 | 100 Continue responses are transparent to every message if and only if they announce neither length nor range |
| `HttpParser.ContinueLine` | jni/libtorrent/src/http_parser.cpp:124-170 | a status line with code 100 and a blank line is such a response, without header fields |
| `HttpParser.ContentRangeIsInclusive` | jni/libtorrent/src/http_parser.cpp:197-226 | a range gives one byte more than the difference (section 14.16 of RFC 2616), with the unit in any spelling or without it; a reversed range is an error |
| `HttpParser.ContentRangeRefused` | jni/libtorrent/src/http_parser.cpp:207-222 | a range without a last byte is an error |
| `SyncSearch.GetSyncOffset` | jni/libtorrent/src/bt_peer_connection.cpp:722-739 | the first match that is followed by a byte; every comparison is recorded, and the offsets compared are those up to the match, each once and in order |
| `SyncSearch.Search.Receive` | jni/libtorrent/src/bt_peer_connection.cpp:2192-2257 | after every fragment the status is what the whole stream leads to; the recorded comparisons, as offsets of the stream, are each offset once and in order; a disconnect happens after exactly 512 |
| `SyncSearch.Run` | jni/libtorrent/src/bt_peer_connection.cpp:2336-2394 | for both pattern lengths and every fragmentation the outcome is that of the stream |
| `SyncSearch.VerdictStands` | jni/libtorrent/src/bt_peer_connection.cpp:2220-2257 | bytes that follow a decision do not change it |
| `Utf.LegalExactly` | jni/libtorrent/src/ConvertUTF.cpp:295-318 | the check accepts the sequences of section 4 of RFC 3629 and, beyond them, exactly those after 0xED or 0xF4 with a second byte below 0x80 |
| `Utf.ExtraExample` | jni/libtorrent/src/ConvertUTF.cpp:305-312 | such a sequence is accepted |
| `Utf.LegalIsScalar` | jni/libtorrent/src/ConvertUTF.cpp:350-390 | whatever is accepted decodes to a character that is no surrogate |
| `Utf.WriteCharacter` | jni/libtorrent/src/ConvertUTF.cpp:256-275 | the bytes written last to first with the marks, masks and shifts of the code are the standard encoding, for every character up to 0x10FFFF |
| `Utf.DecodeEncode` | jni/libtorrent/src/ConvertUTF.cpp:256-275 | the encoding of a character is legal and decodes to it |
| `Utf.EncodeDecode` | jni/libtorrent/src/ConvertUTF.cpp:350-364 | an accepted sequence is the encoding of what it decodes to if and only if it is one of RFC 3629 |
| `Utf.Convert` | jni/libtorrent/src/ConvertUTF.cpp:214-520 | a converter does what there is room for: output so far and output of the rest are the full output; it stops for lack of room only when the next character does not fit |
| `Utf.RoomSuffices` | jni/libtorrent/src/ConvertUTF.cpp:366-369 | a target with room for the full output is never exhausted |
| `Utf.Resume` | jni/libtorrent/src/ConvertUTF.cpp:264-268 | conversions resumed after an exhausted target add up to the one-shot output |
| `Utf.ConvertThen` | jni/libtorrent/src/ConvertUTF.cpp:214-520 | whatever follows a string of characters, it is converted in full and the conversion goes on with the rest |
| `Utf.Convert32To8` | jni/libtorrent/src/ConvertUTF.cpp:409-458 | every string of characters is converted to its UTF-8 |
| `Utf.Convert8To32` | jni/libtorrent/src/ConvertUTF.cpp:462-520 | and back |
| `Utf.Convert16To8` | jni/libtorrent/src/ConvertUTF.cpp:214-280 | every UTF-16 string of characters is converted to its UTF-8 |
| `Utf.Convert8To16` | jni/libtorrent/src/ConvertUTF.cpp:336-405 | and back |
| `Utf.NotUtf8` | jni/libtorrent/src/ConvertUTF.cpp:336-520 | bytes that are no character stop the conversion there, with all before them converted: too few of them as an exhausted source, any that are neither of RFC 3629 nor among the extra ones as illegal |
| `Utf.CutShort` | jni/libtorrent/src/ConvertUTF.cpp:344-347 | a character that was cut anywhere is reported as an exhausted source |
| `Utf.NotUtf16` | jni/libtorrent/src/ConvertUTF.cpp:226-254 | a lone surrogate stops a strict conversion there as illegal and goes through a lenient one as three bytes; the first half of a pair at the end is an exhausted source |
| `Utf.NotUtf32` | jni/libtorrent/src/ConvertUTF.cpp:421-440 | a surrogate stops a strict conversion there as illegal; what is beyond the last character is replaced by U+FFFD and the source reported as illegal in the end |
| `Utf.RoundTrip32` | jni/libtorrent/src/ConvertUTF.cpp:409-520 | through UTF-8 and back nothing is lost, for all strings of characters |
| `Utf.RoundTrip16` | jni/libtorrent/src/ConvertUTF.cpp:214-405 | the same for all well-formed UTF-16 |
| `Metadata.RoundTrip` | jni/libtorrent/src/metadata_transfer.cpp:66-96 | `offset_to_req` undoes `req_to_offset` |
| `Metadata.RoundTripExactly` | jni/libtorrent/src/metadata_transfer.cpp:66-96 | it does so for every request if and only if there are at least 256 bytes |
| `Metadata.Tiling` | jni/libtorrent/src/metadata_transfer.cpp:66-76 | neighbouring requests meet without gap or overlap and all of them are everything |
| `Metadata.Fits32` | jni/libtorrent/src/metadata_transfer.cpp:61-81 | no intermediate value exceeds 32 bits for sizes up to 512000 |
| `Metadata.AllMarked` | jni/libtorrent/src/metadata_transfer.cpp:150-160 | 256 marks mean that every byte has arrived |
| `Metadata.Plugin.Received` | jni/libtorrent/src/metadata_transfer.cpp:131-178 | marks stand for bytes that have arrived and the buffer holds them; it is not replaced under the marks, since the size is restored first; the metadata is complete exactly when all slots are marked; after a refusal the marks that stay are those beyond this request, none if and only if it reached the end |
| `Metadata.RefusedInPart` | jni/libtorrent/src/metadata_transfer.cpp:162-171 | the slots arrive last part first and the metadata is refused: the marks of the last part stay |
| `Metadata.Plugin.MetadataRequest` | jni/libtorrent/src/metadata_transfer.cpp:537-585 | the first range with the lowest score is chosen and counted, which is the first one never asked for if there is one; it is a request if and only if fewer than 256 peers have metadata |
| `Metadata.ScoreNone` | jni/libtorrent/src/metadata_transfer.cpp:560-573 | the score is zero exactly for the ranges never asked for |
| `Metadata.LeastIs` | jni/libtorrent/src/metadata_transfer.cpp:564-565 | the score adds the least count of the range, which is one of them |
| `Metadata.SumIs` | jni/libtorrent/src/metadata_transfer.cpp:566-567 | and their sum, which neighbouring ranges share |
| `Metadata.Plugin.CancelMetadataRequest` | jni/libtorrent/src/metadata_transfer.cpp:184-192 | the counts of the range go down, not below zero |
| `Metadata.CancelUndoes` | jni/libtorrent/src/metadata_transfer.cpp:184-192 | taking a request back undoes making it |
| `Metadata.StillCounted` | jni/libtorrent/src/metadata_transfer.cpp:184-192 | counts stay numbers when requests are made and taken back |

## Left out

- The piece picker's sparse-region counter, `distributed_copies`, `cancel_request`, `clear_peer` and the plain queries: they read or tidy up what is modelled.
- PickPieces.Choose: no block is listed twice only when no two pieces are picked together and suggestions are not repeated; expanded ranges of several pieces may overlap in the program too. The order of the pass is claimed when nothing else (partial pieces, suggestions, speed classes, whole pieces) is preferred; that suggested pieces come before the rest, when neither speed classes nor whole pieces are.
- PickerRuns.Run: a run begins with `init` on a new picker; calls that the program's assertions forbid are skipped, and so is the request that would wrap a block's request counter, after which the invariant does not hold (`Picker.PiecePicker.MarkAsDownloading`).
- Blocks.RequestKeeps: the sixteen-bit counters of a queue entry are unbounded integers; a piece has far fewer blocks than they can count.
- DiskBlocks.FlushRange: writes succeed; the callbacks to the owners of the blocks are not modelled, nor is the lock that is released during a write.
- Failed allocation of a buffer, the expiry of old cache entries (`flush_expired_pieces`), `cache_read_piece`, the whole-piece read-and-hash path, thread shutdown and every job other than read, write and hash.
- DiskThread.Cache.WriteJob: the job carries a full block, or the short last block of its piece, as the peer protocol guarantees; block callbacks and statistics other than the cache counters are not modelled.
- DiskRuns.MirrorKeptExactly: which cached blocks a write job flushes or evicts is decided by sizes and times, so for write jobs the condition speaks of the blocks that stay; for hash jobs it is stated before the job (`DiskRuns.HashKeepsMirror`), and read jobs change no block on disk.
- PeerList.Policy.AddPeer: rate limits, transferred amounts, encryption hints and the DHT ping of the search are not part of the peer record; addresses are numbers, and the distance between addresses is an arbitrary function.
- PeerList.Policy.NewConnection: what happened to the connection a peer already had is an argument.
- FileStorage.Storage.Optimize: needs at least one file; on an empty list the program swaps past the end.
- FileStorage.Storage.AddFile: paths are kept for files but the torrent name derived from them is not, nor are times and attributes.
- HttpParser.Feed: status codes and content lengths are read as unbounded numbers, saturated at 64 bits; on an error the counts are not claimed.
- SyncSearch.Search.Receive: the pattern is an arbitrary byte string; how it is computed, and received-byte statistics, are not modelled.
- Utf.Convert: the two converters between UTF-16 and UTF-32 that bypass UTF-8 are not modelled; code units are integers in the range of their type.
- Utf.Resume: the outputs add up; an illegal UTF-32 source noticed before a target ran out is reported only by the conversion that met it.
- Metadata.Plugin.Received: every message belongs to a request and names the same size.
- Metadata.Plugin.MetadataRequest: with 256 or more peers the code reads one count past the end and its own assertion that slots are asked for fails; the value read there is an argument.
- Sockets, DNS, proxies, trackers, the DHT, port mapping, encryption and hashing themselves, file handles, alerts, the Java bindings, and bencoding: input and output, foreign libraries or thin wrappers.
