# Verified models of the storage stack

These Dafny modules model three parts of the repository and prove what they promise.

**The FAT engine** (`src/fatfs/ff.c`, in the configuration of `src/fatfs/ffconf.h`: FAT12, FAT16 and
FAT32, 512-byte sectors, long names, no exFAT). It is built in layers, each proved against the one
below:

- `Base`, `Numbers`, `FatTable`: little-endian words, 32-bit wrapping, quotients and powers of two, and the FAT as bytes against the FAT as a map from cluster to value.
- `Chains`: cluster chains, freeing and allocating on that map, free counts, and what makes a FAT a disjoint forest.
- `Geometry`: the areas of a volume, the meaning of a device image, and what each kind of access may do to it.
- `VolumeWindow`: class `Volume`, the mounted volume with its one-sector write-back window. `View()` is what the
  volume means, the device with the dirty window written back. `log` records every image the device has held, so
  "after every intermediate step, whichever access fails" is a statement about all images in it.
- `FileData`, `FileLayout`, `FileSteps`, `FileTurns`, `FileSync`: the bytes of a file behind its sector buffer, where
  its sectors lie, and what each turn of each loop does to the invariant `FileInv`.
- `Files`: class `File` with `Open`, `Write`, `Read`, `Lseek`, `Truncate` and `Sync`.
- `FileRuns`: one call on an open file, or `f_getfree` between such calls, answered as by a byte string with a position,
  and what it leaves of other files.
- `Sessions`: several files open at once, and whole runs of calls on them in any order. `Session` is what holds between
  calls: the files are a forest, and the device alone recovers every file that is not marked modified.
- `DirEntry`, `Lfn`: the directory entry and FSInfo sector that `f_sync` writes, and long names.
- `Mkfs`, `Formatting`, `Mounting`: the geometry `f_mkfs` chooses, what it writes to the drive, and what `mount_volume`
  reads back.
- `OnDisk`: FAT, directory entry, FSInfo sector, boot sector and file contents byte by byte, as any other implementation
  reads them.
- `Startup`: from a formatted drive through the mount and the first file to any run of calls on it, and from f_sync to
  the next mount.

**The storage sentinel** (`src/sentinel/`): `Arith` (64-bit division and multiplication without wide types), `Timing`
(latency histogram, differences, windows, consistency), `Tflite` (int8 inference against the Python reference in
`tools/storage_sentinel/canonical_int8.py`), `Int8V1` (the older model format) and `Score` (score interval and decision).

**Two concurrent state machines**: `Media` (card-detect debouncing, an interrupt handler against a task) and `Seqlock`
(the sequence-counter snapshot). Interleaving is modelled by an environment method called between any two accesses to
shared memory.

Contents of a file are sequences of optional bytes. `None` stands for a byte nobody wrote: the gap made by seeking past
the end. Such bytes are unspecified, and not even stable from one read to the next, because the device and the sector
buffer may hold different leftovers.

Failures are nondeterministic. A `reliable` volume never fails an access inside the device; every disk error in a
contract comes with `!reliable`.

## What the code does where one might expect otherwise

- `f_mkfs` accepts FAT12 volumes with 32 or fewer clusters, and FAT32 volumes with 0x200000 sectors per FAT.
  `mount_volume` refuses exactly those (`Mounting.MountFindsPlan`). A drive of 66 sectors gets exactly 32, because one
  asks for room for 32 and the other for more (`Mounting.SmallestIsRefused`); alignment to an erase block can leave none
  at all, because room is asked for before it (`Mounting.AlignmentLeavesNone`); and the largest count FAT32 is tried with
  needs 0x200000 FAT sectors (`Mounting.LargestIsRefused`).
- `f_mkfs` computes in 32 bits and can underflow when the alignment exceeds the volume. No underflowed count is ever
  accepted (`Mkfs.Accepted`).
- `f_mkfs` does not report it when the FSInfo sector cannot be written, and an older one may then be mounted. Its free
  count is promised only without failures (`Formatting.WriteVolume`).
- `f_sync` clears FA_MODIFIED once the directory entry is in the window, even if `sync_fs` then fails. A later call
  returns FR_OK without writing. So FR_OK means that the device recovers the file exactly if the file was marked modified
  or the device recovered it before (`Files.File.Sync`). After the failing call the device recovers it exactly if its
  directory sector names it already, and surely if the window is clean (`FileSync.Late`); `FileSync.EntryLost` is a case
  where it does not. In any run of calls without an error FR_OK always means it (`Sessions.RunMany`).
- The mirror write to FAT #2 and the FSInfo write are not reported when they fail. Equality of the two FATs is therefore
  promised only on a reliable volume, and every other promise about the device does not depend on FAT #2.
- The sector scan of `f_getfree` counts the two reserved entries when they are zero, the entry scan does not
  (`Chains.ZerosAreFree`, `VolumeWindow.Volume.GetFree`). So the answer is right exactly if a count is
  known already, the type is FAT12, or neither of them is zero (`FileRuns.CountRight`). A formatted volume has no zero
  there, and every call keeps it so (`Sessions.RunMany`).
- `cmp_lfn` can look at the cell behind its buffer of FF_MAX_LFN + 1 units. It never does so exactly if FF_MAX_LFN + 1 is
  not a multiple of 13, or is 13 itself (`Lfn.InsideIff`); with the default of 64 it can (`Lfn.DefaultLooksBehind`). On the
  stored run of one name it does so exactly if that name is one unit longer than FF_MAX_LFN, fills its last entry, and
  stale cells of the buffer hold that part of it (`Lfn.OrderZeroIffSame`).

## Assumptions

- The volume fits its device and ends below sector 2^32 - 1; the FSInfo sector lies before the FAT; a failed sector
  write leaves the sector as it was.
- A directory entry lies in the root directory area or in a used cluster that is not part of its own file.
- The free count is unknown or right when a file is opened (`Accurate`); every operation then keeps it so.
- A FAT12 store can straddle two sectors, so crash safety is stated for FAT16 and FAT32.
- Fewer than 2^32 notifications of the media context are pending at a time.

## Model

| member | source | states |
|---|---|---|
| FatTable.StoreRefinesUpdate | src/fatfs/ff.c:1257-1305 | Storing an entry of a FAT12, FAT16 or FAT32 table and reading all entries back gives the old map with that one entry replaced by the value masked to 12, 16 or 28 bits: shared nibbles and neighbours are unharmed |
| FatTable.ReservedBitsKept | src/fatfs/ff.c:1295-1301 | A FAT32 store keeps the top four bits of the entry |
| FatTable.HalfStore12 | src/fatfs/ff.c:1270-1282 | A FAT12 store interrupted between its two bytes can spoil only its own entry |
| FatTable.EndMarkReadsAsEnd | src/fatfs/ff.c:1467-1467 | The stored end mark always reads at or above n_fatent, cluster numbers read back unchanged, and no stored value reads as the disk-error code |
| FatTable.WordInSector | src/fatfs/ff.c:1205-1213 | A FAT16 or FAT32 entry never straddles a sector, and reading it in its sector reads the table |
| OnDisk.Fat16Bytes | src/fatfs/ff.c:1205-1208 | A FAT16 entry is the little-endian word at byte 2 c of FAT #1 on the device |
| OnDisk.Fat32Bytes | src/fatfs/ff.c:1210-1213 | A FAT32 entry is the low 28 bits of the double word at byte 4 c |
| OnDisk.Fat12Even | src/fatfs/ff.c:1197-1203 | An even FAT12 entry is one byte and the low half of the next |
| OnDisk.Fat12Odd | src/fatfs/ff.c:1197-1203 | An odd FAT12 entry is the high half of a byte and the next |
| Chains.ChainDistinct | src/fatfs/ff.c:1447-1504 | A chain that ends visits no cluster twice |
| Chains.ChainUnique | src/fatfs/ff.c:1447-1504 | A cluster starts at most one chain |
| Chains.SafeChainsDisjoint | src/fatfs/ff.c:1542-1635 | In a FAT without links to free clusters or double predecessors, two chains whose heads nobody links to are disjoint |
| Chains.WalkFreesChain | src/fatfs/ff.c:1472-1506 | On a well-formed chain the removal loop frees exactly its clusters and reports no error |
| Chains.FreeWalk | src/fatfs/ff.c:1472-1506 | The removal loop terminates on every FAT, cyclic ones included, and only ever turns entries into 0 |
| Chains.WalkStops | src/fatfs/ff.c:1472-1506 | On any FAT the walk frees exactly the path up to an entry 0, an entry 1, an end mark or a cluster it has freed before, and reports an error exactly at an entry 1 |
| Chains.ChainCut | src/fatfs/ff.c:1466-1469 | Ending a chain after position k leaves its first k clusters a chain and the rest a chain of its own |
| Chains.ChainStretched | src/fatfs/ff.c:1618-1621 | Linking a free cluster behind the tail lengthens the chain by exactly it |
| Chains.AccurateFreed | src/fatfs/ff.c:1481-1484 | Counting a freed cluster only while the count is in range keeps the free count right |
| Chains.AccurateTaken | src/fatfs/ff.c:1624-1629 | Counting a taken cluster only while the count is in range keeps the free count right |
| Chains.ZerosAreFree | src/fatfs/ff.c:5003-5020 | The sector scan counts the free clusters plus the reserved entries that are zero |
| Chains.CountIsZeros | src/fatfs/ff.c:4969-4980 | The free count is the number of clusters whose entry is 0 |
| Geometry.CrashSafeStore | src/fatfs/ff.c:1284-1302 | A FAT16 or FAT32 store leaves the meaning, the device and every image it has held safe if the FAT before and after is safe |
| Geometry.CrashSafeWindow | src/fatfs/ff.c:1060-1103 | No window access makes any instant unsafe |
| VolumeWindow.Volume.SyncWindow | src/fatfs/ff.c:1060-1079 | Writing back brings the device up to the meaning except for the mirror FAT; on failure nothing changes; a reliable device keeps FAT #2 equal to FAT #1 |
| VolumeWindow.Volume.MoveWindow | src/fatfs/ff.c:1082-1103 | The wanted sector of the meaning appears in the window, the meaning stays, and the device is left alone or brought up to it |
| VolumeWindow.Volume.StoreInWindow | src/fatfs/ff.c:1274-1281 | A store into the window is a store into the plain table of bytes |
| VolumeWindow.Volume.StoreSector | src/fatfs/ff.c:4277-4284 | Replacing the window replaces that sector in the meaning and nothing else |
| VolumeWindow.Volume.GetFat | src/fatfs/ff.c:1179-1246 | get_fat returns the map value of the cluster, 1 for an invalid number, or the disk-error code only after a failed access; the map is unchanged |
| VolumeWindow.Volume.GetFat12 | src/fatfs/ff.c:1196-1203 | The same for entries that may straddle two sectors |
| VolumeWindow.Volume.PutFat | src/fatfs/ff.c:1257-1305 | put_fat updates exactly one entry of the map, or none if it fails on FAT16 and FAT32; all other entries always stay |
| VolumeWindow.Volume.PutFat12 | src/fatfs/ff.c:1270-1282 | The two byte stores of FAT12: even a failure between them keeps every other entry |
| VolumeWindow.Volume.FreeFrom | src/fatfs/ff.c:1472-1506 | The loop of remove_chain leaves FreeWalk of any FAT, also when it meets an internal error; after a disk error entries off the walk are untouched; the free count stays right, and every instant safe if nobody links to its start |
| VolumeWindow.Volume.CountFreed | src/fatfs/ff.c:1481-1484 | A freed cluster is counted if the count is in range, and then the FSInfo sector is to be renewed: it never silently differs from the count |
| VolumeWindow.Volume.RemoveChain | src/fatfs/ff.c:1447-1533 | remove_chain ends the chain at pclst and frees from clst on, on any FAT, internal errors included; a disk error leaves all other entries alone; the device follows the meaning; argument errors change nothing; every device image stays safe |
| VolumeWindow.Volume.FindFree | src/fatfs/ff.c:1604-1617 | The search returns the first free cluster after its start in cyclic order, and 0 only if there is none |
| VolumeWindow.Volume.PickFree | src/fatfs/ff.c:1552-1617 | For any hint: the next cluster if it is free, else the first free one; 0 only when no cluster is free |
| VolumeWindow.Volume.CountTaken | src/fatfs/ff.c:1624-1629 | A taken cluster becomes the hint and is counted if the count is in range, and then the FSInfo sector is to be renewed |
| VolumeWindow.Volume.LinkNew | src/fatfs/ff.c:1618-1632 | The new cluster is ended before it is linked, so every instant is safe; the count follows |
| VolumeWindow.Volume.CreateChain | src/fatfs/ff.c:1542-1635 | create_chain returns the existing successor unchanged, or a cluster that was free and is now the tail; 0 only when asked at the tail of a full volume; 1 only on an insane FAT; no used entry but the tail changes |
| VolumeWindow.Volume.ScanEntries | src/fatfs/ff.c:4969-4980 | The FAT12 scan counts exactly the free clusters |
| VolumeWindow.Volume.ScanSectors | src/fatfs/ff.c:5003-5020 | The FAT16 and FAT32 sector walk counts exactly the zero entries |
| VolumeWindow.Volume.GetFree | src/fatfs/ff.c:4964-5027 | The cached count if it is valid, else the scanned one, which becomes valid |
| VolumeWindow.Volume.SyncFs | src/fatfs/ff.c:1113-1152 | After success the window is clean and the meaning is the device; besides the write-back only the FSInfo sector changes, and holds the counters; nothing waits to be written |
| VolumeWindow.Volume.CountOnDevice | src/fatfs/ff.c:1122-1132 | With nothing waiting, the FSInfo sector of a reliable device has the number of free clusters, if that is known, and the hint |
| VolumeWindow.Volume.WriteEntry | src/fatfs/ff.c:4275-4284 | The directory sector gets exactly the new entry |
| VolumeWindow.Volume.WriteData | src/fatfs/ff.c:4168-4168 | A direct transfer writes its sectors one after the other; a failed one has written only some of the first; device and meaning change alike, in those sectors only, and every image in between is safe |
| VolumeWindow.Volume.ReadData | src/fatfs/ff.c:4053-4053 | A direct transfer reads the meaning, because the window holds none of its sectors |
| DirEntry.EntryReadsBack | src/fatfs/ff.c:4277-4283 | The entry f_sync writes decodes to the start cluster and size it was given, and no byte outside the entry changes |
| OnDisk.EntryBytes | src/fatfs/ff.c:1868-1881 | Start cluster and size, byte by byte, in a directory entry |
| OnDisk.EntryUpdated | src/fatfs/ff.c:4277-4284 | The update keeps name, creation time and all attributes but the archive bit, clears the access date, and stores the time of change |
| DirEntry.FsInfoReadsBack | src/fatfs/ff.c:1124-1131 | mount_volume accepts the FSInfo sector sync_fs writes and takes both counters from it |
| OnDisk.InfoBytes | src/fatfs/ff.c:1124-1131 | The FSInfo sector byte by byte |
| OnDisk.InfoRead | src/fatfs/ff.c:3655-3665 | The counters are taken exactly if all three signatures are there |
| FileData.BufWritten | src/fatfs/ff.c:4199-4207 | A write into the buffered sector splices the contents |
| FileData.DirectWritten | src/fatfs/ff.c:4164-4183 | A write past the buffer splices the contents, and refills the buffer if it cached one of the sectors |
| FileData.DirectRead | src/fatfs/ff.c:4049-4062 | Sectors read past the buffer, with the dirty one laid over them, are the contents |
| FileData.Truncated | src/fatfs/ff.c:5068-5077 | Cutting the file and writing back the buffer, even into a freed cluster, keeps the rest |
| FileData.SpliceTwice | src/fatfs/ff.c:4127-4127 | Two turns of the write loop are one longer write |
| FileLayout.ClustersApart | src/fatfs/ff.c:1162-1171 | Two clusters share no sector |
| FileLayout.ClusterPlaces | src/fatfs/ff.c:1162-1171 | Cluster 2 is at the base of the data area and each further one behind the one before; an invalid number gives 0 |
| FileLayout.SectorsDistinct | src/fatfs/ff.c:1162-1171 | A chain of distinct clusters has distinct sectors |
| FileLayout.SectorAt | src/fatfs/ff.c:1162-1171 | Sector j of the i-th cluster is file sector csize * i + j |
| FileSteps.OnDeviceStored | src/fatfs/ff.c:1162-1171 | Byte n of a file is byte n mod 512 of sector n / 512 mod csize of cluster number n / (512 csize) of its chain, and cluster c lies csize (c - 2) sectors into the data area |
| FileSteps.FileStored | src/fatfs/ff.c:4049-4078 | The bytes of an open file lie there on the volume, with the dirty buffer in the place of its sector |
| FileSteps.AtBoundary | src/fatfs/ff.c:4128-4130 | At a sector boundary the cluster offset is 0 exactly when the next cluster begins there |
| FileSteps.CoreStretched | src/fatfs/ff.c:4130-4151 | Gaining a cluster keeps the contents, the chain and everyone else |
| FileSteps.StepOfData | src/fatfs/ff.c:4168-4168 | A transfer into sectors of the file touches nobody else |
| FileSteps.WalkCuts | src/fatfs/ff.c:5055-5066 | What f_truncate asks of remove_chain frees exactly the clusters behind the new end |
| FileTurns.CoreCreated | src/fatfs/ff.c:4130-4151 | Whatever create_chain returned, the file with that cluster is sound again |
| FileTurns.SameOrFollowing | src/fatfs/ff.c:4649-4650 | Comparing cluster numbers decides whether the target lies in the same or a following cluster |
| FileTurns.CutInv | src/fatfs/ff.c:5055-5077 | f_truncate leaves a sound file of the wanted size and touches nobody else |
| Files.File.Open | src/fatfs/ff.c:3939-3950 | A file opened on a sound directory entry has the contents the volume holds, byte for byte in the sectors of its chain |
| Files.File.FlushBuf | src/fatfs/ff.c:4155-4158 | Writing back the buffer loses nothing |
| Files.File.NextForWrite | src/fatfs/ff.c:4130-4151 | At a cluster boundary: the first, next or a new cluster, 0 only at the end of the file on a full volume, and nothing else changes |
| Files.File.WriteOnce | src/fatfs/ff.c:4127-4209 | One turn of the write loop writes a prefix of the data, buffered or direct; nothing only at the end of the file on a full volume |
| Files.File.WriteAll | src/fatfs/ff.c:4127-4209 | The loop writes everything unless it has come to the end of the file on a full volume |
| Files.File.Write | src/fatfs/ff.c:4102-4214 | f_write splices exactly the first bw bytes at the position; bw falls short only at the 4 GiB clip, or at the end of the file on a full volume; other files are untouched; a disk error leaves every image safe |
| Files.File.NextForRead | src/fatfs/ff.c:4026-4044 | Inside the file the next cluster is always there: f_read meets no internal error |
| Files.File.ReadOnce | src/fatfs/ff.c:4023-4089 | One turn of the read loop returns a prefix of what is left, buffered, direct or from the dirty buffer |
| Files.File.Read | src/fatfs/ff.c:4001-4092 | f_read returns exactly the slice at the position, clipped at the end of the file, and changes no content |
| Files.File.SeekLoop | src/fatfs/ff.c:4667-4693 | The cluster following loop reaches the target, or stops at the end of the last cluster of a full volume |
| Files.File.Lseek | src/fatfs/ff.c:4637-4715 | f_lseek moves to the offset (read-only: clipped at the size), grows the file by unspecified bytes if it must, and flags the change |
| Files.File.CutChain | src/fatfs/ff.c:5055-5066 | Exactly the clusters behind the pointer are freed |
| Files.File.Truncate | src/fatfs/ff.c:5041-5083 | f_truncate cuts the contents at the position and frees the clusters behind it |
| Files.File.SyncEntry | src/fatfs/ff.c:4275-4287 | Once sync_fs has succeeded, volume and device alone recover the file; if it fails, the device does exactly if its directory sector names the file |
| Files.File.Sync | src/fatfs/ff.c:4223-4292 | f_sync: on success the device recovers start cluster, size, chain and bytes exactly if the file was marked modified or the device recovered it before; a modified one has its entry updated, and neither the window nor the counters wait any more; nothing but the entry, the FSInfo sector and the file itself changes on the volume |
| FileSync.RecoveredOf | src/fatfs/ff.c:4275-4287 | A clean buffer and the written entry make the device recover the file |
| FileSync.ReopenFindsFile | src/fatfs/ff.c:3939-3950 | Opening what f_sync left on the device finds the same file, byte for byte where bytes are defined |
| OnDisk.RecoveredBytes | src/fatfs/ff.c:3939-3950 | What the device recovers has its first cluster and size in the entry, its links in the FAT and its bytes in the sectors where the format puts them |
| FileSync.EntryKept | src/fatfs/ff.c:4102-4214 | The operations on a file leave its directory entry alone |
| FileSync.LateEntry | src/fatfs/ff.c:4275-4287 | Where only the directory sector has not reached the device, the device recovers the file exactly if that sector names it |
| FileSync.EntryLost | src/fatfs/ff.c:4282-4287 | A case in which f_sync reports success after a failed sync_fs and the device does not recover the file |
| FileSync.DurableSame | src/fatfs/ff.c:4001-4091 | f_read, and f_lseek inside the file, keep what the device recovers |
| FileSync.DurableOther | src/fatfs/ff.c:4001-5082 | An operation on one file keeps what the device recovers of another |
| FileSync.DurableSynced | src/fatfs/ff.c:4223-4292 | So does f_sync of one file, even if both entries share a sector |
| FileTurns.OnesKept | src/fatfs/ff.c:1466-1632 | No operation on a file puts an entry 1, which would be an internal error, into the FAT |
| FileRuns.OtherFileKept | src/fatfs/ff.c:4001-5082 | An operation on one file changes neither the chain, the bytes nor the buffer of another, and takes none of its clusters |
| FileRuns.ForestKept | src/fatfs/ff.c:4001-5082 | Any number of open files stay pairwise disjoint sound chains whatever one of them does |
| FileRuns.OtherFileTidy | src/fatfs/ff.c:1542-1635 | On a safe FAT an operation on one file makes nothing link to the head of another chain |
| FileRuns.OtherFileSynced | src/fatfs/ff.c:4223-4292 | f_sync of one file keeps another, window and buffer included |
| FileRuns.ForestSynced | src/fatfs/ff.c:4223-4292 | f_sync keeps the forest of open files |
| FileRuns.ExactlyEnough | src/fatfs/ff.c:4130-4151 | A chain is acyclic and has exactly ceil(size / cluster bytes) clusters |
| FileRuns.TidyFilesDisjoint | src/fatfs/ff.c:1542-1635 | On a safe FAT, files whose first clusters nobody links to share no cluster |
| FileRuns.CountRight | src/fatfs/ff.c:4964-5027 | The answer of f_getfree is the number of free clusters exactly if a count is known already, the type is FAT12, or neither reserved entry is zero |
| FileRuns.PerformCount | src/fatfs/ff.c:4964-5027 | f_getfree between calls on a file answers the number of free clusters, which becomes the cached count, and does not concern the file |
| FileRuns.Perform | src/fatfs/ff.c:4001-5082 | One call, f_getfree included, answers like a byte string with a position; a write stops at the 4 GiB limit, and a write or a seek falls short otherwise only at or behind the end of the file on a full volume; the call keeps what the device recovers unless the file is marked modified; an internal error needs a stray 1 in the FAT before |
| Sessions.GroupJoined | src/fatfs/ff.c:3939-3950 | What a file must be to join the open ones |
| Sessions.TidyJoins | src/fatfs/ff.c:1542-1635 | On a safe FAT a chain with a head nobody links to and nobody else starts with is apart from the others |
| Sessions.OpenAlso | src/fatfs/ff.c:3939-3950 | Opening one more file keeps what holds between calls |
| Sessions.CallOne | src/fatfs/ff.c:4001-5082 | A call on one of several open files, f_sync and f_getfree included, keeps the forest, the tidiness of every chain, what the device recovers of every file and, on a reliable volume, the equality of the FATs on the device |
| Sessions.RunMany | src/fatfs/ff.c:4001-5082 | Any run of calls on any open files: each answers as its own byte string, the invariants hold throughout, FR_OK of f_sync means that the device recovers the file, every device image is safe, and on a reliable volume FATs that were equal on the device are equal at the end and there is no error without a stray 1 |
| Sessions.OwnTrace | src/fatfs/ff.c:4001-5082 | The calls on one file, taken out of a run, are a trace of that file alone |
| Sessions.OwnPlaces | src/fatfs/ff.c:4001-5082 | What is taken out are exactly the calls on that file, in order |
| Lfn.PutLfn | src/fatfs/ff.c:1979-2005 | put_lfn writes one part of the name with terminator and filler, and flags exactly the last part |
| Lfn.OfsTable | src/fatfs/ff.c:520-520 | The places of the 13 units in an entry |
| Lfn.PickLfn | src/fatfs/ff.c:1941-1973 | pick_lfn stores the part or refuses the entry, for every entry |
| Lfn.NameComesBack | src/fatfs/ff.c:1941-1972 | Every name of 1 to FF_MAX_LFN units comes back exactly, whatever the buffer held |
| Lfn.StoreRun | src/fatfs/ff.c:2570-2576 | dir_register stores the parts of the name last part first |
| Lfn.CmpLfn | src/fatfs/ff.c:1905-1934 | cmp_lfn decides whether the entry fits the name, or looks behind the buffer, for every entry |
| Lfn.CompareIs | src/fatfs/ff.c:1905-1934 | It looks behind the buffer exactly where the answer depends on that cell, and when: a flagged entry without terminator that ends with the buffer and fits it |
| Lfn.InsideIff | src/fatfs/ff.c:1917-1931 | It never does on a buffer that holds a name exactly if FF_MAX_LFN + 1 is no multiple of 13 other than 13 |
| Lfn.DefaultLooksBehind | src/fatfs/ff.c:1931-1931 | An input that makes it do so with FF_MAX_LFN at 64 |
| Lfn.EntryInside | src/fatfs/ff.c:1905-1934 | Of the run of a stored name only the first entry can make it do so, and exactly when |
| Lfn.AcceptedIffSame | src/fatfs/ff.c:1905-1934 | The whole run of a stored name is accepted exactly if the sought name equals it under case folding, whatever stale data follows the sought name |
| Lfn.FollowRun | src/fatfs/ff.c:2462-2472 | The loop of dir_find over long-name entries is the sequence machine, cut short when cmp_lfn looks behind the buffer |
| Lfn.OrderZeroIffSame | src/fatfs/ff.c:2462-2474 | From any state the sequence machine reaches order 0 on a stored run exactly if the names are the same; the exact case in which it looks behind the buffer, which the condition on FF_MAX_LFN excludes |
| Lfn.OrderZeroSound | src/fatfs/ff.c:2462-2474 | On any entries, an order other than the failure mark means an unbroken descending run with one checksum, accepted throughout |
| Mkfs.Tentative | src/fatfs/ff.c:6354-6381 | The first part of a turn computes TentativeOf, whose unit is a cluster size |
| Mkfs.TentativeFacts | src/fatfs/ff.c:6354-6381 | The tentative cluster count is in range and decides the type, and the FAT is sized for it without wrap-around on FAT32 |
| Mkfs.AutoSmall | src/fatfs/ff.c:6373-6376 | The automatic cluster size of FAT by volume size |
| Mkfs.AutoLarge | src/fatfs/ff.c:6357-6360 | The automatic cluster size of FAT32 by volume size |
| Mkfs.LeastFat32 | src/fatfs/ff.c:6362-6362 | The FAT first planned for FAT32 is the smallest that holds the tentative number of clusters |
| Mkfs.LeastFatSmall | src/fatfs/ff.c:6371-6378 | So is that of FAT12 and FAT16, and the type follows from the tentative number |
| Mkfs.Lay | src/fatfs/ff.c:6382-6399 | The last part of a turn, and that what it accepts is sound |
| Mkfs.LaidOut | src/fatfs/ff.c:6382-6397 | The alignment is tried exactly if 32 clusters fit before it, takes less than an erase block, and goes to the reserved area or to the FATs |
| Mkfs.ToNextIs | src/fatfs/ff.c:6386-6386 | Rounding up in 32 bits gives the distance to the next erase block, unless it reaches the end of the address space |
| Mkfs.UnderflowRejected | src/fatfs/ff.c:6397-6399 | An underflowed cluster count exceeds every FAT12 and FAT16 limit |
| Mkfs.RoomOn32 | src/fatfs/ff.c:6386-6399 | On FAT32 the alignment never exceeds the volume |
| Mkfs.EnoughFat | src/fatfs/ff.c:6361-6380 | The FAT planned from the tentative count holds the final count |
| Mkfs.Accepted | src/fatfs/ff.c:6382-6422 | What the last tests accept is a sound layout, with no wrap-around anywhere |
| Mkfs.Choose | src/fatfs/ff.c:6353-6426 | The retry loop terminates, comes to ChooseOf, and accepts only sound layouts of an allowed type with the options given |
| Mkfs.ChosenUnit | src/fatfs/ff.c:6399-6422 | The cluster size is the one asked for, else the automatic one of the type, half of that on FAT32 or twice that of FAT |
| Mounting.Format | src/fatfs/ff.c:6086-6101 | Options out of range get their defaults, which the plan then has; what is accepted is sound and of a requested type |
| Mounting.UnitIs | src/fatfs/ff.c:6086-6101 | Which cluster sizes and erase block sizes are taken, and what replaces the others |
| Mounting.VbrReadsBack | src/fatfs/ff.c:6433-6465 | check_fs recognises the boot sector f_mkfs writes, and every field reads back |
| OnDisk.BootBytes | src/fatfs/ff.c:6433-6465 | The single bytes of the boot sector at their offsets |
| OnDisk.BootWords | src/fatfs/ff.c:6433-6465 | Its words |
| OnDisk.BootDoubles | src/fatfs/ff.c:6433-6465 | Its double words |
| OnDisk.BootSerial | src/fatfs/ff.c:6448-6463 | Drive number, extended signature and serial number at the places of each type |
| OnDisk.Boot32Bytes | src/fatfs/ff.c:6448-6456 | The fields only FAT32 has |
| Mounting.AcceptedExactly | src/fatfs/ff.c:3592-3643 | mount_volume accepts a boot sector exactly if each field is in range and the FAT is large enough for the count and type of clusters |
| Mounting.MountFindsPlan | src/fatfs/ff.c:3592-3643 | mount_volume finds the type, cluster count and area bases of a formatted volume exactly if it has more than 32 clusters and fewer than 0x200000 sectors per FAT, and refuses it otherwise |
| Mounting.MountedIsOk | src/fatfs/ff.c:3592-3643 | Any boot sector that mount_volume accepts gives ordered, disjoint areas of the sizes it names, its count of clusters and its root directory, and every FAT entry lies inside FAT #1 |
| Mounting.FormattedVolume | src/fatfs/ff.c:6382-6422 | After formatting, the areas follow one another inside the volume and the data area begins at an erase block |
| Mounting.SmallestIsRefused | src/fatfs/ff.c:3620-3625 | A drive of 66 sectors formatted with defaults gets 32 clusters and cannot be mounted |
| Mounting.AlignmentLeavesNone | src/fatfs/ff.c:6382-6399 | A drive of one erase block gets no cluster and cannot be mounted |
| Mounting.LargestIsRefused | src/fatfs/ff.c:6363-6370 | The largest count of clusters tried for FAT32 needs more FAT sectors than can be mounted |
| Mounting.FreshVolume | src/fatfs/ff.c:6468-6499 | The fresh FAT is a safe forest with the media descriptor and an end mark in its reserved entries, and the free count f_mkfs writes is right |
| Formatting.AreaIsFresh | src/fatfs/ff.c:6485-6490 | The FAT sectors, put together, are the fresh table: reserved entries, the root directory of FAT32, zeros |
| Formatting.Fill | src/fatfs/ff.c:6491-6498 | The chunked loop writes one head sector and then only zero sectors, and nothing outside its run |
| Formatting.WriteFats | src/fatfs/ff.c:6482-6499 | One identical copy of the fresh FAT after the other |
| Formatting.WriteVolume | src/fatfs/ff.c:6466-6508 | If f_mkfs succeeds the drive holds boot sector, equal fresh FATs and a blank root directory; without failures also the FSInfo sector and the copies of both; nothing outside the volume changes |
| Formatting.WrittenMounts | src/fatfs/ff.c:3592-3643 | What f_mkfs wrote to the drive is mounted with the geometry it chose, or refused exactly if there are too few clusters or too many FAT sectors |
| VolumeWindow.Volume.Mounted | src/fatfs/ff.c:3645-3668 | The free count and the hint come from a signed FSInfo sector that is in use, and are unknown otherwise; the invariant of the volume holds |
| Startup.FormattedDevice | src/fatfs/ff.c:6466-6508 | A formatted device has a sound geometry, equal FATs, a safe FAT and a right free count |
| Startup.MountFresh | src/fatfs/ff.c:3592-3668 | A freshly written volume is mounted, or refused exactly if it has too few clusters or too many FAT sectors; no entry of its FAT is 1, the reserved ones are not 0, and the FATs are equal |
| Startup.FirstFile | src/fatfs/ff.c:3939-3950 | Opening an empty file on it establishes every invariant, crash safety and equal FATs included |
| Startup.FormatAndRun | src/fatfs/ff.c:6048-6508 | From the options of f_mkfs on, on a drive without failures: the volume is mountable exactly if the geometry they lead to has more than 32 clusters and fewer than 0x200000 sectors per FAT; then every run of calls on a file succeeds, answers as a byte string, and ends with every invariant and with equal FATs on the device |
| Startup.Remount | src/fatfs/ff.c:3645-3668 | A device on which nothing waits to be written is mounted with the same FAT and a free count that is right |
| Startup.SyncAndRemount | src/fatfs/ff.c:4223-4292 | After f_sync of a modified file on a drive without failures the next mount finds the right free count, the same FAT, and the file with all its bytes |
| Arith.Divide64 | src/sentinel/mtfs_sentinel.c:59-75 | divide64 is floor division, and UINT64_MAX for a zero divisor |
| Arith.Multiply64 | src/sentinel/mtfs_sentinel.c:77-93 | multiply64 succeeds exactly if the product fits 64 bits, and then returns it |
| Arith.MultiplyU64 | src/sentinel/mtfs_sentinel_inference.c:947-961 | multiply_u64 succeeds exactly if the product fits 64 bits, and then returns it |
| Arith.PermilleOf | src/sentinel/mtfs_sentinel_inference.c:915-938 | permille is 1000 n / d rounded half up, without leaving 64 bits; UINT32_MAX for d = 0 or n > d |
| Arith.PermilleIs | src/sentinel/mtfs_sentinel_inference.c:915-938 | The per mille is the nearest integer, halves up |
| Timing.HistogramBucket | src/sentinel/mtfs_sentinel_observer.c:39-49 | The bucket found is the one whose limits contain the latency |
| Timing.BucketSizes | src/sentinel/mtfs_sentinel_observer.c:8-16 | The limits double up to 65536 and then grow by the factor 4 |
| Timing.Counters.Record | src/sentinel/mtfs_sentinel_observer.c:78-99 | Each timed call is counted once: in the samples, the total and its bucket, or as invalid; only a count beyond 64 bits sets the saturation flag |
| Timing.Counters.Get | src/sentinel/mtfs_sentinel_observer.c:240-252 | An unsaturated snapshot shows exactly the calls so far |
| Timing.TimingDelta | src/sentinel/mtfs_sentinel.c:112-131 | timing_delta fails exactly if a counter went backwards, and otherwise is the difference with the floor mean |
| Timing.TallyConsistent | src/sentinel/mtfs_sentinel.c:189-220 | Real latencies have totals within the limits of their buckets |
| Timing.ConsistentIffReal | src/sentinel/mtfs_sentinel.c:189-220 | A record passes the check exactly if some list of latencies leaves it: every total between the limits occurs |
| Timing.DifferenceConsistent | src/sentinel/mtfs_sentinel.c:112-131 | Between two unsaturated snapshots of one observer any run of calls passes the consistency check, and the difference is the record of that run |
| Timing.AddProduct | src/sentinel/mtfs_sentinel.c:180-187 | add_product succeeds exactly if the sum fits 64 bits |
| Timing.IsConsistent | src/sentinel/mtfs_sentinel.c:189-220 | The check decides consistency over unbounded integers without leaving 64 bits |
| Timing.EncoderAccepts | src/sentinel/mtfs_sentinel_inference.c:963-978 | The multiply-based mean test accepts exactly nonempty samples with the floor mean |
| Timing.Window.Push | src/sentinel/mtfs_sentinel.c:450-469 | The ring keeps the newest records of one series, oldest first |
| Timing.HeldNewest | src/sentinel/mtfs_sentinel.c:450-469 | After any pushes the window holds the newest records of one series, back to a break, to the first or to its capacity |
| Timing.Window.Get | src/sentinel/mtfs_sentinel.c:471-585 | The window sum is the sum of the records held, each field capped at UINT64_MAX |
| Timing.SummedFields | src/sentinel/mtfs_sentinel.c:507-540 | The window sum is the sum of each field |
| Timing.WindowConsistent | src/sentinel/mtfs_sentinel.c:471-585 | An uncapped window sum of consistent records is consistent |
| Tflite.HighMul | src/sentinel/mtfs_sentinel_inference.c:1145-1154 | tflite_high_mul is floor((a b + 2^30) / 2^31) except for two INT32_MIN |
| Tflite.HighMulMatchesPython | tools/storage_sentinel/canonical_int8.py:60-66 | It equals the Python reference on all int32 inputs |
| Tflite.DividePotRounds | src/sentinel/mtfs_sentinel_inference.c:1156-1166 | tflite_divide_pot rounds to nearest, ties away from zero |
| Tflite.DividePotMatchesPython | tools/storage_sentinel/canonical_int8.py:68-77 | It equals the Python reference on all int32 inputs |
| Tflite.MultiplyMatchesPython | tools/storage_sentinel/canonical_int8.py:79-86 | The quantized multiplication equals the Python reference, failures included |
| Tflite.ValidateLayer | src/sentinel/mtfs_sentinel_inference.c:269-286 | validate_cpu_model accepts exactly the layers whose bounds, multipliers and shifts are in range |
| Tflite.BoundAtZero | src/sentinel/mtfs_sentinel_inference.c:269-286 | The bound of a layer without weights is the magnitude of the bias |
| Tflite.BoundChanged | src/sentinel/mtfs_sentinel_inference.c:269-286 | Another weight changes it by the distances from the zero point times the largest distance of an input |
| Tflite.InputReachesBound | src/sentinel/mtfs_sentinel_inference.c:273-274 | That largest distance occurs |
| Tflite.NoOverflow | src/sentinel/mtfs_sentinel_inference.c:1244-1252 | In a validated layer of the second format no accumulator leaves int32, on any input, after any number of inputs |
| Tflite.AccAtZero | src/sentinel/mtfs_sentinel_inference.c:1245-1250 | Inputs at their zero point leave the bias |
| Tflite.AccRaised | src/sentinel/mtfs_sentinel_inference.c:1248-1250 | Another value of one input shifts the accumulator by the difference times the weight above its zero point |
| Tflite.NeuronOutput | src/sentinel/mtfs_sentinel_inference.c:1251-1262 | The output is the accumulator times the multiplier, rounded, shifted with ties away from zero, moved to the zero point, and cut to its range; it fails exactly if the left shift overflows |
| Tflite.OutputAt | tools/storage_sentinel/canonical_int8.py:132-149 | Output o of a layer is that of neuron o, and a layer fails exactly if a neuron does |
| Tflite.InferLayers | tools/storage_sentinel/canonical_int8.py:125-151 | The network is its four layers in order |
| Int8V1.ValidateBiases | src/sentinel/mtfs_sentinel_inference.c:211-215 | Accepts exactly the models of the first format with biases 400000 away from the ends of int32 |
| Int8V1.NoOverflow | src/sentinel/mtfs_sentinel_inference.c:1321-1333 | That bound keeps every accumulator of at most 24 int8 products inside int32 at every prefix, on any input |
| Int8V1.AccAtZero | src/sentinel/mtfs_sentinel_inference.c:1319-1319 | Inputs of 0 leave the bias of the neuron, at its place among the biases |
| Int8V1.AccRaised | src/sentinel/mtfs_sentinel_inference.c:1321-1325 | Another value of one input shifts the accumulator by the difference times the weight at its place |
| Int8V1.OutputIs | src/sentinel/mtfs_sentinel_inference.c:1328-1332 | The output is acc / 128 to nearest, within 0 to 127 in the hidden layers and -128 to 127 in the last |
| Int8V1.NetLayers | src/sentinel/mtfs_sentinel_inference.c:1314-1339 | The network is its four layers in order |
| Int8V1.RoundShift7Rounds | src/sentinel/mtfs_sentinel_inference.c:1139-1143 | round_shift7 divides by 128 rounded to nearest, ties away from zero |
| Int8V1.Neuron | src/sentinel/mtfs_sentinel_inference.c:1320-1339 | The overflow test never fires, and the output is the rounded, cut off and clipped accumulator |
| Int8V1.Infer | src/sentinel/mtfs_sentinel_inference.c:1310-1343 | Four layers over two buffers never fail and compute the network |
| Tflite.Neuron | src/sentinel/mtfs_sentinel_inference.c:1244-1262 | One output of the C code equals the Python reference |
| Tflite.RunLayer | src/sentinel/mtfs_sentinel_inference.c:1231-1265 | So does one layer |
| Tflite.InferCanonical | src/sentinel/mtfs_sentinel_inference.c:1207-1268 | So does the whole network with its two swapped buffers, failures included |
| Score.ScoreQ8 | src/sentinel/mtfs_sentinel_inference.c:1365-1386 | The score is the mean squared difference rounded half up |
| Score.RoundedIs | src/sentinel/mtfs_sentinel_inference.c:1365-1386 | The score is within half a unit of the mean |
| Score.SumOfSame | src/sentinel/mtfs_sentinel_inference.c:1365-1386 | Equal vectors have distance 0 |
| Score.SumChanged | src/sentinel/mtfs_sentinel_inference.c:1365-1386 | Another element changes the sum by the difference of two squares |
| Score.ScoreInterval | src/sentinel/mtfs_sentinel_inference.c:1388-1433 | The interval is computed element by element as specified, and refused for an error above 255 |
| Score.IntervalSound | src/sentinel/mtfs_sentinel_inference.c:1388-1433 | Every output within the error scores inside the interval |
| Score.IntervalTight | src/sentinel/mtfs_sentinel_inference.c:1388-1433 | Both ends are scores of possible outputs |
| Score.DecisionExact | src/sentinel/mtfs_sentinel_inference.c:1420-1430 | Normal, anomaly and ambiguous say exactly what the verdicts of all possible outputs have in common |
| Media.DeadlineExact | src/core/mtfs_media.c:19-22 | On a wrapping clock the deadline is never seen early, and never missed within 2^31 ms |
| Media.Context.constructor | src/core/mtfs_media.c:102-145 | The first state is that of the first read, or the error state |
| Media.Context.NotifyIsr | src/core/mtfs_media.c:167-178 | A notification becomes pending, unless notifications are not accepted |
| Media.Context.ReadSignal | src/core/mtfs_media.c:32-43 | If no interrupt came during a read, it began after the last notification |
| Media.Context.Settle | src/core/mtfs_media.c:71-100 | Settling records one event and one generation exactly if the stable state changes |
| Media.Context.Sample | src/core/mtfs_media.c:217-226 | Pending notifications start a debounce for the level then read; one that races the read stays pending; without any, nothing happens |
| Media.Context.Recheck | src/core/mtfs_media.c:237-252 | The state settles if and only if no notification raced the read and the read confirms the candidate; else the debounce starts again with what was read |
| Media.Context.Confirm | src/core/mtfs_media.c:243-251 | The decision after the read |
| Media.Context.Process | src/core/mtfs_media.c:201-253 | No settle comes before debounce_ms; without notifications and with a steady level the first call past it settles, with one event exactly on a change; the wait returned is what is left; it fails exactly if a read does; the invariants hold in every interleaving |
| Media.Context.Increment | src/core/mtfs_media.c:196-196 | Interrupts between load and store of the increment may go uncounted, but a notification stays pending |
| Media.Context.Notify | src/core/mtfs_media.c:180-199 | A notification from the task is pending afterwards |
| Media.Context.PollLevel | src/core/mtfs_media.c:255-276 | A level that differs from the last one polled becomes a notification, and only such a level does |
| Media.Context.Poll | src/core/mtfs_media.c:255-277 | A steady level other than the one polled before starts a debounce for it, an unchanged one makes no notification; every invariant of processing is kept |
| Media.Context.NothingLost | src/core/mtfs_media.c:201-253 | At rest with nothing pending, the stable state is the result of a read begun after the last notification |
| Seqlock.Diagnostics.Update | src/block/mtfs_block_diagnostics.c:133-152 | An update publishes one new version: the structure with all its stores |
| Seqlock.AppliedLast | src/block/mtfs_block_diagnostics.c:133-152 | A field has the value of the last store to it |
| Seqlock.AppliedNone | src/block/mtfs_block_diagnostics.c:133-152 | A field nobody stored to keeps its value |
| Seqlock.Diagnostics.Copy | src/block/mtfs_block_diagnostics.c:257-257 | A copy made while the counter stood still outside an update is a version |
| Seqlock.Diagnostics.Attempt | src/block/mtfs_block_diagnostics.c:253-260 | One attempt succeeds only with a version that was published during it, unless the counter came round |
| Seqlock.Diagnostics.Get | src/block/mtfs_block_diagnostics.c:231-262 | A snapshot returned as valid is the structure at an instant of the call when no update was running, if fewer than 2^31 updates ran during the call or just during the copy; a call without a step of the writer succeeds exactly outside an update |

## Left out

- exFAT, fast seek, TRIM, GPT, multiple partitions, file locks, string functions and relative paths: not in the shipped configuration.
- Directory search by short name, allocation of directory entries, `f_open` path walking, `f_unlink`, `f_rename`, `f_mkdir`: thin users of the layers modelled here.
- Code pages and the case table: case folding is a parameter that sends only 0 to 0.
- The partition table, the block layer, RTOS mutexes, time stamps and attributes, console, vendor NPU and cryptography callbacks.
- Windows with other operations than timing, feature encoding, bundle parsing, identity and hash fields of the sentinel.
- Media diagnostics counters and the event callback, which is taken as a log of events.
- The window class `Volume` treats a sector as a value; a pointer into the window (`dir_ptr`) is modelled by sector and offset.
- Bit masks by `csize - 1` and tests of the form `x & (x - 1)` are modelled as remainders and as membership among the powers of two in range.
- Sessions.RunMany: a run is followed up to the first call that reports an error; after it only the safety of the FAT is promised. A run with `f_getfree` starts on a volume whose reserved entries are not zero, as on others a scan can be wrong.
- FileRuns.PerformCount: a scan that counts a reserved entry leaves a wrong count in the volume, so it is outside this contract; `VolumeWindow.Volume.GetFree` says what it answers.
- Files.File.Open: a directory entry whose chain is broken or of the wrong length is outside its contract; the original finds out only on access.
- Files.File.Write: after an internal or disk error the contents are unspecified, as the original marks the file unusable; what remains promised is the safety of the FAT and that the buffer can still be written back.
- VolumeWindow.Volume.MoveWindow: sectors of the mirror FAT, the FSInfo sector and sectors outside the device are never asked for, so its contract leaves them out.
- VolumeWindow.Volume.RemoveChain: crash safety is stated for FAT16 and FAT32 and for a cluster that its predecessor links to or that nobody links to.
- Media.Context.Interrupts: interrupts leave room for one more notification below 2^32 pending ones.
- Seqlock.Diagnostics.WriterSteps: weak memory ordering is not modelled; accesses take effect in program order.
