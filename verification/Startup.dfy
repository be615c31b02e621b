/** From formatting to the first file: the invariants of the volume and of its files hold
    at the start. */
module Startup {
  import opened Base
  import opened FatTable
  import opened Chains
  import opened Geometry
  import opened DirEntry
  import opened Mkfs
  import opened Mounting
  import opened Formatting
  import opened VolumeWindow
  import opened FileData
  import opened FileLayout
  import opened FileSteps
  import opened FileTurns
  import opened FileRuns
  import opened FileSync
  import opened Files
  import opened Sessions

  /** The device as f_mkfs leaves it on a drive without failures. */
  ghost predicate Formatted(p: Plan, bVol: u32, szVol: u32, vsn: u32, d: Image) {
    Formatting.Written(p, bVol, szVol, vsn, d) && InfoWritten(p, bVol, szVol, vsn, d)
  }

  /** A formatted, mountable device has a sound geometry and a FAT whose free clusters are
      all but the root directory of FAT32; FAT #2 is a copy; the FAT is safe. */
  lemma FormattedDevice(p: Plan, bVol: u32, szVol: u32, szBlk: nat, vsn: u32, d: Image)
    requires Sound(p, bVol, szVol, szBlk) && bVol + szVol < 0x1_0000_0000 && p.nClst > 32 && p.szFat < 0x20_0000
    requires Formatted(p, bVol, szVol, vsn, d)
    ensures var g := GeoOf(p, bVol);
            && Fits(g, d) && g.volbase < g.fatbase && Mirrored(g, d) && Safe(FatOf(g, d)) && 3 <= g.nFatent && g.nFatent == p.nClst + 2
            && CountFree(FatOf(g, d)) == (if p.fsty == Fat32 then p.nClst - 1 else p.nClst)
            && Accurate(FatOf(g, d), 0xFFFF_FFFF)
            && (p.fsty == Fat32 ==> InfoFree(FsInfoSector(p.nClst - 1, 2)) == p.nClst - 1 && Accurate(FatOf(g, d), p.nClst - 1))
            && (p.fsty == Fat32 ==> FatOf(g, d)[2] != 0) && !HasOne(FatOf(g, d)) && FatOf(g, d)[0] != 0 && FatOf(g, d)[1] != 0
            && (g.fsType != Fat12 ==> SafeNow(g, Snap(Device(d, [d]), d, NOSECT)))
  {
    hide *;
    var g := GeoOf(p, bVol);
    FormattedVolume(p, bVol, szVol, szBlk);
    GeoIs(p, bVol);
    FitsOf(p, bVol, szVol, vsn, d);
    OkParts(g);
    FreshVolume(g.fsType, g.nFatent, 512 * g.fsize);
    FatIsFresh(p, bVol, szVol, vsn, d);
    if p.fsty == Fat32 { FsInfoReadsBack(p.nClst - 1, 2); }
    UnknownIsAccurate(FatOf(g, d));
    NoOnes(FatOf(g, d));
    if g.fsType != Fat12 { SafeOf(g, d); }
  }

  lemma FitsOf(p: Plan, bVol: u32, szVol: u32, vsn: u32, d: Image)
    requires Formatted(p, bVol, szVol, vsn, d) && GeoOf(p, bVol).Ok() && GeoOf(p, bVol).Top() <= bVol + szVol
    ensures Fits(GeoOf(p, bVol), d)
  {
  }

  lemma OkParts(g: Geo)
    requires g.Ok()
    ensures 3 <= g.nFatent <= MaxClusters(g.fsType) + 2 && TableBytes(g.fsType, g.nFatent) <= 512 * g.fsize
    ensures g.nFatent <= 0xFFFF_FFFF && 0 < g.fsize
  {
  }

  lemma FatIsFresh(p: Plan, bVol: u32, szVol: u32, vsn: u32, d: Image)
    requires Formatted(p, bVol, szVol, vsn, d) && Fits(GeoOf(p, bVol), d)
    requires Holds(p.fsty, p.nClst + 2, FreshTable(p.fsty, 512 * p.szFat))
    ensures FatOf(GeoOf(p, bVol), d) == Entries(p.fsty, p.nClst + 2, FreshTable(p.fsty, 512 * p.szFat))
    ensures Mirrored(GeoOf(p, bVol), d)
  {
    hide FreshTable, Holds, Flat, TableBytes, PowerOfTwo, FsInfoSector, Entry;
  }

  lemma UnknownIsAccurate(f: Fat)
    requires 2 <= |f| <= 0xFFFF_FFFF
    ensures Accurate(f, 0xFFFF_FFFF)
  {
  }

  lemma SafeOf(g: Geo, d: Image)
    requires Fits(g, d) && Safe(FatOf(g, d)) && g.fsType != Fat12
    ensures SafeNow(g, Snap(Device(d, [d]), d, NOSECT))
  {
  }

  lemma NoOnes(f: Fat)
    requires forall c :: 2 <= c < |f| ==> f[c] != 1
    ensures !HasOne(f)
  {
  }

  /** Write a volume with the geometry that f_mkfs chose to a drive without failures, and
      mount what is there. The volume is refused exactly if it has too few clusters or too
      many FAT sectors. */
  method MountFresh(p: Plan, bVol: u32, szVol: u32, ghost szBlk: nat, vsn: u32, szBuf: nat, d: Image) returns (fs: Volume?)
    requires Sound(p, bVol, szVol, szBlk) && szVol >= 64 && bVol + szVol <= |d| < 0x1_0000_0000 && szBuf > 0
    ensures fs != null <==> p.nClst > 32 && p.szFat < 0x20_0000
    ensures fs != null ==>
              && fresh(fs) && fs.Valid() && fs.reliable && fs.g == GeoOf(p, bVol) && Session(fs, [], [])
              && fs.View() == fs.disk && Formatted(p, bVol, szVol, vsn, fs.disk)
              && Mirrored(fs.g, fs.View()) && !HasOneIn(fs.g, fs.Now()) && ReservedUsed(fs.g, fs.Now())
              && fs.Flushed() && (fs.FsInfo() >= 0 <==> p.fsty == Fat32) && (p.fsty == Fat32 ==> fs.freeClst == p.nClst - 1)
              && CountFree(FatOf(fs.g, fs.View())) == (if p.fsty == Fat32 then p.nClst - 1 else p.nClst)
              && (p.fsty == Fat32 ==> FatOf(fs.g, fs.View())[2] != 0)
              && (fs.g.fsType != Fat12 ==> SafeNow(fs.g, fs.Now()))
  {
    hide *;
    fs := null;
    var ok, disk := WriteVolume(p, bVol, szVol, szBlk, vsn, szBuf, d, true);
    WrittenMounts(p, bVol, szVol, szBlk, vsn, disk);
    var m := Mount(disk[bVol], bVol);
    if m == None { return; }
    FormattedIs(p, bVol, szVol, vsn, disk);
    FormattedDevice(p, bVol, szVol, szBlk, vsn, disk);
    FormattedParts(p, bVol, szVol, szBlk, vsn, disk);
    var v := new Volume.Mounted(m.value, disk, true, true);
    NoFilesYet(v);
    OnesNone(v.g, v.Now());
    v.FlushedOf();
    ReservedOf(v.g, v.Now());
    if v.g.fsType != Fat12 { SafeAnywhere(v.g, Snap(Device(disk, [disk]), disk, NOSECT), v.Now()); }
    fs := v;
  }

  lemma NoFilesYet(fs: Volume)
    requires fs.Valid() && Accurate(fs.Fat(), fs.freeClst)
    ensures Session(fs, [], [])
    ensures fs.Now().dev == Device(fs.disk, fs.log)
  {
  }

  lemma OnesNone(g: Geo, s: Snap)
    requires Fits(g, s.view) && !HasOne(FatOf(g, s.view))
    ensures !HasOneIn(g, s)
  {
  }

  lemma ReservedOf(g: Geo, s: Snap)
    requires Fits(g, s.view) && g.nFatent >= 2 && FatOf(g, s.view)[0] != 0 && FatOf(g, s.view)[1] != 0
    ensures ReservedUsed(g, s)
  {
  }

  lemma SafeAnywhere(g: Geo, s: Snap, s': Snap)
    requires SafeNow(g, s) && s'.dev == s.dev && s'.view == s.view
    ensures SafeNow(g, s')
  {
  }

  /** An entry in the blank root directory; on FAT32 that is cluster 2. */
  ghost predicate InRoot(p: Plan, bVol: u32, sect: u32, ofs: nat) {
    bVol + p.szRsv + p.szFat * p.nFat <= sect < RootEnd(p, bVol) && ofs + 32 <= 512
  }

  function RootCluster(p: Plan): nat { if p.fsty == Fat32 then 2 else 0 }

  /** Open an empty file, whose entry lies in the blank root directory, on the fresh volume:
      every invariant holds at the start. */
  method FirstFile(p: Plan, bVol: u32, szVol: u32, ghost szBlk: nat, vsn: u32, szBuf: nat, d: Image, dirSect: u32, dirOfs: nat)
      returns (fs: Volume?, f: File?)
    requires Sound(p, bVol, szVol, szBlk) && szVol >= 64 && bVol + szVol <= |d| < 0x1_0000_0000 && szBuf > 0
    requires InRoot(p, bVol, dirSect, dirOfs)
    ensures fs != null <==> p.nClst > 32 && p.szFat < 0x20_0000
    ensures fs != null ==> f != null && fresh(fs) && fresh(f) && f.fs == fs && fs.reliable && fs.g == GeoOf(p, bVol)
    ensures fs != null ==> Session(fs, [f], [Place(dirSect, dirOfs, RootCluster(p))])
    ensures fs != null ==> f.Valid() && f.content == [] && f.fptr == 0 && f.canRead && f.canWrite
    ensures fs != null ==> fs.Valid() && Mirrored(fs.g, fs.disk) && Mirrored(fs.g, fs.View())
    ensures fs != null ==> !HasOneIn(fs.g, fs.Now()) && ReservedUsed(fs.g, fs.Now())
    ensures fs != null ==> CountFree(FatOf(fs.g, fs.View())) == if p.fsty == Fat32 then p.nClst - 1 else p.nClst
    ensures fs != null && fs.g.fsType != Fat12 ==> AllTidy(fs.g, fs.Now(), Recs([f]))
  {
    hide *;
    f := null;
    fs := MountFresh(p, bVol, szVol, szBlk, vsn, szBuf, d);
    if fs == null { return; }
    var v: Volume := fs;
    RootOpenable(p, bVol, szVol, szBlk, vsn, v, dirSect, dirOfs);
    var e := OpenAlso(v, [], [], 0, 0, true, true, dirSect, dirOfs, RootCluster(p), []);
    ghost var place := Place(dirSect, dirOfs, RootCluster(p));
    assert [] + [e] == [e] && [] + [place] == [place];
    NoContent(v.g, v.View());
    if v.g.fsType != Fat12 { EmptyTidy(v.g, v.Now(), Recs([e])[0]); TidyOf(v.g, v.Now(), Recs([e])); }
    f := e;
  }

  lemma EmptyTidy(g: Geo, s: Snap, r: FileRec)
    requires SafeNow(g, s) && Fits(g, s.view) && r.chain == []
    ensures Tidy(g, s, r.chain)
  {
  }

  lemma NoContent(g: Geo, v: Image)
    ensures OpenedRec(g, v, 0, 0, []).content == []
  {
  }

  lemma RootOpenable(p: Plan, bVol: u32, szVol: u32, szBlk: nat, vsn: u32, fs: Volume, dirSect: u32, dirOfs: nat)
    requires Sound(p, bVol, szVol, szBlk) && InRoot(p, bVol, dirSect, dirOfs) && fs.Valid() && fs.View() == fs.disk && fs.g == GeoOf(p, bVol)
    requires Formatted(p, bVol, szVol, vsn, fs.disk) && (p.fsty == Fat32 ==> FatOf(fs.g, fs.View())[2] != 0)
    ensures Openable(fs, [], [], Place(dirSect, dirOfs, RootCluster(p)), 0, 0, [])
  {
    RootBlank(p, bVol, szVol, szBlk, vsn, fs.disk, dirSect, dirOfs);
    EmptyDescribed(fs.g, fs.Now());
    EmptyRecovered(fs.g, fs.disk, dirSect, dirOfs);
    hide *;
    NoContent(fs.g, fs.View());
    DurableOf(fs.g, fs.Now(), dirSect, dirOfs, OpenedRec(fs.g, fs.View(), 0, 0, []));
    OpenableOf(fs, Place(dirSect, dirOfs, RootCluster(p)));
  }

  lemma OpenableOf(fs: Volume, p: Place)
    requires fs.Valid() && Described(fs.g, fs.Now(), 0, 0, []) && EntryAt(fs.g, fs.View(), p.sect, p.ofs)
    requires EntryApart(fs.g, fs.View(), p.sect, p.dc, []) && Durable(fs.g, fs.Now(), p.sect, p.ofs, OpenedRec(fs.g, fs.View(), 0, 0, []))
    ensures Openable(fs, [], [], p, 0, 0, [])
  {
  }

  lemma RootBlank(p: Plan, bVol: u32, szVol: u32, szBlk: nat, vsn: u32, d: Image, dirSect: u32, dirOfs: nat)
    requires Sound(p, bVol, szVol, szBlk) && InRoot(p, bVol, dirSect, dirOfs)
    requires Formatted(p, bVol, szVol, vsn, d) && Fits(GeoOf(p, bVol), d) && (p.fsty == Fat32 ==> FatOf(GeoOf(p, bVol), d)[2] != 0)
    ensures EntryAt(GeoOf(p, bVol), d, dirSect, dirOfs) && d[dirSect] == BlankSector()
    ensures EntryApart(GeoOf(p, bVol), d, dirSect, RootCluster(p), [])
  {
    hide Vbr, FsInfoSector, FreshTable, Flat, PowerOfTwo, TableBytes, BlankSector;
    Room(p, bVol, szVol, szBlk);
    var g := GeoOf(p, bVol);
    assert g.fatbase + g.FatSectors() <= dirSect < RootEnd(p, bVol) <= |d|;
    if p.fsty == Fat32 { assert Clst2Sect(g, 2) == g.database; }
  }

  lemma EmptyRecovered(g: Geo, v: Image, sect: nat, ofs: nat)
    requires EntryAt(g, v, sect, ofs) && Fits(g, v) && v[sect] == BlankSector()
    ensures Recovered(g, v, sect, ofs, OpenedRec(g, v, 0, 0, []))
  {
    hide Fits;
    assert Sectors(g, []) == [];
  }

  /** From the options of f_mkfs on: they lead to a mountable volume exactly if they lead to
      a geometry with more than 32 clusters and fewer than 2^21 sectors per FAT. Then every
      run of calls on a file of the fresh volume succeeds on a drive without failures,
      however long it is, ends with the same invariants, and with equal FATs. */
  method FormatAndRun(bVol: u32, szVol: u32, blockSize: nat, optNFat: nat, optNRoot: nat, auSize: nat, fat: bool, fat32: bool,
                      vsn: u32, szBuf: nat, d: Image, dirSect: u32, dirOfs: nat, calls: seq<Call>)
      returns (p: Plan, fs: Volume?, f: File?, replies: seq<Reply>, ghost qs: seq<seq<Plain>>, ghost frees: seq<nat>)
    requires bVol + szVol <= |d| < 0x1_0000_0000 && szBuf > 0 && Sensible(calls, 1)
    requires var plan := PlanFor(bVol, szVol, blockSize, optNFat, optNRoot, auSize, fat, fat32);
             plan.Some? ==> InRoot(plan.value, bVol, dirSect, dirOfs)
    ensures fs != null <==>
              && PlanFor(bVol, szVol, blockSize, optNFat, optNRoot, auSize, fat, fat32) == Some(p)
              && p.nClst > 32 && p.szFat < 0x20_0000
    ensures fs != null ==>
              && fs.g == GeoOf(p, bVol) && f != null
              && |replies| == |calls| && History([f], calls, replies, qs, frees) && qs[0] == [Plain([], 0)]
              && Session(fs, [f], [Place(dirSect, dirOfs, RootCluster(p))]) && fs.Valid() && Mirrored(fs.g, fs.disk)
              && (fs.g.fsType != Fat12 ==> AllTidy(fs.g, fs.Now(), Recs([f])))
  {
    hide *;
    fs, f, replies, qs, frees := null, null, [], [], [];
    var ok;
    ok, p := Format(bVol, szVol, blockSize, optNFat, optNRoot, auSize, fat, fat32);
    if !ok { return; }
    fs, f := FirstFile(p, bVol, szVol, BlockOf(blockSize), vsn, szBuf, d, dirSect, dirOfs);
    if fs == null { return; }
    replies, qs, frees := RunReliable(fs, f, Place(dirSect, dirOfs, RootCluster(p)), calls);
  }

  /** Without failures and without a stray 1 in the FAT there is no error. */
  method RunReliable(fs: Volume, f: File, ghost place: Place, calls: seq<Call>)
      returns (replies: seq<Reply>, ghost qs: seq<seq<Plain>>, ghost frees: seq<nat>)
    requires Session(fs, [f], [place]) && Sensible(calls, 1) && fs.reliable && !HasOneIn(fs.g, fs.Now()) && ReservedUsed(fs.g, fs.Now())
    modifies fs, f
    ensures fs.Valid() && (old(fs.Valid() && Mirrored(fs.g, fs.disk)) ==> Mirrored(fs.g, fs.disk))
    ensures Session(fs, [f], [place]) && |replies| == |calls| && History([f], calls, replies, qs, frees)
    ensures qs[0] == [old(PlainOf(f.Rec()))]
    ensures old(AllTidy(fs.g, fs.Now(), Recs([f]))) ==> AllTidy(fs.g, fs.Now(), Recs([f]))
  {
    hide *;
    assert Plains([f])[0] == PlainOf(f.Rec());
    var res;
    SessionParts(fs, [f], [place]);
    ghost var dev := fs.Now().dev;
    res, replies, qs, frees := RunMany(fs, [f], [place], calls);
    MirrorAt(fs, dev);
  }

  lemma MirrorAt(fs: Volume, dev: Device)
    requires fs.Valid() && fs.reliable && MirrorKept(fs.g, true, dev, fs.Now().dev)
    ensures Fits(fs.g, dev.disk) && (Mirrored(fs.g, dev.disk) ==> Mirrored(fs.g, fs.disk))
  {
  }

  lemma FormattedIs(p: Plan, bVol: u32, szVol: u32, vsn: u32, d: Image)
    requires Formatting.Written(p, bVol, szVol, vsn, d) && InfoWritten(p, bVol, szVol, vsn, d)
    ensures Formatted(p, bVol, szVol, vsn, d)
  {
  }

  lemma FormattedParts(p: Plan, bVol: u32, szVol: u32, szBlk: nat, vsn: u32, d: Image)
    requires Sound(p, bVol, szVol, szBlk)
    requires Formatted(p, bVol, szVol, vsn, d) && Fits(GeoOf(p, bVol), d) && GeoOf(p, bVol).volbase < GeoOf(p, bVol).fatbase
    ensures var g := GeoOf(p, bVol);
            && g.volbase == bVol && g.volbase + 1 < |d| && g.fsType == p.fsty && g.fatbase == bVol + p.szRsv
            && (p.fsty == Fat32 ==> d[bVol + 1] == FsInfoSector(p.nClst - 1, 2))
            && (p.fsty == Fat32 ==> g.volbase + 1 < g.fatbase)
  {
    hide FsInfoSector, FreshTable, Flat, PowerOfTwo, TableBytes;
    var g := GeoOf(p, bVol);
    OkParts(g);
    assert g.nFats == 1 || g.nFats == 2;
  }

  lemma EmptyDescribed(g: Geo, s: Snap)
    requires Fits(g, s.view)
    ensures Described(g, s, 0, 0, [])
  {
  }

  // ---- from f_sync to the next mount ----

  /** After f_sync has reported success for a modified file on a drive without failures, the
      drive is mounted again: its free count is right, its FAT is the same, and what f_open
      then finds is the file. */
  method SyncAndRemount(fs: Volume, files: seq<File>, ghost ps: seq<Place>, k: nat, time: u32, fsInfoNext: bool)
      returns (next: Volume)
    requires Session(fs, files, ps) && k < |files| && fs.reliable && files[k].modified
    requires fs.FsInfo() >= 0 <==> fs.g.fsType == Fat32 && fsInfoNext
    modifies fs, files
    ensures fs.Valid() && fresh(next) && next.Valid() && next.reliable && next.g == fs.g && next.disk == fs.disk
    ensures next.Fat() == fs.Fat() && Accurate(next.Fat(), next.freeClst)
    ensures next.FsInfo() >= 0 && fs.freeClst <= fs.g.nFatent - 2 ==> next.freeClst == CountFree(next.Fat())
    ensures Session(next, [], []) && |ps| == |files| && Recovered(next.g, next.View(), ps[k].sect, ps[k].ofs, files[k].Rec())
    ensures files[k].content == old(files[k].content)
  {
    hide *;
    SyncMarked(fs, files, ps, k, time);
    next := Remount(fs, fsInfoNext);
    fs.KnownIsRight();
  }

  /** f_sync of a modified file on a drive without failures. */
  method SyncMarked(fs: Volume, files: seq<File>, ghost ps: seq<Place>, k: nat, time: u32)
    requires Session(fs, files, ps) && k < |files| && fs.reliable && files[k].modified
    modifies fs, files
    ensures fs.Valid() && fs.Flushed() && Accurate(fs.Fat(), fs.freeClst) && Session(fs, files, ps) && |ps| == |files|
    ensures Recovered(fs.g, fs.View(), ps[k].sect, ps[k].ofs, files[k].Rec()) && files[k].content == old(files[k].content)
  {
    hide *;
    SessionParts(fs, files, ps);
    ghost var q0, was := Plains(files), Marks(files)[k];
    SyncSensible(k, time, |files|);
    var res, reply := CallOne(fs, files, ps, Call(k, DoSync(time)));
    SyncAnswered(files, Call(k, DoSync(time)), reply, q0, Plains(files), CountFree(fs.Fat()));
    SessionParts(fs, files, ps);
    SavedAt(fs.g, fs.Now(), Recs(files), ps, Marks(files), k);
    DurableShown(fs.g, fs.Now(), ps[k].sect, ps[k].ofs, files[k].Rec());
  }

  lemma SyncSensible(k: nat, time: u32, n: nat)
    requires k < n
    ensures Sensible([Call(k, DoSync(time))], n)
  {
  }

  lemma SyncAnswered(files: seq<File>, call: Call, reply: Reply, q: seq<Plain>, q': seq<Plain>, free: nat)
    requires Answered(files, call, reply, q, q', free) && call.op.DoSync?
    ensures |q| == |q'| && call.who < |q| && q'[call.who] == q[call.who]
  {
  }

  lemma DurableShown(g: Geo, s: Snap, sect: nat, ofs: nat, r: FileRec)
    requires Durable(g, s, sect, ofs, r)
    ensures Recovered(g, s.view, sect, ofs, r)
  {
    hide Recovered;
  }

  /** mount_volume on a device without failures on which nothing waits to be written. */
  method Remount(fs: Volume, fsInfoNext: bool) returns (next: Volume)
    requires fs.Valid() && fs.reliable && fs.Flushed() && Accurate(fs.Fat(), fs.freeClst)
    requires fs.FsInfo() >= 0 <==> fs.g.fsType == Fat32 && fsInfoNext
    ensures fresh(next) && next.Valid() && next.reliable && next.g == fs.g && next.disk == fs.disk && next.View() == fs.View()
    ensures next.Fat() == fs.Fat() && Accurate(next.Fat(), next.freeClst) && Session(next, [], [])
    ensures next.FsInfo() >= 0 ==> next.freeClst == fs.freeClst
  {
    next := new Volume.Mounted(fs.g, fs.disk, true, fsInfoNext);
    UnknownIsAccurate(next.Fat());
    NoFilesYet(next);
  }
}
