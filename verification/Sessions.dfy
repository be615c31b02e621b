/** Several files open on one volume, and whole runs of calls on them in any order. */
module Sessions {
  import opened Base
  import opened FatTable
  import opened Chains
  import opened Geometry
  import opened VolumeWindow
  import opened FileData
  import opened FileLayout
  import opened FileSteps
  import opened FileTurns
  import opened FileSync
  import opened Files
  import opened FileRuns

  // ---- a group of files, as values ----

  /** Where the directory entry of a file lies; dc is the cluster it lies in, if any. */
  datatype Place = Place(sect: nat, ofs: nat, dc: nat)

  ghost predicate PlacesApart(a: Place, b: Place) {
    a.sect == b.sect ==> a.ofs + 32 <= b.ofs || b.ofs + 32 <= a.ofs
  }

  /** A forest of files whose directory entries are apart and lie in none of them. */
  ghost predicate Group(g: Geo, s: Snap, rs: seq<FileRec>, ps: seq<Place>) {
    && |ps| == |rs| && Forest(g, s, rs)
    && (forall i :: 0 <= i < |ps| ==> EntryAt(g, s.view, ps[i].sect, ps[i].ofs))
    && (forall i, j :: 0 <= i < |rs| && 0 <= j < |ps| ==> EntryApart(g, s.view, ps[j].sect, ps[j].dc, rs[i].chain))
    && (forall i, j :: 0 <= i < j < |ps| ==> PlacesApart(ps[i], ps[j]))
  }

  ghost predicate AllTidy(g: Geo, s: Snap, rs: seq<FileRec>) {
    forall i :: 0 <= i < |rs| ==> Tidy(g, s, rs[i].chain)
  }

  /** The device alone recovers each file that is not marked modified. */
  ghost predicate Saved(g: Geo, s: Snap, rs: seq<FileRec>, ps: seq<Place>, marked: seq<bool>)
    requires |rs| == |ps| == |marked|
  {
    forall i :: 0 <= i < |rs| ==> marked[i] || Durable(g, s, ps[i].sect, ps[i].ofs, rs[i])
  }

  lemma GroupAt(g: Geo, s: Snap, rs: seq<FileRec>, ps: seq<Place>, i: nat)
    requires Group(g, s, rs, ps) && i < |rs|
    ensures |ps| == |rs| && FileInv(g, s, rs[i]) && EntryAt(g, s.view, ps[i].sect, ps[i].ofs)
    ensures EntryApart(g, s.view, ps[i].sect, ps[i].dc, rs[i].chain)
  {
  }

  lemma GroupPair(g: Geo, s: Snap, rs: seq<FileRec>, ps: seq<Place>, i: nat, j: nat)
    requires Group(g, s, rs, ps) && i < |rs| && j < |rs| && i != j
    ensures Disjoint(rs[i].chain, rs[j].chain) && PlacesApart(ps[i], ps[j])
    ensures EntryApart(g, s.view, ps[j].sect, ps[j].dc, rs[i].chain) && EntryApart(g, s.view, ps[i].sect, ps[i].dc, rs[j].chain)
  {
    hide FileInv, EntryApart, EntryAt;
    if i > j {
      assert Disjoint(rs[j].chain, rs[i].chain);
      assert PlacesApart(ps[j], ps[i]);
    }
  }

  lemma GroupOf(g: Geo, s: Snap, rs: seq<FileRec>, ps: seq<Place>)
    requires |ps| == |rs| && Forest(g, s, rs)
    requires forall i :: 0 <= i < |ps| ==> EntryAt(g, s.view, ps[i].sect, ps[i].ofs)
    requires forall i, j :: 0 <= i < |rs| && 0 <= j < |ps| ==> EntryApart(g, s.view, ps[j].sect, ps[j].dc, rs[i].chain)
    requires forall i, j :: 0 <= i < j < |ps| ==> PlacesApart(ps[i], ps[j])
    ensures Group(g, s, rs, ps)
  {
  }

  /** A used cluster that another chain does not have stays used. */
  lemma ApartKept(g: Geo, reliable: bool, s: Snap, s': Snap, a: seq<nat>, a': seq<nat>, p: Place, ch: seq<nat>)
    requires FileStep(g, reliable, s, s', a, a') && EntryAt(g, s.view, p.sect, p.ofs)
    requires EntryApart(g, s.view, p.sect, p.dc, a) && EntryApart(g, s.view, p.sect, p.dc, ch)
    ensures EntryApart(g, s'.view, p.sect, p.dc, ch) && EntryApart(g, s'.view, p.sect, p.dc, a')
    ensures EntryAt(g, s'.view, p.sect, p.ofs)
  {
    EntryKept(g, reliable, s, s', a, a', p.sect, p.ofs, p.dc);
  }

  /** What one call on file i does to the rest of the group. */
  lemma GroupKept(g: Geo, reliable: bool, s: Snap, s': Snap, rs: seq<FileRec>, ps: seq<Place>, i: nat, r': FileRec)
    requires Group(g, s, rs, ps) && i < |rs|
    requires FileStep(g, reliable, s, s', rs[i].chain, r'.chain) && FileInv(g, s', r')
    ensures Group(g, s', rs[i := r'], ps)
  {
    hide *;
    var qs := rs[i := r'];
    GroupAt(g, s, rs, ps, i);
    GroupForest(g, s, rs, ps);
    ForestKept(g, reliable, s, s', rs, i, r');
    forall k, j | 0 <= k < |qs| && 0 <= j < |ps|
      ensures EntryApart(g, s'.view, ps[j].sect, ps[j].dc, qs[k].chain) && EntryAt(g, s'.view, ps[j].sect, ps[j].ofs)
    {
      GroupAt(g, s, rs, ps, j);
      if i != j { GroupPair(g, s, rs, ps, i, j); }
      if k != j { GroupPair(g, s, rs, ps, k, j); }
      ApartKept(g, reliable, s, s', rs[i].chain, r'.chain, ps[j], rs[k].chain);
    }
    forall k, j | 0 <= k < j < |ps|
      ensures PlacesApart(ps[k], ps[j])
    {
      GroupPair(g, s, rs, ps, k, j);
    }
    assert forall j :: 0 <= j < |ps| ==> EntryApart(g, s'.view, ps[j].sect, ps[j].dc, qs[i].chain) && EntryAt(g, s'.view, ps[j].sect, ps[j].ofs);
    GroupOf(g, s', qs, ps);
  }

  lemma GroupForest(g: Geo, s: Snap, rs: seq<FileRec>, ps: seq<Place>)
    requires Group(g, s, rs, ps)
    ensures Forest(g, s, rs)
  {
  }

  lemma FrameFat(g: Geo, reliable: bool, s: Snap, s': Snap, sect: int, ofs: nat, info: int, ch: seq<nat>)
    requires SyncFrame(g, reliable, s, s', sect, ofs, info, ch)
    ensures Fits(g, s.view) && Fits(g, s'.view) && FatOf(g, s'.view) == FatOf(g, s.view) && |s'.view| == |s.view|
  {
  }

  lemma InvClusters(g: Geo, s: Snap, r: FileRec)
    requires FileInv(g, s, r)
    ensures AllClusters(g, r.chain)
  {
    CoreFacts(g, s, r);
  }

  /** A directory sector is none of a file's sectors. */
  lemma PlaceOutside(g: Geo, s: Snap, r: FileRec, p: Place, info: int)
    requires FileInv(g, s, r) && EntryApart(g, s.view, p.sect, p.dc, r.chain) && info < g.fatbase as int
    ensures p.sect !in Sectors(g, r.chain)
  {
    hide *;
    InvParts(g, s, r);
    EntryOutside(g, s, r, p.sect, p.dc, info);
  }

  /** f_sync of one open file keeps the others, in the volume and on the device. */
  lemma GroupSynced(g: Geo, reliable: bool, s: Snap, s': Snap, rs: seq<FileRec>, ps: seq<Place>, info: int, i: nat, r': FileRec)
    requires Group(g, s, rs, ps) && i < |rs| && info < g.fatbase as int
    requires SyncFrame(g, reliable, s, s', ps[i].sect, ps[i].ofs, info, rs[i].chain) && FileInv(g, s', r') && r'.chain == rs[i].chain
    ensures Group(g, s', rs[i := r'], ps)
  {
    hide *;
    var qs := rs[i := r'];
    GroupAt(g, s, rs, ps, i);
    InvClusters(g, s, rs[i]);
    FrameFat(g, reliable, s, s', ps[i].sect, ps[i].ofs, info, rs[i].chain);
    GroupForest(g, s, rs, ps);
    forall j | 0 <= j < |rs| && j != i
      ensures ps[i].sect !in Sectors(g, rs[j].chain)
    {
      GroupAt(g, s, rs, ps, j);
      GroupPair(g, s, rs, ps, i, j);
      PlaceOutside(g, s, rs[j], ps[i], info);
    }
    ForestSynced(g, reliable, s, s', rs, ps[i].sect, ps[i].ofs, info, i, r');
    forall k, j | 0 <= k < |qs| && 0 <= j < |ps|
      ensures EntryApart(g, s'.view, ps[j].sect, ps[j].dc, qs[k].chain) && EntryAt(g, s'.view, ps[j].sect, ps[j].ofs)
    {
      GroupAt(g, s, rs, ps, j);
      if k != j { GroupPair(g, s, rs, ps, k, j); }
      ApartSame(g, s.view, s'.view, ps[j].sect, ps[j].dc, rs[k].chain);
      EntryAtSame(g, s.view, s'.view, ps[j].sect, ps[j].ofs);
    }
    forall k, j | 0 <= k < j < |ps|
      ensures PlacesApart(ps[k], ps[j])
    {
      GroupPair(g, s, rs, ps, k, j);
    }
    assert forall j :: 0 <= j < |ps| ==> EntryApart(g, s'.view, ps[j].sect, ps[j].dc, qs[i].chain) && EntryAt(g, s'.view, ps[j].sect, ps[j].ofs);
    GroupOf(g, s', qs, ps);
  }

  lemma DoneParts(g: Geo, reliable: bool, s: Snap, s': Snap, r: FileRec, r': FileRec, sect: nat, ofs: nat, info: int, op: Op, was: bool, marked: bool)
    requires Done(g, reliable, s, s', r, r', sect, ofs, info, op, was, marked)
    ensures FileInv(g, s', r')
    ensures op.DoSync? ==> r'.chain == r.chain && SyncFrame(g, reliable, s, s', sect, ofs, info, r.chain) && !marked
    ensures !op.DoSync? ==> FileStep(g, reliable, s, s', r.chain, r'.chain)
    ensures was || Durable(g, s, sect, ofs, r) ==> marked || Durable(g, s', sect, ofs, r')
  {
  }

  /** FAT #2 of a reliable volume stays a copy of FAT #1, whichever call it is. */
  lemma DoneMirror(g: Geo, reliable: bool, s: Snap, s': Snap, r: FileRec, r': FileRec, sect: nat, ofs: nat, info: int, op: Op, was: bool, marked: bool)
    requires Done(g, reliable, s, s', r, r', sect, ofs, info, op, was, marked)
    ensures MirrorKept(g, reliable, s.dev, s'.dev)
  {
    hide MirrorKept, FileInv, Durable, Tidy;
  }

  lemma MirrorTrans(g: Geo, reliable: bool, d: Device, d': Device, d'': Device)
    requires MirrorKept(g, reliable, d, d') && MirrorKept(g, reliable, d', d'')
    ensures MirrorKept(g, reliable, d, d'')
  {
  }

  /** The reserved entries are in no file, so every call keeps them. */
  lemma DoneReserved(g: Geo, reliable: bool, s: Snap, s': Snap, r: FileRec, r': FileRec, sect: nat, ofs: nat, info: int, op: Op, was: bool, marked: bool)
    requires Done(g, reliable, s, s', r, r', sect, ofs, info, op, was, marked) && AllClusters(g, r.chain)
    ensures ReservedUsed(g, s) ==> ReservedUsed(g, s')
  {
    hide FileInv, Durable, MirrorKept, Tidy, BytesKept, DeviceKept, NoneLost, Gained;
    if ReservedUsed(g, s) && !op.DoSync? {
      assert 0 !in r.chain && 1 !in r.chain;
      assert EntriesKept(g, s, s', r.chain);
    }
  }

  /** A call that reported no error keeps the group together. */
  lemma GroupDone(g: Geo, reliable: bool, s: Snap, s': Snap, rs: seq<FileRec>, ps: seq<Place>, info: int, i: nat, r': FileRec,
                  op: Op, was: bool, marked: bool)
    requires Group(g, s, rs, ps) && i < |rs| == |ps| && info < g.fatbase as int
    requires Done(g, reliable, s, s', rs[i], r', ps[i].sect, ps[i].ofs, info, op, was, marked)
    ensures Group(g, s', rs[i := r'], ps)
    ensures HasOneIn(g, s') ==> HasOneIn(g, s)
  {
    hide *;
    DoneParts(g, reliable, s, s', rs[i], r', ps[i].sect, ps[i].ofs, info, op, was, marked);
    if op.DoSync? {
      GroupSynced(g, reliable, s, s', rs, ps, info, i, r');
      FrameFat(g, reliable, s, s', ps[i].sect, ps[i].ofs, info, rs[i].chain);
      OnesSame(g, s, s');
    } else {
      GroupKept(g, reliable, s, s', rs, ps, i, r');
      InvParts(g, s', r');
      StepParts(g, reliable, s, s', rs[i].chain, r'.chain);
      OnesKept(g, reliable, s, s', rs[i].chain, r');
      OnesIn(g, s, s');
    }
  }

  ghost predicate HasOneIn(g: Geo, s: Snap) {
    Fits(g, s.view) && HasOne(FatOf(g, s.view))
  }

  lemma OnesSame(g: Geo, s: Snap, s': Snap)
    requires Fits(g, s.view) && Fits(g, s'.view) && FatOf(g, s'.view) == FatOf(g, s.view)
    ensures HasOneIn(g, s') ==> HasOneIn(g, s)
  {
  }

  lemma OnesIn(g: Geo, s: Snap, s': Snap)
    requires Fits(g, s.view) && Fits(g, s'.view) && (HasOne(FatOf(g, s'.view)) ==> HasOne(FatOf(g, s.view)))
    ensures HasOneIn(g, s') ==> HasOneIn(g, s)
  {
  }

  /** On FAT16 and FAT32: every chain stays tidy, not only that of the file at work. */
  lemma TidyDone(g: Geo, reliable: bool, s: Snap, s': Snap, rs: seq<FileRec>, ps: seq<Place>, info: int, i: nat, r': FileRec,
                 op: Op, was: bool, marked: bool)
    requires Group(g, s, rs, ps) && i < |rs| == |ps| && AllTidy(g, s, rs)
    requires Done(g, reliable, s, s', rs[i], r', ps[i].sect, ps[i].ofs, info, op, was, marked)
    ensures AllTidy(g, s', rs[i := r'])
  {
    hide *;
    DoneParts(g, reliable, s, s', rs[i], r', ps[i].sect, ps[i].ofs, info, op, was, marked);
    GroupAt(g, s, rs, ps, i);
    TidyAt(g, s, rs, i);
    var qs := rs[i := r'];
    forall j | 0 <= j < |qs|
      ensures Tidy(g, s', qs[j].chain)
    {
      GroupAt(g, s, rs, ps, j);
      TidyAt(g, s, rs, j);
      if op.DoSync? {
        FrameSafe(g, reliable, s, s', ps[i].sect, ps[i].ofs, info, rs[i].chain);
        FrameFat(g, reliable, s, s', ps[i].sect, ps[i].ofs, info, rs[i].chain);
        TidySame(g, s, s', rs[j].chain);
      } else if j != i {
        GroupPair(g, s, rs, ps, i, j);
        OtherFileTidy(g, reliable, s, s', rs[i].chain, r', rs[j]);
      } else {
        StepSafe(g, reliable, s, s', rs[i].chain, r'.chain);
      }
    }
    TidyOf(g, s', qs);
  }

  lemma TidyAt(g: Geo, s: Snap, rs: seq<FileRec>, i: nat)
    requires AllTidy(g, s, rs) && i < |rs|
    ensures Tidy(g, s, rs[i].chain)
  {
  }

  lemma TidyOf(g: Geo, s: Snap, rs: seq<FileRec>)
    requires forall i :: 0 <= i < |rs| ==> Tidy(g, s, rs[i].chain)
    ensures AllTidy(g, s, rs)
  {
  }

  /** The device keeps what it can recover. */
  lemma SavedDone(g: Geo, reliable: bool, s: Snap, s': Snap, rs: seq<FileRec>, ps: seq<Place>, marks: seq<bool>, info: int, i: nat, r': FileRec,
                  op: Op, marked: bool)
    requires Group(g, s, rs, ps) && i < |rs| == |ps| == |marks| && info < g.fatbase as int && Saved(g, s, rs, ps, marks)
    requires Done(g, reliable, s, s', rs[i], r', ps[i].sect, ps[i].ofs, info, op, marks[i], marked)
    ensures Saved(g, s', rs[i := r'], ps, marks[i := marked])
  {
    hide *;
    DoneParts(g, reliable, s, s', rs[i], r', ps[i].sect, ps[i].ofs, info, op, marks[i], marked);
    GroupAt(g, s, rs, ps, i);
    InvClusters(g, s, rs[i]);
    SavedAt(g, s, rs, ps, marks, i);
    var qs, ms := rs[i := r'], marks[i := marked];
    forall j | 0 <= j < |rs|
      ensures ms[j] || Durable(g, s', ps[j].sect, ps[j].ofs, qs[j])
    {
      SavedAt(g, s, rs, ps, marks, j);
      if j != i && !marks[j] {
        GroupAt(g, s, rs, ps, j);
        GroupPair(g, s, rs, ps, i, j);
        if op.DoSync? {
          PlaceOutside(g, s, rs[j], ps[i], info);
          PlaceOutside(g, s, rs[i], ps[j], info);
          ApartPlaces(ps[i], ps[j]);
          DurableSynced(g, reliable, s, s', ps[i].sect, ps[i].ofs, info, rs[i].chain, ps[j].sect, ps[j].ofs, rs[j]);
        } else {
          DurableOther(g, reliable, s, s', rs[i].chain, r'.chain, ps[j].sect, ps[j].ofs, ps[j].dc, rs[j]);
        }
      }
    }
    SavedOf(g, s', qs, ps, ms);
  }

  lemma ApartPlaces(a: Place, b: Place)
    requires PlacesApart(a, b)
    ensures b.sect == a.sect ==> b.ofs + 32 <= a.ofs || a.ofs + 32 <= b.ofs
  {
  }

  lemma SavedAt(g: Geo, s: Snap, rs: seq<FileRec>, ps: seq<Place>, marks: seq<bool>, i: nat)
    requires |rs| == |ps| == |marks| && Saved(g, s, rs, ps, marks) && i < |rs|
    ensures marks[i] || Durable(g, s, ps[i].sect, ps[i].ofs, rs[i])
  {
  }

  lemma SavedOf(g: Geo, s: Snap, rs: seq<FileRec>, ps: seq<Place>, marks: seq<bool>)
    requires |rs| == |ps| == |marks|
    requires forall i :: 0 <= i < |rs| ==> marks[i] || Durable(g, s, ps[i].sect, ps[i].ofs, rs[i])
    ensures Saved(g, s, rs, ps, marks)
  {
  }

  /** What a file needs to join: a sound chain apart from the others, an entry apart from
      theirs. */
  lemma GroupJoined(g: Geo, s: Snap, rs: seq<FileRec>, ps: seq<Place>, r: FileRec, p: Place)
    requires Group(g, s, rs, ps) && FileInv(g, s, r) && EntryAt(g, s.view, p.sect, p.ofs) && EntryApart(g, s.view, p.sect, p.dc, r.chain)
    requires forall i :: 0 <= i < |rs| ==>
               && Disjoint(rs[i].chain, r.chain) && PlacesApart(ps[i], p)
               && EntryApart(g, s.view, p.sect, p.dc, rs[i].chain) && EntryApart(g, s.view, ps[i].sect, ps[i].dc, r.chain)
    ensures Group(g, s, rs + [r], ps + [p])
  {
    hide FileInv, EntryApart, EntryAt, Disjoint, PlacesApart;
  }

  /** On a safe FAT a chain is apart from the others if it is headed by a cluster nobody
      links to and none of them starts with. */
  lemma TidyJoins(g: Geo, s: Snap, rs: seq<FileRec>, r: FileRec)
    requires Forest(g, s, rs) && FileInv(g, s, r) && AllTidy(g, s, rs) && Tidy(g, s, r.chain)
    requires r.chain != [] ==> forall i :: 0 <= i < |rs| ==> rs[i].sclust != r.sclust
    ensures forall i :: 0 <= i < |rs| ==> Disjoint(rs[i].chain, r.chain)
    ensures AllTidy(g, s, rs + [r])
  {
    hide FileInv, Tidy;
    forall i | 0 <= i < |rs|
      ensures Disjoint(rs[i].chain, r.chain)
    {
      TidyFilesDisjoint(g, s, rs[i], r);
    }
  }

  // ---- open files ----

  ghost function Recs(files: seq<File>): (rs: seq<FileRec>)
    reads files
    ensures |rs| == |files| && forall i :: 0 <= i < |files| ==> rs[i] == files[i].Rec()
  {
    if files == [] then [] else Recs(files[..|files| - 1]) + [files[|files| - 1].Rec()]
  }

  ghost function Marks(files: seq<File>): (ms: seq<bool>)
    reads files
    ensures |ms| == |files| && forall i :: 0 <= i < |files| ==> ms[i] == files[i].modified
  {
    if files == [] then [] else Marks(files[..|files| - 1]) + [files[|files| - 1].modified]
  }

  /** Different objects on one volume, none of them aborted, at these places. */
  ghost predicate OpenOn(fs: Volume, files: seq<File>, ps: seq<Place>)
    reads files
  {
    && |ps| == |files|
    && (forall i, j :: 0 <= i < j < |files| ==> files[i] != files[j])
    && forall i :: 0 <= i < |files| ==>
         && files[i].fs == fs && files[i].err == FrOk && (files[i].dirty ==> files[i].modified)
         && files[i].dirSect == ps[i].sect && files[i].dirOfs == ps[i].ofs
  }

  /** What holds between calls as long as no call has failed: the open files are a group,
      and the device alone recovers each that is not marked modified. */
  ghost predicate Session(fs: Volume, files: seq<File>, ps: seq<Place>)
    reads fs, files
  {
    && OpenOn(fs, files, ps) && fs.Valid() && Accurate(fs.Fat(), fs.freeClst)
    && Group(fs.g, fs.Now(), Recs(files), ps)
    && Saved(fs.g, fs.Now(), Recs(files), ps, Marks(files))
  }

  lemma OpenAt(fs: Volume, files: seq<File>, ps: seq<Place>, i: nat)
    requires OpenOn(fs, files, ps) && i < |files|
    ensures |ps| == |files| && files[i].fs == fs && files[i].err == FrOk && (files[i].dirty ==> files[i].modified)
    ensures files[i].dirSect == ps[i].sect && files[i].dirOfs == ps[i].ofs
  {
  }

  /** Each open file is valid, and knows that its entry does not lie in it. */
  lemma SessionAt(fs: Volume, files: seq<File>, ps: seq<Place>, i: nat)
    requires Session(fs, files, ps) && i < |files|
    ensures files[i].Valid() && files[i].fs == fs && files[i].err == FrOk
    ensures files[i].dirSect == ps[i].sect && files[i].dirOfs == ps[i].ofs
    ensures EntryAt(fs.g, fs.View(), files[i].dirSect, files[i].dirOfs)
    ensures EntryApart(fs.g, fs.View(), files[i].dirSect, ps[i].dc, files[i].chain)
  {
    SessionParts(fs, files, ps);
    hide *;
    OpenAt(fs, files, ps, i);
    GroupAt(fs.g, fs.Now(), Recs(files), ps, i);
    InvOk(fs.g, fs.Now(), files[i].Rec());
    assert files[i].Rec().chain == files[i].chain;
    assert files[i].Rec().dirty == files[i].dirty;
    assert files[i].Ready();
    assert files[i].Valid();
  }

  lemma SessionParts(fs: Volume, files: seq<File>, ps: seq<Place>)
    requires Session(fs, files, ps)
    ensures OpenOn(fs, files, ps) && fs.Valid() && Accurate(fs.Fat(), fs.freeClst) && |ps| == |files|
    ensures Group(fs.g, fs.Now(), Recs(files), ps)
    ensures Saved(fs.g, fs.Now(), Recs(files), ps, Marks(files))
  {
  }

  lemma SessionOf(fs: Volume, files: seq<File>, ps: seq<Place>)
    requires OpenOn(fs, files, ps) && fs.Valid() && Accurate(fs.Fat(), fs.freeClst)
    requires Group(fs.g, fs.Now(), Recs(files), ps)
    requires Saved(fs.g, fs.Now(), Recs(files), ps, Marks(files))
    ensures Session(fs, files, ps)
  {
  }

  ghost function Plains(files: seq<File>): (qs: seq<Plain>)
    reads files
    ensures |qs| == |files| && forall i :: 0 <= i < |files| ==> qs[i] == PlainOf(files[i].Rec())
  {
    if files == [] then [] else Plains(files[..|files| - 1]) + [PlainOf(files[|files| - 1].Rec())]
  }

  datatype Call = Call(who: nat, op: Op)

  ghost predicate Sensible(calls: seq<Call>, n: nat) {
    forall t :: 0 <= t < |calls| ==> calls[t].who < n && (calls[t].op.DoWrite? ==> |calls[t].op.data| < 0x1_0000_0000)
  }

  lemma SensibleAt(calls: seq<Call>, n: nat, t: nat)
    requires Sensible(calls, n) && t < |calls|
    ensures calls[t].who < n && (calls[t].op.DoWrite? ==> |calls[t].op.data| < 0x1_0000_0000)
    ensures Sensible([calls[t]], n)
  {
  }

  /** The file called answers as its own byte string; the others stay what they are. */
  ghost predicate Answered(files: seq<File>, call: Call, reply: Reply, q: seq<Plain>, q': seq<Plain>, free: nat) {
    && |q| == |q'| == |files| && call.who < |files|
    && Answers(q[call.who], call.op, reply, q'[call.who], files[call.who].canRead, files[call.who].canWrite, free)
    && forall j :: 0 <= j < |files| && j != call.who ==> q'[j] == q[j]
  }

  lemma AnsweredOf(files: seq<File>, call: Call, reply: Reply, q: seq<Plain>, q': seq<Plain>, free: nat)
    requires |q| == |q'| == |files| && call.who < |files|
    requires Answers(q[call.who], call.op, reply, q'[call.who], files[call.who].canRead, files[call.who].canWrite, free)
    requires forall j :: 0 <= j < |files| && j != call.who ==> q'[j] == q[j]
    ensures Answered(files, call, reply, q, q', free)
  {
  }

  lemma ValidParts(f: File)
    requires f.Valid()
    ensures f.fs.Valid() && (f.err == FrOk ==> Accurate(f.fs.Fat(), f.fs.freeClst) && (f.dirty ==> f.modified))
  {
  }

  lemma OnesFat(g: Geo, s: Snap)
    requires Fits(g, s.view)
    ensures HasOne(FatOf(g, s.view)) ==> HasOneIn(g, s)
  {
  }

  /** The facts about the open files one by one, for work on file i. */
  lemma OpenFacts(fs: Volume, files: seq<File>, ps: seq<Place>, i: nat)
    requires OpenOn(fs, files, ps) && i < |files|
    ensures |ps| == |files|
    ensures forall j :: 0 <= j < |files| ==>
              && files[j].fs == fs && files[j].err == FrOk && (files[j].dirty ==> files[j].modified)
              && files[j].dirSect == ps[j].sect && files[j].dirOfs == ps[j].ofs && (j != i ==> files[j] != files[i])
    ensures forall j, k :: 0 <= j < k < |files| ==> files[j] != files[k]
  {
  }

  lemma OpenOf(fs: Volume, files: seq<File>, ps: seq<Place>)
    requires |ps| == |files|
    requires forall i, j :: 0 <= i < j < |files| ==> files[i] != files[j]
    requires forall i :: 0 <= i < |files| ==>
               && files[i].fs == fs && files[i].err == FrOk && (files[i].dirty ==> files[i].modified)
               && files[i].dirSect == ps[i].sect && files[i].dirOfs == ps[i].ofs
    ensures OpenOn(fs, files, ps)
  {
  }

  /** A call changes no other file object. */
  method PerformAt(fs: Volume, files: seq<File>, ghost ps: seq<Place>, i: nat, op: Op) returns (res: FResult, reply: Reply)
    requires OpenOn(fs, files, ps) && i < |files| && files[i].Valid() && (op.DoWrite? ==> |op.data| < 0x1_0000_0000)
    requires op.DoCount? ==> Countable(fs.g, fs.Now(), fs.freeClst)
    requires EntryAt(fs.g, fs.View(), files[i].dirSect, files[i].dirOfs)
    requires EntryApart(fs.g, fs.View(), files[i].dirSect, ps[i].dc, files[i].chain)
    modifies fs, files[i]
    ensures fs.Valid()
    ensures res == FrOk ==>
              && OpenOn(fs, files, ps) && Accurate(fs.Fat(), fs.freeClst)
              && Recs(files) == old(Recs(files))[i := files[i].Rec()]
              && Marks(files) == old(Marks(files))[i := files[i].modified]
              && Plains(files) == old(Plains(files))[i := PlainOf(files[i].Rec())]
              && Answers(PlainOf(old(files[i].Rec())), op, reply, PlainOf(files[i].Rec()), files[i].canRead, files[i].canWrite, CountFree(fs.Fat()))
              && Done(fs.g, fs.reliable, old(fs.Now()), fs.Now(), old(files[i].Rec()), files[i].Rec(), ps[i].sect, ps[i].ofs, fs.FsInfo(),
                      op, old(files[i].modified), files[i].modified)
    ensures op.DoSync? ==> res != FrIntErr && (res == FrOk && old(files[i].modified) ==> fs.Flushed())
    ensures res == FrOk || (res == FrIntErr && HasOne(old(fs.Fat()))) || (res == FrDiskErr && !fs.reliable)
    ensures Tidy(fs.g, old(fs.Now()), old(files[i].chain)) ==> SafeNow(fs.g, fs.Now())
  {
    hide *;
    var f := files[i];
    ghost var rs0, ms0, q0 := Recs(files), Marks(files), Plains(files);
    OpenFacts(fs, files, ps, i);
    res, reply := Perform(f, op, ps[i].dc);
    ValidParts(f);
    if res == FrOk {
      assert Recs(files) == rs0[i := f.Rec()];
      assert Marks(files) == ms0[i := f.modified];
      assert Plains(files) == q0[i := PlainOf(f.Rec())];
      OpenOf(fs, files, ps);
    }
  }

  /** One call on one of the open files. */
  method CallOne(fs: Volume, files: seq<File>, ghost ps: seq<Place>, call: Call) returns (res: FResult, reply: Reply)
    requires Session(fs, files, ps) && Sensible([call], |files|) && (call.op.DoCount? ==> Countable(fs.g, fs.Now(), fs.freeClst))
    modifies fs, files
    ensures fs.Valid()
    ensures res == FrOk ==>
              && Session(fs, files, ps) && MirrorKept(fs.g, fs.reliable, old(fs.Now()).dev, fs.Now().dev)
              && (ReservedUsed(fs.g, old(fs.Now())) ==> ReservedUsed(fs.g, fs.Now()))
              && Answered(files, call, reply, old(Plains(files)), Plains(files), CountFree(fs.Fat()))
              && (call.op.DoSync? ==> call.who < |files| && !files[call.who].modified)
              && (call.op.DoSync? && call.who < |files| && old(Marks(files))[call.who] ==> fs.Flushed())
              && (HasOneIn(fs.g, fs.Now()) ==> HasOneIn(fs.g, old(fs.Now())))
              && (AllTidy(fs.g, old(fs.Now()), old(Recs(files))) ==> AllTidy(fs.g, fs.Now(), Recs(files)))
    ensures res == FrOk || (res == FrIntErr && HasOneIn(fs.g, old(fs.Now()))) || (res == FrDiskErr && !fs.reliable)
    ensures call.op.DoSync? ==> res != FrIntErr
    ensures AllTidy(fs.g, old(fs.Now()), old(Recs(files))) ==> SafeNow(fs.g, fs.Now())
  {
    hide *;
    CallReady(fs, files, ps, call);
    ghost var s0, rs0, ms0, q0 := fs.Now(), Recs(files), Marks(files), Plains(files);
    res, reply := PerformAt(fs, files, ps, call.who, call.op);
    if res != FrOk { return; }
    AnsweredOf(files, call, reply, q0, Plains(files), CountFree(fs.Fat()));
    CallDone(fs, files, ps, call, s0, rs0, ms0);
  }

  lemma FileParts(f: File)
    ensures f.Rec().chain == f.chain
  {
  }

  lemma CallReady(fs: Volume, files: seq<File>, ps: seq<Place>, call: Call)
    requires Session(fs, files, ps) && Sensible([call], |files|)
    ensures fs.Valid()
    ensures var i, s := call.who, fs.Now();
            && i < |files| && (call.op.DoWrite? ==> |call.op.data| < 0x1_0000_0000)
            && OpenOn(fs, files, ps) && |ps| == |files| && files[i].Valid()
            && EntryAt(fs.g, fs.View(), files[i].dirSect, files[i].dirOfs) && EntryApart(fs.g, fs.View(), files[i].dirSect, ps[i].dc, files[i].chain)
            && Group(fs.g, s, Recs(files), ps) && Saved(fs.g, s, Recs(files), ps, Marks(files))
            && (AllTidy(fs.g, s, Recs(files)) ==> Tidy(fs.g, s, files[i].chain))
            && (HasOne(fs.Fat()) ==> HasOneIn(fs.g, s))
  {
    SensibleAt([call], |files|, 0);
    hide *;
    SessionParts(fs, files, ps);
    SessionAt(fs, files, ps, call.who);
    OnesFat(fs.g, fs.Now());
    if AllTidy(fs.g, fs.Now(), Recs(files)) { TidyAt(fs.g, fs.Now(), Recs(files), call.who); }
    FileParts(files[call.who]);
  }

  /** What holds between calls holds again. */
  lemma CallDone(fs: Volume, files: seq<File>, ps: seq<Place>, call: Call, s0: Snap, rs0: seq<FileRec>, ms0: seq<bool>)
    requires OpenOn(fs, files, ps)
    requires fs.Valid() && Accurate(fs.Fat(), fs.freeClst)
    requires |rs0| == |ms0| == |files| == |ps| && call.who < |files| && Group(fs.g, s0, rs0, ps) && Saved(fs.g, s0, rs0, ps, ms0)
    requires var i := call.who;
             && Recs(files) == rs0[i := files[i].Rec()] && Marks(files) == ms0[i := files[i].modified]
             && Done(fs.g, fs.reliable, s0, fs.Now(), rs0[i], files[i].Rec(), ps[i].sect, ps[i].ofs, fs.FsInfo(), call.op, ms0[i], files[i].modified)
    ensures Session(fs, files, ps) && (call.op.DoSync? ==> !files[call.who].modified)
    ensures HasOneIn(fs.g, fs.Now()) ==> HasOneIn(fs.g, s0)
    ensures AllTidy(fs.g, s0, rs0) ==> AllTidy(fs.g, fs.Now(), Recs(files))
    ensures MirrorKept(fs.g, fs.reliable, s0.dev, fs.Now().dev) && (ReservedUsed(fs.g, s0) ==> ReservedUsed(fs.g, fs.Now()))
  {
    hide *;
    var i, op := call.who, call.op;
    var s1, r1, info := fs.Now(), files[i].Rec(), fs.FsInfo();
    fs.InfoBeforeFats();
    GroupDone(fs.g, fs.reliable, s0, s1, rs0, ps, info, i, r1, op, ms0[i], files[i].modified);
    SavedDone(fs.g, fs.reliable, s0, s1, rs0, ps, ms0, info, i, r1, op, files[i].modified);
    if AllTidy(fs.g, s0, rs0) { TidyDone(fs.g, fs.reliable, s0, s1, rs0, ps, info, i, r1, op, ms0[i], files[i].modified); }
    DoneParts(fs.g, fs.reliable, s0, s1, rs0[i], r1, ps[i].sect, ps[i].ofs, info, op, ms0[i], files[i].modified);
    DoneMirror(fs.g, fs.reliable, s0, s1, rs0[i], r1, ps[i].sect, ps[i].ofs, info, op, ms0[i], files[i].modified);
    GroupAt(fs.g, s0, rs0, ps, i);
    InvClusters(fs.g, s0, rs0[i]);
    DoneReserved(fs.g, fs.reliable, s0, s1, rs0[i], r1, ps[i].sect, ps[i].ofs, info, op, ms0[i], files[i].modified);
    SessionOf(fs, files, ps);
  }

  // ---- whole runs ----

  /** qs[t] is what the files are before call t. */
  ghost predicate History(files: seq<File>, calls: seq<Call>, replies: seq<Reply>, qs: seq<seq<Plain>>, frees: seq<nat>) {
    && |qs| == |replies| + 1 && |frees| == |replies| <= |calls|
    && (forall t :: 0 <= t < |qs| ==> |qs[t]| == |files|)
    && forall t :: 0 <= t < |replies| ==> Answered(files, calls[t], replies[t], qs[t], qs[t + 1], frees[t])
  }

  lemma HistoryMore(files: seq<File>, calls: seq<Call>, replies: seq<Reply>, qs: seq<seq<Plain>>, frees: seq<nat>, reply: Reply, q: seq<Plain>, free: nat)
    requires History(files, calls, replies, qs, frees) && |replies| < |calls|
    requires Answered(files, calls[|replies|], reply, qs[|replies|], q, free)
    ensures History(files, calls, replies + [reply], qs + [q], frees + [free])
  {
    assert |q| == |files|;
    hide Answered;
  }

  lemma HistoryNone(files: seq<File>, calls: seq<Call>, q: seq<Plain>)
    requires |q| == |files|
    ensures History(files, calls, [], [q], [])
  {
  }

  /** Some call of the run is f_getfree. */
  ghost predicate Counts(calls: seq<Call>) {
    exists t :: 0 <= t < |calls| && calls[t].op.DoCount?
  }

  /** What the next call of a run asks for. */
  lemma NextReady(fs: Volume, calls: seq<Call>, n: nat, t: nat)
    requires fs.Valid() && t < |calls| && Sensible(calls, n) && (Counts(calls) ==> ReservedUsed(fs.g, fs.Now()))
    ensures Sensible([calls[t]], n)
    ensures calls[t].op.DoCount? ==> Countable(fs.g, fs.Now(), fs.freeClst)
  {
    hide ReservedUsed;
  }

  lemma MirrorSame(fs: Volume)
    requires fs.Valid()
    ensures MirrorKept(fs.g, fs.reliable, fs.Now().dev, fs.Now().dev)
  {
  }

  /** Any run of calls on the open files, in any order: up to the first error each file
      answers as its own byte string, the files stay a forest of tidy chains, and after
      each f_sync and ever since the last change the device alone recovers the file. On a
      reliable volume without a stray 1 in its FAT there is no error, and a FAT #2 that was
      a copy of FAT #1 is one at the end. Whatever happens, no
      image the device ever holds has a link to a free cluster or to a cluster twice. */
  method RunMany(fs: Volume, files: seq<File>, ghost ps: seq<Place>, calls: seq<Call>)
      returns (res: FResult, replies: seq<Reply>, ghost qs: seq<seq<Plain>>, ghost frees: seq<nat>)
    requires Session(fs, files, ps) && Sensible(calls, |files|) && (Counts(calls) ==> ReservedUsed(fs.g, fs.Now()))
    modifies fs, files
    ensures fs.Valid()
    ensures History(files, calls, replies, qs, frees) && qs[0] == old(Plains(files))
    ensures res == FrOk ==>
              && |replies| == |calls| && qs[|calls|] == Plains(files) && Session(fs, files, ps)
              && MirrorKept(fs.g, fs.reliable, old(fs.Now()).dev, fs.Now().dev)
              && (ReservedUsed(fs.g, old(fs.Now())) ==> ReservedUsed(fs.g, fs.Now()))
              && (HasOneIn(fs.g, fs.Now()) ==> HasOneIn(fs.g, old(fs.Now())))
              && (AllTidy(fs.g, old(fs.Now()), old(Recs(files))) ==> AllTidy(fs.g, fs.Now(), Recs(files)))
    ensures res == FrOk || (res == FrIntErr && HasOneIn(fs.g, old(fs.Now()))) || (res == FrDiskErr && !fs.reliable)
    ensures files != [] && AllTidy(fs.g, old(fs.Now()), old(Recs(files))) ==> SafeNow(fs.g, fs.Now())
  {
    hide *;
    SessionParts(fs, files, ps);
    ghost var s0, rs0 := fs.Now(), Recs(files);
    res, replies, qs, frees := FrOk, [], [Plains(files)], [];
    HistoryNone(files, calls, Plains(files));
    MirrorSame(fs);
    var i := 0;
    while i < |calls|
      invariant Session(fs, files, ps) && fs.Valid() && res == FrOk && i == |replies| == |frees| <= |calls| && |qs| == i + 1
      invariant qs[0] == old(Plains(files)) && qs[i] == Plains(files)
      invariant History(files, calls, replies, qs, frees)
      invariant HasOneIn(fs.g, fs.Now()) ==> HasOneIn(fs.g, s0)
      invariant AllTidy(fs.g, s0, rs0) ==> AllTidy(fs.g, fs.Now(), Recs(files))
      invariant MirrorKept(fs.g, fs.reliable, s0.dev, fs.Now().dev) && (ReservedUsed(fs.g, s0) ==> ReservedUsed(fs.g, fs.Now()))
    {
      NextReady(fs, calls, |files|, i);
      ghost var dev := fs.Now().dev;
      var reply;
      res, reply := CallOne(fs, files, ps, calls[i]);
      if res != FrOk { return; }
      SessionParts(fs, files, ps);
      MirrorTrans(fs.g, fs.reliable, s0.dev, dev, fs.Now().dev);
      HistoryMore(files, calls, replies, qs, frees, reply, Plains(files), CountFree(fs.Fat()));
      replies, qs, frees := replies + [reply], qs + [Plains(files)], frees + [CountFree(fs.Fat())];
      i := i + 1;
    }
    if files != [] && AllTidy(fs.g, fs.Now(), Recs(files)) {
      TidyAt(fs.g, fs.Now(), Recs(files), 0);
      SafeOfTidy(fs.g, fs.Now(), Recs(files)[0].chain);
    }
  }

  // ---- what one file saw of a run ----

  /** The members of xs that belong to calls on file k. */
  function Own<T>(calls: seq<Call>, xs: seq<T>, k: nat): (r: seq<T>)
    requires |xs| <= |calls|
  {
    if xs == [] then []
    else Own(calls, xs[..|xs| - 1], k) + if calls[|xs| - 1].who == k then [xs[|xs| - 1]] else []
  }

  /** Own picks exactly the calls on file k, in order. */
  lemma {:induction false} OwnPlaces<T>(calls: seq<Call>, xs: seq<T>, k: nat) returns (ts: seq<nat>)
    requires |xs| <= |calls|
    ensures |ts| == |Own(calls, xs, k)|
    ensures forall i :: 0 <= i < |ts| ==> ts[i] < |xs| && calls[ts[i]].who == k && Own(calls, xs, k)[i] == xs[ts[i]]
    ensures forall i, j :: 0 <= i < j < |ts| ==> ts[i] < ts[j]
    ensures forall t: nat :: t < |xs| && calls[t].who == k ==> t in ts
  {
    if xs == [] {
      ts := [];
    } else {
      var m := |xs| - 1;
      ts := OwnPlaces(calls, xs[..m], k);
      if calls[m].who == k { ts := ts + [m]; }
    }
  }

  /** qs[i] answers ops[i] with replies[i] and becomes qs[i + 1]. */
  ghost predicate Trace(qs: seq<Plain>, calls: seq<Call>, replies: seq<Reply>, canRead: bool, canWrite: bool, frees: seq<nat>) {
    && |qs| == |replies| + 1 && |frees| == |replies| == |calls|
    && forall i :: 0 <= i < |replies| ==> Answers(qs[i], calls[i].op, replies[i], qs[i + 1], canRead, canWrite, frees[i])
  }

  /** The calls on one file, taken out of the run, are a trace of that file alone. */
  lemma {:induction false} OwnTrace(files: seq<File>, calls: seq<Call>, replies: seq<Reply>, qs: seq<seq<Plain>>, frees: seq<nat>, k: nat)
      returns (own: seq<Plain>)
    requires History(files, calls, replies, qs, frees) && k < |files|
    ensures Trace(own, Own(calls, calls[..|replies|], k), Own(calls, replies, k), files[k].canRead, files[k].canWrite, Own(calls, frees, k))
    ensures |own| == |Own(calls, replies, k)| + 1 && own[0] == qs[0][k] && own[|own| - 1] == qs[|replies|][k]
    decreases |replies|
  {
    if replies == [] {
      assert calls[..0] == [] && frees == [];
      own := [qs[0][k]];
    } else {
      var n := |replies| - 1;
      hide *;
      HistoryPrefix(files, calls, replies, qs, frees, n);
      own := OwnTrace(files, calls, replies[..n], qs[..n + 1], frees[..n], k);
      OwnStep(calls, replies, frees, k, n);
      if calls[n].who == k {
        TraceMore(own, Own(calls, calls[..n], k), Own(calls, replies[..n], k), files[k].canRead, files[k].canWrite, Own(calls, frees[..n], k),
                  calls[n], replies[n], qs[n + 1][k], frees[n]);
        own := own + [qs[n + 1][k]];
      }
    }
  }

  lemma HistoryPrefix(files: seq<File>, calls: seq<Call>, replies: seq<Reply>, qs: seq<seq<Plain>>, frees: seq<nat>, n: nat)
    requires History(files, calls, replies, qs, frees) && n + 1 == |replies|
    ensures |calls| > n && |frees| == n + 1 && |qs| == n + 2 && |qs[n]| == |qs[n + 1]| == |files|
    ensures History(files, calls, replies[..n], qs[..n + 1], frees[..n])
    ensures forall k :: 0 <= k < |files| ==>
              if calls[n].who == k then Answers(qs[n][k], calls[n].op, replies[n], qs[n + 1][k], files[k].canRead, files[k].canWrite, frees[n])
              else qs[n + 1][k] == qs[n][k]
  {
    assert Answered(files, calls[n], replies[n], qs[n], qs[n + 1], frees[n]);
    hide Answers;
  }

  /** What one more call adds to the calls, replies and counts of file k. */
  lemma OwnStep(calls: seq<Call>, replies: seq<Reply>, frees: seq<nat>, k: nat, n: nat)
    requires n + 1 == |replies| == |frees| <= |calls|
    ensures if calls[n].who == k then
              && Own(calls, calls[..n + 1], k) == Own(calls, calls[..n], k) + [calls[n]]
              && Own(calls, replies, k) == Own(calls, replies[..n], k) + [replies[n]]
              && Own(calls, frees, k) == Own(calls, frees[..n], k) + [frees[n]]
            else
              && Own(calls, calls[..n + 1], k) == Own(calls, calls[..n], k)
              && Own(calls, replies, k) == Own(calls, replies[..n], k)
              && Own(calls, frees, k) == Own(calls, frees[..n], k)
  {
    assert calls[..n + 1][..n] == calls[..n];
  }

  lemma TraceMore(qs: seq<Plain>, calls: seq<Call>, replies: seq<Reply>, canRead: bool, canWrite: bool, frees: seq<nat>,
                  call: Call, reply: Reply, q: Plain, free: nat)
    requires Trace(qs, calls, replies, canRead, canWrite, frees) && Answers(qs[|replies|], call.op, reply, q, canRead, canWrite, free)
    ensures Trace(qs + [q], calls + [call], replies + [reply], canRead, canWrite, frees + [free])
  {
    hide Answers;
  }

  // ---- opening one more ----

  /** The file object that f_open sets up, with the bytes the volume shows. */
  ghost function OpenedRec(g: Geo, v: Image, sclust: u32, size: u32, ch: seq<nat>): (r: FileRec)
    ensures r == FileRec(sclust, size, 0, 0, 0, r.buf, false, ch, r.content, 0)
  {
    FileRec(sclust, size, 0, 0, 0, seq(512, _ => 0), false, ch,
            if size <= 512 * |Sectors(g, ch)| && forall k :: 0 <= k < |Sectors(g, ch)| ==> Sectors(g, ch)[k] < |v| then OnDevice(g, v, ch, size) else [], 0)
  }

  /** What the directory entry at p must be for the file to be opened beside the others: it
      describes a sound chain apart from theirs, lies apart from their entries and in none
      of the files, and the device shows the same file as the volume. */
  ghost predicate Openable(fs: Volume, files: seq<File>, ps: seq<Place>, p: Place, sclust: u32, size: u32, ch: seq<nat>)
    requires fs.Valid() && |ps| == |files|
    reads fs, files
  {
    var g, s := fs.g, fs.Now();
    && Described(g, s, sclust, size, ch)
    && EntryAt(g, s.view, p.sect, p.ofs) && EntryApart(g, s.view, p.sect, p.dc, ch)
    && Durable(g, s, p.sect, p.ofs, OpenedRec(g, s.view, sclust, size, ch))
    && forall i :: 0 <= i < |files| ==>
         && Disjoint(files[i].chain, ch) && PlacesApart(ps[i], p)
         && EntryApart(g, s.view, p.sect, p.dc, files[i].chain) && EntryApart(g, s.view, ps[i].sect, ps[i].dc, ch)
  }

  /** Opening one more file keeps what holds between calls. */
  method OpenAlso(fs: Volume, files: seq<File>, ghost ps: seq<Place>, sclust: u32, size: u32, canRead: bool, canWrite: bool,
                  dirSect: u32, dirOfs: nat, ghost dc: nat, ghost ch: seq<nat>) returns (f: File)
    requires Session(fs, files, ps) && Openable(fs, files, ps, Place(dirSect, dirOfs, dc), sclust, size, ch)
    ensures fresh(f) && f.fs == fs && f.canRead == canRead && f.canWrite == canWrite && f.dirSect == dirSect && f.dirOfs == dirOfs
    ensures Session(fs, files + [f], ps + [Place(dirSect, dirOfs, dc)])
    ensures f.fptr == 0 && f.objsize == size && f.chain == ch && !f.modified && f.Valid() && f.err == FrOk
    ensures f.Rec().content == OpenedRec(fs.g, fs.View(), sclust, size, ch).content
  {
    hide *;
    SessionParts(fs, files, ps);
    ghost var p := Place(dirSect, dirOfs, dc);
    ghost var s0, rs0, ms0 := fs.Now(), Recs(files), Marks(files);
    OpenableParts(fs, files, ps, p, sclust, size, ch);
    if files != [] { OpenFacts(fs, files, ps, 0); }
    f := new File.Open(fs, sclust, size, canRead, canWrite, dirSect, dirOfs, ch);
    OpenedIs(fs.g, s0.view, f.Rec(), sclust, size, ch);
    assert Recs(files + [f]) == rs0 + [f.Rec()];
    assert Marks(files + [f]) == ms0 + [false];
    forall i | 0 <= i < |files|
      ensures f != files[i]
    {
    }
    InvOk(fs.g, s0, f.Rec());
    assert f.Valid();
    GroupJoined(fs.g, s0, rs0, ps, f.Rec(), p);
    SavedJoined(fs.g, s0, rs0, ps, ms0, f.Rec(), OpenedRec(fs.g, s0.view, sclust, size, ch), p);
    OpenJoined(fs, files, ps, f, p);
    SessionOf(fs, files + [f], ps + [p]);
  }

  lemma OpenableParts(fs: Volume, files: seq<File>, ps: seq<Place>, p: Place, sclust: u32, size: u32, ch: seq<nat>)
    requires fs.Valid() && |ps| == |files| && Openable(fs, files, ps, p, sclust, size, ch)
    ensures var g, s := fs.g, fs.Now();
            && Described(g, s, sclust, size, ch)
            && EntryAt(g, s.view, p.sect, p.ofs) && EntryApart(g, s.view, p.sect, p.dc, ch)
            && Durable(g, s, p.sect, p.ofs, OpenedRec(g, s.view, sclust, size, ch))
            && forall i :: 0 <= i < |files| ==>
                 && Disjoint(Recs(files)[i].chain, ch) && PlacesApart(ps[i], p)
                 && EntryApart(g, s.view, p.sect, p.dc, Recs(files)[i].chain) && EntryApart(g, s.view, ps[i].sect, ps[i].dc, ch)
  {
    hide EntryApart, EntryAt, Disjoint, PlacesApart, Durable, Described;
    forall i | 0 <= i < |files|
      ensures Recs(files)[i].chain == files[i].chain
    {
    }
  }

  lemma OpenedIs(g: Geo, v: Image, r: FileRec, sclust: u32, size: u32, ch: seq<nat>)
    requires r.sclust == sclust && r.objsize == size <= 512 * |Sectors(g, ch)| && r.chain == ch
    requires (forall k :: 0 <= k < |Sectors(g, ch)| ==> Sectors(g, ch)[k] < |v|) && r.content == OnDevice(g, v, ch, size)
    ensures OpenedRec(g, v, sclust, size, ch).content == r.content
  {
  }

  lemma SavedJoined(g: Geo, s: Snap, rs: seq<FileRec>, ps: seq<Place>, ms: seq<bool>, r: FileRec, o: FileRec, p: Place)
    requires |rs| == |ps| == |ms| && Saved(g, s, rs, ps, ms) && Durable(g, s, p.sect, p.ofs, o)
    requires r.chain == o.chain && r.content == o.content && r.sclust == o.sclust && r.objsize == o.objsize
    ensures Saved(g, s, rs + [r], ps + [p], ms + [false])
  {
    DurableMoved(g, s, p.sect, p.ofs, o, r);
    hide Durable;
  }

  lemma OpenJoined(fs: Volume, files: seq<File>, ps: seq<Place>, f: File, p: Place)
    requires OpenOn(fs, files, ps) && (forall i :: 0 <= i < |files| ==> f != files[i])
    requires f.fs == fs && f.err == FrOk && !f.dirty && f.dirSect == p.sect && f.dirOfs == p.ofs
    ensures OpenOn(fs, files + [f], ps + [p])
  {
  }
}
