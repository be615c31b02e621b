/** f_sync, as values: what the device alone says about a file once it is synchronised,
    and what becomes of the rest of the volume. */
module FileSync {
  import opened Base
  import opened FatTable
  import opened Chains
  import opened Geometry
  import opened DirEntry
  import opened FileData
  import opened FileLayout
  import opened FileSteps
  import opened FileTurns

  /** The directory entry lies behind the FATs: in the root directory area or in a cluster. */
  predicate EntryAt(g: Geo, v: Image, sect: nat, ofs: nat) {
    ofs + 32 <= 512 && g.fatbase + g.FatSectors() <= sect < |v|
  }

  /** It does not lie in the file itself: it is in the root directory area, or in a used
      cluster dc of another chain. */
  ghost predicate EntryApart(g: Geo, v: Image, sect: nat, dc: nat, ch: seq<nat>) {
    Fits(g, v) && (sect < g.database || (InCluster(g, dc, sect) && dc !in ch && FatOf(g, v)[dc] != 0))
  }

  /** The operations on the file leave its directory entry alone. */
  lemma EntryKept(g: Geo, reliable: bool, s: Snap, s': Snap, ch: seq<nat>, ch': seq<nat>, sect: nat, ofs: nat, dc: nat)
    requires FileStep(g, reliable, s, s', ch, ch') && EntryAt(g, s.view, sect, ofs) && EntryApart(g, s.view, sect, dc, ch)
    ensures EntryAt(g, s'.view, sect, ofs) && EntryApart(g, s'.view, sect, dc, ch') && s'.view[sect] == s.view[sect]
  {
    hide FatOf, Fits, Tidy, MirrorKept;
  }

  /** What the sectors of image v alone say: an entry with this start and size, a sound
      chain of the right length, and sectors that show the contents. */
  ghost predicate Recovered(g: Geo, v: Image, sect: nat, ofs: nat, r: FileRec) {
    && EntryAt(g, v, sect, ofs) && Fits(g, v)
    && StartOf(g.fsType, v[sect], ofs) == r.sclust && SizeOf(v[sect], ofs) == r.objsize == |r.content|
    && (r.chain == [] <==> r.sclust == 0)
    && (r.chain != [] ==> r.chain[0] == r.sclust && IsChain(FatOf(g, v), r.chain))
    && Shape(Bcs(g), |r.chain|, r.objsize, 0, 0)
    && (forall k :: 0 <= k < |Sectors(g, r.chain)| ==> Sectors(g, r.chain)[k] < |v| && Shows(r.content, k, v[Sectors(g, r.chain)[k]]))
  }

  /** Sector a is sector b but for the entry at ofs. */
  ghost predicate SameButEntry(a: Sector, b: Sector, ofs: nat) {
    forall i :: 0 <= i < 512 && !(ofs <= i < ofs + 32) ==> a[i] == b[i]
  }

  /** What f_sync may do to the directory sector, in the meaning and on the device. */
  ghost predicate EntryFrame(s: Snap, s': Snap, sect: int, ofs: nat) {
    && 0 <= sect < |s.view| == |s'.view| == |s.dev.disk| == |s'.dev.disk|
    && SameButEntry(s'.view[sect], s.view[sect], ofs)
    && (SameButEntry(s'.dev.disk[sect], s.dev.disk[sect], ofs) || SameButEntry(s'.dev.disk[sect], s.view[sect], ofs))
  }

  ghost predicate OthersFollow(g: Geo, s: Snap, s': Snap, sect: int, info: int) {
    && |s.view| == |s'.view| == |s.dev.disk| == |s'.dev.disk|
    && forall x :: 0 <= x < |s.view| && !g.InFats(x) && x != sect && x != info ==> SectorFollows(s, s', x)
  }

  /** What f_sync may do to the rest of the volume: in the meaning, nothing outside the
      file's sectors, its directory entry, the FSInfo sector and the mirror FAT changes; the
      device is only brought up to the meaning; and the window holds a sector it held
      before, the directory sector, the FSInfo sector, or none. */
  ghost predicate SyncFrame(g: Geo, reliable: bool, s: Snap, s': Snap, sect: int, ofs: nat, info: int, ch: seq<nat>) {
    && FatOfIs(g, s.view, s'.view) && |s'.view| == |s.view|
    && (forall x :: 0 <= x < |s.view| && !g.InFat2(x) && x != sect && x != info && x !in Sectors(g, ch) ==> s'.view[x] == s.view[x])
    && EntryFrame(s, s', sect, ofs) && OthersFollow(g, s, s', sect, info) && FatFollows(g, s, s')
    && (s'.winsect == s.winsect || s'.winsect == NOSECT || s'.winsect as int == sect || s'.winsect as int == info)
    && MirrorKept(g, reliable, s.dev, s'.dev)
    && (SafeNow(g, s) ==> SafeNow(g, s'))
  }

  lemma FrameRefl(g: Geo, reliable: bool, s: Snap, sect: int, ofs: nat, info: int, ch: seq<nat>)
    requires Fits(g, s.view) && Fits(g, s.dev.disk) && 0 <= sect < |s.view| == |s.dev.disk|
    ensures SyncFrame(g, reliable, s, s, sect, ofs, info, ch)
  {
  }

  /** Writing the buffer back changes no sector outside the file. */
  lemma SectorBeside(g: Geo, reliable: bool, s: Snap, s': Snap, r: FileRec, sect: int)
    requires FileCore(g, s, r) && r.dirty && DataStep(g, reliable, s, s', r.sect, [r.buf])
    requires sect !in Sectors(g, r.chain) && 0 <= sect < |s.view|
    ensures |s'.view| == |s.view| && s'.view[sect] == s.view[sect]
  {
    hide *;
    var k := DirtySector(g, s, r);
    DataStepParts(g, reliable, s, s', r.sect, [r.buf]);
    NotMember(Sectors(g, r.chain), k, sect);
    PatchedOne(s.view, r.sect, r.buf);
  }

  lemma FrameOfFlush(g: Geo, reliable: bool, s: Snap, s': Snap, r: FileRec, sect: int, ofs: nat, info: int)
    requires FileCore(g, s, r) && r.dirty && DataStep(g, reliable, s, s', r.sect, [r.buf])
    requires sect !in Sectors(g, r.chain) && 0 <= sect < |s.view|
    ensures SyncFrame(g, reliable, s, s', sect, ofs, info, r.chain)
  {
    hide *;
    var k := DirtySector(g, s, r);
    DataStepParts(g, reliable, s, s', r.sect, [r.buf]);
    PatchedOne(s.view, r.sect, r.buf);
    FlushOnDevice(g, reliable, s, s', r.sect, r.buf, sect, ofs);
    NotMember(Sectors(g, r.chain), k, sect);
    FrameOfOne(g, reliable, s, s', r, k, sect, ofs, info);
  }

  lemma FlushOnDevice(g: Geo, reliable: bool, s: Snap, s': Snap, x: nat, buf: Sector, sect: int, ofs: nat)
    requires DataStep(g, reliable, s, s', x, [buf]) && 0 <= sect < |s.view|
    ensures sect != x ==> EntryFrame(s, s', sect, ofs)
  {
    hide FatOf, Fits, SafeNow, MirrorKept, FatOfIs;
  }

  lemma FrameOfOne(g: Geo, reliable: bool, s: Snap, s': Snap, r: FileRec, k: nat, sect: int, ofs: nat, info: int)
    requires Fits(g, s.view) && Fits(g, s'.view) && FatOf(g, s'.view) == FatOf(g, s.view)
    requires MirrorKept(g, reliable, s.dev, s'.dev) && (SafeNow(g, s) ==> SafeNow(g, s'))
    requires SectorsFollow(g, s, s') && FatFollows(g, s, s') && s'.winsect == s.winsect && EntryFrame(s, s', sect, ofs)
    requires k < |Sectors(g, r.chain)| && Sectors(g, r.chain)[k] == r.sect < |s.view| && s'.view == s.view[r.sect := r.buf]
    ensures SyncFrame(g, reliable, s, s', sect, ofs, info, r.chain)
  {
    hide FatOf, Fits, SafeNow, MirrorKept, Sectors, FatFollows, EntryFrame, SectorFollows;
    assert r.sect in Sectors(g, r.chain);
  }

  /** Besides a write-back only the directory sector changed, and of that only the entry. */
  lemma FrameOfEntry(g: Geo, reliable: bool, s: Snap, s': Snap, sect: int, ofs: nat, info: int, ch: seq<nat>)
    requires MetaStep(g, reliable, s, s', sect) && 0 <= sect < |s.view|
    requires SameButEntry(s'.view[sect], s.view[sect], ofs)
    requires s'.dev.disk[sect] == s.dev.disk[sect] || s'.dev.disk[sect] == s.view[sect]
    requires s'.winsect == s.winsect || s'.winsect == NOSECT || s'.winsect as int == sect
    ensures SyncFrame(g, reliable, s, s', sect, ofs, info, ch)
  {
    hide FatOf, Fits, SafeNow, Sectors, MirrorKept, EntryFollows;
  }

  lemma FrameOfInfo(g: Geo, reliable: bool, s: Snap, s': Snap, sect: int, ofs: nat, info: int, ch: seq<nat>)
    requires MetaStep(g, reliable, s, s', info) && 0 <= sect < |s.view| && sect != info && !g.InFats(sect)
    requires s'.winsect == s.winsect || s'.winsect as int == info
    ensures SyncFrame(g, reliable, s, s', sect, ofs, info, ch)
  {
    hide FatOf, Fits, SafeNow, Sectors, MirrorKept, EntryFollows;
  }

  /** A directory or FSInfo sector is none of the file's. */
  lemma CoreMeta(g: Geo, reliable: bool, s: Snap, s': Snap, r: FileRec, x: int)
    requires FileCore(g, s, r) && MetaStep(g, reliable, s, s', x)
    requires x !in Sectors(g, r.chain) && s'.winsect !in Sectors(g, r.chain)
    ensures FileCore(g, s', r)
  {
    hide *;
    CoreParts(g, s, r);
    CoreFacts(g, s, r);
    MetaParts(g, reliable, s, s', x, r.chain);
    DataOfSecs(g, r);
    DataKept(s.view, s'.view, DataOf(g, r));
    CoreOf(g, s', r);
  }

  lemma MetaParts(g: Geo, reliable: bool, s: Snap, s': Snap, x: int, ch: seq<nat>)
    requires MetaStep(g, reliable, s, s', x) && x !in Sectors(g, ch)
    requires SecsInData(g, ch) && g.fatbase + g.FatSectors() <= g.database && g.Top() <= |s.view|
    ensures Fits(g, s'.view) && |s'.view| == |s.view| && FatOfIs(g, s.view, s'.view)
    ensures Fits(g, s.view) && FatOf(g, s.view) == FatOf(g, s'.view)
    ensures forall k :: 0 <= k < |Sectors(g, ch)| ==> s'.view[Sectors(g, ch)[k]] == s.view[Sectors(g, ch)[k]]
  {
    hide Sectors, Fits, FatOf, SafeNow, MirrorKept;
  }

  lemma EntryOutside(g: Geo, s: Snap, r: FileRec, sect: nat, dc: nat, info: int)
    requires FileCore(g, s, r) && EntryApart(g, s.view, sect, dc, r.chain) && info < g.fatbase as int
    ensures sect !in Sectors(g, r.chain) && info !in Sectors(g, r.chain) && NOSECT as int !in Sectors(g, r.chain)
  {
    CoreFacts(g, s, r);
    hide FileCore, Sectors, Fits, FatOf;
    if sect in Sectors(g, r.chain) { SectorNotInChain(g, r.chain, sect); }
  }

  lemma EntryFacts(g: Geo, v: Image, sect: nat, ofs: nat, info: int)
    requires EntryAt(g, v, sect, ofs) && info < g.fatbase as int && |v| < 0x1_0000_0000
    ensures ofs + 32 <= 512 && sect < |v| && !g.InFats(sect) && !g.InFat2(sect) && sect != info && sect != NOSECT
  {
  }

  /** After f_sync the device recovers the file. */
  lemma RecoveredOf(g: Geo, s: Snap, r: FileRec, sect: nat, ofs: nat, old_: Sector, time: u32)
    requires FileInv(g, s, r) && !r.dirty && EntryAt(g, s.view, sect, ofs)
    requires s.view[sect] == PutEntry(g.fsType, old_, ofs, r.sclust, r.objsize, time)
    ensures Recovered(g, s.view, sect, ofs, r)
  {
    InvParts(g, s, r);
    CoreHeads(g, s, r);
    CoreFacts(g, s, r);
    hide FatOf, Fits, PutEntry, StartOf, SizeOf, Sectors, IsChain;
    SmallClusters(g, s.view, r.sclust);
    EntryReadsBack(g.fsType, old_, ofs, r.sclust, r.objsize, time);
  }

  lemma SmallClusters(g: Geo, v: Image, c: nat)
    requires Fits(g, v) && c < g.nFatent
    ensures g.fsType != Fat32 ==> c < 65536
  {
  }

  /** Later metadata writes keep the entry. */
  lemma EntryStays(g: Geo, reliable: bool, s: Snap, s': Snap, x: int, sect: nat)
    requires MetaStep(g, reliable, s, s', x) && sect != x && !g.InFat2(sect) && sect < |s.view|
    ensures |s'.view| == |s.view| && s'.view[sect] == s.view[sect]
  {
  }

  lemma MetaFat(g: Geo, reliable: bool, s: Snap, s': Snap, x: int)
    requires MetaStep(g, reliable, s, s', x) && Fits(g, s.view) && Fits(g, s'.view)
    ensures FatOf(g, s'.view) == FatOf(g, s.view) && |s'.view| == |s.view|
  {
  }

  lemma EntryAtIs(g: Geo, v: Image, sect: nat, ofs: nat)
    requires EntryAt(g, v, sect, ofs)
    ensures ofs + 32 <= 512 && sect < |v|
  {
  }

  lemma EntryWritten(t: FatType, sec: Sector, ofs: nat, cl: u32, size: u32, time: u32)
    requires ofs + 32 <= 512
    ensures SameButEntry(PutEntry(t, sec, ofs, cl, size, time), sec, ofs) && SameButEntry(sec, sec, ofs)
  {
  }

  /** The directory entry is updated with these values, and only as f_sync does it. */
  ghost predicate EntrySet(g: Geo, v: Image, v': Image, sect: nat, ofs: nat, cl: u32, size: u32, time: u32) {
    sect < |v| == |v'| && ofs + 32 <= 512 && v'[sect] == PutEntry(g.fsType, v[sect], ofs, cl, size, time)
  }

  lemma EntrySetOf(g: Geo, v: Image, v0: Image, v': Image, sect: nat, ofs: nat, cl: u32, size: u32, time: u32)
    requires sect < |v| == |v0| == |v'| && ofs + 32 <= 512 && v0[sect] == v[sect] && v'[sect] == PutEntry(g.fsType, v[sect], ofs, cl, size, time)
    ensures EntrySet(g, v0, v', sect, ofs, cl, size, time)
  {
  }

  lemma EntrySetFrom(g: Geo, v: Image, v0: Image, v': Image, sect: nat, ofs: nat, cl: u32, size: u32, time: u32)
    requires EntrySet(g, v0, v', sect, ofs, cl, size, time) && sect < |v| == |v0| && v0[sect] == v[sect]
    ensures EntrySet(g, v, v', sect, ofs, cl, size, time)
  {
    hide PutEntry;
  }

  lemma EntryAtSame(g: Geo, v: Image, v': Image, sect: nat, ofs: nat)
    requires EntryAt(g, v, sect, ofs) && |v'| == |v|
    ensures EntryAt(g, v', sect, ofs)
  {
  }

  lemma ApartSame(g: Geo, v: Image, v': Image, sect: nat, dc: nat, ch: seq<nat>)
    requires EntryApart(g, v, sect, dc, ch) && Fits(g, v') && Fits(g, v) && FatOf(g, v') == FatOf(g, v)
    ensures EntryApart(g, v', sect, dc, ch)
  {
  }

  lemma SameLength(g: Geo, reliable: bool, s: Snap, s': Snap, r: FileRec)
    requires r.dirty ==> DataStep(g, reliable, s, s', r.sect, [r.buf])
    requires !r.dirty ==> s' == s
    ensures |s'.view| == |s.view|
  {
  }

  lemma InvFlushed(g: Geo, s: Snap, s': Snap, r: FileRec)
    requires FileInv(g, s, r) && FileCore(g, s', r.(dirty := false))
    ensures FileInv(g, s', r.(dirty := false))
  {
    hide FileCore;
  }

  lemma FrameTrans(g: Geo, reliable: bool, s: Snap, s': Snap, s'': Snap, sect: int, ofs: nat, info: int, ch: seq<nat>)
    requires SyncFrame(g, reliable, s, s', sect, ofs, info, ch) && SyncFrame(g, reliable, s', s'', sect, ofs, info, ch)
    ensures SyncFrame(g, reliable, s, s'', sect, ofs, info, ch)
  {
    FollowTrans(g, s, s', s'', sect, info);
    EntryTrans(s, s', s'', sect, ofs);
    hide FatOf, Fits, SafeNow, Sectors, OthersFollow, EntryFrame, FatFollows;
  }

  lemma EntryTrans(s: Snap, s': Snap, s'': Snap, sect: int, ofs: nat)
    requires EntryFrame(s, s', sect, ofs) && EntryFrame(s', s'', sect, ofs)
    ensures EntryFrame(s, s'', sect, ofs)
  {
  }

  lemma FollowTrans(g: Geo, s: Snap, s': Snap, s'': Snap, sect: int, info: int)
    requires OthersFollow(g, s, s', sect, info) && OthersFollow(g, s', s'', sect, info)
    requires FatFollows(g, s, s') && FatFollows(g, s', s'')
    ensures OthersFollow(g, s, s'', sect, info) && FatFollows(g, s, s'')
  {
    hide FatOf, Fits;
    forall x | 0 <= x < |s.view| && !g.InFats(x) && x != sect && x != info
      ensures SectorFollows(s, s'', x)
    {
      assert SectorFollows(s, s', x) && SectorFollows(s', s'', x);
    }
    forall c | 2 <= c < g.nFatent
      ensures EntryFollows(g, s, s'', c)
    {
      assert EntryFollows(g, s, s', c) && EntryFollows(g, s', s'', c);
    }
  }

  /** Reopening what f_sync left on the device finds the same file: f_open accepts the
      entry, and the bytes it sees agree with the contents wherever those are defined. */
  lemma ReopenFindsFile(g: Geo, v: Image, sect: nat, ofs: nat, r: FileRec)
    requires Recovered(g, v, sect, ofs, r)
    ensures Described(g, Snap(Device(v, []), v, NOSECT), r.sclust, r.objsize, r.chain)
    ensures r.objsize <= 512 * |Sectors(g, r.chain)|
    ensures var bytes := OnDevice(g, v, r.chain, r.objsize);
            forall p :: 0 <= p < r.objsize && r.content[p].Some? ==> bytes[p] == r.content[p]
  {
    hide *;
    RecoveredParts(g, v, sect, ofs, r);
    var bytes := OnDevice(g, v, r.chain, r.objsize);
    forall p | 0 <= p < r.objsize && r.content[p].Some?
      ensures bytes[p] == r.content[p]
    {
      RecoveredByte(g, v, r.chain, r.content, p);
    }
  }

  lemma RecoveredParts(g: Geo, v: Image, sect: nat, ofs: nat, r: FileRec)
    requires Recovered(g, v, sect, ofs, r)
    ensures Described(g, Snap(Device(v, []), v, NOSECT), r.sclust, r.objsize, r.chain)
    ensures r.objsize == |r.content| && r.objsize <= 512 * |Sectors(g, r.chain)|
    ensures forall k :: 0 <= k < |Sectors(g, r.chain)| ==> Sectors(g, r.chain)[k] < |v| && Shows(r.content, k, v[Sectors(g, r.chain)[k]])
  {
    GeoFacts(g, v);
    ChainClusters(g, v, r.chain);
    SecsInDataOf(g, r.chain);
    SectorsLen(g, r.chain);
    Bytes(g.csize, |r.chain|);
    hide FatOf, Fits, Sectors, IsChain, StartOf, SizeOf, Shows;
  }

  lemma RecoveredByte(g: Geo, v: Image, ch: seq<nat>, c: Content, p: nat)
    requires p < |c| <= 512 * |Sectors(g, ch)| && c[p].Some?
    requires forall k :: 0 <= k < |Sectors(g, ch)| ==> Sectors(g, ch)[k] < |v| && Shows(c, k, v[Sectors(g, ch)[k]])
    ensures OnDevice(g, v, ch, |c|)[p] == c[p]
  {
    hide Sectors;
    var k, j := p / 512, p % 512;
    assert Shows(c, k, v[Sectors(g, ch)[k]]);
    assert p == 512 * k + j;
  }

  // ---- durability ----

  /** The directory sector names this file: its start cluster and its size. */
  ghost predicate NamesFile(g: Geo, sec: Sector, ofs: nat, r: FileRec) {
    ofs + 32 <= 512 && StartOf(g.fsType, sec, ofs) == r.sclust && SizeOf(sec, ofs) == r.objsize
  }

  /** Both the volume and the device alone say what the file is. */
  ghost predicate Durable(g: Geo, s: Snap, sect: nat, ofs: nat, r: FileRec) {
    Recovered(g, s.view, sect, ofs, r) && Recovered(g, s.dev.disk, sect, ofs, r)
  }

  /** An image still says what a file is if each thing it says of the file is what one of
      two images says of which that holds. */
  lemma RecoveredStays(g: Geo, v: Image, d: Image, d': Image, sect: nat, ofs: nat, r: FileRec)
    requires Recovered(g, v, sect, ofs, r) && Recovered(g, d, sect, ofs, r)
    requires |d'| == |v| && Fits(g, d') && NamesFile(g, d'[sect], ofs, r)
    requires forall c :: c in r.chain ==> 2 <= c < g.nFatent && (FatOf(g, d')[c] == FatOf(g, d)[c] || FatOf(g, d')[c] == FatOf(g, v)[c])
    requires forall k :: 0 <= k < |Sectors(g, r.chain)| ==> Sectors(g, r.chain)[k] < |v| && Shows(r.content, k, d'[Sectors(g, r.chain)[k]])
    ensures Recovered(g, d', sect, ofs, r)
  {
    if r.chain != [] {
      hide *;
      RecoveredShows(g, v, sect, ofs, r);
      RecoveredShows(g, d, sect, ofs, r);
      ChainBlended(FatOf(g, d'), FatOf(g, d), FatOf(g, v), r.chain);
      RecoveredWith(g, v, d', sect, ofs, r);
    }
  }

  lemma ChainBlended(f: Fat, f1: Fat, f2: Fat, ch: seq<nat>)
    requires |f| == |f1| == |f2| && IsChain(f1, ch) && IsChain(f2, ch)
    requires forall c :: c in ch ==> c < |f| && (f[c] == f1[c] || f[c] == f2[c])
    ensures IsChain(f, ch)
  {
    forall i | 0 <= i < |ch|
      ensures ch[i] in ch
    {
    }
  }

  lemma RecoveredWith(g: Geo, v: Image, d: Image, sect: nat, ofs: nat, r: FileRec)
    requires Recovered(g, v, sect, ofs, r) && |d| == |v| && Fits(g, d) && NamesFile(g, d[sect], ofs, r)
    requires r.chain != [] ==> IsChain(FatOf(g, d), r.chain)
    requires forall k :: 0 <= k < |Sectors(g, r.chain)| ==> Sectors(g, r.chain)[k] < |v| && Shows(r.content, k, d[Sectors(g, r.chain)[k]])
    ensures Recovered(g, d, sect, ofs, r)
  {
    hide FatOf, Fits, IsChain, StartOf, SizeOf, Sectors, Shows;
  }

  lemma RecoveredShows(g: Geo, v: Image, sect: nat, ofs: nat, r: FileRec)
    requires Recovered(g, v, sect, ofs, r)
    ensures NamesFile(g, v[sect], ofs, r) && EntryAt(g, v, sect, ofs) && Fits(g, v) && !g.InFats(sect)
    ensures r.chain == [] || IsChain(FatOf(g, v), r.chain)
    ensures forall k :: 0 <= k < |Sectors(g, r.chain)| ==> Sectors(g, r.chain)[k] < |v| && Shows(r.content, k, v[Sectors(g, r.chain)[k]])
  {
  }

  /** The sectors of a chain lie outside the FATs. */
  lemma ChainOutside(g: Geo, v: Image, ch: seq<nat>)
    requires Fits(g, v) && (ch == [] || IsChain(FatOf(g, v), ch))
    ensures forall k :: 0 <= k < |Sectors(g, ch)| ==> Sectors(g, ch)[k] < |v| && !g.InFats(Sectors(g, ch)[k])
    ensures forall c :: c in ch ==> 2 <= c < g.nFatent && FatOf(g, v)[c] != 0
  {
    GeoFacts(g, v);
    ChainClusters(g, v, ch);
    SecsInDataOf(g, ch);
    hide Sectors, FatOf, Fits, IsChain;
  }

  /** Each sector of the file shows the contents still, if it only followed the meaning. */
  lemma FollowedShows(g: Geo, s: Snap, s': Snap, r: FileRec)
    requires |s.view| == |s'.view| == |s.dev.disk| == |s'.dev.disk|
    requires forall k :: 0 <= k < |Sectors(g, r.chain)| ==>
               && Sectors(g, r.chain)[k] < |s.view| && SectorFollows(s, s', Sectors(g, r.chain)[k])
               && Shows(r.content, k, s.view[Sectors(g, r.chain)[k]]) && Shows(r.content, k, s.dev.disk[Sectors(g, r.chain)[k]])
               && Shows(r.content, k, s'.view[Sectors(g, r.chain)[k]])
    ensures forall k :: 0 <= k < |Sectors(g, r.chain)| ==> Shows(r.content, k, s'.dev.disk[Sectors(g, r.chain)[k]])
  {
    hide Sectors, Shows;
  }

  lemma FollowedEntries(g: Geo, s: Snap, s': Snap, ch: seq<nat>)
    requires Fits(g, s.view) && Fits(g, s'.view) && Fits(g, s.dev.disk) && Fits(g, s'.dev.disk)
    requires forall c :: c in ch ==> 2 <= c < g.nFatent && EntryFollows(g, s, s', c)
    ensures forall c :: c in ch ==>
              && FatOf(g, s'.view)[c] == FatOf(g, s.view)[c]
              && (FatOf(g, s'.dev.disk)[c] == FatOf(g, s.dev.disk)[c] || FatOf(g, s'.dev.disk)[c] == FatOf(g, s.view)[c])
  {
    hide FatOf, Fits;
  }

  /** What both say stays so when the file's entries and sectors only follow the meaning. */
  lemma DurableStays(g: Geo, s: Snap, s': Snap, sect: nat, ofs: nat, r: FileRec)
    requires Durable(g, s, sect, ofs, r)
    requires |s.view| == |s'.view| == |s.dev.disk| == |s'.dev.disk| && Fits(g, s'.view) && Fits(g, s'.dev.disk)
    requires NamesFile(g, s'.view[sect], ofs, r) && NamesFile(g, s'.dev.disk[sect], ofs, r)
    requires forall c :: c in r.chain ==> 2 <= c < g.nFatent && EntryFollows(g, s, s', c)
    requires forall k :: 0 <= k < |Sectors(g, r.chain)| ==>
               Sectors(g, r.chain)[k] < |s.view| && SectorFollows(s, s', Sectors(g, r.chain)[k]) && Shows(r.content, k, s'.view[Sectors(g, r.chain)[k]])
    ensures Durable(g, s', sect, ofs, r)
  {
    DurableParts(g, s, sect, ofs, r);
    hide *;
    FollowedShows(g, s, s', r);
    FollowedEntries(g, s, s', r.chain);
    RecoveredStays(g, s.view, s.view, s'.view, sect, ofs, r);
    RecoveredStays(g, s.view, s.dev.disk, s'.dev.disk, sect, ofs, r);
    DurableOf(g, s', sect, ofs, r);
  }

  lemma DurableParts(g: Geo, s: Snap, sect: nat, ofs: nat, r: FileRec)
    requires Durable(g, s, sect, ofs, r)
    ensures Recovered(g, s.view, sect, ofs, r) && Recovered(g, s.dev.disk, sect, ofs, r)
    ensures Fits(g, s.view) && Fits(g, s.dev.disk) && sect < |s.view| && sect < |s.dev.disk| && !g.InFats(sect)
    ensures NamesFile(g, s.view[sect], ofs, r) && NamesFile(g, s.dev.disk[sect], ofs, r)
    ensures r.chain == [] || IsChain(FatOf(g, s.view), r.chain)
    ensures forall k :: 0 <= k < |Sectors(g, r.chain)| ==>
              && Sectors(g, r.chain)[k] < |s.view| && Shows(r.content, k, s.view[Sectors(g, r.chain)[k]])
              && Sectors(g, r.chain)[k] < |s.dev.disk| && Shows(r.content, k, s.dev.disk[Sectors(g, r.chain)[k]])
  {
    RecoveredShows(g, s.view, sect, ofs, r);
    RecoveredShows(g, s.dev.disk, sect, ofs, r);
  }

  lemma DurableOf(g: Geo, s: Snap, sect: nat, ofs: nat, r: FileRec)
    requires Recovered(g, s.view, sect, ofs, r) && Recovered(g, s.dev.disk, sect, ofs, r)
    ensures Durable(g, s, sect, ofs, r)
  {
  }

  /** An operation on another file keeps it. */
  lemma DurableOther(g: Geo, reliable: bool, s: Snap, s': Snap, ch: seq<nat>, ch': seq<nat>, sect: nat, ofs: nat, dc: nat, r: FileRec)
    requires FileStep(g, reliable, s, s', ch, ch') && Durable(g, s, sect, ofs, r) && Disjoint(ch, r.chain)
    requires EntryAt(g, s.view, sect, ofs) && EntryApart(g, s.view, sect, dc, ch)
    ensures Durable(g, s', sect, ofs, r)
  {
    DurableParts(g, s, sect, ofs, r);
    EntryKept(g, reliable, s, s', ch, ch', sect, ofs, dc);
    ChainOutside(g, s.view, r.chain);
    OtherSectors(g, reliable, s, s', ch, ch', r.chain);
    StepDevice(g, reliable, s, s', ch, ch', sect, r.chain);
    hide *;
    DurableStays(g, s, s', sect, ofs, r);
  }

  lemma OtherSectors(g: Geo, reliable: bool, s: Snap, s': Snap, ch: seq<nat>, ch': seq<nat>, other: seq<nat>)
    requires FileStep(g, reliable, s, s', ch, ch') && Disjoint(ch, other)
    requires other == [] || IsChain(FatOf(g, s.view), other)
    ensures |s'.view| == |s.view|
    ensures forall k :: 0 <= k < |Sectors(g, other)| ==> Sectors(g, other)[k] < |s.view| && s'.view[Sectors(g, other)[k]] == s.view[Sectors(g, other)[k]]
  {
    GeoFacts(g, s.view);
    ChainClusters(g, s.view, other);
    SecsInDataOf(g, other);
    hide FileCore, Sectors, Fits, FatOf, IsChain, MirrorKept, Tidy, DeviceKept, NoneLost;
    forall k | 0 <= k < |Sectors(g, other)|
      ensures s'.view[Sectors(g, other)[k]] == s.view[Sectors(g, other)[k]]
    {
      var i, j := SectorOwner(g, other, k);
      assert other[i] in other && InCluster(g, other[i], Sectors(g, other)[k]);
    }
  }

  lemma StepDevice(g: Geo, reliable: bool, s: Snap, s': Snap, ch: seq<nat>, ch': seq<nat>, sect: nat, other: seq<nat>)
    requires FileStep(g, reliable, s, s', ch, ch')
    ensures Fits(g, s'.view) && Fits(g, s'.dev.disk) && |s.view| == |s'.view| == |s.dev.disk| == |s'.dev.disk|
    ensures forall x :: 0 <= x < |s.view| && !g.InFats(x) ==> SectorFollows(s, s', x)
    ensures Disjoint(ch, other) ==> forall c :: c in other && 2 <= c < g.nFatent && FatOf(g, s.view)[c] != 0 ==> EntryFollows(g, s, s', c)
  {
    hide FatOf, Fits, Tidy, EntriesKept, BytesKept, NoneLost;
  }

  /** An operation of the file itself that changes neither chain nor contents keeps it. */
  lemma DurableSame(g: Geo, reliable: bool, s: Snap, s': Snap, sect: nat, ofs: nat, dc: nat, r: FileRec, r': FileRec)
    requires GrowStep(g, reliable, s, s', r.chain, r.chain) && Durable(g, s, sect, ofs, r)
    requires EntryAt(g, s.view, sect, ofs) && EntryApart(g, s.view, sect, dc, r.chain)
    requires FileInv(g, s', r') && !r'.dirty
    requires r'.chain == r.chain && r'.content == r.content && r'.sclust == r.sclust && r'.objsize == r.objsize
    ensures Durable(g, s', sect, ofs, r')
  {
    DurableParts(g, s, sect, ofs, r);
    GrowSafe(g, reliable, s, s', r.chain, r.chain);
    EntryKept(g, reliable, s, s', r.chain, r.chain, sect, ofs, dc);
    ChainOutside(g, s.view, r.chain);
    StepDevice(g, reliable, s, s', r.chain, r.chain, sect, r.chain);
    CleanShows(g, s', r');
    hide *;
    DurableStays(g, s, s', sect, ofs, r);
    DurableMoved(g, s', sect, ofs, r, r');
  }

  lemma CleanShows(g: Geo, s: Snap, r: FileRec)
    requires FileInv(g, s, r) && !r.dirty
    ensures forall k :: 0 <= k < |Sectors(g, r.chain)| ==> Sectors(g, r.chain)[k] < |s.view| && Shows(r.content, k, s.view[Sectors(g, r.chain)[k]])
  {
    hide Sectors, Shows, FatOf, Fits, IsChain;
  }

  lemma DurableMoved(g: Geo, s: Snap, sect: nat, ofs: nat, r: FileRec, r': FileRec)
    requires Durable(g, s, sect, ofs, r)
    requires r'.chain == r.chain && r'.content == r.content && r'.sclust == r.sclust && r'.objsize == r.objsize
    ensures Durable(g, s, sect, ofs, r')
  {
  }

  /** f_sync of another file keeps it, even if both entries share a sector. */
  lemma DurableSynced(g: Geo, reliable: bool, s: Snap, s': Snap, sect1: int, ofs1: nat, info: int, a: seq<nat>, sect: nat, ofs: nat, r: FileRec)
    requires SyncFrame(g, reliable, s, s', sect1, ofs1, info, a) && Durable(g, s, sect, ofs, r)
    requires Disjoint(a, r.chain) && AllClusters(g, a) && info < g.fatbase as int && sect1 !in Sectors(g, r.chain)
    requires sect !in Sectors(g, a) && (sect == sect1 ==> ofs + 32 <= ofs1 || ofs1 + 32 <= ofs)
    ensures Durable(g, s', sect, ofs, r)
  {
    DurableParts(g, s, sect, ofs, r);
    GeoFacts(g, s.view);
    ChainClusters(g, s.view, r.chain);
    SecsInDataOf(g, r.chain);
    ChainOutside(g, s.view, r.chain);
    RecoveredShows(g, s.view, sect, ofs, r);
    SyncedSectors(g, reliable, s, s', sect1, ofs1, info, a, r.chain);
    SyncedEntry(g, reliable, s, s', sect1, ofs1, info, a, sect, ofs, r);
    SyncedDevice(g, reliable, s, s', sect1, ofs1, info, a, r.chain);
    hide *;
    DurableStays(g, s, s', sect, ofs, r);
  }

  lemma SyncedDevice(g: Geo, reliable: bool, s: Snap, s': Snap, sect1: int, ofs1: nat, info: int, a: seq<nat>, ch: seq<nat>)
    requires SyncFrame(g, reliable, s, s', sect1, ofs1, info, a) && sect1 !in Sectors(g, ch) && info !in Sectors(g, ch)
    ensures Fits(g, s'.view) && Fits(g, s'.dev.disk) && |s.view| == |s'.view| == |s.dev.disk| == |s'.dev.disk|
    ensures forall k :: 0 <= k < |Sectors(g, ch)| && Sectors(g, ch)[k] < |s.view| && !g.InFats(Sectors(g, ch)[k]) ==> SectorFollows(s, s', Sectors(g, ch)[k])
    ensures FatFollows(g, s, s')
  {
    hide FatOf, Fits, Sectors, FatFollows, SectorFollows, SafeNow, EntryFrame;
  }

  lemma SyncedEntry(g: Geo, reliable: bool, s: Snap, s': Snap, sect1: int, ofs1: nat, info: int, a: seq<nat>, sect: nat, ofs: nat, r: FileRec)
    requires SyncFrame(g, reliable, s, s', sect1, ofs1, info, a) && info < g.fatbase as int
    requires g.fatbase + g.FatSectors() <= sect < |s.view| == |s'.view| == |s.dev.disk| == |s'.dev.disk| && sect !in Sectors(g, a)
    requires sect == sect1 ==> ofs + 32 <= ofs1 || ofs1 + 32 <= ofs
    requires NamesFile(g, s.view[sect], ofs, r) && NamesFile(g, s.dev.disk[sect], ofs, r)
    ensures NamesFile(g, s'.view[sect], ofs, r) && NamesFile(g, s'.dev.disk[sect], ofs, r)
  {
    hide FatOf, Fits, Sectors, FatFollows, SafeNow, MirrorKept, StartOf, SizeOf, FatOfIs;
    if sect == sect1 {
      EntryKeptBy(g, s.view[sect], s'.view[sect], ofs, ofs1);
      if SameButEntry(s'.dev.disk[sect], s.dev.disk[sect], ofs1) {
        EntryKeptBy(g, s.dev.disk[sect], s'.dev.disk[sect], ofs, ofs1);
      } else {
        EntryKeptBy(g, s.view[sect], s'.dev.disk[sect], ofs, ofs1);
      }
    } else {
      assert SectorFollows(s, s', sect);
    }
  }

  lemma EntryKeptBy(g: Geo, a: Sector, b: Sector, ofs: nat, ofs1: nat)
    requires SameButEntry(b, a, ofs1) && ofs + 32 <= 512 && (ofs + 32 <= ofs1 || ofs1 + 32 <= ofs)
    ensures StartOf(g.fsType, b, ofs) == StartOf(g.fsType, a, ofs) && SizeOf(b, ofs) == SizeOf(a, ofs)
  {
    LdSame(a, b, ofs);
    LdSame32(a, b, ofs);
  }

  lemma SyncedSectors(g: Geo, reliable: bool, s: Snap, s': Snap, sect: int, ofs: nat, info: int, a: seq<nat>, ch: seq<nat>)
    requires SyncFrame(g, reliable, s, s', sect, ofs, info, a) && SecsInData(g, ch) && Disjoint(a, ch)
    requires g.csize > 0 && AllClusters(g, a) && AllClusters(g, ch) && sect !in Sectors(g, ch) && info < g.fatbase as int
    requires g.fatbase + g.FatSectors() <= g.database && g.Top() <= |s.view| < 0x1_0000_0000
    ensures |s'.view| == |s.view| && Fits(g, s.view) && Fits(g, s'.view) && FatOf(g, s'.view) == FatOf(g, s.view)
    ensures forall k :: 0 <= k < |Sectors(g, ch)| ==> s'.view[Sectors(g, ch)[k]] == s.view[Sectors(g, ch)[k]]
    ensures s.winsect !in Sectors(g, ch) ==> s'.winsect !in Sectors(g, ch)
    ensures info !in Sectors(g, ch)
  {
    hide Sectors, Fits, FatOf, SafeNow, MirrorKept, FatFollows, OthersFollow, EntryFrame;
    forall k | 0 <= k < |Sectors(g, ch)|
      ensures s'.view[Sectors(g, ch)[k]] == s.view[Sectors(g, ch)[k]]
    {
      var x := Sectors(g, ch)[k];
      if x in Sectors(g, a) {
        var l :| 0 <= l < |Sectors(g, a)| && Sectors(g, a)[l] == x;
        SectorsDisjoint(g, a, ch, l, k);
      }
    }
  }

  /** Where only the directory sector has not reached the device, the device says what the
      file is exactly if that sector there names it. */
  lemma LateEntry(g: Geo, v: Image, d: Image, sect: nat, ofs: nat, r: FileRec)
    requires Recovered(g, v, sect, ofs, r) && |d| == |v| && Fits(g, d) && sect !in Sectors(g, r.chain)
    requires forall x :: 0 <= x < |v| && x != sect ==> d[x] == v[x]
    ensures Recovered(g, d, sect, ofs, r) <==> NamesFile(g, d[sect], ofs, r)
  {
    RecoveredShows(g, v, sect, ofs, r);
    SameFat1(g, v, d);
    hide FatOf, Fits, IsChain, StartOf, SizeOf, Sectors, Shows;
  }

  /** What f_sync leaves when sync_fs fails behind its back, the flag FA_MODIFIED cleared:
      the volume says what the file is, and the device does exactly if its directory
      sector names the file already; it does for sure unless the window is still dirty. */
  ghost predicate Late(g: Geo, s: Snap, waiting: bool, sect: nat, ofs: nat, r: FileRec) {
    && Recovered(g, s.view, sect, ofs, r) && sect < |s.dev.disk|
    && (Recovered(g, s.dev.disk, sect, ofs, r) <==> NamesFile(g, s.dev.disk[sect], ofs, r))
    && (!waiting ==> Recovered(g, s.dev.disk, sect, ofs, r))
  }

  lemma LateOf(g: Geo, s1: Snap, s: Snap, waiting: bool, sect: nat, ofs: nat, r: FileRec)
    requires Recovered(g, s.view, sect, ofs, r) && Fits(g, s.dev.disk) && |s.dev.disk| == |s.view|
    requires waiting ==> s == s1 && forall x :: 0 <= x < |s1.view| && x != sect ==> s1.view[x] == s1.dev.disk[x]
    requires !waiting ==> s.view == s.dev.disk
    requires sect !in Sectors(g, r.chain)
    ensures Late(g, s, waiting, sect, ofs, r)
  {
    RecoveredShows(g, s.view, sect, ofs, r);
    hide Recovered, NamesFile, Fits, Sectors, Shows, IsChain, EntryAt;
    LateEntry(g, s.view, s.dev.disk, sect, ofs, r);
  }

  /** A file that f_truncate emptied, when sync_fs could write nothing: f_sync reports an
      error once, and success from then on, though the device still shows the old entry. */
  lemma EntryLost() returns (g: Geo, s: Snap, r: FileRec)
    ensures FileInv(g, s, r) && !r.dirty && EntryAt(g, s.view, 2, 0) && EntryApart(g, s.view, 2, 0, r.chain)
    ensures |s.dev.disk| > 2 && s.view == s.dev.disk[2 := PutEntry(g.fsType, s.dev.disk[2], 0, r.sclust, r.objsize, 0)] && s.winsect == 2
    ensures Late(g, s, true, 2, 0, r) && !Recovered(g, s.dev.disk, 2, 0, r)
  {
    g := Geo(Fat12, 1, 1, 16, 35, 1, 0, 1, 2, 3);
    var blank: Sector := seq(512, _ => 0);
    var entry: Sector := blank[26 := 2][28 := 1];
    var d: Image := seq(36, _ => blank)[2 := entry];
    var v := d[2 := PutEntry(Fat12, entry, 0, 0, 0, 0)];
    s := Snap(Device(d, [d]), v, 2);
    r := FileRec(0, 0, 0, 0, 0, blank, false, [], [], 0);
    EntryReadsBack(Fat12, entry, 0, 0, 0, 0);
    assert g.Ok();
    assert Sectors(g, []) == [];
    assert Recovered(g, v, 2, 0, r);
    assert SizeOf(entry, 0) == 1;
    hide FatOf, PutEntry, Recovered;
    LateEntry(g, v, d, 2, 0, r);
  }
}
