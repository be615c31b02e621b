/** An open file on a volume, as values: the invariant that ties the FIL fields to the
    cluster chain and the contents, and what each step of the file operations does to
    it and to everything else on the volume. */
module FileSteps {
  import opened Base
  import opened Numbers
  import opened FatTable
  import opened Chains
  import opened Geometry
  import opened FileData
  import opened FileLayout

  /** The fields of FIL, with the chain, the contents, and the index of clust in the chain. */
  datatype FileRec = FileRec(
    sclust: u32, objsize: u32, fptr: u32, clust: u32, sect: u32, buf: Sector, dirty: bool,
    chain: seq<nat>, content: Content, cur: nat)

  function DataOf(g: Geo, r: FileRec): FState {
    FState(Sectors(g, r.chain), r.content, r.sect, r.buf, r.dirty)
  }

  /** The chain is well formed, the data is right, and the window of the volume, which
      data transfers bypass, does not hold a sector of the file. */
  ghost predicate FileCore(g: Geo, s: Snap, r: FileRec) {
    && Fits(g, s.view)
    && (r.chain == [] || IsChain(FatOf(g, s.view), r.chain))
    && DataOk(s.view, DataOf(g, r))
    && s.winsect !in Sectors(g, r.chain)
    && |r.content| == r.objsize
    && (r.chain == [] <==> r.sclust == 0)
    && (r.chain != [] ==> r.chain[0] == r.sclust)
  }

  /** Cluster size in bytes. */
  function Bcs(g: Geo): nat { 512 * g.csize }

  /** Exactly enough clusters for the size; the position is within the file, and the
      current cluster is the one holding the byte before the position. */
  predicate Shape(bcs: nat, n: nat, size: nat, pos: nat, cur: nat) {
    && pos <= size <= bcs * n
    && (n > 0 ==> bcs * (n - 1) < size)
    && (pos > 0 ==> cur < n && bcs * cur < pos <= bcs * (cur + 1))
  }

  ghost predicate FileInv(g: Geo, s: Snap, r: FileRec) {
    && FileCore(g, s, r)
    && Shape(Bcs(g), |r.chain|, r.objsize, r.fptr, r.cur)
    && (r.fptr > 0 ==> r.cur < |r.chain| && r.clust == r.chain[r.cur])
    && (r.fptr % 512 != 0 ==> r.fptr / 512 < |Sectors(g, r.chain)| && r.sect == Sectors(g, r.chain)[r.fptr / 512])
  }

  /** The FAT is safe and nothing links to the head of the chain. */
  ghost predicate Tidy(g: Geo, s: Snap, ch: seq<nat>) {
    SafeNow(g, s) && Fits(g, s.view) && (ch != [] ==> Unref(FatOf(g, s.view), ch[0]))
  }

  /** Clusters in use by anyone else keep their FAT entries, and so do the two reserved ones. */
  ghost predicate EntriesKept(g: Geo, s: Snap, s': Snap, ch: seq<nat>)
    requires Fits(g, s.view) && Fits(g, s'.view)
  {
    forall c :: 0 <= c < g.nFatent && c !in ch && (c < 2 || FatOf(g, s.view)[c] != 0) ==> FatOf(g, s'.view)[c] == FatOf(g, s.view)[c]
  }

  /** They keep their bytes, and so do the areas before the data area. */
  ghost predicate BytesKept(g: Geo, s: Snap, s': Snap, ch: seq<nat>)
    requires Fits(g, s.view) && Fits(g, s'.view)
  {
    && |s'.view| == |s.view|
    && (forall c: nat, x: nat :: InCluster(g, c, x) && c !in ch && FatOf(g, s.view)[c] != 0 && x < |s.view| ==> s'.view[x] == s.view[x])
    && (forall x :: 0 <= x < g.database && !g.InFats(x) && x < |s.view| ==> s'.view[x] == s.view[x])
  }

  /** Clusters the file gained were free. */
  ghost predicate Gained(g: Geo, s: Snap, ch: seq<nat>, ch': seq<nat>)
    requires Fits(g, s.view)
  {
    forall c :: c in ch' ==> c in ch || (2 <= c < g.nFatent && FatOf(g, s.view)[c] == 0)
  }

  /** No cluster is lost: what was free or the file's, and is not the file's now, is free. */
  ghost predicate NoneLost(g: Geo, s: Snap, s': Snap, ch: seq<nat>, ch': seq<nat>)
    requires Fits(g, s.view) && Fits(g, s'.view)
  {
    forall c :: 2 <= c < g.nFatent && c !in ch' && (c in ch || FatOf(g, s.view)[c] == 0) ==> FatOf(g, s'.view)[c] == 0
  }

  /** Sector x keeps its meaning, and the device shows it as before or as it is meant; or it
      was written to the device. */
  ghost predicate SectorFollows(s: Snap, s': Snap, x: nat)
    requires x < |s.view| == |s'.view| == |s.dev.disk| == |s'.dev.disk|
  {
    || s'.dev.disk[x] == s'.view[x]
    || (s'.view[x] == s.view[x] && (s'.dev.disk[x] == s.dev.disk[x] || s'.dev.disk[x] == s.view[x]))
  }

  ghost predicate SectorsFollow(g: Geo, s: Snap, s': Snap) {
    && |s.view| == |s'.view| == |s.dev.disk| == |s'.dev.disk|
    && forall x :: 0 <= x < |s.view| && !g.InFats(x) ==> SectorFollows(s, s', x)
  }

  /** The device changes only towards the meaning of the volume, but for the file's own
      entries in the FAT. */
  ghost predicate DeviceKept(g: Geo, s: Snap, s': Snap, ch: seq<nat>)
    requires Fits(g, s.view)
  {
    && SectorsFollow(g, s, s')
    && forall c :: 2 <= c < g.nFatent && c !in ch && FatOf(g, s.view)[c] != 0 ==> EntryFollows(g, s, s', c)
  }

  /** The FAT keeps its meaning altogether, and the device shows it as before or as meant. */
  ghost predicate FatFollows(g: Geo, s: Snap, s': Snap) {
    forall c :: 2 <= c < g.nFatent ==> EntryFollows(g, s, s', c)
  }

  /** What an operation on a file with chain ch may do to the volume. */
  ghost predicate FileStep(g: Geo, reliable: bool, s: Snap, s': Snap, ch: seq<nat>, ch': seq<nat>) {
    && Fits(g, s.view) && Fits(g, s'.view)
    && EntriesKept(g, s, s', ch) && BytesKept(g, s, s', ch) && Gained(g, s, ch, ch')
    && NoneLost(g, s, s', ch, ch') && DeviceKept(g, s, s', ch)
    && (s'.winsect == s.winsect || s'.winsect == NOSECT || g.InFat1(s'.winsect))
    && MirrorKept(g, reliable, s.dev, s'.dev)
    && (Tidy(g, s, ch) ==> Tidy(g, s', ch'))
  }

  /** An operation that does not shorten the chain, and leaves the FAT alone unless the
      chain gets longer. */
  ghost predicate GrowStep(g: Geo, reliable: bool, s: Snap, s': Snap, ch: seq<nat>, ch': seq<nat>) {
    FileStep(g, reliable, s, s', ch, ch') && ch <= ch' && (ch' == ch ==> FatFollows(g, s, s'))
  }

  lemma GrowStepOf(g: Geo, reliable: bool, s: Snap, s': Snap, ch: seq<nat>, ch': seq<nat>)
    requires FileStep(g, reliable, s, s', ch, ch') && ch <= ch' && (ch' == ch ==> FatFollows(g, s, s'))
    ensures GrowStep(g, reliable, s, s', ch, ch')
  {
  }

  lemma GrowStepTrans(g: Geo, reliable: bool, s: Snap, s': Snap, s'': Snap, a: seq<nat>, b: seq<nat>, c: seq<nat>)
    requires GrowStep(g, reliable, s, s', a, b) && GrowStep(g, reliable, s', s'', b, c)
    ensures GrowStep(g, reliable, s, s'', a, c)
  {
    FileStepTrans(g, reliable, s, s', s'', a, b, c);
    hide FileStep, Fits, FatOf;
    if c == a {
      forall d | 2 <= d < g.nFatent
        ensures EntryFollows(g, s, s'', d)
      {
        assert EntryFollows(g, s, s', d) && EntryFollows(g, s', s'', d);
      }
    }
  }

  lemma GrowStepRefl(g: Geo, reliable: bool, s: Snap, ch: seq<nat>)
    requires Fits(g, s.view) && Fits(g, s.dev.disk) && |s.view| == |s.dev.disk|
    ensures GrowStep(g, reliable, s, s, ch, ch)
  {
  }

  lemma FileStepOf(g: Geo, reliable: bool, s: Snap, s': Snap, ch: seq<nat>, ch': seq<nat>)
    requires Fits(g, s.view) && Fits(g, s'.view)
    requires EntriesKept(g, s, s', ch) && BytesKept(g, s, s', ch) && Gained(g, s, ch, ch')
    requires NoneLost(g, s, s', ch, ch') && DeviceKept(g, s, s', ch)
    requires s'.winsect == s.winsect || s'.winsect == NOSECT || g.InFat1(s'.winsect)
    requires MirrorKept(g, reliable, s.dev, s'.dev)
    requires Tidy(g, s, ch) ==> Tidy(g, s', ch')
    ensures FileStep(g, reliable, s, s', ch, ch')
  {
  }

  lemma FileStepTrans(g: Geo, reliable: bool, s: Snap, s': Snap, s'': Snap, a: seq<nat>, b: seq<nat>, c: seq<nat>)
    requires FileStep(g, reliable, s, s', a, b) && FileStep(g, reliable, s', s'', b, c)
    ensures FileStep(g, reliable, s, s'', a, c)
  {
    var f, f', f'' := FatOf(g, s.view), FatOf(g, s'.view), FatOf(g, s''.view);
    hide FatOf, Fits, Tidy, MirrorKept, InCluster;
    SectorsFollowTrans(g, s, s', s'');
    hide SectorsFollow;
    forall d | 0 <= d < g.nFatent && d !in a && (d < 2 || f[d] != 0)
      ensures f''[d] == f[d] && d !in b
    {
      assert f'[d] == f[d];
    }
    forall d | 2 <= d < g.nFatent && d !in a && f[d] != 0
      ensures EntryFollows(g, s, s'', d)
    {
      assert EntryFollows(g, s, s', d) && EntryFollows(g, s', s'', d);
    }
  }

  lemma SectorsFollowTrans(g: Geo, s: Snap, s': Snap, s'': Snap)
    requires SectorsFollow(g, s, s') && SectorsFollow(g, s', s'')
    ensures SectorsFollow(g, s, s'')
  {
    forall x | 0 <= x < |s.view| && !g.InFats(x)
      ensures SectorFollows(s, s'', x)
    {
      assert SectorFollows(s, s', x) && SectorFollows(s', s'', x);
    }
  }

  lemma FileStepRefl(g: Geo, reliable: bool, s: Snap, ch: seq<nat>)
    requires Fits(g, s.view) && Fits(g, s.dev.disk) && |s.view| == |s.dev.disk|
    ensures FileStep(g, reliable, s, s, ch, ch)
  {
  }

  // ---- unpacking and packing the invariant ----

  lemma CoreParts(g: Geo, s: Snap, r: FileRec)
    requires FileCore(g, s, r)
    ensures Fits(g, s.view) && DataOk(s.view, DataOf(g, r)) && s.winsect !in Sectors(g, r.chain)
    ensures r.chain == [] || IsChain(FatOf(g, s.view), r.chain)
    ensures |r.content| == r.objsize && (r.chain == [] <==> r.sclust == 0) && (r.chain != [] ==> r.chain[0] == r.sclust)
  {
  }

  lemma CoreOf(g: Geo, s: Snap, r: FileRec)
    requires Fits(g, s.view) && DataOk(s.view, DataOf(g, r)) && s.winsect !in Sectors(g, r.chain)
    requires r.chain == [] || IsChain(FatOf(g, s.view), r.chain)
    requires |r.content| == r.objsize && (r.chain == [] <==> r.sclust == 0) && (r.chain != [] ==> r.chain[0] == r.sclust)
    ensures FileCore(g, s, r)
  {
  }

  lemma GeoFacts(g: Geo, v: Image)
    requires Fits(g, v)
    ensures 0 < g.csize <= 128 && g.Top() <= |v| < 0x1_0000_0000 && g.fatbase + g.fsize <= g.fatbase + g.FatSectors() <= g.database
    ensures |FatOf(g, v)| == g.nFatent
  {
    assert PowerOfTwo(g.csize);
  }

  lemma ChainClusters(g: Geo, v: Image, ch: seq<nat>)
    requires Fits(g, v) && (ch == [] || IsChain(FatOf(g, v), ch))
    ensures AllClusters(g, ch) && Distinct(ch)
    ensures forall c :: c in ch ==> 2 <= c < g.nFatent && FatOf(g, v)[c] >= 2
  {
    hide FatOf, Fits;
    ChainUsed(FatOf(g, v), ch);
    forall i | 0 <= i < |ch|
      ensures g.IsCluster(ch[i])
    {
      assert ch[i] in ch;
    }
  }

  /** The sectors of a chain lie in the data area. */
  ghost predicate SecsInData(g: Geo, ch: seq<nat>) {
    forall k :: 0 <= k < |Sectors(g, ch)| ==> g.database <= Sectors(g, ch)[k] < g.Top()
  }

  lemma SecsInDataOf(g: Geo, ch: seq<nat>)
    requires g.csize > 0 && AllClusters(g, ch)
    ensures SecsInData(g, ch)
  {
    forall k | 0 <= k < |Sectors(g, ch)|
      ensures g.database <= Sectors(g, ch)[k] < g.Top()
    {
      SectorsInData(g, ch, k);
    }
  }

  /** Facts about the geometry of a file. */
  lemma CoreFacts(g: Geo, s: Snap, r: FileRec)
    requires FileCore(g, s, r)
    ensures Fits(g, s.view) && 0 < g.csize <= 128 && AllClusters(g, r.chain) && Distinct(r.chain) && SecsInData(g, r.chain)
    ensures |Sectors(g, r.chain)| == g.csize * |r.chain|
    ensures g.Top() <= |s.view| < 0x1_0000_0000 && g.fatbase + g.fsize <= g.fatbase + g.FatSectors() <= g.database
    ensures s.winsect !in Sectors(g, r.chain) && DataOk(s.view, DataOf(g, r))
  {
    hide *;
    CoreParts(g, s, r);
    GeoFacts(g, s.view);
    SectorsLen(g, r.chain);
    ChainClusters(g, s.view, r.chain);
    SecsInDataOf(g, r.chain);
  }

  /** The sector the dirty buffer belongs to. */
  lemma DirtySector(g: Geo, s: Snap, r: FileRec) returns (k: nat)
    requires FileCore(g, s, r) && r.dirty
    ensures k < |Sectors(g, r.chain)| && Sectors(g, r.chain)[k] == r.sect
    ensures g.database <= r.sect < g.Top()
  {
    CoreFacts(g, s, r);
    hide Sectors, FileCore, IsChain;
    var secs := Sectors(g, r.chain);
    assert r.sect in secs;
    k :| 0 <= k < |secs| && secs[k] == r.sect;
  }

  // ---- reading the FAT ----

  lemma SectorsUntouched(g: Geo, s: Snap, s': Snap, ch: seq<nat>)
    requires Fits(g, s.view) && FatsOnly(g, s.view, s.winsect, s'.view, s'.winsect) && SecsInData(g, ch)
    requires g.fatbase + g.FatSectors() <= g.database && g.Top() <= |s.view| < 0x1_0000_0000
    ensures |s'.view| == |s.view|
    ensures forall k :: 0 <= k < |Sectors(g, ch)| ==> s'.view[Sectors(g, ch)[k]] == s.view[Sectors(g, ch)[k]]
    ensures s.winsect !in Sectors(g, ch) ==> s'.winsect !in Sectors(g, ch)
  {
    hide Sectors, Fits;
  }

  lemma BytesAfterFats(g: Geo, s: Snap, s': Snap, ch: seq<nat>)
    requires Fits(g, s.view) && Fits(g, s'.view) && FatsOnly(g, s.view, s.winsect, s'.view, s'.winsect)
    requires g.fatbase + g.FatSectors() <= g.database
    ensures BytesKept(g, s, s', ch)
    ensures s'.winsect == s.winsect || s'.winsect == NOSECT || g.InFat1(s'.winsect)
  {
    hide Fits, FatOf;
    forall c: nat, x: nat | InCluster(g, c, x) && x < |s.view|
      ensures s'.view[x] == s.view[x]
    {
      ClusterInData(g, c, x);
    }
  }

  lemma ChainStepParts(g: Geo, reliable: bool, s: Snap, s': Snap)
    requires ChainStep(g, reliable, s, s')
    ensures FatsOnly(g, s.view, s.winsect, s'.view, s'.winsect) && MirrorKept(g, reliable, s.dev, s'.dev)
  {
  }

  /** Accesses that change nothing but the clusters in own. */
  lemma DeviceAfter(g: Geo, s: Snap, s': Snap, own: set<nat>, ch: seq<nat>)
    requires DevStep(g, s, s', own, -1)
    requires forall c :: 2 <= c < g.nFatent && c in own && c !in ch ==> FatOf(g, s.view)[c] == 0 || FatOf(g, s'.view)[c] != FatOf(g, s.view)[c]
    requires EntriesKept(g, s, s', ch)
    ensures DeviceKept(g, s, s', ch)
    ensures own == {} ==> FatFollows(g, s, s') && NoneLost(g, s, s', ch, ch)
  {
    hide FatOf, Fits;
    if own == {} {
      forall c | 2 <= c < g.nFatent
        ensures FatOf(g, s'.view)[c] == FatOf(g, s.view)[c]
      {
        assert EntryFollows(g, s, s', c);
      }
    }
  }

  lemma TidySame(g: Geo, s: Snap, s': Snap, ch: seq<nat>)
    requires Fits(g, s.view) && Fits(g, s'.view) && FatOf(g, s'.view) == FatOf(g, s.view) && (SafeNow(g, s) ==> SafeNow(g, s'))
    ensures Tidy(g, s, ch) ==> Tidy(g, s', ch)
    ensures EntriesKept(g, s, s', ch) && Gained(g, s, ch, ch) && NoneLost(g, s, s', ch, ch)
  {
  }

  /** A step that changes nothing but where FAT sectors live keeps the file. */
  lemma CoreAfterRead(g: Geo, reliable: bool, s: Snap, s': Snap, r: FileRec)
    requires FileCore(g, s, r) && ChainStep(g, reliable, s, s') && Fits(g, s'.view) && FatOf(g, s'.view) == FatOf(g, s.view)
    requires DevStep(g, s, s', {}, -1) && (SafeNow(g, s) ==> SafeNow(g, s'))
    ensures FileCore(g, s', r) && GrowStep(g, reliable, s, s', r.chain, r.chain)
  {
    hide *;
    CoreFacts(g, s, r);
    CoreParts(g, s, r);
    ChainStepParts(g, reliable, s, s');
    SectorsUntouched(g, s, s', r.chain);
    BytesAfterFats(g, s, s', r.chain);
    TidySame(g, s, s', r.chain);
    DataOfSecs(g, r);
    DataKept(s.view, s'.view, DataOf(g, r));
    CoreOf(g, s', r);
    DeviceAfter(g, s, s', {}, r.chain);
    FileStepOf(g, reliable, s, s', r.chain, r.chain);
    GrowStepOf(g, reliable, s, s', r.chain, r.chain);
  }

  lemma DataOfSecs(g: Geo, r: FileRec)
    ensures DataOf(g, r) == FState(Sectors(g, r.chain), r.content, r.sect, r.buf, r.dirty)
  {
  }

  // ---- stretching the chain ----

  function Tail(ch: seq<nat>): nat { if ch == [] then 0 else ch[|ch| - 1] }

  lemma CoreStretched(g: Geo, reliable: bool, s: Snap, s': Snap, r: FileRec, r': FileRec, c: nat)
    requires FileCore(g, s, r) && ChainStep(g, reliable, s, s') && Fits(g, s'.view)
    requires DevStep(g, s, s', {Tail(r.chain), c}, -1) && (SafeNow(g, s) ==> SafeNow(g, s'))
    requires 2 <= c < g.nFatent && c < 0x1_0000_0000 && FatOf(g, s.view)[c] == 0 && g.InFat1(s'.winsect)
    requires Tail(r.chain) == 0 || 2 <= Tail(r.chain) < g.nFatent
    requires FatOf(g, s'.view) == Linked(FatOf(g, s.view), Tail(r.chain), c, EndMark(g.fsType))
    requires r' == r.(chain := r.chain + [c], sclust := if r.sclust == 0 then c else r.sclust, clust := c)
    ensures FileCore(g, s', r') && GrowStep(g, reliable, s, s', r.chain, r'.chain)
  {
    hide *;
    CoreFacts(g, s, r);
    CoreParts(g, s, r);
    ChainStepParts(g, reliable, s, s');
    StoredValues(g, s.view, 0);
    GeoFacts(g, s.view);
    NewTail(FatOf(g, s.view), FatOf(g, s'.view), r.chain, c, EndMark(g.fsType));
    ChainClusters(g, s'.view, r'.chain);
    SecsInDataOf(g, r'.chain);
    SectorsDistinct(g, r'.chain);
    SectorsAppend(g, r.chain, c);
    SectorsUntouched(g, s, s', r'.chain);
    BytesAfterFats(g, s, s', r.chain);
    DataOfSecs(g, r);
    DataOfSecs(g, r');
    WindowOutside(g, r'.chain, s'.winsect);
    MoreData(g, s, s', r, r', c);
    CoreOf(g, s', r');
    TidyStretched(g, s, s', r.chain, c);
    EntriesStretched(g, s, s', r.chain, c);
    DeviceStretched(g, s, s', r.chain, c);
    FileStepOf(g, reliable, s, s', r.chain, r'.chain);
    GrowStepOf(g, reliable, s, s', r.chain, r'.chain);
  }

  /** The chain with its new tail. */
  lemma NewTail(f: Fat, f': Fat, ch: seq<nat>, c: nat, end: nat)
    requires (ch == [] || IsChain(f, ch)) && 2 <= c < |f| && f[c] == 0 && end >= |f|
    requires Tail(ch) == 0 || 2 <= Tail(ch) < |f|
    requires f' == Linked(f, Tail(ch), c, end)
    ensures IsChain(f', ch + [c]) && c !in ch
    ensures forall d :: 0 <= d < |f| && d != c && d !in ch ==> f'[d] == f[d]
  {
    if ch != [] {
      var tail := ch[|ch| - 1];
      assert IsCl(f, tail) && tail in ch;
      ChainStretched(f, ch, c, end);
      forall i | 0 <= i < |ch|
        ensures ch[i] != c
      {
        if i < |ch| - 1 { assert f[ch[i]] == ch[i + 1]; }
      }
    }
  }

  lemma WindowOutside(g: Geo, ch: seq<nat>, w: u32)
    requires SecsInData(g, ch) && g.InFat1(w) && g.fatbase + g.fsize <= g.database
    ensures w !in Sectors(g, ch)
  {
  }

  lemma MoreData(g: Geo, s: Snap, s': Snap, r: FileRec, r': FileRec, c: nat)
    requires DataOk(s.view, FState(Sectors(g, r.chain), r.content, r.sect, r.buf, r.dirty))
    requires Sectors(g, r'.chain) == Sectors(g, r.chain) + Run(Clst2Sect(g, c), g.csize)
    requires DistinctSecs(Sectors(g, r'.chain)) && SecsInData(g, r'.chain) && g.Top() <= |s.view| == |s'.view|
    requires forall k :: 0 <= k < |Sectors(g, r'.chain)| ==> s'.view[Sectors(g, r'.chain)[k]] == s.view[Sectors(g, r'.chain)[k]]
    requires r'.content == r.content && r'.sect == r.sect && r'.buf == r.buf && r'.dirty == r.dirty
    ensures DataOk(s'.view, FState(Sectors(g, r'.chain), r'.content, r'.sect, r'.buf, r'.dirty))
  {
    hide Sectors, DataOk, Run, Clst2Sect;
    var f := FState(Sectors(g, r.chain), r.content, r.sect, r.buf, r.dirty);
    var f' := FState(Sectors(g, r'.chain), r.content, r.sect, r.buf, r.dirty);
    var more := Run(Clst2Sect(g, c), g.csize);
    forall i | 0 <= i < |more|
      ensures more[i] < |s.view|
    {
      assert more[i] == Sectors(g, r'.chain)[|Sectors(g, r.chain)| + i];
    }
    Extended(s.view, f, more);
    DataKept(s.view, s'.view, f');
  }

  lemma TidyStretched(g: Geo, s: Snap, s': Snap, ch: seq<nat>, c: nat)
    requires Fits(g, s.view) && Fits(g, s'.view) && 2 <= c < g.nFatent && FatOf(g, s.view)[c] == 0
    requires ch == [] || IsChain(FatOf(g, s.view), ch)
    requires Tail(ch) == 0 || 2 <= Tail(ch) < g.nFatent
    requires FatOf(g, s'.view) == Linked(FatOf(g, s.view), Tail(ch), c, EndMark(g.fsType))
    requires SafeNow(g, s) ==> SafeNow(g, s')
    ensures Tidy(g, s, ch) ==> Tidy(g, s', ch + [c])
  {
    if Tidy(g, s, ch) {
      StoredValues(g, s.view, 0);
      UnrefStretched(FatOf(g, s.view), ch, c, EndMark(g.fsType));
    }
  }

  lemma UnrefStretched(f: Fat, ch: seq<nat>, c: nat, end: nat)
    requires Safe(f) && (ch == [] || IsChain(f, ch)) && IsCl(f, c) && f[c] == 0 && end >= |f|
    requires Tail(ch) == 0 || 2 <= Tail(ch) < |f|
    requires ch != [] ==> Unref(f, ch[0])
    ensures Unref(Linked(f, Tail(ch), c, end), (ch + [c])[0])
  {
    FreeIsUnref(f, c);
    if ch != [] {
      assert (ch + [c])[0] == ch[0];
      if |ch| > 1 { assert f[ch[0]] == ch[1]; }
    }
  }

  lemma EntriesStretched(g: Geo, s: Snap, s': Snap, ch: seq<nat>, c: nat)
    requires Fits(g, s.view) && Fits(g, s'.view) && 2 <= c < g.nFatent && FatOf(g, s.view)[c] == 0
    requires forall d :: 0 <= d < g.nFatent && d != c && d !in ch ==> FatOf(g, s'.view)[d] == FatOf(g, s.view)[d]
    ensures EntriesKept(g, s, s', ch) && Gained(g, s, ch, ch + [c]) && NoneLost(g, s, s', ch, ch + [c])
  {
  }

  lemma DeviceStretched(g: Geo, s: Snap, s': Snap, ch: seq<nat>, c: nat)
    requires DevStep(g, s, s', {Tail(ch), c}, -1) && 2 <= c < g.nFatent && FatOf(g, s.view)[c] == 0
    requires EntriesKept(g, s, s', ch)
    ensures DeviceKept(g, s, s', ch)
  {
    hide FatOf, Fits;
    if ch != [] { assert Tail(ch) in ch; }
    DeviceAfter(g, s, s', {Tail(ch), c}, ch);
  }

  // ---- data transfers ----

  lemma DataStepParts(g: Geo, reliable: bool, s: Snap, s': Snap, lba: nat, data: seq<Sector>)
    requires DataStep(g, reliable, s, s', lba, data)
    ensures Fits(g, s.view) && Fits(g, s'.view) && lba + |data| <= |s.view| && s'.view == Patched(s.view, lba, data)
    ensures FatOf(g, s'.view) == FatOf(g, s.view) && s'.winsect == s.winsect
    ensures MirrorKept(g, reliable, s.dev, s'.dev) && (SafeNow(g, s) ==> SafeNow(g, s'))
    ensures SectorsFollow(g, s, s') && FatFollows(g, s, s')
  {
  }

  lemma DeviceAfterData(g: Geo, s: Snap, s': Snap, ch: seq<nat>)
    requires Fits(g, s.view) && SectorsFollow(g, s, s') && FatFollows(g, s, s')
    ensures DeviceKept(g, s, s', ch)
  {
    hide FatOf, Fits, SectorsFollow;
  }

  lemma BytesAfterData(g: Geo, s: Snap, s': Snap, ch: seq<nat>, k: nat, lba: nat, data: seq<Sector>)
    requires Fits(g, s.view) && Fits(g, s'.view) && g.csize > 0 && AllClusters(g, ch) && SecsInData(g, ch)
    requires lba + |data| <= |s.view| && s'.view == Patched(s.view, lba, data)
    requires RunAt(Sectors(g, ch), k, lba, |data|)
    ensures BytesKept(g, s, s', ch)
  {
    hide Fits, FatOf, Sectors;
    var secs := Sectors(g, ch);
    forall x | 0 <= x < |s.view| && !(lba <= x < lba + |data|)
      ensures s'.view[x] == s.view[x]
    {
    }
    forall x | lba <= x < lba + |data|
      ensures x in secs && g.database <= x
    {
      var i := k + (x - lba);
      assert secs[i] == x;
    }
    if |data| > 0 { assert secs[k] == lba; }
    forall c: nat, x: nat | InCluster(g, c, x) && c !in ch && x < |s.view|
      ensures s'.view[x] == s.view[x]
    {
      SectorNotInChain(g, ch, x);
    }
  }

  /** A transfer into sectors of the file touches nobody else. */
  lemma StepOfData(g: Geo, reliable: bool, s: Snap, s': Snap, r: FileRec, k: nat, lba: nat, data: seq<Sector>)
    requires FileCore(g, s, r) && DataStep(g, reliable, s, s', lba, data)
    requires RunAt(Sectors(g, r.chain), k, lba, |data|)
    ensures GrowStep(g, reliable, s, s', r.chain, r.chain)
  {
    hide *;
    CoreFacts(g, s, r);
    DataStepParts(g, reliable, s, s', lba, data);
    BytesAfterData(g, s, s', r.chain, k, lba, data);
    TidySame(g, s, s', r.chain);
    DeviceAfterData(g, s, s', r.chain);
    FileStepOf(g, reliable, s, s', r.chain, r.chain);
    GrowStepOf(g, reliable, s, s', r.chain, r.chain);
  }

  /** The core after a transfer, once the data is known to be right. */
  lemma CoreAfterData(g: Geo, reliable: bool, s: Snap, s': Snap, r: FileRec, r': FileRec, lba: nat, data: seq<Sector>)
    requires FileCore(g, s, r) && DataStep(g, reliable, s, s', lba, data)
    requires DataOk(s'.view, DataOf(g, r')) && r'.chain == r.chain && r'.sclust == r.sclust && |r'.content| == r'.objsize
    ensures FileCore(g, s', r')
  {
  }

  lemma RunOfOne(secs: seq<nat>, k: nat)
    requires k < |secs|
    ensures RunAt(secs, k, secs[k], 1)
  {
  }

  lemma PatchedOne(v: Image, x: nat, sec: Sector)
    requires x < |v|
    ensures Patched(v, x, [sec]) == v[x := sec]
  {
  }

  lemma CoreFlushed(g: Geo, reliable: bool, s: Snap, s': Snap, r: FileRec)
    requires FileCore(g, s, r) && r.dirty && DataStep(g, reliable, s, s', r.sect, [r.buf])
    ensures FileCore(g, s', r.(dirty := false)) && GrowStep(g, reliable, s, s', r.chain, r.chain)
  {
    hide *;
    var r' := r.(dirty := false);
    CoreParts(g, s, r);
    DataStepParts(g, reliable, s, s', r.sect, [r.buf]);
    var k := DirtySector(g, s, r);
    RunOfOne(Sectors(g, r.chain), k);
    StepOfData(g, reliable, s, s', r, k, r.sect, [r.buf]);
    PatchedOne(s.view, r.sect, r.buf);
    DataOfSecs(g, r);
    DataOfSecs(g, r');
    Flushed(s.view, DataOf(g, r));
    CoreAfterData(g, reliable, s, s', r, r', r.sect, [r.buf]);
  }

  /** The core of the same volume after the buffer or the contents changed. */
  lemma CoreAfterBuf(g: Geo, s: Snap, r: FileRec, r': FileRec)
    requires FileCore(g, s, r) && DataOk(s.view, DataOf(g, r'))
    requires r'.chain == r.chain && r'.sclust == r.sclust && |r'.content| == r'.objsize
    ensures FileCore(g, s, r')
  {
  }

  lemma CoreLoaded(g: Geo, s: Snap, r: FileRec, k: nat, sect: u32, data: Sector)
    requires FileCore(g, s, r) && !r.dirty && k < |Sectors(g, r.chain)| && sect == Sectors(g, r.chain)[k]
    requires sect < |s.view| && data == s.view[sect]
    ensures FileCore(g, s, r.(sect := sect, buf := data))
  {
    hide *;
    var r' := r.(sect := sect, buf := data);
    CoreParts(g, s, r);
    DataOfSecs(g, r);
    DataOfSecs(g, r');
    Loaded(s.view, DataOf(g, r), k);
    CoreAfterBuf(g, s, r, r');
  }

  /** f_write does not load a sector that lies past the end of the file. */
  lemma CoreClaimed(g: Geo, s: Snap, r: FileRec, k: nat, sect: u32)
    requires FileCore(g, s, r) && !r.dirty && k < |Sectors(g, r.chain)| && sect == Sectors(g, r.chain)[k]
    requires r.objsize <= 512 * k
    ensures FileCore(g, s, r.(sect := sect))
  {
    hide *;
    var r' := r.(sect := sect);
    CoreParts(g, s, r);
    DataOfSecs(g, r);
    DataOfSecs(g, r');
    Claimed(s.view, DataOf(g, r), k);
    CoreAfterBuf(g, s, r, r');
  }

  function Max(a: nat, b: nat): nat { if a > b then a else b }

  lemma SpliceLen(c: Content, pos: nat, data: seq<byte>)
    requires pos <= |c|
    ensures |Splice(c, pos, data)| == Max(pos + |data|, |c|)
  {
  }

  lemma CoreBufWritten(g: Geo, s: Snap, r: FileRec, r': FileRec, k: nat, off: nat, data: seq<byte>)
    requires FileCore(g, s, r) && r.fptr <= r.objsize && r.fptr == 512 * k + off
    requires k < |Sectors(g, r.chain)| && r.sect == Sectors(g, r.chain)[k] && off + |data| <= 512
    requires r.fptr + |data| < 0x1_0000_0000
    requires r' == r.(buf := BufPut(r.buf, off, data), dirty := true,
                      content := Splice(r.content, r.fptr, data), objsize := Max(r.fptr + |data|, r.objsize),
                      fptr := r.fptr + |data|)
    ensures FileCore(g, s, r')
  {
    hide *;
    CoreParts(g, s, r);
    DataOfSecs(g, r);
    DataOfSecs(g, r');
    BufWritten(s.view, DataOf(g, r), k, off, data);
    SpliceLen(r.content, r.fptr, data);
    CoreAfterBuf(g, s, r, r');
  }

  lemma CoreDirectWritten(g: Geo, reliable: bool, s: Snap, s': Snap, r: FileRec, r': FileRec, k: nat, lba: u32, data: seq<Sector>)
    requires FileCore(g, s, r) && !r.dirty && r.fptr == 512 * k <= r.objsize
    requires RunAt(Sectors(g, r.chain), k, lba, |data|) && k + |data| <= |Sectors(g, r.chain)| && DataStep(g, reliable, s, s', lba, data)
    requires r.fptr + 512 * |data| < 0x1_0000_0000
    requires r' == r.(buf := Refilled(DataOf(g, r), lba, data),
                      content := Splice(r.content, r.fptr, Flat(data)), objsize := Max(r.fptr + 512 * |data|, r.objsize),
                      fptr := r.fptr + 512 * |data|)
    ensures FileCore(g, s', r') && GrowStep(g, reliable, s, s', r.chain, r'.chain)
  {
    hide *;
    CoreFacts(g, s, r);
    CoreParts(g, s, r);
    StepOfData(g, reliable, s, s', r, k, lba, data);
    DataStepParts(g, reliable, s, s', lba, data);
    DataOfSecs(g, r);
    DataOfSecs(g, r');
    DirectWritten(s.view, DataOf(g, r), k, lba, data);
    SpliceLen(r.content, r.fptr, Flat(data));
    CoreAfterData(g, reliable, s, s', r, r', lba, data);
  }

  // ---- growing and cutting ----

  lemma CoreGrown(g: Geo, s: Snap, r: FileRec, r': FileRec, n: u32)
    requires FileCore(g, s, r) && n <= 512 * |Sectors(g, r.chain)|
    requires r' == r.(content := Grown(r.content, n), objsize := Max(n, r.objsize))
    ensures FileCore(g, s, r')
  {
    hide *;
    CoreParts(g, s, r);
    DataOfSecs(g, r);
    DataOfSecs(g, r');
    GapAdded(s.view, DataOf(g, r), n);
    GrownLen(r.content, n);
    CoreAfterBuf(g, s, r, r');
  }

  lemma GrownLen(c: Content, n: nat)
    ensures |Grown(c, n)| == Max(n, |c|)
  {
  }

  /** The FAT after f_truncate keeps the first m clusters of the chain. */
  function CutFat(f: Fat, ch: seq<nat>, m: nat, end: nat): (r: Fat)
    requires m <= |ch| && (m > 0 ==> 2 <= ch[m - 1] < |f|)
    ensures |r| == |f|
  {
    if m == |ch| then f
    else if m == 0 then FreeAll(f, ch)
    else FreeAll(f[ch[m - 1] := end], ch[m..])
  }

  lemma CutFatFacts(f: Fat, ch: seq<nat>, m: nat, end: nat)
    requires IsChain(f, ch) && m <= |ch| && end >= |f| && (m > 0 ==> 2 <= ch[m - 1] < |f|)
    ensures m > 0 ==> IsChain(CutFat(f, ch, m, end), ch[..m])
    ensures forall c :: 0 <= c < |f| && c !in ch ==> CutFat(f, ch, m, end)[c] == f[c]
    ensures forall h :: 2 <= h < |f| && Unref(f, h) ==> Unref(CutFat(f, ch, m, end), h)
    ensures forall c :: c in ch && c !in ch[..m] ==> c < |f| && CutFat(f, ch, m, end)[c] == 0
  {
    ChainUsed(f, ch);
    ChainDistinct(f, ch);
    if m == |ch| {
      assert ch[..m] == ch;
    } else if m > 0 {
      ChainCut(f, ch, m, end);
      var f1, a, b := f[ch[m - 1] := end], ch[..m], ch[m..];
      forall c | c in a
        ensures FreeAll(f1, b)[c] == f1[c]
      {
        Apart(ch, m, c);
      }
      ChainKept(f1, FreeAll(f1, b), a);
      forall c | c in b
        ensures c in ch
      {
      }
    }
  }

  lemma Apart(ch: seq<nat>, m: nat, c: nat)
    requires Distinct(ch) && m <= |ch| && c in ch[..m]
    ensures c !in ch[m..]
  {
    var i :| 0 <= i < m && ch[i] == c;
    forall j | 0 <= j < |ch[m..]|
      ensures ch[m..][j] != c
    {
      assert ch[m..][j] == ch[m + j];
    }
  }

  /** Removing the end of the chain frees exactly the clusters from position m on. */
  lemma WalkCuts(f: Fat, ch: seq<nat>, m: nat, end: nat)
    requires IsChain(f, ch) && m < |ch| && end >= |f|
    ensures 2 <= ch[m] < |f| && (m > 0 ==> 2 <= ch[m - 1] < |f| && f[ch[m - 1]] == ch[m])
    ensures var f1 := if m == 0 then f else f[ch[m - 1] := end];
            FreeWalk(f1, ch[m]) == CutFat(f, ch, m, end) && !WalkFails(f1, ch[m])
  {
    assert IsCl(f, ch[m]);
    if m == 0 {
      WalkFreesChain(f, ch);
    } else {
      assert IsCl(f, ch[m - 1]);
      ChainCut(f, ch, m, end);
      WalkFreesChain(f[ch[m - 1] := end], ch[m..]);
    }
  }

  /** First half of f_truncate: the clusters behind the new end are free. */
  lemma StepOfCut(g: Geo, reliable: bool, s: Snap, s': Snap, r: FileRec, m: nat)
    requires FileCore(g, s, r) && r.chain != [] && m <= |r.chain| && (m > 0 ==> 2 <= r.chain[m - 1] < g.nFatent)
    requires ChainStep(g, reliable, s, s') && Fits(g, s'.view)
    requires |FatOf(g, s.view)| == g.nFatent && FatOf(g, s'.view) == CutFat(FatOf(g, s.view), r.chain, m, EndMark(g.fsType))
    requires DeviceKept(g, s, s', r.chain) && (Tidy(g, s, r.chain) ==> SafeNow(g, s'))
    ensures FileStep(g, reliable, s, s', r.chain, r.chain)
    ensures forall c :: c in r.chain && c !in r.chain[..m] ==> c < g.nFatent && FatOf(g, s'.view)[c] == 0
    ensures s'.winsect !in Sectors(g, r.chain)
    ensures forall k :: 0 <= k < |Sectors(g, r.chain)| ==> s'.view[Sectors(g, r.chain)[k]] == s.view[Sectors(g, r.chain)[k]]
    ensures |s'.view| == |s.view|
    ensures m > 0 ==> IsChain(FatOf(g, s'.view), r.chain[..m])
  {
    hide *;
    CoreFacts(g, s, r);
    CoreParts(g, s, r);
    ChainStepParts(g, reliable, s, s');
    StoredValues(g, s.view, 0);
    CutFatFacts(FatOf(g, s.view), r.chain, m, EndMark(g.fsType));
    SectorsUntouched(g, s, s', r.chain);
    BytesAfterFats(g, s, s', r.chain);
    TidyCut(g, s, s', r.chain, m);
    FileStepOf(g, reliable, s, s', r.chain, r.chain);
  }

  lemma TidyCut(g: Geo, s: Snap, s': Snap, ch: seq<nat>, m: nat)
    requires Fits(g, s.view) && Fits(g, s'.view) && IsChain(FatOf(g, s.view), ch) && m <= |ch| && (m > 0 ==> 2 <= ch[m - 1] < g.nFatent)
    requires FatOf(g, s'.view) == CutFat(FatOf(g, s.view), ch, m, EndMark(g.fsType))
    requires Tidy(g, s, ch) ==> SafeNow(g, s')
    ensures Tidy(g, s, ch) ==> Tidy(g, s', ch)
    ensures EntriesKept(g, s, s', ch) && Gained(g, s, ch, ch) && NoneLost(g, s, s', ch, ch)
  {
    hide FatOf, Fits;
    StoredValues(g, s.view, 0);
    CutFatFacts(FatOf(g, s.view), ch, m, EndMark(g.fsType));
    assert IsCl(FatOf(g, s.view), ch[0]);
  }

  /** Second half: the buffer, which may belong to a freed cluster, is written back. */
  lemma StepOfLateFlush(g: Geo, reliable: bool, s: Snap, s': Snap, ch: seq<nat>, m: nat, k: nat, sect: u32, buf: Sector)
    requires DataStep(g, reliable, s, s', sect, [buf])
    requires g.csize > 0 && AllClusters(g, ch) && SecsInData(g, ch) && m <= |ch|
    requires k < |Sectors(g, ch)| && Sectors(g, ch)[k] == sect
    requires forall c :: c in ch && c !in ch[..m] ==> c < g.nFatent && FatOf(g, s.view)[c] == 0
    ensures FileStep(g, reliable, s, s', ch, ch[..m])
    ensures s'.view == s.view[sect := buf]
  {
    hide *;
    DataStepParts(g, reliable, s, s', sect, [buf]);
    RunOfOne(Sectors(g, ch), k);
    BytesAfterData(g, s, s', ch, k, sect, [buf]);
    PatchedOne(s.view, sect, buf);
    TidyPrefix(g, s, s', ch, m);
    DeviceAfterData(g, s, s', ch);
    FileStepOf(g, reliable, s, s', ch, ch[..m]);
  }

  lemma TidyPrefix(g: Geo, s: Snap, s': Snap, ch: seq<nat>, m: nat)
    requires Fits(g, s.view) && Fits(g, s'.view) && FatOf(g, s'.view) == FatOf(g, s.view) && (SafeNow(g, s) ==> SafeNow(g, s'))
    requires m <= |ch|
    requires forall c :: c in ch && c !in ch[..m] ==> c < g.nFatent && FatOf(g, s.view)[c] == 0
    ensures Tidy(g, s, ch) ==> Tidy(g, s', ch[..m])
    ensures EntriesKept(g, s, s', ch) && Gained(g, s, ch, ch[..m]) && NoneLost(g, s, s', ch, ch[..m])
  {
  }

  /** The file after f_truncate. */
  lemma CoreCut(g: Geo, s: Snap, s1: Snap, s2: Snap, r: FileRec, r': FileRec, m: nat)
    requires FileCore(g, s, r) && m <= |r.chain| && r.fptr <= r.objsize && r.fptr <= 512 * (g.csize * m)
    requires |s1.view| == |s.view| && s1.winsect !in Sectors(g, r.chain)
    requires forall k :: 0 <= k < |Sectors(g, r.chain)| ==> s1.view[Sectors(g, r.chain)[k]] == s.view[Sectors(g, r.chain)[k]]
    requires r.dirty ==> r.sect < |s1.view|
    requires Fits(g, s2.view) && s2.winsect == s1.winsect && s2.view == if r.dirty then s1.view[r.sect := r.buf] else s1.view
    requires m > 0 ==> IsChain(FatOf(g, s2.view), r.chain[..m])
    requires r' == r.(chain := r.chain[..m], content := r.content[..r.fptr], objsize := r.fptr, dirty := false,
                      sclust := if m == 0 then 0 else r.sclust)
    ensures FileCore(g, s2, r')
  {
    CoreParts(g, s, r);
    hide *;
    DataOfSecs(g, r);
    DataOfSecs(g, r');
    DataKept(s.view, s1.view, DataOf(g, r));
    SectorsPrefix(g, r.chain, m);
    Truncated(s1.view, DataOf(g, r), r.fptr, g.csize * m);
    CoreOf(g, s2, r');
  }

  // ---- positions ----

  lemma ProductOrder(k: nat, a: nat, b: nat)
    ensures k > 0 && k * a < k * b ==> a < b
    ensures a <= b ==> k * a <= k * b
  {
    if a < b { MulGap(k, a, b); }
    if b < a { MulGap(k, b, a); }
  }

  lemma Bytes(csize: nat, i: nat)
    ensures 512 * csize * i == 512 * (csize * i)
  {
  }

  /** At a sector boundary: the sector offset in the cluster is 0 exactly when the next
      cluster of the chain begins here. */
  lemma AtBoundary(g: Geo, n: nat, size: nat, pos: nat, cur: nat)
    requires g.csize > 0 && Shape(Bcs(g), n, size, pos, cur) && pos % 512 == 0
    ensures var k := pos / 512;
            && pos == 512 * k
            && (k % g.csize == 0 ==> var nxt := if pos == 0 then 0 else cur + 1; nxt <= n && k == g.csize * nxt)
            && (k % g.csize != 0 ==> pos > 0 && cur < n && k == g.csize * cur + k % g.csize)
  {
    var k := pos / 512;
    var q, r := Split(g.csize, k);
    if pos > 0 {
      Bytes(g.csize, cur);
      Bytes(g.csize, cur + 1);
      ProductOrder(g.csize, cur, q);
      ProductOrder(g.csize, q, cur + 1);
      ProductOrder(g.csize, cur, q + 1);
      ProductOrder(g.csize, cur + 1, q);
      assert g.csize * (q + 1) == g.csize * q + g.csize;
    } else {
      assert k == 0;
    }
  }

  /** Moving w bytes on from pos, inside sector k of cluster i, keeps the shape. */
  lemma ShapeAfterWrite(g: Geo, n: nat, n': nat, size: nat, pos: nat, i: nat, csect: nat, w: nat)
    requires g.csize > 0 && i < n' && csect < g.csize && w > 0 && pos <= size <= Bcs(g) * n
    requires n' == n || (n' == n + 1 && i == n)
    requires n > 0 ==> Bcs(g) * (n - 1) < size
    requires 512 * (g.csize * i + csect) <= pos && pos + w <= 512 * (g.csize * i + g.csize)
    ensures Shape(Bcs(g), n', Max(pos + w, size), pos + w, i)
  {
    Bytes(g.csize, i);
    Bytes(g.csize, i + 1);
    assert g.csize * (i + 1) == g.csize * i + g.csize;
    ProductOrder(Bcs(g), i + 1, n');
    ProductOrder(Bcs(g), n, n');
  }

  lemma ShapeAfterRead(g: Geo, n: nat, size: nat, pos: nat, i: nat, csect: nat, w: nat)
    requires g.csize > 0 && i < n && csect < g.csize && w > 0 && pos + w <= size <= Bcs(g) * n
    requires n > 0 ==> Bcs(g) * (n - 1) < size
    requires 512 * (g.csize * i + csect) <= pos && pos + w <= 512 * (g.csize * i + g.csize)
    ensures Shape(Bcs(g), n, size, pos + w, i)
  {
    Bytes(g.csize, i);
    Bytes(g.csize, i + 1);
    assert g.csize * (i + 1) == g.csize * i + g.csize;
  }

  /** Inside a sector: it belongs to the current cluster. */
  lemma InsideSector(g: Geo, n: nat, size: nat, pos: nat, cur: nat)
    requires g.csize > 0 && Shape(Bcs(g), n, size, pos, cur) && pos % 512 != 0
    ensures cur < n
    ensures var k := pos / 512; g.csize * cur <= k < g.csize * cur + g.csize && pos == 512 * k + pos % 512
  {
    Bytes(g.csize, cur);
    Bytes(g.csize, cur + 1);
    assert g.csize * (cur + 1) == g.csize * cur + g.csize;
  }

  // ---- the cluster steps of f_read, f_write and f_lseek ----

  lemma CoreHeads(g: Geo, s: Snap, r: FileRec)
    requires FileCore(g, s, r)
    ensures |FatOf(g, s.view)| == g.nFatent <= 0x0FFF_FFF7
    ensures r.chain == [] <==> r.sclust == 0
    ensures r.chain != [] ==> r.chain[0] == r.sclust
    ensures forall i :: 0 <= i < |r.chain| ==> 2 <= r.chain[i] < g.nFatent && FatOf(g, s.view)[r.chain[i]] >= 2
    ensures forall i :: 0 <= i < |r.chain| - 1 ==> FatOf(g, s.view)[r.chain[i]] == r.chain[i + 1]
    ensures r.chain != [] ==> FatOf(g, s.view)[r.chain[|r.chain| - 1]] >= g.nFatent
  {
    var f := FatOf(g, s.view);
    if r.chain != [] {
      ChainUsed(f, r.chain);
      forall i | 0 <= i < |r.chain|
        ensures 2 <= r.chain[i] < g.nFatent && f[r.chain[i]] >= 2
      {
        assert r.chain[i] in r.chain;
      }
    }
  }

  /** What create_chain returned when asked for the cluster after position nxt - 1. */
  lemma CreatedNext(f: Fat, f': Fat, ch: seq<nat>, nxt: nat, clst: nat, last: nat, c: nat, end: nat)
    requires (ch == [] || IsChain(f, ch)) && nxt <= |ch| && Created(f, f', clst, last, c, end)
    requires clst == if nxt == 0 then 0 else ch[nxt - 1]
    requires nxt == 0 ==> ch == []
    ensures nxt < |ch| ==> f' == f && c == ch[nxt]
    ensures nxt == |ch| ==> 2 <= c < |f| && f[c] == 0 && f' == Linked(f, Tail(ch), c, end) && (Tail(ch) == 0 || 2 <= Tail(ch) < |f|)
    ensures nxt == |ch| && end != 0 ==> f' != f
  {
    if nxt > 0 {
      assert IsCl(f, ch[nxt - 1]);
      if nxt < |ch| { assert f[ch[nxt - 1]] == ch[nxt] && IsCl(f, ch[nxt]); }
    }
    if nxt == |ch| && end != 0 {
      assert f'[c] != 0;
    }
  }

  /** An insane FAT in spite of a sound chain holds the value 1 somewhere. */
  lemma InsaneSomewhere(f: Fat, ch: seq<nat>, i: nat)
    requires IsChain(f, ch) && i < |ch| && Insane(f, ch[i])
    ensures exists c :: 2 <= c < |f| && f[c] == 1
  {
    ChainUsed(f, ch);
    assert ch[i] in ch;
    var c :| IsCl(f, c) && f[c] == 1;
  }

  lemma InsaneNew(f: Fat)
    requires Insane(f, 0)
    ensures exists c :: 2 <= c < |f| && f[c] == 1
  {
    var c :| IsCl(f, c) && f[c] == 1;
  }

  lemma SafeOfTidy(g: Geo, s: Snap, ch: seq<nat>)
    ensures Tidy(g, s, ch) ==> SafeNow(g, s)
  {
  }

  lemma StepSafe(g: Geo, reliable: bool, s: Snap, s': Snap, a: seq<nat>, b: seq<nat>)
    requires FileStep(g, reliable, s, s', a, b)
    ensures Tidy(g, s, a) ==> Tidy(g, s', b) && SafeNow(g, s')
  {
  }

  lemma GrowSafe(g: Geo, reliable: bool, s: Snap, s': Snap, a: seq<nat>, b: seq<nat>)
    requires GrowStep(g, reliable, s, s', a, b)
    ensures FileStep(g, reliable, s, s', a, b) && a <= b && (b == a ==> FatFollows(g, s, s'))
    ensures Fits(g, s.view) && DeviceKept(g, s, s', a)
    ensures Tidy(g, s, a) ==> Tidy(g, s', b) && SafeNow(g, s')
  {
    StepSafe(g, reliable, s, s', a, b);
  }

  // ---- opening ----

  /** The bytes an image holds for a file with chain ch and a given size. */
  ghost function OnDevice(g: Geo, v: Image, ch: seq<nat>, size: nat): (c: Content)
    requires size <= 512 * |Sectors(g, ch)| && forall k :: 0 <= k < |Sectors(g, ch)| ==> Sectors(g, ch)[k] < |v|
    ensures |c| == size
  {
    seq(size, p requires 0 <= p < size => Some(v[Sectors(g, ch)[p / 512]][p % 512]))
  }

  lemma OnDeviceStored(g: Geo, v: Image, ch: seq<nat>, size: nat)
    requires size <= 512 * |Sectors(g, ch)| && forall k :: 0 <= k < |Sectors(g, ch)| ==> Sectors(g, ch)[k] < |v|
    requires g.csize > 0 && AllClusters(g, ch)
    ensures Stored(g, v, ch, OnDevice(g, v, ch, size)) && forall n :: 0 <= n < size ==> OnDevice(g, v, ch, size)[n].Some?
  {
    OnDeviceShows(g, v, ch, size);
    hide Sectors;
    ShownStored(g, v, ch, OnDevice(g, v, ch, size));
  }

  /** The volume holds the bytes of an open file, with the buffer in its place if it is dirty. */
  lemma FileStored(g: Geo, s: Snap, r: FileRec)
    requires FileInv(g, s, r)
    ensures r.dirty ==> r.sect < |s.view|
    ensures Stored(g, if r.dirty then s.view[r.sect := r.buf] else s.view, r.chain, r.content)
  {
    GeoFacts(g, s.view);
    CoreFacts(g, s, r);
    hide Sectors, FatOf, IsChain, Fits;
    var v := if r.dirty then s.view[r.sect := r.buf] else s.view;
    ShownStored(g, v, r.chain, r.content);
  }

  /** Contents that are all defined and agree with the device are the device's. */
  lemma OnDeviceShows(g: Geo, v: Image, ch: seq<nat>, size: nat)
    requires size <= 512 * |Sectors(g, ch)| && forall k :: 0 <= k < |Sectors(g, ch)| ==> Sectors(g, ch)[k] < |v|
    ensures forall k :: 0 <= k < |Sectors(g, ch)| ==> Shows(OnDevice(g, v, ch, size), k, v[Sectors(g, ch)[k]])
  {
    hide Sectors;
    var c := OnDevice(g, v, ch, size);
    forall k | 0 <= k < |Sectors(g, ch)|
      ensures Shows(c, k, v[Sectors(g, ch)[k]])
    {
      forall j | 0 <= j < 512 && 512 * k + j < |c|
        ensures c[512 * k + j] == Some(v[Sectors(g, ch)[k]][j])
      {
        assert (512 * k + j) / 512 == k && (512 * k + j) % 512 == j;
      }
    }
  }

  /** A directory entry that describes a sound chain of the right length. */
  ghost predicate Described(g: Geo, s: Snap, sclust: u32, size: u32, ch: seq<nat>) {
    && Fits(g, s.view)
    && (ch == [] <==> sclust == 0)
    && (ch != [] ==> ch[0] == sclust && IsChain(FatOf(g, s.view), ch))
    && Shape(Bcs(g), |ch|, size, 0, 0)
    && s.winsect !in Sectors(g, ch)
  }

  lemma Opened(g: Geo, s: Snap, r: FileRec)
    requires Described(g, s, r.sclust, r.objsize, r.chain)
    requires r.fptr == 0 && r.sect == 0 && !r.dirty
    ensures r.objsize <= 512 * |Sectors(g, r.chain)| && forall k :: 0 <= k < |Sectors(g, r.chain)| ==> Sectors(g, r.chain)[k] < |s.view|
    ensures r.content == OnDevice(g, s.view, r.chain, r.objsize) ==> FileInv(g, s, r)
  {
    GeoFacts(g, s.view);
    ChainClusters(g, s.view, r.chain);
    SecsInDataOf(g, r.chain);
    SectorsLen(g, r.chain);
    Bytes(g.csize, |r.chain|);
    SectorsDistinct(g, r.chain);
    hide Sectors, FatOf, Fits, IsChain;
    OnDeviceShows(g, s.view, r.chain, r.objsize);
    if r.content == OnDevice(g, s.view, r.chain, r.objsize) {
      assert DataOk(s.view, DataOf(g, r));
    }
  }

  lemma OpenedStored(g: Geo, s: Snap, r: FileRec)
    requires Described(g, s, r.sclust, r.objsize, r.chain)
    requires r.objsize <= 512 * |Sectors(g, r.chain)| && forall k :: 0 <= k < |Sectors(g, r.chain)| ==> Sectors(g, r.chain)[k] < |s.view|
    requires r.content == OnDevice(g, s.view, r.chain, r.objsize)
    ensures Stored(g, s.view, r.chain, r.content) && |r.content| == r.objsize && forall n :: 0 <= n < r.objsize ==> r.content[n].Some?
  {
    GeoFacts(g, s.view);
    ChainClusters(g, s.view, r.chain);
    hide Sectors, FatOf, Fits, IsChain, OnDevice;
    OnDeviceStored(g, s.view, r.chain, r.objsize);
  }
}
