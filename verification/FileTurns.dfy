/** The turns of the loops of f_read, f_write and f_lseek, as values: where in the chain
    the file pointer stands, and what one turn makes of the invariant. */
module FileTurns {
  import opened Base
  import opened Numbers
  import opened FatTable
  import opened Chains
  import opened Geometry
  import opened FileData
  import opened FileLayout
  import opened FileSteps

  /** An entry of a used cluster that no chain can hold: why the file operations report
      an internal error. */
  ghost predicate HasOne(f: Fat) {
    exists c :: 2 <= c < |f| && f[c] == 1
  }

  /** No operation on a file puts one there. */
  lemma OnesKept(g: Geo, reliable: bool, s: Snap, s': Snap, ch: seq<nat>, r: FileRec)
    requires FileStep(g, reliable, s, s', ch, r.chain) && FileCore(g, s', r)
    ensures HasOne(FatOf(g, s'.view)) ==> HasOne(FatOf(g, s.view))
  {
    var f, f' := FatOf(g, s.view), FatOf(g, s'.view);
    if HasOne(f') {
      ChainUsed(f', r.chain);
      var c :| 2 <= c < |f'| && f'[c] == 1;
      hide FatOf, Fits, FileCore, IsChain;
      assert f[c] == 1;
    }
  }

  /** What f_sync needs even after an aborted operation: a dirty buffer belongs to the
      data area, and the window does not hold its sector. */
  ghost predicate Closable(g: Geo, s: Snap, r: FileRec) {
    r.dirty ==> g.database <= r.sect < g.Top() <= |s.view| && s.winsect != r.sect
  }

  lemma CoreClosable(g: Geo, s: Snap, r: FileRec)
    requires FileCore(g, s, r)
    ensures Closable(g, s, r)
  {
    if r.dirty {
      var k := DirtySector(g, s, r);
      CoreFacts(g, s, r);
    }
  }

  lemma ClosableParts(g: Geo, s: Snap, r: FileRec)
    requires Closable(g, s, r) && r.dirty
    ensures g.database <= r.sect < g.Top() <= |s.view| && s.winsect != r.sect
  {
  }

  /** Whatever happened in the FATs, the buffer can still be written back. */
  lemma ClosableAfter(g: Geo, reliable: bool, s: Snap, s': Snap, r: FileRec, r': FileRec)
    requires Closable(g, s, r) && Fits(g, s.view) && ChainStep(g, reliable, s, s')
    requires r'.dirty == r.dirty && r'.sect == r.sect
    ensures Closable(g, s', r')
  {
  }

  lemma ClosableClean(g: Geo, s: Snap, s': Snap, r: FileRec)
    ensures !r.dirty ==> Closable(g, s', r)
    ensures s' == s && Closable(g, s, r) ==> Closable(g, s', r)
  {
  }

  lemma InsaneChain(f: Fat, ch: seq<nat>, nxt: nat, clst: nat)
    requires (ch == [] || IsChain(f, ch)) && nxt <= |ch| && Insane(f, clst)
    requires clst == if nxt == 0 then 0 else ch[nxt - 1]
    ensures HasOne(f)
  {
    if nxt == 0 { InsaneNew(f); } else { InsaneSomewhere(f, ch, nxt - 1); }
  }

  /** Only the last cluster holds an end mark. */
  lemma AtTail(g: Geo, s: Snap, r: FileRec, nxt: nat)
    requires FileCore(g, s, r) && nxt <= |r.chain| && (nxt == 0 ==> r.chain == [])
    requires nxt == 0 || r.chain[nxt - 1] == 0 || (2 <= r.chain[nxt - 1] < g.nFatent && FatOf(g, s.view)[r.chain[nxt - 1]] >= g.nFatent)
    ensures nxt == |r.chain|
  {
    hide FatOf;
    if 0 < nxt < |r.chain| { NextLink(g, s, r, nxt); }
  }

  /** FileCore does not depend on the position. */
  lemma CoreMoved(g: Geo, s: Snap, r: FileRec, r': FileRec)
    requires FileCore(g, s, r) && r' == r.(clust := r'.clust, cur := r'.cur, fptr := r'.fptr)
    ensures FileCore(g, s, r')
  {
  }

  lemma HeadFacts(g: Geo, s: Snap, r: FileRec)
    requires FileCore(g, s, r)
    ensures r.chain == [] <==> r.sclust == 0
    ensures r.chain != [] ==> r.chain[0] == r.sclust
    ensures DISKERR == 0xFFFF_FFFF > g.nFatent
  {
  }

  /** The file that entered cluster c, number nxt of its chain. */
  function Entered(r: FileRec, nxt: nat, c: u32): (r': FileRec)
    ensures r' == r.(chain := if nxt < |r.chain| then r.chain else r.chain + [c],
                     sclust := if r.sclust == 0 then c else r.sclust, clust := c, cur := nxt)
  {
    r.(chain := if nxt < |r.chain| then r.chain else r.chain + [c],
       sclust := if r.sclust == 0 then c else r.sclust, clust := c, cur := nxt)
  }

  /** The file after create_chain was asked for cluster number nxt of the chain. */
  lemma CoreCreated(g: Geo, reliable: bool, s: Snap, s': Snap, r: FileRec, nxt: nat, clst: nat, last: nat, c: u32)
    requires FileCore(g, s, r) && ChainStep(g, reliable, s, s') && Fits(g, s'.view)
    requires DevStep(g, s, s', if FatOf(g, s'.view) == FatOf(g, s.view) then {} else {clst, c}, -1) && (SafeNow(g, s) ==> SafeNow(g, s'))
    requires nxt <= |r.chain| && (nxt == 0 ==> r.chain == []) && clst == if nxt == 0 then 0 else r.chain[nxt - 1]
    requires Created(FatOf(g, s.view), FatOf(g, s'.view), clst, last, c, EndMark(g.fsType))
    requires FatOf(g, s'.view) != FatOf(g, s.view) ==> g.InFat1(s'.winsect)
    ensures var r' := Entered(r, nxt, c);
            && FileCore(g, s', r') && GrowStep(g, reliable, s, s', r.chain, r'.chain)
            && nxt < |r'.chain| && r'.chain[nxt] == c && 2 <= c < g.nFatent
  {
    hide *;
    var r' := Entered(r, nxt, c);
    CoreParts(g, s, r);
    CoreHeads(g, s, r);
    StoredValues(g, s.view, 0);
    CreatedNext(FatOf(g, s.view), FatOf(g, s'.view), r.chain, nxt, clst, last, c, EndMark(g.fsType));
    var m := r.(chain := r'.chain, sclust := r'.sclust, clust := c);
    if nxt < |r.chain| {
      CoreAfterRead(g, reliable, s, s', r);
      CoreMoved(g, s', r, r');
    } else {
      TailIs(r.chain);
      CoreStretched(g, reliable, s, s', r, m, c);
      CoreMoved(g, s', m, r');
    }
  }

  lemma TailIs(ch: seq<nat>)
    ensures Tail(ch) == if ch == [] then 0 else ch[|ch| - 1]
  {
  }

  /** The first cluster is entered without a look at the FAT. */
  lemma CoreFirst(g: Geo, reliable: bool, s: Snap, r: FileRec)
    requires FileCore(g, s, r) && r.sclust != 0 && Fits(g, s.dev.disk) && |s.view| == |s.dev.disk|
    ensures r.chain != [] && 2 <= r.sclust < g.nFatent && FileCore(g, s, Entered(r, 0, r.sclust))
    ensures Entered(r, 0, r.sclust).chain == r.chain && r.chain[0] == r.sclust
    ensures GrowStep(g, reliable, s, s, r.chain, r.chain)
  {
    hide *;
    CoreParts(g, s, r);
    CoreHeads(g, s, r);
    CoreMoved(g, s, r, Entered(r, 0, r.sclust));
    GrowStepRefl(g, reliable, s, r.chain);
  }

  // ---- where the file pointer stands ----

  /** The pointer is off bytes into sector csect of the current cluster, and the file
      would need n clusters for its size: all it has, or all but the one just gained. */
  ghost predicate Placed(g: Geo, s: Snap, r: FileRec, n: nat, csect: nat, off: nat) {
    && FileCore(g, s, r)
    && r.cur < |r.chain| && r.clust == r.chain[r.cur] && csect < g.csize && off < 512
    && r.fptr == 512 * (g.csize * r.cur + csect) + off
    && r.fptr <= r.objsize <= Bcs(g) * n
    && (n == |r.chain| || (n + 1 == |r.chain| && r.cur == n))
    && (n > 0 ==> Bcs(g) * (n - 1) < r.objsize)
  }

  lemma InvOk(g: Geo, s: Snap, r: FileRec)
    ensures FileInv(g, s, r) ==> Closable(g, s, r)
  {
    if FileInv(g, s, r) { CoreClosable(g, s, r); }
  }

  lemma InvKept(g: Geo, s: Snap, s': Snap, r: FileRec)
    requires FileInv(g, s, r) && FileCore(g, s', r)
    ensures FileInv(g, s', r)
  {
    hide FileCore;
  }

  lemma InvParts(g: Geo, s: Snap, r: FileRec)
    requires FileInv(g, s, r)
    ensures FileCore(g, s, r) && Shape(Bcs(g), |r.chain|, r.objsize, r.fptr, r.cur) && r.fptr <= r.objsize
    ensures r.fptr > 0 ==> r.cur < |r.chain| && r.clust == r.chain[r.cur]
    ensures r.fptr % 512 != 0 ==> r.fptr / 512 < |Sectors(g, r.chain)| && r.sect == Sectors(g, r.chain)[r.fptr / 512]
    ensures g.csize > 0 && Closable(g, s, r) && Fits(g, s.view) && |r.content| == r.objsize
  {
    CoreFacts(g, s, r);
    CoreClosable(g, s, r);
  }

  lemma PlacedParts(g: Geo, s: Snap, r: FileRec, n: nat, csect: nat, off: nat)
    requires Placed(g, s, r, n, csect, off)
    ensures FileCore(g, s, r) && r.cur < |r.chain| && r.clust == r.chain[r.cur] && csect < g.csize
    ensures r.fptr == 512 * (g.csize * r.cur + csect) + off && r.fptr <= r.objsize <= Bcs(g) * n
    ensures n == |r.chain| || (n + 1 == |r.chain| && r.cur == n)
    ensures n > 0 ==> Bcs(g) * (n - 1) < r.objsize
  {
  }

  /** The sector the pointer stands in. */
  lemma PlacedSector(g: Geo, s: Snap, r: FileRec, n: nat, csect: nat, off: nat)
    requires Placed(g, s, r, n, csect, off)
    ensures FileCore(g, s, r) && r.fptr <= r.objsize && csect < g.csize
    ensures var k, x := g.csize * r.cur + csect, Clst2Sect(g, r.clust) + csect;
            && r.fptr == 512 * k + off && k < |Sectors(g, r.chain)| && Sectors(g, r.chain)[k] == x
            && 0 < g.database <= x < g.Top() <= |s.view| < 0x1_0000_0000 && x != s.winsect
    ensures 0 < Clst2Sect(g, r.clust)
  {
    hide *;
    PlacedParts(g, s, r, n, csect, off);
    CoreFacts(g, s, r);
    SectorAt(g, r.chain, r.cur, csect);
    ghost var k := g.csize * r.cur + csect;
    SectorsInData(g, r.chain, k);
    ClusterStart(g, s.view, r.chain, r.cur);
    NotMember(Sectors(g, r.chain), k, s.winsect);
  }

  lemma NotMember(secs: seq<nat>, k: nat, x: nat)
    requires k < |secs| && x !in secs
    ensures secs[k] != x
  {
  }

  lemma ClusterStart(g: Geo, v: Image, ch: seq<nat>, i: nat)
    requires Fits(g, v) && AllClusters(g, ch) && i < |ch|
    ensures 0 < g.database <= Clst2Sect(g, ch[i])
  {
    hide PowerOfTwo, TableBytes, Geo.Top;
    assert g.IsCluster(ch[i]);
  }

  /** The invariant after the pointer moved by w > 0. */
  lemma InvOf(g: Geo, s: Snap, r: FileRec, k: nat)
    requires FileCore(g, s, r) && Shape(Bcs(g), |r.chain|, r.objsize, r.fptr, r.cur)
    requires r.cur < |r.chain| && r.clust == r.chain[r.cur]
    requires r.fptr % 512 != 0 ==> r.fptr / 512 == k < |Sectors(g, r.chain)| && r.sect == Sectors(g, r.chain)[k]
    ensures FileInv(g, s, r)
  {
  }

  lemma PlacedKept(g: Geo, s: Snap, s': Snap, r: FileRec, r': FileRec, n: nat, csect: nat, off: nat)
    requires Placed(g, s, r, n, csect, off) && FileCore(g, s', r')
    requires r' == r.(sect := r'.sect, buf := r'.buf, dirty := r'.dirty)
    ensures Placed(g, s', r', n, csect, off)
  {
    hide FileCore;
  }

  /** (fptr / SS) & (csize - 1), for the power of two csize. */
  function SectorInCluster(g: Geo, pos: nat): (k: nat) {
    if g.csize == 0 then 0 else pos / 512 % g.csize
  }

  /** Not at a sector boundary: the buffer caches the sector. */
  lemma PlacedInside(g: Geo, s: Snap, r: FileRec) returns (csect: nat)
    requires FileInv(g, s, r) && r.fptr % 512 != 0
    ensures Placed(g, s, r, |r.chain|, csect, r.fptr % 512) && r.sect == Clst2Sect(g, r.clust) + csect
  {
    InvParts(g, s, r);
    hide FileCore, FileInv, Sectors;
    InsideSector(g, |r.chain|, r.objsize, r.fptr, r.cur);
    csect := r.fptr / 512 - g.csize * r.cur;
    SectorAt(g, r.chain, r.cur, csect);
  }

  /** At a sector boundary inside a cluster. */
  lemma PlacedMid(g: Geo, s: Snap, r: FileRec)
    requires FileInv(g, s, r) && r.fptr % 512 == 0 && SectorInCluster(g, r.fptr) != 0
    ensures Placed(g, s, r, |r.chain|, SectorInCluster(g, r.fptr), 0)
  {
    InvParts(g, s, r);
    hide FileCore, FileInv, Sectors;
    AtBoundary(g, |r.chain|, r.objsize, r.fptr, r.cur);
  }

  /** The cluster that begins at a cluster boundary. */
  function Following(r: FileRec): nat { if r.fptr == 0 then 0 else r.cur + 1 }

  lemma BoundaryFacts(g: Geo, s: Snap, r: FileRec)
    requires FileInv(g, s, r) && r.fptr % 512 == 0 && SectorInCluster(g, r.fptr) == 0
    ensures var nxt := Following(r);
            && nxt <= |r.chain| && r.fptr == 512 * (g.csize * nxt) && nxt == (if r.fptr == 0 then 0 else r.cur + 1)
            && (r.fptr < r.objsize ==> nxt < |r.chain|)
            && (nxt > 0 ==> r.clust == r.chain[nxt - 1] && r.chain != [])
            && (r.chain == [] ==> nxt == 0)
  {
    InvParts(g, s, r);
    hide FileCore, FileInv, Sectors;
    AtBoundary(g, |r.chain|, r.objsize, r.fptr, r.cur);
    Bytes(g.csize, Following(r));
  }

  /** At a cluster boundary, after the cluster there was entered. */
  lemma PlacedNext(g: Geo, s: Snap, s': Snap, r: FileRec, r': FileRec)
    requires FileInv(g, s, r) && r.fptr % 512 == 0 && SectorInCluster(g, r.fptr) == 0
    requires FileCore(g, s', r') && r'.cur == Following(r) < |r'.chain| && r'.clust == r'.chain[r'.cur]
    requires r'.fptr == r.fptr && r'.objsize == r.objsize
    requires r'.chain == r.chain || (|r'.chain| == |r.chain| + 1 && r'.cur == |r.chain|)
    ensures Placed(g, s', r', |r.chain|, 0, 0)
  {
    InvParts(g, s, r);
    BoundaryFacts(g, s, r);
    hide FileCore, FileInv, Sectors;
  }

  // ---- seeking ----

  /** On the way to target: the pointer is at the start of the current cluster and ofs
      bytes are still to go. */
  ghost predicate Seeking(g: Geo, s: Snap, r: FileRec, ofs: nat, target: nat) {
    && FileCore(g, s, r) && r.cur < |r.chain| && r.clust == r.chain[r.cur]
    && r.fptr == Bcs(g) * r.cur && r.fptr + ofs == target && ofs > 0
    && r.objsize <= Bcs(g) * |r.chain|
    && (r.cur + 1 == |r.chain| || Bcs(g) * (|r.chain| - 1) < r.objsize)
  }

  /** Arrived: once the size has grown to the pointer, and the buffer caches sector nsect
      if the pointer stands inside one, the invariant holds again. */
  ghost predicate Sought(g: Geo, s: Snap, r: FileRec, nsect: nat) {
    && FileCore(g, s, r)
    && Shape(Bcs(g), |r.chain|, Max(r.fptr, r.objsize), r.fptr, r.cur)
    && (r.fptr > 0 ==> r.cur < |r.chain| && r.clust == r.chain[r.cur])
    && (r.fptr % 512 != 0 ==> r.fptr / 512 < |Sectors(g, r.chain)| && nsect == Sectors(g, r.chain)[r.fptr / 512])
  }

  lemma SeekingParts(g: Geo, s: Snap, r: FileRec, ofs: nat, target: nat)
    requires Seeking(g, s, r, ofs, target)
    ensures FileCore(g, s, r) && Closable(g, s, r) && r.cur < |r.chain| && r.clust == r.chain[r.cur] && r.fptr + ofs == target && ofs > 0
    ensures r.fptr == Bcs(g) * r.cur && r.objsize <= Bcs(g) * |r.chain| && 0 < Bcs(g) == 512 * g.csize
  {
    CoreClosable(g, s, r);
    CoreFacts(g, s, r);
  }

  /** The same or a following cluster is recognised by its number. */
  lemma SameOrFollowing(bcs: nat, cur: nat, pos: nat, target: nat)
    requires bcs > 0 && bcs * cur < pos <= bcs * (cur + 1) && target > 0
    ensures (pos - 1) / bcs == cur
    ensures (target - 1) / bcs >= (pos - 1) / bcs <==> target > bcs * cur
  {
    hide *;
    assert bcs * (cur + 1) == bcs * cur + bcs;
    QuotientIs(pos - 1, bcs, cur, pos - 1 - bcs * cur);
    var q, j := Split(bcs, target - 1);
    if q >= cur { ProductOrder(bcs, cur, q); }
    if q < cur { MulGap(bcs, q, cur); }
  }

  /** (ifptr - 1) & ~(bcs - 1), for the power of two bcs. */
  function AlignDown(bcs: nat, x: nat): (r: nat)
    ensures r <= x
  {
    if bcs == 0 then 0 else x - x % bcs
  }

  lemma SeekFromHere(g: Geo, s: Snap, r: FileRec, target: nat)
    requires FileInv(g, s, r) && r.fptr > 0 && target > 0
    ensures Bcs(g) == 512 * g.csize > 0
    ensures (target - 1) / Bcs(g) >= (r.fptr - 1) / Bcs(g) ==>
              var p := AlignDown(Bcs(g), r.fptr - 1);
              p < target && Seeking(g, s, r.(fptr := p), target - p, target)
  {
    hide *;
    InvParts(g, s, r);
    BcsIs(g);
    var b, p := Bcs(g), AlignDown(Bcs(g), r.fptr - 1);
    ShapeParts(b, |r.chain|, r.objsize, r.fptr, r.cur);
    SameOrFollowing(b, r.cur, r.fptr, target);
    AlignIs(b, r.fptr - 1);
    if (target - 1) / b >= (r.fptr - 1) / b {
      CoreMoved(g, s, r, r.(fptr := p));
      SeekingOf(g, s, r.(fptr := p), target - p, target);
    }
  }

  lemma BcsIs(g: Geo)
    ensures Bcs(g) == 512 * g.csize
  {
  }

  lemma ShapeParts(bcs: nat, n: nat, size: nat, pos: nat, cur: nat)
    requires Shape(bcs, n, size, pos, cur)
    ensures pos <= size <= bcs * n && (n > 0 ==> bcs * (n - 1) < size)
    ensures pos > 0 ==> cur < n && bcs * cur < pos <= bcs * (cur + 1)
  {
  }

  lemma AlignIs(bcs: nat, x: nat)
    requires bcs > 0
    ensures AlignDown(bcs, x) == bcs * (x / bcs)
  {
    var i, j := Split(bcs, x);
  }

  lemma SeekingOf(g: Geo, s: Snap, r: FileRec, ofs: nat, target: nat)
    requires FileCore(g, s, r) && r.cur < |r.chain| && r.clust == r.chain[r.cur]
    requires r.fptr == Bcs(g) * r.cur && r.fptr + ofs == target && ofs > 0
    requires r.objsize <= Bcs(g) * |r.chain| && Bcs(g) * (|r.chain| - 1) < r.objsize
    ensures Seeking(g, s, r, ofs, target)
  {
  }

  lemma SeekFromStart(g: Geo, s: Snap, s': Snap, r: FileRec, r': FileRec, target: nat)
    requires FileInv(g, s, r) && FileCore(g, s', r') && target > 0
    requires r'.chain == r.chain != [] || (r.chain == [] && |r'.chain| == 1)
    requires r'.objsize == r.objsize && r'.fptr == 0 && r'.cur == 0 && r'.clust == r'.chain[0]
    ensures Seeking(g, s', r', target, target)
  {
    InvParts(g, s, r);
    hide FileCore, FileInv, Sectors;
  }

  lemma SeekTurn(g: Geo, s: Snap, s': Snap, r: FileRec, r': FileRec, ofs: nat, target: nat)
    requires Seeking(g, s, r, ofs, target) && ofs > Bcs(g) && FileCore(g, s', r')
    requires r'.cur == r.cur + 1 < |r'.chain| && r'.clust == r'.chain[r'.cur]
    requires r'.fptr == r.fptr + Bcs(g) && r'.objsize == r.objsize
    requires r'.chain == r.chain || (|r'.chain| == |r.chain| + 1 && r.cur + 1 == |r.chain|)
    ensures Seeking(g, s', r', ofs - Bcs(g), target)
  {
    hide *;
    SeekingParts(g, s, r, ofs, target);
    assert Bcs(g) * (r.cur + 1) == Bcs(g) * r.cur + Bcs(g);
    ProductOrder(Bcs(g), |r.chain|, |r'.chain|);
    SeekingAgain(g, s, s', r, r', ofs, target);
  }

  lemma SeekingAgain(g: Geo, s: Snap, s': Snap, r: FileRec, r': FileRec, ofs: nat, target: nat)
    requires Seeking(g, s, r, ofs, target) && ofs > Bcs(g) && FileCore(g, s', r')
    requires r'.cur == r.cur + 1 < |r'.chain| && r'.clust == r'.chain[r'.cur] && r'.objsize == r.objsize
    requires r'.fptr == r.fptr + Bcs(g) == Bcs(g) * r'.cur && r.objsize <= Bcs(g) * |r'.chain|
    requires r'.chain == r.chain || (|r'.chain| == |r.chain| + 1 && r.cur + 1 == |r.chain|)
    ensures Seeking(g, s', r', ofs - Bcs(g), target)
  {
    hide FileCore, Bcs;
  }

  lemma SeekDone(g: Geo, s: Snap, r: FileRec, r': FileRec, ofs: nat, target: nat, nsect: nat)
    requires Seeking(g, s, r, ofs, target) && ofs <= Bcs(g) && r' == r.(fptr := r'.fptr) && r'.fptr == target
    requires ofs % 512 != 0 ==> nsect == Clst2Sect(g, r.clust) + ofs / 512
    ensures Sought(g, s, r', nsect)
    ensures ofs % 512 != 0 ==> 0 < Clst2Sect(g, r.clust) <= Clst2Sect(g, r.clust) + ofs / 512 < 0x1_0000_0000
  {
    hide *;
    SeekingParts(g, s, r, ofs, target);
    CoreFacts(g, s, r);
    CoreMoved(g, s, r, r');
    SoughtShape(g, s, r, ofs, target);
    if ofs % 512 != 0 {
      var k := SoughtAt(g, s, r, ofs, target);
      SoughtOf(g, s, r', nsect, k);
    } else {
      Bytes(g.csize, r.cur);
      TargetAligned(g.csize * r.cur, ofs);
      SoughtOf(g, s, r', nsect, 0);
    }
  }

  lemma TargetAligned(k: nat, ofs: nat)
    ensures (512 * k + ofs) % 512 == ofs % 512 && (512 * k + ofs) / 512 == k + ofs / 512
  {
  }

  /** The sector in the current cluster where the way ends. */
  lemma SoughtAt(g: Geo, s: Snap, r: FileRec, ofs: nat, target: nat) returns (k: nat)
    requires Seeking(g, s, r, ofs, target) && ofs <= Bcs(g) && ofs % 512 != 0
    ensures target / 512 == k < |Sectors(g, r.chain)| && Sectors(g, r.chain)[k] == Clst2Sect(g, r.clust) + ofs / 512
    ensures 0 < Clst2Sect(g, r.clust) <= Clst2Sect(g, r.clust) + ofs / 512 < 0x1_0000_0000
  {
    hide *;
    SeekingParts(g, s, r, ofs, target);
    CoreFacts(g, s, r);
    Bytes(g.csize, r.cur);
    TargetAligned(g.csize * r.cur, ofs);
    var x := ofs / 512;
    k := g.csize * r.cur + x;
    SectorAt(g, r.chain, r.cur, x);
    SectorsInData(g, r.chain, k);
    ClusterStart(g, s.view, r.chain, r.cur);
  }

  lemma SoughtShape(g: Geo, s: Snap, r: FileRec, ofs: nat, target: nat)
    requires Seeking(g, s, r, ofs, target) && ofs <= Bcs(g)
    ensures Shape(Bcs(g), |r.chain|, Max(target, r.objsize), target, r.cur)
  {
    hide FileCore, Sectors, Bcs;
    assert Bcs(g) * (r.cur + 1) == Bcs(g) * r.cur + Bcs(g);
    ProductOrder(Bcs(g), r.cur + 1, |r.chain|);
  }

  lemma SoughtOf(g: Geo, s: Snap, r: FileRec, nsect: nat, k: nat)
    requires FileCore(g, s, r) && Shape(Bcs(g), |r.chain|, Max(r.fptr, r.objsize), r.fptr, r.cur)
    requires r.fptr > 0 ==> r.cur < |r.chain| && r.clust == r.chain[r.cur]
    requires r.fptr % 512 != 0 ==> r.fptr / 512 == k < |Sectors(g, r.chain)| && nsect == Sectors(g, r.chain)[k]
    ensures Sought(g, s, r, nsect)
  {
  }

  /** In read-only mode the target lies within the file, so there is a next cluster. */
  lemma SeekRoom(g: Geo, s: Snap, r: FileRec, ofs: nat, target: nat)
    requires Seeking(g, s, r, ofs, target) && ofs > Bcs(g)
    ensures target <= r.objsize ==> r.cur + 1 < |r.chain|
  {
    hide FileCore, Sectors, Bcs;
    assert Bcs(g) * (r.cur + 1) == Bcs(g) * r.cur + Bcs(g);
  }

  /** f_lseek in write mode stopped short of the target because the volume is full. */
  ghost predicate AtFull(g: Geo, f: Fat, r: FileRec, canWrite: bool, target: nat) {
    canWrite && r.fptr < target && CountFree(f) == 0 && r.fptr == Bcs(g) * |r.chain|
  }

  lemma FullOf(g: Geo, f: Fat, r: FileRec, canWrite: bool, target: nat)
    requires canWrite && r.fptr < target && CountFree(f) == 0 && r.fptr == Bcs(g) * |r.chain|
    ensures AtFull(g, f, r, canWrite, target)
  {
  }

  lemma ClosableMoved(g: Geo, s: Snap, r: FileRec, r': FileRec)
    requires Closable(g, s, r) && r'.dirty == r.dirty && r'.sect == r.sect
    ensures Closable(g, s, r')
  {
  }

  lemma SeekingFits(g: Geo, s: Snap, r: FileRec, ofs: nat, target: nat)
    requires Seeking(g, s, r, ofs, target)
    ensures Fits(g, s.view) && g.csize > 0 && DISKERR == 0xFFFF_FFFF
  {
    CoreFacts(g, s, r);
  }

  lemma HereIsCluster(g: Geo, s: Snap, r: FileRec)
    requires FileInv(g, s, r) && r.fptr > 0
    ensures 2 <= r.clust < g.nFatent
  {
    hide *;
    InvParts(g, s, r);
    CoreHeads(g, s, r);
  }

  /** The volume is full: the pointer stays at the end of the last cluster. */
  lemma SeekFull(g: Geo, s: Snap, s': Snap, r: FileRec, r': FileRec, ofs: nat, target: nat, nsect: nat)
    requires Seeking(g, s, r, ofs, target) && FileCore(g, s', r) && r.cur + 1 == |r.chain|
    requires r' == r.(fptr := r'.fptr) && r'.fptr == r.fptr + Bcs(g)
    ensures Sought(g, s', r', nsect) && r'.fptr == Bcs(g) * |r.chain|
  {
    hide *;
    SeekingParts(g, s, r, ofs, target);
    CoreMoved(g, s', r, r');
    FullShape(Bcs(g), |r.chain|, r.objsize, r.cur);
    Bytes(g.csize, |r.chain|);
    SectorAligned(g.csize * |r.chain|);
    SoughtOf(g, s', r', nsect, 0);
  }

  lemma SectorAligned(k: nat)
    ensures 512 * k % 512 == 0
  {
  }

  lemma FullShape(bcs: nat, n: nat, size: nat, cur: nat)
    requires bcs > 0 && cur + 1 == n && size <= bcs * n
    ensures bcs * n == bcs * cur + bcs && Shape(bcs, n, Max(bcs * n, size), bcs * n, cur)
  {
  }

  lemma SeekNowhere(g: Geo, s: Snap, s': Snap, r: FileRec, r': FileRec, nsect: nat)
    requires FileInv(g, s, r) && FileCore(g, s', r) && r' == r.(fptr := 0, clust := r'.clust)
    ensures Sought(g, s', r', nsect)
  {
    InvParts(g, s, r);
    hide FileCore, Sectors;
    CoreMoved(g, s', r, r');
  }

  /** The size grows to the pointer. */
  lemma SeekGrown(g: Geo, s: Snap, r: FileRec, r': FileRec, nsect: nat)
    requires Sought(g, s, r, nsect)
    requires r' == r.(content := Grown(r.content, r.fptr), objsize := Max(r.fptr, r.objsize))
    ensures Sought(g, s, r', nsect) && FileCore(g, s, r') && Closable(g, s, r') && r'.fptr <= r'.objsize == |r'.content|
    ensures r'.fptr % 512 == 0 || r'.sect == nsect ==> FileInv(g, s, r')
    ensures r'.fptr % 512 != 0 ==> r'.fptr / 512 < |Sectors(g, r'.chain)| && nsect == Sectors(g, r'.chain)[r'.fptr / 512]
  {
    CoreFacts(g, s, r);
    Bytes(g.csize, |r.chain|);
    hide FileCore, Sectors;
    CoreGrown(g, s, r, r', r.fptr);
    CoreClosable(g, s, r');
    CoreParts(g, s, r');
  }

  /** The buffer now caches the sector the pointer stands in. */
  lemma SeekLoaded(g: Geo, s: Snap, s': Snap, r: FileRec, r': FileRec, nsect: u32)
    requires Sought(g, s, r, nsect) && r.fptr <= r.objsize && r.fptr % 512 != 0
    requires FileCore(g, s', r') && r' == r.(sect := nsect, buf := r'.buf, dirty := r'.dirty)
    ensures FileInv(g, s', r')
  {
    hide FileCore, Sectors;
  }

  lemma EmptyIsShort(g: Geo, s: Snap, r: FileRec)
    requires FileInv(g, s, r)
    ensures r.chain == [] ==> r.objsize == 0
  {
  }

  lemma SoughtSector(g: Geo, s: Snap, r: FileRec, nsect: nat)
    requires Sought(g, s, r, nsect) && r.fptr % 512 != 0
    ensures FileCore(g, s, r) && r.fptr / 512 < |Sectors(g, r.chain)| && nsect == Sectors(g, r.chain)[r.fptr / 512]
    ensures Fits(g, s.view)
  {
  }

  /** A sector of the file lies on the device and not in the window. */
  lemma SectorOutside(g: Geo, s: Snap, r: FileRec, k: nat)
    requires FileCore(g, s, r) && k < |Sectors(g, r.chain)|
    ensures g.database <= Sectors(g, r.chain)[k] < g.Top() <= |s.view| < 0x1_0000_0000 && Sectors(g, r.chain)[k] != s.winsect
  {
    hide *;
    CoreFacts(g, s, r);
    SectorsInData(g, r.chain, k);
    NotMember(Sectors(g, r.chain), k, s.winsect);
  }

  /** Read-only mode clips the offset at the file size. */
  function SeekTarget(canWrite: bool, size: nat, ofs: nat): (t: nat)
    ensures t <= ofs
  {
    if canWrite || ofs <= size then ofs else size
  }

  lemma TargetIs(canWrite: bool, size: nat, ofs: nat)
    ensures SeekTarget(canWrite, size, ofs) == if ofs > size && !canWrite then size else ofs
  {
  }

  lemma GrownIs(c: Content, n: nat)
    ensures n <= |c| ==> Grown(c, n) == c
  {
  }

  lemma AtFullKept(g: Geo, f: Fat, r: FileRec, r': FileRec, canWrite: bool, target: nat)
    requires r'.fptr == r.fptr && r'.chain == r.chain
    ensures AtFull(g, f, r, canWrite, target) ==> AtFull(g, f, r', canWrite, target) && canWrite
  {
  }

  // ---- truncating ----

  /** How many clusters f_truncate keeps. */
  function KeptClusters(r: FileRec): (m: nat)
    ensures m == if r.fptr == 0 then 0 else r.cur + 1
  {
    if r.fptr == 0 then 0 else r.cur + 1
  }

  lemma CutFacts1(g: Geo, s: Snap, r: FileRec)
    requires FileInv(g, s, r) && r.fptr < r.objsize
    ensures var m, f := KeptClusters(r), FatOf(g, s.view);
            && FileCore(g, s, r) && r.chain != [] && IsChain(f, r.chain) && m <= |r.chain| && (m == 0 ==> r.sclust == r.chain[0])
            && (m > 0 ==> r.clust == r.chain[m - 1] && 2 <= r.clust < g.nFatent && 2 <= f[r.clust] < 0xFFFF_FFFF)
            && (m > 0 ==> (f[r.clust] < g.nFatent <==> m < |r.chain|))
            && (0 < m < |r.chain| ==> f[r.clust] == r.chain[m])
            && (m < |r.chain| ==> 2 <= r.chain[m] < g.nFatent)
  {
    hide *;
    InvParts(g, s, r);
    ShapeParts(Bcs(g), |r.chain|, r.objsize, r.fptr, r.cur);
    CoreHeads(g, s, r);
    CoreParts(g, s, r);
    if r.fptr > 0 { StatusBytes(g, s.view, r.clust); ClusterRange(g, s.view, r.clust); }
  }

  /** What the call of remove_chain does, if it is made. */
  lemma CutFacts2(g: Geo, s: Snap, r: FileRec, m: nat)
    requires FileCore(g, s, r) && m < |r.chain| && 2 <= r.chain[m] < g.nFatent
    requires m > 0 ==> 2 <= r.chain[m - 1] < g.nFatent && FatOf(g, s.view)[r.chain[m - 1]] == r.chain[m]
    ensures var f, p := FatOf(g, s.view), if m == 0 then 0 else r.chain[m - 1];
            && Removable(g, r.chain[m], p)
            && FreeWalk(CutAt(g, f, p), r.chain[m]) == CutFat(f, r.chain, m, EndMark(g.fsType))
            && !WalkFails(CutAt(g, f, p), r.chain[m])
            && (Tidy(g, s, r.chain) ==> CutHeadSafe(g, s, r.chain[m], p))
  {
    var f := FatOf(g, s.view);
    StoredValues(g, s.view, 0);
    hide FatOf, Fits, FreeWalk, WalkFails, CutFat, SafeNow, EndMark, DataOk;
    WalkCuts(f, r.chain, m, EndMark(g.fsType));
    assert IsCl(f, r.chain[m]);
    CutHeadOf(g, s, r.chain, m);
  }

  lemma CutHeadOf(g: Geo, s: Snap, ch: seq<nat>, m: nat)
    requires Fits(g, s.view) && m < |ch| && 2 <= ch[m] < g.nFatent
    requires m > 0 ==> 2 <= ch[m - 1] < g.nFatent && FatOf(g, s.view)[ch[m - 1]] == ch[m]
    ensures Tidy(g, s, ch) ==> CutHeadSafe(g, s, ch[m], if m == 0 then 0 else ch[m - 1])
  {
  }

  lemma CutNothing(f: Fat, ch: seq<nat>, end: nat)
    requires ch != [] && 2 <= ch[|ch| - 1] < |f|
    ensures CutFat(f, ch, |ch|, end) == f
  {
  }

  /** Nothing to write back after the cut. */
  lemma StepOfPrefix(g: Geo, reliable: bool, s: Snap, ch: seq<nat>, m: nat)
    requires Fits(g, s.view) && Fits(g, s.dev.disk) && m <= |ch| && |s.view| == |s.dev.disk|
    requires forall c :: c in ch && c !in ch[..m] ==> c < g.nFatent && FatOf(g, s.view)[c] == 0
    ensures FileStep(g, reliable, s, s, ch, ch[..m])
  {
    TidyPrefix(g, s, s, ch, m);
  }

  /** The file after f_truncate. */
  function CutRec(r: FileRec): (r': FileRec)
    requires r.fptr <= |r.content|
    ensures r' == r.(chain := if KeptClusters(r) <= |r.chain| then r.chain[..KeptClusters(r)] else r.chain,
                     content := r.content[..r.fptr], objsize := r.fptr, dirty := false,
                     sclust := if KeptClusters(r) == 0 then 0 else r.sclust)
  {
    r.(chain := if KeptClusters(r) <= |r.chain| then r.chain[..KeptClusters(r)] else r.chain,
       content := r.content[..r.fptr], objsize := r.fptr, dirty := false,
       sclust := if KeptClusters(r) == 0 then 0 else r.sclust)
  }

  lemma CutInv(g: Geo, reliable: bool, s: Snap, s1: Snap, s2: Snap, r: FileRec)
    requires FileInv(g, s, r) && r.fptr < r.objsize == |r.content| && Fits(g, s.dev.disk) && Fits(g, s1.dev.disk)
    requires ChainStep(g, reliable, s, s1) && Fits(g, s1.view)
    requires var m := KeptClusters(r);
             && m <= |r.chain| && (m > 0 ==> 2 <= r.chain[m - 1] < g.nFatent) && r.chain != []
             && FatOf(g, s1.view) == CutFat(FatOf(g, s.view), r.chain, m, EndMark(g.fsType))
    requires DeviceKept(g, s, s1, r.chain) && (Tidy(g, s, r.chain) ==> SafeNow(g, s1))
    requires r.dirty ==> DataStep(g, reliable, s1, s2, r.sect, [r.buf])
    requires !r.dirty ==> s2 == s1
    ensures FileInv(g, s2, CutRec(r)) && FileStep(g, reliable, s, s2, r.chain, CutRec(r).chain) && CutRec(r).chain <= r.chain
    ensures Closable(g, s2, CutRec(r)) && (Tidy(g, s, r.chain) ==> SafeNow(g, s2))
  {
    hide *;
    var m, r' := KeptClusters(r), CutRec(r);
    InvParts(g, s, r);
    SameSizes(g, s, s1, r.chain);
    CoreFacts(g, s, r);
    BcsIs(g);
    ShapeParts(Bcs(g), |r.chain|, r.objsize, r.fptr, r.cur);
    StepOfCut(g, reliable, s, s1, r, m);
    CutShape(g, |r.chain|, r.objsize, r.fptr, r.cur);
    if r.dirty {
      var k := DirtySector(g, s, r);
      DataStepParts(g, reliable, s1, s2, r.sect, [r.buf]);
      StepOfLateFlush(g, reliable, s1, s2, r.chain, m, k, r.sect, r.buf);
    } else {
      StepOfPrefix(g, reliable, s1, r.chain, m);
    }
    FileStepTrans(g, reliable, s, s1, s2, r.chain, r.chain, r'.chain);
    CoreCut(g, s, s1, s2, r, r', m);
    CutInvOf(g, s, s2, r, m);
    CoreClosable(g, s2, r');
    StepSafe(g, reliable, s, s2, r.chain, r'.chain);
  }

  lemma SameSizes(g: Geo, s: Snap, s': Snap, ch: seq<nat>)
    requires Fits(g, s.view) && DeviceKept(g, s, s', ch)
    ensures |s.view| == |s.dev.disk| == |s'.view| == |s'.dev.disk|
  {
  }

  /** What f_truncate has done when it comes to write the buffer back. */
  ghost predicate Freed(g: Geo, reliable: bool, s: Snap, s': Snap, r: FileRec) {
    var m := KeptClusters(r);
    && Fits(g, s.view) && Fits(g, s'.view) && Fits(g, s'.dev.disk)
    && m <= |r.chain| && r.chain != [] && (m > 0 ==> 2 <= r.chain[m - 1] < g.nFatent)
    && FatOf(g, s'.view) == CutFat(FatOf(g, s.view), r.chain, m, EndMark(g.fsType))
    && ChainStep(g, reliable, s, s') && DeviceKept(g, s, s', r.chain) && (Tidy(g, s, r.chain) ==> SafeNow(g, s'))
  }

  /** The device part of remove_chain, as f_truncate calls it. */
  lemma DeviceCut(g: Geo, s: Snap, s1: Snap, s': Snap, ch: seq<nat>, m: nat)
    requires Fits(g, s.view) && IsChain(FatOf(g, s.view), ch) && m < |ch| && (m > 0 ==> 2 <= ch[m - 1] < g.nFatent)
    requires Fits(g, s'.view) && DevStep(g, s, s1, {}, -1)
    requires DevStep(g, s1, s', Zeros(FatOf(g, s'.view)) + {if m == 0 then 0 else ch[m - 1]}, -1)
    requires FatOf(g, s'.view) == CutFat(FatOf(g, s.view), ch, m, EndMark(g.fsType))
    ensures DeviceKept(g, s, s', ch)
  {
    StoredValues(g, s.view, 0);
    CutFatFacts(FatOf(g, s.view), ch, m, EndMark(g.fsType));
    hide FatOf, Fits, CutFat, IsChain;
    var own := Zeros(FatOf(g, s'.view)) + {if m == 0 then 0 else ch[m - 1]};
    DevTrans(g, s, s1, s', {}, own, own, -1);
    DeviceAfter(g, s, s', own, ch);
  }

  lemma FreedOf(g: Geo, reliable: bool, s: Snap, s': Snap, r: FileRec, r': FileRec)
    requires ChainStep(g, reliable, s, s') && Fits(g, s.view) && Fits(g, s'.view) && Fits(g, s'.dev.disk)
    requires r' == r.(sclust := r'.sclust)
    requires var m := KeptClusters(r');
             && m <= |r.chain| && (m > 0 ==> 2 <= r.chain[m - 1] < g.nFatent) && r.chain != []
             && FatOf(g, s'.view) == CutFat(FatOf(g, s.view), r.chain, m, EndMark(g.fsType))
    requires DeviceKept(g, s, s', r.chain) && (Tidy(g, s, r.chain) ==> SafeNow(g, s'))
    ensures Freed(g, reliable, s, s', r)
  {
    hide FatOf, CutFat, ChainStep, Tidy, SafeNow, Fits, DeviceKept;
  }

  lemma FreedSafe(g: Geo, reliable: bool, s: Snap, s': Snap, r: FileRec)
    requires Freed(g, reliable, s, s', r)
    ensures Tidy(g, s, r.chain) ==> SafeNow(g, s')
  {
  }

  lemma CutDone(g: Geo, reliable: bool, s: Snap, s1: Snap, s2: Snap, r: FileRec)
    requires FileInv(g, s, r) && r.fptr < r.objsize == |r.content| && Fits(g, s.dev.disk)
    requires Freed(g, reliable, s, s1, r)
    requires r.dirty ==> DataStep(g, reliable, s1, s2, r.sect, [r.buf])
    requires !r.dirty ==> s2 == s1
    ensures FileInv(g, s2, CutRec(r)) && FileStep(g, reliable, s, s2, r.chain, CutRec(r).chain) && CutRec(r).chain <= r.chain
    ensures Closable(g, s2, CutRec(r)) && (Tidy(g, s, r.chain) ==> SafeNow(g, s2))
  {
    hide FileInv, FatOf, CutFat, ChainStep, Tidy, SafeNow, Fits, FileStep, DataStep, Closable, CutRec, DeviceKept;
    CutInv(g, reliable, s, s1, s2, r);
  }

  lemma CutShape(g: Geo, n: nat, size: nat, pos: nat, cur: nat)
    requires Shape(Bcs(g), n, size, pos, cur) && pos < size
    ensures var m := if pos == 0 then 0 else cur + 1;
            pos <= 512 * (g.csize * m) && Shape(Bcs(g), m, pos, pos, cur)
  {
    Bytes(g.csize, cur + 1);
  }

  lemma CutInvOf(g: Geo, s: Snap, s': Snap, r: FileRec, m: nat)
    requires FileInv(g, s, r) && r.fptr < r.objsize == |r.content| && m == KeptClusters(r) <= |r.chain|
    requires FileCore(g, s', CutRec(r)) && Shape(Bcs(g), m, r.fptr, r.fptr, r.cur)
    ensures FileInv(g, s', CutRec(r))
  {
    hide FileCore, Sectors, Shape;
    SectorsPrefix(g, r.chain, m);
    SectorsLen(g, r.chain[..m]);
    CutRoom(g, m, r.fptr, r.cur);
  }

  lemma CutRoom(g: Geo, m: nat, pos: nat, cur: nat)
    requires Shape(Bcs(g), m, pos, pos, cur)
    ensures pos % 512 != 0 ==> pos / 512 < g.csize * m
  {
    Bytes(g.csize, m);
  }

  // ---- writing ----

  /** A write into the buffered sector. */
  lemma PutInv(g: Geo, s: Snap, r: FileRec, r': FileRec, n: nat, csect: nat, off: nat, data: seq<byte>)
    requires Placed(g, s, r, n, csect, off) && r.sect == Clst2Sect(g, r.clust) + csect
    requires 0 < |data| <= 512 - off && r.fptr + |data| < 0x1_0000_0000
    requires r' == r.(buf := BufPut(r.buf, off, data), dirty := true,
                      content := Splice(r.content, r.fptr, data), objsize := Max(r.fptr + |data|, r.objsize),
                      fptr := r.fptr + |data|)
    ensures FileInv(g, s, r')
  {
    hide *;
    PlacedParts(g, s, r, n, csect, off);
    PlacedSector(g, s, r, n, csect, off);
    CoreFacts(g, s, r);
    CoreBufWritten(g, s, r, r', g.csize * r.cur + csect, off, data);
    ShapeAfterWrite(g, n, |r.chain|, r.objsize, r.fptr, r.cur, csect, |data|);
    SameFileSector(g.csize * r.cur + csect, off, |data|);
    InvOf(g, s, r', g.csize * r.cur + csect);
  }

  lemma SameFileSector(k: nat, off: nat, w: nat)
    requires off + w <= 512
    ensures (512 * k + off + w) % 512 != 0 ==> (512 * k + off + w) / 512 == k
  {
  }

  /** A write of whole sectors past the buffer. */
  lemma DirectInv(g: Geo, reliable: bool, s: Snap, s': Snap, r: FileRec, r': FileRec, n: nat, csect: nat, lba: u32, data: seq<Sector>)
    requires Placed(g, s, r, n, csect, 0) && !r.dirty && lba == Clst2Sect(g, r.clust) + csect
    requires 0 < |data| && csect + |data| <= g.csize && DataStep(g, reliable, s, s', lba, data)
    requires r.fptr + 512 * |data| < 0x1_0000_0000
    requires r' == r.(buf := Refilled(DataOf(g, r), lba, data),
                      content := Splice(r.content, r.fptr, Flat(data)), objsize := Max(r.fptr + 512 * |data|, r.objsize),
                      fptr := r.fptr + 512 * |data|)
    ensures FileInv(g, s', r') && GrowStep(g, reliable, s, s', r.chain, r.chain)
  {
    hide *;
    PlacedParts(g, s, r, n, csect, 0);
    PlacedSector(g, s, r, n, csect, 0);
    CoreFacts(g, s, r);
    ClusterRun(g, r.chain, r.cur, csect, |data|);
    RunFits(Sectors(g, r.chain), g.csize * r.cur + csect, lba, |data|);
    CoreDirectWritten(g, reliable, s, s', r, r', g.csize * r.cur + csect, lba, data);
    ShapeAfterWrite(g, n, |r.chain|, r.objsize, r.fptr, r.cur, csect, 512 * |data|);
    SameFileSector(g.csize * r.cur + csect + |data|, 0, 0);
    InvOf(g, s', r', g.csize * r.cur + csect);
  }

  /** A transfer of whole sectors, complete or not, touches sectors of the file only. */
  lemma DirectStep(g: Geo, reliable: bool, s: Snap, s': Snap, r: FileRec, n: nat, csect: nat, lba: nat, data: seq<Sector>, done: nat)
    requires Placed(g, s, r, n, csect, 0) && !r.dirty && lba == Clst2Sect(g, r.clust) + csect
    requires done <= |data| && csect + |data| <= g.csize
    requires if done == 0 then s' == s else DataStep(g, reliable, s, s', lba, data[..done])
    requires Fits(g, s.view) && Fits(g, s.dev.disk) && |s.view| == |s.dev.disk|
    ensures GrowStep(g, reliable, s, s', r.chain, r.chain) && Closable(g, s', r)
  {
    hide *;
    ClosableClean(g, s, s', r);
    if done == 0 {
      GrowStepRefl(g, reliable, s, r.chain);
    } else {
      PlacedParts(g, s, r, n, csect, 0);
      PlacedSector(g, s, r, n, csect, 0);
      CoreFacts(g, s, r);
      ClusterRun(g, r.chain, r.cur, csect, done);
      StepOfData(g, reliable, s, s', r, g.csize * r.cur + csect, lba, data[..done]);
    }
  }

  lemma RunFits(secs: seq<nat>, k: nat, lba: nat, n: nat)
    requires RunAt(secs, k, lba, n)
    ensures k + n <= |secs|
  {
  }

  /** Fields that a write of the first w bytes of data changes as it must. */
  ghost predicate Written(r: FileRec, r': FileRec, data: seq<byte>, w: nat) {
    && w <= |data| && r.fptr <= |r.content|
    && r'.fptr == r.fptr + w && r'.objsize == Max(r.fptr + w, r.objsize)
    && r'.content == Splice(r.content, r.fptr, data[..w])
  }

  lemma WrittenOf(r: FileRec, r': FileRec, data: seq<byte>, w: nat)
    requires w <= |data| && r.fptr <= |r.content|
    requires r'.fptr == r.fptr + w && r'.objsize == Max(r.fptr + w, r.objsize)
    requires r'.content == Splice(r.content, r.fptr, data[..w])
    ensures Written(r, r', data, w)
  {
  }

  lemma WrittenNone(r: FileRec, data: seq<byte>)
    requires r.fptr <= r.objsize == |r.content|
    ensures Written(r, r, data, 0)
  {
    SpliceNone(r.content, r.fptr);
    assert data[..0] == [];
  }

  lemma WrittenSame(r: FileRec, r1: FileRec, r': FileRec, data: seq<byte>, w: nat)
    requires r1.fptr == r.fptr && r1.objsize == r.objsize && r1.content == r.content
    ensures Written(r1, r', data, w) ==> Written(r, r', data, w)
  {
  }

  lemma WrittenParts(r: FileRec, r': FileRec, data: seq<byte>, w: nat)
    requires Written(r, r', data, w)
    ensures w <= |data| && r.fptr <= |r.content|
    ensures r'.fptr == r.fptr + w && r'.content == Splice(r.content, r.fptr, data[..w])
  {
  }

  /** How much of a write is left below the 4 GiB limit. */
  function ClipWrite(pos: u32, n: nat): (k: nat)
    ensures k <= n
  {
    if pos + n >= 0x1_0000_0000 then 0xFFFF_FFFF - pos else n
  }

  lemma ClipIs(pos: u32, n: nat)
    requires n < 0x1_0000_0000
    ensures (pos + n) % 0x1_0000_0000 < pos <==> pos + n >= 0x1_0000_0000
    ensures ClipWrite(pos, n) == if pos + n >= 0x1_0000_0000 then 0xFFFF_FFFF - pos else n
  {
  }

  /** Two turns in a row write one longer piece. */
  lemma WrittenTwice(r: FileRec, r1: FileRec, r2: FileRec, data: seq<byte>, a: nat, b: nat)
    requires a <= |data| && Written(r, r1, data, a) && Written(r1, r2, data[a..], b)
    ensures a + b <= |data| && Written(r, r2, data, a + b)
  {
    hide Splice;
    SpliceTwice(r.content, r.fptr, data[..a], data[a..][..b]);
    assert data[..a] + data[a..][..b] == data[..a + b];
  }

  lemma MaxIs(a: nat, b: nat)
    ensures Max(a, b) == if a > b then a else b
  {
  }

  lemma DataOfRec(g: Geo, r: FileRec)
    ensures DataOf(g, r).sect == r.sect && DataOf(g, r).buf == r.buf && DataOf(g, r).dirty == r.dirty
  {
  }

  lemma RefilledIs(f: FState, lba: u32, data: seq<Sector>)
    ensures Refilled(f, lba, data) == if Sub32(f.sect, lba) < |data| then data[Sub32(f.sect, lba)] else f.buf
  {
  }

  lemma InBounds(g: Geo, s: Snap, r: FileRec, n: nat, csect: nat, off: nat)
    requires Placed(g, s, r, n, csect, off)
    ensures r.fptr <= r.objsize == |r.content| && csect < g.csize && Closable(g, s, r)
    ensures Fits(g, s.view) && FileCore(g, s, r)
  {
    CoreClosable(g, s, r);
  }

  /** The buffer has been written back if it was dirty. */
  lemma PlacedFlushed(g: Geo, reliable: bool, s: Snap, s': Snap, r: FileRec, r': FileRec, n: nat, csect: nat)
    requires Placed(g, s, r, n, csect, 0) && r' == r.(dirty := false) && Fits(g, s.dev.disk) && |s.view| == |s.dev.disk|
    requires r.dirty ==> DataStep(g, reliable, s, s', r.sect, [r.buf])
    requires !r.dirty ==> s' == s
    ensures Placed(g, s', r', n, csect, 0) && GrowStep(g, reliable, s, s', r.chain, r.chain) && Closable(g, s', r')
  {
    hide *;
    PlacedParts(g, s, r, n, csect, 0);
    CoreParts(g, s, r);
    CoreFlushedOrClean(g, reliable, s, s', r);
    PlacedKept(g, s, s', r, r', n, csect, 0);
    CoreClosable(g, s', r');
  }

  lemma CoreFlushedOrClean(g: Geo, reliable: bool, s: Snap, s': Snap, r: FileRec)
    requires FileCore(g, s, r) && Fits(g, s.dev.disk) && |s.view| == |s.dev.disk|
    requires r.dirty ==> DataStep(g, reliable, s, s', r.sect, [r.buf])
    requires !r.dirty ==> s' == s
    ensures FileCore(g, s', r.(dirty := false)) && GrowStep(g, reliable, s, s', r.chain, r.chain)
  {
    hide *;
    CoreParts(g, s, r);
    if r.dirty {
      CoreFlushed(g, reliable, s, s', r);
    } else {
      assert r.(dirty := false) == r;
      GrowStepRefl(g, reliable, s, r.chain);
    }
  }

  // ---- reading ----

  lemma TakeInv(g: Geo, s: Snap, r: FileRec, csect: nat, off: nat, w: nat)
    requires Placed(g, s, r, |r.chain|, csect, off) && r.sect == Clst2Sect(g, r.clust) + csect
    requires 0 < w <= 512 - off && r.fptr + w <= r.objsize == |r.content|
    ensures FileInv(g, s, r.(fptr := r.fptr + w))
    ensures Matches(r.buf[off..off + w], r.content[r.fptr..r.fptr + w])
  {
    hide *;
    PlacedParts(g, s, r, |r.chain|, csect, off);
    PlacedSector(g, s, r, |r.chain|, csect, off);
    CoreParts(g, s, r);
    CoreFacts(g, s, r);
    DataOfSecs(g, r);
    var r' := r.(fptr := r.fptr + w);
    CoreMoved(g, s, r, r');
    BufRead(s.view, DataOf(g, r), g.csize * r.cur + csect, off, w);
    ShapeAfterRead(g, |r.chain|, r.objsize, r.fptr, r.cur, csect, w);
    SameFileSector(g.csize * r.cur + csect, off, w);
    InvOf(g, s, r', g.csize * r.cur + csect);
  }

  lemma TakeDirect(g: Geo, s: Snap, r: FileRec, csect: nat, lba: u32, n: nat)
    requires Placed(g, s, r, |r.chain|, csect, 0) && lba == Clst2Sect(g, r.clust) + csect
    requires 0 < n && csect + n <= g.csize && r.fptr + 512 * n <= r.objsize == |r.content|
    requires lba + n <= |s.view|
    ensures FileInv(g, s, r.(fptr := r.fptr + 512 * n))
    ensures Matches(Flat(Overlaid(DataOf(g, r), lba, s.view[lba..lba + n])), r.content[r.fptr..r.fptr + 512 * n])
  {
    hide *;
    PlacedParts(g, s, r, |r.chain|, csect, 0);
    PlacedSector(g, s, r, |r.chain|, csect, 0);
    CoreParts(g, s, r);
    CoreFacts(g, s, r);
    DataOfSecs(g, r);
    var r', k := r.(fptr := r.fptr + 512 * n), g.csize * r.cur + csect;
    CoreMoved(g, s, r, r');
    ClusterRun(g, r.chain, r.cur, csect, n);
    RunFits(Sectors(g, r.chain), k, lba, n);
    DirectRead(s.view, DataOf(g, r), k, lba, n);
    ShapeAfterRead(g, |r.chain|, r.objsize, r.fptr, r.cur, csect, 512 * n);
    SameFileSector(k + n, 0, 0);
    InvOf(g, s, r', k);
  }

  /** The run of a cluster lies inside the device. */
  lemma RunOnDevice(g: Geo, s: Snap, r: FileRec, n: nat, csect: nat, cc: nat)
    requires Placed(g, s, r, n, csect, 0) && csect + cc <= g.csize && cc > 0
    ensures var lba := Clst2Sect(g, r.clust) + csect;
            && 0 < g.database <= lba && lba + cc <= |s.view| < 0x1_0000_0000
            && !(lba <= s.winsect < lba + cc)
  {
    hide *;
    PlacedParts(g, s, r, n, csect, 0);
    PlacedSector(g, s, r, n, csect, 0);
    CoreFacts(g, s, r);
    var k, lba := g.csize * r.cur + csect, Clst2Sect(g, r.clust) + csect;
    ClusterRun(g, r.chain, r.cur, csect, cc);
    RunMembers(Sectors(g, r.chain), k, lba, cc);
    SectorAt(g, r.chain, r.cur, csect + cc - 1);
    SectorsInData(g, r.chain, k + cc - 1);
  }

  lemma RunMembers(secs: seq<nat>, k: nat, lba: nat, n: nat)
    requires RunAt(secs, k, lba, n)
    ensures forall x :: lba <= x < lba + n ==> x in secs
  {
    forall x | lba <= x < lba + n
      ensures x in secs
    {
      assert secs[k + (x - lba)] == x;
    }
  }

  /** The first n sectors' worth of a byte string. */
  function Blocks(data: seq<byte>, n: nat): (b: seq<Sector>)
    requires 512 * n <= |data|
    ensures |b| == n
  {
    seq(n, i requires 0 <= i < n => data[512 * i..512 * i + 512])
  }

  lemma BlocksFlat(data: seq<byte>, n: nat)
    requires 512 * n <= |data|
    ensures Flat(Blocks(data, n)) == data[..512 * n]
  {
    var b := Blocks(data, n);
    forall i | 0 <= i < 512 * n
      ensures Flat(b)[i] == data[i]
    {
      assert b[i / 512] == data[512 * (i / 512)..512 * (i / 512) + 512];
    }
  }

  /** A read that returned data and moved the pointer behind it. */
  ghost predicate Took(r: FileRec, r': FileRec, data: seq<byte>) {
    && r.fptr + |data| <= |r.content|
    && r'.fptr == r.fptr + |data|
    && r'.content == r.content
    && Matches(data, r.content[r.fptr..r.fptr + |data|])
  }

  lemma TookOf(r: FileRec, r': FileRec, data: seq<byte>)
    requires r.fptr + |data| <= |r.content| && r'.fptr == r.fptr + |data| && r'.content == r.content
    requires Matches(data, r.content[r.fptr..r.fptr + |data|])
    ensures Took(r, r', data)
  {
  }

  lemma TookNone(r: FileRec)
    requires r.fptr <= |r.content|
    ensures Took(r, r, [])
  {
  }

  lemma TookSame(r: FileRec, r1: FileRec, r': FileRec, data: seq<byte>)
    requires r1.fptr == r.fptr && r1.content == r.content
    ensures Took(r1, r', data) ==> Took(r, r', data)
  {
  }

  lemma TookParts(r: FileRec, r': FileRec, data: seq<byte>)
    requires Took(r, r', data)
    ensures r.fptr + |data| <= |r.content| && r'.fptr == r.fptr + |data| && r'.content == r.content
    ensures Matches(data, r.content[r.fptr..r'.fptr])
  {
  }

  lemma TookTwice(r: FileRec, r1: FileRec, r2: FileRec, a: seq<byte>, b: seq<byte>)
    requires Took(r, r1, a) && Took(r1, r2, b)
    ensures Took(r, r2, a + b)
  {
    hide Matches;
    MatchesTwice(a, b, r.content, r.fptr);
  }

  lemma OverlaidIs(f: FState, lba: u32, data: seq<Sector>)
    ensures Overlaid(f, lba, data) == if f.dirty && Sub32(f.sect, lba) < |data| then data[Sub32(f.sect, lba) := f.buf] else data
  {
  }

  /** Inside the file the next cluster is there, and get_fat finds it. */
  lemma NextLink(g: Geo, s: Snap, r: FileRec, nxt: nat)
    requires FileCore(g, s, r) && nxt < |r.chain|
    ensures r.chain[0] == r.sclust && 2 <= r.chain[nxt] < g.nFatent
    ensures nxt > 0 ==> g.IsCluster(r.chain[nxt - 1]) && FatOf(g, s.view)[r.chain[nxt - 1]] == r.chain[nxt]
  {
    var f := FatOf(g, s.view);
    assert IsCl(f, r.chain[nxt]);
    if nxt > 0 {
      assert IsCl(f, r.chain[nxt - 1]);
    }
  }
}
