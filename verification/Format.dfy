/** The last part of f_mkfs: the boot sector, the FSInfo sector, the FATs and the root
    directory go to the drive, a buffer at a time. */
module Formatting {
  import opened Base
  import opened FatTable
  import opened Geometry
  import opened DirEntry
  import opened Mkfs
  import opened Mounting

  function BlankSector(): Sector { seq(512, _ => 0) }

  function Blank(n: nat): (r: seq<Sector>)
    ensures |r| == n && forall i :: 0 <= i < n ==> r[i] == BlankSector()
  {
    seq(n, _ => BlankSector())
  }

  /** The first sector of a FAT: its reserved entries, and on FAT32 the root directory. */
  function FatHead(t: FatType): Sector {
    if t == Fat32 then
      var s1: Sector := St32(BlankSector(), 0, 0xFFFF_FFF8);
      var s2: Sector := St32(s1, 4, 0xFFFF_FFFF);
      St32(s2, 8, 0x0FFF_FFFF)
    else St32(BlankSector(), 0, if t == Fat12 then 0xFF_FFF8 else 0xFFFF_FFF8)
  }

  function FatArea(t: FatType, n: nat): (r: seq<Sector>)
    requires n > 0
    ensures |r| == n
  {
    [FatHead(t)] + Blank(n - 1)
  }

  function Copies(a: seq<Sector>, k: nat): seq<Sector> {
    if k == 0 then [] else Copies(a, k - 1) + a
  }

  /** The sectors written one by one make up the fresh table. */
  lemma AreaIsFresh(t: FatType, n: nat)
    requires n > 0
    ensures Flat(FatArea(t, n)) == FreshTable(t, 512 * n)
  {
    var a, f := FatArea(t, n), FreshTable(t, 512 * n);
    forall b | 0 <= b < 512 * n
      ensures Flat(a)[b] == f[b]
    {
      HeadByte(t, b % 512);
      if b >= 512 { assert a[b / 512] == BlankSector(); }
    }
  }

  lemma HeadByte(t: FatType, i: nat)
    requires i < 512
    ensures FatHead(t)[i] == FreshTable(t, 512)[i]
  {
  }

  // ---- writing ----

  /** disk_write: on failure any number of the sectors may have been written. */
  method DiskWrite(d: Image, s: nat, run: seq<Sector>, reliable: bool) returns (ok: bool, d': Image)
    requires s + |run| <= |d|
    ensures |d'| == |d| && forall i :: 0 <= i < |d| && !(s <= i < s + |run|) ==> d'[i] == d[i]
    ensures ok ==> d' == Patched(d, s, run)
    ensures reliable ==> ok
  {
    ok := *;
    var k: nat :| k <= |run|;
    if reliable { ok := true; }
    if ok { k := |run|; }
    d' := Patched(d, s, run[..k]);
    assert run[..|run|] == run;
  }

  /** The loop that fills a run of sectors from a buffer of szBuf sectors, whose first
      sector is cleared after the first write. */
  method Fill(d: Image, sect: nat, first: Sector, nsect: nat, szBuf: nat, reliable: bool) returns (ok: bool, d': Image)
    requires nsect > 0 && szBuf > 0 && sect + nsect <= |d|
    ensures |d'| == |d| && forall i :: 0 <= i < |d| && !(sect <= i < sect + nsect) ==> d'[i] == d[i]
    ensures ok ==> d' == Patched(d, sect, [first] + Blank(nsect - 1))
    ensures reliable ==> ok
  {
    hide *;
    ghost var all := [first] + Blank(nsect - 1);
    var left, head := nsect, first;
    ok, d' := true, d;
    NothingYet(d, sect, all);
    while left > 0
      invariant 0 <= left <= nsect && ok
      invariant |d'| == |d| && d' == Patched(d, sect, all[..nsect - left])
      invariant head == if left == nsect then first else BlankSector()
    {
      var n := if left > szBuf then szBuf else left;
      ghost var done := nsect - left;
      RunOf(first, nsect, done, n);
      PatchedOnto(d, sect, all[..done], [head] + Blank(n - 1));
      ok, d' := DiskWrite(d', sect + (nsect - left), [head] + Blank(n - 1), reliable);
      if !ok { return; }
      head, left := BlankSector(), left - n;
    }
    assert all[..nsect] == all;
  }

  lemma NothingYet(d: Image, s: nat, a: seq<Sector>)
    requires s <= |d|
    ensures d == Patched(d, s, a[..0])
  {
  }

  /** What one write of the loop adds to what is already there. */
  lemma RunOf(first: Sector, nsect: nat, done: nat, n: nat)
    requires done + n <= nsect && n > 0
    ensures var all := [first] + Blank(nsect - 1);
            all[..done] + ([if done == 0 then first else BlankSector()] + Blank(n - 1)) == all[..done + n]
  {
    hide BlankSector;
  }

  /** The drive where f_mkfs has written everything but the FSInfo sector. */
  ghost predicate Written(p: Plan, bVol: u32, szVol: u32, vsn: u32, d: Image) {
    var g := GeoOf(p, bVol);
    && bVol + szVol <= |d| < 0x1_0000_0000 && g.fatbase + g.FatSectors() <= |d|
    && bVol < |d| && d[bVol] == Vbr(p, bVol, szVol, vsn)
    && Flat(d[g.fatbase..g.fatbase + g.fsize]) == FreshTable(p.fsty, 512 * g.fsize)
    && (g.nFats == 2 ==> forall s :: g.fatbase <= s < g.fatbase + g.fsize ==> d[s + g.fsize] == d[s])
    && forall s :: g.fatbase + g.FatSectors() <= s < RootEnd(p, bVol) && s < |d| ==> d[s] == BlankSector()
  }

  /** One past the root directory, which on FAT32 is the first cluster. */
  function RootEnd(p: Plan, bVol: nat): nat {
    bVol + p.szRsv + p.szFat * p.nFat + RootSectors(p)
  }

  function RootSectors(p: Plan): nat {
    if p.fsty == Fat32 then p.pau else p.szDir
  }

  /** The FSInfo sector tells all clusters but the root directory free, and it and the boot
      sector have their copies. */
  ghost predicate InfoWritten(p: Plan, bVol: u32, szVol: u32, vsn: u32, d: Image) {
    p.fsty == Fat32 ==>
      && bVol + 7 < |d| && 0 < p.nClst <= 0xFFFF_FFFF && d[bVol + 1] == FsInfoSector(p.nClst - 1, 2)
      && d[bVol + 6] == Vbr(p, bVol, szVol, vsn) && d[bVol + 7] == d[bVol + 1]
  }

  lemma Room(p: Plan, bVol: u32, szVol: u32, szBlk: nat)
    requires Sound(p, bVol, szVol, szBlk)
    ensures RootSectors(p) > 0 && bVol + p.szRsv + p.szFat * p.nFat + RootSectors(p) <= bVol + szVol && (p.nFat == 1 || p.nFat == 2)
    ensures 0 < p.szRsv && (p.fsty == Fat32 ==> p.szRsv >= 32 && 0 < p.nClst <= 0xFFFF_FFFF) && 0 < p.szFat
    ensures p.szFat * p.nFat == if p.nFat == 2 then p.szFat + p.szFat else p.szFat
  {
    hide TableBytes;
    if p.fsty == Fat32 { AtLeastOne(p.pau, p.nClst); }
  }

  lemma AtLeastOne(a: nat, b: nat)
    requires b > 0
    ensures a * b >= a
  {
  }

  /** The writing part of f_mkfs. Failures of the FSInfo sector and of the backups are not
      reported; nothing outside the volume changes. */
  method WriteVolume(p: Plan, bVol: u32, szVol: u32, ghost szBlk: nat, vsn: u32, szBuf: nat, d: Image, reliable: bool)
      returns (ok: bool, d': Image)
    requires Sound(p, bVol, szVol, szBlk) && bVol + szVol <= |d| < 0x1_0000_0000 && szBuf > 0
    ensures |d'| == |d| && forall i :: 0 <= i < |d| && !(bVol <= i < bVol + szVol) ==> d'[i] == d[i]
    ensures ok ==> Written(p, bVol, szVol, vsn, d')
    ensures reliable ==> ok && InfoWritten(p, bVol, szVol, vsn, d')
  {
    hide *;
    Room(p, bVol, szVol, szBlk);
    ok, d' := WriteHead(p, bVol, szVol, vsn, d, reliable);
    if !ok { return; }
    ghost var d1 := d';
    ok, d' := WriteFats(d', bVol + p.szRsv, p.fsty, p.szFat, p.nFat, szBuf, reliable);
    if !ok { return; }
    CopiesLength(FatArea(p.fsty, p.szFat), p.nFat);
    var sect := bVol + p.szRsv + p.szFat * p.nFat;
    ok, d' := Fill(d', sect, BlankSector(), RootSectors(p), szBuf, reliable);
    if !ok { return; }
    RootRun(RootSectors(p));
    WrittenOf(p, bVol, szVol, szBlk, vsn, d1, d');
    if reliable { InfoKept(p, bVol, szVol, vsn, d1, d'); }
  }

  /** The loop over the FATs. */
  method WriteFats(d: Image, fatbase: nat, t: FatType, n: nat, nFat: nat, szBuf: nat, reliable: bool) returns (ok: bool, d': Image)
    requires n > 0 && szBuf > 0 && (nFat == 1 || nFat == 2) && fatbase + n * nFat <= |d|
    ensures |d'| == |d| && forall i :: 0 <= i < |d| && !(fatbase <= i < fatbase + n * nFat) ==> d'[i] == d[i]
    ensures ok ==> fatbase + |Copies(FatArea(t, n), nFat)| <= |d| && d' == Patched(d, fatbase, Copies(FatArea(t, n), nFat))
    ensures reliable ==> ok
  {
    hide *;
    var sect, i := fatbase, 0;
    ok, d' := true, d;
    CopiesNone(d, fatbase, FatArea(t, n));
    while i < nFat
      invariant 0 <= i <= nFat && ok
      invariant sect == fatbase + |Copies(FatArea(t, n), i)| <= |d|
      invariant sect == fatbase + (if i == 0 then 0 else if i == 1 then n else 2 * n)
      invariant |d'| == |d| && d' == Patched(d, fatbase, Copies(FatArea(t, n), i))
    {
      ok, d' := Fill(d', sect, FatHead(t), n, szBuf, reliable);
      if !ok { return; }
      CopiesStep(d, fatbase, t, n, i);
      sect, i := sect + n, i + 1;
    }
  }

  lemma CopiesLength(a: seq<Sector>, k: nat)
    requires k == 1 || k == 2
    ensures |Copies(a, k)| == |a| * k
  {
    CopiesAre(a);
  }

  /** The boot sector and on FAT32 its backup and the FSInfo sector with its backup. */
  method WriteHead(p: Plan, bVol: u32, szVol: u32, vsn: u32, d: Image, reliable: bool) returns (ok: bool, d': Image)
    requires bVol + p.szRsv <= |d| && 0 < p.szRsv && (p.fsty == Fat32 ==> p.szRsv >= 32 && 0 < p.nClst <= 0xFFFF_FFFF)
    ensures |d'| == |d| && forall i :: 0 <= i < |d| && !(bVol <= i < bVol + p.szRsv) ==> d'[i] == d[i]
    ensures ok ==> d'[bVol] == Vbr(p, bVol, szVol, vsn)
    ensures reliable ==> ok && InfoWritten(p, bVol, szVol, vsn, d')
  {
    hide Vbr, FsInfoSector;
    ok, d' := DiskWrite(d, bVol, [Vbr(p, bVol, szVol, vsn)], reliable);
    if !ok { return; }
    if p.fsty == Fat32 {
      var done;
      var info := FsInfoSector(p.nClst - 1, 2);
      done, d' := DiskWrite(d', bVol + 6, [Vbr(p, bVol, szVol, vsn)], reliable);
      done, d' := DiskWrite(d', bVol + 7, [info], reliable);
      done, d' := DiskWrite(d', bVol + 1, [info], reliable);
    }
  }

  lemma CopiesNone(d: Image, s: nat, a: seq<Sector>)
    requires s <= |d|
    ensures Copies(a, 0) == [] && d == Patched(d, s, Copies(a, 0))
  {
  }

  lemma CopiesStep(d: Image, s: nat, t: FatType, n: nat, i: nat)
    requires n > 0 && s + |Copies(FatArea(t, n), i)| + n <= |d|
    ensures var a := FatArea(t, n);
            && |Copies(a, i + 1)| == |Copies(a, i)| + n
            && Patched(Patched(d, s, Copies(a, i)), s + |Copies(a, i)|, [FatHead(t)] + Blank(n - 1)) == Patched(d, s, Copies(a, i + 1))
  {
    hide FatHead;
    PatchedOnto(d, s, Copies(FatArea(t, n), i), FatArea(t, n));
  }

  lemma RootRun(n: nat)
    requires n > 0
    ensures [BlankSector()] + Blank(n - 1) == Blank(n)
  {
  }

  lemma CopiesAre(a: seq<Sector>)
    ensures Copies(a, 1) == a && Copies(a, 2) == a + a
  {
    assert Copies(a, 1) == Copies(a, 0) + a;
    assert Copies(a, 2) == Copies(a, 1) + a;
  }

  lemma WrittenOf(p: Plan, bVol: u32, szVol: u32, szBlk: nat, vsn: u32, d: Image, d': Image)
    requires Sound(p, bVol, szVol, szBlk) && bVol + szVol <= |d| < 0x1_0000_0000 && d[bVol] == Vbr(p, bVol, szVol, vsn)
    requires p.szFat > 0 && RootSectors(p) > 0
    requires var c := Copies(FatArea(p.fsty, p.szFat), p.nFat);
             && bVol + p.szRsv + |c| + RootSectors(p) <= |d|
             && d' == Patched(Patched(d, bVol + p.szRsv, c), bVol + p.szRsv + |c|, Blank(RootSectors(p)))
    ensures Written(p, bVol, szVol, vsn, d')
    ensures forall s :: 0 <= s < bVol + p.szRsv ==> d'[s] == d[s]
  {
    hide *;
    Room(p, bVol, szVol, szBlk);
    var a := FatArea(p.fsty, p.szFat);
    CopiesAre(a);
    AreaIsFresh(p.fsty, p.szFat);
    AreasOf(d, d', bVol + p.szRsv, a, p.nFat, RootSectors(p));
    WrittenIs(p, bVol, szVol, vsn, d');
  }

  /** Where the FATs and the root directory lie in the device. */
  lemma AreasOf(d: Image, d': Image, s: nat, a: seq<Sector>, k: nat, r: nat)
    requires k == 1 || k == 2
    requires var c := if k == 2 then a + a else a;
             s + |c| + r <= |d| && d' == Patched(Patched(d, s, c), s + |c|, Blank(r))
    ensures |d'| == |d| && d'[s..s + |a|] == a
    ensures k == 2 ==> forall i :: s <= i < s + |a| ==> d'[i + |a|] == d'[i]
    ensures forall i :: s + k * |a| <= i < s + k * |a| + r ==> d'[i] == BlankSector()
    ensures forall i :: 0 <= i < s ==> d'[i] == d[i]
  {
    hide BlankSector;
  }

  lemma WrittenIs(p: Plan, bVol: u32, szVol: u32, vsn: u32, d: Image)
    requires bVol + szVol <= |d| < 0x1_0000_0000 && (p.nFat == 1 || p.nFat == 2) && bVol < |d|
    requires bVol + p.szRsv + p.nFat * p.szFat + RootSectors(p) <= |d|
    requires d[bVol] == Vbr(p, bVol, szVol, vsn)
    requires var fatbase := bVol + p.szRsv;
             && Flat(d[fatbase..fatbase + p.szFat]) == FreshTable(p.fsty, 512 * p.szFat)
             && (p.nFat == 2 ==> forall i :: fatbase <= i < fatbase + p.szFat ==> d[i + p.szFat] == d[i])
             && forall i :: fatbase + p.nFat * p.szFat <= i < fatbase + p.nFat * p.szFat + RootSectors(p) ==> d[i] == BlankSector()
    ensures Written(p, bVol, szVol, vsn, d)
  {
    hide Vbr, FreshTable, Flat, BlankSector, RootSectors;
  }

  lemma InfoKept(p: Plan, bVol: u32, szVol: u32, vsn: u32, d: Image, d': Image)
    requires InfoWritten(p, bVol, szVol, vsn, d) && |d| == |d'| && bVol + p.szRsv <= |d| && (p.fsty == Fat32 ==> p.szRsv >= 32)
    requires forall s :: 0 <= s < bVol + p.szRsv ==> d'[s] == d[s]
    ensures InfoWritten(p, bVol, szVol, vsn, d')
  {
    hide FsInfoSector, Vbr;
  }

  /** What f_mkfs has written is mounted with the geometry it chose, or refused if there
      are too few clusters or too many FAT sectors. */
  lemma WrittenMounts(p: Plan, bVol: u32, szVol: u32, szBlk: nat, vsn: u32, d: Image)
    requires Sound(p, bVol, szVol, szBlk) && szVol >= 64 && bVol + szVol < 0x1_0000_0000
    requires Written(p, bVol, szVol, vsn, d)
    ensures bVol < |d| && Mount(d[bVol], bVol) == if p.nClst > 32 && p.szFat < 0x20_0000 then Some(GeoOf(p, bVol)) else None
  {
    hide *;
    WrittenVbr(p, bVol, szVol, vsn, d);
    MountFindsPlan(p, bVol, szVol, szBlk, vsn);
  }

  lemma WrittenVbr(p: Plan, bVol: u32, szVol: u32, vsn: u32, d: Image)
    requires Written(p, bVol, szVol, vsn, d)
    ensures bVol < |d| && d[bVol] == Vbr(p, bVol, szVol, vsn)
  {
  }
}
