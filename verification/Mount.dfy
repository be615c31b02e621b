/** What f_mkfs writes and mount_volume reads: the boot sector, the fresh FAT and the
    FSInfo sector. */
module Mounting {
  import opened Base
  import opened Numbers
  import opened FatTable
  import opened Chains
  import opened Geometry
  import opened DirEntry
  import opened Mkfs

  // ---- the options of f_mkfs ----

  /** n & (n - 1) == 0 for 0 < n <= 0x1000000. */
  predicate SingleBit(n: nat) {
    n in {1, 2, 4, 8, 16, 32, 64, 128, 256, 512, 0x400, 0x800, 0x1000, 0x2000, 0x4000, 0x8000,
          0x1_0000, 0x2_0000, 0x4_0000, 0x8_0000, 0x10_0000, 0x20_0000, 0x40_0000, 0x80_0000, 0x100_0000}
  }

  /** These are the powers of two up to 2^24. */
  lemma {:induction false} SingleBitIs(n: nat)
    requires n <= 0x100_0000
    ensures SingleBit(n) <==> PowerOfTwo(n)
  {
    if n >= 2 && n % 2 == 0 {
      SingleBitIs(n / 2);
      assert SingleBit(n) <==> SingleBit(n / 2);
    }
  }

  function BlockOf(size: nat): (b: nat)
    ensures 0 < b <= 0x8000
  {
    if size == 0 || size > 0x8000 || !SingleBit(size) then 1 else size
  }

  /** Cluster size in sectors from the one asked for in bytes; 0 selects it automatically. */
  function UnitOf(bytes: nat): (u: nat)
    ensures u == 0 || IsUnit(u)
  {
    var u := if 0 < bytes <= 0x100_0000 && SingleBit(bytes) then bytes / 512 else 0;
    if u > 128 then 128 else u
  }

  /** A cluster size of a power of two of bytes up to 64 KiB is taken, one above that is 64 KiB,
      and one that is too small, too large or no power of two means automatic selection. */
  lemma UnitIs(bytes: nat)
    ensures UnitOf(bytes) ==
            if bytes < 512 || bytes > 0x100_0000 || !PowerOfTwo(bytes) then 0 else if bytes > 0x1_0000 then 128 else bytes / 512
    ensures BlockOf(bytes) == if 0 < bytes <= 0x8000 && PowerOfTwo(bytes) then bytes else 1
  {
    if bytes <= 0x100_0000 { SingleBitIs(bytes); }
    hide PowerOfTwo;
  }

  /** Number of FATs and of root directory entries, with their defaults. */
  function FatsOf(opt: nat): (n: nat)
    ensures n == 1 || n == 2
  {
    if opt == 1 || opt == 2 then opt else 1
  }

  function RootOf(opt: nat): (n: nat)
    ensures 0 < n <= 32768 && n % 16 == 0
  {
    if 1 <= opt <= 32768 && opt % 16 == 0 then opt else 512
  }

  /** The plan for given options, or none. */
  function PlanFor(bVol: u32, szVol: u32, blockSize: nat, optNFat: nat, optNRoot: nat, auSize: nat, fat: bool, fat32: bool): Option<Plan> {
    if szVol < 64 || (!fat && !fat32) then None
    else
      ChooseOf(bVol, szVol, BlockOf(blockSize), FatsOf(optNFat), RootOf(optNRoot), UnitOf(auSize), if fat32 && !fat then Fat32 else Fat16, fat32)
  }

  /** f_mkfs up to the geometry: options out of range get their defaults, a volume below
      64 sectors or a type that is neither FAT nor FAT32 is refused. */
  method Format(bVol: u32, szVol: u32, blockSize: nat, optNFat: nat, optNRoot: nat, auSize: nat, fat: bool, fat32: bool)
      returns (ok: bool, p: Plan)
    requires bVol + szVol < 0x1_0000_0000
    ensures (if ok then Some(p) else None) == PlanFor(bVol, szVol, blockSize, optNFat, optNRoot, auSize, fat, fat32)
    ensures ok ==> szVol >= 64 && Sound(p, bVol, szVol, BlockOf(blockSize))
    ensures ok ==> p.nFat == FatsOf(optNFat) && p.nRoot == RootOf(optNRoot) && (UnitOf(auSize) != 0 ==> p.pau == UnitOf(auSize))
    ensures ok && !fat32 ==> p.fsty != Fat32
    ensures ok && !fat ==> p.fsty == Fat32
  {
    PlanForIs(bVol, szVol, blockSize, optNFat, optNRoot, auSize, fat, fat32);
    OptionsAre(optNFat, optNRoot);
    hide *;
    var szBlk := BlockOf(blockSize);
    var nFat := if optNFat == 1 || optNFat == 2 then optNFat else 1;
    var nRoot := if 1 <= optNRoot <= 32768 && optNRoot % 16 == 0 then optNRoot else 512;
    var szAu := UnitOf(auSize);
    p := Plan(Fat16, 0, nFat, nRoot, 0, 0, 0, 0);
    if szVol < 64 { return false, p; }
    var fsty := Fat16;
    if fat32 && !fat {
      fsty := Fat32;
    } else if !fat {
      return false, p;
    }
    ok, p := Choose(bVol, szVol, szBlk, nFat, nRoot, szAu, fsty, fat32);
  }

  lemma PlanForIs(bVol: u32, szVol: u32, blockSize: nat, optNFat: nat, optNRoot: nat, auSize: nat, fat: bool, fat32: bool)
    ensures PlanFor(bVol, szVol, blockSize, optNFat, optNRoot, auSize, fat, fat32) ==
            if szVol < 64 || (!fat && !fat32) then None
            else ChooseOf(bVol, szVol, BlockOf(blockSize), FatsOf(optNFat), RootOf(optNRoot), UnitOf(auSize), if fat32 && !fat then Fat32 else Fat16, fat32)
  {
    hide ChooseOf;
  }

  lemma OptionsAre(optNFat: nat, optNRoot: nat)
    ensures FatsOf(optNFat) == if optNFat == 1 || optNFat == 2 then optNFat else 1
    ensures RootOf(optNRoot) == if 1 <= optNRoot <= 32768 && optNRoot % 16 == 0 then optNRoot else 512
  {
  }

  // ---- the boot sector ----

  function At(v: nat, k: nat): byte {
    if k == 0 then v % 256 else if k == 1 then v / 256 % 256 else if k == 2 then v / 65536 % 256 else v / 16777216 % 256
  }

  function Text(s: string, k: nat): byte
    requires k < |s|
  {
    (s[k] as int) % 256
  }

  /** Byte i of the boot sector f_mkfs writes; offsets as in the FAT32 File System
      Specification, section "Boot Sector and BPB". */
  function VbrByte(p: Plan, bVol: u32, szVol: u32, vsn: u32, i: nat): byte {
    if i < 3 then (if i == 0 then 0xEB else if i == 1 then 0xFE else 0x90)
    else if i < 11 then Text("MSDOS5.0", i - 3)
    else if i < 13 then At(512, i - 11)
    else if i == 13 then p.pau % 256
    else if i < 16 then At(p.szRsv, i - 14)
    else if i == 16 then p.nFat % 256
    else if i < 19 then At(if p.fsty == Fat32 then 0 else p.nRoot, i - 17)
    else if i < 21 then At(if szVol < 0x1_0000 then szVol else 0, i - 19)
    else if i == 21 then 0xF8
    else if i < 24 then At(if p.fsty == Fat32 then 0 else p.szFat, i - 22)
    else if i < 26 then At(63, i - 24)
    else if i < 28 then At(255, i - 26)
    else if i < 32 then At(bVol, i - 28)
    else if i < 36 then At(if szVol < 0x1_0000 then 0 else szVol, i - 32)
    else if i < 510 then (if p.fsty == Fat32 then Tail32(p, vsn, i) else Tail16(vsn, i))
    else if i == 510 then 0x55 else 0xAA
  }

  function Tail32(p: Plan, vsn: u32, i: nat): byte
    requires 36 <= i
  {
    if i < 40 then At(p.szFat, i - 36)
    else if i < 44 then 0
    else if i < 48 then At(2, i - 44)
    else if i < 50 then At(1, i - 48)
    else if i < 52 then At(6, i - 50)
    else if i == 64 then 0x80
    else if i == 66 then 0x29
    else if 67 <= i < 71 then At(vsn, i - 67)
    else if 71 <= i < 90 then Text("NO NAME    FAT32   ", i - 71)
    else 0
  }

  function Tail16(vsn: u32, i: nat): byte
    requires 36 <= i
  {
    if i == 36 then 0x80
    else if i == 38 then 0x29
    else if 39 <= i < 43 then At(vsn, i - 39)
    else if 43 <= i < 62 then Text("NO NAME    FAT     ", i - 43)
    else 0
  }

  function Vbr(p: Plan, bVol: u32, szVol: u32, vsn: u32): (r: Sector)
    ensures forall i :: 0 <= i < 512 ==> r[i] == VbrByte(p, bVol, szVol, vsn, i)
  {
    seq(512, i requires 0 <= i < 512 => VbrByte(p, bVol, szVol, vsn, i))
  }

  lemma Word16(v: nat)
    requires v < 65536
    ensures At(v, 0) as int + 256 * (At(v, 1) as int) == v
  {
  }

  lemma Word32(v: u32)
    ensures At(v, 0) as int + 256 * (At(v, 1) as int) + 65536 * (At(v, 2) as int) + 16777216 * (At(v, 3) as int) == v
  {
    Bytes32(v);
  }

  /** "FAT32   " at BS_FilSysType32. */
  predicate SaysFat32(s: Sector) {
    s[82] == 0x46 && s[83] == 0x41 && s[84] == 0x54 && s[85] == 0x33 && s[86] == 0x32 && s[87] == 0x20 && s[88] == 0x20 && s[89] == 0x20
  }

  /** check_fs: the sector is a FAT or FAT32 boot sector. */
  predicate IsFatVbr(s: Sector) {
    && (s[0] == 0xEB || s[0] == 0xE9 || s[0] == 0xE8)
    && ((Ld16(s, 510) == 0xAA55 && SaysFat32(s))
        || (Ld16(s, 11) == 512 && IsUnit(s[13]) && Ld16(s, 14) != 0 && (s[16] == 1 || s[16] == 2) && Ld16(s, 17) != 0
            && (Ld16(s, 19) >= 64 || Ld32(s, 32) >= 0x1_0000) && Ld16(s, 22) != 0))
  }

  function FatSize(s: Sector): nat { if Ld16(s, 22) == 0 then Ld32(s, 36) else Ld16(s, 22) }

  function TotalSectors(s: Sector): nat { if Ld16(s, 19) == 0 then Ld32(s, 32) else Ld16(s, 19) }

  /** The FAT type that a cluster count means. */
  function TypeOf(nclst: nat): Option<FatType> {
    if nclst <= 32 then None
    else if nclst <= MaxClusters(Fat12) then Some(Fat12)
    else if nclst <= MaxClusters(Fat16) then Some(Fat16)
    else if nclst <= MaxClusters(Fat32) then Some(Fat32)
    else None
  }

  /** The fields mount_volume takes from a boot sector. */
  datatype Bpb = Bpb(bytesPerSec: nat, fasize: nat, nFats: nat, csize: nat, nRootdir: nat, tsect: nat, nrsv: nat, fsVer: nat, rootClus: nat)

  function BpbOf(s: Sector): Bpb {
    Bpb(Ld16(s, 11), FatSize(s), s[16], s[13], Ld16(s, 17), TotalSectors(s), Ld16(s, 14), Ld16(s, 42), Ld32(s, 44))
  }

  /** The FAT part of mount_volume. */
  function MountBpb(b: Bpb, bsect: u32): Option<Geo> {
    if b.bytesPerSec != 512 || b.fasize >= 0x20_0000 || (b.nFats != 1 && b.nFats != 2) || !IsUnit(b.csize)
       || b.nRootdir % 16 != 0 || b.nrsv == 0 then None
    else
      var sysect := b.nrsv + b.fasize * b.nFats + b.nRootdir / 16;
      if b.tsect < sysect then None
      else
        var nclst := (b.tsect - sysect) / b.csize;
        var fmt := TypeOf(nclst);
        if fmt.None? then None
        else
          var t, n := fmt.value, nclst + 2;
          if t == Fat32 && (b.fsVer != 0 || b.nRootdir != 0) then None
          else if t != Fat32 && b.nRootdir == 0 then None
          else if b.fasize < (TableBytes(t, n) + 511) / 512 then None
          else
            var fatbase := Wrap(bsect + b.nrsv);
            Some(Geo(t, b.nFats, b.csize, b.nRootdir, n, b.fasize, bsect, fatbase,
                     if t == Fat32 then b.rootClus else Wrap(fatbase + b.fasize * b.nFats), Wrap(bsect + sysect)))
  }

  function Mount(s: Sector, bsect: u32): Option<Geo> {
    if IsFatVbr(s) then MountBpb(BpbOf(s), bsect) else None
  }

  /** A mounted volume that lies within the 32-bit address space has a sound geometry: its
      areas follow one another and every FAT entry lies inside FAT #1. */
  lemma MountedIsOk(b: Bpb, bsect: u32)
    requires MountBpb(b, bsect).Some? && bsect + b.tsect < 0x1_0000_0000
    ensures var g := MountBpb(b, bsect).value;
            && g.Ok() && g.Top() <= bsect + b.tsect
            && g.volbase == bsect && g.fatbase == bsect + b.nrsv
            && g.nFats == b.nFats && g.csize == b.csize && g.fsize == b.fasize && (g.fsType == Fat32 ==> g.dirbase == b.rootClus)
            && g.nFatent - 2 == (b.tsect - (b.nrsv + b.fasize * b.nFats + b.nRootdir / 16)) / b.csize
            && g.fatbase + g.FatSectors() + g.nRootdir / 16 == g.database
            && (g.fsType != Fat32 ==> g.dirbase == g.fatbase + g.FatSectors())
  {
    hide *;
    var g := MountBpb(b, bsect).value;
    MountParts(b, bsect);
    UnitIsPower(b.csize);
    UnitMax(b.csize);
    FatArea(b.fasize, b.nFats);
    var sysect := b.nrsv + b.fasize * b.nFats + b.nRootdir / 16;
    UnitQuotient(b.tsect - sysect, b.csize, g.nFatent - 2);
    WrapIs(bsect + b.nrsv);
    WrapIs(bsect + b.nrsv + b.fasize * b.nFats);
    WrapIs(bsect + sysect);
    Rounded512(TableBytes(g.fsType, g.nFatent), b.fasize);
    OkOf(g);
  }

  /** The boot sectors that mount_volume accepts, in numbers: which fields are in range, and
      what type and FAT size the count of clusters asks for. */
  lemma AcceptedExactly(b: Bpb, bsect: u32)
    ensures var sys := b.nrsv + b.fasize * b.nFats + b.nRootdir / 16;
            var n := if b.tsect < sys then 0 else Tries(b.tsect - sys, b.csize);
            MountBpb(b, bsect).Some? <==>
              && b.bytesPerSec == 512 && b.fasize < 0x20_0000 && (b.nFats == 1 || b.nFats == 2)
              && IsUnit(b.csize) && b.nRootdir % 16 == 0 && b.nrsv != 0
              && b.tsect >= sys && 33 <= n <= 0x0FFF_FFF5
              && (if n <= 0xFFF5 then b.nRootdir != 0 else b.nRootdir == 0 && b.fsVer == 0)
              && TableBytes(if n <= 0xFF5 then Fat12 else if n <= 0xFFF5 then Fat16 else Fat32, n + 2) <= 512 * b.fasize
  {
    var sys := b.nrsv + b.fasize * b.nFats + b.nRootdir / 16;
    UnitPositiveIf(b.csize);
    hide TableBytes, Wrap, IsUnit, Tries;
    if IsUnit(b.csize) && b.tsect >= sys {
      TriesIs(b.tsect - sys, b.csize);
      var n := Tries(b.tsect - sys, b.csize);
      CeilAbove(TableBytes(Fat12, n + 2), b.fasize);
      CeilAbove(TableBytes(Fat16, n + 2), b.fasize);
      CeilAbove(TableBytes(Fat32, n + 2), b.fasize);
    }
  }

  lemma UnitPositiveIf(p: nat)
    ensures IsUnit(p) ==> p > 0
  {
  }

  lemma CeilAbove(bytes: nat, f: nat)
    ensures f < (bytes + 511) / 512 <==> bytes > 512 * f
  {
  }

  lemma MountParts(b: Bpb, bsect: u32)
    requires MountBpb(b, bsect).Some?
    ensures var g := MountBpb(b, bsect).value;
            var sysect := b.nrsv + b.fasize * b.nFats + b.nRootdir / 16;
            && (b.nFats == 1 || b.nFats == 2) && IsUnit(b.csize) && 0 < b.csize && b.nrsv != 0 && b.fasize < 0x20_0000
            && b.tsect >= sysect && 34 < g.nFatent <= MaxClusters(g.fsType) + 2
            && g.nFatent - 2 == (b.tsect - sysect) / b.csize
            && b.fasize >= (TableBytes(g.fsType, g.nFatent) + 511) / 512
            && g == Geo(g.fsType, b.nFats, b.csize, b.nRootdir, g.nFatent, b.fasize, bsect, Wrap(bsect + b.nrsv), g.dirbase, Wrap(bsect + sysect))
            && (g.fsType != Fat32 ==> g.dirbase == Wrap(Wrap(bsect + b.nrsv) + b.fasize * b.nFats))
            && (g.fsType == Fat32 ==> g.dirbase == b.rootClus)
  {
    hide Wrap, TableBytes;
  }

  lemma OkOf(g: Geo)
    requires (g.nFats == 1 || g.nFats == 2) && g.csize <= 128 && PowerOfTwo(g.csize) && 34 < g.nFatent <= MaxClusters(g.fsType) + 2
    requires TableBytes(g.fsType, g.nFatent) <= 512 * g.fsize && g.fsize < 0x20_0000 && g.volbase < g.fatbase
    requires g.fatbase + (if g.nFats == 2 then 2 * g.fsize else g.fsize) <= g.database
    requires g.database + g.csize * (g.nFatent - 2) < 0x1_0000_0000
    ensures g.Ok() && g.Top() == g.database + g.csize * (g.nFatent - 2)
    ensures g.FatSectors() == if g.nFats == 2 then 2 * g.fsize else g.fsize
  {
  }

  lemma FatArea(f: nat, n: nat)
    requires n == 1 || n == 2
    ensures f * n == if n == 2 then 2 * f else f
  {
  }

  lemma Rounded512(bytes: nat, f: nat)
    requires f >= (bytes + 511) / 512
    ensures bytes <= 512 * f
  {
  }

  // ---- the way back ----

  /** The geometry a plan stands for. */
  function GeoOf(p: Plan, bVol: nat): Geo {
    Geo(p.fsty, p.nFat, p.pau, if p.fsty == Fat32 then 0 else p.nRoot, p.nClst + 2, p.szFat, bVol, bVol + p.szRsv,
        if p.fsty == Fat32 then 2 else bVol + p.szRsv + p.szFat * p.nFat, bVol + Overhead(p))
  }

  /** The fields of the boot sector read back as they were written. */
  lemma VbrReadsBack(p: Plan, bVol: u32, szVol: u32, szBlk: nat, vsn: u32)
    requires Sound(p, bVol, szVol, szBlk) && szVol >= 64
    ensures var s := Vbr(p, bVol, szVol, vsn);
            && IsFatVbr(s)
            && BpbOf(s) == Bpb(512, p.szFat, p.nFat, p.pau, if p.fsty == Fat32 then 0 else p.nRoot, szVol, p.szRsv,
                               BpbOf(s).fsVer, BpbOf(s).rootClus)
            && (p.fsty == Fat32 ==> BpbOf(s).fsVer == 0 && BpbOf(s).rootClus == 2)
  {
    SoundParts(p, bVol, szVol, szBlk);
    var s := Vbr(p, bVol, szVol, vsn);
    var root := if p.fsty == Fat32 then 0 else p.nRoot;
    VbrHead(p, bVol, szVol, vsn);
    VbrTotals(p, bVol, szVol, vsn);
    VbrFats(p, bVol, szVol, vsn);
    hide Vbr, VbrByte, Tail16, Tail32, At, SaysFat32, Ld16, Ld32;
  }

  lemma SoundParts(p: Plan, bVol: nat, szVol: nat, szBlk: nat)
    requires Sound(p, bVol, szVol, szBlk)
    ensures IsUnit(p.pau) && p.pau <= 128 && (p.nFat == 1 || p.nFat == 2)
    ensures 0 < p.szRsv < 65536 && 0 < p.szFat && (p.fsty != Fat32 ==> p.szFat < 65536)
    ensures if p.fsty == Fat32 then p.szDir == 0 else 0 < p.nRoot <= 32768 && p.nRoot == 16 * p.szDir
    ensures p.szFat <= Overhead(p) <= szVol
  {
  }

  lemma VbrHead(p: Plan, bVol: u32, szVol: u32, vsn: u32)
    requires 0 < p.szRsv < 65536 && p.pau < 256 && p.nFat < 256 && (p.fsty != Fat32 ==> p.nRoot < 65536)
    ensures var s := Vbr(p, bVol, szVol, vsn);
            && s[0] == 0xEB && Ld16(s, 510) == 0xAA55 && Ld16(s, 11) == 512 && s[13] as nat == p.pau && Ld16(s, 14) == p.szRsv
            && s[16] as nat == p.nFat && Ld16(s, 17) as nat == if p.fsty == Fat32 then 0 else p.nRoot
  {
    Word16(p.szRsv);
    if p.fsty != Fat32 { Word16(p.nRoot); }
  }

  lemma VbrTotals(p: Plan, bVol: u32, szVol: u32, vsn: u32)
    requires szVol >= 64
    ensures var s := Vbr(p, bVol, szVol, vsn);
            TotalSectors(s) == szVol && (Ld16(s, 19) >= 64 || Ld32(s, 32) >= 0x1_0000)
  {
    if szVol < 0x1_0000 { Word16(szVol); }
    Word32(szVol);
  }

  lemma VbrFats(p: Plan, bVol: u32, szVol: u32, vsn: u32)
    requires 0 < p.szFat < 0x1_0000_0000 && (p.fsty != Fat32 ==> p.szFat < 65536)
    ensures var s := Vbr(p, bVol, szVol, vsn);
            && FatSize(s) == p.szFat
            && (p.fsty == Fat32 ==> SaysFat32(s) && Ld16(s, 42) == 0 && Ld32(s, 44) == 2)
            && (p.fsty != Fat32 ==> Ld16(s, 22) != 0)
  {
    if p.fsty == Fat32 { Word32(p.szFat); } else { Word16(p.szFat); }
  }

  /** Mounting what f_mkfs has written gives back its type, cluster count and area bases
      exactly if there are more than 32 clusters and fewer than 0x200000 sectors per FAT;
      otherwise it is refused. */
  lemma MountFindsPlan(p: Plan, bVol: u32, szVol: u32, szBlk: nat, vsn: u32)
    requires Sound(p, bVol, szVol, szBlk) && szVol >= 64 && bVol + szVol < 0x1_0000_0000
    ensures Mount(Vbr(p, bVol, szVol, vsn), bVol) ==
            if p.nClst > 32 && p.szFat < 0x20_0000 then Some(GeoOf(p, bVol)) else None
  {
    hide *;
    SoundParts(p, bVol, szVol, szBlk);
    var s := Vbr(p, bVol, szVol, vsn);
    VbrReadsBack(p, bVol, szVol, szBlk, vsn);
    MountIs(s, bVol);
    PlanMounts(p, bVol, szVol, szBlk, BpbOf(s));
  }

  lemma MountIs(s: Sector, bsect: u32)
    ensures IsFatVbr(s) ==> Mount(s, bsect) == MountBpb(BpbOf(s), bsect)
  {
  }

  lemma PlanMounts(p: Plan, bVol: u32, szVol: u32, szBlk: nat, b: Bpb)
    requires Sound(p, bVol, szVol, szBlk) && bVol + szVol < 0x1_0000_0000
    requires b == Bpb(512, p.szFat, p.nFat, p.pau, if p.fsty == Fat32 then 0 else p.nRoot, szVol, p.szRsv, b.fsVer, b.rootClus)
    requires p.fsty == Fat32 ==> b.fsVer == 0 && b.rootClus == 2
    ensures MountBpb(b, bVol) == if p.nClst > 32 && p.szFat < 0x20_0000 then Some(GeoOf(p, bVol)) else None
  {
    hide *;
    SoundParts(p, bVol, szVol, szBlk);
    SoundSizes(p, bVol, szVol, szBlk);
    var sysect := b.nrsv + b.fasize * b.nFats + b.nRootdir / 16;
    UnitCount(szVol - sysect, p.pau, p.nClst);
    WrapIs(bVol + b.nrsv);
    WrapIs(bVol + b.nrsv + b.fasize * b.nFats);
    WrapIs(bVol + sysect);
    if p.nClst > 32 && p.szFat < 0x20_0000 {
      EnoughRounded(TableBytes(p.fsty, p.nClst + 2), p.szFat);
      MountAccepts(b, bVol, p.fsty, p.nClst);
      GeoIs(p, bVol);
    } else {
      MountRefuses(b, bVol);
    }
  }

  lemma SoundSizes(p: Plan, bVol: nat, szVol: nat, szBlk: nat)
    requires Sound(p, bVol, szVol, szBlk)
    ensures Overhead(p) == p.szRsv + p.szFat * p.nFat + p.szDir && p.szFat * p.nFat >= p.szFat
    ensures Overhead(p) + p.pau * p.nClst <= szVol < Overhead(p) + p.pau * p.nClst + p.pau
    ensures TableBytes(p.fsty, p.nClst + 2) <= 512 * p.szFat
    ensures p.nClst > 32 ==> TypeOf(p.nClst) == Some(p.fsty)
  {
  }

  lemma GeoIs(p: Plan, bVol: nat)
    ensures GeoOf(p, bVol) ==
            Geo(p.fsty, p.nFat, p.pau, if p.fsty == Fat32 then 0 else p.nRoot, p.nClst + 2, p.szFat, bVol, bVol + p.szRsv,
                if p.fsty == Fat32 then 2 else bVol + p.szRsv + p.szFat * p.nFat, bVol + Overhead(p))
  {
  }

  lemma MountAccepts(b: Bpb, bsect: u32, t: FatType, nclst: nat)
    requires b.bytesPerSec == 512 && b.fasize < 0x20_0000 && (b.nFats == 1 || b.nFats == 2) && IsUnit(b.csize)
    requires b.nRootdir % 16 == 0 && b.nrsv != 0 && b.csize > 0
    requires var sysect := b.nrsv + b.fasize * b.nFats + b.nRootdir / 16;
             b.tsect >= sysect && nclst == (b.tsect - sysect) / b.csize
    requires TypeOf(nclst) == Some(t) && b.fasize >= (TableBytes(t, nclst + 2) + 511) / 512
    requires if t == Fat32 then b.fsVer == 0 && b.nRootdir == 0 else b.nRootdir != 0
    ensures var fatbase := Wrap(bsect + b.nrsv);
            MountBpb(b, bsect) ==
            Some(Geo(t, b.nFats, b.csize, b.nRootdir, nclst + 2, b.fasize, bsect, fatbase,
                     if t == Fat32 then b.rootClus else Wrap(fatbase + b.fasize * b.nFats),
                     Wrap(bsect + b.nrsv + b.fasize * b.nFats + b.nRootdir / 16)))
  {
    hide IsUnit, TypeOf, TableBytes, Wrap;
  }

  lemma MountRefuses(b: Bpb, bsect: u32)
    requires IsUnit(b.csize) && b.csize > 0
    requires var sysect := b.nrsv + b.fasize * b.nFats + b.nRootdir / 16;
             b.fasize >= 0x20_0000 || (b.tsect >= sysect && (b.tsect - sysect) / b.csize <= 32)
    ensures MountBpb(b, bsect).None?
  {
    hide IsUnit, TableBytes, Wrap;
  }

  lemma UnitCount(x: nat, pau: nat, n: nat)
    requires IsUnit(pau) && pau * n <= x < pau * n + pau
    ensures x / pau == n
  {
    QuotientIs(x, pau, n, x - pau * n);
  }

  lemma EnoughRounded(bytes: nat, f: nat)
    requires bytes <= 512 * f
    ensures (bytes + 511) / 512 <= f
  {
  }

  /** Formatting, then mounting: the areas are disjoint and in order, the clusters end
      inside the volume, and the data area begins at an erase block. */
  lemma FormattedVolume(p: Plan, bVol: u32, szVol: u32, szBlk: nat)
    requires Sound(p, bVol, szVol, szBlk) && bVol + szVol < 0x1_0000_0000 && p.nClst > 32 && p.szFat < 0x20_0000
    ensures var g := GeoOf(p, bVol);
            && g.Ok() && g.Top() <= bVol + szVol
            && g.volbase < g.fatbase && g.fatbase + g.FatSectors() + g.nRootdir / 16 == g.database
            && (g.fsType != Fat32 ==> g.dirbase == g.fatbase + g.FatSectors())
            && szBlk > 0 && g.database % szBlk == 0
  {
    hide *;
    var b := Bpb(512, p.szFat, p.nFat, p.pau, if p.fsty == Fat32 then 0 else p.nRoot, szVol, p.szRsv, 0, 2);
    PlanMounts(p, bVol, szVol, szBlk, b);
    MountedIsOk(b, bVol);
    AlignedData(p, bVol, szVol, szBlk);
  }

  lemma AlignedData(p: Plan, bVol: nat, szVol: nat, szBlk: nat)
    requires Sound(p, bVol, szVol, szBlk)
    ensures szBlk > 0 && GeoOf(p, bVol).database % szBlk == 0 && p.szRsv > 0
    ensures GeoOf(p, bVol).volbase < GeoOf(p, bVol).fatbase
  {
  }

  // ---- volumes that are formatted but not mounted ----

  /** A plan that is taken at the first turn. */
  lemma TakenAtOnce(bVol: u32, szVol: u32, blockSize: nat, auSize: nat, fsty: FatType, d: Draft, p: Plan)
    requires szVol >= 64 && d.pau > 0
    requires TentativeOf(fsty, UnitOf(auSize), szVol, 512) == (true, d)
    requires LayOf(d, bVol, szVol, BlockOf(blockSize), 1, 512) == (true, p) && Judge(p, UnitOf(auSize), true) == Take
    ensures fsty == Fat16 ==> PlanFor(bVol, szVol, blockSize, 1, 512, auSize, true, true) == Some(p)
    ensures fsty == Fat32 ==> PlanFor(bVol, szVol, blockSize, 1, 512, auSize, false, true) == Some(p)
  {
    hide *;
    OptionsAre(1, 512);
    PlanForIs(bVol, szVol, blockSize, 1, 512, auSize, true, true);
    PlanForIs(bVol, szVol, blockSize, 1, 512, auSize, false, true);
    ChooseStep(bVol, szVol, BlockOf(blockSize), 1, 512, UnitOf(auSize), fsty, true, true, d, true, p);
  }

  lemma NotMounted(p: Plan, szVol: u32, szBlk: nat, vsn: u32)
    requires Sound(p, 0, szVol, szBlk) && szVol >= 64 && (p.nClst <= 32 || p.szFat >= 0x20_0000)
    ensures Mount(Vbr(p, 0, szVol, vsn), 0).None?
  {
    hide *;
    MountFindsPlan(p, 0, szVol, szBlk, vsn);
  }

  /** A drive of 66 sectors formatted with defaults gets exactly 32 clusters: f_mkfs asks for
      room for 32, mount_volume for more than 32. */
  lemma SmallestIsRefused(vsn: u32)
    ensures var p := Plan(Fat12, 1, 1, 512, 1, 1, 32, 32);
            && PlanFor(0, 66, 1, 1, 512, 0, true, true) == Some(p)
            && Sound(p, 0, 66, 1) && Mount(Vbr(p, 0, 66, vsn), 0).None?
  {
    hide *;
    var d, p := Draft(Fat12, 1, 1, 1, 32), Plan(Fat12, 1, 1, 512, 1, 1, 32, 32);
    SmallestPlan(d, p);
    TakenAtOnce(0, 66, 1, 0, Fat16, d, p);
    NotMounted(p, 66, 1, vsn);
  }

  lemma SmallestPlan(d: Draft, p: Plan)
    requires d == Draft(Fat12, 1, 1, 1, 32) && p == Plan(Fat12, 1, 1, 512, 1, 1, 32, 32)
    ensures BlockOf(1) == 1 && UnitOf(0) == 0 && TentativeOf(Fat16, 0, 66, 512) == (true, d)
    ensures LayOf(d, 0, 66, 1, 1, 512) == (true, p) && Judge(p, 0, true) == Take && Sound(p, 0, 66, 1)
  {
    hide TentativeOf, LayOf, TableBytes;
    SmallestDraft(d);
    SmallestLay(d, p);
    TableAt(Fat12, 34);
  }

  lemma SmallestDraft(d: Draft)
    requires d == Draft(Fat12, 1, 1, 1, 32)
    ensures TentativeOf(Fat16, 0, 66, 512) == (true, d)
  {
    hide *;
    AutoAt(66);
    TentativeIs(Fat16, 0, 66, 512, 1, 66);
    SmallAt(1, 66, 512);
  }

  lemma SmallestLay(d: Draft, p: Plan)
    requires d == Draft(Fat12, 1, 1, 1, 32) && p == Plan(Fat12, 1, 1, 512, 1, 1, 32, 32)
    ensures LayOf(d, 0, 66, 1, 1, 512) == (true, p)
  {
    hide *;
    GapAt(34, 1, 0);
    LayParts(d, 0, p.szRsv, p.szFat, 66, 1, 512);
    WrapIs(p.szFat);
    WrapIs(32);
    LayWith(d, 66, 1, 0, 34, p);
  }

  lemma SmallAt(pau: nat, nClst: nat, nRoot: nat)
    requires nClst <= 0xFF5
    ensures DraftSmall(Fat16, pau, nClst, nRoot) == Draft(Fat12, pau, 1, ((3 * nClst + 1) / 2 + 514) / 512, nRoot * 32 / 512)
  {
  }

  lemma TableAt(t: FatType, n: nat)
    ensures TableBytes(t, n) == match t case Fat12 => n + n / 2 + n % 2 case Fat16 => 2 * n case Fat32 => 4 * n
  {
  }

  lemma AutoAt(szVol: u32)
    requires szVol < 0x4000
    ensures AutoFrom(CST, szVol / 0x1000, 0, 1) == if szVol < 0x1000 then 1 else 2
  {
    var n := szVol / 0x1000;
    assert CST[0] == 1 && CST[1] == 4;
    assert AutoFrom(CST, n, 1, 2) == 2;
  }

  lemma GapAt(x: u32, b: nat, n: nat)
    requires 0 < b <= 0x8000 && x < 0x8000_0000 && n < b && (x + n) % b == 0
    ensures ToNext(x, b) == n
  {
    hide *;
    ToNextIs(x, b);
    var g := Gap(x, b);
    assert x + g == b * ((x + g) / b) && x + n == b * ((x + n) / b);
    if (x + g) / b < (x + n) / b { MulGap(b, (x + g) / b, (x + n) / b); }
    if (x + n) / b < (x + g) / b { MulGap(b, (x + n) / b, (x + g) / b); }
  }

  /** The plan for a volume at sector 0 with one FAT, when n sectors go to the alignment. */
  lemma LayWith(d: Draft, szVol: u32, szBlk: nat, n: nat, base: u32, p: Plan)
    requires 0 < szBlk <= 0x8000 && 0 < d.pau <= 128 && szVol < 0x8000_0000
    requires base == d.szRsv + d.szFat + d.szDir && base + 32 * d.pau <= szVol && n == ToNext(base, szBlk)
    requires p.szRsv == (if d.fsty == Fat32 then d.szRsv + n else d.szRsv) && p.szFat == (if d.fsty == Fat32 then d.szFat else d.szFat + n)
    requires p == PlanWith(d, p.szRsv, p.szFat, szVol, 1, 512)
    ensures LayOf(d, 0, szVol, szBlk, 1, 512) == (true, p)
  {
    hide *;
    MovedOne(d, n);
    LayIs(d, 0, szVol, szBlk, 1, 512);
    LayParts(d, 0, p.szRsv, p.szFat, szVol, 1, 512);
    WrapIs(d.szRsv);
    WrapIs(d.szFat);
    WrapIs(d.szRsv + d.szFat);
    WrapIs(base);
    WrapIs(base + d.pau * 32);
  }

  lemma MovedOne(d: Draft, n: nat)
    ensures Moved(d, 1, n) == if d.fsty == Fat32 then (d.szRsv + n, d.szFat) else (d.szRsv, d.szFat + n)
  {
  }

  /** With erase blocks of 4096 sectors a drive of as many gets no cluster at all: room is
      asked for before the alignment, and the FAT then grows over it. */
  lemma AlignmentLeavesNone(vsn: u32)
    ensures var p := Plan(Fat12, 2, 1, 512, 1, 4063, 32, 0);
            && PlanFor(0, 4096, 4096, 1, 512, 0, true, true) == Some(p)
            && Sound(p, 0, 4096, 4096) && Mount(Vbr(p, 0, 4096, vsn), 0).None?
  {
    hide *;
    var d, p := Draft(Fat12, 2, 1, 7, 32), Plan(Fat12, 2, 1, 512, 1, 4063, 32, 0);
    AlignedPlan(d, p);
    TakenAtOnce(0, 4096, 4096, 0, Fat16, d, p);
    NotMounted(p, 4096, 4096, vsn);
  }

  lemma AlignedPlan(d: Draft, p: Plan)
    requires d == Draft(Fat12, 2, 1, 7, 32) && p == Plan(Fat12, 2, 1, 512, 1, 4063, 32, 0)
    ensures BlockOf(4096) == 4096 && UnitOf(0) == 0 && TentativeOf(Fat16, 0, 4096, 512) == (true, d)
    ensures LayOf(d, 0, 4096, 4096, 1, 512) == (true, p) && Judge(p, 0, true) == Take && Sound(p, 0, 4096, 4096)
  {
    hide TentativeOf, LayOf, TableBytes;
    AlignedDraft(d);
    AlignedLay(d, p);
    TableAt(Fat12, 2);
  }

  lemma AlignedDraft(d: Draft)
    requires d == Draft(Fat12, 2, 1, 7, 32)
    ensures TentativeOf(Fat16, 0, 4096, 512) == (true, d)
  {
    hide *;
    AutoAt(4096);
    TentativeIs(Fat16, 0, 4096, 512, 2, 2048);
    SmallAt(2, 2048, 512);
  }

  lemma AlignedLay(d: Draft, p: Plan)
    requires d == Draft(Fat12, 2, 1, 7, 32) && p == Plan(Fat12, 2, 1, 512, 1, 4063, 32, 0)
    ensures LayOf(d, 0, 4096, 4096, 1, 512) == (true, p)
  {
    hide *;
    GapAt(40, 4096, 4056);
    LayParts(d, 0, p.szRsv, p.szFat, 4096, 1, 512);
    WrapIs(p.szFat);
    WrapIs(0);
    LayWith(d, 4096, 4096, 4056, 40, p);
  }

  /** FAT32 with as many clusters of one sector as f_mkfs tries at most needs 0x200000 FAT
      sectors, one more than mount_volume takes. */
  lemma LargestIsRefused(vsn: u32)
    ensures var p := Plan(Fat32, 1, 1, 512, 32, 0x20_0000, 0, 0xFDF_FFD5);
            && PlanFor(0, 0x0FFF_FFF5, 1, 1, 512, 512, false, true) == Some(p)
            && Sound(p, 0, 0x0FFF_FFF5, 1) && Mount(Vbr(p, 0, 0x0FFF_FFF5, vsn), 0).None?
  {
    hide *;
    var d, p := Draft(Fat32, 1, 32, 0x20_0000, 0), Plan(Fat32, 1, 1, 512, 32, 0x20_0000, 0, 0xFDF_FFD5);
    LargestPlan(d, p);
    TakenAtOnce(0, 0x0FFF_FFF5, 1, 512, Fat32, d, p);
    NotMounted(p, 0x0FFF_FFF5, 1, vsn);
  }

  lemma LargestPlan(d: Draft, p: Plan)
    requires d == Draft(Fat32, 1, 32, 0x20_0000, 0) && p == Plan(Fat32, 1, 1, 512, 32, 0x20_0000, 0, 0xFDF_FFD5)
    ensures BlockOf(1) == 1 && UnitOf(512) == 1 && TentativeOf(Fat32, 1, 0x0FFF_FFF5, 512) == (true, d)
    ensures LayOf(d, 0, 0x0FFF_FFF5, 1, 1, 512) == (true, p) && Judge(p, 1, true) == Take && Sound(p, 0, 0x0FFF_FFF5, 1)
  {
    hide TentativeOf, LayOf, TableBytes;
    LargestDraft(d);
    LargestLay(d, p);
    TableAt(Fat32, 0xFDF_FFD7);
  }

  lemma LargestDraft(d: Draft)
    requires d == Draft(Fat32, 1, 32, 0x20_0000, 0)
    ensures TentativeOf(Fat32, 1, 0x0FFF_FFF5, 512) == (true, d)
  {
    hide *;
    TypeLimits();
    TentativeIs(Fat32, 1, 0x0FFF_FFF5, 512, 1, 0x0FFF_FFF5);
    Facts32(1, 0x0FFF_FFF5);
  }

  lemma LargestLay(d: Draft, p: Plan)
    requires d == Draft(Fat32, 1, 32, 0x20_0000, 0) && p == Plan(Fat32, 1, 1, 512, 32, 0x20_0000, 0, 0xFDF_FFD5)
    ensures LayOf(d, 0, 0x0FFF_FFF5, 1, 1, 512) == (true, p)
  {
    hide *;
    GapAt(0x20_0020, 1, 0);
    LayParts(d, 0, p.szRsv, p.szFat, 0x0FFF_FFF5, 1, 512);
    WrapIs(p.szFat);
    WrapIs(0xFDF_FFD5);
    LayWith(d, 0x0FFF_FFF5, 1, 0, 0x20_0020, p);
  }

  // ---- the fresh FAT ----

  /** The first sector of each FAT, and zeros behind it. */
  function FreshTable(t: FatType, size: nat): (tbl: seq<byte>)
    ensures |tbl| == size
  {
    seq(size, i requires 0 <= i < size =>
      if i == 0 then 0xF8
      else if i < (if t == Fat12 then 3 else if t == Fat16 then 4 else 8) then 0xFF
      else if t == Fat32 && i < 12 then (if i == 11 then 0x0F else 0xFF)
      else 0)
  }

  lemma FreshEntries(t: FatType, n: nat, size: nat, c: nat)
    requires TableBytes(t, n) <= size && 2 <= c < n
    ensures Holds(t, n, FreshTable(t, size))
    ensures Entry(t, n, FreshTable(t, size), c) == if t == Fat32 && c == 2 then 0x0FFF_FFFF else 0
  {
    OfsInTable(t, n, c);
  }

  /** The two reserved entries hold the media descriptor F8 below ones, and all ones. */
  lemma FreshReserved(t: FatType, n: nat, size: nat)
    requires TableBytes(t, n) <= size && 2 <= n
    ensures Holds(t, n, FreshTable(t, size))
    ensures Entry(t, n, FreshTable(t, size), 0) == (match t case Fat12 => 0xFF8 case Fat16 => 0xFFF8 case Fat32 => 0x0FFF_FFF8)
    ensures Entry(t, n, FreshTable(t, size), 1) == (match t case Fat12 => 0xFFF case Fat16 => 0xFFFF case Fat32 => 0x0FFF_FFFF)
  {
    OfsInTable(t, n, 0);
    OfsInTable(t, n, 1);
  }

  lemma {:induction false} AllFree(f: Fat)
    requires |f| >= 2 && forall c :: 2 <= c < |f| ==> f[c] == 0
    ensures CountFree(f) == |f| - 2
  {
    if |f| > 2 { AllFree(f[..|f| - 1]); }
  }

  /** A fresh volume has every cluster free but the root directory of FAT32; the FSInfo
      sector f_mkfs writes says so; and its FAT is a safe forest. */
  lemma FreshVolume(t: FatType, n: nat, size: nat)
    requires 3 <= n && n <= MaxClusters(t) + 2 && TableBytes(t, n) <= size
    ensures Holds(t, n, FreshTable(t, size))
    ensures var f := Entries(t, n, FreshTable(t, size));
            && CountFree(f) == (if t == Fat32 then n - 3 else n - 2)
            && (t == Fat32 ==> IsChain(f, [2]) && Accurate(f, Ld32(FsInfoSector(n - 3, 2), 488)))
            && Safe(f) && (t == Fat32 ==> f[2] != 0) && f[0] != 0 && f[1] != 0 && forall c :: 2 <= c < n ==> f[c] != 1
  {
    var tbl := FreshTable(t, size);
    FreshEntries(t, n, size, 2);
    FreshReserved(t, n, size);
    var f := Entries(t, n, tbl);
    forall c | 2 <= c < n
      ensures f[c] == if t == Fat32 && c == 2 then 0x0FFF_FFFF else 0
    {
      FreshEntries(t, n, size, c);
    }
    if t == Fat32 { TypeMax(n); }
    hide *;
    if t == Fat32 { FreshRoot(f); } else { FreshEmpty(f); }
  }

  lemma TypeMax(n: nat)
    requires n <= MaxClusters(Fat32) + 2
    ensures n <= 0x0FFF_FFF7
  {
  }

  lemma FreshRoot(f: Fat)
    requires 3 <= |f| <= 0x0FFF_FFF7 && forall c :: 2 <= c < |f| ==> f[c] == if c == 2 then 0x0FFF_FFFF else 0
    ensures CountFree(f) == |f| - 3 && IsChain(f, [2]) && Safe(f)
    ensures Accurate(f, Ld32(FsInfoSector(|f| - 3, 2), 488))
  {
    hide *;
    RootSafe(f);
    RootCount(f);
    FsInfoReadsBack(|f| - 3, 2);
    CountIsAccurate(f, |f| - 3);
  }

  lemma RootCount(f: Fat)
    requires 3 <= |f| && forall c :: 2 <= c < |f| ==> f[c] == if c == 2 then 0x0FFF_FFFF else 0
    ensures CountFree(f) == |f| - 3
  {
    AllFree(f[2 := 0]);
    CountUpdate(f, 2, 0);
  }

  lemma CountIsAccurate(f: Fat, n: nat)
    requires |f| >= 2 && CountFree(f) == n
    ensures Accurate(f, n)
  {
  }

  lemma RootSafe(f: Fat)
    requires 3 <= |f| <= 0x0FFF_FFF7 && forall c :: 2 <= c < |f| ==> f[c] == if c == 2 then 0x0FFF_FFFF else 0
    ensures IsChain(f, [2]) && Safe(f)
  {
  }

  lemma FreshEmpty(f: Fat)
    requires 3 <= |f| && forall c :: 2 <= c < |f| ==> f[c] == 0
    ensures CountFree(f) == |f| - 2 && Safe(f)
  {
    AllFree(f);
  }
}
