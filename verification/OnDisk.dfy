/** The on-disk format byte by byte, as any other implementation of FAT would read it. Offsets
    as in the FAT32 File System Specification. */
module OnDisk {
  import opened Base
  import opened FatTable
  import opened Chains
  import opened Geometry
  import opened DirEntry
  import opened Mkfs
  import opened Mounting
  import opened FileData
  import opened FileLayout
  import opened FileSteps
  import opened FileSync
  import opened Numbers

  // ---- the FAT ----

  /** Byte b of FAT #1. */
  ghost function FatByteAt(g: Geo, d: Image, b: nat): (v: byte)
    requires Fits(g, d) && b < 512 * g.fsize
    ensures g.fatbase + b / 512 < |d| && v == d[g.fatbase + b / 512][b % 512]
  {
    assert g.fatbase + b / 512 < g.fatbase + g.fsize <= g.database <= |d|;
    d[g.fatbase + b / 512][b % 512]
  }

  lemma TableIsFat1(g: Geo, d: Image, b: nat)
    requires Fits(g, d) && b < 512 * g.fsize
    ensures Table(g, d)[b] == FatByteAt(g, d, b)
  {
  }

  lemma EntryInside(g: Geo, d: Image, c: nat)
    requires Fits(g, d) && c < g.nFatent
    ensures Holds(g.fsType, g.nFatent, Table(g, d))
    ensures Ofs(g.fsType, c) + Size(g.fsType) <= 512 * g.fsize
    ensures FatOf(g, d)[c] == Entry(g.fsType, g.nFatent, Table(g, d), c)
  {
    OfsInTable(g.fsType, g.nFatent, c);
  }

  /** FAT16: entry c is the little-endian word at byte 2 c of FAT #1. */
  lemma Fat16Bytes(g: Geo, d: Image, c: nat)
    requires Fits(g, d) && g.fsType == Fat16 && c < g.nFatent
    ensures 2 * c + 1 < 512 * g.fsize
    ensures FatOf(g, d)[c] == (FatByteAt(g, d, 2 * c) as int) + 256 * (FatByteAt(g, d, 2 * c + 1) as int)
  {
    EntryInside(g, d, c);
    hide FatOf, Table, Fits, FatByteAt;
    TableIsFat1(g, d, 2 * c);
    TableIsFat1(g, d, 2 * c + 1);
  }

  /** FAT32: entry c is the low 28 bits of the little-endian double word at byte 4 c. */
  lemma Fat32Bytes(g: Geo, d: Image, c: nat)
    requires Fits(g, d) && g.fsType == Fat32 && c < g.nFatent
    ensures 4 * c + 3 < 512 * g.fsize
    ensures FatOf(g, d)[c] == (FatByteAt(g, d, 4 * c) as int) + 256 * (FatByteAt(g, d, 4 * c + 1) as int)
                              + 0x1_0000 * (FatByteAt(g, d, 4 * c + 2) as int) + 0x100_0000 * (FatByteAt(g, d, 4 * c + 3) as int % 16)
  {
    EntryInside(g, d, c);
    TableIsFat1(g, d, 4 * c);
    TableIsFat1(g, d, 4 * c + 1);
    TableIsFat1(g, d, 4 * c + 2);
    TableIsFat1(g, d, 4 * c + 3);
    var tbl, e := Table(g, d), FatOf(g, d)[c];
    assert e == Entry(Fat32, g.nFatent, tbl, c) == Ld32(tbl, 4 * c) % 0x1000_0000;
    hide *;
    Ld32Parts(tbl, 4 * c);
    TopNibble(tbl[4 * c], tbl[4 * c + 1], tbl[4 * c + 2], tbl[4 * c + 3]);
  }

  lemma Ld32Parts(b: seq<byte>, k: nat)
    requires k + 4 <= |b|
    ensures Ld32(b, k) == (b[k] as int) + 256 * (b[k + 1] as int) + 65536 * (b[k + 2] as int) + 16777216 * (b[k + 3] as int)
  {
  }

  lemma TopNibble(a: byte, b: byte, c: byte, d: byte)
    ensures ((a as int) + 256 * (b as int) + 65536 * (c as int) + 16777216 * (d as int)) % 0x1000_0000
            == (a as int) + 256 * (b as int) + 65536 * (c as int) + 16777216 * (d as int % 16)
  {
    var low := (a as int) + 256 * (b as int) + 65536 * (c as int);
    var h, r := d as int / 16, d as int % 16;
    assert low + 16777216 * (d as int) == 0x1000_0000 * h + (low + 16777216 * r);
  }

  /** FAT12: the entries 2 k and 2 k + 1 share the three bytes from 3 k on; the even one has
      the first byte and the low half of the second. */
  lemma Fat12Even(g: Geo, d: Image, k: nat)
    requires Fits(g, d) && g.fsType == Fat12 && 2 * k < g.nFatent
    ensures 3 * k + 1 < 512 * g.fsize
    ensures FatOf(g, d)[2 * k] == (FatByteAt(g, d, 3 * k) as int) + 256 * (FatByteAt(g, d, 3 * k + 1) as int % 16)
  {
    EntryInside(g, d, 2 * k);
    Places12(k);
    var tbl := Table(g, d);
    hide *;
    TableIsFat1(g, d, 3 * k);
    TableIsFat1(g, d, 3 * k + 1);
    Entry12(g.nFatent, tbl, 2 * k, 3 * k);
    LowOf12(2 * k, tbl[3 * k], tbl[3 * k + 1]);
  }

  /** And the odd one has the rest. */
  lemma Fat12Odd(g: Geo, d: Image, k: nat)
    requires Fits(g, d) && g.fsType == Fat12 && 2 * k + 1 < g.nFatent
    ensures 3 * k + 2 < 512 * g.fsize
    ensures FatOf(g, d)[2 * k + 1] == (FatByteAt(g, d, 3 * k + 1) as int) / 16 + 16 * (FatByteAt(g, d, 3 * k + 2) as int)
  {
    EntryInside(g, d, 2 * k + 1);
    Places12(k);
    var tbl := Table(g, d);
    hide *;
    TableIsFat1(g, d, 3 * k + 1);
    TableIsFat1(g, d, 3 * k + 2);
    Entry12(g.nFatent, tbl, 2 * k + 1, 3 * k + 1);
    HighOf12(2 * k + 1, tbl[3 * k + 1], tbl[3 * k + 2]);
  }

  lemma Places12(k: nat)
    ensures Ofs(Fat12, 2 * k) == 3 * k && Ofs(Fat12, 2 * k + 1) == 3 * k + 1 && Size(Fat12) == 2
  {
  }

  lemma Entry12(n: nat, tbl: seq<byte>, c: nat, b: nat)
    requires Holds(Fat12, n, tbl) && c < n && b == Ofs(Fat12, c) && b + 1 < |tbl|
    ensures Entry(Fat12, n, tbl, c) == Get12(c, tbl[b], tbl[b + 1])
  {
  }

  lemma LowOf12(c: nat, a: byte, b: byte)
    requires c % 2 == 0
    ensures Get12(c, a, b) == (a as int) + 256 * (b as int % 16)
  {
    var h, r := b as int / 16, b as int % 16;
    assert (a as int) + 256 * (b as int) == 4096 * h + ((a as int) + 256 * r);
    QuotientIs((a as int) + 256 * (b as int), 4096, h, (a as int) + 256 * r);
  }

  lemma HighOf12(c: nat, a: byte, b: byte)
    requires c % 2 == 1
    ensures Get12(c, a, b) == (a as int) / 16 + 16 * (b as int)
  {
  }

  // ---- directory entries ----

  /** The start cluster is the word at 26, with the word at 20 above it on FAT32; the size is
      the double word at 28. */
  lemma EntryBytes(t: FatType, sec: Sector, ofs: nat)
    requires ofs + 32 <= 512
    ensures StartOf(t, sec, ofs) ==
            (sec[ofs + 26] as int) + 256 * (sec[ofs + 27] as int)
            + if t == Fat32 then 0x1_0000 * (sec[ofs + 20] as int) + 0x100_0000 * (sec[ofs + 21] as int) else 0
    ensures SizeOf(sec, ofs) ==
            (sec[ofs + 28] as int) + 256 * (sec[ofs + 29] as int) + 0x1_0000 * (sec[ofs + 30] as int) + 0x100_0000 * (sec[ofs + 31] as int)
  {
  }

  /** What f_sync leaves in the entry: name, case, creation time and, but for the archive bit,
      attributes stay; the access date is 0; the time of change is the double word at 22. */
  lemma EntryUpdated(t: FatType, sec: Sector, ofs: nat, cl: u32, size: u32, time: u32)
    requires ofs + 32 <= 512
    ensures var r := PutEntry(t, sec, ofs, cl, size, time);
            && (forall i :: ofs <= i < ofs + 18 && i != ofs + 11 ==> r[i] == sec[i])
            && (t != Fat32 ==> r[ofs + 20] == sec[ofs + 20] && r[ofs + 21] == sec[ofs + 21])
            && r[ofs + 11] as int / 32 % 2 == 1 && (r[ofs + 11] == sec[ofs + 11] || r[ofs + 11] as int == sec[ofs + 11] as int + 32)
            && r[ofs + 18] == 0 && r[ofs + 19] == 0
            && (r[ofs + 22] as int) + 256 * (r[ofs + 23] as int) + 0x1_0000 * (r[ofs + 24] as int) + 0x100_0000 * (r[ofs + 25] as int) == time
  {
    Bytes32(time);
  }

  // ---- the FSInfo sector ----

  /** "RRaA" at 0, "rrAa" at 484, the free count at 488, the hint at 492, 55 AA at the end, and
      nothing else. */
  lemma InfoBytes(free: u32, last: u32)
    ensures var r := FsInfoSector(free, last);
            && r[0] == 0x52 && r[1] == 0x52 && r[2] == 0x61 && r[3] == 0x41
            && r[484] == 0x72 && r[485] == 0x72 && r[486] == 0x41 && r[487] == 0x61
            && (r[488] as int) + 256 * (r[489] as int) + 0x1_0000 * (r[490] as int) + 0x100_0000 * (r[491] as int) == free
            && (r[492] as int) + 256 * (r[493] as int) + 0x1_0000 * (r[494] as int) + 0x100_0000 * (r[495] as int) == last
            && r[508] == 0 && r[509] == 0 && r[510] == 0x55 && r[511] == 0xAA
            && forall i :: 4 <= i < 484 || 496 <= i < 508 ==> r[i] == 0
  {
    Bytes32(free);
    Bytes32(last);
  }

  /** The free count and the hint count only in a sector with all three signatures. */
  lemma InfoRead(sec: Sector)
    ensures var signed := && sec[0] == 0x52 && sec[1] == 0x52 && sec[2] == 0x61 && sec[3] == 0x41
                          && sec[484] == 0x72 && sec[485] == 0x72 && sec[486] == 0x41 && sec[487] == 0x61
                          && sec[508] == 0 && sec[509] == 0 && sec[510] == 0x55 && sec[511] == 0xAA;
            && InfoFree(sec) == (if signed then Ld32(sec, 488) else 0xFFFF_FFFF)
            && InfoHint(sec) == (if signed then Ld32(sec, 492) else 0xFFFF_FFFF)
  {
    Digits(sec[0], sec[1], sec[2], sec[3], 0x52, 0x52, 0x61, 0x41);
    Digits(sec[484], sec[485], sec[486], sec[487], 0x72, 0x72, 0x41, 0x61);
    Digits(sec[508], sec[509], sec[510], sec[511], 0, 0, 0x55, 0xAA);
  }

  /** A double word determines its bytes. */
  lemma Digits(a: byte, b: byte, c: byte, d: byte, a': byte, b': byte, c': byte, d': byte)
    ensures (a as int) + 256 * (b as int) + 65536 * (c as int) + 16777216 * (d as int)
            == (a' as int) + 256 * (b' as int) + 65536 * (c' as int) + 16777216 * (d' as int)
            <==> a == a' && b == b' && c == c' && d == d'
  {
  }

  // ---- the boot sector ----

  /** The fields of the boot sector that every FAT volume has. */
  lemma BootBytes(p: Plan, bVol: u32, szVol: u32, szBlk: nat, vsn: u32)
    requires Sound(p, bVol, szVol, szBlk)
    ensures var s := Vbr(p, bVol, szVol, vsn);
            && s[0] == 0xEB && s[1] == 0xFE && s[2] == 0x90 && s[11] == 0 && s[12] == 2 && s[13] as int == p.pau && s[16] as int == p.nFat
            && s[21] == 0xF8 && s[24] == 63 && s[25] == 0 && s[26] == 255 && s[27] == 0 && s[510] == 0x55 && s[511] == 0xAA
  {
    SoundParts(p, bVol, szVol, szBlk);
    hide Sound, Overhead, Tail16, Tail32, Text;
  }

  lemma WordAt(p: Plan, bVol: u32, szVol: u32, vsn: u32, i: nat, v: nat)
    requires v < 65536 && i + 1 < 512
    requires VbrByte(p, bVol, szVol, vsn, i) == At(v, 0) && VbrByte(p, bVol, szVol, vsn, i + 1) == At(v, 1)
    ensures var s := Vbr(p, bVol, szVol, vsn); (s[i] as int) + 256 * (s[i + 1] as int) == v
  {
    hide VbrByte;
    Word16(v);
  }

  /** Reserved sectors, root entries, total sectors if they fit a word, and FAT size of FAT12
      and FAT16. */
  lemma BootWords(p: Plan, bVol: u32, szVol: u32, szBlk: nat, vsn: u32)
    requires Sound(p, bVol, szVol, szBlk)
    ensures var s := Vbr(p, bVol, szVol, vsn);
            && (s[14] as int) + 256 * (s[15] as int) == p.szRsv
            && (s[17] as int) + 256 * (s[18] as int) == (if p.fsty == Fat32 then 0 else p.nRoot)
            && (s[19] as int) + 256 * (s[20] as int) == (if szVol < 0x1_0000 then szVol else 0)
            && (s[22] as int) + 256 * (s[23] as int) == (if p.fsty == Fat32 then 0 else p.szFat)
  {
    SoundParts(p, bVol, szVol, szBlk);
    hide Sound, Overhead, Tail16, Tail32, Text, Vbr, At;
    WordAt(p, bVol, szVol, vsn, 14, p.szRsv);
    WordAt(p, bVol, szVol, vsn, 17, if p.fsty == Fat32 then 0 else p.nRoot);
    WordAt(p, bVol, szVol, vsn, 19, if szVol < 0x1_0000 then szVol else 0);
    WordAt(p, bVol, szVol, vsn, 22, if p.fsty == Fat32 then 0 else p.szFat);
  }

  lemma BootDoubles(p: Plan, bVol: u32, szVol: u32, vsn: u32)
    ensures var s := Vbr(p, bVol, szVol, vsn);
            && (s[28] as int) + 256 * (s[29] as int) + 0x1_0000 * (s[30] as int) + 0x100_0000 * (s[31] as int) == bVol
            && (s[32] as int) + 256 * (s[33] as int) + 0x1_0000 * (s[34] as int) + 0x100_0000 * (s[35] as int)
               == if szVol < 0x1_0000 then 0 else szVol
  {
    Word32(bVol);
    Word32(szVol);
  }

  /** Drive number, extended signature and serial number, which FAT32 has elsewhere. */
  lemma BootSerial(p: Plan, bVol: u32, szVol: u32, vsn: u32)
    ensures var s, k := Vbr(p, bVol, szVol, vsn), if p.fsty == Fat32 then 64 else 36;
            && s[k] == 0x80 && s[k + 1] == 0 && s[k + 2] == 0x29
            && (s[k + 3] as int) + 256 * (s[k + 4] as int) + 0x1_0000 * (s[k + 5] as int) + 0x100_0000 * (s[k + 6] as int) == vsn
  {
    Word32(vsn);
    hide Text;
    var s := Vbr(p, bVol, szVol, vsn);
    if p.fsty == Fat32 {
      assert s[67] == At(vsn, 0) && s[68] == At(vsn, 1) && s[69] == At(vsn, 2) && s[70] == At(vsn, 3) by { hide At; }
    } else {
      assert s[39] == At(vsn, 0) && s[40] == At(vsn, 1) && s[41] == At(vsn, 2) && s[42] == At(vsn, 3) by { hide At; }
    }
    hide Vbr, VbrByte, At;
  }

  /** The fields that only FAT32 has: FAT size, version 0, root directory at cluster 2, FSInfo in
      sector 1, and a copy of the boot sector in sector 6. */
  lemma Boot32Bytes(p: Plan, bVol: u32, szVol: u32, szBlk: nat, vsn: u32)
    requires Sound(p, bVol, szVol, szBlk) && p.fsty == Fat32
    ensures var s := Vbr(p, bVol, szVol, vsn);
            && (s[36] as int) + 256 * (s[37] as int) + 0x1_0000 * (s[38] as int) + 0x100_0000 * (s[39] as int) == p.szFat
            && s[40] == 0 && s[41] == 0 && s[42] == 0 && s[43] == 0 && s[44] == 2 && s[45] == 0 && s[46] == 0 && s[47] == 0
            && s[48] == 1 && s[49] == 0 && s[50] == 6 && s[51] == 0
  {
    SoundParts(p, bVol, szVol, szBlk);
    hide Sound, Overhead, Tail16, Text;
    var s := Vbr(p, bVol, szVol, vsn);
    assert s[36] == At(p.szFat, 0) && s[37] == At(p.szFat, 1) && s[38] == At(p.szFat, 2) && s[39] == At(p.szFat, 3) by { hide At; }
    Word32(p.szFat);
  }

  // ---- files ----

  /** What the device recovers is in the places where the format has it: the directory entry
      has the first cluster and the size, the FAT links the clusters, and the bytes lie in
      them. */
  lemma RecoveredBytes(g: Geo, v: Image, sect: nat, ofs: nat, r: FileRec)
    requires Recovered(g, v, sect, ofs, r)
    ensures sect < |v| && ofs + 32 <= 512 && StartOf(g.fsType, v[sect], ofs) == r.sclust && SizeOf(v[sect], ofs) == r.objsize == |r.content|
    ensures r.chain != [] ==>
              && Fits(g, v) && r.chain[0] == r.sclust
              && (forall i :: 0 <= i < |r.chain| ==> 2 <= r.chain[i] < g.nFatent)
              && (forall i :: 0 <= i < |r.chain| - 1 ==> FatOf(g, v)[r.chain[i]] == r.chain[i + 1])
              && FatOf(g, v)[r.chain[|r.chain| - 1]] >= g.nFatent
    ensures Stored(g, v, r.chain, r.content)
  {
    GeoFacts(g, v);
    if r.chain == [] {
      NothingStored(g, v, r);
    } else {
      ChainClusters(g, v, r.chain);
      SectorsLen(g, r.chain);
      RoomFor(g.csize, |r.chain|, r.objsize);
      hide Sectors, FatOf, Fits, IsChain, Shape, StartOf, SizeOf, Stored;
      ShownStored(g, v, r.chain, r.content);
    }
  }

  lemma NothingStored(g: Geo, v: Image, r: FileRec)
    requires g.csize > 0 && r.chain == [] && Shape(Bcs(g), |r.chain|, r.objsize, 0, 0) && |r.content| == r.objsize
    ensures Stored(g, v, r.chain, r.content)
  {
  }

  lemma RoomFor(csize: nat, n: nat, size: nat)
    requires size <= 512 * csize * n
    ensures size <= 512 * (csize * n)
  {
  }
}
