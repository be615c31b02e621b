/** The fields of a directory entry and of the FSInfo sector that f_sync writes. */
module DirEntry {
  import opened Base
  import opened FatTable

  /** ld_clust: the start cluster in a directory entry. */
  function StartOf(t: FatType, sec: Sector, ofs: nat): u32
    requires ofs + 32 <= 512
  {
    Ld16(sec, ofs + 26) as int + if t == Fat32 then 65536 * (Ld16(sec, ofs + 20) as int) else 0
  }

  function SizeOf(sec: Sector, ofs: nat): u32
    requires ofs + 32 <= 512
  {
    Ld32(sec, ofs + 28)
  }

  /** dir[DIR_Attr] |= AM_ARC, which is bit 5. */
  function WithArc(attr: byte): byte {
    if attr / 32 % 2 == 1 then attr else attr + 32
  }

  /** st_clust: the low word, and on FAT32 the high word, of the start cluster. */
  function PutStart(t: FatType, sec: Sector, ofs: nat, cl: u32): (r: Sector)
    requires ofs + 32 <= 512
  {
    var s := St16(sec, ofs + 26, cl);
    if t == Fat32 then St16(s, ofs + 20, cl / 65536) else s
  }

  /** The sector after f_sync has updated the entry at ofs. */
  function PutEntry(t: FatType, sec: Sector, ofs: nat, cl: u32, size: u32, time: u32): (r: Sector)
    requires ofs + 32 <= 512
  {
    var s0: Sector := sec[ofs + 11 := WithArc(sec[ofs + 11])];
    var s1: Sector := PutStart(t, s0, ofs, cl);
    var s2: Sector := St32(s1, ofs + 28, size);
    var s3: Sector := St32(s2, ofs + 22, time);
    St16(s3, ofs + 18, 0)
  }

  lemma PutStartReadsBack(t: FatType, sec: Sector, ofs: nat, cl: u32)
    requires ofs + 32 <= 512 && (t != Fat32 ==> cl < 65536)
    ensures StartOf(t, PutStart(t, sec, ofs, cl), ofs) == cl
    ensures forall i :: 0 <= i < 512 && !(ofs + 20 <= i < ofs + 22) && !(ofs + 26 <= i < ofs + 28) ==> PutStart(t, sec, ofs, cl)[i] == sec[i]
  {
    St16ReadBack(sec, ofs + 26, cl);
    var s: Sector := St16(sec, ofs + 26, cl);
    St16ReadBack(s, ofs + 20, cl / 65536);
  }

  /** The entry f_sync writes decodes to the start cluster and size it was given, and
      no byte outside the entry changes. */
  lemma EntryReadsBack(t: FatType, sec: Sector, ofs: nat, cl: u32, size: u32, time: u32)
    requires ofs + 32 <= 512 && (t != Fat32 ==> cl < 65536)
    ensures var r := PutEntry(t, sec, ofs, cl, size, time);
            && StartOf(t, r, ofs) == cl && SizeOf(r, ofs) == size
            && forall i :: 0 <= i < 512 && !(ofs <= i < ofs + 32) ==> r[i] == sec[i]
  {
    var s0: Sector := sec[ofs + 11 := WithArc(sec[ofs + 11])];
    PutStartReadsBack(t, s0, ofs, cl);
    var s1: Sector := PutStart(t, s0, ofs, cl);
    St32ReadBack(s1, ofs + 28, size);
    var s2: Sector := St32(s1, ofs + 28, size);
    St32ReadBack(s2, ofs + 22, time);
    var s3: Sector := St32(s2, ofs + 22, time);
    St16ReadBack(s3, ofs + 18, 0);
    var r: Sector := St16(s3, ofs + 18, 0);
    LdSame(s1, r, ofs);
    LdSame32(s2, r, ofs);
    assert StartOf(t, r, ofs) == StartOf(t, s1, ofs);
  }

  lemma LdSame(a: Sector, b: Sector, ofs: nat)
    requires ofs + 32 <= 512 && forall i :: ofs + 20 <= i < ofs + 22 || ofs + 26 <= i < ofs + 28 ==> a[i] == b[i]
    ensures Ld16(a, ofs + 26) == Ld16(b, ofs + 26) && Ld16(a, ofs + 20) == Ld16(b, ofs + 20)
  {
  }

  lemma LdSame32(a: Sector, b: Sector, ofs: nat)
    requires ofs + 32 <= 512 && forall i :: ofs + 28 <= i < ofs + 32 ==> a[i] == b[i]
    ensures Ld32(a, ofs + 28) == Ld32(b, ofs + 28)
  {
  }

  const LEAD_SIG: u32 := 0x4161_5252
  const STRUC_SIG: u32 := 0x6141_7272
  const TRAIL_SIG: u32 := 0xAA55_0000

  /** The FSInfo sector sync_fs writes. */
  function FsInfoSector(free: u32, last: u32): (r: Sector) {
    var z: Sector := seq(512, _ => 0);
    var s1: Sector := St32(z, 0, LEAD_SIG);
    var s2: Sector := St32(s1, 484, STRUC_SIG);
    var s3: Sector := St32(s2, 488, free);
    var s4: Sector := St32(s3, 492, last);
    St32(s4, 508, TRAIL_SIG)
  }

  predicate InfoSigned(sec: Sector) {
    Ld32(sec, 0) == LEAD_SIG && Ld32(sec, 484) == STRUC_SIG && Ld32(sec, 508) == TRAIL_SIG
  }

  /** The free count and the hint that mount_volume takes from an FSInfo sector; without the
      signatures they are unknown. */
  function InfoFree(sec: Sector): u32 { if InfoSigned(sec) then Ld32(sec, 488) else 0xFFFF_FFFF }

  function InfoHint(sec: Sector): u32 { if InfoSigned(sec) then Ld32(sec, 492) else 0xFFFF_FFFF }

  /** mount_volume accepts the FSInfo sector sync_fs writes and takes both numbers from it. */
  lemma FsInfoReadsBack(free: u32, last: u32)
    ensures var r := FsInfoSector(free, last);
            && Ld32(r, 0) == LEAD_SIG && Ld32(r, 484) == STRUC_SIG && Ld32(r, 508) == TRAIL_SIG
            && Ld32(r, 488) == free && Ld32(r, 492) == last
            && InfoFree(r) == free && InfoHint(r) == last
  {
    var z: Sector := seq(512, _ => 0);
    St32ReadBack(z, 0, LEAD_SIG);
    var s1: Sector := St32(z, 0, LEAD_SIG);
    St32ReadBack(s1, 484, STRUC_SIG);
    var s2: Sector := St32(s1, 484, STRUC_SIG);
    St32ReadBack(s2, 488, free);
    var s3: Sector := St32(s2, 488, free);
    St32ReadBack(s3, 492, last);
    var s4: Sector := St32(s3, 492, last);
    St32ReadBack(s4, 508, TRAIL_SIG);
  }
}
