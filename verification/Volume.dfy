/** The mounted volume (FATFS): the one-sector write-back window over the device,
    and the FAT accessors that work through it. */
module VolumeWindow {
  import opened Base
  import opened FatTable
  import opened Chains
  import opened DirEntry
  import opened Geometry

  class Volume {
    /** Geometry, fixed by the mount. */
    const g: Geo
    /** A reliable device never fails an access that lies inside it. */
    const reliable: bool

    /** The sectors of the device. */
    var disk: Image
    /** Every image the device has held since, one for each completed write. */
    ghost var log: seq<Image>
    var win: Sector
    var winsect: u32
    var wflag: bool
    /** fsi_flag: bit 0 (allocation changed) and bit 7 (FSInfo not used). */
    var fsiDirty: bool
    const fsiDisabled: bool
    var lastClst: u32
    var freeClst: u32

    /** The end of mount_volume: the free count and the hint come from the FSInfo sector if
        that is used, readable and signed, and are unknown otherwise. */
    constructor Mounted(g: Geo, device: Image, reliable: bool, fsInfoNext: bool)
      requires Fits(g, device) && g.volbase + 1 < |device|
      requires g.fsType == Fat32 && fsInfoNext ==> g.volbase + 1 < g.fatbase
      ensures this.g == g && this.reliable == reliable
      ensures Valid() && !wflag && !fsiDirty && disk == device && log == [device]
      ensures FsInfo() >= 0 ==>
                && g.fsType == Fat32 && fsInfoNext
                && freeClst == InfoFree(device[g.volbase + 1]) && lastClst == InfoHint(device[g.volbase + 1])
      ensures FsInfo() < 0 ==> freeClst == 0xFFFF_FFFF && lastClst == 0xFFFF_FFFF
      ensures reliable ==> (FsInfo() >= 0 <==> g.fsType == Fat32 && fsInfoNext)
    {
      this.g, this.reliable, disk, log := g, reliable, device, [device];
      win, winsect, wflag, fsiDirty := device[g.volbase], g.volbase, false, false;
      lastClst, freeClst := 0xFFFF_FFFF, 0xFFFF_FFFF;
      var readable: bool := *;
      fsiDisabled := !(g.fsType == Fat32 && fsInfoNext && (reliable || readable));
      if g.fsType == Fat32 && fsInfoNext {
        if reliable || readable {
          var s := device[g.volbase + 1];
          win, winsect := s, g.volbase + 1;
          if Ld32(s, 0) == LEAD_SIG && Ld32(s, 484) == STRUC_SIG && Ld32(s, 508) == TRAIL_SIG {
            freeClst, lastClst := Ld32(s, 488), Ld32(s, 492);
          }
        } else {
          winsect := NOSECT;
        }
      }
    }

    /** The FSInfo sector, next to the VBR, or -1 on a volume that does not use it. */
    function FsInfo(): int {
      if g.fsType == Fat32 && !fsiDisabled then g.volbase + 1 else -1
    }

    /** The FSInfo sector of a reliable device says what mount_volume would have to know, unless
        the flag says that it does not; the hint only while the free count is known. */
    ghost predicate InfoKept()
      reads `disk, `fsiDirty, `freeClst, `lastClst
    {
      reliable && FsInfo() >= 0 && !fsiDirty ==>
        && FsInfo() < |disk| && InfoFree(disk[FsInfo()]) == freeClst
        && (freeClst <= g.nFatent - 2 ==> InfoHint(disk[FsInfo()]) == lastClst)
    }

    ghost predicate Valid()
      reads `disk, `win, `winsect, `wflag, `fsiDirty, `freeClst, `lastClst
    {
      && Fits(g, disk)
      && (winsect == NOSECT || winsect < |disk|)
      && !g.InFat2(winsect)
      && (wflag ==> winsect != NOSECT && winsect as int != FsInfo())
      && (!wflag && winsect != NOSECT && winsect != FsInfo() ==> win == disk[winsect])
      && FsInfo() < g.fatbase as int
      && InfoKept()
    }

    /** Nothing waits to be written: the device has the window and the counters. */
    ghost predicate Flushed()
      reads `wflag, `fsiDirty
    {
      !wflag && (FsInfo() >= 0 ==> !fsiDirty)
    }

    ghost function Dev(): Device
      reads `disk, `log
    {
      Device(disk, log)
    }

    /** The state the FAT accessors work on. */
    ghost function Now(): (s: Snap)
      requires Valid()
      reads `disk, `log, `win, `winsect, `wflag, `fsiDirty, `freeClst, `lastClst
      ensures s == Snap(Dev(), View(), winsect) && s.dev.disk == disk && Fits(g, disk) && |s.view| == |disk|
    {
      Snap(Dev(), View(), winsect)
    }

    /** What the volume means: the device with the dirty window written back. */
    ghost function View(): (v: Image)
      requires Valid()
      reads `disk, `win, `winsect, `wflag, `fsiDirty, `freeClst, `lastClst
      ensures Fits(g, v) && |v| == |disk| && (!wflag ==> v == disk)
    {
      if wflag then disk[winsect := win] else disk
    }

    /** The FAT the volume means. */
    ghost function Fat(): (f: seq<nat>)
      requires Valid()
      reads `disk, `win, `winsect, `wflag, `fsiDirty, `freeClst, `lastClst
      ensures |f| == g.nFatent && f == FatOf(g, View())
    {
      FatOf(g, View())
    }

    /** disk_read of one sector; what a failed one returns is unspecified. */
    method DiskRead(sect: u32) returns (ok: bool, data: Sector)
      requires Valid()
      ensures ok ==> sect < |disk| && data == disk[sect]
      ensures reliable && sect < |disk| ==> ok
    {
      data := win;
      ok := *;
      if reliable { ok := true; }
      if sect >= |disk| { ok := false; }
      if ok { data := disk[sect]; }
    }

    method DiskWrite(data: Sector, sect: u32) returns (ok: bool)
      requires Fits(g, disk)
      modifies `disk, `log
      ensures ok ==> sect < |old(disk)| && disk == old(disk)[sect := data] && log == old(log) + [disk]
      ensures !ok ==> disk == old(disk) && log == old(log)
      ensures reliable && sect < |disk| ==> ok
    {
      ok := *;
      if reliable { ok := true; }
      if sect >= |disk| { ok := false; }
      if ok {
        disk := disk[sect := data];
        log := log + [disk];
      }
    }

    /** sync_window: write a dirty window back, and reflect a FAT #1 sector to FAT #2.
        The result of the second write is dropped, as in the original. */
    method SyncWindow() returns (res: FResult)
      requires Valid()
      modifies `disk, `log, `wflag
      ensures Valid()
      ensures res == FrOk ==> !wflag && SameButMirror(g, old(View()), disk)
      ensures res != FrOk ==> res == FrDiskErr && disk == old(disk) && log == old(log) && wflag == old(wflag) && !reliable
      ensures SameButMirror(g, old(View()), View()) && LogStep(g, old(log), log, old(View()))
      ensures reliable && Mirrored(g, old(disk)) ==> Mirrored(g, disk)
    {
      hide Geo.Top, PowerOfTwo, TableBytes, MaxClusters;
      res := FrOk;
      if wflag {
        var ok := DiskWrite(win, winsect);
        if ok {
          wflag := false;
          if Sub32(winsect, g.fatbase) < g.fsize {
            if g.nFats == 2 {
              var _ := DiskWrite(win, winsect + g.fsize);
            }
          }
        } else {
          res := FrDiskErr;
        }
      }
    }

    /** move_window: make a sector appear in the window. */
    method MoveWindow(sect: u32) returns (res: FResult)
      requires Valid() && sect != NOSECT && sect < |disk| && !g.InFat2(sect) && sect != FsInfo()
      modifies `disk, `log, `win, `winsect, `wflag
      ensures Valid()
      ensures res == FrOk ==> winsect == sect && win == View()[sect]
      ensures res != FrOk ==> res == FrDiskErr && !reliable && (winsect == old(winsect) || winsect == NOSECT)
      ensures SameButMirror(g, old(View()), View())
      ensures disk == old(disk) || SameButMirror(g, old(View()), disk)
      ensures LogStep(g, old(log), log, old(View()))
      ensures reliable && Mirrored(g, old(disk)) ==> Mirrored(g, disk)
    {
      res := FrOk;
      if sect != winsect {
        res := SyncWindow();
        if res == FrOk {
          var ok, data := DiskRead(sect);
          win := data; // whatever a failed read leaves there
          if ok {
            winsect := sect;
          } else {
            winsect := NOSECT;
            res := FrDiskErr;
          }
        }
      }
    }

    /** The bytes of FAT #1 that the volume means. */
    ghost function Tbl(): (tbl: seq<byte>)
      requires Valid()
      reads `disk, `win, `winsect, `wflag, `fsiDirty, `freeClst, `lastClst
      ensures |tbl| == 512 * g.fsize && tbl == Table(g, View())
    {
      Table(g, View())
    }

    /** Bring the FAT sector holding byte b of the table into the window. */
    method FatSector(b: nat) returns (res: FResult)
      requires Valid() && b < 512 * g.fsize
      modifies `disk, `log, `win, `winsect, `wflag
      ensures Valid()
      ensures res == FrOk ==> winsect == g.fatbase + b / 512 && g.InFat1(winsect) && SectorOf(Tbl(), b, win)
      ensures res != FrOk ==> res == FrDiskErr && !reliable
      ensures Tbl() == old(Tbl()) && Fat() == old(Fat())
      ensures WindowStep(g, old(Dev()), old(View()), old(winsect), Dev(), View(), winsect)
      ensures reliable && Mirrored(g, old(disk)) ==> Mirrored(g, disk)
    {
      hide *;
      FatSectorAt(b);
      ghost var d0, v0, w0 := Dev(), View(), winsect;
      res := MoveWindow(g.fatbase + b / 512);
      SameFat(g, v0, View());
      FatSectorAt(b);
      WindowStepOf(g, d0, v0, w0, Dev(), View(), winsect);
    }

    lemma FatSectorAt(b: nat)
      requires Valid() && b < 512 * g.fsize
      ensures var sect := g.fatbase + b / 512;
              && sect < |disk| < NOSECT + 1 && g.InFat1(sect) && !g.InFat2(sect) && sect != FsInfo() && sect != NOSECT
              && SectorOf(Tbl(), b, View()[sect])
      ensures Dev().disk == disk && Dev().log == log
    {
      TableSector(g, View(), g.fatbase + b / 512);
    }

    /** Load one byte of the table through the window. */
    method FatByte(b: nat) returns (res: FResult, v: byte)
      requires Valid() && b < 512 * g.fsize
      modifies `disk, `log, `win, `winsect, `wflag
      ensures Valid()
      ensures res == FrOk ==> v == Tbl()[b] == win[b % 512] && winsect == g.fatbase + b / 512 && g.InFat1(winsect)
      ensures res != FrOk ==> res == FrDiskErr && !reliable
      ensures Tbl() == old(Tbl()) && Fat() == old(Fat())
      ensures WindowStep(g, old(Dev()), old(View()), old(winsect), Dev(), View(), winsect)
      ensures reliable && Mirrored(g, old(disk)) ==> Mirrored(g, disk)
    {
      v := 0;
      res := FatSector(b);
      if res == FrOk {
        v := win[b % 512];
        ByteInSector(Tbl(), b, win);
      }
    }

    /** get_fat on a FAT12 volume: the entry may straddle two sectors. */
    method GetFat12(clst: nat) returns (val: u32)
      requires Valid() && g.fsType == Fat12 && g.IsCluster(clst)
      modifies `disk, `log, `win, `winsect, `wflag
      ensures Valid()
      ensures val == Fat()[clst] || (val == DISKERR && !reliable)
      ensures Fat() == old(Fat())
      ensures WindowStep(g, old(Dev()), old(View()), old(winsect), Dev(), View(), winsect)
      ensures reliable && Mirrored(g, old(disk)) ==> Mirrored(g, disk)
    {
      hide *;
      StatusBytes(g, View(), clst);
      val := DISKERR;
      var bc := clst + clst / 2;
      var res, lo := FatByte(bc);
      if res != FrOk { return; }
      ghost var d1, v1, w1 := Dev(), View(), winsect;
      bc := bc + 1;
      var hi;
      res, hi := FatByte(bc);
      WindowStepTrans(g, old(Dev()), old(View()), old(winsect), d1, v1, w1, Dev(), View(), winsect);
      if res != FrOk { return; }
      StatusBytes(g, View(), clst);
      val := Get12(clst, lo, hi);
    }

    method GetFat16(clst: nat) returns (val: u32)
      requires Valid() && g.fsType == Fat16 && g.IsCluster(clst)
      modifies `disk, `log, `win, `winsect, `wflag
      ensures Valid()
      ensures val == Fat()[clst] || (val == DISKERR && !reliable)
      ensures Fat() == old(Fat())
      ensures WindowStep(g, old(Dev()), old(View()), old(winsect), Dev(), View(), winsect)
      ensures reliable && Mirrored(g, old(disk)) ==> Mirrored(g, disk)
    {
      hide *;
      StatusBytes(g, View(), clst);
      val := DISKERR;
      var res := FatSector(2 * clst);
      if res == FrOk {
        WordInSector(Tbl(), clst, win);
        StatusBytes(g, View(), clst);
        val := Ld16(win, 2 * clst % 512);
      }
    }

    method GetFat32(clst: nat) returns (val: u32)
      requires Valid() && g.fsType == Fat32 && g.IsCluster(clst)
      modifies `disk, `log, `win, `winsect, `wflag
      ensures Valid()
      ensures val == Fat()[clst] || (val == DISKERR && !reliable)
      ensures Fat() == old(Fat())
      ensures WindowStep(g, old(Dev()), old(View()), old(winsect), Dev(), View(), winsect)
      ensures reliable && Mirrored(g, old(disk)) ==> Mirrored(g, disk)
    {
      hide *;
      StatusBytes(g, View(), clst);
      val := DISKERR;
      var res := FatSector(4 * clst);
      if res == FrOk {
        WordInSector(Tbl(), clst, win);
        StatusBytes(g, View(), clst);
        val := Ld32(win, 4 * clst % 512) % 0x1000_0000;
      }
    }

    /** get_fat: the status of a cluster, 1 for an invalid cluster number, or the
        disk-error code. */
    method GetFat(clst: nat) returns (val: u32)
      requires Valid()
      modifies `disk, `log, `win, `winsect, `wflag
      ensures Valid()
      ensures !g.IsCluster(clst) ==> val == 1
      ensures g.IsCluster(clst) ==> val == Fat()[clst] || val == DISKERR
      ensures val == DISKERR ==> g.IsCluster(clst) && !reliable
      ensures Fat() == old(Fat())
      ensures ReadStep(g, reliable, old(Now()), Now())
    {
      if clst < 2 || clst >= g.nFatent {
        return 1;
      }
      StatusBytes(g, View(), clst);
      hide Valid, View, Fat, Tbl, Fits, Geo.Ok, WindowStep, Mirrored, Entries, Entry, FatOf, Table;
      match g.fsType
      case Fat12 => val := GetFat12(clst);
      case Fat16 => val := GetFat16(clst);
      case Fat32 => val := GetFat32(clst);
    }

    /** Store byte b of the table, whose sector is in the window, and mark it dirty. */
    method StoreInWindow(b: nat, v: byte)
      requires Valid() && b < 512 * g.fsize && winsect == g.fatbase + b / 512
      modifies `win, `wflag
      ensures Valid() && wflag
      ensures win == old(win)[b % 512 := v]
      ensures Tbl() == old(Tbl())[b := v]
      ensures SameButFats(g, old(View()), View())
    {
      ghost var v0 := View();
      assert v0[winsect] == win;
      TableStore(g, v0, winsect, b % 512, v);
      win := win[b % 512 := v];
      wflag := true;
      assert View() == v0[winsect := win];
    }

    /** put_fat on a FAT12 volume: two byte stores, possibly in two sectors. */
    method PutFat12(clst: nat, val: u32) returns (res: FResult)
      requires Valid() && g.fsType == Fat12 && g.IsCluster(clst)
      modifies `disk, `log, `win, `winsect, `wflag
      ensures Valid()
      ensures res == FrOk ==> Fat() == old(Fat())[clst := Mask(g.fsType, val)] && g.InFat1(winsect)
      ensures res != FrOk ==> res == FrDiskErr && !reliable && (forall c :: 0 <= c < g.nFatent && c != clst ==> Fat()[c] == old(Fat())[c])
      ensures StoreStep(g, old(Dev()), old(View()), old(winsect), Dev(), View(), winsect)
      ensures res == FrOk ==> DevStep(g, old(Now()), Now(), {clst}, -1)
      ensures reliable && Mirrored(g, old(disk)) ==> Mirrored(g, disk)
    {
      hide *;
      StatusBytes(g, View(), clst);
      ghost var s0, d0, v0, w0, t0 := Now(), Dev(), View(), winsect, Tbl();
      var bc := clst + clst / 2;
      var p;
      res, p := FatByte(bc);
      if res != FrOk { WindowThenStore(g, d0, v0, w0, Dev(), View(), winsect, View()); return; }
      ghost var s1, d1, v1, w1 := Now(), Dev(), View(), winsect;
      StoreInWindow(bc, Low12(clst, val, p));
      ghost var d2, v2, w2, t2 := Dev(), View(), winsect, Tbl();
      HalfDone(g, d0, v0, w0, d1, v1, w1, v2, clst, val);
      bc := bc + 1;
      res, p := FatByte(bc);
      SecondMove(g, d0, v0, w0, d2, v2, w2, Dev(), View(), winsect);
      if res != FrOk { return; }
      ghost var s3, v3 := Now(), View();
      StoreInWindow(bc, High12(clst, val, p));
      LastStore12(g, d0, v0, w0, Dev(), v3, winsect, View());
      Done12(g, v0, View(), clst, val);
      DevOfPut12(g, s0, s1, v2, s3, View(), clst);
    }

    /** st_16 and st_32 into the FAT sector in the window. */
    method StoreWord16(b: nat, v: u32)
      requires Valid() && b + 2 <= 512 * g.fsize && b % 2 == 0 && winsect == g.fatbase + b / 512
      modifies `win, `wflag
      ensures Valid()
      ensures Tbl() == St16(old(Tbl()), b, v)
      ensures SameButFats(g, old(View()), View())
    {
      hide *;
      SameSector(b);
      ghost var v1 := View();
      St16Is(Tbl(), b, v);
      var b0: byte, b1: byte := v % 256, v / 256 % 256;
      StoreInWindow(b, b0);
      ghost var v2 := View();
      StoreInWindow(b + 1, b1);
      SameButFatsTrans(g, v1, v2, View());
    }

    method StoreWord32(b: nat, v: u32)
      requires Valid() && b + 4 <= 512 * g.fsize && b % 4 == 0 && winsect == g.fatbase + b / 512
      modifies `win, `wflag
      ensures Valid()
      ensures Tbl() == St32(old(Tbl()), b, v)
      ensures SameButFats(g, old(View()), View())
    {
      hide *;
      SameSector(b);
      ghost var v1 := View();
      St32Is(Tbl(), b, v);
      var b0: byte, b1: byte, b2: byte, b3: byte := v % 256, v / 256 % 256, v / 65536 % 256, v / 16777216 % 256;
      StoreInWindow(b, b0);
      ghost var v2 := View();
      StoreInWindow(b + 1, b1);
      SameButFatsTrans(g, v1, v2, View());
      v2 := View();
      StoreInWindow(b + 2, b2);
      SameButFatsTrans(g, v1, v2, View());
      v2 := View();
      StoreInWindow(b + 3, b3);
      SameButFatsTrans(g, v1, v2, View());
    }

    method PutFat16(clst: nat, val: u32) returns (res: FResult)
      requires Valid() && g.fsType == Fat16 && g.IsCluster(clst)
      modifies `disk, `log, `win, `winsect, `wflag
      ensures Valid()
      ensures res == FrOk ==> Fat() == old(Fat())[clst := Mask(g.fsType, val)] && g.InFat1(winsect)
      ensures res != FrOk ==> res == FrDiskErr && !reliable && Fat() == old(Fat())
      ensures StoreStep(g, old(Dev()), old(View()), old(winsect), Dev(), View(), winsect)
      ensures reliable && Mirrored(g, old(disk)) ==> Mirrored(g, disk)
    {
      hide *;
      StatusBytes(g, View(), clst);
      ghost var d0, v0, w0 := Dev(), View(), winsect;
      res := FatSector(2 * clst);
      WindowThenStore(g, d0, v0, w0, Dev(), View(), winsect, View());
      if res != FrOk { return; }
      WordInSector(Tbl(), clst, win);
      ghost var d1, v1, w1 := Dev(), View(), winsect;
      Aligned(clst);
      StoreWord16(2 * clst, val);
      WindowThenStore(g, d0, v0, w0, d1, v1, w1, View());
      Done16(g, v0, View(), clst, val);
    }

    method PutFat32(clst: nat, val: u32) returns (res: FResult)
      requires Valid() && g.fsType == Fat32 && g.IsCluster(clst)
      modifies `disk, `log, `win, `winsect, `wflag
      ensures Valid()
      ensures res == FrOk ==> Fat() == old(Fat())[clst := Mask(g.fsType, val)] && g.InFat1(winsect)
      ensures res != FrOk ==> res == FrDiskErr && !reliable && Fat() == old(Fat())
      ensures StoreStep(g, old(Dev()), old(View()), old(winsect), Dev(), View(), winsect)
      ensures reliable && Mirrored(g, old(disk)) ==> Mirrored(g, disk)
    {
      hide *;
      StatusBytes(g, View(), clst);
      ghost var d0, v0, w0 := Dev(), View(), winsect;
      res := FatSector(4 * clst);
      WindowThenStore(g, d0, v0, w0, Dev(), View(), winsect, View());
      if res != FrOk { return; }
      WordInSector(Tbl(), clst, win);
      ghost var d1, v1, w1 := Dev(), View(), winsect;
      Aligned(clst);
      StoreWord32(4 * clst, Merge32(val, Ld32(win, 4 * clst % 512)));
      WindowThenStore(g, d0, v0, w0, d1, v1, w1, View());
      Done32(g, v0, View(), clst, val);
    }

    /** put_fat: change the status of a cluster. */
    method PutFat(clst: nat, val: u32) returns (res: FResult)
      requires Valid()
      modifies `disk, `log, `win, `winsect, `wflag
      ensures Valid()
      ensures !g.IsCluster(clst) <==> res == FrIntErr
      ensures res == FrOk ==> Fat() == old(Fat())[clst := Mask(g.fsType, val)] && g.InFat1(winsect)
      ensures res == FrIntErr ==> Fat() == old(Fat())
      ensures res != FrOk && res != FrIntErr ==> res == FrDiskErr && !reliable
      ensures res == FrDiskErr && g.fsType != Fat12 ==> Fat() == old(Fat())
      ensures forall c :: 0 <= c < g.nFatent && c != clst ==> Fat()[c] == old(Fat())[c]
      ensures PutStep(g, reliable, old(Now()), Now())
      ensures res == FrOk ==> DevStep(g, old(Now()), Now(), {clst}, -1)
    {
      ghost var s0 := Now();
      res := FrIntErr;
      if clst >= 2 && clst < g.nFatent {
        hide Valid, View, Fat, Tbl, Fits, Geo.Ok, StoreStep, Mirrored, FatOf, DevStep;
        match g.fsType {
          case Fat12 => res := PutFat12(clst, val);
          case Fat16 => res := PutFat16(clst, val);
          case Fat32 => res := PutFat32(clst, val);
        }
        if g.fsType != Fat12 { DevOfPut(g, reliable, s0, Now(), clst); }
      }
    }

    /** Update the allocation information if it is valid. */
    method CountFreed()
      requires Valid()
      modifies `fsiDirty, `freeClst
      ensures Valid() && Now() == old(Now()) && Fat() == old(Fat())
      ensures freeClst == if old(freeClst) < g.nFatent - 2 then old(freeClst) + 1 else old(freeClst)
    {
      if freeClst < g.nFatent - 2 {
        freeClst := freeClst + 1;
        fsiDirty := true;
      }
    }

    method CountTaken(ncl: u32)
      requires Valid() && freeClst != 0
      modifies `fsiDirty, `freeClst, `lastClst
      ensures Valid() && Now() == old(Now()) && Fat() == old(Fat())
      ensures lastClst == ncl
      ensures freeClst == if 0 < old(freeClst) <= g.nFatent - 2 then old(freeClst) - 1 else old(freeClst)
    {
      lastClst := ncl;
      if freeClst > 0 && freeClst <= g.nFatent - 2 {
        freeClst := freeClst - 1;
        fsiDirty := true;
      }
    }

    /** A scan has made the free count valid. */
    method CountKnown(nfree: u32)
      requires Valid()
      modifies `fsiDirty, `freeClst
      ensures Valid() && Now() == old(Now()) && Fat() == old(Fat()) && freeClst == nfree
    {
      freeClst := nfree;
      fsiDirty := true;
    }

    /** Free one cluster and count it. */
    method FreeEntry(clst: nat) returns (res: FResult)
      requires Valid() && g.IsCluster(clst) && Fat()[clst] != 0
      modifies `disk, `log, `win, `winsect, `wflag, `fsiDirty, `freeClst
      ensures Valid()
      ensures res == FrOk ==> Fat() == old(Fat())[clst := 0]
      ensures res != FrOk ==> res == FrDiskErr && !reliable
      ensures old(Accurate(Fat(), freeClst)) && (res == FrOk || g.fsType != Fat12) ==> Accurate(Fat(), freeClst)
      ensures ChainStep(g, reliable, old(Now()), Now())
      ensures FreedSafely(g, old(Now()), Now(), clst)
      ensures forall c :: 0 <= c < g.nFatent && c != clst ==> Fat()[c] == old(Fat())[c]
      ensures res == FrOk ==> DevStep(g, old(Now()), Now(), {clst}, -1)
    {
      hide *;
      ghost var s, f := Now(), Fat();
      StatusBytes(g, View(), clst);
      if Accurate(f, freeClst) { AccurateFreed(f, clst, freeClst); }
      res := PutFat(clst, 0);
      ChainStepOf(g, reliable, s, Now());
      CrashFree(g, reliable, s, Now(), clst);
      if res == FrOk { CountFreed(); }
    }

    /** The loop of remove_chain. */
    method FreeFrom(clst: u32) returns (res: FResult)
      requires Valid() && 2 <= clst < g.nFatent
      modifies `disk, `log, `win, `winsect, `wflag, `fsiDirty, `freeClst
      ensures Valid()
      ensures res == FrOk ==> Fat() == FreeWalk(old(Fat()), clst) && !WalkFails(old(Fat()), clst)
      ensures res == FrIntErr ==> Fat() == FreeWalk(old(Fat()), clst) && WalkFails(old(Fat()), clst)
      ensures res == FrOk || res == FrIntErr || (res == FrDiskErr && !reliable)
      ensures forall i :: 0 <= i < g.nFatent && FreeWalk(old(Fat()), clst)[i] == old(Fat())[i] ==> Fat()[i] == old(Fat())[i]
      ensures res == FrOk ==> DevStep(g, old(Now()), Now(), Zeros(Fat()), -1)
      ensures old(Accurate(Fat(), freeClst)) && (res != FrDiskErr || g.fsType != Fat12) ==> Accurate(Fat(), freeClst)
      ensures ChainStep(g, reliable, old(Now()), Now())
      ensures HeadSafe(g, old(Now()), clst) ==> SafeNow(g, Now())
    {
      hide *;
      ghost var s0, f0, goal, bad := Now(), Fat(), FreeWalk(Fat(), clst), WalkFails(Fat(), clst);
      ClusterRange(g, View(), clst);
      ChainStepOf(g, reliable, s0, s0);
      DevRefl(g, s0, Zeros(f0), -1);
      var c := clst;
      while true
        invariant Valid() && 2 <= c < g.nFatent && (old(Accurate(Fat(), freeClst)) ==> Accurate(Fat(), freeClst))
        invariant FreeWalk(Fat(), c) == goal && WalkFails(Fat(), c) == bad
        invariant forall i :: 0 <= i < g.nFatent ==> Fat()[i] == f0[i] || (Fat()[i] == 0 && goal[i] == 0)
        invariant ChainStep(g, reliable, s0, Now()) && DevStep(g, s0, Now(), Zeros(Fat()), -1)
        invariant HeadSafe(g, s0, clst) ==> HeadSafe(g, Now(), c)
        decreases |Fat()| - CountFree(Fat())
      {
        ghost var s1, f1 := Now(), Fat();
        ClusterRange(g, View(), c);
        WalkUnfold(f1, c);
        var nxt := GetFat(c);
        ghost var s2 := Now();
        DevOfRead(g, reliable, s1, s2);
        ZerosMore(f1, c);
        ChainStepOf(g, reliable, s1, s2);
        ChainStepTrans(g, reliable, s0, s1, s2);
        HeadSafeRead(g, reliable, s1, s2, c);
        DevTrans(g, s0, s1, s2, Zeros(f1), {}, Zeros(f1), -1);
        if nxt == 0 { return FrOk; }
        if nxt == 1 { return FrIntErr; }
        if nxt == DISKERR { return FrDiskErr; }
        res := FreeEntry(c);
        ChainStepTrans(g, reliable, s0, s2, Now());
        HeadSafeFreed(g, s2, Now(), c);
        if res != FrOk { return; }
        DevTrans(g, s0, s2, Now(), Zeros(f1), {c}, Zeros(Fat()), -1);
        ClusterRange(g, View(), nxt);
        c := nxt;
        if c >= g.nFatent { return FrOk; }
      }
    }

    /** Mark a used cluster as the end of its chain. */
    method EndAt(pclst: u32) returns (res: FResult)
      requires Valid() && 2 <= pclst < g.nFatent
      modifies `disk, `log, `win, `winsect, `wflag
      ensures Valid()
      ensures res == FrOk ==> Fat() == CutAt(g, old(Fat()), pclst)
      ensures res != FrOk ==> res == FrDiskErr && !reliable
      ensures old(Accurate(Fat(), freeClst) && Fat()[pclst] != 0) && (res == FrOk || g.fsType != Fat12) ==> Accurate(Fat(), freeClst)
      ensures ChainStep(g, reliable, old(Now()), Now())
      ensures CutKeepsSafe(g, old(Now()), Now(), pclst)
      ensures forall i :: 0 <= i < g.nFatent && i != pclst ==> Fat()[i] == old(Fat())[i]
      ensures res == FrOk ==> DevStep(g, old(Now()), Now(), {pclst as nat}, -1)
    {
      hide *;
      ghost var s0, f := Now(), Fat();
      CutFacts(g, s0, pclst, pclst);
      StoredValues(g, View(), 0);
      res := PutFat(pclst, 0xFFFF_FFFF);
      ChainStepOf(g, reliable, s0, Now());
      if Accurate(f, freeClst) && f[pclst] != 0 { AccurateRelinked(f, pclst, EndMark(g.fsType), freeClst); }
      CutHead(g, reliable, s0, Now(), pclst);
    }

    /** remove_chain: free the chain from clst on, and end it at pclst if given. */
    method RemoveChain(clst: u32, pclst: u32) returns (res: FResult)
      requires Valid()
      modifies `disk, `log, `win, `winsect, `wflag, `fsiDirty, `freeClst
      ensures Valid()
      ensures Removable(g, clst, pclst) ==>
                && (res != FrDiskErr ==> Fat() == FreeWalk(CutAt(g, old(Fat()), pclst), clst))
                && (res != FrDiskErr ==> (res == FrIntErr <==> WalkFails(CutAt(g, old(Fat()), pclst), clst)))
                && (forall i :: 0 <= i < g.nFatent && i != pclst && FreeWalk(CutAt(g, old(Fat()), pclst), clst)[i] == old(Fat())[i] ==>
                      Fat()[i] == old(Fat())[i])
                && (res == FrOk ==> DevStep(g, old(Now()), Now(), Zeros(Fat()) + {pclst as nat}, -1))
      ensures !Removable(g, clst, pclst) ==> res == FrIntErr && Fat() == old(Fat())
      ensures res == FrOk || res == FrIntErr || (res == FrDiskErr && !reliable)
      ensures old(Accurate(Fat(), freeClst) && (2 <= pclst < g.nFatent ==> Fat()[pclst] != 0)) && (res != FrDiskErr || g.fsType != Fat12) ==>
                Accurate(Fat(), freeClst)
      ensures ChainStep(g, reliable, old(Now()), Now())
      ensures CutHeadSafe(g, old(Now()), clst, pclst) ==> SafeNow(g, Now())
    {
      hide *;
      ghost var s0, f0 := Now(), Fat();
      ChainStepOf(g, reliable, s0, s0);
      DevRefl(g, s0, {pclst as nat}, -1);
      CutFacts(g, s0, clst, pclst);
      if clst < 2 || clst >= g.nFatent { return FrIntErr; }
      if pclst != 0 {
        if pclst < 2 || pclst >= g.nFatent { return FrIntErr; }
        res := EndAt(pclst);
        CutSafe(g, s0, Now(), clst, pclst);
        if res != FrOk { return; }
      }
      ghost var s1, f1 := Now(), Fat();
      res := FreeFrom(clst);
      ChainStepTrans(g, reliable, s0, s1, Now());
      if res == FrOk { DevTrans(g, s0, s1, Now(), {pclst as nat}, Zeros(Fat()), Zeros(Fat()) + {pclst as nat}, -1); }
    }

    /** The search loop of create_chain: the first free cluster after scl, in cyclic
        order, or 0 if there is none. */
    method FindFree(scl: u32) returns (ncl: u32)
      requires Valid() && 1 <= scl < g.nFatent
      modifies `disk, `log, `win, `winsect, `wflag
      ensures Valid() && Fat() == old(Fat())
      ensures ncl == 0 ==> CountFree(Fat()) == 0
      ensures ncl == 1 ==> exists c :: 2 <= c < g.nFatent && Fat()[c] == 1
      ensures ncl == DISKERR ==> !reliable
      ensures ncl != 0 && ncl != 1 && ncl != DISKERR ==> 2 <= ncl < g.nFatent && NextFree(Fat(), scl, ncl)
      ensures ReadStep(g, reliable, old(Now()), Now())
    {
      hide *;
      ghost var s0, f := Now(), Fat();
      ReadStepRefl(g, reliable, s0);
      SearchStart(f, scl);
      ncl := scl;
      while true
        invariant Valid() && Fat() == f
        invariant scl <= ncl < g.nFatent || 2 <= ncl < scl
        invariant Searched(f, scl, ncl)
        invariant ReadStep(g, reliable, s0, Now())
        decreases if ncl >= scl then g.nFatent - ncl + scl else scl - ncl
      {
        ghost var s1 := Now();
        ClusterRange(g, View(), ncl);
        SearchTurn(f, scl, ncl);
        ncl := ncl + 1;
        if ncl >= g.nFatent {
          ncl := 2;
          if ncl > scl { return 0; }
        }
        ClusterRange(g, View(), ncl);
        var cs := GetFat(ncl);
        ReadStepTrans(g, reliable, s0, s1, Now());
        if cs == 0 { return; }
        if cs == 1 || cs == DISKERR { return cs; }
        if ncl == scl { return 0; }
      }
    }

    /** The choice of the new cluster: next to the tail if possible, else by search. */
    method PickFree(clst: u32) returns (ncl: u32)
      requires Valid() && (clst == 0 || 2 <= clst < g.nFatent)
      modifies `disk, `log, `win, `winsect, `wflag
      ensures Valid() && Fat() == old(Fat())
      ensures ncl == 0 && Accurate(Fat(), freeClst) ==> CountFree(Fat()) == 0
      ensures ncl == 1 ==> exists c :: 2 <= c < g.nFatent && Fat()[c] == 1
      ensures ncl == DISKERR ==> !reliable
      ensures ncl != 0 && ncl != 1 && ncl != DISKERR ==> Picked(Fat(), clst, lastClst, ncl) && freeClst != 0
      ensures ReadStep(g, reliable, old(Now()), Now())
    {
      hide *;
      ghost var s0, f := Now(), Fat();
      ReadStepRefl(g, reliable, s0);
      ClusterRange(g, View(), clst);
      NoneFree(f, freeClst);
      var scl := clst;
      if clst == 0 {
        scl := lastClst;
        if scl == 0 || scl >= g.nFatent { scl := 1; }
      }
      if freeClst == 0 { return 0; }
      if scl == clst {
        ncl := scl + 1;
        if ncl >= g.nFatent { ncl := 2; }
        PickFacts(f, clst, lastClst, ncl);
        ClusterRange(g, View(), ncl);
        var cs := GetFat(ncl);
        if cs == 0 { return; }
        if cs == 1 || cs == DISKERR { return cs; }
        cs := lastClst;
        if cs >= 2 && cs < g.nFatent { scl := cs; }
      }
      ghost var s1 := Now();
      ncl := FindFree(scl);
      ReadStepTrans(g, reliable, s0, s1, Now());
      PickFacts(f, clst, lastClst, ncl);
    }

    /** Take the new cluster and link it behind the tail, if there is one. */
    method LinkNew(clst: u32, ncl: u32) returns (r: u32)
      requires Valid() && 2 <= ncl < g.nFatent && Fat()[ncl] == 0 && freeClst != 0
      requires clst == 0 || (2 <= clst < g.nFatent && Fat()[clst] != 0)
      modifies `disk, `log, `win, `winsect, `wflag, `fsiDirty, `freeClst, `lastClst
      ensures Valid()
      ensures r == ncl || (r == DISKERR && !reliable)
      ensures r == ncl ==> Fat() == Linked(old(Fat()), clst, ncl, EndMark(g.fsType)) && g.InFat1(winsect) && lastClst == ncl
      ensures r == ncl && old(Accurate(Fat(), freeClst)) ==> Accurate(Fat(), freeClst)
      ensures forall c :: 0 <= c < g.nFatent && c != ncl && c != clst ==> Fat()[c] == old(Fat())[c]
      ensures r == ncl ==> DevStep(g, old(Now()), Now(), {clst as nat, ncl as nat}, -1)
      ensures ChainStep(g, reliable, old(Now()), Now())
      ensures SafeNow(g, old(Now())) ==> SafeNow(g, Now())
    {
      hide *;
      ghost var s0, f := Now(), Fat();
      ClusterRange(g, View(), clst);
      ClusterRange(g, View(), ncl);
      StoredValues(g, View(), ncl);
      ghost var end := EndMark(g.fsType);
      LinkedFacts(f, clst, ncl, end, freeClst);
      var res := PutFat(ncl, 0xFFFF_FFFF);
      ghost var s1 := Now();
      if res == FrOk { DevMore(g, s0, s1, {ncl as nat}, {clst as nat, ncl as nat}, -1); }
      ChainStepOf(g, reliable, s0, s1);
      TakeSafe(g, reliable, s0, s1, ncl);
      HeadSafeIsSafe(g, s1, ncl);
      if res == FrOk && clst != 0 {
        res := PutFat(clst, ncl);
        ChainStepOf(g, reliable, s1, Now());
        ChainStepTrans(g, reliable, s0, s1, Now());
        LinkSafe(g, reliable, s1, Now(), clst, ncl);
        if res == FrOk { DevTrans(g, s0, s1, Now(), {ncl as nat}, {clst as nat}, {clst as nat, ncl as nat}, -1); }
      }
      if res == FrOk {
        CountTaken(ncl);
        r := ncl;
      } else {
        r := 1;
        if res == FrDiskErr { r := DISKERR; }
      }
    }

    /** create_chain: stretch the chain that ends at clst, or start a new chain if clst
        is 0. Returns the new cluster, the existing successor, 0 when the volume is
        full, 1 on an insane FAT, or the disk-error code. */
    method CreateChain(clst: u32) returns (ncl: u32)
      requires Valid()
      modifies `disk, `log, `win, `winsect, `wflag, `fsiDirty, `freeClst, `lastClst
      ensures Valid()
      ensures ncl == 0 ==>
                && Fat() == old(Fat()) && (old(Accurate(Fat(), freeClst)) ==> CountFree(Fat()) == 0)
                && (clst == 0 || (2 <= clst < g.nFatent && old(Fat())[clst] >= g.nFatent))
      ensures ncl == 1 ==> Fat() == old(Fat()) && Insane(old(Fat()), clst)
      ensures ncl == DISKERR ==> !reliable
      ensures ncl != 0 && ncl != 1 && ncl != DISKERR ==>
                Created(old(Fat()), Fat(), clst, old(lastClst), ncl, EndMark(g.fsType))
      ensures ncl != DISKERR && Fat() != old(Fat()) ==> g.InFat1(winsect) && lastClst == ncl
      ensures ncl != DISKERR && Fat() == old(Fat()) ==> freeClst == old(freeClst) && lastClst == old(lastClst)
      ensures ncl != DISKERR && old(Accurate(Fat(), freeClst)) ==> Accurate(Fat(), freeClst)
      ensures forall c :: 0 <= c < g.nFatent && old(Fat())[c] != 0 && c != clst ==> Fat()[c] == old(Fat())[c]
      ensures ncl != DISKERR ==> DevStep(g, old(Now()), Now(), if Fat() == old(Fat()) then {} else {clst as nat, ncl as nat}, -1)
      ensures ChainStep(g, reliable, old(Now()), Now())
      ensures SafeNow(g, old(Now())) ==> SafeNow(g, Now())
    {
      hide *;
      ghost var s0, f := Now(), Fat();
      ReadStepRefl(g, reliable, s0);
      DevRefl(g, s0, {}, -1);
      ClusterRange(g, View(), clst);
      ghost var end := EndMark(g.fsType);
      StoredValues(g, View(), clst);
      if clst != 0 {
        InsaneFacts(f, clst);
        ncl := GetFat(clst);
        ChainStepOf(g, reliable, s0, Now());
        CrashWindow(g, reliable, s0, Now());
        DevOfRead(g, reliable, s0, Now());
        if ncl < 2 { return 1; }
        if ncl == DISKERR { return; }
        if ncl < g.nFatent { ExistingFacts(f, clst, lastClst, end); return; }
      }
      ghost var s1 := Now();
      ncl := PickFree(clst);
      ReadStepTrans(g, reliable, s0, s1, Now());
      ChainStepOf(g, reliable, s0, Now());
      CrashWindow(g, reliable, s0, Now());
      DevOfRead(g, reliable, s0, Now());
      if ncl == 0 { return; }
      if ncl == 1 { InsaneEntry(f, clst); return; }
      if ncl == DISKERR { return; }
      PickFacts(f, clst, lastClst, ncl);
      ghost var s2, hint := Now(), lastClst;
      ghost var fresh_ := ncl;
      ncl := LinkNew(clst, ncl);
      ChainStepTrans(g, reliable, s0, s2, Now());
      if ncl == fresh_ { DevTrans(g, s0, s2, Now(), {}, {clst as nat, ncl as nat}, {clst as nat, ncl as nat}, -1); }
      CreatedFacts(f, clst, hint, end);
    }

    /** f_getfree on FAT12: count the clusters whose entry reads 0. */
    method ScanEntries() returns (res: FResult, nfree: u32)
      requires Valid()
      modifies `disk, `log, `win, `winsect, `wflag
      ensures Valid() && Fat() == old(Fat())
      ensures res == FrOk ==> nfree == CountFree(Fat())
      ensures res == FrIntErr ==> exists c :: 2 <= c < g.nFatent && Fat()[c] == 1
      ensures res == FrOk || res == FrIntErr || (res == FrDiskErr && !reliable)
      ensures ReadStep(g, reliable, old(Now()), Now())
    {
      hide *;
      ghost var s0, f := Now(), Fat();
      ReadStepRefl(g, reliable, s0);
      ClusterRange(g, View(), 2);
      WholeCounts(f);
      nfree := 0;
      res := FrOk;
      var clst: u32 := 2;
      while clst < g.nFatent
        invariant Valid() && Fat() == f && 2 <= clst <= g.nFatent
        invariant nfree == CountFree(f[..clst]) && nfree <= clst
        invariant ReadStep(g, reliable, s0, Now())
      {
        ghost var s1 := Now();
        ClusterRange(g, View(), clst);
        CountFreeStep(f, clst);
        var stat := GetFat(clst);
        ReadStepTrans(g, reliable, s0, s1, Now());
        if stat == DISKERR { return FrDiskErr, nfree; }
        if stat == 1 { return FrIntErr, nfree; }
        if stat == 0 { nfree := nfree + 1; }
        clst := clst + 1;
      }
    }

    /** f_getfree on FAT16 and FAT32: walk the FAT sector by sector and count the
        entries that are zero, the two reserved ones included. */
    method ScanSectors() returns (res: FResult, nfree: u32)
      requires Valid() && g.fsType != Fat12
      modifies `disk, `log, `win, `winsect, `wflag
      ensures Valid() && Fat() == old(Fat())
      ensures res == FrOk ==> nfree == CountZeros(Fat())
      ensures res == FrOk || (res == FrDiskErr && !reliable)
      ensures ReadStep(g, reliable, old(Now()), Now())
    {
      hide *;
      ghost var s0, f := Now(), Fat();
      ReadStepRefl(g, reliable, s0);
      ClusterRange(g, View(), 2);
      WholeCounts(f);
      var size := if g.fsType == Fat16 then 2 else 4;
      nfree := 0;
      res := FrOk;
      var clst: nat := g.nFatent;
      var b: nat, i := 0, 0;
      while clst > 0
        invariant Valid() && Fat() == f && clst <= g.nFatent && res == FrOk
        invariant nfree == CountZeros(f[..g.nFatent - clst]) && nfree <= g.nFatent - clst
        invariant b == (if g.fsType == Fat16 then 2 else 4) * (g.nFatent - clst) && b % size == 0 && i == b % 512
        invariant i != 0 ==> SectorOf(Tbl(), b, win)
        invariant ReadStep(g, reliable, s0, Now())
      {
        ghost var s1, c := Now(), g.nFatent - clst;
        EntryInSector(g, View(), c, b, win);
        CountZerosStep(f, c);
        if i == 0 {
          res := FatSector(b);
          FatSectorStep(s1, Now());
          ReadStepTrans(g, reliable, s0, s1, Now());
          if res != FrOk { return; }
          EntryInSector(g, View(), c, b, win);
        }
        if (if g.fsType == Fat16 then Ld16(win, i) else Ld32(win, i) % 0x1000_0000) == 0 { nfree := nfree + 1; }
        NextInSector(size, b, Tbl(), win);
        i := (i + size) % 512;
        b := b + size;
        clst := clst - 1;
      }
    }

    lemma FatSectorStep(s: Snap, s': Snap)
      requires WindowStep(g, s.dev, s.view, s.winsect, s'.dev, s'.view, s'.winsect)
      requires Fits(g, s.dev.disk) && Fits(g, s'.dev.disk) && (reliable && Mirrored(g, s.dev.disk) ==> Mirrored(g, s'.dev.disk))
      ensures ReadStep(g, reliable, s, s')
    {
    }

    /** f_getfree: the number of free clusters, from the cached count or by a scan that
        makes the cached count valid. */
    method GetFree() returns (res: FResult, nclst: u32)
      requires Valid()
      modifies `disk, `log, `win, `winsect, `wflag, `freeClst, `fsiDirty
      ensures Valid() && Fat() == old(Fat())
      ensures res == FrOk && old(freeClst) <= g.nFatent - 2 ==> nclst == old(freeClst) == freeClst
      ensures res == FrOk && old(freeClst) > g.nFatent - 2 ==>
                && nclst == freeClst
                && nclst == CountFree(Fat()) + if g.fsType == Fat12 then 0 else (if Fat()[0] == 0 then 1 else 0) + (if Fat()[1] == 0 then 1 else 0)
      ensures res != FrOk ==> freeClst == old(freeClst)
      ensures res == FrIntErr ==> g.fsType == Fat12 && exists c :: 2 <= c < g.nFatent && Fat()[c] == 1
      ensures res == FrOk || res == FrIntErr || (res == FrDiskErr && !reliable)
      ensures ReadStep(g, reliable, old(Now()), Now())
    {
      hide *;
      ghost var s0 := Now();
      ReadStepRefl(g, reliable, s0);
      ClusterRange(g, View(), 2);
      WholeCounts(Fat());
      res := FrOk;
      if freeClst <= g.nFatent - 2 {
        nclst := freeClst;
      } else {
        if g.fsType == Fat12 {
          res, nclst := ScanEntries();
        } else {
          res, nclst := ScanSectors();
        }
        if res == FrOk { CountKnown(nclst); }
      }
    }

    /** disk_read of consecutive data sectors into a caller's buffer. */
    method ReadData(lba: u32, cc: nat) returns (ok: bool, data: seq<Sector>)
      requires Valid() && cc > 0 && !(lba <= winsect < lba + cc)
      ensures ok ==> lba + cc <= |View()| && data == View()[lba..lba + cc]
      ensures reliable && lba + cc <= |View()| ==> ok
    {
      data := [];
      ok := *;
      if reliable { ok := true; }
      if lba + cc > |disk| { ok := false; }
      if ok {
        data := disk[lba..lba + cc];
        assert data == View()[lba..lba + cc];
      }
    }

    /** One data sector of a transfer reaches the device. */
    method StoreData(lba: nat, sec: Sector)
      requires Valid() && g.database <= lba < |View()| && lba != winsect
      modifies `disk, `log
      ensures Valid() && |View()| == old(|View()|) && Fat() == old(Fat())
      ensures DataStep(g, reliable, old(Now()), Now(), lba, [sec])
    {
      ghost var s0 := Now();
      disk := disk[lba := sec];
      log := log + [disk];
      if wflag { assert View() == Patched(s0.view, lba, [sec]); }
      DataStepOf(g, reliable, s0, Now(), lba, [sec]);
    }

    /** disk_write of consecutive data sectors from a caller's buffer, one after the other.
        A transfer that fails has written only its first `done` sectors. */
    method WriteData(lba: u32, data: seq<Sector>) returns (ok: bool, ghost done: nat)
      requires Valid() && |data| > 0 && g.database <= lba && !(lba <= winsect < lba + |data|)
      modifies `disk, `log
      ensures Valid() && Fat() == old(Fat()) && done <= |data| && (ok <==> done == |data|)
      ensures done == 0 ==> Now() == old(Now())
      ensures done > 0 ==> DataStep(g, reliable, old(Now()), Now(), lba, data[..done])
      ensures ok ==> DataStep(g, reliable, old(Now()), Now(), lba, data)
      ensures reliable && lba + |data| <= old(|View()|) ==> ok
    {
      hide *;
      ghost var s0 := Now();
      ok, done := false, 0;
      if lba + |data| > |disk| { return; }
      var i := 0;
      while i < |data|
        invariant 0 <= i == done <= |data| && Valid() && |View()| == |s0.view| && Fat() == old(Fat())
        invariant i == 0 ==> Now() == s0
        invariant i > 0 ==> DataStep(g, reliable, s0, Now(), lba, data[..i])
      {
        var fault := *;
        if fault && !reliable { return; }
        ghost var s1 := Now();
        StoreData(lba + i, data[i]);
        if i > 0 { DataStepMore(g, reliable, s0, s1, Now(), lba, data, i); }
        assert i == 0 ==> data[..i + 1] == [data[i]];
        i, done := i + 1, done + 1;
      }
      assert data[..|data|] == data;
      ok := true;
    }

    /** sync_window, seen as a step of the FAT accessors. */
    method FlushWindow() returns (res: FResult)
      requires Valid()
      modifies `disk, `log, `wflag
      ensures Valid() && Fat() == old(Fat())
      ensures res == FrOk ==> !wflag && View() == disk
      ensures res != FrOk ==> res == FrDiskErr && !reliable && Now() == old(Now()) && wflag == old(wflag)
      ensures ReadStep(g, reliable, old(Now()), Now())
    {
      ghost var v0 := View();
      res := SyncWindow();
      hide *;
      SameFat(g, v0, View());
    }

    /** Build the FSInfo sector in the window and write it; the result is dropped. */
    method WriteFsInfo()
      requires Valid() && !wflag && FsInfo() >= 0
      modifies `disk, `log, `win, `winsect, `fsiDirty
      ensures Valid() && !wflag && winsect == FsInfo() && !fsiDirty
      ensures MetaStep(g, reliable, old(Now()), Now(), FsInfo())
      ensures reliable ==> disk[FsInfo()] == FsInfoSector(freeClst, lastClst)
    {
      ghost var s0 := Now();
      hide FsInfoSector, MetaStep;
      FsInfoReadsBack(freeClst, lastClst);
      fsiDirty := false;
      win := FsInfoSector(freeClst, lastClst);
      winsect := g.volbase + 1;
      var _ := DiskWrite(win, winsect);
      MetaStepOfWrite(g, reliable, s0, Now(), g.volbase + 1);
    }

    /** On a volume without FSInfo the flag is only cleared. */
    method ClearFlag()
      requires Valid() && FsInfo() < 0
      modifies `fsiDirty
      ensures Valid() && !fsiDirty && Now() == old(Now()) && Fat() == old(Fat())
    {
      fsiDirty := false;
    }

    /** CTRL_SYNC: the device completes its pending writes. */
    method Flush() returns (ok: bool)
      ensures reliable ==> ok
    {
      ok := *;
      if reliable { ok := true; }
    }

    /** sync_fs: flush the window, renew the FSInfo sector if the allocation changed, and
        flush the device. A failed FSInfo write is not reported, as in the original. */
    method SyncFs() returns (res: FResult)
      requires Valid()
      modifies `disk, `log, `win, `winsect, `wflag, `fsiDirty
      ensures Valid()
      ensures res == FrOk ==> !wflag && Flushed()
      ensures res != FrOk ==> res == FrDiskErr && !reliable
      ensures wflag ==> Now() == old(Now())
      ensures MetaStep(g, reliable, old(Now()), Now(), FsInfo())
      ensures winsect == old(winsect) || winsect == FsInfo()
      ensures reliable && old(fsiDirty) && FsInfo() >= 0 ==> FsInfo() < |disk| && disk[FsInfo()] == FsInfoSector(freeClst, lastClst)
    {
      hide *;
      ghost var s0 := Now();
      FsInfoUsed();
      res := FlushWindow();
      MetaStepOfRead(g, reliable, s0, Now(), FsInfo());
      ghost var s1 := Now();
      if res == FrOk {
        if fsiDirty && !fsiDisabled {
          if g.fsType != Fat32 {
            ClearFlag();
          } else {
            WriteFsInfo();
            MetaStepTrans(g, reliable, s0, s1, Now(), FsInfo());
          }
        }
        var ok := Flush();
        if !ok { res := FrDiskErr; }
      }
      FsInfoUsed();
      if res == FrOk { FlushedOf(); }
    }

    lemma KnownIsRight()
      requires Valid() && Accurate(Fat(), freeClst)
      ensures freeClst <= g.nFatent - 2 ==> freeClst == CountFree(Fat())
    {
    }

    lemma FlushedOf()
      requires !wflag && (FsInfo() >= 0 ==> !fsiDirty)
      ensures Flushed()
    {
    }

    /** On a flushed reliable volume with FSInfo the device has the number of free clusters, if
        that is known, and a mount finds it there. */
    lemma CountOnDevice()
      requires Valid() && reliable && Flushed() && FsInfo() >= 0 && Accurate(Fat(), freeClst)
      ensures View() == disk && FsInfo() < |disk| && InfoFree(disk[FsInfo()]) == freeClst && Accurate(FatOf(g, disk), InfoFree(disk[FsInfo()]))
      ensures freeClst <= g.nFatent - 2 ==> InfoFree(disk[FsInfo()]) == CountFree(Fat()) && InfoHint(disk[FsInfo()]) == lastClst
    {
    }

    lemma FsInfoUsed()
      requires Valid()
      ensures FsInfo() >= 0 <==> g.fsType == Fat32 && !fsiDisabled
      ensures FsInfo() < |disk|
    {
    }

    lemma InfoBeforeFats()
      requires Valid()
      ensures FsInfo() < g.fatbase as int && |View()| < 0x1_0000_0000
    {
    }

    /** Update a directory entry through the window: archive attribute, start cluster,
        size, time of change, and no access date. */
    method WriteEntry(sect: u32, ofs: nat, cl: u32, size: u32, time: u32) returns (res: FResult)
      requires Valid() && ofs + 32 <= 512
      requires sect < |disk| && !g.InFats(sect) && sect != FsInfo() && sect != NOSECT
      modifies `disk, `log, `win, `winsect, `wflag
      ensures Valid()
      ensures res == FrOk ==>
                && winsect == sect && wflag
                && View()[sect] == PutEntry(g.fsType, old(View())[sect], ofs, cl, size, time)
      ensures |disk| == |old(disk)|
      ensures res == FrOk ==> forall x :: 0 <= x < |disk| && x != sect ==> View()[x] == disk[x]
      ensures res != FrOk ==> res == FrDiskErr && !reliable && View()[sect] == old(View())[sect]
      ensures disk[sect] == old(disk)[sect] || disk[sect] == old(View())[sect]
      ensures MetaStep(g, reliable, old(Now()), Now(), sect)
      ensures winsect == old(winsect) || winsect == sect || winsect == NOSECT
    {
      res := LoadSector(sect);
      if res == FrOk {
        ghost var s0, s1 := old(Now()), Now();
        StoreSector(PutEntry(g.fsType, win, ofs, cl, size, time));
        MetaStepTrans(g, reliable, s0, s1, Now(), sect);
      }
    }

    /** move_window to a sector outside the FATs. */
    method LoadSector(sect: u32) returns (res: FResult)
      requires Valid() && sect < |disk| && !g.InFats(sect) && sect != FsInfo() && sect != NOSECT
      modifies `disk, `log, `win, `winsect, `wflag
      ensures Valid()
      ensures |disk| == |old(disk)|
      ensures res == FrOk ==> winsect == sect && win == View()[sect] == old(View())[sect]
      ensures res != FrOk ==> res == FrDiskErr && !reliable && (winsect == old(winsect) || winsect == NOSECT) && View()[sect] == old(View())[sect]
      ensures disk[sect] == old(disk)[sect] || disk[sect] == old(View())[sect]
      ensures MetaStep(g, reliable, old(Now()), Now(), sect)
    {
      ghost var s0, v0 := Now(), View();
      res := MoveWindow(sect);
      SameFat(g, v0, View());
      LoadIsMeta(g, reliable, s0, Now(), sect);
    }

    method StoreSector(data: Sector)
      requires Valid() && winsect != NOSECT && !g.InFats(winsect) && winsect as int != FsInfo()
      modifies `win, `wflag
      ensures Valid() && wflag && View()[winsect] == data
      ensures forall x :: 0 <= x < |disk| && x != winsect ==> View()[x] == disk[x]
      ensures MetaStep(g, reliable, old(Now()), Now(), winsect)
    {
      ghost var s0 := Now();
      hide MetaStep;
      win := data;
      wflag := true;
      MetaStepOfWrite(g, reliable, s0, Now(), winsect);
    }
  }
}
