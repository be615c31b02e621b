/** An open file (FIL): f_read, f_write, f_lseek, f_truncate and f_sync over the
    volume, proved against a byte string with a position. */
module Files {
  import opened Base
  import opened FatTable
  import opened Chains
  import opened Geometry
  import opened DirEntry
  import opened VolumeWindow
  import opened FileData
  import opened FileLayout
  import opened FileSteps
  import opened FileTurns
  import opened FileSync

  class File {
    const fs: Volume
    const canRead: bool
    const canWrite: bool
    /** Where the directory entry of the file lies. */
    const dirSect: u32
    const dirOfs: nat

    var sclust: u32
    var objsize: u32
    var fptr: u32
    var clust: u32
    var sect: u32
    var buf: Sector
    var dirty: bool
    var modified: bool
    var err: FResult

    /** The clusters of the file, its bytes, and the place of clust in the chain. */
    ghost var chain: seq<nat>
    ghost var content: Content
    ghost var cur: nat

    /** The part of f_open that sets up the file object from the directory entry. */
    constructor Open(fs: Volume, sclust: u32, size: u32, canRead: bool, canWrite: bool, dirSect: u32, dirOfs: nat, ghost ch: seq<nat>)
      requires fs.Valid() && Accurate(fs.Fat(), fs.freeClst)
      requires Described(fs.g, fs.Now(), sclust, size, ch)
      ensures this.fs == fs && this.canRead == canRead && this.canWrite == canWrite
      ensures this.dirSect == dirSect && this.dirOfs == dirOfs
      ensures Ready() && !dirty && !modified && err == FrOk && fptr == 0
      ensures chain == ch && this.sclust == sclust && objsize == size <= 512 * |Sectors(fs.g, ch)|
      ensures (forall k :: 0 <= k < |Sectors(fs.g, ch)| ==> Sectors(fs.g, ch)[k] < |fs.View()|) && content == OnDevice(fs.g, fs.View(), ch, size)
      ensures Stored(fs.g, fs.View(), ch, content) && |content| == size && forall n :: 0 <= n < size ==> content[n].Some?
    {
      hide *;
      this.fs, this.canRead, this.canWrite, this.dirSect, this.dirOfs := fs, canRead, canWrite, dirSect, dirOfs;
      this.sclust, objsize, fptr, clust, sect := sclust, size, 0, 0, 0;
      buf := seq(512, _ => 0);
      dirty, modified, err := false, false, FrOk;
      chain, cur := ch, 0;
      content := [];
      new;
      Opened(fs.g, fs.Now(), Rec());
      content := OnDevice(fs.g, fs.View(), ch, size);
      Opened(fs.g, fs.Now(), Rec());
      OpenedStored(fs.g, fs.Now(), Rec());
    }

    ghost function Rec(): (r: FileRec)
      reads `sclust, `objsize, `fptr, `clust, `sect, `buf, `dirty, `chain, `content, `cur
      ensures r == FileRec(sclust, objsize, fptr, clust, sect, buf, dirty, chain, content, cur)
    {
      FileRec(sclust, objsize, fptr, clust, sect, buf, dirty, chain, content, cur)
    }

    /** What holds before each turn of a read or write loop. */
    ghost predicate Ready(): (b: bool)
      reads `sclust, `objsize, `fptr, `clust, `sect, `buf, `dirty, `chain, `content, `cur
      reads fs`disk, fs`log, fs`win, fs`winsect, fs`wflag, fs`fsiDirty, fs`freeClst, fs`lastClst
      ensures b <==> fs.Valid() && Accurate(fs.Fat(), fs.freeClst) && FileInv(fs.g, fs.Now(), Rec())
    {
      fs.Valid() && Accurate(fs.Fat(), fs.freeClst) && FileInv(fs.g, fs.Now(), Rec())
    }

    /** What every operation finds and leaves, aborted ones included. */
    ghost predicate Valid(): (b: bool)
      reads `sclust, `objsize, `fptr, `clust, `sect, `buf, `dirty, `chain, `content, `cur, `err, `modified
      reads fs`disk, fs`log, fs`win, fs`winsect, fs`wflag, fs`fsiDirty, fs`freeClst, fs`lastClst
      ensures b <==> fs.Valid() && Closable(fs.g, fs.Now(), Rec()) && (dirty ==> modified || err != FrOk) && (err == FrOk ==> Ready())
    {
      fs.Valid() && Closable(fs.g, fs.Now(), Rec()) && (dirty ==> modified || err != FrOk) && (err == FrOk ==> Ready())
    }

    /** Write a dirty buffer back to its sector. */
    method FlushBuf() returns (ok: bool)
      requires fs.Valid() && Closable(fs.g, fs.Now(), Rec())
      modifies `dirty, fs`disk, fs`log
      ensures fs.Valid() && fs.Fat() == old(fs.Fat())
      ensures ok ==> Rec() == old(Rec()).(dirty := false)
      ensures ok && old(dirty) ==> DataStep(fs.g, fs.reliable, old(fs.Now()), fs.Now(), sect, [buf])
      ensures ok && !old(dirty) ==> fs.Now() == old(fs.Now())
      ensures !ok ==> fs.Now() == old(fs.Now()) && Rec() == old(Rec()) && !fs.reliable
    {
      hide *;
      ghost var s0 := fs.Now();
      ok := true;
      if dirty {
        ClosableParts(fs.g, s0, Rec());
        ghost var done;
        ok, done := fs.WriteData(sect, [buf]);
        if ok {
          dirty := false;
          DataStepParts(fs.g, fs.reliable, s0, fs.Now(), sect, [buf]);
        }
      }
    }

    /** create_chain on behalf of the file: ask for cluster number nxt of its chain. */
    method Stretch(from: u32, ghost nxt: nat) returns (c: u32)
      requires fs.Valid() && Accurate(fs.Fat(), fs.freeClst) && FileCore(fs.g, fs.Now(), Rec())
      requires nxt <= |chain| && (nxt == 0 ==> chain == []) && from == if nxt == 0 then 0 else chain[nxt - 1]
      modifies fs`disk, fs`log, fs`win, fs`winsect, fs`wflag, fs`fsiDirty, fs`freeClst, fs`lastClst
      ensures fs.Valid() && Closable(fs.g, fs.Now(), Rec())
      ensures c == 0 ==> nxt == |chain| && CountFree(fs.Fat()) == 0 && FileCore(fs.g, fs.Now(), Rec()) && GrowStep(fs.g, fs.reliable, old(fs.Now()), fs.Now(), chain, chain)
      ensures c == 1 ==> HasOne(old(fs.Fat()))
      ensures c == DISKERR ==> !fs.reliable
      ensures c != DISKERR ==> Accurate(fs.Fat(), fs.freeClst)
      ensures c != 0 && c != 1 && c != DISKERR ==>
                && 2 <= c < fs.g.nFatent && nxt < |Entered(Rec(), nxt, c).chain| && Entered(Rec(), nxt, c).chain[nxt] == c
                && FileCore(fs.g, fs.Now(), Entered(Rec(), nxt, c))
                && GrowStep(fs.g, fs.reliable, old(fs.Now()), fs.Now(), chain, Entered(Rec(), nxt, c).chain)
      ensures Tidy(fs.g, old(fs.Now()), chain) ==> SafeNow(fs.g, fs.Now())
    {
      hide *;
      ghost var s0, r0, f, hint := fs.Now(), Rec(), fs.Fat(), fs.lastClst;
      CoreParts(fs.g, s0, r0);
      HeadFacts(fs.g, s0, r0);
      CoreClosable(fs.g, s0, r0);
      SafeOfTidy(fs.g, s0, chain);
      c := fs.CreateChain(from);
      ClosableAfter(fs.g, fs.reliable, s0, fs.Now(), r0, r0);
      if c == 0 {
        CoreAfterRead(fs.g, fs.reliable, s0, fs.Now(), r0);
        AtTail(fs.g, s0, r0, nxt);
      } else if c == 1 {
        InsaneChain(f, chain, nxt, from);
      } else if c != DISKERR {
        CoreCreated(fs.g, fs.reliable, s0, fs.Now(), r0, nxt, from, hint, c);
      }
    }

    /** The cluster that f_write enters at a cluster boundary: the first one, the next one,
        or a new one. */
    method NextForWrite() returns (c: u32)
      requires Ready() && fptr % 512 == 0 && SectorInCluster(fs.g, fptr) == 0
      modifies `sclust, `clust, `chain, `cur
      modifies fs`disk, fs`log, fs`win, fs`winsect, fs`wflag, fs`fsiDirty, fs`freeClst, fs`lastClst
      ensures fs.Valid() && Closable(fs.g, fs.Now(), Rec())
      ensures c == 0 ==> Ready() && Rec() == old(Rec()) && CountFree(fs.Fat()) == 0 && fptr == objsize
      ensures c == 1 ==> HasOne(old(fs.Fat()))
      ensures c == DISKERR ==> !fs.reliable
      ensures c >= 2 && c != DISKERR ==>
                && Accurate(fs.Fat(), fs.freeClst)
                && Placed(fs.g, fs.Now(), Rec(), |old(chain)|, 0, 0)
      ensures c != 1 && c != DISKERR ==> GrowStep(fs.g, fs.reliable, old(fs.Now()), fs.Now(), old(chain), chain)
      ensures Tidy(fs.g, old(fs.Now()), old(chain)) ==> SafeNow(fs.g, fs.Now())
    {
      hide *;
      ghost var s0, r0, nxt := fs.Now(), Rec(), Following(Rec());
      InvParts(fs.g, s0, r0);
      BoundaryFacts(fs.g, s0, r0);
      HeadFacts(fs.g, s0, r0);
      SafeOfTidy(fs.g, s0, chain);
      if fptr == 0 {
        c := sclust;
        if c == 0 {
          c := Stretch(0, nxt);
        } else {
          CoreFirst(fs.g, fs.reliable, s0, r0);
        }
      } else {
        c := Stretch(clust, nxt);
      }
      if c == 0 { InvKept(fs.g, s0, fs.Now(), r0); return; }
      if c == 1 || c == DISKERR { return; }
      chain, cur, clust := Entered(r0, nxt, c).chain, nxt, c;
      if sclust == 0 { sclust := c; }
      CoreClosable(fs.g, fs.Now(), Rec());
      PlacedNext(fs.g, s0, fs.Now(), r0, Rec());
    }

    /** Load a sector of the file into the clean buffer. */
    method LoadBuf(sec: u32, ghost n: nat, ghost csect: nat) returns (ok: bool)
      requires fs.Valid() && Placed(fs.g, fs.Now(), Rec(), n, csect, 0) && !dirty && sec == Clst2Sect(fs.g, clust) + csect
      modifies `sect, `buf
      ensures ok ==> Placed(fs.g, fs.Now(), Rec(), n, csect, 0) && sect == sec && Closable(fs.g, fs.Now(), Rec())
      ensures !ok ==> Rec() == old(Rec()) && !fs.reliable
    {
      hide *;
      ghost var s0, r0 := fs.Now(), Rec();
      PlacedSector(fs.g, s0, r0, n, csect, 0);
      var data;
      ok, data := fs.ReadData(sec, 1);
      if ok {
        buf, sect := data[0], sec;
        CoreLoaded(fs.g, s0, r0, fs.g.csize * cur + csect, sec, buf);
        CoreClosable(fs.g, s0, Rec());
        PlacedKept(fs.g, s0, s0, r0, Rec(), n, csect, 0);
      }
    }

    /** The buffered write of one turn needs the sector in the buffer, unless it lies past
        the end of the file. */
    method FillForWrite(sec: u32, ghost n: nat, ghost csect: nat) returns (ok: bool)
      requires fs.Valid() && Placed(fs.g, fs.Now(), Rec(), n, csect, 0) && !dirty && sec == Clst2Sect(fs.g, clust) + csect
      modifies `sect, `buf
      ensures Closable(fs.g, fs.Now(), Rec())
      ensures ok ==> Placed(fs.g, fs.Now(), Rec(), n, csect, 0) && sect == sec
      ensures !ok ==> !fs.reliable
    {
      hide *;
      ghost var s0, r0 := fs.Now(), Rec();
      PlacedSector(fs.g, s0, r0, n, csect, 0);
      CoreClosable(fs.g, s0, r0);
      ok := true;
      if sect != sec && fptr < objsize {
        ok := LoadBuf(sec, n, csect);
      } else if sect != sec {
        CoreClaimed(fs.g, s0, r0, fs.g.csize * cur + csect, sec);
        sect := sec;
        CoreClosable(fs.g, s0, Rec());
        PlacedKept(fs.g, s0, s0, r0, Rec(), n, csect, 0);
      }
    }

    /** Write cc whole sectors of the caller's data past the buffer. */
    method WriteDirect(sec: u32, data: seq<byte>, cc: nat, ghost n: nat, csect: nat) returns (ok: bool)
      requires fs.Valid() && Placed(fs.g, fs.Now(), Rec(), n, csect, 0) && !dirty && sec == Clst2Sect(fs.g, clust) + csect
      requires 0 < cc && csect + cc <= fs.g.csize && 512 * cc <= |data| && fptr + 512 * cc < 0x1_0000_0000
      modifies `buf, `fptr, `objsize, `content, fs`disk, fs`log
      ensures fs.Valid() && fs.Fat() == old(fs.Fat())
      ensures ok ==>
                && FileInv(fs.g, fs.Now(), Rec())
                && Written(old(Rec()), Rec(), data, 512 * cc)
      ensures GrowStep(fs.g, fs.reliable, old(fs.Now()), fs.Now(), chain, chain)
      ensures !ok ==> Rec() == old(Rec()) && Closable(fs.g, fs.Now(), Rec()) && !fs.reliable
    {
      hide *;
      ghost var s0, r0 := fs.Now(), Rec();
      RunOnDevice(fs.g, s0, r0, n, csect, cc);
      InBounds(fs.g, s0, r0, n, csect, 0);
      var secs := Blocks(data, cc);
      BlocksFlat(data, cc);
      ghost var done;
      ok, done := fs.WriteData(sec, secs);
      DirectStep(fs.g, fs.reliable, s0, fs.Now(), r0, n, csect, sec, secs, done);
      if ok {
        DataStepParts(fs.g, fs.reliable, s0, fs.Now(), sec, secs);
        DataOfRec(fs.g, r0);
        RefilledIs(DataOf(fs.g, r0), sec, secs);
        if Sub32(sect, sec) < cc {
          buf := secs[Sub32(sect, sec)];
        }
        fptr := fptr + 512 * cc;
        if fptr > objsize { objsize := fptr; }
        content := Splice(content, r0.fptr, data[..512 * cc]);
        MaxIs(fptr, r0.objsize);
        DirectInv(fs.g, fs.reliable, s0, fs.Now(), r0, Rec(), n, csect, sec, secs);
        WrittenOf(r0, Rec(), data, 512 * cc);
      }
    }

    /** Copy the caller's data into the buffered sector. */
    method WriteBuffered(data: seq<byte>, ghost n: nat, ghost csect: nat) returns (w: nat)
      requires fs.Valid() && Placed(fs.g, fs.Now(), Rec(), n, csect, fptr % 512) && sect == Clst2Sect(fs.g, clust) + csect
      requires data != [] && fptr + |data| < 0x1_0000_0000
      modifies `buf, `dirty, `fptr, `objsize, `content
      ensures 0 < w <= |data| && FileInv(fs.g, fs.Now(), Rec()) && Written(old(Rec()), Rec(), data, w)
      ensures chain == old(chain)
    {
      hide *;
      ghost var s0, r0 := fs.Now(), Rec();
      InBounds(fs.g, s0, r0, n, csect, fptr % 512);
      w := 512 - fptr % 512;
      if w > |data| { w := |data|; }
      buf := BufPut(buf, fptr % 512, data[..w]);
      dirty := true;
      fptr := fptr + w;
      if fptr > objsize { objsize := fptr; }
      content := Splice(content, r0.fptr, data[..w]);
      MaxIs(fptr, r0.objsize);
      PutInv(fs.g, s0, r0, Rec(), n, csect, r0.fptr % 512, data[..w]);
      WrittenOf(r0, Rec(), data, w);
    }

    /** With the buffer clean, write past it or into it. */
    method WriteClean(data: seq<byte>, ghost n: nat, csect: nat) returns (ok: bool, w: nat)
      requires fs.Valid() && Placed(fs.g, fs.Now(), Rec(), n, csect, 0) && !dirty && fptr % 512 == 0
      requires data != [] && fptr + |data| < 0x1_0000_0000
      modifies `sect, `buf, `dirty, `fptr, `objsize, `content, fs`disk, fs`log
      ensures fs.Valid() && fs.Fat() == old(fs.Fat())
      ensures ok ==>
                && 0 < w <= |data| && FileInv(fs.g, fs.Now(), Rec()) && Written(old(Rec()), Rec(), data, w)
      ensures GrowStep(fs.g, fs.reliable, old(fs.Now()), fs.Now(), chain, chain)
      ensures !ok ==> Closable(fs.g, fs.Now(), Rec()) && !fs.reliable
    {
      hide *;
      ghost var s0, r0 := fs.Now(), Rec();
      InBounds(fs.g, s0, r0, n, csect, 0);
      PlacedSector(fs.g, s0, r0, n, csect, 0);
      w := 0;
      var sec: u32 := Clst2Sect(fs.g, clust);
      assert sec != 0; // clst2sect accepts the cluster
      sec := sec + csect;
      var cc := |data| / 512;
      if cc > 0 {
        if csect + cc > fs.g.csize { cc := fs.g.csize - csect; }
        ok := WriteDirect(sec, data, cc, n, csect);
        w := 512 * cc;
      } else {
        ok := FillForWrite(sec, n, csect);
        GrowStepRefl(fs.g, fs.reliable, s0, chain);
        if !ok { return; }
        ghost var r1 := Rec();
        w := WriteBuffered(data, n, csect);
        WrittenSame(r0, r1, Rec(), data, w);
      }
    }

    /** The part of a turn of f_write that begins at a sector boundary, once the cluster is
        known: write the buffer back, then write past it or into it. */
    method WriteAtBoundary(data: seq<byte>, ghost n: nat, csect: nat) returns (res: FResult, w: nat)
      requires fs.Valid() && Placed(fs.g, fs.Now(), Rec(), n, csect, 0) && fptr % 512 == 0
      requires data != [] && fptr + |data| < 0x1_0000_0000
      modifies `sect, `buf, `dirty, `fptr, `objsize, `content, fs`disk, fs`log
      ensures fs.Valid() && fs.Fat() == old(fs.Fat()) && Closable(fs.g, fs.Now(), Rec())
      ensures res == FrOk ==>
                && 0 < w <= |data| && FileInv(fs.g, fs.Now(), Rec()) && Written(old(Rec()), Rec(), data, w)
                && GrowStep(fs.g, fs.reliable, old(fs.Now()), fs.Now(), chain, chain)
      ensures res == FrOk || (res == FrDiskErr && !fs.reliable)
      ensures Tidy(fs.g, old(fs.Now()), chain) ==> SafeNow(fs.g, fs.Now())
    {
      hide *;
      ghost var s0, r0 := fs.Now(), Rec();
      InBounds(fs.g, s0, r0, n, csect, 0);
      SafeOfTidy(fs.g, s0, chain);
      var ok := FlushBuf();
      if !ok { return FrDiskErr, 0; }
      ghost var s1, r1 := fs.Now(), Rec();
      PlacedFlushed(fs.g, fs.reliable, s0, s1, r0, r1, n, csect);
      GrowSafe(fs.g, fs.reliable, s0, s1, chain, chain);
      ok, w := WriteClean(data, n, csect);
      GrowStepTrans(fs.g, fs.reliable, s0, s1, fs.Now(), chain, chain, chain);
      GrowSafe(fs.g, fs.reliable, s0, fs.Now(), chain, chain);
      if !ok { return FrDiskErr, 0; }
      res := FrOk;
      WrittenSame(r0, r1, Rec(), data, w);
      InvParts(fs.g, fs.Now(), Rec());
    }

    /** One turn of the loop of f_write; w == 0 if the volume is full. */
    method WriteOnce(data: seq<byte>) returns (res: FResult, w: nat)
      requires Ready() && data != [] && fptr + |data| < 0x1_0000_0000
      modifies `sclust, `clust, `chain, `cur, `sect, `buf, `dirty, `fptr, `objsize, `content
      modifies fs`disk, fs`log, fs`win, fs`winsect, fs`wflag, fs`fsiDirty, fs`freeClst, fs`lastClst
      ensures fs.Valid() && Closable(fs.g, fs.Now(), Rec())
      ensures res == FrOk ==>
                && Ready() && w <= |data| && Written(old(Rec()), Rec(), data, w)
                && GrowStep(fs.g, fs.reliable, old(fs.Now()), fs.Now(), old(chain), chain)
      ensures res == FrOk && w == 0 ==> CountFree(fs.Fat()) == 0 && fptr == objsize
      ensures res == FrIntErr ==> HasOne(old(fs.Fat()))
      ensures res == FrOk || res == FrIntErr || (res == FrDiskErr && !fs.reliable)
      ensures Tidy(fs.g, old(fs.Now()), old(chain)) ==> SafeNow(fs.g, fs.Now())
    {
      hide *;
      ghost var s0, r0 := fs.Now(), Rec();
      InvParts(fs.g, s0, r0);
      HeadFacts(fs.g, s0, r0);
      GrowStepRefl(fs.g, fs.reliable, s0, chain);
      if fptr % 512 == 0 {
        var csect := SectorInCluster(fs.g, fptr);
        if csect == 0 {
          var c := NextForWrite();
          if c == 0 { WrittenNone(r0, data); return FrOk, 0; }
          if c == 1 { return FrIntErr, 0; }
          if c == DISKERR { return FrDiskErr, 0; }
        } else {
          PlacedMid(fs.g, s0, r0);
        }
        ghost var s1, r1 := fs.Now(), Rec();
        GrowSafe(fs.g, fs.reliable, s0, s1, r0.chain, chain);
        res, w := WriteAtBoundary(data, |r0.chain|, csect);
        if res == FrOk {
          WrittenSame(r0, r1, Rec(), data, w);
          GrowStepTrans(fs.g, fs.reliable, s0, s1, fs.Now(), r0.chain, chain, chain);
        }
      } else {
        ghost var csect := PlacedInside(fs.g, s0, r0);
        res := FrOk;
        w := WriteBuffered(data, |chain|, csect);
        InvParts(fs.g, s0, Rec());
        SafeOfTidy(fs.g, s0, chain);
      }
    }

    /** The loop of f_write. */
    method WriteAll(data: seq<byte>) returns (res: FResult, bw: nat)
      requires Ready() && fptr + |data| < 0x1_0000_0000
      modifies `sclust, `clust, `chain, `cur, `sect, `buf, `dirty, `fptr, `objsize, `content
      modifies fs`disk, fs`log, fs`win, fs`winsect, fs`wflag, fs`fsiDirty, fs`freeClst, fs`lastClst
      ensures fs.Valid() && Closable(fs.g, fs.Now(), Rec())
      ensures res == FrOk ==>
                && Ready() && Written(old(Rec()), Rec(), data, bw)
                && GrowStep(fs.g, fs.reliable, old(fs.Now()), fs.Now(), old(chain), chain)
                && (bw < |data| ==> CountFree(fs.Fat()) == 0 && fptr == objsize)
      ensures res == FrIntErr ==> HasOne(old(fs.Fat()))
      ensures res == FrOk || res == FrIntErr || (res == FrDiskErr && !fs.reliable)
      ensures Tidy(fs.g, old(fs.Now()), old(chain)) ==> SafeNow(fs.g, fs.Now())
    {
      hide *;
      ghost var s0, r0 := fs.Now(), Rec();
      InvParts(fs.g, s0, r0);
      res, bw := FrOk, 0;
      WrittenNone(r0, data);
      GrowStepRefl(fs.g, fs.reliable, s0, chain);
      while bw < |data|
        invariant Ready() && res == FrOk && bw <= |data| && fptr == r0.fptr + bw
        invariant Written(r0, Rec(), data, bw)
        invariant GrowStep(fs.g, fs.reliable, s0, fs.Now(), r0.chain, chain)
      {
        ghost var s1, r1 := fs.Now(), Rec();
        GrowSafe(fs.g, fs.reliable, s0, s1, r0.chain, chain);
        InvParts(fs.g, s1, r1);
        OnesKept(fs.g, fs.reliable, s0, s1, r0.chain, r1);
        var w;
        res, w := WriteOnce(data[bw..]);
        if res != FrOk { return; }
        WrittenTwice(r0, r1, Rec(), data, bw, w);
        WrittenParts(r1, Rec(), data[bw..], w);
        GrowStepTrans(fs.g, fs.reliable, s0, s1, fs.Now(), r0.chain, r1.chain, chain);
        bw := bw + w;
        if w == 0 { break; }
      }
      InvParts(fs.g, fs.Now(), Rec());
      GrowSafe(fs.g, fs.reliable, s0, fs.Now(), r0.chain, chain);
    }

    /** f_write. */
    method Write(buff: seq<byte>) returns (res: FResult, bw: nat)
      requires Valid() && |buff| < 0x1_0000_0000
      modifies this, fs
      ensures Valid()
      ensures old(err) != FrOk ==> res == old(err)
      ensures old(err) == FrOk && !canWrite ==> res == FrDenied
      ensures old(err) == FrOk && canWrite ==> res == err && (res == FrOk || (res == FrIntErr && HasOne(old(fs.Fat()))) || (res == FrDiskErr && !fs.reliable))
      ensures old(err) != FrOk || !canWrite ==> Rec() == old(Rec()) && fs.Now() == old(fs.Now()) && err == old(err) && modified == old(modified)
      ensures res == FrOk ==>
                && bw <= ClipWrite(old(fptr), |buff|) && old(fptr) <= old(|content|)
                && content == Splice(old(content), old(fptr), buff[..bw])
                && fptr == old(fptr) + bw && modified
                && (bw < ClipWrite(old(fptr), |buff|) ==> CountFree(fs.Fat()) == 0 && fptr == |content|)
                && GrowStep(fs.g, fs.reliable, old(fs.Now()), fs.Now(), old(chain), chain)
      ensures Tidy(fs.g, old(fs.Now()), old(chain)) ==> SafeNow(fs.g, fs.Now())
    {
      hide *;
      ghost var s0, r0 := fs.Now(), Rec();
      SafeOfTidy(fs.g, s0, chain);
      bw := 0;
      if err != FrOk { return err, 0; }
      if !canWrite { return FrDenied, 0; }
      var btw := |buff|;
      ClipIs(fptr, btw);
      if (fptr + btw) % 0x1_0000_0000 < fptr { btw := 0xFFFF_FFFF - fptr; }
      res, bw := WriteAll(buff[..btw]);
      if res != FrOk { err := res; return; }
      modified := true;
      InvParts(fs.g, fs.Now(), Rec());
      WrittenParts(r0, Rec(), buff[..btw], bw);
      assert buff[..btw][..bw] == buff[..bw];
    }

    /** The cluster that f_read enters at a cluster boundary. Inside the file it is always
        there. */
    method NextForRead() returns (c: u32)
      requires Ready() && fptr % 512 == 0 && SectorInCluster(fs.g, fptr) == 0 && fptr < objsize
      modifies `clust, `cur, fs`disk, fs`log, fs`win, fs`winsect, fs`wflag
      ensures fs.Valid() && fs.Fat() == old(fs.Fat()) && Closable(fs.g, fs.Now(), Rec())
      ensures c == DISKERR ==> !fs.reliable
      ensures c != DISKERR ==> Placed(fs.g, fs.Now(), Rec(), |chain|, 0, 0)
      ensures GrowStep(fs.g, fs.reliable, old(fs.Now()), fs.Now(), chain, chain)
    {
      hide *;
      ghost var s0, r0, nxt := fs.Now(), Rec(), Following(Rec());
      InvParts(fs.g, s0, r0);
      BoundaryFacts(fs.g, s0, r0);
      HeadFacts(fs.g, s0, r0);
      NextLink(fs.g, s0, r0, nxt);
      if fptr == 0 {
        c := sclust;
        GrowStepRefl(fs.g, fs.reliable, s0, chain);
      } else {
        c := fs.GetFat(clust);
        ChainStepOf(fs.g, fs.reliable, s0, fs.Now());
        CrashWindow(fs.g, fs.reliable, s0, fs.Now());
        DevOfRead(fs.g, fs.reliable, s0, fs.Now());
        CoreAfterRead(fs.g, fs.reliable, s0, fs.Now(), r0);
        CoreClosable(fs.g, fs.Now(), r0);
      }
      if c == DISKERR { return; }
      assert c >= 2; // a well-formed chain gives no internal error
      clust, cur := c, nxt;
      CoreMoved(fs.g, fs.Now(), r0, Rec());
      CoreClosable(fs.g, fs.Now(), Rec());
      PlacedNext(fs.g, s0, fs.Now(), r0, Rec());
    }

    /** f_read needs the sector in the buffer. */
    method FillForRead(sec: u32, ghost csect: nat) returns (ok: bool)
      requires fs.Valid() && Placed(fs.g, fs.Now(), Rec(), |chain|, csect, 0) && sec == Clst2Sect(fs.g, clust) + csect
      modifies `sect, `buf, `dirty, fs`disk, fs`log
      ensures fs.Valid() && fs.Fat() == old(fs.Fat()) && Closable(fs.g, fs.Now(), Rec())
      ensures ok ==> Placed(fs.g, fs.Now(), Rec(), |chain|, csect, 0) && sect == sec
      ensures dirty ==> old(dirty)
      ensures GrowStep(fs.g, fs.reliable, old(fs.Now()), fs.Now(), chain, chain)
      ensures !ok ==> !fs.reliable
    {
      hide *;
      ghost var s0, r0 := fs.Now(), Rec();
      InBounds(fs.g, s0, r0, |chain|, csect, 0);
      GrowStepRefl(fs.g, fs.reliable, s0, chain);
      ok := true;
      if sect != sec {
        ok := FlushBuf();
        if !ok { return; }
        PlacedFlushed(fs.g, fs.reliable, s0, fs.Now(), r0, Rec(), |chain|, csect);
        ok := LoadBuf(sec, |chain|, csect);
      }
    }

    /** Read cc whole sectors past the buffer; a dirty sector among them comes from the
        buffer. */
    method ReadDirect(sec: u32, cc: nat, csect: nat) returns (ok: bool, data: seq<byte>)
      requires fs.Valid() && Placed(fs.g, fs.Now(), Rec(), |chain|, csect, 0) && sec == Clst2Sect(fs.g, clust) + csect
      requires 0 < cc && csect + cc <= fs.g.csize && fptr + 512 * cc <= objsize
      modifies `fptr
      ensures ok ==> |data| == 512 * cc && FileInv(fs.g, fs.Now(), Rec()) && Took(old(Rec()), Rec(), data)
      ensures !ok ==> fptr == old(fptr) && !fs.reliable
    {
      hide *;
      ghost var s0, r0 := fs.Now(), Rec();
      RunOnDevice(fs.g, s0, r0, |chain|, csect, cc);
      InBounds(fs.g, s0, r0, |chain|, csect, 0);
      data := [];
      var secs;
      ok, secs := fs.ReadData(sec, cc);
      if ok {
        ghost var raw := secs;
        OverlaidIs(DataOf(fs.g, r0), sec, secs);
        DataOfRec(fs.g, r0);
        if dirty && Sub32(sect, sec) < cc {
          secs := secs[Sub32(sect, sec) := buf];
        }
        data := Flat(secs);
        fptr := fptr + 512 * cc;
        TakeDirect(fs.g, s0, r0, csect, sec, cc);
        TookOf(r0, Rec(), data);
      }
    }

    /** Take bytes from the buffered sector. */
    method ReadBuffered(btr: nat, ghost csect: nat) returns (data: seq<byte>)
      requires fs.Valid() && Placed(fs.g, fs.Now(), Rec(), |chain|, csect, fptr % 512) && sect == Clst2Sect(fs.g, clust) + csect
      requires 0 < btr <= objsize - fptr
      modifies `fptr
      ensures 0 < |data| <= btr && FileInv(fs.g, fs.Now(), Rec()) && Took(old(Rec()), Rec(), data)
    {
      hide *;
      ghost var s0, r0 := fs.Now(), Rec();
      InBounds(fs.g, s0, r0, |chain|, csect, fptr % 512);
      var n := 512 - fptr % 512;
      if n > btr { n := btr; }
      data := buf[fptr % 512..fptr % 512 + n];
      fptr := fptr + n;
      TakeInv(fs.g, s0, r0, csect, r0.fptr % 512, n);
      TookOf(r0, Rec(), data);
    }

    /** The part of a turn of f_read that begins at a sector boundary, once the cluster is
        known. */
    method ReadAtBoundary(btr: nat, csect: nat) returns (ok: bool, data: seq<byte>)
      requires fs.Valid() && Placed(fs.g, fs.Now(), Rec(), |chain|, csect, 0) && fptr % 512 == 0
      requires 0 < btr <= objsize - fptr
      modifies `sect, `buf, `dirty, `fptr, fs`disk, fs`log
      ensures fs.Valid() && fs.Fat() == old(fs.Fat()) && Closable(fs.g, fs.Now(), Rec())
      ensures ok ==> 0 < |data| <= btr && FileInv(fs.g, fs.Now(), Rec()) && Took(old(Rec()), Rec(), data)
      ensures dirty ==> old(dirty)
      ensures GrowStep(fs.g, fs.reliable, old(fs.Now()), fs.Now(), chain, chain)
      ensures !ok ==> !fs.reliable
    {
      hide *;
      ghost var s0, r0 := fs.Now(), Rec();
      InBounds(fs.g, s0, r0, |chain|, csect, 0);
      PlacedSector(fs.g, s0, r0, |chain|, csect, 0);
      data := [];
      var sec: u32 := Clst2Sect(fs.g, clust);
      assert sec != 0; // clst2sect accepts the cluster
      sec := sec + csect;
      var cc := btr / 512;
      if cc > 0 {
        if csect + cc > fs.g.csize { cc := fs.g.csize - csect; }
        GrowStepRefl(fs.g, fs.reliable, s0, chain);
        ok, data := ReadDirect(sec, cc, csect);
      } else {
        ok := FillForRead(sec, csect);
        if !ok { return; }
        ghost var r1 := Rec();
        data := ReadBuffered(btr, csect);
        TookSame(r0, r1, Rec(), data);
      }
      if ok { InvParts(fs.g, fs.Now(), Rec()); }
    }

    /** One turn of the loop of f_read. */
    method ReadOnce(btr: nat) returns (res: FResult, data: seq<byte>)
      requires Ready() && 0 < btr <= objsize - fptr
      modifies `clust, `cur, `sect, `buf, `dirty, `fptr, fs`disk, fs`log, fs`win, fs`winsect, fs`wflag
      ensures fs.Valid() && fs.Fat() == old(fs.Fat()) && Closable(fs.g, fs.Now(), Rec())
      ensures res == FrOk ==> 0 < |data| <= btr && Ready() && Took(old(Rec()), Rec(), data)
      ensures dirty ==> old(dirty)
      ensures GrowStep(fs.g, fs.reliable, old(fs.Now()), fs.Now(), chain, chain)
      ensures res == FrOk || (res == FrDiskErr && !fs.reliable)
    {
      hide *;
      ghost var s0, r0 := fs.Now(), Rec();
      InvParts(fs.g, s0, r0);
      GrowStepRefl(fs.g, fs.reliable, s0, chain);
      if fptr % 512 == 0 {
        var csect := SectorInCluster(fs.g, fptr);
        if csect == 0 {
          var c := NextForRead();
          if c == DISKERR { return FrDiskErr, []; }
        } else {
          PlacedMid(fs.g, s0, r0);
        }
        ghost var s1, r1 := fs.Now(), Rec();
        var ok;
        ok, data := ReadAtBoundary(btr, csect);
        GrowStepTrans(fs.g, fs.reliable, s0, s1, fs.Now(), chain, chain, chain);
        TookSame(r0, r1, Rec(), data);
        res := if ok then FrOk else FrDiskErr;
      } else {
        ghost var csect := PlacedInside(fs.g, s0, r0);
        res := FrOk;
        data := ReadBuffered(btr, csect);
        InvParts(fs.g, s0, Rec());
      }
    }

    /** The loop of f_read. */
    method ReadAll(btr: nat) returns (res: FResult, data: seq<byte>)
      requires Ready() && btr <= objsize - fptr
      modifies `clust, `cur, `sect, `buf, `dirty, `fptr, fs`disk, fs`log, fs`win, fs`winsect, fs`wflag
      ensures fs.Valid() && fs.Fat() == old(fs.Fat()) && Closable(fs.g, fs.Now(), Rec())
      ensures res == FrOk ==> |data| == btr && Ready() && Took(old(Rec()), Rec(), data)
      ensures dirty ==> old(dirty)
      ensures GrowStep(fs.g, fs.reliable, old(fs.Now()), fs.Now(), chain, chain)
      ensures res == FrOk || (res == FrDiskErr && !fs.reliable)
    {
      hide *;
      ghost var s0, r0 := fs.Now(), Rec();
      InvParts(fs.g, s0, r0);
      GrowStepRefl(fs.g, fs.reliable, s0, chain);
      TookNone(r0);
      res, data := FrOk, [];
      while |data| < btr
        invariant Ready() && res == FrOk && |data| <= btr && fptr == r0.fptr + |data|
        invariant Took(r0, Rec(), data) && (dirty ==> old(dirty)) && fs.Fat() == old(fs.Fat())
        invariant GrowStep(fs.g, fs.reliable, s0, fs.Now(), chain, chain)
      {
        ghost var s1, r1 := fs.Now(), Rec();
        var more;
        res, more := ReadOnce(btr - |data|);
        GrowStepTrans(fs.g, fs.reliable, s0, s1, fs.Now(), chain, chain, chain);
        if res != FrOk { return; }
        TookTwice(r0, r1, Rec(), data, more);
        TookParts(r1, Rec(), more);
        data := data + more;
      }
      InvParts(fs.g, fs.Now(), Rec());
    }

    /** f_read. */
    method Read(btr: nat) returns (res: FResult, data: seq<byte>)
      requires Valid()
      modifies `clust, `cur, `sect, `buf, `dirty, `fptr, `err, fs`disk, fs`log, fs`win, fs`winsect, fs`wflag
      ensures Valid()
      ensures old(err) != FrOk ==> res == old(err)
      ensures old(err) == FrOk && !canRead ==> res == FrDenied
      ensures old(err) == FrOk && canRead ==> res == err && (res == FrOk || (res == FrDiskErr && !fs.reliable))
      ensures old(err) != FrOk || !canRead ==> Rec() == old(Rec()) && fs.Now() == old(fs.Now()) && err == old(err)
      ensures res == FrOk ==>
                && |data| == (if btr > objsize - old(fptr) then objsize - old(fptr) else btr)
                && fptr == old(fptr) + |data| <= |content|
                && Matches(data, content[old(fptr)..fptr])
      ensures fs.Fat() == old(fs.Fat()) && GrowStep(fs.g, fs.reliable, old(fs.Now()), fs.Now(), chain, chain)
    {
      hide *;
      ghost var s0, r0 := fs.Now(), Rec();
      data := [];
      GrowStepRefl(fs.g, fs.reliable, s0, chain);
      if err != FrOk { return err, []; }
      if !canRead { return FrDenied, []; }
      InvParts(fs.g, s0, r0);
      var n := btr;
      if n > objsize - fptr { n := objsize - fptr; }
      res, data := ReadAll(n);
      if res != FrOk { err := res; return; }
      TookParts(r0, Rec(), data);
    }

    /** The next cluster on the way of f_lseek: stretched in write mode, else followed. */
    method SeekNext(ghost ofs: nat, ghost target: nat) returns (c: u32)
      requires fs.Valid() && Accurate(fs.Fat(), fs.freeClst) && Seeking(fs.g, fs.Now(), Rec(), ofs, target)
      requires !canWrite ==> cur + 1 < |chain|
      modifies fs`disk, fs`log, fs`win, fs`winsect, fs`wflag, fs`fsiDirty, fs`freeClst, fs`lastClst
      ensures fs.Valid() && Closable(fs.g, fs.Now(), Rec())
      ensures c == 0 ==> cur + 1 == |chain| && CountFree(fs.Fat()) == 0 && FileCore(fs.g, fs.Now(), Rec()) && GrowStep(fs.g, fs.reliable, old(fs.Now()), fs.Now(), chain, chain)
      ensures c == 1 ==> HasOne(old(fs.Fat()))
      ensures c == DISKERR ==> !fs.reliable
      ensures c != DISKERR ==> Accurate(fs.Fat(), fs.freeClst)
      ensures c != 0 && c != 1 && c != DISKERR ==>
                && 2 <= c < fs.g.nFatent && cur + 1 < |Entered(Rec(), cur + 1, c).chain| && Entered(Rec(), cur + 1, c).chain[cur + 1] == c
                && FileCore(fs.g, fs.Now(), Entered(Rec(), cur + 1, c))
                && GrowStep(fs.g, fs.reliable, old(fs.Now()), fs.Now(), chain, Entered(Rec(), cur + 1, c).chain)
      ensures !canWrite && c != DISKERR ==> 2 <= c && Entered(Rec(), cur + 1, c).chain == chain
      ensures Tidy(fs.g, old(fs.Now()), chain) ==> SafeNow(fs.g, fs.Now())
    {
      hide *;
      ghost var s0, r0 := fs.Now(), Rec();
      SeekingParts(fs.g, s0, r0, ofs, target);
      HeadFacts(fs.g, s0, r0);
      if canWrite {
        c := Stretch(clust, cur + 1);
      } else {
        NextLink(fs.g, s0, r0, cur + 1);
        SafeOfTidy(fs.g, s0, chain);
        c := fs.GetFat(clust);
        ChainStepOf(fs.g, fs.reliable, s0, fs.Now());
        CrashWindow(fs.g, fs.reliable, s0, fs.Now());
        DevOfRead(fs.g, fs.reliable, s0, fs.Now());
        CoreAfterRead(fs.g, fs.reliable, s0, fs.Now(), r0);
        CoreClosable(fs.g, fs.Now(), r0);
        if c != DISKERR { CoreMoved(fs.g, fs.Now(), r0, Entered(r0, cur + 1, c)); }
      }
    }

    /** One turn of the cluster following loop of f_lseek; c == 0 if the volume is full. */
    method SeekOnce(ghost ofs: nat, ghost target: nat) returns (c: u32)
      requires fs.Valid() && Accurate(fs.Fat(), fs.freeClst) && Seeking(fs.g, fs.Now(), Rec(), ofs, target)
      requires ofs > Bcs(fs.g) && target < 0x1_0000_0000 && (!canWrite ==> target <= objsize)
      modifies `sclust, `clust, `chain, `cur, `fptr
      modifies fs`disk, fs`log, fs`win, fs`winsect, fs`wflag, fs`fsiDirty, fs`freeClst, fs`lastClst
      ensures fs.Valid() && Closable(fs.g, fs.Now(), Rec())
      ensures c == 1 ==> HasOne(old(fs.Fat()))
      ensures c == DISKERR ==> !fs.reliable
      ensures c == 0 ==> Sought(fs.g, fs.Now(), Rec(), 0) && AtFull(fs.g, fs.Fat(), Rec(), canWrite, target)
      ensures c != 0 && c != 1 && c != DISKERR ==> Seeking(fs.g, fs.Now(), Rec(), ofs - Bcs(fs.g), target)
      ensures c != DISKERR ==> Accurate(fs.Fat(), fs.freeClst)
      ensures c != 1 && c != DISKERR ==> GrowStep(fs.g, fs.reliable, old(fs.Now()), fs.Now(), old(chain), chain)
      ensures Tidy(fs.g, old(fs.Now()), old(chain)) ==> SafeNow(fs.g, fs.Now())
    {
      hide *;
      ghost var s0, r0 := fs.Now(), Rec();
      SeekingParts(fs.g, s0, r0, ofs, target);
      SeekRoom(fs.g, s0, r0, ofs, target);
      HeadFacts(fs.g, s0, r0);
      c := SeekNext(ofs, target);
      if c == DISKERR || c == 1 { return; }
      fptr := fptr + 512 * fs.g.csize;
      if c == 0 {
        SeekFull(fs.g, s0, fs.Now(), r0, Rec(), ofs, target, 0);
        FullOf(fs.g, fs.Fat(), Rec(), canWrite, target);
        ClosableMoved(fs.g, fs.Now(), r0, Rec());
        return;
      }
      chain, clust, cur := Entered(r0, cur + 1, c).chain, c, cur + 1;
      CoreMoved(fs.g, fs.Now(), Entered(r0, cur, c), Rec());
      CoreClosable(fs.g, fs.Now(), Rec());
      SeekTurn(fs.g, s0, fs.Now(), r0, Rec(), ofs, target);
    }

    /** The cluster following loop of f_lseek, and the sector it ends in. */
    method SeekLoop(ofs0: u32, ghost target: nat) returns (res: FResult, nsect: u32)
      requires fs.Valid() && Accurate(fs.Fat(), fs.freeClst) && Seeking(fs.g, fs.Now(), Rec(), ofs0, target)
      requires target < 0x1_0000_0000 && (!canWrite ==> target <= objsize)
      modifies `sclust, `clust, `chain, `cur, `fptr
      modifies fs`disk, fs`log, fs`win, fs`winsect, fs`wflag, fs`fsiDirty, fs`freeClst, fs`lastClst
      ensures fs.Valid() && Closable(fs.g, fs.Now(), Rec())
      ensures res == FrOk ==>
                && Accurate(fs.Fat(), fs.freeClst) && Sought(fs.g, fs.Now(), Rec(), nsect)
                && GrowStep(fs.g, fs.reliable, old(fs.Now()), fs.Now(), old(chain), chain)
                && (fptr == target || AtFull(fs.g, fs.Fat(), Rec(), canWrite, target))
      ensures res == FrOk || (res == FrIntErr && HasOne(old(fs.Fat()))) || (res == FrDiskErr && !fs.reliable)
      ensures Tidy(fs.g, old(fs.Now()), old(chain)) ==> SafeNow(fs.g, fs.Now())
    {
      hide *;
      ghost var s0, r0 := fs.Now(), Rec();
      BcsIs(fs.g);
      SeekingFits(fs.g, s0, r0, ofs0, target);
      GrowStepRefl(fs.g, fs.reliable, s0, chain);
      nsect := 0;
      var bcs := 512 * fs.g.csize;
      var ofs: u32 := ofs0;
      while ofs > bcs
        invariant fs.Valid() && Accurate(fs.Fat(), fs.freeClst) && Seeking(fs.g, fs.Now(), Rec(), ofs, target)
        invariant GrowStep(fs.g, fs.reliable, s0, fs.Now(), r0.chain, chain)
        decreases ofs
      {
        ghost var s1, ch1 := fs.Now(), chain;
        GrowSafe(fs.g, fs.reliable, s0, s1, r0.chain, chain);
        SeekingParts(fs.g, s1, Rec(), ofs, target);
        OnesKept(fs.g, fs.reliable, s0, s1, r0.chain, Rec());
        var c := SeekOnce(ofs, target);
        if c == DISKERR { return FrDiskErr, 0; }
        if c == 1 { return FrIntErr, 0; }
        GrowStepTrans(fs.g, fs.reliable, s0, s1, fs.Now(), r0.chain, ch1, chain);
        if c == 0 {
          GrowSafe(fs.g, fs.reliable, s0, fs.Now(), r0.chain, chain);
          return FrOk, 0;
        }
        ofs := ofs - bcs;
      }
      GrowSafe(fs.g, fs.reliable, s0, fs.Now(), r0.chain, chain);
      nsect := SeekEnd(ofs, target);
      res := FrOk;
    }

    /** The rest of the way lies in the current cluster. */
    method SeekEnd(ofs: u32, ghost target: nat) returns (nsect: u32)
      requires fs.Valid() && Seeking(fs.g, fs.Now(), Rec(), ofs, target) && ofs <= Bcs(fs.g) && target < 0x1_0000_0000
      modifies `fptr
      ensures Sought(fs.g, fs.Now(), Rec(), nsect) && Closable(fs.g, fs.Now(), Rec()) && fptr == target
    {
      hide *;
      ghost var s0, r0 := fs.Now(), Rec();
      SeekingParts(fs.g, s0, r0, ofs, target);
      SeekDone(fs.g, s0, r0, r0.(fptr := target), ofs, target, Clst2Sect(fs.g, clust) + ofs / 512);
      nsect := 0;
      fptr := fptr + ofs;
      if ofs % 512 != 0 {
        nsect := Clst2Sect(fs.g, clust);
        assert nsect != 0; // clst2sect accepts the cluster
        nsect := nsect + ofs / 512;
        SeekDone(fs.g, s0, r0, Rec(), ofs, target, nsect);
      } else {
        SeekDone(fs.g, s0, r0, Rec(), ofs, target, 0);
      }
      ClosableMoved(fs.g, s0, r0, Rec());
    }

    /** Seek to a back cluster: start from the first one, which is created if there is none. */
    method SeekTop(target: u32, ghost r0: FileRec) returns (clst: u32)
      requires fs.Valid() && Accurate(fs.Fat(), fs.freeClst) && FileInv(fs.g, fs.Now(), r0) && Rec() == r0.(fptr := 0) && target > 0
      modifies `sclust, `clust, `chain, `cur
      modifies fs`disk, fs`log, fs`win, fs`winsect, fs`wflag, fs`fsiDirty, fs`freeClst, fs`lastClst
      ensures fs.Valid() && Closable(fs.g, fs.Now(), Rec())
      ensures clst == 1 ==> HasOne(old(fs.Fat()))
      ensures clst == DISKERR ==> !fs.reliable
      ensures clst == 0 ==> Sought(fs.g, fs.Now(), Rec(), 0) && chain == old(chain) == [] && CountFree(fs.Fat()) == 0
      ensures clst != 0 && clst != 1 && clst != DISKERR ==> Seeking(fs.g, fs.Now(), Rec(), target, target)
      ensures clst != DISKERR ==> Accurate(fs.Fat(), fs.freeClst)
      ensures clst != 1 && clst != DISKERR ==> GrowStep(fs.g, fs.reliable, old(fs.Now()), fs.Now(), old(chain), chain)
      ensures Tidy(fs.g, old(fs.Now()), old(chain)) ==> SafeNow(fs.g, fs.Now())
    {
      hide *;
      ghost var s0, r1 := fs.Now(), Rec();
      InvParts(fs.g, s0, r0);
      CoreMoved(fs.g, s0, r0, r1);
      HeadFacts(fs.g, s0, r1);
      SafeOfTidy(fs.g, s0, chain);
      clst := sclust;
      if clst == 0 {
        clst := Stretch(0, 0);
        if clst == 1 || clst == DISKERR { return; }
        sclust := clst;
      } else {
        CoreFirst(fs.g, fs.reliable, s0, r1);
      }
      clust := clst;
      if clst == 0 {
        CoreMoved(fs.g, fs.Now(), r1, r0);
        SeekNowhere(fs.g, s0, fs.Now(), r0, Rec(), 0);
        CoreMoved(fs.g, fs.Now(), r1, Rec());
      } else {
        cur, chain := 0, Entered(r1, 0, clst).chain;
        SeekFromStart(fs.g, s0, fs.Now(), r0, Rec(), target);
      }
      CoreClosable(fs.g, fs.Now(), Rec());
    }

    /** Where f_lseek starts to follow the chain: the current cluster, or the first one,
        which write mode creates if there is none; clst == 0 if the volume is full. */
    method SeekStart(target: u32) returns (clst: u32, ofs: u32)
      requires Ready() && target > 0
      modifies `sclust, `clust, `chain, `cur, `fptr
      modifies fs`disk, fs`log, fs`win, fs`winsect, fs`wflag, fs`fsiDirty, fs`freeClst, fs`lastClst
      ensures fs.Valid() && Closable(fs.g, fs.Now(), Rec())
      ensures clst == 1 ==> HasOne(old(fs.Fat()))
      ensures clst == DISKERR ==> !fs.reliable
      ensures clst == 0 ==> Sought(fs.g, fs.Now(), Rec(), 0) && fptr == 0 == Bcs(fs.g) * |chain| && old(chain) == [] && CountFree(fs.Fat()) == 0
      ensures clst != 0 && clst != 1 && clst != DISKERR ==> Seeking(fs.g, fs.Now(), Rec(), ofs, target)
      ensures clst != DISKERR ==> Accurate(fs.Fat(), fs.freeClst)
      ensures clst != 1 && clst != DISKERR ==> GrowStep(fs.g, fs.reliable, old(fs.Now()), fs.Now(), old(chain), chain)
      ensures Tidy(fs.g, old(fs.Now()), old(chain)) ==> SafeNow(fs.g, fs.Now())
    {
      hide *;
      ghost var s0, r0 := fs.Now(), Rec();
      InvParts(fs.g, s0, r0);
      HeadFacts(fs.g, s0, r0);
      BcsIs(fs.g);
      GrowStepRefl(fs.g, fs.reliable, s0, chain);
      SafeOfTidy(fs.g, s0, chain);
      var ifptr, bcs := fptr, 512 * fs.g.csize;
      fptr := 0;
      ofs := target;
      if ifptr > 0 {
        SeekFromHere(fs.g, s0, r0, target);
        HereIsCluster(fs.g, s0, r0);
      }
      if ifptr > 0 && (target - 1) / bcs >= (ifptr - 1) / bcs {
        fptr := AlignDown(bcs, ifptr - 1);
        ofs := ofs - fptr;
        clst := clust;
        ClosableMoved(fs.g, s0, r0, Rec());
        return;
      }
      clst := SeekTop(target, r0);
    }

    /** The part of f_lseek that moves the pointer. */
    method SeekTo(target: u32) returns (res: FResult, nsect: u32)
      requires Ready() && (!canWrite ==> target <= objsize)
      modifies `sclust, `clust, `chain, `cur, `fptr
      modifies fs`disk, fs`log, fs`win, fs`winsect, fs`wflag, fs`fsiDirty, fs`freeClst, fs`lastClst
      ensures fs.Valid() && Closable(fs.g, fs.Now(), Rec())
      ensures res == FrOk ==>
                && Accurate(fs.Fat(), fs.freeClst) && Sought(fs.g, fs.Now(), Rec(), nsect)
                && GrowStep(fs.g, fs.reliable, old(fs.Now()), fs.Now(), old(chain), chain)
                && (fptr == target || AtFull(fs.g, fs.Fat(), Rec(), canWrite, target))
      ensures res == FrOk || (res == FrIntErr && HasOne(old(fs.Fat()))) || (res == FrDiskErr && !fs.reliable)
      ensures Tidy(fs.g, old(fs.Now()), old(chain)) ==> SafeNow(fs.g, fs.Now())
    {
      hide *;
      ghost var s0, r0 := fs.Now(), Rec();
      InvParts(fs.g, s0, r0);
      HeadFacts(fs.g, s0, r0);
      if target == 0 {
        fptr := 0;
        SeekNowhere(fs.g, s0, s0, r0, Rec(), 0);
        ClosableMoved(fs.g, s0, r0, Rec());
        GrowStepRefl(fs.g, fs.reliable, s0, chain);
        SafeOfTidy(fs.g, s0, chain);
        return FrOk, 0;
      }
      EmptyIsShort(fs.g, s0, r0);
      var clst, ofs := SeekStart(target);
      if clst == 1 { return FrIntErr, 0; }
      if clst == DISKERR { return FrDiskErr, 0; }
      ghost var s1, r1 := fs.Now(), Rec();
      GrowSafe(fs.g, fs.reliable, s0, s1, r0.chain, chain);
      if clst == 0 {
        FullOf(fs.g, fs.Fat(), r1, canWrite, target);
        return FrOk, 0;
      }
      SeekingParts(fs.g, s1, r1, ofs, target);
      OnesKept(fs.g, fs.reliable, s0, s1, r0.chain, r1);
      res, nsect := SeekLoop(ofs, target);
      if res == FrOk {
        GrowStepTrans(fs.g, fs.reliable, s0, s1, fs.Now(), r0.chain, r1.chain, chain);
      }
    }

    /** The part of f_lseek that fills the buffer with the sector the pointer stands in. */
    method SeekFill(nsect: u32) returns (ok: bool)
      requires fs.Valid() && Sought(fs.g, fs.Now(), Rec(), nsect) && fptr <= objsize && Closable(fs.g, fs.Now(), Rec())
      requires fptr % 512 == 0 || sect == nsect ==> FileInv(fs.g, fs.Now(), Rec())
      modifies `sect, `buf, `dirty, fs`disk, fs`log
      ensures fs.Valid() && fs.Fat() == old(fs.Fat()) && Closable(fs.g, fs.Now(), Rec())
      ensures ok ==> FileInv(fs.g, fs.Now(), Rec())
      ensures dirty ==> old(dirty)
      ensures GrowStep(fs.g, fs.reliable, old(fs.Now()), fs.Now(), chain, chain)
      ensures !ok ==> !fs.reliable
    {
      hide *;
      ghost var s0, r0, k := fs.Now(), Rec(), fptr / 512;
      GrowStepRefl(fs.g, fs.reliable, s0, chain);
      ok := true;
      if fptr % 512 != 0 && nsect != sect {
        SoughtSector(fs.g, s0, r0, nsect);
        ok := FlushBuf();
        if !ok { return; }
        ghost var s1, r1 := fs.Now(), Rec();
        CoreFlushedOrClean(fs.g, fs.reliable, s0, s1, r0);
        CoreClosable(fs.g, s1, r1);
        SectorOutside(fs.g, s1, r1, k);
        var data;
        ok, data := fs.ReadData(nsect, 1);
        if !ok { return; }
        buf, sect := data[0], nsect;
        CoreLoaded(fs.g, s1, r1, k, nsect, buf);
        CoreClosable(fs.g, s1, Rec());
        SeekLoaded(fs.g, s0, s1, r0, Rec(), nsect);
      }
    }

    /** The part of f_lseek after the pointer has moved: grow the file, fill the buffer. */
    method SeekArrive(nsect: u32) returns (ok: bool)
      requires fs.Valid() && Sought(fs.g, fs.Now(), Rec(), nsect) && |content| == objsize
      modifies `sect, `buf, `dirty, `objsize, `content, `modified, fs`disk, fs`log
      ensures fs.Valid() && fs.Fat() == old(fs.Fat()) && Closable(fs.g, fs.Now(), Rec())
      ensures ok ==> FileInv(fs.g, fs.Now(), Rec())
      ensures content == Grown(old(content), fptr) && modified == (old(modified) || fptr > old(objsize))
      ensures dirty ==> old(dirty)
      ensures GrowStep(fs.g, fs.reliable, old(fs.Now()), fs.Now(), chain, chain)
      ensures !ok ==> !fs.reliable
    {
      hide *;
      ghost var s0, r0 := fs.Now(), Rec();
      MaxIs(fptr, objsize);
      GrownIs(content, fptr);
      if fptr > objsize {
        objsize := fptr;
        modified := true;
      }
      content := Grown(content, fptr);
      SeekGrown(fs.g, s0, r0, Rec(), nsect);
      ok := SeekFill(nsect);
    }

    /** f_lseek without the handling of err. */
    method SeekAll(target: u32) returns (res: FResult)
      requires Ready() && (!canWrite ==> target <= objsize)
      modifies `sclust, `clust, `chain, `cur, `fptr, `sect, `buf, `dirty, `objsize, `content, `modified
      modifies fs`disk, fs`log, fs`win, fs`winsect, fs`wflag, fs`fsiDirty, fs`freeClst, fs`lastClst
      ensures fs.Valid() && Closable(fs.g, fs.Now(), Rec()) && (dirty ==> old(dirty)) && (old(modified) ==> modified)
      ensures res == FrOk ==>
                && Ready() && (fptr == target || AtFull(fs.g, fs.Fat(), Rec(), canWrite, target))
                && content == Grown(old(content), fptr) && modified == (old(modified) || fptr > old(objsize))
                && GrowStep(fs.g, fs.reliable, old(fs.Now()), fs.Now(), old(chain), chain)
      ensures res == FrOk || (res == FrIntErr && HasOne(old(fs.Fat()))) || (res == FrDiskErr && !fs.reliable)
      ensures Tidy(fs.g, old(fs.Now()), old(chain)) ==> SafeNow(fs.g, fs.Now())
    {
      hide *;
      ghost var s0, r0 := fs.Now(), Rec();
      InvParts(fs.g, s0, r0);
      var nsect;
      res, nsect := SeekTo(target);
      if res != FrOk { return; }
      ghost var s1, r1 := fs.Now(), Rec();
      var ok := SeekArrive(nsect);
      GrowStepTrans(fs.g, fs.reliable, s0, s1, fs.Now(), r0.chain, chain, chain);
      GrowSafe(fs.g, fs.reliable, s0, fs.Now(), r0.chain, chain);
      AtFullKept(fs.g, fs.Fat(), r1, Rec(), canWrite, target);
      if !ok { res := FrDiskErr; }
    }

    /** f_lseek. */
    method Lseek(offset: u32) returns (res: FResult)
      requires Valid()
      modifies this, fs
      ensures Valid()
      ensures old(err) != FrOk ==> res == old(err) == err && Rec() == old(Rec()) && fs.Now() == old(fs.Now()) && modified == old(modified)
      ensures old(err) == FrOk ==> res == err && (res == FrOk || (res == FrIntErr && HasOne(old(fs.Fat()))) || (res == FrDiskErr && !fs.reliable))
      ensures res == FrOk ==>
                && (fptr == SeekTarget(canWrite, old(objsize), offset) || AtFull(fs.g, fs.Fat(), Rec(), canWrite, offset))
                && content == Grown(old(content), fptr)
                && modified == (old(modified) || fptr > old(objsize))
                && GrowStep(fs.g, fs.reliable, old(fs.Now()), fs.Now(), old(chain), chain)
      ensures Tidy(fs.g, old(fs.Now()), old(chain)) ==> SafeNow(fs.g, fs.Now())
    {
      hide *;
      SafeOfTidy(fs.g, fs.Now(), chain);
      if err != FrOk { return err; }
      TargetIs(canWrite, objsize, offset);
      var ofs := offset;
      if ofs > objsize && !canWrite { ofs := objsize; }
      res := SeekAll(ofs);
      AtFullKept(fs.g, fs.Fat(), Rec(), Rec(), canWrite, ofs);
      InvOk(fs.g, fs.Now(), Rec());
      if res != FrOk { err := res; }
    }

    /** The part of f_truncate that frees clusters. */
    method CutChain() returns (res: FResult)
      requires Ready() && fptr < objsize
      modifies `sclust, fs`disk, fs`log, fs`win, fs`winsect, fs`wflag, fs`fsiDirty, fs`freeClst
      ensures fs.Valid() && sclust == if fptr == 0 then 0 else old(sclust)
      ensures ChainStep(fs.g, fs.reliable, old(fs.Now()), fs.Now())
      ensures res == FrOk ==> Accurate(fs.Fat(), fs.freeClst) && Freed(fs.g, fs.reliable, old(fs.Now()), fs.Now(), old(Rec()))
      ensures res == FrOk || (res == FrDiskErr && !fs.reliable)
      ensures Tidy(fs.g, old(fs.Now()), chain) ==> SafeNow(fs.g, fs.Now())
    {
      hide *;
      ghost var s0, r0, m := fs.Now(), Rec(), KeptClusters(Rec());
      CutFacts1(fs.g, s0, r0);
      SafeOfTidy(fs.g, s0, chain);
      HeadFacts(fs.g, s0, r0);
      res := FrOk;
      if fptr == 0 {
        CutFacts2(fs.g, s0, r0, 0);
        res := fs.RemoveChain(sclust, 0);
        sclust := 0;
        DevRefl(fs.g, s0, {}, -1);
        if res == FrOk { DeviceCut(fs.g, s0, s0, fs.Now(), chain, 0); }
      } else {
        var ncl := fs.GetFat(clust);
        ghost var s1 := fs.Now();
        ChainStepOf(fs.g, fs.reliable, s0, s1);
        CrashWindow(fs.g, fs.reliable, s0, s1);
        DevOfRead(fs.g, fs.reliable, s0, s1);
        ClusterRange(fs.g, s0.view, clust);
        if ncl == DISKERR { res := FrDiskErr; }
        if ncl == 1 { res := FrIntErr; }
        if res == FrOk && ncl < fs.g.nFatent {
          CoreAfterRead(fs.g, fs.reliable, s0, s1, r0);
          CutFacts2(fs.g, s1, r0, m);
          GrowSafe(fs.g, fs.reliable, s0, s1, chain, chain);
          res := fs.RemoveChain(ncl, clust);
          ChainStepTrans(fs.g, fs.reliable, s0, s1, fs.Now());
          if res == FrOk { DeviceCut(fs.g, s0, s1, fs.Now(), chain, m); }
        } else {
          CoreAfterRead(fs.g, fs.reliable, s0, s1, r0);
          GrowSafe(fs.g, fs.reliable, s0, s1, chain, chain);
          if res == FrOk { CutNothing(fs.Fat(), chain, EndMark(fs.g.fsType)); }
        }
      }
      if res == FrOk { FreedOf(fs.g, fs.reliable, s0, fs.Now(), r0, Rec()); }
    }

    /** The last part of f_truncate: a dirty buffer is written back, even if its sector was
        freed. */
    method CutFlush(ghost s0: Snap, ghost r0: FileRec) returns (ok: bool)
      requires fs.Valid() && Freed(fs.g, fs.reliable, s0, fs.Now(), r0) && Closable(fs.g, fs.Now(), Rec())
      requires FileInv(fs.g, s0, r0) && r0.fptr < r0.objsize == |r0.content| && Fits(fs.g, s0.dev.disk)
      requires Rec() == r0.(objsize := fptr, sclust := if fptr == 0 then 0 else r0.sclust)
      modifies `dirty, `chain, `content, fs`disk, fs`log
      ensures fs.Valid() && fs.Fat() == old(fs.Fat()) && Closable(fs.g, fs.Now(), Rec())
      ensures ok ==>
                && FileInv(fs.g, fs.Now(), Rec()) && content == r0.content[..r0.fptr] && chain <= r0.chain
                && FileStep(fs.g, fs.reliable, s0, fs.Now(), r0.chain, chain)
      ensures Tidy(fs.g, s0, r0.chain) ==> SafeNow(fs.g, fs.Now())
      ensures !ok ==> !fs.reliable
    {
      hide *;
      ghost var s1 := fs.Now();
      FreedSafe(fs.g, fs.reliable, s0, s1, r0);
      ok := FlushBuf();
      ClosableClean(fs.g, s1, fs.Now(), Rec());
      if ok {
        CutDone(fs.g, fs.reliable, s0, s1, fs.Now(), r0);
        chain, content := CutRec(r0).chain, content[..fptr];
        assert Rec() == CutRec(r0);
      }
    }

    /** f_truncate when the pointer is not at the end, without the handling of err. */
    method CutHere() returns (res: FResult)
      requires Ready() && fptr < objsize
      modifies `sclust, `chain, `content, `objsize, `dirty, `modified
      modifies fs`disk, fs`log, fs`win, fs`winsect, fs`wflag, fs`fsiDirty, fs`freeClst
      ensures fs.Valid() && Closable(fs.g, fs.Now(), Rec()) && modified
      ensures res == FrOk ==>
                && Ready() && objsize == fptr && fptr <= old(|content|) && content == old(content)[..fptr] && chain <= old(chain)
                && FileStep(fs.g, fs.reliable, old(fs.Now()), fs.Now(), old(chain), chain)
      ensures res == FrOk || (res == FrDiskErr && !fs.reliable)
      ensures Tidy(fs.g, old(fs.Now()), old(chain)) ==> SafeNow(fs.g, fs.Now())
    {
      hide *;
      ghost var s0, r0 := fs.Now(), Rec();
      InvParts(fs.g, s0, r0);
      res := CutChain();
      ghost var s1 := fs.Now();
      ClosableAfter(fs.g, fs.reliable, s0, s1, r0, Rec());
      objsize := fptr;
      modified := true;
      ClosableMoved(fs.g, s1, r0, Rec());
      if res == FrOk {
        var ok := CutFlush(s0, r0);
        if !ok { res := FrDiskErr; }
      }
    }

    /** f_truncate: cut the file at the pointer. */
    method Truncate() returns (res: FResult)
      requires Valid()
      modifies this, fs
      ensures Valid()
      ensures old(err) != FrOk ==> res == old(err)
      ensures old(err) == FrOk && !canWrite ==> res == FrDenied
      ensures old(err) == FrOk && canWrite ==> res == err && (res == FrOk || (res == FrDiskErr && !fs.reliable))
      ensures old(err) != FrOk || !canWrite || old(fptr >= objsize) ==>
                Rec() == old(Rec()) && fs.Now() == old(fs.Now()) && err == old(err) && modified == old(modified)
      ensures res == FrOk ==>
                && fptr == old(fptr) <= old(|content|) && content == old(content)[..fptr]
                && chain <= old(chain)
                && modified == (old(modified) || old(fptr < objsize))
                && FileStep(fs.g, fs.reliable, old(fs.Now()), fs.Now(), old(chain), chain)
      ensures Tidy(fs.g, old(fs.Now()), old(chain)) ==> SafeNow(fs.g, fs.Now())
    {
      hide *;
      ghost var s0, r0 := fs.Now(), Rec();
      SafeOfTidy(fs.g, s0, chain);
      FileStepRefl(fs.g, fs.reliable, s0, chain);
      if err != FrOk { return err; }
      if !canWrite { return FrDenied; }
      InvParts(fs.g, s0, r0);
      res := FrOk;
      if fptr < objsize {
        res := CutHere();
        if res != FrOk { err := res; }
      } else {
        assert content[..fptr] == content;
      }
    }

    /** The part of f_sync after the buffer: update the directory entry and sync_fs. The
        flag FA_MODIFIED is cleared once the entry is in the window, whatever sync_fs
        says, as in the original. */
    method SyncEntry(time: u32, ghost dc: nat) returns (res: FResult)
      requires fs.Valid() && EntryAt(fs.g, fs.View(), dirSect, dirOfs) && modified
      requires err == FrOk ==> FileInv(fs.g, fs.Now(), Rec()) && !dirty && EntryApart(fs.g, fs.View(), dirSect, dc, chain)
      modifies `modified, fs`disk, fs`log, fs`win, fs`winsect, fs`wflag, fs`fsiDirty
      ensures fs.Valid() && fs.Fat() == old(fs.Fat())
      ensures err == FrOk ==> FileInv(fs.g, fs.Now(), Rec())
      ensures res == FrOk ==> !modified
      ensures res == FrOk && err == FrOk ==> Durable(fs.g, fs.Now(), dirSect, dirOfs, Rec()) && FatOf(fs.g, fs.disk) == fs.Fat()
      ensures res == FrOk ==> fs.Flushed()
      ensures err == FrOk && !modified ==> EntrySet(fs.g, old(fs.View()), fs.View(), dirSect, dirOfs, sclust, objsize, time)
      ensures res != FrOk && err == FrOk && !modified ==> Late(fs.g, fs.Now(), fs.wflag, dirSect, dirOfs, Rec())
      ensures SyncFrame(fs.g, fs.reliable, old(fs.Now()), fs.Now(), dirSect, dirOfs, fs.FsInfo(), chain)
      ensures res == FrOk || (res == FrDiskErr && !fs.reliable)
    {
      hide *;
      ghost var s0, r0, info := fs.Now(), Rec(), fs.FsInfo();
      fs.InfoBeforeFats();
      EntryFacts(fs.g, s0.view, dirSect, dirOfs, info);
      EntryWritten(fs.g.fsType, s0.view[dirSect], dirOfs, sclust, objsize, time);
      if err == FrOk {
        InvParts(fs.g, s0, r0);
        EntryOutside(fs.g, s0, r0, dirSect, dc, info);
      }
      res := fs.WriteEntry(dirSect, dirOfs, sclust, objsize, time);
      ghost var s1 := fs.Now();
      MetaFat(fs.g, fs.reliable, s0, s1, dirSect);
      FrameOfEntry(fs.g, fs.reliable, s0, s1, dirSect, dirOfs, info, chain);
      if err == FrOk {
        CoreMeta(fs.g, fs.reliable, s0, s1, r0, dirSect);
        InvKept(fs.g, s0, s1, r0);
      }
      if res == FrOk {
        res := fs.SyncFs();
        modified := false;
        ghost var s2 := fs.Now();
        MetaFat(fs.g, fs.reliable, s1, s2, info);
        FrameOfInfo(fs.g, fs.reliable, s1, s2, dirSect, dirOfs, info, chain);
        FrameTrans(fs.g, fs.reliable, s0, s1, s2, dirSect, dirOfs, info, chain);
        EntryStays(fs.g, fs.reliable, s1, s2, info, dirSect);
        if err == FrOk {
          CoreMeta(fs.g, fs.reliable, s1, s2, r0, info);
          InvKept(fs.g, s1, s2, r0);
          EntryAtSame(fs.g, s0.view, s2.view, dirSect, dirOfs);
          RecoveredOf(fs.g, s2, r0, dirSect, dirOfs, s0.view[dirSect], time);
          EntrySetOf(fs.g, s0.view, s0.view, s2.view, dirSect, dirOfs, sclust, objsize, time);
          if res == FrOk {
            DurableOf(fs.g, s2, dirSect, dirOfs, r0);
          } else {
            LateOf(fs.g, s1, s2, fs.wflag, dirSect, dirOfs, r0);
          }
        }
      }
    }

    /** f_sync. */
    method Sync(time: u32, ghost dc: nat) returns (res: FResult)
      requires Valid() && EntryAt(fs.g, fs.View(), dirSect, dirOfs)
      requires err == FrOk ==> EntryApart(fs.g, fs.View(), dirSect, dc, chain)
      modifies `modified, `dirty, fs`disk, fs`log, fs`win, fs`winsect, fs`wflag, fs`fsiDirty
      ensures Valid() && fs.Fat() == old(fs.Fat())
      ensures !old(modified) ==> res == FrOk && Rec() == old(Rec()) && fs.Now() == old(fs.Now()) && !modified
      ensures res == FrOk ==> !modified
      ensures res == FrOk && err == FrOk ==>
                && !dirty
                && (old(modified) ==> FatOf(fs.g, fs.disk) == fs.Fat() && fs.Flushed())
                && (old(modified) ==> EntrySet(fs.g, old(fs.View()), fs.View(), dirSect, dirOfs, sclust, objsize, time))
                && (Durable(fs.g, fs.Now(), dirSect, dirOfs, Rec()) <==>
                      old(modified || Durable(fs.g, fs.Now(), dirSect, dirOfs, Rec())))
      ensures res != FrOk && err == FrOk && !modified ==> Late(fs.g, fs.Now(), fs.wflag, dirSect, dirOfs, Rec())
      ensures err == FrOk ==> SyncFrame(fs.g, fs.reliable, old(fs.Now()), fs.Now(), dirSect, dirOfs, fs.FsInfo(), chain)
      ensures res == FrOk || (res == FrDiskErr && !fs.reliable)
    {
      hide *;
      ghost var s0, r0, info := fs.Now(), Rec(), fs.FsInfo();
      EntryAtIs(fs.g, s0.view, dirSect, dirOfs);
      FrameRefl(fs.g, fs.reliable, s0, dirSect, dirOfs, info, chain);
      InvOk(fs.g, s0, r0);
      fs.InfoBeforeFats();
      res := FrOk;
      if modified {
        var ok := FlushBuf();
        if !ok { return FrDiskErr; }
        ghost var s1, r1 := fs.Now(), Rec();
        ClosableClean(fs.g, s0, s1, r1);
        SameLength(fs.g, fs.reliable, s0, s1, r0);
        EntryAtSame(fs.g, s0.view, s1.view, dirSect, dirOfs);
        if err == FrOk {
          InvParts(fs.g, s0, r0);
          CoreFlushedOrClean(fs.g, fs.reliable, s0, s1, r0);
          InvFlushed(fs.g, s0, s1, r0);
          ApartSame(fs.g, s0.view, s1.view, dirSect, dc, chain);
          EntryOutside(fs.g, s0, r0, dirSect, dc, info);
          if r0.dirty {
            FrameOfFlush(fs.g, fs.reliable, s0, s1, r0, dirSect, dirOfs, info);
            SectorBeside(fs.g, fs.reliable, s0, s1, r0, dirSect);
          }
        }
        res := SyncEntry(time, dc);
        if err == FrOk && !modified { EntrySetFrom(fs.g, s0.view, s1.view, fs.View(), dirSect, dirOfs, sclust, objsize, time); }
        if err == FrOk { FrameTrans(fs.g, fs.reliable, s0, s1, fs.Now(), dirSect, dirOfs, info, chain); }
        ClosableClean(fs.g, s1, fs.Now(), Rec());
      }
    }
  }
}
