/** One call on an open file, answered as by a byte string with a position, and what it
    leaves of the other files of the volume. */
module FileRuns {
  import opened Base
  import opened Numbers
  import opened FatTable
  import opened Chains
  import opened Geometry
  import opened VolumeWindow
  import opened FileData
  import opened FileLayout
  import opened FileSteps
  import opened FileTurns
  import opened FileSync
  import opened Files

  // ---- several files ----

  /** The open files of a volume: each one sound, no two sharing a cluster. */
  ghost predicate Forest(g: Geo, s: Snap, rs: seq<FileRec>) {
    && (forall i :: 0 <= i < |rs| ==> FileInv(g, s, rs[i]))
    && (forall i, j :: 0 <= i < j < |rs| ==> Disjoint(rs[i].chain, rs[j].chain))
  }

  lemma KeptSectors(g: Geo, reliable: bool, s: Snap, s': Snap, a: seq<nat>, a': seq<nat>, r: FileRec)
    requires FileCore(g, s, r) && FileStep(g, reliable, s, s', a, a') && Disjoint(a, r.chain)
    ensures |s'.view| == |s.view|
    ensures forall k :: 0 <= k < |Sectors(g, r.chain)| ==> Sectors(g, r.chain)[k] < |s.view| && s'.view[Sectors(g, r.chain)[k]] == s.view[Sectors(g, r.chain)[k]]
  {
    hide *;
    CoreParts(g, s, r);
    OtherSectors(g, reliable, s, s', a, a', r.chain);
  }

  lemma KeptChain(g: Geo, s: Snap, s': Snap, a: seq<nat>, a': seq<nat>, r: FileRec)
    requires FileCore(g, s, r) && Fits(g, s.view) && Fits(g, s'.view)
    requires EntriesKept(g, s, s', a) && Gained(g, s, a, a') && Disjoint(a, r.chain)
    ensures r.chain == [] || IsChain(FatOf(g, s'.view), r.chain)
    ensures Disjoint(a', r.chain)
  {
    CoreParts(g, s, r);
    ChainClusters(g, s.view, r.chain);
    hide FileCore, Fits, FatOf;
    if r.chain != [] {
      ChainKept(FatOf(g, s.view), FatOf(g, s'.view), r.chain);
    }
  }

  lemma StepParts(g: Geo, reliable: bool, s: Snap, s': Snap, a: seq<nat>, a': seq<nat>)
    requires FileStep(g, reliable, s, s', a, a')
    ensures Fits(g, s.view) && Fits(g, s'.view) && EntriesKept(g, s, s', a) && BytesKept(g, s, s', a) && Gained(g, s, a, a')
    ensures s'.winsect == s.winsect || s'.winsect == NOSECT || g.InFat1(s'.winsect)
  {
  }

  lemma WindowStaysOut(g: Geo, s: Snap, w: u32, ch: seq<nat>)
    requires Fits(g, s.view) && SecsInData(g, ch) && (w == NOSECT || g.InFat1(w)) && g.Top() <= |s.view|
    ensures w !in Sectors(g, ch)
  {
    hide Sectors, PowerOfTwo, TableBytes;
  }

  /** An operation on one file changes neither the chain nor the bytes nor the buffer of
      another file, and takes none of its clusters. */
  lemma OtherFileKept(g: Geo, reliable: bool, s: Snap, s': Snap, a: seq<nat>, a': seq<nat>, r: FileRec)
    requires FileStep(g, reliable, s, s', a, a') && FileInv(g, s, r) && Disjoint(a, r.chain)
    ensures FileInv(g, s', r) && Disjoint(a', r.chain)
  {
    hide *;
    InvParts(g, s, r);
    CoreParts(g, s, r);
    CoreFacts(g, s, r);
    StepParts(g, reliable, s, s', a, a');
    KeptSectors(g, reliable, s, s', a, a', r);
    KeptChain(g, s, s', a, a', r);
    if s'.winsect != s.winsect { WindowStaysOut(g, s', s'.winsect, r.chain); }
    DataOfSecs(g, r);
    DataKept(s.view, s'.view, DataOf(g, r));
    CoreOf(g, s', r);
    InvKept(g, s, s', r);
  }

  /** Whatever one file does, the forest stays a forest, and only that file changes. */
  lemma ForestKept(g: Geo, reliable: bool, s: Snap, s': Snap, rs: seq<FileRec>, i: nat, r': FileRec)
    requires Forest(g, s, rs) && i < |rs|
    requires FileStep(g, reliable, s, s', rs[i].chain, r'.chain) && FileInv(g, s', r')
    ensures Forest(g, s', rs[i := r'])
  {
    hide FileInv, FileStep;
    forall j | 0 <= j < |rs| && j != i
      ensures FileInv(g, s', rs[j]) && Disjoint(r'.chain, rs[j].chain)
    {
      OtherFileKept(g, reliable, s, s', rs[i].chain, r'.chain, rs[j]);
    }
  }

  /** Nothing comes to link to the head of another chain, so its tidiness is kept too. */
  lemma OtherFileTidy(g: Geo, reliable: bool, s: Snap, s': Snap, a: seq<nat>, r': FileRec, r: FileRec)
    requires FileStep(g, reliable, s, s', a, r'.chain) && FileInv(g, s', r') && FileInv(g, s, r) && Disjoint(a, r.chain)
    requires Tidy(g, s, a) && Tidy(g, s, r.chain)
    ensures Tidy(g, s', r.chain)
  {
    InvParts(g, s, r);
    InvParts(g, s', r');
    CoreParts(g, s, r);
    CoreParts(g, s', r');
    StepSafe(g, reliable, s, s', a, r'.chain);
    if r.chain != [] { HeadUnref(g, reliable, s, s', a, r'.chain, r.chain); }
    TidyHeads(g, s, s', r.chain);
  }

  lemma TidyHeads(g: Geo, s: Snap, s': Snap, ch: seq<nat>)
    requires SafeNow(g, s') && Fits(g, s'.view) && (ch != [] ==> Unref(FatOf(g, s'.view), ch[0]))
    ensures Tidy(g, s', ch)
  {
  }

  lemma HeadUnref(g: Geo, reliable: bool, s: Snap, s': Snap, a: seq<nat>, a': seq<nat>, ch: seq<nat>)
    requires FileStep(g, reliable, s, s', a, a') && (a' == [] || IsChain(FatOf(g, s'.view), a'))
    requires IsChain(FatOf(g, s.view), ch) && Unref(FatOf(g, s.view), ch[0]) && Disjoint(a, ch)
    ensures Unref(FatOf(g, s'.view), ch[0])
  {
    ChainUsed(FatOf(g, s.view), ch);
    assert ch[0] in ch;
    StepFat(g, reliable, s, s', a, a');
    hide *;
    UnrefKept(FatOf(g, s.view), FatOf(g, s'.view), a, a', ch[0]);
  }

  lemma StepFat(g: Geo, reliable: bool, s: Snap, s': Snap, a: seq<nat>, a': seq<nat>)
    requires FileStep(g, reliable, s, s', a, a')
    ensures var f, f' := FatOf(g, s.view), FatOf(g, s'.view);
            && |f| == |f'| == g.nFatent
            && (forall c :: 2 <= c < |f| && c !in a && f[c] != 0 ==> f'[c] == f[c])
            && (forall c :: c in a' && c !in a ==> 2 <= c < |f| && f[c] == 0)
            && (forall c :: 2 <= c < |f| && c !in a' && (c in a || f[c] == 0) ==> f'[c] == 0)
  {
    hide FatOf, Fits, BytesKept, DeviceKept, MirrorKept, Tidy;
  }

  /** Where entries change only on a chain, which takes in free clusters and frees those it
      gives up, no link to another used cluster appears. */
  lemma UnrefKept(f: Fat, f': Fat, a: seq<nat>, a': seq<nat>, h: nat)
    requires |f'| == |f| && (a' == [] || IsChain(f', a')) && IsCl(f, h) && f[h] != 0 && h !in a && Unref(f, h)
    requires forall c :: 2 <= c < |f| && c !in a && f[c] != 0 ==> f'[c] == f[c]
    requires forall c :: c in a' && c !in a ==> 2 <= c < |f| && f[c] == 0
    requires forall c :: 2 <= c < |f| && c !in a' && (c in a || f[c] == 0) ==> f'[c] == 0
    ensures Unref(f', h)
  {
    forall p | IsCl(f', p)
      ensures f'[p] != h
    {
      if p in a' {
        var i :| 0 <= i < |a'| && a'[i] == p;
        if i < |a'| - 1 { assert a'[i + 1] in a' && f'[p] == a'[i + 1]; }
      }
    }
  }

  /** f_sync of one file keeps another, unless it owns the directory sector. */
  lemma OtherFileSynced(g: Geo, reliable: bool, s: Snap, s': Snap, sect: int, ofs: nat, info: int, a: seq<nat>, r: FileRec)
    requires SyncFrame(g, reliable, s, s', sect, ofs, info, a) && FileInv(g, s, r) && Disjoint(a, r.chain)
    requires AllClusters(g, a) && sect !in Sectors(g, r.chain) && info < g.fatbase as int
    ensures FileInv(g, s', r)
  {
    hide *;
    InvParts(g, s, r);
    CoreParts(g, s, r);
    CoreFacts(g, s, r);
    SyncedSectors(g, reliable, s, s', sect, ofs, info, a, r.chain);
    DataOfSecs(g, r);
    DataKept(s.view, s'.view, DataOf(g, r));
    CoreOf(g, s', r);
    InvKept(g, s, s', r);
  }

  /** f_sync of one file keeps the forest. */
  lemma ForestSynced(g: Geo, reliable: bool, s: Snap, s': Snap, rs: seq<FileRec>, sect: int, ofs: nat, info: int, i: nat, r': FileRec)
    requires Forest(g, s, rs) && i < |rs| && info < g.fatbase as int
    requires SyncFrame(g, reliable, s, s', sect, ofs, info, rs[i].chain) && FileInv(g, s', r') && r'.chain == rs[i].chain
    requires AllClusters(g, rs[i].chain) && forall j :: 0 <= j < |rs| && j != i ==> sect !in Sectors(g, rs[j].chain)
    ensures Forest(g, s', rs[i := r'])
  {
    hide FileInv, SyncFrame, Sectors;
    forall j | 0 <= j < |rs| && j != i
      ensures FileInv(g, s', rs[j])
    {
      OtherFileSynced(g, reliable, s, s', sect, ofs, info, rs[i].chain, rs[j]);
    }
  }

  /** A chain has exactly as many clusters as its size needs. */
  lemma ExactlyEnough(g: Geo, s: Snap, r: FileRec)
    requires FileInv(g, s, r)
    ensures Bcs(g) > 0 && |r.chain| == (r.objsize + Bcs(g) - 1) / Bcs(g)
    ensures Distinct(r.chain)
  {
    hide *;
    InvParts(g, s, r);
    CoreFacts(g, s, r);
    BcsIs(g);
    ShapeParts(Bcs(g), |r.chain|, r.objsize, r.fptr, r.cur);
    var b, n := Bcs(g), |r.chain|;
    if n > 0 {
      assert b * n == b * (n - 1) + b;
    }
    QuotientIs(r.objsize + b - 1, b, n, r.objsize + b - 1 - b * n);
  }

  /** On a safe FAT, files whose first clusters nobody links to cannot share a cluster. */
  lemma TidyFilesDisjoint(g: Geo, s: Snap, a: FileRec, b: FileRec)
    requires FileInv(g, s, a) && FileInv(g, s, b) && Tidy(g, s, a.chain) && Tidy(g, s, b.chain)
    requires a.chain != [] && b.chain != [] ==> a.sclust != b.sclust
    ensures Disjoint(a.chain, b.chain)
  {
    CoreParts(g, s, a);
    CoreParts(g, s, b);
    if a.chain != [] && b.chain != [] {
      SafeChainsDisjoint(FatOf(g, s.view), a.chain, b.chain);
    }
  }

  // ---- one call ----

  /** What can be called with an open file at hand; DoCount is f_getfree on its volume. */
  datatype Op = DoWrite(data: seq<byte>) | DoRead(n: nat) | DoSeek(ofs: u32) | DoTruncate | DoSync(time: u32) | DoCount

  datatype Reply = Refused | Wrote(n: nat) | Got(data: seq<byte>) | Moved(pos: nat) | Cut | Synced | Free(n: nat)

  /** A byte string with a position. */
  datatype Plain = Plain(content: Content, pos: nat)

  /** What a byte string with a position answers, and what it becomes. A write ends at the
      4 GiB limit at the latest. It or a seek falls short only if no cluster is free, and then
      only behind the last byte there was: what is there can always be reached and changed. */
  ghost predicate Answers(p: Plain, op: Op, reply: Reply, p': Plain, canRead: bool, canWrite: bool, free: nat) {
    && p.pos <= |p.content| && p.pos < 0x1_0000_0000
    && match op
       case DoWrite(data) =>
         if !canWrite then reply == Refused && p' == p
         else
           && reply.Wrote? && reply.n <= ClipWrite(p.pos, |data|)
           && p' == Plain(Splice(p.content, p.pos, data[..reply.n]), p.pos + reply.n)
           && (reply.n < ClipWrite(p.pos, |data|) ==> free == 0 && p'.pos == |p'.content|)
       case DoRead(n) =>
         if !canRead then reply == Refused && p' == p
         else
           && reply.Got? && |reply.data| == (if n < |p.content| - p.pos then n else |p.content| - p.pos)
           && Matches(reply.data, p.content[p.pos..p.pos + |reply.data|])
           && p' == Plain(p.content, p.pos + |reply.data|)
       case DoSeek(ofs) =>
         && reply.Moved? && p' == Plain(Grown(p.content, reply.pos), reply.pos)
         && reply.pos <= SeekTarget(canWrite, |p.content|, ofs)
         && (reply.pos < SeekTarget(canWrite, |p.content|, ofs) ==> free == 0 && reply.pos >= |p.content|)
       case DoTruncate =>
         if !canWrite then reply == Refused && p' == p
         else reply == Cut && p' == Plain(p.content[..p.pos], p.pos)
       case DoSync(_) => reply == Synced && p' == p
       case DoCount => reply == Free(free) && p' == p
  }

  /** What a call that reported no error has done: the file is sound, nobody else was
      disturbed, and if the device could recover the file or the file was marked modified,
      the same holds now; f_sync leaves it unmarked. */
  ghost predicate Done(g: Geo, reliable: bool, s: Snap, s': Snap, r: FileRec, r': FileRec, sect: nat, ofs: nat, info: int,
                       op: Op, was: bool, marked: bool) {
    && FileInv(g, s', r')
    && (if op.DoSync? then r'.chain == r.chain && SyncFrame(g, reliable, s, s', sect, ofs, info, r.chain)
        else FileStep(g, reliable, s, s', r.chain, r'.chain))
    && (was || Durable(g, s, sect, ofs, r) ==> marked || Durable(g, s', sect, ofs, r'))
    && (op.DoSync? ==> !marked)
  }

  ghost function PlainOf(r: FileRec): (p: Plain)
    ensures p == Plain(r.content, r.fptr)
  {
    Plain(r.content, r.fptr)
  }

  lemma AnswersWrite(p: Plain, data: seq<byte>, n: nat, p': Plain, canRead: bool, free: nat)
    requires p.pos <= |p.content| && p.pos < 0x1_0000_0000 && n <= ClipWrite(p.pos, |data|)
    requires p' == Plain(Splice(p.content, p.pos, data[..n]), p.pos + n)
    requires n < ClipWrite(p.pos, |data|) ==> free == 0 && p'.pos == |p'.content|
    ensures Answers(p, DoWrite(data), Wrote(n), p', canRead, true, free)
  {
  }

  lemma AnswersRead(p: Plain, n: nat, data: seq<byte>, p': Plain, canWrite: bool, free: nat)
    requires p.pos <= |p.content| && p.pos < 0x1_0000_0000 && |data| == (if n > |p.content| - p.pos then |p.content| - p.pos else n)
    requires Matches(data, p.content[p.pos..p.pos + |data|]) && p' == Plain(p.content, p.pos + |data|)
    ensures Answers(p, DoRead(n), Got(data), p', true, canWrite, free)
  {
  }

  lemma AnswersSeek(p: Plain, ofs: u32, p': Plain, canRead: bool, canWrite: bool, free: nat)
    requires p.pos <= |p.content| && p.pos < 0x1_0000_0000 && p' == Plain(Grown(p.content, p'.pos), p'.pos)
    requires p'.pos == SeekTarget(canWrite, |p.content|, ofs) || (canWrite && |p.content| <= p'.pos < ofs && free == 0)
    ensures Answers(p, DoSeek(ofs), Moved(p'.pos), p', canRead, canWrite, free)
  {
  }

  lemma AnswersRest(p: Plain, op: Op, canRead: bool, canWrite: bool, free: nat)
    requires p.pos <= |p.content| && p.pos < 0x1_0000_0000
    ensures (op.DoRead? && !canRead) || ((op.DoWrite? || op.DoTruncate?) && !canWrite) ==>
              Answers(p, op, Refused, p, canRead, canWrite, free)
    ensures op.DoTruncate? && canWrite ==> Answers(p, op, Cut, Plain(p.content[..p.pos], p.pos), canRead, canWrite, free)
    ensures op.DoSync? ==> Answers(p, op, Synced, p, canRead, canWrite, free)
    ensures op.DoCount? ==> Answers(p, op, Free(free), p, canRead, canWrite, free)
  {
  }

  /** A seek that the full volume stopped stands behind the last cluster, and so not before
      the end there was. */
  lemma FullParts(g: Geo, s: Snap, r: FileRec, c: Content, canWrite: bool, target: nat)
    requires FileInv(g, s, r) && r.content == Grown(c, r.fptr)
    ensures AtFull(g, FatOf(g, s.view), r, canWrite, target) ==>
              canWrite && |c| <= r.fptr < target && CountFree(FatOf(g, s.view)) == 0
  {
    hide FileCore, CountFree, Bcs;
    InvParts(g, s, r);
    GrownLen(c, r.fptr);
  }

  lemma DoneOf(g: Geo, reliable: bool, s: Snap, s': Snap, r: FileRec, r': FileRec, sect: nat, ofs: nat, info: int, op: Op, was: bool, marked: bool)
    requires FileInv(g, s', r') && FileStep(g, reliable, s, s', r.chain, r'.chain) && !op.DoSync?
    requires was || Durable(g, s, sect, ofs, r) ==> marked || Durable(g, s', sect, ofs, r')
    ensures Done(g, reliable, s, s', r, r', sect, ofs, info, op, was, marked)
  {
  }

  lemma DoneSync(g: Geo, reliable: bool, s: Snap, s': Snap, r: FileRec, r': FileRec, sect: nat, ofs: nat, info: int, op: Op, was: bool)
    requires FileInv(g, s', r') && SyncFrame(g, reliable, s, s', sect, ofs, info, r.chain) && r'.chain == r.chain && op.DoSync?
    requires was || Durable(g, s, sect, ofs, r) ==> Durable(g, s', sect, ofs, r')
    ensures Done(g, reliable, s, s', r, r', sect, ofs, info, op, was, false)
  {
  }

  /** Nothing happened. */
  lemma DoneNothing(g: Geo, reliable: bool, s: Snap, r: FileRec, sect: nat, ofs: nat, info: int, op: Op, was: bool)
    requires FileInv(g, s, r) && Fits(g, s.dev.disk) && |s.view| == |s.dev.disk| && !op.DoSync?
    ensures Done(g, reliable, s, s, r, r, sect, ofs, info, op, was, was)
  {
    hide FileInv, Durable;
    InvParts(g, s, r);
    FileStepRefl(g, reliable, s, r.chain);
  }

  /** A file that did not grow kept its chain. */
  lemma SameSize(g: Geo, s: Snap, s': Snap, r: FileRec, r': FileRec)
    requires FileInv(g, s, r) && FileInv(g, s', r') && r.chain <= r'.chain && r'.objsize == r.objsize
    ensures r'.chain == r.chain && r'.sclust == r.sclust
  {
    hide *;
    ExactlyEnough(g, s, r);
    ExactlyEnough(g, s', r');
    InvParts(g, s, r);
    InvParts(g, s', r');
    CoreParts(g, s, r);
    CoreParts(g, s', r');
  }

  /** After f_read, or f_lseek inside the file, the device recovers what it recovered. */
  lemma DoneQuiet(g: Geo, reliable: bool, s: Snap, s': Snap, r: FileRec, r': FileRec, sect: nat, ofs: nat, dc: nat, info: int, op: Op, was: bool)
    requires FileInv(g, s, r) && FileInv(g, s', r') && GrowStep(g, reliable, s, s', r.chain, r'.chain) && !op.DoSync?
    requires EntryAt(g, s.view, sect, ofs) && EntryApart(g, s.view, sect, dc, r.chain)
    requires r'.content == r.content && (!was ==> !r'.dirty)
    ensures Done(g, reliable, s, s', r, r', sect, ofs, info, op, was, was)
  {
    hide *;
    GrowSafe(g, reliable, s, s', r.chain, r'.chain);
    InvParts(g, s, r);
    InvParts(g, s', r');
    SameSize(g, s, s', r, r');
    if !was && Durable(g, s, sect, ofs, r) { DurableSame(g, reliable, s, s', sect, ofs, dc, r, r'); }
    DoneOf(g, reliable, s, s', r, r', sect, ofs, info, op, was, was);
  }

  method PerformWrite(f: File, data: seq<byte>) returns (res: FResult, reply: Reply)
    requires f.Valid() && f.err == FrOk && |data| < 0x1_0000_0000
    modifies f, f.fs
    ensures f.Valid() && res == f.err
    ensures res == FrOk ==>
              && Answers(PlainOf(old(f.Rec())), DoWrite(data), reply, PlainOf(f.Rec()), f.canRead, f.canWrite, CountFree(f.fs.Fat()))
              && Done(f.fs.g, f.fs.reliable, old(f.fs.Now()), f.fs.Now(), old(f.Rec()), f.Rec(), f.dirSect, f.dirOfs, f.fs.FsInfo(),
                      DoWrite(data), old(f.modified), f.modified)
    ensures res == FrOk || (res == FrIntErr && HasOne(old(f.fs.Fat()))) || (res == FrDiskErr && !f.fs.reliable)
    ensures Tidy(f.fs.g, old(f.fs.Now()), old(f.chain)) ==> SafeNow(f.fs.g, f.fs.Now())
  {
    hide *;
    ghost var s0, r0 := f.fs.Now(), f.Rec();
    InvParts(f.fs.g, s0, r0);
    SafeOfTidy(f.fs.g, s0, f.chain);
    AnswersRest(PlainOf(r0), DoWrite(data), f.canRead, f.canWrite, CountFree(f.fs.Fat()));
    DoneNothing(f.fs.g, f.fs.reliable, s0, r0, f.dirSect, f.dirOfs, f.fs.FsInfo(), DoWrite(data), f.modified);
    reply := Refused;
    var n;
    res, n := f.Write(data);
    if res == FrOk {
      reply := Wrote(n);
      AnswersWrite(PlainOf(r0), data, n, PlainOf(f.Rec()), f.canRead, CountFree(f.fs.Fat()));
      GrowSafe(f.fs.g, f.fs.reliable, s0, f.fs.Now(), r0.chain, f.chain);
      DoneOf(f.fs.g, f.fs.reliable, s0, f.fs.Now(), r0, f.Rec(), f.dirSect, f.dirOfs, f.fs.FsInfo(), DoWrite(data), true, true);
      DoneMarked(f.fs.g, f.fs.reliable, s0, f.fs.Now(), r0, f.Rec(), f.dirSect, f.dirOfs, f.fs.FsInfo(), DoWrite(data), old(f.modified));
    }
    if res == FrDenied { res := FrOk; }
  }

  lemma DoneMarked(g: Geo, reliable: bool, s: Snap, s': Snap, r: FileRec, r': FileRec, sect: nat, ofs: nat, info: int, op: Op, was: bool)
    requires Done(g, reliable, s, s', r, r', sect, ofs, info, op, true, true)
    ensures Done(g, reliable, s, s', r, r', sect, ofs, info, op, was, true)
  {
  }

  method PerformRead(f: File, n: nat, ghost dc: nat) returns (res: FResult, reply: Reply)
    requires f.Valid() && f.err == FrOk
    requires EntryAt(f.fs.g, f.fs.View(), f.dirSect, f.dirOfs) && EntryApart(f.fs.g, f.fs.View(), f.dirSect, dc, f.chain)
    modifies f, f.fs
    ensures f.Valid() && res == f.err
    ensures res == FrOk ==>
              && Answers(PlainOf(old(f.Rec())), DoRead(n), reply, PlainOf(f.Rec()), f.canRead, f.canWrite, CountFree(f.fs.Fat()))
              && Done(f.fs.g, f.fs.reliable, old(f.fs.Now()), f.fs.Now(), old(f.Rec()), f.Rec(), f.dirSect, f.dirOfs, f.fs.FsInfo(),
                      DoRead(n), old(f.modified), f.modified)
    ensures res == FrOk || (res == FrDiskErr && !f.fs.reliable)
    ensures Tidy(f.fs.g, old(f.fs.Now()), old(f.chain)) ==> SafeNow(f.fs.g, f.fs.Now())
  {
    hide *;
    ghost var s0, r0 := f.fs.Now(), f.Rec();
    InvParts(f.fs.g, s0, r0);
    AnswersRest(PlainOf(r0), DoRead(n), f.canRead, f.canWrite, CountFree(f.fs.Fat()));
    DoneNothing(f.fs.g, f.fs.reliable, s0, r0, f.dirSect, f.dirOfs, f.fs.FsInfo(), DoRead(n), f.modified);
    reply := Refused;
    var data;
    res, data := f.Read(n);
    GrowSafe(f.fs.g, f.fs.reliable, s0, f.fs.Now(), r0.chain, r0.chain);
    if res == FrOk {
      reply := Got(data);
      AnswersRead(PlainOf(r0), n, data, PlainOf(f.Rec()), f.canWrite, CountFree(f.fs.Fat()));
      DoneQuiet(f.fs.g, f.fs.reliable, s0, f.fs.Now(), r0, f.Rec(), f.dirSect, f.dirOfs, dc, f.fs.FsInfo(), DoRead(n), f.modified);
    }
    if res == FrDenied { res := FrOk; }
  }

  method PerformSeek(f: File, ofs: u32, ghost dc: nat) returns (res: FResult, reply: Reply)
    requires f.Valid() && f.err == FrOk
    requires EntryAt(f.fs.g, f.fs.View(), f.dirSect, f.dirOfs) && EntryApart(f.fs.g, f.fs.View(), f.dirSect, dc, f.chain)
    modifies f, f.fs
    ensures f.Valid() && res == f.err
    ensures res == FrOk ==>
              && Answers(PlainOf(old(f.Rec())), DoSeek(ofs), reply, PlainOf(f.Rec()), f.canRead, f.canWrite, CountFree(f.fs.Fat()))
              && Done(f.fs.g, f.fs.reliable, old(f.fs.Now()), f.fs.Now(), old(f.Rec()), f.Rec(), f.dirSect, f.dirOfs, f.fs.FsInfo(),
                      DoSeek(ofs), old(f.modified), f.modified)
    ensures res == FrOk || (res == FrIntErr && HasOne(old(f.fs.Fat()))) || (res == FrDiskErr && !f.fs.reliable)
    ensures Tidy(f.fs.g, old(f.fs.Now()), old(f.chain)) ==> SafeNow(f.fs.g, f.fs.Now())
  {
    hide *;
    ghost var s0, r0 := f.fs.Now(), f.Rec();
    InvParts(f.fs.g, s0, r0);
    reply := Refused;
    res := f.Lseek(ofs);
    if res == FrOk {
      reply := Moved(f.fptr);
      InvOk(f.fs.g, f.fs.Now(), f.Rec());
      FullParts(f.fs.g, f.fs.Now(), f.Rec(), r0.content, f.canWrite, ofs);
      AnswersSeek(PlainOf(r0), ofs, PlainOf(f.Rec()), f.canRead, f.canWrite, CountFree(f.fs.Fat()));
      GrowSafe(f.fs.g, f.fs.reliable, s0, f.fs.Now(), r0.chain, f.chain);
      if f.fptr > r0.objsize {
        DoneOf(f.fs.g, f.fs.reliable, s0, f.fs.Now(), r0, f.Rec(), f.dirSect, f.dirOfs, f.fs.FsInfo(), DoSeek(ofs), old(f.modified), true);
      } else {
        GrownIs(r0.content, f.fptr);
        DoneQuiet(f.fs.g, f.fs.reliable, s0, f.fs.Now(), r0, f.Rec(), f.dirSect, f.dirOfs, dc, f.fs.FsInfo(), DoSeek(ofs), f.modified);
      }
    }
  }

  method PerformCut(f: File) returns (res: FResult, reply: Reply)
    requires f.Valid() && f.err == FrOk
    modifies f, f.fs
    ensures f.Valid() && res == f.err
    ensures res == FrOk ==>
              && Answers(PlainOf(old(f.Rec())), DoTruncate, reply, PlainOf(f.Rec()), f.canRead, f.canWrite, CountFree(f.fs.Fat()))
              && Done(f.fs.g, f.fs.reliable, old(f.fs.Now()), f.fs.Now(), old(f.Rec()), f.Rec(), f.dirSect, f.dirOfs, f.fs.FsInfo(),
                      DoTruncate, old(f.modified), f.modified)
    ensures res == FrOk || (res == FrDiskErr && !f.fs.reliable)
    ensures Tidy(f.fs.g, old(f.fs.Now()), old(f.chain)) ==> SafeNow(f.fs.g, f.fs.Now())
  {
    hide *;
    ghost var s0, r0 := f.fs.Now(), f.Rec();
    InvParts(f.fs.g, s0, r0);
    AnswersRest(PlainOf(r0), DoTruncate, f.canRead, f.canWrite, CountFree(f.fs.Fat()));
    DoneNothing(f.fs.g, f.fs.reliable, s0, r0, f.dirSect, f.dirOfs, f.fs.FsInfo(), DoTruncate, f.modified);
    reply := Refused;
    res := f.Truncate();
    if res == FrOk {
      reply := Cut;
      AnswersRest(PlainOf(r0), DoTruncate, f.canRead, f.canWrite, CountFree(f.fs.Fat()));
      if r0.fptr < r0.objsize {
        DoneOf(f.fs.g, f.fs.reliable, s0, f.fs.Now(), r0, f.Rec(), f.dirSect, f.dirOfs, f.fs.FsInfo(), DoTruncate, old(f.modified), true);
      }
    }
    if res == FrDenied { res := FrOk; }
  }

  method PerformSync(f: File, time: u32, ghost dc: nat) returns (res: FResult, reply: Reply)
    requires f.Valid() && f.err == FrOk
    requires EntryAt(f.fs.g, f.fs.View(), f.dirSect, f.dirOfs) && EntryApart(f.fs.g, f.fs.View(), f.dirSect, dc, f.chain)
    modifies f, f.fs
    ensures f.Valid() && f.err == FrOk && f.fs.Fat() == old(f.fs.Fat())
    ensures res == FrOk && old(f.modified) ==> f.fs.Flushed()
    ensures res == FrOk ==>
              && Answers(PlainOf(old(f.Rec())), DoSync(time), reply, PlainOf(f.Rec()), f.canRead, f.canWrite, CountFree(f.fs.Fat()))
              && Done(f.fs.g, f.fs.reliable, old(f.fs.Now()), f.fs.Now(), old(f.Rec()), f.Rec(), f.dirSect, f.dirOfs, f.fs.FsInfo(),
                      DoSync(time), old(f.modified), f.modified)
    ensures res == FrOk || (res == FrDiskErr && !f.fs.reliable)
    ensures Tidy(f.fs.g, old(f.fs.Now()), old(f.chain)) ==> SafeNow(f.fs.g, f.fs.Now())
  {
    hide *;
    ghost var s0, r0, info := f.fs.Now(), f.Rec(), f.fs.FsInfo();
    InvParts(f.fs.g, s0, r0);
    SafeOfTidy(f.fs.g, s0, f.chain);
    AnswersRest(PlainOf(r0), DoSync(time), f.canRead, f.canWrite, CountFree(f.fs.Fat()));
    reply := Synced;
    res := f.Sync(time, dc);
    FrameSafe(f.fs.g, f.fs.reliable, s0, f.fs.Now(), f.dirSect, f.dirOfs, info, r0.chain);
    if res == FrOk {
      DoneSync(f.fs.g, f.fs.reliable, s0, f.fs.Now(), r0, f.Rec(), f.dirSect, f.dirOfs, info, DoSync(time), old(f.modified));
    }
  }

  /** The reserved entries do not read as free, as f_getfree relies on for FAT16 and FAT32. */
  ghost predicate ReservedUsed(g: Geo, s: Snap) {
    Fits(g, s.view) && (g.fsType == Fat12 || (FatOf(g, s.view)[0] != 0 && FatOf(g, s.view)[1] != 0))
  }

  /** f_getfree is right: it has a count already, or counts no reserved entry. */
  ghost predicate Countable(g: Geo, s: Snap, free: nat) {
    free <= g.nFatent - 2 || ReservedUsed(g, s)
  }

  /** What f_getfree answers is the number of free clusters exactly if it is countable. */
  lemma CountRight(g: Geo, s: Snap, free: nat, n: nat)
    requires Fits(g, s.view) && Accurate(FatOf(g, s.view), free)
    requires free <= g.nFatent - 2 ==> n == free
    requires free > g.nFatent - 2 ==>
               n == CountFree(FatOf(g, s.view)) + if g.fsType == Fat12 then 0 else (if FatOf(g, s.view)[0] == 0 then 1 else 0) + (if FatOf(g, s.view)[1] == 0 then 1 else 0)
    ensures n == CountFree(FatOf(g, s.view)) <==> Countable(g, s, free)
    ensures Countable(g, s, free) ==> Accurate(FatOf(g, s.view), n)
  {
    hide Fits, CountFree;
    assert |FatOf(g, s.view)| == g.nFatent;
  }

  lemma OnesSeen(f: Fat)
    ensures (exists c :: 2 <= c < |f| && f[c] == 1) ==> HasOne(f)
  {
  }

  /** f_getfree on the volume of an open file; it does not concern the file. */
  method PerformCount(f: File, ghost dc: nat) returns (res: FResult, reply: Reply)
    requires f.Valid() && f.err == FrOk && Countable(f.fs.g, f.fs.Now(), f.fs.freeClst)
    requires EntryAt(f.fs.g, f.fs.View(), f.dirSect, f.dirOfs) && EntryApart(f.fs.g, f.fs.View(), f.dirSect, dc, f.chain)
    modifies f, f.fs
    ensures f.Valid() && f.err == FrOk
    ensures res == FrOk ==>
              && Answers(PlainOf(old(f.Rec())), DoCount, reply, PlainOf(f.Rec()), f.canRead, f.canWrite, CountFree(f.fs.Fat()))
              && Done(f.fs.g, f.fs.reliable, old(f.fs.Now()), f.fs.Now(), old(f.Rec()), f.Rec(), f.dirSect, f.dirOfs, f.fs.FsInfo(),
                      DoCount, old(f.modified), f.modified)
    ensures res == FrOk || (res == FrIntErr && HasOne(old(f.fs.Fat()))) || (res == FrDiskErr && !f.fs.reliable)
    ensures Tidy(f.fs.g, old(f.fs.Now()), old(f.chain)) ==> SafeNow(f.fs.g, f.fs.Now())
  {
    hide *;
    var fs := f.fs;
    ghost var s0, r0, free := fs.Now(), f.Rec(), fs.freeClst;
    InvParts(fs.g, s0, r0);
    SafeOfTidy(fs.g, s0, f.chain);
    OnesSeen(fs.Fat());
    var n;
    res, n := fs.GetFree();
    reply := Free(n);
    ghost var s1 := fs.Now();
    ChainStepOf(fs.g, fs.reliable, s0, s1);
    CrashWindow(fs.g, fs.reliable, s0, s1);
    DevOfRead(fs.g, fs.reliable, s0, s1);
    CoreAfterRead(fs.g, fs.reliable, s0, s1, r0);
    InvKept(fs.g, s0, s1, r0);
    InvOk(fs.g, s1, r0);
    if res == FrOk {
      CountRight(fs.g, s0, free, n);
      AnswersRest(PlainOf(r0), DoCount, f.canRead, f.canWrite, CountFree(fs.Fat()));
      DoneQuiet(fs.g, fs.reliable, s0, s1, r0, r0, f.dirSect, f.dirOfs, dc, fs.FsInfo(), DoCount, f.modified);
    }
  }

  lemma FrameSafe(g: Geo, reliable: bool, s: Snap, s': Snap, sect: int, ofs: nat, info: int, ch: seq<nat>)
    requires SyncFrame(g, reliable, s, s', sect, ofs, info, ch)
    ensures SafeNow(g, s) ==> SafeNow(g, s')
  {
  }

  /** One call on an open file, answered as by a byte string with a position. */
  method Perform(f: File, op: Op, ghost dc: nat) returns (res: FResult, reply: Reply)
    requires f.Valid() && f.err == FrOk && (op.DoWrite? ==> |op.data| < 0x1_0000_0000) && (op.DoCount? ==> Countable(f.fs.g, f.fs.Now(), f.fs.freeClst))
    requires EntryAt(f.fs.g, f.fs.View(), f.dirSect, f.dirOfs) && EntryApart(f.fs.g, f.fs.View(), f.dirSect, dc, f.chain)
    modifies f, f.fs
    ensures f.Valid() && ((!op.DoSync? && !op.DoCount?) || res == FrOk ==> res == f.err)
    ensures op.DoSync? ==> res != FrIntErr && (res == FrOk && old(f.modified) ==> f.fs.Flushed())
    ensures res == FrOk ==>
              && Answers(PlainOf(old(f.Rec())), op, reply, PlainOf(f.Rec()), f.canRead, f.canWrite, CountFree(f.fs.Fat()))
              && Done(f.fs.g, f.fs.reliable, old(f.fs.Now()), f.fs.Now(), old(f.Rec()), f.Rec(), f.dirSect, f.dirOfs, f.fs.FsInfo(),
                      op, old(f.modified), f.modified)
    ensures res == FrOk || (res == FrIntErr && HasOne(old(f.fs.Fat()))) || (res == FrDiskErr && !f.fs.reliable)
    ensures Tidy(f.fs.g, old(f.fs.Now()), old(f.chain)) ==> SafeNow(f.fs.g, f.fs.Now())
  {
    hide *;
    match op {
      case DoWrite(data) => res, reply := PerformWrite(f, data);
      case DoRead(n) => res, reply := PerformRead(f, n, dc);
      case DoSeek(ofs) => res, reply := PerformSeek(f, ofs, dc);
      case DoTruncate => res, reply := PerformCut(f);
      case DoSync(time) => res, reply := PerformSync(f, time, dc);
      case DoCount => res, reply := PerformCount(f, dc);
    }
  }
}
