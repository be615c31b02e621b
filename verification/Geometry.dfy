/** Where the areas of a mounted volume lie, and the FAT as it appears in an image
    of the device. */
module Geometry {
  import opened Base
  import opened FatTable
  import opened Chains

  predicate PowerOfTwo(n: nat) {
    n == 1 || (n >= 2 && n % 2 == 0 && PowerOfTwo(n / 2))
  }

  /** The geometry fields of FATFS that mount_volume sets. */
  datatype Geo = Geo(
    fsType: FatType, nFats: nat, csize: nat, nRootdir: nat, nFatent: nat,
    fsize: nat, volbase: nat, fatbase: nat, dirbase: nat, database: nat)
  {
    /** What the checks of mount_volume leave true of a volume that fits its device. */
    predicate Ok() {
      && (nFats == 1 || nFats == 2)
      && csize <= 128 && PowerOfTwo(csize)
      && 34 < nFatent <= MaxClusters(fsType) + 2
      && TableBytes(fsType, nFatent) <= 512 * fsize
      && fsize < 0x20_0000
      && volbase < fatbase
      && fatbase + FatSectors() <= database
      && Top() < 0x1_0000_0000
    }

    /** Sectors of the FAT area, all copies. */
    function FatSectors(): nat { if nFats == 2 then 2 * fsize else fsize }

    /** One past the last sector of the data area. */
    function Top(): (s: nat)
      ensures s >= database
    {
      database + csize * (if nFatent >= 2 then nFatent - 2 else 0)
    }

    predicate InFat1(s: int) { fatbase <= s < fatbase + fsize }

    predicate InFat2(s: int) { nFats == 2 && fatbase + fsize <= s < fatbase + 2 * fsize }

    predicate InFats(s: int) { InFat1(s) || InFat2(s) }

    predicate IsCluster(c: int) { 2 <= c < nFatent }
  }

  type Image = seq<Sector>

  /** The device and every image it has held, one entry per completed write. */
  datatype Device = Device(disk: Image, log: seq<Image>)

  ghost predicate Fits(g: Geo, d: Image) {
    g.Ok() && g.Top() <= |d| < 0x1_0000_0000
  }

  /** The bytes of FAT #1 in an image. */
  ghost function Table(g: Geo, d: Image): (tbl: seq<byte>)
    requires Fits(g, d)
    ensures |tbl| == 512 * g.fsize
  {
    Flat(d[g.fatbase..g.fatbase + g.fsize])
  }

  /** The FAT an image holds: cluster number to value. */
  ghost function FatOf(g: Geo, d: Image): (f: seq<nat>)
    requires Fits(g, d)
    ensures |f| == g.nFatent
    ensures forall c :: 0 <= c < |f| ==> f[c] == Entry(g.fsType, g.nFatent, Table(g, d), c) < Width(g.fsType)
  {
    Entries(g.fsType, g.nFatent, Table(g, d))
  }

  /** b is a, except perhaps in the mirror FAT. */
  ghost predicate SameButMirror(g: Geo, a: Image, b: Image) {
    |a| == |b| && forall s :: 0 <= s < |a| && !g.InFat2(s) ==> b[s] == a[s]
  }

  /** b is a, except perhaps in the two FATs. */
  ghost predicate SameButFats(g: Geo, a: Image, b: Image) {
    |a| == |b| && forall s :: 0 <= s < |a| && !g.InFats(s) ==> b[s] == a[s]
  }

  /** FAT #2 is a copy of FAT #1. */
  ghost predicate Mirrored(g: Geo, d: Image)
    requires Fits(g, d)
  {
    g.nFats == 2 ==> forall s :: g.InFat1(s) ==> d[s + g.fsize] == d[s]
  }

  /** The log only grew, and each image it gained means v. */
  ghost predicate LogStep(g: Geo, log: seq<Image>, log': seq<Image>, v: Image) {
    log <= log' && forall i :: |log| <= i < |log'| ==> SameButMirror(g, v, log'[i])
  }

  /** What an access through the window may do to device d, meaning v and window
      position w: the meaning stays, the device is left alone or brought up to the
      meaning, and the window stays, moves to FAT #1 or becomes invalid. */
  ghost predicate WindowStep(g: Geo, d: Device, v: Image, w: u32, d': Device, v': Image, w': u32) {
    && SameButMirror(g, v, v')
    && |d'.disk| == |d.disk|
    && (d'.disk == d.disk || SameButMirror(g, v, d'.disk))
    && LogStep(g, d.log, d'.log, v)
    && (w' == w || w' == NOSECT || g.InFat1(w'))
  }

  /** What put_fat may do: only FAT sectors change their meaning. On FAT16 and FAT32
      the device stays or is brought up to the meaning before the store. */
  ghost predicate StoreStep(g: Geo, d: Device, v: Image, w: u32, d': Device, v': Image, w': u32) {
    && SameButFats(g, v, v')
    && |d'.disk| == |d.disk|
    && d.log <= d'.log
    && (g.fsType != Fat12 ==> (d'.disk == d.disk || SameButMirror(g, v, d'.disk)) && LogStep(g, d.log, d'.log, v))
    && (w' == w || w' == NOSECT || g.InFat1(w'))
  }

  lemma WindowThenStore(g: Geo, d0: Device, v0: Image, w0: u32, d1: Device, v1: Image, w1: u32, v2: Image)
    requires WindowStep(g, d0, v0, w0, d1, v1, w1) && SameButFats(g, v1, v2)
    ensures StoreStep(g, d0, v0, w0, d1, v2, w1)
  {
  }

  lemma SameButFatsTrans(g: Geo, a: Image, b: Image, c: Image)
    requires SameButFats(g, a, b) && SameButFats(g, b, c)
    ensures SameButFats(g, a, c)
  {
  }

  lemma WindowStepOf(g: Geo, d: Device, v: Image, w: u32, d': Device, v': Image, w': u32)
    requires SameButMirror(g, v, v') && |d.disk| == |v| && |d'.disk| == |v'|
    requires d'.disk == d.disk || SameButMirror(g, v, d'.disk)
    requires LogStep(g, d.log, d'.log, v) && (w' == w || w' == NOSECT || g.InFat1(w'))
    ensures WindowStep(g, d, v, w, d', v', w')
  {
  }

  lemma WindowStepTrans(g: Geo, d0: Device, v0: Image, w0: u32, d1: Device, v1: Image, w1: u32, d2: Device, v2: Image, w2: u32)
    requires WindowStep(g, d0, v0, w0, d1, v1, w1) && WindowStep(g, d1, v1, w1, d2, v2, w2)
    ensures WindowStep(g, d0, v0, w0, d2, v2, w2)
  {
  }

  lemma SameFat(g: Geo, a: Image, b: Image)
    requires Fits(g, a) && SameButMirror(g, a, b)
    ensures Fits(g, b) && FatOf(g, a) == FatOf(g, b) && Table(g, a) == Table(g, b)
  {
    assert a[g.fatbase..g.fatbase + g.fsize] == b[g.fatbase..g.fatbase + g.fsize];
  }

  /** Byte j of FAT sector s. */
  lemma TableAt(g: Geo, d: Image, s: nat, j: nat)
    requires Fits(g, d) && g.InFat1(s) && j < 512
    ensures Table(g, d)[512 * (s - g.fatbase) + j] == d[s][j]
  {
    FlatAt(d[g.fatbase..g.fatbase + g.fsize], s - g.fatbase, j);
  }

  /** Sector s of FAT #1 is 512 consecutive bytes of the table. */
  lemma TableSector(g: Geo, d: Image, s: nat)
    requires Fits(g, d) && g.InFat1(s)
    ensures var k := 512 * (s - g.fatbase); k + 512 <= 512 * g.fsize && Table(g, d)[k..k + 512] == d[s]
  {
    var k := 512 * (s - g.fatbase);
    forall j | 0 <= j < 512
      ensures Table(g, d)[k..k + 512][j] == d[s][j]
    {
      TableAt(g, d, s, j);
    }
  }

  lemma TableStore(g: Geo, d: Image, s: nat, j: nat, v: byte)
    requires Fits(g, d) && g.InFat1(s) && j < 512
    ensures var sec: Sector := d[s][j := v];
            Fits(g, d[s := sec]) && Table(g, d[s := sec]) == Table(g, d)[512 * (s - g.fatbase) + j := v]
  {
    var sec: Sector := d[s][j := v];
    var lo, hi := g.fatbase, g.fatbase + g.fsize;
    var area, i := d[lo..hi], s - lo;
    assert area[i] == d[s];
    assert Fits(g, d[s := sec]);
    assert Table(g, d) == Flat(area) && Table(g, d[s := sec]) == Flat(d[s := sec][lo..hi]);
    hide *;
    assert d[s := sec][lo..hi] == area[i := sec];
    FlatStore(area, i, j, v);
  }

  /** How the value of a cluster is read off the bytes of the table, by FAT type. */
  lemma StatusBytes(g: Geo, d: Image, c: nat)
    requires Fits(g, d) && g.IsCluster(c)
    ensures FatOf(g, d)[c] < DISKERR == 0xFFFF_FFFF
    ensures 2 <= c < g.nFatent <= 0x0FFF_FFF7 && Mask(g.fsType, 0) == 0
    ensures match g.fsType
            case Fat12 => c + c / 2 + 2 <= 512 * g.fsize && FatOf(g, d)[c] == Get12(c, Table(g, d)[c + c / 2], Table(g, d)[c + c / 2 + 1])
            case Fat16 => 2 * c + 2 <= 512 * g.fsize && FatOf(g, d)[c] == Ld16(Table(g, d), 2 * c)
            case Fat32 => 4 * c + 4 <= 512 * g.fsize && FatOf(g, d)[c] == Ld32(Table(g, d), 4 * c) % 0x1000_0000
  {
    OfsInTable(g.fsType, g.nFatent, c);
  }

  /** If the bytes of the table are those put_fat stores, the FAT is updated at c. */
  lemma StatusStored(g: Geo, d: Image, d': Image, c: nat, val: nat)
    requires Fits(g, d) && Fits(g, d') && g.IsCluster(c)
    requires Table(g, d') == Store(g.fsType, g.nFatent, Table(g, d), c, val)
    ensures FatOf(g, d') == FatOf(g, d)[c := Mask(g.fsType, val)]
  {
    StoreRefinesUpdate(g.fsType, g.nFatent, Table(g, d), c, val);
  }

  /** A FAT12 store that got no further than its first byte. */
  lemma StatusHalfStored(g: Geo, d: Image, d': Image, c: nat, val: nat)
    requires Fits(g, d) && Fits(g, d') && g.fsType == Fat12 && g.IsCluster(c)
    requires c + c / 2 < 512 * g.fsize
    requires var b := c + c / 2; Table(g, d') == Table(g, d)[b := Low12(c, val, Table(g, d)[b])]
    ensures forall c' :: 0 <= c' < g.nFatent && c' != c ==> FatOf(g, d')[c'] == FatOf(g, d)[c']
  {
    forall c' | 0 <= c' < g.nFatent && c' != c
      ensures FatOf(g, d')[c'] == FatOf(g, d)[c']
    {
      HalfStore12(g.nFatent, Table(g, d), c, val, c');
    }
  }

  lemma Done16(g: Geo, d: Image, d': Image, c: nat, val: nat)
    requires Fits(g, d) && Fits(g, d') && g.fsType == Fat16 && g.IsCluster(c) && 2 * c + 2 <= 512 * g.fsize
    requires Table(g, d') == St16(Table(g, d), 2 * c, val)
    ensures FatOf(g, d') == FatOf(g, d)[c := Mask(g.fsType, val)]
  {
    StatusStored(g, d, d', c, val);
  }

  lemma Done32(g: Geo, d: Image, d': Image, c: nat, val: nat)
    requires Fits(g, d) && Fits(g, d') && g.fsType == Fat32 && g.IsCluster(c) && 4 * c + 4 <= 512 * g.fsize
    requires Table(g, d') == St32(Table(g, d), 4 * c, Merge32(val, Ld32(Table(g, d), 4 * c)))
    ensures FatOf(g, d') == FatOf(g, d)[c := Mask(g.fsType, val)]
  {
    StatusStored(g, d, d', c, val);
  }

  lemma Done12(g: Geo, d: Image, d': Image, c: nat, val: nat)
    requires Fits(g, d) && Fits(g, d') && g.fsType == Fat12 && g.IsCluster(c) && c + c / 2 + 2 <= 512 * g.fsize
    requires var b, t := c + c / 2, Table(g, d);
             Table(g, d') == t[b := Low12(c, val, t[b])][b + 1 := High12(c, val, t[b + 1])]
    ensures FatOf(g, d') == FatOf(g, d)[c := Mask(g.fsType, val)]
  {
    StatusStored(g, d, d', c, val);
  }

  lemma HalfDone(g: Geo, d0: Device, v0: Image, w0: u32, d1: Device, v1: Image, w1: u32, v2: Image, c: nat, val: nat)
    requires WindowStep(g, d0, v0, w0, d1, v1, w1) && SameButFats(g, v1, v2)
    requires Fits(g, v0) && Fits(g, v2) && g.fsType == Fat12 && g.IsCluster(c) && c + c / 2 < 512 * g.fsize
    requires var b := c + c / 2; Table(g, v2) == Table(g, v0)[b := Low12(c, val, Table(g, v0)[b])]
    ensures StoreStep(g, d0, v0, w0, d1, v2, w1)
    ensures forall c' :: 0 <= c' < g.nFatent && c' != c ==> FatOf(g, v2)[c'] == FatOf(g, v0)[c']
  {
    StatusHalfStored(g, v0, v2, c, val);
    WindowThenStore(g, d0, v0, w0, d1, v1, w1, v2);
  }

  lemma SecondMove(g: Geo, d0: Device, v0: Image, w0: u32, d2: Device, v2: Image, w2: u32, d3: Device, v3: Image, w3: u32)
    requires StoreStep(g, d0, v0, w0, d2, v2, w2) && WindowStep(g, d2, v2, w2, d3, v3, w3) && g.fsType == Fat12
    ensures StoreStep(g, d0, v0, w0, d3, v3, w3)
  {
  }

  lemma LastStore12(g: Geo, d0: Device, v0: Image, w0: u32, d3: Device, v3: Image, w3: u32, v4: Image)
    requires StoreStep(g, d0, v0, w0, d3, v3, w3) && SameButFats(g, v3, v4) && g.fsType == Fat12
    ensures StoreStep(g, d0, v0, w0, d3, v4, w3)
  {
  }

  /** The common frame of the chain operations: outside the FATs nothing changes its
      meaning, and the window stays, sits on FAT #1 or is invalid. */
  ghost predicate FatsOnly(g: Geo, v: Image, w: u32, v': Image, w': u32) {
    SameButFats(g, v, v') && (w' == w || w' == NOSECT || g.InFat1(w'))
  }

  /** The FAT is safe in the meaning of the volume, on the device as it is, and in
      every image the device has held: wherever power fails, nothing links to a free
      cluster and no cluster has two predecessors. */
  ghost predicate CrashSafe(g: Geo, d: Device, v: Image) {
    && g.fsType != Fat12
    && Fits(g, v) && Safe(FatOf(g, v))
    && Fits(g, d.disk) && Safe(FatOf(g, d.disk))
    && forall i :: 0 <= i < |d.log| ==> Fits(g, d.log[i]) && Safe(FatOf(g, d.log[i]))
  }

  lemma CrashSafeWindow(g: Geo, d: Device, v: Image, w: u32, d': Device, v': Image, w': u32)
    requires CrashSafe(g, d, v) && WindowStep(g, d, v, w, d', v', w')
    ensures CrashSafe(g, d', v')
  {
    SameFat(g, v, v');
    if d'.disk != d.disk { SameFat(g, v, d'.disk); }
    LogSafe(g, d.log, d'.log, v);
  }

  lemma CrashSafeStore(g: Geo, d: Device, v: Image, w: u32, d': Device, v': Image, w': u32)
    requires CrashSafe(g, d, v) && StoreStep(g, d, v, w, d', v', w')
    requires Fits(g, v') && Safe(FatOf(g, v'))
    ensures CrashSafe(g, d', v')
  {
    if d'.disk != d.disk { SameFat(g, v, d'.disk); }
    LogSafe(g, d.log, d'.log, v);
  }

  lemma LogSafe(g: Geo, log: seq<Image>, log': seq<Image>, v: Image)
    requires Fits(g, v) && Safe(FatOf(g, v)) && LogStep(g, log, log', v)
    requires forall i :: 0 <= i < |log| ==> Fits(g, log[i]) && Safe(FatOf(g, log[i]))
    ensures forall i :: 0 <= i < |log'| ==> Fits(g, log'[i]) && Safe(FatOf(g, log'[i]))
  {
    forall i | 0 <= i < |log'|
      ensures Fits(g, log'[i]) && Safe(FatOf(g, log'[i]))
    {
      if i < |log| {
        assert log'[i] == log[i];
      } else {
        SameFat(g, v, log'[i]);
      }
    }
  }

  /** The state of a volume as the FAT accessors see it. */
  datatype Snap = Snap(dev: Device, view: Image, winsect: u32)

  /** Mirroring survives on a reliable device. */
  ghost predicate MirrorKept(g: Geo, reliable: bool, d: Device, d': Device) {
    Fits(g, d.disk) && Fits(g, d'.disk) && (reliable && Mirrored(g, d.disk) ==> Mirrored(g, d'.disk))
  }

  /** What get_fat may do to a volume. */
  ghost predicate ReadStep(g: Geo, reliable: bool, s: Snap, s': Snap) {
    && WindowStep(g, s.dev, s.view, s.winsect, s'.dev, s'.view, s'.winsect)
    && MirrorKept(g, reliable, s.dev, s'.dev)
  }

  /** What put_fat may do to a volume. */
  ghost predicate PutStep(g: Geo, reliable: bool, s: Snap, s': Snap) {
    && StoreStep(g, s.dev, s.view, s.winsect, s'.dev, s'.view, s'.winsect)
    && MirrorKept(g, reliable, s.dev, s'.dev)
  }

  /** What any number of them may do: outside the FATs nothing changes its meaning. */
  ghost predicate ChainStep(g: Geo, reliable: bool, s: Snap, s': Snap) {
    && FatsOnly(g, s.view, s.winsect, s'.view, s'.winsect)
    && MirrorKept(g, reliable, s.dev, s'.dev)
    && |s'.dev.disk| == |s.dev.disk| && s.dev.log <= s'.dev.log
  }

  lemma ChainStepOf(g: Geo, reliable: bool, s: Snap, s': Snap)
    ensures ReadStep(g, reliable, s, s') ==> ChainStep(g, reliable, s, s')
    ensures PutStep(g, reliable, s, s') ==> ChainStep(g, reliable, s, s')
    ensures Fits(g, s.dev.disk) ==> ChainStep(g, reliable, s, s)
  {
  }

  lemma ChainStepTrans(g: Geo, reliable: bool, s: Snap, s': Snap, s'': Snap)
    requires ChainStep(g, reliable, s, s') && ChainStep(g, reliable, s', s'')
    ensures ChainStep(g, reliable, s, s'')
  {
  }

  lemma ReadStepTrans(g: Geo, reliable: bool, s: Snap, s': Snap, s'': Snap)
    requires ReadStep(g, reliable, s, s') && ReadStep(g, reliable, s', s'')
    ensures ReadStep(g, reliable, s, s'')
  {
  }

  lemma ReadStepRefl(g: Geo, reliable: bool, s: Snap)
    requires Fits(g, s.dev.disk)
    ensures ReadStep(g, reliable, s, s)
  {
  }

  /** Entry c of the FAT keeps its meaning, and the device shows it as before or as it is
      meant: nothing else gets there. */
  ghost predicate EntryFollows(g: Geo, s: Snap, s': Snap, c: nat) {
    && Fits(g, s.view) && Fits(g, s'.view) && Fits(g, s.dev.disk) && Fits(g, s'.dev.disk) && c < g.nFatent
    && FatOf(g, s'.view)[c] == FatOf(g, s.view)[c]
    && (FatOf(g, s'.dev.disk)[c] == FatOf(g, s.dev.disk)[c] || FatOf(g, s'.dev.disk)[c] == FatOf(g, s.view)[c])
  }

  /** What accesses through the window may do to the device: besides the clusters in own and
      sector x, the meaning stays, and the device stays or is brought up to it. */
  ghost predicate DevStep(g: Geo, s: Snap, s': Snap, own: set<nat>, x: int) {
    && Fits(g, s.view) && Fits(g, s'.view) && Fits(g, s.dev.disk) && Fits(g, s'.dev.disk)
    && |s'.view| == |s.view| == |s.dev.disk| == |s'.dev.disk|
    && (forall c :: 2 <= c < g.nFatent && c !in own ==> EntryFollows(g, s, s', c))
    && (forall y :: 0 <= y < |s.view| && !g.InFats(y) && y != x ==>
          s'.view[y] == s.view[y] && (s'.dev.disk[y] == s.dev.disk[y] || s'.dev.disk[y] == s.view[y]))
  }

  lemma DevRefl(g: Geo, s: Snap, own: set<nat>, x: int)
    requires Fits(g, s.view) && Fits(g, s.dev.disk) && |s.view| == |s.dev.disk|
    ensures DevStep(g, s, s, own, x)
  {
  }

  lemma DevTrans(g: Geo, s: Snap, s': Snap, s'': Snap, a: set<nat>, b: set<nat>, own: set<nat>, x: int)
    requires DevStep(g, s, s', a, x) && DevStep(g, s', s'', b, x) && a <= own && b <= own
    ensures DevStep(g, s, s'', own, x)
  {
    hide FatOf, Fits;
    forall c | 2 <= c < g.nFatent && c !in own
      ensures EntryFollows(g, s, s'', c)
    {
      assert EntryFollows(g, s, s', c) && EntryFollows(g, s', s'', c);
    }
  }

  lemma DevMore(g: Geo, s: Snap, s': Snap, a: set<nat>, own: set<nat>, x: int)
    requires DevStep(g, s, s', a, -1) && a <= own
    ensures DevStep(g, s, s', own, x)
  {
  }

  lemma DevOfRead(g: Geo, reliable: bool, s: Snap, s': Snap)
    requires ReadStep(g, reliable, s, s') && Fits(g, s.view) && |s.view| == |s.dev.disk|
    ensures DevStep(g, s, s', {}, -1)
  {
    SameFat(g, s.view, s'.view);
    if s'.dev.disk != s.dev.disk { SameFat(g, s.view, s'.dev.disk); }
  }

  lemma DevOfPut(g: Geo, reliable: bool, s: Snap, s': Snap, c: nat)
    requires PutStep(g, reliable, s, s') && g.fsType != Fat12 && Fits(g, s.view) && Fits(g, s'.view) && |s.view| == |s.dev.disk|
    requires forall c' :: 0 <= c' < g.nFatent && c' != c ==> FatOf(g, s'.view)[c'] == FatOf(g, s.view)[c']
    ensures DevStep(g, s, s', {c}, -1)
  {
    if s'.dev.disk != s.dev.disk { SameFat(g, s.view, s'.dev.disk); }
  }

  /** The two stores of a FAT12 entry: when the window moves on between them, the device
      sees the first one, which spoils no other entry. */
  lemma DevOfPut12(g: Geo, s: Snap, s1: Snap, v2: Image, s3: Snap, v4: Image, c: nat)
    requires Fits(g, s.view) && Fits(g, s.dev.disk) && Fits(g, v2) && Fits(g, v4) && |s.view| == |s.dev.disk|
    requires WindowStep(g, s.dev, s.view, s.winsect, s1.dev, s1.view, s1.winsect) && SameButFats(g, s1.view, v2)
    requires WindowStep(g, s1.dev, v2, s1.winsect, s3.dev, s3.view, s3.winsect) && SameButFats(g, s3.view, v4)
    requires forall c' :: 0 <= c' < g.nFatent && c' != c ==> FatOf(g, v2)[c'] == FatOf(g, s.view)[c']
    requires forall c' :: 0 <= c' < g.nFatent && c' != c ==> FatOf(g, v4)[c'] == FatOf(g, s.view)[c']
    ensures DevStep(g, s, Snap(s3.dev, v4, s3.winsect), {c}, -1)
  {
    if s1.dev.disk != s.dev.disk { SameFat(g, s.view, s1.dev.disk); }
    if s3.dev.disk != s1.dev.disk { SameFat(g, v2, s3.dev.disk); }
  }

  /** CrashSafe of a snapshot. */
  ghost predicate SafeNow(g: Geo, s: Snap) {
    CrashSafe(g, s.dev, s.view)
  }

  /** Freeing c, if nobody links to it, keeps every instant safe and leaves its
      successor without predecessor. */
  ghost predicate FreedSafely(g: Geo, s: Snap, s': Snap, c: nat)
    requires Fits(g, s.view) && Fits(g, s'.view) && g.IsCluster(c)
  {
    SafeNow(g, s) && Unref(FatOf(g, s.view), c) ==>
      && SafeNow(g, s')
      && (g.IsCluster(FatOf(g, s.view)[c]) && FatOf(g, s'.view) == FatOf(g, s.view)[c := 0] ==> Unref(FatOf(g, s'.view), FatOf(g, s.view)[c]))
  }

  /** The FAT is safe and nothing links to c. */
  ghost predicate HeadSafe(g: Geo, s: Snap, c: nat) {
    SafeNow(g, s) && Fits(g, s.view) && Unref(FatOf(g, s.view), c)
  }

  lemma HeadSafeFreed(g: Geo, s: Snap, s': Snap, c: nat)
    requires Fits(g, s.view) && Fits(g, s'.view) && g.IsCluster(c) && FreedSafely(g, s, s', c)
    ensures HeadSafe(g, s, c) ==> SafeNow(g, s')
    ensures HeadSafe(g, s, c) && FatOf(g, s'.view) == FatOf(g, s.view)[c := 0] && g.IsCluster(FatOf(g, s.view)[c]) ==>
              HeadSafe(g, s', FatOf(g, s.view)[c])
  {
  }

  /** remove_chain accepts its arguments. */
  predicate Removable(g: Geo, clst: nat, pclst: nat) {
    g.IsCluster(clst) && (pclst == 0 || g.IsCluster(pclst))
  }

  /** The FAT with pclst ended, if it is given. */
  ghost function CutAt(g: Geo, f: Fat, pclst: nat): (r: Fat)
    requires |f| == g.nFatent && (pclst == 0 || g.IsCluster(pclst))
    ensures |r| == |f|
  {
    if pclst == 0 then f else f[pclst := EndMark(g.fsType)]
  }

  /** What remove_chain expects of a safe FAT: clst is the cluster pclst links to, or
      the head of a chain. */
  ghost predicate CutHeadSafe(g: Geo, s: Snap, clst: nat, pclst: nat) {
    && SafeNow(g, s) && Fits(g, s.view)
    && (pclst == 0 ==> Unref(FatOf(g, s.view), clst))
    && (g.IsCluster(pclst) ==> FatOf(g, s.view)[pclst] == clst)
  }

  /** Ending a chain at pclst keeps every instant safe. */
  ghost predicate CutKeepsSafe(g: Geo, s: Snap, s': Snap, pclst: nat) {
    SafeNow(g, s) && Fits(g, s.view) && g.IsCluster(pclst) ==>
      && SafeNow(g, s') && Fits(g, s'.view)
      && (FatOf(g, s'.view) == CutAt(g, FatOf(g, s.view), pclst) && g.IsCluster(FatOf(g, s.view)[pclst]) ==> HeadSafe(g, s', FatOf(g, s.view)[pclst]))
  }

  lemma CutHead(g: Geo, reliable: bool, s: Snap, s': Snap, pclst: nat)
    requires PutStep(g, reliable, s, s') && Fits(g, s.view) && Fits(g, s'.view)
    requires g.IsCluster(pclst)
    requires FatOf(g, s'.view) == FatOf(g, s.view)[pclst := EndMark(g.fsType)] || FatOf(g, s'.view) == FatOf(g, s.view) || g.fsType == Fat12
    ensures CutKeepsSafe(g, s, s', pclst)
  {
    StoredValues(g, s.view, 0);
    CrashCut(g, reliable, s, s', pclst, EndMark(g.fsType));
  }

  lemma CutSafe(g: Geo, s: Snap, s': Snap, clst: nat, pclst: nat)
    requires Fits(g, s.view) && Fits(g, s'.view) && CutKeepsSafe(g, s, s', pclst) && g.IsCluster(pclst) && g.IsCluster(clst)
    ensures CutHeadSafe(g, s, clst, pclst) ==> SafeNow(g, s')
    ensures CutHeadSafe(g, s, clst, pclst) && FatOf(g, s'.view) == CutAt(g, FatOf(g, s.view), pclst) ==> HeadSafe(g, s', clst)
  {
  }

  lemma CutFacts(g: Geo, s: Snap, clst: nat, pclst: nat)
    requires Fits(g, s.view)
    ensures Removable(g, clst, pclst) <==> 2 <= clst < g.nFatent && (pclst == 0 || 2 <= pclst < g.nFatent)
    ensures g.IsCluster(clst) <==> 2 <= clst < g.nFatent
    ensures g.IsCluster(pclst) <==> 2 <= pclst < g.nFatent
    ensures CutHeadSafe(g, s, clst, 0) <==> HeadSafe(g, s, clst)
    ensures CutHeadSafe(g, s, clst, pclst) ==> SafeNow(g, s)
    ensures CutAt(g, FatOf(g, s.view), 0) == FatOf(g, s.view)
    ensures 2 <= pclst < g.nFatent ==>
              CutAt(g, FatOf(g, s.view), pclst) == FatOf(g, s.view)[pclst := EndMark(g.fsType)]
  {
    if 2 <= pclst < g.nFatent { assert g.IsCluster(pclst); }
  }

  lemma HeadSafeRead(g: Geo, reliable: bool, s: Snap, s': Snap, c: nat)
    requires Fits(g, s.view) && Fits(g, s'.view) && ReadStep(g, reliable, s, s') && FatOf(g, s.view) == FatOf(g, s'.view)
    ensures HeadSafe(g, s, c) ==> HeadSafe(g, s', c)
    ensures HeadSafe(g, s, c) ==> SafeNow(g, s)
  {
    CrashWindow(g, reliable, s, s');
  }

  lemma ClusterRange(g: Geo, d: Image, c: nat)
    requires Fits(g, d)
    ensures g.IsCluster(c) <==> 2 <= c < g.nFatent
    ensures DISKERR == 0xFFFF_FFFF > g.nFatent > 34 && Mask(g.fsType, 0) == 0
  {
  }

  /** Cutting the link of p keeps every instant safe and leaves the cluster it linked
      to without predecessor. */
  ghost predicate CutSafely(g: Geo, s: Snap, s': Snap, p: nat, end: nat)
    requires Fits(g, s.view) && Fits(g, s'.view) && g.IsCluster(p)
  {
    SafeNow(g, s) ==>
      && SafeNow(g, s')
      && (g.IsCluster(FatOf(g, s.view)[p]) && FatOf(g, s'.view) == FatOf(g, s.view)[p := end] ==> Unref(FatOf(g, s'.view), FatOf(g, s.view)[p]))
  }

  lemma CrashFree(g: Geo, reliable: bool, s: Snap, s': Snap, c: nat)
    requires PutStep(g, reliable, s, s') && Fits(g, s.view) && Fits(g, s'.view) && g.IsCluster(c)
    requires FatOf(g, s'.view) == FatOf(g, s.view)[c := 0] || FatOf(g, s'.view) == FatOf(g, s.view) || g.fsType == Fat12
    ensures FreedSafely(g, s, s', c)
  {
    if SafeNow(g, s) && Unref(FatOf(g, s.view), c) {
      SafeFreeHead(FatOf(g, s.view), c);
      CrashSafeStore(g, s.dev, s.view, s.winsect, s'.dev, s'.view, s'.winsect);
    }
  }

  lemma CrashCut(g: Geo, reliable: bool, s: Snap, s': Snap, p: nat, end: nat)
    requires PutStep(g, reliable, s, s') && Fits(g, s.view) && Fits(g, s'.view) && g.IsCluster(p) && end >= g.nFatent
    requires FatOf(g, s'.view) == FatOf(g, s.view)[p := end] || FatOf(g, s'.view) == FatOf(g, s.view) || g.fsType == Fat12
    ensures CutSafely(g, s, s', p, end)
  {
    if SafeNow(g, s) {
      SafeEnd(FatOf(g, s.view), p, end);
      if g.IsCluster(FatOf(g, s.view)[p]) { SafeCut(FatOf(g, s.view), p, end); }
      CrashSafeStore(g, s.dev, s.view, s.winsect, s'.dev, s'.view, s'.winsect);
    }
  }

  /** Linking to a used cluster without predecessor keeps every instant safe. */
  lemma CrashLink(g: Geo, reliable: bool, s: Snap, s': Snap, c: nat, to: nat)
    requires PutStep(g, reliable, s, s') && Fits(g, s.view) && Fits(g, s'.view)
    requires g.IsCluster(c) && g.IsCluster(to) && c != to && FatOf(g, s.view)[to] != 0
    requires FatOf(g, s'.view) == FatOf(g, s.view)[c := to] || FatOf(g, s'.view) == FatOf(g, s.view) || g.fsType == Fat12
    ensures SafeNow(g, s) && Unref(FatOf(g, s.view), to) ==> SafeNow(g, s')
  {
    if SafeNow(g, s) && Unref(FatOf(g, s.view), to) {
      SafeLink(FatOf(g, s.view), c, to);
      CrashSafeStore(g, s.dev, s.view, s.winsect, s'.dev, s'.view, s'.winsect);
    }
  }

  lemma CrashWindow(g: Geo, reliable: bool, s: Snap, s': Snap)
    requires ReadStep(g, reliable, s, s')
    ensures SafeNow(g, s) ==> SafeNow(g, s')
  {
    if SafeNow(g, s) {
      CrashSafeWindow(g, s.dev, s.view, s.winsect, s'.dev, s'.view, s'.winsect);
    }
  }

  /** The end mark and every cluster number of a mounted volume read back as stored. */
  lemma StoredValues(g: Geo, d: Image, v: nat)
    requires Fits(g, d)
    ensures EndMark(g.fsType) == Mask(g.fsType, 0xFFFF_FFFF) >= g.nFatent
    ensures v < g.nFatent ==> Mask(g.fsType, v) == v
  {
    EndMarkReadsAsEnd(g.fsType, g.nFatent, v);
  }

  /** First store of create_chain: the new cluster becomes an end mark. */
  lemma TakeSafe(g: Geo, reliable: bool, s: Snap, s': Snap, r: nat)
    requires PutStep(g, reliable, s, s') && Fits(g, s.view) && Fits(g, s'.view)
    requires 2 <= r < g.nFatent && FatOf(g, s.view)[r] == 0
    requires var f := FatOf(g, s.view)[r := EndMark(g.fsType)];
             FatOf(g, s'.view) == f || FatOf(g, s'.view) == FatOf(g, s.view) || g.fsType == Fat12
    ensures SafeNow(g, s) ==> SafeNow(g, s')
    ensures SafeNow(g, s) && FatOf(g, s'.view) == FatOf(g, s.view)[r := EndMark(g.fsType)] ==> HeadSafe(g, s', r)
  {
    var end := EndMark(g.fsType);
    StoredValues(g, s.view, 0);
    CrashCut(g, reliable, s, s', r, end);
    if SafeNow(g, s) { TakenIsUnref(FatOf(g, s.view), r, end); }
  }

  /** Second store of create_chain: the old tail is linked to the new cluster. */
  lemma LinkSafe(g: Geo, reliable: bool, s: Snap, s': Snap, c: nat, to: nat)
    requires PutStep(g, reliable, s, s') && Fits(g, s.view) && Fits(g, s'.view)
    requires 2 <= c < g.nFatent && 2 <= to < g.nFatent && c != to && FatOf(g, s.view)[to] != 0
    requires FatOf(g, s'.view) == FatOf(g, s.view)[c := to] || FatOf(g, s'.view) == FatOf(g, s.view) || g.fsType == Fat12
    ensures HeadSafe(g, s, to) ==> SafeNow(g, s')
  {
    CrashLink(g, reliable, s, s', c, to);
  }

  lemma HeadSafeIsSafe(g: Geo, s: Snap, c: nat)
    ensures HeadSafe(g, s, c) ==> SafeNow(g, s)
  {
  }

  /** How an entry of a FAT16 or FAT32 table, reserved ones included, reads in its sector. */
  lemma EntryInSector(g: Geo, d: Image, c: nat, b: nat, sec: Sector)
    requires Fits(g, d) && c < g.nFatent && g.fsType != Fat12 && b == (if g.fsType == Fat16 then 2 else 4) * c
    ensures b < 512 * g.fsize
    ensures SectorOf(Table(g, d), b, sec) ==>
              b % 512 + (if g.fsType == Fat16 then 2 else 4) <= 512
              && FatOf(g, d)[c] == if g.fsType == Fat16 then Ld16(sec, b % 512) else Ld32(sec, b % 512) % 0x1000_0000
  {
    OfsInTable(g.fsType, g.nFatent, c);
    var tbl := Table(g, d);
    assert FatOf(g, d)[c] == Entry(g.fsType, g.nFatent, tbl, c);
    assert g.fsType == Fat16 ==> FatOf(g, d)[c] == Ld16(tbl, 2 * c);
    assert g.fsType == Fat32 ==> FatOf(g, d)[c] == Ld32(tbl, 4 * c) % 0x1000_0000;
    WordInSector(tbl, c, sec);
  }

  /** Neighbouring entries share a sector until its end. */
  lemma NextInSector(size: nat, b: nat, tbl: seq<byte>, sec: Sector)
    requires (size == 2 || size == 4) && b % size == 0 && SectorOf(tbl, b, sec)
    ensures (b + size) % size == 0
    ensures (b % 512 + size) % 512 == (b + size) % 512
    ensures (b + size) % 512 != 0 ==> SectorOf(tbl, b + size, sec)
  {
    NextOffset(size, b);
  }

  lemma NextOffset(size: nat, b: nat)
    requires (size == 2 || size == 4) && b % size == 0
    ensures (b + size) % size == 0 && (b % 512 + size) % 512 == (b + size) % 512
    ensures (b + size) % 512 != 0 ==> (b + size) / 512 == b / 512
  {
    if size == 2 { EvenOffset(b); } else { FourthOffset(b); }
  }

  lemma EvenOffset(b: nat)
    requires b % 2 == 0
    ensures (b + 2) % 2 == 0 && (b % 512 + 2) % 512 == (b + 2) % 512
    ensures (b + 2) % 512 != 0 ==> (b + 2) / 512 == b / 512
  {
  }

  lemma FourthOffset(b: nat)
    requires b % 4 == 0
    ensures (b + 4) % 4 == 0 && (b % 512 + 4) % 512 == (b + 4) % 512
    ensures (b + 4) % 512 != 0 ==> (b + 4) / 512 == b / 512
  {
  }

  /** Image v with the sectors from lba on replaced by data. */
  function Patched(v: Image, lba: nat, data: seq<Sector>): (r: Image)
    requires lba + |data| <= |v|
    ensures |r| == |v|
    ensures forall s :: 0 <= s < |v| ==> r[s] == if lba <= s < lba + |data| then data[s - lba] else v[s]
  {
    v[..lba] + data + v[lba + |data|..]
  }

  lemma PatchedOnto(d: Image, s: nat, a: seq<Sector>, b: seq<Sector>)
    requires s + |a| + |b| <= |d|
    ensures Patched(Patched(d, s, a), s + |a|, b) == Patched(d, s, a + b)
  {
  }

  /** A transfer of file data, which bypasses the window: the device and its meaning
      change in the same sectors of the data area, and nothing else changes. */
  ghost predicate DataStep(g: Geo, reliable: bool, s: Snap, s': Snap, lba: nat, data: seq<Sector>) {
    && Fits(g, s.view) && Fits(g, s'.view)
    && g.database <= lba && lba + |data| <= |s.view| == |s.dev.disk|
    && s'.view == Patched(s.view, lba, data) && s'.dev.disk == Patched(s.dev.disk, lba, data)
    && FatOf(g, s'.view) == FatOf(g, s.view)
    && FatOfIs(g, s.dev.disk, s'.dev.disk)
    && s'.winsect == s.winsect
    && MirrorKept(g, reliable, s.dev, s'.dev)
    && (SafeNow(g, s) ==> SafeNow(g, s'))
  }

  /** The FAT depends only on the sectors of FAT #1. */
  lemma SameFat1(g: Geo, a: Image, b: Image)
    requires Fits(g, a) && |b| == |a| && forall s :: g.InFat1(s) ==> b[s] == a[s]
    ensures Fits(g, b) && FatOf(g, a) == FatOf(g, b)
  {
    assert forall s :: g.InFat1(s) <==> g.fatbase <= s < g.fatbase + g.fsize;
    assert a[g.fatbase..g.fatbase + g.fsize] == b[g.fatbase..g.fatbase + g.fsize];
  }

  lemma PatchedData(g: Geo, d: Image, lba: nat, data: seq<Sector>)
    requires Fits(g, d) && g.database <= lba && lba + |data| <= |d|
    ensures Fits(g, Patched(d, lba, data)) && FatOf(g, Patched(d, lba, data)) == FatOf(g, d)
    ensures Mirrored(g, d) ==> Mirrored(g, Patched(d, lba, data))
  {
    var d' := Patched(d, lba, data);
    assert g.fatbase + g.FatSectors() <= g.database;
    forall s | 0 <= s < g.database
      ensures d'[s] == d[s]
    {
    }
    PatchedFats(g, d, d');
  }

  lemma PatchedFats(g: Geo, d: Image, d': Image)
    requires Fits(g, d) && |d'| == |d| && forall s :: 0 <= s < g.database ==> d'[s] == d[s]
    ensures Fits(g, d') && FatOf(g, d') == FatOf(g, d)
    ensures Mirrored(g, d) ==> Mirrored(g, d')
  {
    SameFat1(g, d, d');
  }

  lemma DataStepOf(g: Geo, reliable: bool, s: Snap, s': Snap, lba: nat, data: seq<Sector>)
    requires Fits(g, s.view) && Fits(g, s.dev.disk) && |s.view| == |s.dev.disk|
    requires g.database <= lba && lba + |data| <= |s.view|
    requires s'.view == Patched(s.view, lba, data) && s'.dev.disk == Patched(s.dev.disk, lba, data)
    requires s'.dev.log == s.dev.log + [s'.dev.disk] && s'.winsect == s.winsect
    ensures DataStep(g, reliable, s, s', lba, data)
  {
    PatchedData(g, s.view, lba, data);
    PatchedData(g, s.dev.disk, lba, data);
  }

  /** One more sector of a transfer. */
  lemma DataStepMore(g: Geo, reliable: bool, s: Snap, s': Snap, s'': Snap, lba: nat, data: seq<Sector>, k: nat)
    requires 0 < k < |data| && lba + |data| <= |s.view| && DataStep(g, reliable, s, s', lba, data[..k])
    requires DataStep(g, reliable, s', s'', lba + k, [data[k]])
    ensures DataStep(g, reliable, s, s'', lba, data[..k + 1])
  {
    hide Fits, FatOf, SafeNow, Mirrored, Patched;
    assert data[..k] + [data[k]] == data[..k + 1];
    PatchedOnto(s.view, lba, data[..k], [data[k]]);
    PatchedOnto(s.dev.disk, lba, data[..k], [data[k]]);
  }

  /** b is a, except perhaps in the mirror FAT and in sector x. */
  ghost predicate SameButOne(g: Geo, x: int, a: Image, b: Image) {
    |a| == |b| && forall s :: 0 <= s < |a| && !g.InFat2(s) && s != x ==> b[s] == a[s]
  }

  /** What sync_fs or an update of a directory sector may do: besides a write-back only
      sector x, outside both FATs, changes. */
  ghost predicate MetaStep(g: Geo, reliable: bool, s: Snap, s': Snap, x: int) {
    && SameButOne(g, x, s.view, s'.view)
    && FatOfIs(g, s.view, s'.view)
    && DevStep(g, s, s', {}, x)
    && MirrorKept(g, reliable, s.dev, s'.dev)
    && (SafeNow(g, s) ==> SafeNow(g, s'))
  }

  ghost predicate FatOfIs(g: Geo, a: Image, b: Image) {
    Fits(g, a) && Fits(g, b) && FatOf(g, a) == FatOf(g, b)
  }

  lemma SameButOneFat(g: Geo, x: int, a: Image, b: Image)
    requires Fits(g, a) && SameButOne(g, x, a, b) && !g.InFat1(x)
    ensures FatOfIs(g, a, b)
  {
    forall s | g.InFat1(s)
      ensures b[s] == a[s]
    {
    }
    SameFat1(g, a, b);
  }

  lemma MetaStepTrans(g: Geo, reliable: bool, s: Snap, s': Snap, s'': Snap, x: int)
    requires MetaStep(g, reliable, s, s', x) && MetaStep(g, reliable, s', s'', x)
    ensures MetaStep(g, reliable, s, s'', x)
  {
    hide FatOf, Fits, SafeNow, EntryFollows, DevStep;
    DevTrans(g, s, s', s'', {}, {}, {}, x);
  }

  lemma MetaStepOfRead(g: Geo, reliable: bool, s: Snap, s': Snap, x: int)
    requires ReadStep(g, reliable, s, s') && Fits(g, s.view) && Fits(g, s'.view) && FatOf(g, s.view) == FatOf(g, s'.view)
    requires |s.view| == |s.dev.disk|
    ensures MetaStep(g, reliable, s, s', x)
  {
    DevOfRead(g, reliable, s, s');
    DevMore(g, s, s', {}, {}, x);
    CrashWindow(g, reliable, s, s');
  }

  /** A write of one sector outside the FATs that changes device and meaning alike, or
      only the meaning. */
  lemma MetaStepOfWrite(g: Geo, reliable: bool, s: Snap, s': Snap, x: nat)
    requires Fits(g, s.view) && Fits(g, s.dev.disk) && !g.InFats(x) && |s.view| == |s.dev.disk|
    requires SameButOne(g, x, s.view, s'.view) && SameButOne(g, x, s.dev.disk, s'.dev.disk)
    requires forall i :: g.InFat2(i) ==> s'.dev.disk[i] == s.dev.disk[i]
    requires s'.dev.log == s.dev.log || s'.dev.log == s.dev.log + [s'.dev.disk]
    ensures MetaStep(g, reliable, s, s', x)
  {
    SameButOneFat(g, x, s.view, s'.view);
    SameButOneFat(g, x, s.dev.disk, s'.dev.disk);
    assert Mirrored(g, s.dev.disk) ==> Mirrored(g, s'.dev.disk);
  }

  lemma LoadIsMeta(g: Geo, reliable: bool, s: Snap, s': Snap, x: int)
    requires Fits(g, s.view) && Fits(g, s'.view) && SameButMirror(g, s.view, s'.view)
    requires |s'.dev.disk| == |s.dev.disk| && (s'.dev.disk == s.dev.disk || SameButMirror(g, s.view, s'.dev.disk))
    requires LogStep(g, s.dev.log, s'.dev.log, s.view) && MirrorKept(g, reliable, s.dev, s'.dev) && |s.view| == |s.dev.disk|
    ensures MetaStep(g, reliable, s, s', x)
  {
    SameFat(g, s.view, s'.view);
    if s'.dev.disk != s.dev.disk { SameFat(g, s.view, s'.dev.disk); }
    if SafeNow(g, s) {
      if s'.dev.disk != s.dev.disk { SameFat(g, s.view, s'.dev.disk); }
      LogSafe(g, s.dev.log, s'.dev.log, s.view);
    }
  }
}
