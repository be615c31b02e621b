/** f_mkfs and mount_volume: the geometry that formatting chooses, the boot sector that
    records it, and what mounting reads back. */
module Mkfs {
  import opened Base
  import opened Numbers
  import opened FatTable
  import opened Chains
  import opened Geometry
  import opened DirEntry

  /** Cluster sizes in sectors. */
  predicate IsUnit(p: nat) {
    p == 1 || p == 2 || p == 4 || p == 8 || p == 16 || p == 32 || p == 64 || p == 128
  }

  lemma UnitIsPower(p: nat)
    requires IsUnit(p)
    ensures PowerOfTwo(p)
  {
    assert PowerOfTwo(1) && PowerOfTwo(2) && PowerOfTwo(4) && PowerOfTwo(8);
    assert PowerOfTwo(16);
    assert PowerOfTwo(32) && PowerOfTwo(64);
  }

  // ---- choosing the geometry ----

  /** The cluster size boundaries for auto-selection, in 4K and 128K sectors. */
  const CST: seq<nat> := [1, 4, 16, 64, 256, 512, 0]
  const CST32: seq<nat> := [1, 2, 4, 8, 16, 32, 0]

  /** The unit for a size n, looked for from place i of a table on. */
  function AutoFrom(cst: seq<nat>, n: nat, i: nat, pau: nat): nat
    decreases |cst| - i
  {
    if i < |cst| && cst[i] != 0 && cst[i] <= n then AutoFrom(cst, n, i + 1, 2 * pau) else pau
  }

  /** The automatic cluster size of FAT: doubled from 1, 4, 16, 64, 256 and 512 times 4096
      sectors on. */
  lemma AutoSmall(n: nat)
    ensures AutoFrom(CST, n, 0, 1) ==
            if n < 1 then 1 else if n < 4 then 2 else if n < 16 then 4 else if n < 64 then 8 else if n < 256 then 16 else if n < 512 then 32 else 64
  {
    AutoLate(CST, n);
    Tables();
  }

  /** The automatic cluster size of FAT32: doubled from 1, 2, 4, 8, 16 and 32 times 0x20000
      sectors on. */
  lemma AutoLarge(n: nat)
    ensures AutoFrom(CST32, n, 0, 1) ==
            if n < 1 then 1 else if n < 2 then 2 else if n < 4 then 4 else if n < 8 then 8 else if n < 16 then 16 else if n < 32 then 32 else 64
  {
    AutoLate(CST32, n);
    Tables();
  }

  lemma AutoLate(cst: seq<nat>, n: nat)
    requires |cst| == 7 && cst[6] == 0 && forall i :: 0 <= i < 6 ==> cst[i] != 0
    ensures AutoFrom(cst, n, 0, 1) ==
            if cst[0] > n then 1 else if cst[1] > n then 2 else if cst[2] > n then 4 else if cst[3] > n then 8
            else if cst[4] > n then 16 else if cst[5] > n then 32 else 64
  {
    assert AutoFrom(cst, n, 6, 64) == 64;
    assert AutoFrom(cst, n, 5, 32) == if cst[5] > n then 32 else 64;
    assert AutoFrom(cst, n, 4, 16) == if cst[4] > n then 16 else AutoFrom(cst, n, 5, 32);
    assert AutoFrom(cst, n, 3, 8) == if cst[3] > n then 8 else AutoFrom(cst, n, 4, 16);
    assert AutoFrom(cst, n, 2, 4) == if cst[2] > n then 4 else AutoFrom(cst, n, 3, 8);
    assert AutoFrom(cst, n, 1, 2) == if cst[1] > n then 2 else AutoFrom(cst, n, 2, 4);
  }

  /** for (i = 0, pau = 1; cst[i] && cst[i] <= n; i++, pau <<= 1) */
  method AutoUnit(cst: seq<nat>, n: nat) returns (pau: nat)
    requires |cst| == 7 && cst[6] == 0
    ensures IsUnit(pau) && pau <= 64 && pau == AutoFrom(cst, n, 0, 1)
  {
    var i := 0;
    pau := 1;
    while cst[i] != 0 && cst[i] <= n
      invariant 0 <= i <= 6 && AutoFrom(cst, n, i, pau) == AutoFrom(cst, n, 0, 1)
      invariant pau == if i == 0 then 1 else if i == 1 then 2 else if i == 2 then 4 else if i == 3 then 8 else if i == 4 then 16 else if i == 5 then 32 else 64
      decreases 6 - i
    {
      i, pau := i + 1, 2 * pau;
    }
  }

  /** What f_mkfs settles on: the FAT type, the cluster size, the sectors of the reserved
      area, of one FAT and of the root directory, and the number of clusters. */
  datatype Plan = Plan(fsty: FatType, pau: nat, nFat: nat, nRoot: nat, szRsv: nat, szFat: nat, szDir: nat, nClst: nat)

  function Overhead(p: Plan): nat { p.szRsv + p.szFat * p.nFat + p.szDir }

  /** The areas fit the volume, every cluster has its entry in the FAT, every field fits
      its place in the boot sector, and the type is the one the cluster count means. */
  ghost predicate Sound(p: Plan, bVol: nat, szVol: nat, szBlk: nat) {
    && IsUnit(p.pau) && (p.nFat == 1 || p.nFat == 2)
    && 0 < p.szRsv < 65536 && (p.fsty == Fat32 ==> p.szRsv >= 32)
    && 0 < p.szFat && (p.fsty != Fat32 ==> p.szFat < 65536)
    && (if p.fsty == Fat32 then p.szDir == 0 else 0 < p.nRoot <= 32768 && p.nRoot == 16 * p.szDir)
    && Overhead(p) + p.pau * p.nClst <= szVol < Overhead(p) + p.pau * p.nClst + p.pau
    && p.nClst <= MaxClusters(p.fsty)
    && (p.fsty == Fat16 ==> p.nClst > MaxClusters(Fat12)) && (p.fsty == Fat32 ==> p.nClst > MaxClusters(Fat16))
    && TableBytes(p.fsty, p.nClst + 2) <= 512 * p.szFat
    && 0 < szBlk && (bVol + Overhead(p)) % szBlk == 0
  }

  /** The part of one turn before the alignment: sizes for a tentative cluster count. */
  datatype Draft = Draft(fsty: FatType, pau: nat, szRsv: nat, szFat: nat, szDir: nat)

  /** What the first part of a turn computes, as one expression. */
  function TentativeOf(fsty0: FatType, szAu: nat, szVol: u32, nRoot: nat): (r: (bool, Draft)) {
    var auto := if fsty0 == Fat32 then AutoFrom(CST32, szVol / 0x2_0000, 0, 1) else AutoFrom(CST, szVol / 0x1000, 0, 1);
    var pau := if szAu == 0 then auto else szAu;
    var nClst := if pau == 0 then 0 else szVol / pau;
    if fsty0 == Fat32 then
      (MaxClusters(Fat16) < nClst <= MaxClusters(Fat32), Draft(fsty0, pau, 32, Wrap(Wrap(4 * nClst) + 519) / 512, 0))
    else
      var small := nClst <= MaxClusters(Fat12);
      var bytes := if small then (3 * nClst + 1) / 2 + 3 else Wrap(2 * nClst + 4);
      (true, Draft(if small then Fat12 else fsty0, pau, 1, Wrap(bytes + 511) / 512, nRoot * 32 / 512))
  }

  lemma TentativeIs(fsty0: FatType, szAu: nat, szVol: u32, nRoot: nat, pau: nat, nClst: nat)
    requires pau > 0 && nClst == szVol / pau
    requires pau == if szAu != 0 then szAu else if fsty0 == Fat32 then AutoFrom(CST32, szVol / 0x2_0000, 0, 1) else AutoFrom(CST, szVol / 0x1000, 0, 1)
    ensures fsty0 == Fat32 ==> TentativeOf(fsty0, szAu, szVol, nRoot) == (MaxClusters(Fat16) < nClst <= MaxClusters(Fat32), Draft32(pau, nClst))
    ensures fsty0 != Fat32 ==> TentativeOf(fsty0, szAu, szVol, nRoot) == (true, DraftSmall(fsty0, pau, nClst, nRoot))
  {
    hide AutoFrom, MaxClusters, Wrap;
  }

  function Draft32(pau: nat, nClst: nat): Draft { Draft(Fat32, pau, 32, Wrap(Wrap(4 * nClst) + 519) / 512, 0) }

  function DraftSmall(fsty0: FatType, pau: nat, nClst: nat, nRoot: nat): Draft {
    var small := nClst <= MaxClusters(Fat12);
    var bytes := if small then (3 * nClst + 1) / 2 + 3 else Wrap(2 * nClst + 4);
    Draft(if small then Fat12 else fsty0, pau, 1, Wrap(bytes + 511) / 512, nRoot * 32 / 512)
  }

  /** The FAT of a draft is the smallest that holds the tentative number of clusters. */
  lemma LeastFat32(pau: nat, nClst: nat)
    requires nClst <= MaxClusters(Fat32)
    ensures LeastFor(Fat32, nClst, Draft32(pau, nClst).szFat)
  {
    WrapIs(4 * nClst);
    WrapIs(4 * nClst + 519);
    hide Wrap;
    Ceil512(4 * nClst + 8);
  }

  lemma LeastFatSmall(pau: nat, nClst: nat, nRoot: nat)
    requires nClst <= MaxClusters(Fat32)
    ensures LeastFor(DraftSmall(Fat16, pau, nClst, nRoot).fsty, nClst, DraftSmall(Fat16, pau, nClst, nRoot).szFat)
    ensures DraftSmall(Fat16, pau, nClst, nRoot).fsty == if nClst <= 0xFF5 then Fat12 else Fat16
  {
    var bytes := if nClst <= 0xFF5 then (3 * nClst + 1) / 2 + 3 else 2 * nClst + 4;
    WrapIs(2 * nClst + 4);
    WrapIs(bytes + 511);
    Bytes12(nClst);
    hide Wrap;
    Ceil512(bytes);
  }

  lemma Bytes12(n: nat)
    ensures TableBytes(Fat12, n + 2) == (3 * n + 1) / 2 + 3
  {
    var h, r := n / 2, n % 2;
    assert n == 2 * h + r;
    if r == 0 {
      QuotientIs((n + 2) * 3, 2, 3 * h + 3, 0);
      QuotientIs(3 * n + 1, 2, 3 * h, 1);
    } else {
      QuotientIs((n + 2) * 3, 2, 3 * h + 4, 1);
      QuotientIs(3 * n + 1, 2, 3 * h + 2, 0);
    }
  }

  lemma Ceil512(bytes: nat)
    ensures bytes <= 512 * ((bytes + 511) / 512) < bytes + 512
  {
  }

  predicate LeastFor(t: FatType, nClst: nat, szFat: nat) {
    TableBytes(t, nClst + 2) <= 512 * szFat < TableBytes(t, nClst + 2) + 512
  }

  /** 12, 16 or 32 bits for each entry, in whole bytes. */
  lemma TableBits(n: nat)
    ensures TableBytes(Fat12, n) == (12 * n + 7) / 8 && TableBytes(Fat16, n) == 16 * n / 8 && TableBytes(Fat32, n) == 32 * n / 8
  {
    var h, r := n / 2, n % 2;
    assert n == 2 * h + r;
    if r == 0 {
      QuotientIs(n * 3, 2, 3 * h, 0);
      QuotientIs(12 * n + 7, 8, 3 * h, 7);
    } else {
      QuotientIs(n * 3, 2, 3 * h + 1, 1);
      QuotientIs(12 * n + 7, 8, 3 * h + 2, 3);
    }
  }

  lemma Tables()
    ensures |CST| == 7 && CST[6] == 0 && |CST32| == 7 && CST32[6] == 0
  {
  }

  lemma UnitPositive(p: nat)
    requires IsUnit(p)
    ensures p > 0
  {
  }

  /** A FAT for n tentative clusters. */
  method SizeFat32(pau: nat, nClst: nat) returns (d: Draft)
    ensures d == Draft32(pau, nClst)
  {
    var szFat := Wrap(Wrap(4 * nClst) + 519) / 512;
    d := Draft(Fat32, pau, 32, szFat, 0);
  }

  method SizeSmall(fsty0: FatType, pau: nat, nClst: nat, nRoot: nat) returns (d: Draft)
    ensures d == DraftSmall(fsty0, pau, nClst, nRoot)
  {
    var fsty, n := fsty0, 0;
    if nClst > MaxClusters(Fat12) {
      n := Wrap(2 * nClst + 4);
    } else {
      fsty := Fat12;
      n := (3 * nClst + 1) / 2 + 3;
    }
    d := Draft(fsty, pau, 1, Wrap(n + 511) / 512, nRoot * 32 / 512);
  }

  /** The first part of a turn of the loop. */
  method Tentative(fsty0: FatType, szAu: nat, szVol: u32, nRoot: nat) returns (ok: bool, d: Draft)
    requires fsty0 != Fat12 && (szAu == 0 || IsUnit(szAu))
    requires 0 < nRoot <= 32768 && nRoot % 16 == 0
    ensures IsUnit(d.pau) && (szAu != 0 ==> d.pau == szAu) && (ok, d) == TentativeOf(fsty0, szAu, szVol, nRoot)
  {
    hide *;
    Tables();
    ok := true;
    var pau := szAu;
    if pau == 0 {
      if fsty0 == Fat32 { pau := AutoUnit(CST32, szVol / 0x2_0000); } else { pau := AutoUnit(CST, szVol / 0x1000); }
    }
    UnitPositive(pau);
    var nClst := szVol / pau;
    TentativeIs(fsty0, szAu, szVol, nRoot, pau, nClst);
    DraftUnits(fsty0, pau, nClst, nRoot);
    if fsty0 == Fat32 {
      d := SizeFat32(pau, nClst);
      if nClst <= MaxClusters(Fat16) || nClst > MaxClusters(Fat32) { ok := false; }
    } else {
      d := SizeSmall(fsty0, pau, nClst, nRoot);
    }
  }

  lemma DraftUnits(fsty0: FatType, pau: nat, nClst: nat, nRoot: nat)
    ensures Draft32(pau, nClst).pau == pau && DraftSmall(fsty0, pau, nClst, nRoot).pau == pau
  {
  }

  /** The tentative count is in range for FAT32 and decides between FAT12 and FAT16, and the
      FAT is sized for it. */
  lemma TentativeFacts(fsty0: FatType, szAu: nat, szVol: u32, nRoot: nat, d: Draft)
    requires fsty0 != Fat12 && d.pau > 0 && nRoot % 16 == 0 && TentativeOf(fsty0, szAu, szVol, nRoot) == (true, d)
    ensures fsty0 == Fat32 ==>
              && d.fsty == Fat32 && d.szRsv == 32 && d.szDir == 0
              && MaxClusters(Fat16) < Tries(szVol, d.pau) <= MaxClusters(Fat32)
              && d.szFat == (4 * Tries(szVol, d.pau) + 519) / 512
    ensures fsty0 == Fat16 ==>
              && d.szRsv == 1 && nRoot == 16 * d.szDir
              && d.fsty == (if Tries(szVol, d.pau) > MaxClusters(Fat12) then Fat16 else Fat12)
              && d.szFat == Wrap((if d.fsty == Fat16 then Wrap(2 * Tries(szVol, d.pau) + 4) else (3 * Tries(szVol, d.pau) + 1) / 2 + 3) + 511) / 512
  {
    TentativeUnit(fsty0, szAu, szVol, nRoot);
    TriesIs(szVol, d.pau);
    hide *;
    var nClst := Tries(szVol, d.pau);
    TentativeIs(fsty0, szAu, szVol, nRoot, d.pau, nClst);
    if fsty0 == Fat32 {
      Facts32(d.pau, nClst);
    } else {
      FactsSmall(d.pau, nClst, nRoot);
    }
  }

  /** The tentative cluster count. */
  function Tries(szVol: nat, pau: nat): nat { if pau == 0 then 0 else szVol / pau }

  lemma TriesIs(szVol: nat, pau: nat)
    requires pau > 0
    ensures Tries(szVol, pau) == szVol / pau
  {
  }

  lemma TriesBound(szVol: nat, pau: nat)
    requires IsUnit(pau)
    ensures var q := Tries(szVol, pau); pau * q <= szVol < pau * q + pau && q <= szVol
  {
    UnitQuotient(szVol, pau, szVol / pau);
  }

  lemma TentativeUnit(fsty0: FatType, szAu: nat, szVol: u32, nRoot: nat)
    ensures TentativeOf(fsty0, szAu, szVol, nRoot).1.pau ==
            if szAu != 0 then szAu else if fsty0 == Fat32 then AutoFrom(CST32, szVol / 0x2_0000, 0, 1) else AutoFrom(CST, szVol / 0x1000, 0, 1)
  {
    hide AutoFrom, MaxClusters, Wrap;
  }

  lemma Facts32(pau: nat, nClst: nat)
    requires nClst <= MaxClusters(Fat32)
    ensures Draft32(pau, nClst) == Draft(Fat32, pau, 32, (4 * nClst + 519) / 512, 0)
  {
    WrapIs(4 * nClst);
    WrapIs(4 * nClst + 519);
  }

  lemma FactsSmall(pau: nat, nClst: nat, nRoot: nat)
    requires nRoot % 16 == 0
    ensures var d := DraftSmall(Fat16, pau, nClst, nRoot);
            && d.szRsv == 1 && nRoot == 16 * d.szDir && d.pau == pau
            && d.fsty == (if nClst > MaxClusters(Fat12) then Fat16 else Fat12)
            && d.szFat == Wrap((if d.fsty == Fat16 then Wrap(2 * nClst + 4) else (3 * nClst + 1) / 2 + 3) + 511) / 512
  {
    hide Wrap;
  }

  /** Sectors from x to the next multiple of a block, in 32-bit arithmetic. */
  function ToNext(x: u32, szBlk: nat): (n: u32)
    requires 0 < szBlk
  {
    Wrap(Wrap(x + szBlk - 1) - Wrap(x + szBlk - 1) % szBlk - x)
  }

  /** Sectors from x to the next multiple of a block. */
  function Gap(x: nat, szBlk: nat): (n: nat)
    requires 0 < szBlk
    ensures n < szBlk && (x + n) % szBlk == 0
  {
    var r := x % szBlk;
    RoundUp(x, szBlk);
    if r == 0 then 0 else szBlk - r
  }

  lemma RoundUp(x: nat, b: nat)
    requires 0 < b
    ensures var n := if x % b == 0 then 0 else b - x % b; n < b && (x + n) % b == 0
    ensures (x + b - 1) - (x + b - 1) % b == x + if x % b == 0 then 0 else b - x % b
  {
    var q, r := x / b, x % b;
    assert x == b * q + r;
    if r == 0 {
      assert x + b - 1 == b * q + (b - 1);
      QuotientIs(x + b - 1, b, q, b - 1);
    } else {
      assert b * (q + 1) == b * q + b;
      QuotientIs(x + b - 1, b, q + 1, r - 1);
      QuotientIs(x + (b - r), b, q + 1, 0);
    }
  }

  /** The aligned address, unless it is the end of the address space. */
  lemma ToNextIs(x: u32, szBlk: nat)
    requires 0 < szBlk <= 0x8000
    ensures ToNext(x, szBlk) < szBlk
    ensures x + ToNext(x, szBlk) < 0x1_0000_0000 ==> ToNext(x, szBlk) == Gap(x, szBlk)
  {
    var s: int := x + szBlk - 1;
    if s < 0x1_0000_0000 {
      RoundUp(x, szBlk);
      WrapIs(s);
      GapIs(x, szBlk);
      ToNextPlain(x, szBlk, Gap(x, szBlk));
    } else {
      var y: nat := s - 0x1_0000_0000;
      WrapOnce(y);
      QuotientIs(y, szBlk, 0, y);
      ToNextWrapped(x, szBlk, y);
    }
  }

  lemma GapIs(x: nat, b: nat)
    requires 0 < b
    ensures Gap(x, b) == if x % b == 0 then 0 else b - x % b
  {
  }

  lemma WrapOnce(y: nat)
    requires y < 0x1_0000_0000
    ensures Wrap(y + 0x1_0000_0000) == y
  {
  }

  lemma ToNextPlain(x: u32, b: nat, g: nat)
    requires 0 < b && Wrap(x + b - 1) == x + b - 1 && (x + b - 1) - (x + b - 1) % b == x + g && g < 0x1_0000_0000
    ensures ToNext(x, b) == g
  {
    WrapIs(g);
  }

  lemma ToNextWrapped(x: u32, b: nat, y: nat)
    requires 0 < b && Wrap(x + b - 1) == y && y % b == y && x + b - 1 == y + 0x1_0000_0000 && y < b <= 0x8000
    ensures ToNext(x, b) == Wrap(0 - (x as int)) == 0x1_0000_0000 - x < b
  {
    WrapIs(0 - (x as int));
  }

  /** Moving or growing the FATs by n sectors. */
  function Moved(d: Draft, nFat: nat, n: nat): (r: (nat, nat))
    requires nFat == 1 || nFat == 2
    ensures r.0 + r.1 * nFat == d.szRsv + d.szFat * nFat + n
    ensures d.szRsv <= r.0 <= d.szRsv + n && d.szFat <= r.1 <= d.szFat + n
    ensures d.fsty == Fat32 ==> r.1 == d.szFat
    ensures d.fsty != Fat32 ==> r.0 <= d.szRsv + 1
  {
    if d.fsty == Fat32 then (d.szRsv + n, d.szFat)
    else if n % nFat != 0 then (d.szRsv + 1, d.szFat + (n - 1) / nFat)
    else (d.szRsv, d.szFat + n / nFat)
  }

  /** Sectors before the data area of a draft. */
  function Before(d: Draft, nFat: nat): nat { d.szRsv + d.szFat * nFat + d.szDir }

  /** A draft as Tentative makes it. */
  ghost predicate Drafted(d: Draft, szVol: u32, nRoot: nat) {
    && IsUnit(d.pau)
    && (if d.fsty == Fat32 then
          && d.szRsv == 32 && d.szDir == 0 && MaxClusters(Fat16) < Tries(szVol, d.pau) <= MaxClusters(Fat32)
          && d.szFat == (4 * Tries(szVol, d.pau) + 519) / 512
        else
          && d.szRsv == 1 && nRoot == 16 * d.szDir && 0 < nRoot <= 32768
          && (d.fsty == Fat16 <==> Tries(szVol, d.pau) > MaxClusters(Fat12))
          && d.szFat == Wrap((if d.fsty == Fat16 then Wrap(2 * Tries(szVol, d.pau) + 4) else (3 * Tries(szVol, d.pau) + 1) / 2 + 3) + 511) / 512)
  }

  /** Nothing before the data area is large enough to wrap. */
  lemma SmallDraft(d: Draft, szVol: u32, nRoot: nat, nFat: nat)
    requires Drafted(d, szVol, nRoot) && (nFat == 1 || nFat == 2)
    ensures d.szFat < 0x80_0000 && d.szDir <= 2048 && d.szRsv <= 32 && Before(d, nFat) < 0x200_0000
    ensures d.szRsv + d.szFat * nFat <= Before(d, nFat) && d.szFat * nFat < 0x100_0000
  {
  }

  /** The 32-bit addresses, once the volume is known to hold them. */
  lemma Addresses(bVol: u32, szVol: u32, rsv: nat, fats: nat, dir: nat, least: nat)
    requires bVol + szVol < 0x1_0000_0000 && rsv + fats + dir + least < 0x1_0000_0000
    ensures var bFat := Wrap(bVol + rsv);
            var bData := Wrap(Wrap(bFat + Wrap(fats)) + dir);
            && Wrap(Wrap(bData + least) - bVol) == rsv + fats + dir + least
            && (rsv + fats + dir + least <= szVol ==> bFat == bVol + rsv && bData == bVol + rsv + fats + dir)
  {
    hide *;
    WrapIs(fats);
    WrapAdd(bVol + rsv, fats);
    WrapAdd(bVol + rsv + fats, dir);
    WrapAdd(bVol + rsv + fats + dir, least);
    WBack(bVol, rsv + fats + dir + least);
    WrapIs(bVol + rsv);
    WrapIs(bVol + rsv + fats + dir);
  }

  lemma WBack(a: u32, x: nat)
    requires x < 0x1_0000_0000
    ensures Wrap(Wrap(a + x) - a) == x
  {
    WrapIs(a + x);
    WrapIs(a + x - 0x1_0000_0000);
    WrapIs(x);
    WrapIs(x - 0x1_0000_0000);
  }

  // ---- no accepted underflow ----

  /** On FAT32 the alignment never exceeds the volume. */
  lemma RoomOn32(d: Draft, szVol: u32, nRoot: nat, nFat: nat, n: nat)
    requires Drafted(d, szVol, nRoot) && d.fsty == Fat32 && (nFat == 1 || nFat == 2) && n < 0x8000
    ensures Before(d, nFat) + n <= szVol
  {
    var pre := Tries(szVol, d.pau);
    assert pre <= szVol;
    assert d.szFat <= pre / 128 + 2;
    assert pre > 0xFFF5;
  }

  /** On FAT12 and FAT16 an underflow shows as too many clusters. */
  lemma UnderflowRejected(szVol: u32, before: nat, n: nat, pau: nat)
    requires IsUnit(pau) && before + 32 * pau <= szVol < before + n && n < 0x8000 && before < 0x200_0000
    ensures Wrap(szVol - (before + n)) / pau > MaxClusters(Fat16)
  {
    WrapIs(szVol - (before + n));
    QuotientBig(Wrap(szVol - (before + n)), pau);
  }

  lemma QuotientBig(x: nat, pau: nat)
    requires IsUnit(pau) && x >= 0x1_0000_0000 - 0x8000
    ensures x / pau > 0xFFF5
  {
  }

  lemma UnitProduct(pau: nat, a: nat, b: nat)
    requires IsUnit(pau) && a <= b
    ensures pau * a <= pau * b <= 128 * b
  {
  }

  /** A FAT16 or FAT12 volume is small, so neither its FAT size nor its tentative count
      wrapped. */
  lemma SmallVolume(d: Draft, szVol: u32, nRoot: nat, nFat: nat, n: nat, nClst: nat)
    requires Drafted(d, szVol, nRoot) && d.fsty != Fat32 && (nFat == 1 || nFat == 2) && n < 0x8000
    requires szVol < Before(d, nFat) + n + d.pau * nClst + d.pau && nClst <= MaxClusters(Fat16)
    ensures Tries(szVol, d.pau) < 0x2_0000
    ensures d.szFat == (if d.fsty == Fat16 then 2 * Tries(szVol, d.pau) + 515 else (3 * Tries(szVol, d.pau) + 1) / 2 + 514) / 512 <= 0x400
  {
    hide *;
    SmallDraft(d, szVol, nRoot, nFat);
    DraftParts(d, szVol, nRoot, nFat);
    TypeLimits();
    UnitMax(d.pau);
    var pre := Tries(szVol, d.pau);
    UnitProduct(d.pau, nClst, 0xFFF5);
    TriesBound(szVol, d.pau);
    assert pre < 0x400_0000;
    FatOfDraft(d, szVol, nRoot, pre);
    SmallPre(szVol, d.szFat, nFat, d.szDir, n, d.pau, nClst, pre);
    SmallFat(d.fsty == Fat16, pre);
  }

  lemma SmallPre(szVol: nat, fat: nat, nFat: nat, dir: nat, n: nat, pau: nat, nClst: nat, pre: nat)
    requires IsUnit(pau) && (nFat == 1 || nFat == 2) && fat <= pre / 256 + 3 && dir <= 2048 && n < 0x8000 && nClst <= 0xFFF5
    requires pau * pre <= szVol < 1 + fat * nFat + dir + n + pau * nClst + pau
    ensures pre < 0x2_0000
  {
    hide *;
    UnitProduct(pau, nClst, 0xFFF5);
    TwiceAtMost(fat, nFat);
    PreBound(szVol, pau, pre);
  }

  lemma TwiceAtMost(f: nat, nFat: nat)
    requires nFat == 1 || nFat == 2
    ensures f * nFat <= 2 * f
  {
  }

  lemma SmallFat(wide: bool, pre: nat)
    requires pre < 0x2_0000
    ensures (if wide then 2 * pre + 515 else (3 * pre + 1) / 2 + 514) / 512 <= 0x400
  {
  }

  /** Without wrap-around, the FAT size grows with the tentative count. */
  lemma FatOfDraft(d: Draft, szVol: u32, nRoot: nat, pre: nat)
    requires Drafted(d, szVol, nRoot) && d.fsty != Fat32 && pre == Tries(szVol, d.pau) < 0x400_0000
    ensures d.szFat == (if d.fsty == Fat16 then 2 * pre + 515 else (3 * pre + 1) / 2 + 514) / 512 <= pre / 256 + 3
    ensures d.szRsv == 1 && d.szDir <= 2048
  {
    WrapIs(2 * pre + 4);
    WrapIs(2 * pre + 4 + 511);
    WrapIs((3 * pre + 1) / 2 + 3 + 511);
    if d.fsty == Fat12 { assert pre <= 0xFF5; }
  }

  lemma UnitQuotient(x: nat, pau: nat, q: nat)
    requires IsUnit(pau) && q == x / pau
    ensures pau * q <= x < pau * q + pau && q <= x
  {
  }

  lemma PreBound(szVol: nat, pau: nat, pre: nat)
    requires IsUnit(pau) && pau * pre <= szVol < 1 + 2 * (pre / 256 + 3) + 2048 + 0x8000 + pau * 0xFFF6
    ensures pre < 0x2_0000
  {
    if pre > 0xFFF6 {
      var k := pre - 0xFFF6;
      assert pau * pre == pau * 0xFFF6 + pau * k;
      UnitAtLeast(pau, k);
    }
  }

  lemma UnitAtLeast(pau: nat, k: nat)
    requires IsUnit(pau)
    ensures pau * k >= k
  {
  }

  /** The FAT of the draft is large enough for the final count, which is not above the
      tentative one. */
  lemma EnoughFat(d: Draft, szVol: u32, nRoot: nat, nFat: nat, n: nat, nClst: nat)
    requires Drafted(d, szVol, nRoot) && (nFat == 1 || nFat == 2) && n < 0x8000 && nClst <= MaxClusters(d.fsty)
    requires Before(d, nFat) + n + d.pau * nClst <= szVol < Before(d, nFat) + n + d.pau * nClst + d.pau
    ensures TableBytes(d.fsty, nClst + 2) <= 512 * d.szFat && 0 < d.szFat
    ensures d.fsty != Fat32 ==> d.szFat <= 0x400
  {
    hide *;
    DraftParts(d, szVol, nRoot, nFat);
    UnitMax(d.pau);
    var pre := Tries(szVol, d.pau);
    TriesBound(szVol, d.pau);
    NotMore(d.pau, nClst, pre, szVol);
    if d.fsty != Fat32 {
      TypeLimit(d.fsty);
      SmallVolume(d, szVol, nRoot, nFat, n, nClst);
    }
    TableGrows(d.fsty, nClst + 2, pre + 2);
    TableFits(d, szVol, nRoot, pre);
  }

  lemma TypeLimit(t: FatType)
    ensures t != Fat32 ==> MaxClusters(t) <= MaxClusters(Fat16)
  {
  }

  /** The FAT of the draft holds the tentative number of clusters. */
  lemma TableFits(d: Draft, szVol: u32, nRoot: nat, pre: nat)
    requires Drafted(d, szVol, nRoot) && pre == Tries(szVol, d.pau)
    requires d.fsty != Fat32 ==> d.szFat == (if d.fsty == Fat16 then 2 * pre + 515 else (3 * pre + 1) / 2 + 514) / 512
    ensures TableBytes(d.fsty, pre + 2) <= 512 * d.szFat && 0 < d.szFat
  {
    hide IsUnit, Wrap, MaxClusters, TableBytes;
    TableRoom(d.fsty, pre, d.szFat);
  }

  lemma TableRoom(t: FatType, pre: nat, szFat: nat)
    requires szFat == (if t == Fat32 then 4 * pre + 519 else if t == Fat16 then 2 * pre + 515 else (3 * pre + 1) / 2 + 514) / 512
    ensures TableBytes(t, pre + 2) <= 512 * szFat && 0 < szFat
  {
  }

  lemma NotMore(pau: nat, a: nat, b: nat, x: nat)
    requires IsUnit(pau) && pau * a <= x < pau * b + pau
    ensures a <= b
  {
    if a > b { MulGap(pau, b, a); }
  }

  lemma TableGrows(t: FatType, a: nat, b: nat)
    requires a <= b
    ensures TableBytes(t, a) <= TableBytes(t, b)
  {
  }

  /** Everything the last part of a turn needs to accept. */
  lemma Accepted(d: Draft, bVol: u32, szVol: u32, szBlk: nat, nFat: nat, nRoot: nat, nClst: nat)
    requires Drafted(d, szVol, nRoot) && (nFat == 1 || nFat == 2) && 0 < szBlk <= 0x8000
    requires bVol + szVol < 0x1_0000_0000 && Before(d, nFat) + 32 * d.pau <= szVol
    requires var n := ToNext(bVol + Before(d, nFat), szBlk);
             var m := Moved(d, nFat, n);
             nClst == Wrap(szVol - m.0 - Wrap(m.1 * nFat) - d.szDir) / d.pau
    requires nClst <= MaxClusters(Fat16) || d.fsty == Fat32
    requires d.fsty == Fat12 ==> nClst <= MaxClusters(Fat12)
    requires d.fsty == Fat16 ==> nClst > MaxClusters(Fat12)
    requires d.fsty == Fat32 ==> nClst > MaxClusters(Fat16)
    ensures var m := Moved(d, nFat, ToNext(bVol + Before(d, nFat), szBlk));
            Sound(Plan(d.fsty, d.pau, nFat, nRoot, m.0, m.1, d.szDir, nClst), bVol, szVol, szBlk)
  {
    hide *;
    SmallDraft(d, szVol, nRoot, nFat);
    DraftParts(d, szVol, nRoot, nFat);
    ToNextIs(bVol + Before(d, nFat), szBlk);
    var n := ToNext(bVol + Before(d, nFat), szBlk);
    var m := Moved(d, nFat, n);
    WrapIs(m.1 * nFat);
    var left := szVol - m.0 - m.1 * nFat - d.szDir;
    assert left == szVol - (Before(d, nFat) + n);
    if d.fsty == Fat32 { RoomOn32(d, szVol, nRoot, nFat, n); }
    if szVol < Before(d, nFat) + n { UnderflowRejected(szVol, Before(d, nFat), n, d.pau); }
    WrapIs(left);
    UnitQuotient(left, d.pau, nClst);
    Limit32(d, szVol, nRoot, nClst, left);
    EnoughFat(d, szVol, nRoot, nFat, n, nClst);
    SoundOf(d, bVol, szVol, szBlk, nFat, nRoot, n, nClst);
  }

  lemma DraftParts(d: Draft, szVol: u32, nRoot: nat, nFat: nat)
    requires Drafted(d, szVol, nRoot)
    ensures IsUnit(d.pau) && Before(d, nFat) == d.szRsv + d.szFat * nFat + d.szDir
  {
  }

  lemma Limit32(d: Draft, szVol: u32, nRoot: nat, nClst: nat, left: nat)
    requires Drafted(d, szVol, nRoot) && d.pau * nClst <= left <= szVol
    requires (nClst <= MaxClusters(Fat16) || d.fsty == Fat32) && (d.fsty == Fat12 ==> nClst <= MaxClusters(Fat12))
    ensures nClst <= MaxClusters(d.fsty)
  {
    if d.fsty == Fat32 {
      TriesBound(szVol, d.pau);
      NotMore(d.pau, nClst, Tries(szVol, d.pau), szVol);
    }
  }

  lemma SoundOf(d: Draft, bVol: u32, szVol: u32, szBlk: nat, nFat: nat, nRoot: nat, n: nat, nClst: nat)
    requires Drafted(d, szVol, nRoot) && (nFat == 1 || nFat == 2) && 0 < szBlk <= 0x8000 && n < 0x8000
    requires Before(d, nFat) + n + d.pau * nClst <= szVol < Before(d, nFat) + n + d.pau * nClst + d.pau
    requires nClst <= MaxClusters(d.fsty) && TableBytes(d.fsty, nClst + 2) <= 512 * d.szFat && 0 < d.szFat
    requires d.fsty == Fat16 ==> nClst > MaxClusters(Fat12)
    requires d.fsty == Fat32 ==> nClst > MaxClusters(Fat16)
    requires d.fsty != Fat32 ==> d.szFat <= 0x400
    requires n == Gap(bVol + Before(d, nFat), szBlk)
    ensures var m := Moved(d, nFat, n);
            Sound(Plan(d.fsty, d.pau, nFat, nRoot, m.0, m.1, d.szDir, nClst), bVol, szVol, szBlk)
  {
    var m := Moved(d, nFat, n);
    var p := Plan(d.fsty, d.pau, nFat, nRoot, m.0, m.1, d.szDir, nClst);
    assert Overhead(p) == Before(d, nFat) + n;
    hide TableBytes, Moved, Gap;
  }

  // ---- the loop ----

  /** Where the data area would begin without alignment. */
  function DataBase(d: Draft, bVol: u32, nFat: nat): u32 {
    Wrap(Wrap(Wrap(bVol + d.szRsv) + Wrap(d.szFat * nFat)) + d.szDir)
  }

  /** The plan when the reserved area and each FAT take so many sectors. */
  function PlanWith(d: Draft, szRsv: nat, szFat: nat, szVol: u32, nFat: nat, nRoot: nat): Plan
    requires d.pau > 0
  {
    Plan(d.fsty, d.pau, nFat, nRoot, szRsv, szFat, d.szDir, Wrap(szVol - szRsv - Wrap(szFat * nFat) - d.szDir) / d.pau)
  }

  /** What the last part of a turn computes: whether 32 clusters fit before the alignment, the
      sizes after it, and the cluster count. */
  function LayOf(d: Draft, bVol: u32, szVol: u32, szBlk: nat, nFat: nat, nRoot: nat): (bool, Plan)
    requires (nFat == 1 || nFat == 2) && 0 < szBlk <= 0x8000 && d.pau > 0
  {
    var bData := DataBase(d, bVol, nFat);
    var m := Moved(d, nFat, ToNext(bData, szBlk));
    (szVol >= Wrap(Wrap(bData + d.pau * 32) - bVol), PlanWith(d, m.0, m.1, szVol, nFat, nRoot))
  }

  lemma LayIs(d: Draft, bVol: u32, szVol: u32, szBlk: nat, nFat: nat, nRoot: nat)
    requires (nFat == 1 || nFat == 2) && 0 < szBlk <= 0x8000 && d.pau > 0
    ensures var bData := DataBase(d, bVol, nFat);
            var m := Moved(d, nFat, ToNext(bData, szBlk));
            LayOf(d, bVol, szVol, szBlk, nFat, nRoot) == (szVol >= Wrap(Wrap(bData + d.pau * 32) - bVol), PlanWith(d, m.0, m.1, szVol, nFat, nRoot))
  {
    hide Wrap, Moved, ToNext, PlanWith, DataBase;
  }

  lemma LayParts(d: Draft, bVol: u32, szRsv: nat, szFat: nat, szVol: u32, nFat: nat, nRoot: nat)
    requires d.pau > 0
    ensures DataBase(d, bVol, nFat) == Wrap(Wrap(Wrap(bVol + d.szRsv) + Wrap(d.szFat * nFat)) + d.szDir)
    ensures PlanWith(d, szRsv, szFat, szVol, nFat, nRoot) ==
            Plan(d.fsty, d.pau, nFat, nRoot, szRsv, szFat, d.szDir, Wrap(szVol - szRsv - Wrap(szFat * nFat) - d.szDir) / d.pau)
  {
    hide Wrap;
  }

  /** The cluster size and the type for the next turn, or none: what is decided on a plan. */
  datatype Verdict = Take | Give | Again(szAu: nat, fsty: FatType)

  function Judge(p: Plan, szAu: nat, allow32: bool): Verdict {
    match p.fsty
    case Fat32 =>
      if p.nClst > MaxClusters(Fat16) then Take
      else if szAu == 0 && p.pau / 2 != 0 then Again(p.pau / 2, Fat32) else Give
    case Fat16 =>
      if p.nClst > MaxClusters(Fat16) then
        if szAu == 0 && p.pau * 2 <= 64 then Again(p.pau * 2, Fat16)
        else if allow32 then Again(szAu, Fat32)
        else if szAu == 0 && p.pau * 2 <= 128 then Again(p.pau * 2, Fat16)
        else Give
      else if p.nClst > MaxClusters(Fat12) then Take
      else if szAu == 0 && p.pau * 2 <= 128 then Again(p.pau * 2, Fat16) else Give
    case Fat12 => if p.nClst > MaxClusters(Fat12) then Give else Take
  }

  lemma JudgeIs(p: Plan, szAu: nat, allow32: bool)
    ensures var v := Judge(p, szAu, allow32);
            && (p.fsty == Fat32 && p.nClst > MaxClusters(Fat16) ==> v == Take)
            && (p.fsty == Fat32 && p.nClst <= MaxClusters(Fat16) ==> v == if szAu == 0 && p.pau / 2 != 0 then Again(p.pau / 2, Fat32) else Give)
            && (p.fsty == Fat16 && p.nClst > MaxClusters(Fat16) && szAu == 0 && p.pau * 2 <= 64 ==> v == Again(p.pau * 2, Fat16))
            && (p.fsty == Fat16 && p.nClst > MaxClusters(Fat16) && !(szAu == 0 && p.pau * 2 <= 64) && allow32 ==> v == Again(szAu, Fat32))
            && (p.fsty == Fat16 && p.nClst > MaxClusters(Fat16) && !(szAu == 0 && p.pau * 2 <= 64) && !allow32 ==>
                  v == if szAu == 0 && p.pau * 2 <= 128 then Again(p.pau * 2, Fat16) else Give)
            && (p.fsty == Fat16 && MaxClusters(Fat12) < p.nClst <= MaxClusters(Fat16) ==> v == Take)
            && (p.fsty == Fat16 && p.nClst <= MaxClusters(Fat12) && p.nClst <= MaxClusters(Fat16) ==>
                  v == if szAu == 0 && p.pau * 2 <= 128 then Again(p.pau * 2, Fat16) else Give)
            && (p.fsty == Fat12 ==> v == if p.nClst > MaxClusters(Fat12) then Give else Take)
  {
  }

  function Budget(szAu: nat, fsty: FatType): nat {
    (if szAu == 0 then 1 else 0) + (if fsty == Fat16 then 1 else 0)
  }

  /** What the loop comes to from a cluster size and a type on. */
  function ChooseOf(bVol: u32, szVol: u32, szBlk: nat, nFat: nat, nRoot: nat, szAu: nat, fsty: FatType, allow32: bool): (r: Option<Plan>)
    requires (nFat == 1 || nFat == 2) && 0 < szBlk <= 0x8000
    decreases Budget(szAu, fsty)
  {
    var t := TentativeOf(fsty, szAu, szVol, nRoot);
    if !t.0 || t.1.pau == 0 then None
    else
      var l := LayOf(t.1, bVol, szVol, szBlk, nFat, nRoot);
      if !l.0 then None
      else
        match Judge(l.1, szAu, allow32)
        case Take => Some(l.1)
        case Give => None
        case Again(szAu', fsty') =>
          if Budget(szAu', fsty') < Budget(szAu, fsty) then ChooseOf(bVol, szVol, szBlk, nFat, nRoot, szAu', fsty', allow32) else None
  }

  lemma ChooseStep(bVol: u32, szVol: u32, szBlk: nat, nFat: nat, nRoot: nat, szAu: nat, fsty: FatType, allow32: bool, ok: bool, d: Draft, fits: bool, p: Plan)
    requires (nFat == 1 || nFat == 2) && 0 < szBlk <= 0x8000 && (ok, d) == TentativeOf(fsty, szAu, szVol, nRoot)
    requires ok && d.pau > 0 ==> (fits, p) == LayOf(d, bVol, szVol, szBlk, nFat, nRoot)
    ensures var r := ChooseOf(bVol, szVol, szBlk, nFat, nRoot, szAu, fsty, allow32);
            && (!ok ==> r == None)
            && (ok && d.pau > 0 && !fits ==> r == None)
            && (ok && d.pau > 0 && fits ==>
                  match Judge(p, szAu, allow32)
                  case Take => r == Some(p)
                  case Give => r == None
                  case Again(szAu', fsty') =>
                    Budget(szAu', fsty') < Budget(szAu, fsty) ==> r == ChooseOf(bVol, szVol, szBlk, nFat, nRoot, szAu', fsty', allow32))
  {
    hide TentativeOf, LayOf, Judge, Budget;
  }

  lemma BudgetIs(szAu: nat, fsty: FatType)
    ensures Budget(szAu, fsty) == (if szAu == 0 then 1 else 0) + (if fsty == Fat16 then 1 else 0)
  {
  }

  /** The unit of one turn is the one asked for, or the automatic one. */
  lemma TurnUnit(bVol: u32, szVol: u32, szBlk: nat, nFat: nat, nRoot: nat, szAu: nat, fsty: FatType)
    requires (nFat == 1 || nFat == 2) && 0 < szBlk <= 0x8000 && TentativeOf(fsty, szAu, szVol, nRoot).1.pau > 0
    ensures LayOf(TentativeOf(fsty, szAu, szVol, nRoot).1, bVol, szVol, szBlk, nFat, nRoot).1.pau ==
            if szAu != 0 then szAu else if fsty == Fat32 then AutoFrom(CST32, szVol / 0x2_0000, 0, 1) else AutoFrom(CST, szVol / 0x1000, 0, 1)
    ensures fsty == Fat32 ==> LayOf(TentativeOf(fsty, szAu, szVol, nRoot).1, bVol, szVol, szBlk, nFat, nRoot).1.fsty == Fat32
  {
    hide AutoFrom, Wrap, Moved, ToNext, DataBase;
  }

  /** The cluster size of the plan: the one asked for; else the automatic one of its type, half
      of that on FAT32 or twice that of FAT. */
  lemma {:induction false} ChosenUnit(bVol: u32, szVol: u32, szBlk: nat, nFat: nat, nRoot: nat, szAu: nat, fsty: FatType, allow32: bool)
    requires (nFat == 1 || nFat == 2) && 0 < szBlk <= 0x8000
    requires ChooseOf(bVol, szVol, szBlk, nFat, nRoot, szAu, fsty, allow32).Some?
    ensures var p := ChooseOf(bVol, szVol, szBlk, nFat, nRoot, szAu, fsty, allow32).value;
            var small, large := AutoFrom(CST, szVol / 0x1000, 0, 1), AutoFrom(CST32, szVol / 0x2_0000, 0, 1);
            && (szAu != 0 ==> p.pau == szAu)
            && (szAu == 0 && fsty == Fat32 ==> p.pau == large || p.pau == large / 2)
            && (szAu == 0 && fsty != Fat32 ==> p.pau == small || p.pau == 2 * small || p.pau == large || p.pau == large / 2)
    decreases Budget(szAu, fsty)
  {
    TurnUnit(bVol, szVol, szBlk, nFat, nRoot, szAu, fsty);
    var d := TentativeOf(fsty, szAu, szVol, nRoot).1;
    var p := LayOf(d, bVol, szVol, szBlk, nFat, nRoot).1;
    var v := Judge(p, szAu, allow32);
    if v.Again? { ChosenUnit(bVol, szVol, szBlk, nFat, nRoot, v.szAu, v.fsty, allow32); }
    hide TentativeOf, LayOf, AutoFrom;
  }

  /** The do-while loop of f_mkfs: it retries with another cluster size or another type at
      most twice, and what it accepts is sound. */
  method Choose(bVol: u32, szVol: u32, szBlk: nat, nFat: nat, nRoot: nat, szAu0: nat, fsty0: FatType, allow32: bool)
      returns (ok: bool, p: Plan)
    requires bVol + szVol < 0x1_0000_0000 && 0 < szBlk <= 0x8000 && (nFat == 1 || nFat == 2)
    requires 0 < nRoot <= 32768 && nRoot % 16 == 0 && (szAu0 == 0 || IsUnit(szAu0)) && fsty0 != Fat12
    ensures (if ok then Some(p) else None) == ChooseOf(bVol, szVol, szBlk, nFat, nRoot, szAu0, fsty0, allow32)
    ensures ok ==> Sound(p, bVol, szVol, szBlk) && p.nFat == nFat && p.nRoot == nRoot && (szAu0 != 0 ==> p.pau == szAu0)
    ensures ok && fsty0 == Fat32 ==> p.fsty == Fat32
    ensures ok && fsty0 != Fat32 && !allow32 ==> p.fsty != Fat32
  {
    hide *;
    TypeLimits();
    var szAu: nat, fsty := szAu0, fsty0;
    p := Plan(fsty, 0, nFat, nRoot, 0, 0, 0, 0);
    while true
      invariant (szAu == 0 || IsUnit(szAu)) && fsty != Fat12 && (szAu0 != 0 ==> szAu == szAu0)
      invariant (fsty0 == Fat32 ==> fsty == Fat32) && (fsty0 != Fat32 && !allow32 ==> fsty != Fat32)
      invariant ChooseOf(bVol, szVol, szBlk, nFat, nRoot, szAu, fsty, allow32) == ChooseOf(bVol, szVol, szBlk, nFat, nRoot, szAu0, fsty0, allow32)
      decreases (if szAu == 0 then 1 else 0) + (if fsty == Fat16 then 1 else 0)
    {
      BudgetIs(szAu, fsty);
      var tried, d := Tentative(fsty, szAu, szVol, nRoot);
      if !tried {
        ChooseStep(bVol, szVol, szBlk, nFat, nRoot, szAu, fsty, allow32, tried, d, false, p);
        return false, p;
      }
      Units(d.pau);
      TentativeFacts(fsty, szAu, szVol, nRoot, d);
      DraftedOf(d, fsty, szVol, nRoot);
      var fits, nClst;
      fits, p, nClst := Lay(d, bVol, szVol, szBlk, nFat, nRoot);
      ChooseStep(bVol, szVol, szBlk, nFat, nRoot, szAu, fsty, allow32, tried, d, fits, p);
      JudgeIs(p, szAu, allow32);
      BudgetIs(d.pau / 2, Fat32);
      BudgetIs(d.pau * 2, Fat16);
      BudgetIs(szAu, Fat32);
      if !fits { return false, p; }
      if d.fsty == Fat32 {
        if nClst <= MaxClusters(Fat16) {
          if szAu == 0 && d.pau / 2 != 0 { szAu := d.pau / 2; fsty := Fat32; continue; }
          return false, p;
        }
      }
      if d.fsty == Fat16 {
        if nClst > MaxClusters(Fat16) {
          if szAu == 0 && d.pau * 2 <= 64 { szAu := d.pau * 2; continue; }
          if allow32 { fsty := Fat32; continue; }
          if szAu == 0 && d.pau * 2 <= 128 { szAu := d.pau * 2; continue; }
          return false, p;
        }
        if nClst <= MaxClusters(Fat12) {
          if szAu == 0 && d.pau * 2 <= 128 { szAu := d.pau * 2; continue; }
          return false, p;
        }
      }
      if d.fsty == Fat12 && nClst > MaxClusters(Fat12) { return false, p; }
      return true, p;
    }
  }

  lemma TypeLimits()
    ensures MaxClusters(Fat12) == 0xFF5 && MaxClusters(Fat16) == 0xFFF5 && MaxClusters(Fat32) == 0x0FFF_FFF5
  {
  }

  lemma Units(p: nat)
    requires IsUnit(p)
    ensures p >= 1 && (p / 2 != 0 ==> IsUnit(p / 2)) && (p * 2 <= 128 ==> IsUnit(p * 2))
  {
  }

  lemma DraftedOf(d: Draft, fsty0: FatType, szVol: u32, nRoot: nat)
    requires fsty0 != Fat12 && IsUnit(d.pau) && 0 < nRoot <= 32768
    requires fsty0 == Fat32 ==>
               && d.fsty == Fat32 && d.szRsv == 32 && d.szDir == 0
               && MaxClusters(Fat16) < Tries(szVol, d.pau) <= MaxClusters(Fat32)
               && d.szFat == (4 * Tries(szVol, d.pau) + 519) / 512
    requires fsty0 == Fat16 ==>
               && d.szRsv == 1 && nRoot == 16 * d.szDir
               && d.fsty == (if Tries(szVol, d.pau) > MaxClusters(Fat12) then Fat16 else Fat12)
               && d.szFat == Wrap((if d.fsty == Fat16 then Wrap(2 * Tries(szVol, d.pau) + 4) else (3 * Tries(szVol, d.pau) + 1) / 2 + 3) + 511) / 512
    ensures Drafted(d, szVol, nRoot) && (d.fsty == Fat32 <==> fsty0 == Fat32)
  {
  }

  /** The part of a turn that aligns the data area and counts the clusters. */
  method Lay(d: Draft, bVol: u32, szVol: u32, szBlk: nat, nFat: nat, nRoot: nat) returns (fits: bool, p: Plan, nClst: nat)
    requires Drafted(d, szVol, nRoot) && (nFat == 1 || nFat == 2) && 0 < szBlk <= 0x8000 && bVol + szVol < 0x1_0000_0000
    ensures p.fsty == d.fsty && p.pau == d.pau && p.nFat == nFat && p.nRoot == nRoot && p.nClst == nClst
    ensures d.pau > 0 && (fits, p) == LayOf(d, bVol, szVol, szBlk, nFat, nRoot)
    ensures fits && (nClst <= MaxClusters(Fat16) || d.fsty == Fat32)
              && (d.fsty == Fat12 ==> nClst <= MaxClusters(Fat12))
              && (d.fsty == Fat16 ==> nClst > MaxClusters(Fat12))
              && (d.fsty == Fat32 ==> nClst > MaxClusters(Fat16)) ==>
              Sound(p, bVol, szVol, szBlk)
  {
    hide *;
    SmallDraft(d, szVol, nRoot, nFat);
    DraftParts(d, szVol, nRoot, nFat);
    UnitMax(d.pau);
    Addresses(bVol, szVol, d.szRsv, d.szFat * nFat, d.szDir, d.pau * 32);
    var bFat := Wrap(bVol + d.szRsv);
    var bData := Wrap(Wrap(bFat + Wrap(d.szFat * nFat)) + d.szDir);
    var n := ToNext(bData, szBlk);
    var m := Moved(d, nFat, n);
    nClst := Wrap(szVol - m.0 - Wrap(m.1 * nFat) - d.szDir) / d.pau;
    p := Plan(d.fsty, d.pau, nFat, nRoot, m.0, m.1, d.szDir, nClst);
    fits := szVol >= Wrap(Wrap(bData + d.pau * 32) - bVol);
    LayIs(d, bVol, szVol, szBlk, nFat, nRoot);
    LayParts(d, bVol, m.0, m.1, szVol, nFat, nRoot);
    if fits && (nClst <= MaxClusters(Fat16) || d.fsty == Fat32)
       && (d.fsty == Fat12 ==> nClst <= MaxClusters(Fat12))
       && (d.fsty == Fat16 ==> nClst > MaxClusters(Fat12))
       && (d.fsty == Fat32 ==> nClst > MaxClusters(Fat16)) {
      Accepted(d, bVol, szVol, szBlk, nFat, nRoot, nClst);
    }
  }

  /** What the alignment does: it is tried exactly if 32 clusters fit before it, moves the data
      area by less than an erase block, and puts the sectors into the reserved area on FAT32 and,
      but for an odd one, into the FATs otherwise. */
  lemma LaidOut(d: Draft, bVol: u32, szVol: u32, szBlk: nat, nFat: nat, nRoot: nat)
    requires Drafted(d, szVol, nRoot) && (nFat == 1 || nFat == 2) && 0 < szBlk <= 0x8000 && bVol + szVol < 0x1_0000_0000
    ensures d.pau > 0
    ensures var (fits, p) := LayOf(d, bVol, szVol, szBlk, nFat, nRoot);
            && (fits <==> Before(d, nFat) + 32 * d.pau <= szVol)
            && (fits ==> Before(d, nFat) <= Overhead(p) < Before(d, nFat) + szBlk && p.szDir == d.szDir)
            && (fits ==> if d.fsty == Fat32 then p.szFat == d.szFat else d.szRsv <= p.szRsv <= d.szRsv + 1)
  {
    hide *;
    SmallDraft(d, szVol, nRoot, nFat);
    DraftParts(d, szVol, nRoot, nFat);
    UnitMax(d.pau);
    Addresses(bVol, szVol, d.szRsv, d.szFat * nFat, d.szDir, d.pau * 32);
    LayIs(d, bVol, szVol, szBlk, nFat, nRoot);
    var bData := DataBase(d, bVol, nFat);
    var m := Moved(d, nFat, ToNext(bData, szBlk));
    LayParts(d, bVol, m.0, m.1, szVol, nFat, nRoot);
    ToNextIs(bData, szBlk);
    OverheadIs(PlanWith(d, m.0, m.1, szVol, nFat, nRoot));
  }

  lemma OverheadIs(p: Plan)
    ensures Overhead(p) == p.szRsv + p.szFat * p.nFat + p.szDir
  {
  }

  lemma UnitMax(p: nat)
    requires IsUnit(p)
    ensures 0 < p <= 128
  {
  }
}
