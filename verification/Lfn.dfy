/** Long file names: how put_lfn spreads a name over directory entries, how pick_lfn and
    cmp_lfn read it back, and the sequence check of dir_find. */
module Lfn {
  import opened Base

  type u16 = x: int | 0 <= x < 65536

  type Slot = d: seq<byte> | |d| == 32 witness seq(32, _ => 0)

  const AM_LFN: byte := 0x0F

  /** LfnOfs: the offsets of the 13 units of an entry. */
  function Ofs(i: nat): (b: nat)
    requires i < 13
    ensures 0 < b <= 30
  {
    if i < 5 then 1 + 2 * i else if i < 11 then 14 + 2 * (i - 5) else 28 + 2 * (i - 11)
  }

  /** As in the table of the original. */
  lemma OfsTable(i: nat)
    requires i < 13
    ensures Ofs(i) == [1, 3, 5, 7, 9, 14, 16, 18, 20, 22, 24, 28, 30][i] && AM_LFN == 0x0F
  {
  }

  lemma OfsApart(i: nat, j: nat)
    requires i < 13 && j < 13 && i != j
    ensures Ofs(i) + 2 <= Ofs(j) || Ofs(j) + 2 <= Ofs(i)
  {
  }

  function Unit(d: Slot, i: nat): (u: u16)
    requires i < 13
  {
    Ld16(d, Ofs(i))
  }

  predicate IsLast(d: Slot) { d[0] / 64 % 2 == 1 }

  /** A name: 1 to 255 units, none of them 0 or 0xFFFF. */
  predicate IsName(m: seq<u16>) {
    0 < |m| <= 255 && forall i :: 0 <= i < |m| ==> m[i] != 0 && m[i] != 0xFFFF
  }

  /** A buffer that holds a name; what follows the terminator is stale. */
  predicate Holds(buf: seq<u16>, m: seq<u16>) {
    |m| < |buf| && buf[..|m|] == m && buf[|m|] == 0
  }

  /** Entries a name needs. */
  function Entries(m: seq<u16>): nat { (|m| + 12) / 13 }

  /** Enough entries, and none too many. */
  lemma EntriesOf(m: seq<u16>)
    ensures 13 * Entries(m) - 13 < |m| <= 13 * Entries(m)
  {
  }

  /** A name as it is spread over entries: its units, a terminator, filler. */
  function Cell(m: seq<u16>, k: nat): (u: u16)
    ensures u == if k < |m| then m[k] else if k == |m| then 0 else 0xFFFF
  {
    if k < |m| then m[k] else if k == |m| then 0 else 0xFFFF
  }

  /** d is entry ord of the name m, with checksum sum. */
  ghost predicate IsEntry(d: Slot, m: seq<u16>, ord: nat, sum: byte) {
    && 1 <= ord <= 20
    && d[0] as int == (if ord == Entries(m) then ord + 64 else ord)
    && d[11] == AM_LFN && d[12] == 0 && d[13] == sum && Ld16(d, 26) == 0
    && forall i :: 0 <= i < 13 ==> Unit(d, i) == Cell(m, 13 * (ord - 1) + i)
  }

  /** Stores into one unit leave the others and the header alone. */
  lemma UnitStored(d: Slot, i: nat, u: u16)
    requires i < 13
    ensures var r := St16(d, Ofs(i), u);
            && Ld16(r, Ofs(i)) == u
            && (forall j :: 0 <= j < 13 && j != i ==> Ld16(r, Ofs(j)) == Ld16(d, Ofs(j)))
            && r[0] == d[0] && r[11] == d[11] && r[12] == d[12] && r[13] == d[13] && Ld16(r, 26) == Ld16(d, 26)
  {
    St16ReadBack(d, Ofs(i), u);
    hide St16;
    forall j | 0 <= j < 13 && j != i
      ensures Ld16(St16(d, Ofs(i), u), Ofs(j)) == Ld16(d, Ofs(j))
    {
      OfsApart(i, j);
    }
  }

  lemma HeaderStored(d: Slot, sum: byte)
    ensures var h: Slot := d[13 := sum][11 := AM_LFN][12 := 0];
            var r := St16(h, 26, 0);
            r[11] == AM_LFN && r[12] == 0 && r[13] == sum && Ld16(r, 26) == 0
  {
    var h: Slot := d[13 := sum][11 := AM_LFN][12 := 0];
    St16ReadBack(h, 26, 0);
  }

  /** put_lfn. */
  method PutLfn(lfn: seq<u16>, dir: Slot, ord: nat, sum: byte, ghost m: seq<u16>) returns (r: Slot)
    requires IsName(m) && Holds(lfn, m) && 1 <= ord <= Entries(m)
    ensures IsEntry(r, m, ord, sum)
  {
    hide St16, Ld16;
    r := dir[13 := sum][11 := AM_LFN][12 := 0];
    HeaderStored(dir, sum);
    r := St16(r, 26, 0);
    var ni, di := 13 * (ord - 1), 0;
    var chr: u16 := 0;
    while di < 13
      invariant 0 <= di <= 13
      invariant chr == 0xFFFF <==> 13 * (ord - 1) + di > |m|
      invariant chr != 0xFFFF ==> ni == 13 * (ord - 1) + di
      invariant r[11] == AM_LFN && r[12] == 0 && r[13] == sum && Ld16(r, 26) == 0
      invariant forall i :: 0 <= i < di ==> Ld16(r, Ofs(i)) == Cell(m, 13 * (ord - 1) + i)
    {
      if chr != 0xFFFF {
        chr := lfn[ni];
        ni := ni + 1;
      }
      UnitStored(r, di, chr);
      r := St16(r, Ofs(di), chr);
      if chr == 0 { chr := 0xFFFF; }
      di := di + 1;
    }
    ghost var r0 := r;
    r := r[0 := if chr == 0xFFFF || lfn[ni] == 0 then ord + 64 else ord];
    HeadSet(r0, r[0]);
  }

  lemma HeadSet(r: Slot, h: byte)
    ensures Ld16(r[0 := h], 26) == Ld16(r, 26) && forall i :: 0 <= i < 13 ==> Ld16(r[0 := h], Ofs(i)) == Ld16(r, Ofs(i))
  {
  }

  // ---- reading an entry ----

  /** The first zero among the units, or 13. */
  function FirstZero(d: Slot, i: nat): (t: nat)
    requires i <= 13
    ensures i <= t <= 13 && (t < 13 ==> Unit(d, t) == 0) && forall j :: i <= j < t ==> Unit(d, j) != 0
    decreases 13 - i
  {
    if i == 13 || Unit(d, i) == 0 then i else FirstZero(d, i + 1)
  }

  /** Behind the terminator there is only filler. */
  predicate Filled(d: Slot) {
    forall i :: FirstZero(d, 0) < i < 13 ==> Unit(d, i) == 0xFFFF
  }

  /** Units taken from an entry: up to the terminator, that included. */
  function Taken(d: Slot): nat {
    if FirstZero(d, 0) < 13 then FirstZero(d, 0) + 1 else 13
  }

  /** (UINT)((ord & mask) - 1) * 13. */
  function NameOffset(ord: nat): (ni: nat)
    ensures ord > 0 && ord < 256 ==> ni == 13 * (ord - 1)
    ensures ord == 0 ==> ni > 65536
  {
    (ord + 0xFFFF_FFFF) % 0x1_0000_0000 * 13 % 0x1_0000_0000
  }

  /** The order number pick_lfn and dir_find see: the flag bit taken away. */
  function OrderOf(d: Slot): (o: nat)
    ensures o < 256
  {
    if IsLast(d) then d[0] as int - 64 else d[0]
  }

  /** pick_lfn with a buffer for names of up to max units: None if it is refused. */
  function Pick(buf: seq<u16>, d: Slot, max: nat): (r: Option<seq<u16>>)
    requires |buf| > max
    ensures r.Some? ==> |r.value| == |buf|
  {
    var ni, n := NameOffset(OrderOf(d)), Taken(d);
    if Ld16(d, 26) != 0 || !Filled(d) || ni + n > max + 1 then None
    else
      var b := buf[..ni] + seq(n, i requires 0 <= i < n => Unit(d, i)) + buf[ni + n..];
      if IsLast(d) && FirstZero(d, 0) == 13 then
        if ni + 13 >= max + 1 then None else Some(b[ni + 13 := 0])
      else Some(b)
  }

  lemma PickRefused(buf: seq<u16>, d: Slot, max: nat)
    requires |buf| > max
    requires var ni := NameOffset(OrderOf(d));
             Ld16(d, 26) != 0 || !Filled(d) || ni + Taken(d) > max + 1 || (IsLast(d) && FirstZero(d, 0) == 13 && ni + 13 >= max + 1)
    ensures Pick(buf, d, max).None?
  {
  }

  lemma PickDone(buf: seq<u16>, d: Slot, max: nat, r: seq<u16>)
    requires |buf| > max && |r| == |buf| && Ld16(d, 26) == 0 && Filled(d)
    requires var ni := NameOffset(OrderOf(d));
             && ni + Taken(d) <= max + 1
             && (IsLast(d) && FirstZero(d, 0) == 13 ==> ni + 13 < max + 1)
             && forall k :: 0 <= k < |r| ==>
                  r[k] == if ni <= k < ni + Taken(d) then Unit(d, k - ni)
                          else if IsLast(d) && FirstZero(d, 0) == 13 && k == ni + 13 then 0
                          else buf[k]
    ensures Pick(buf, d, max) == Some(r)
  {
    hide Ld16, NameOffset, FirstZero, Filled;
    assert Pick(buf, d, max).value == r;
  }

  lemma TakenIs(d: Slot)
    ensures Taken(d) == if FirstZero(d, 0) < 13 then FirstZero(d, 0) + 1 else 13
    ensures Filled(d) <==> forall i :: FirstZero(d, 0) < i < 13 ==> Unit(d, i) == 0xFFFF
    ensures forall i :: 0 <= i < 13 ==> Unit(d, i) == Ld16(d, Ofs(i))
  {
  }

  /** pick_lfn. */
  method PickLfn(lfnbuf: array<u16>, dir: Slot, max: nat) returns (ok: bool)
    requires lfnbuf.Length > max
    modifies lfnbuf
    ensures old(Pick(lfnbuf[..], dir, max)) == if ok then Some(lfnbuf[..]) else None
  {
    hide *;
    ghost var b0, t := lfnbuf[..], FirstZero(dir, 0);
    TakenIs(dir);
    if Ld16(dir, 26) != 0 { PickRefused(b0, dir, max); return false; }
    var n0 := NameOffset(OrderOf(dir));
    var ni, di := n0, 0;
    var pchr: u16 := 1;
    while di < 13
      invariant 0 <= di <= 13
      invariant pchr == 0 <==> di > t
      invariant ni == n0 + (if di > t then t + 1 else di) && (di > 0 ==> ni <= max + 1)
      invariant forall k :: 0 <= k < lfnbuf.Length ==> lfnbuf[k] == if n0 <= k < ni then Unit(dir, k - n0) else b0[k]
      invariant forall i :: t < i < di ==> Unit(dir, i) == 0xFFFF
    {
      var chr: u16 := Ld16(dir, Ofs(di));
      assert chr == Unit(dir, di);
      if pchr != 0 {
        if ni >= max + 1 { PickRefused(b0, dir, max); return false; }
        pchr := chr;
        lfnbuf[ni] := chr;
        ni := ni + 1;
      } else {
        if chr != 0xFFFF { PickRefused(b0, dir, max); return false; }
      }
      di := di + 1;
    }
    if IsLast(dir) && pchr != 0 {
      if ni >= max + 1 { PickRefused(b0, dir, max); return false; }
      lfnbuf[ni] := 0;
    }
    PickDone(b0, dir, max, lfnbuf[..]);
    ok := true;
  }

  // ---- round trip ----

  lemma EntryShape(d: Slot, m: seq<u16>, ord: nat, sum: byte)
    requires IsName(m) && IsEntry(d, m, ord, sum) && ord <= Entries(m)
    ensures OrderOf(d) == ord && NameOffset(ord) == 13 * (ord - 1) && IsLast(d) == (ord == Entries(m))
    ensures FirstZero(d, 0) == (if 13 * ord > |m| then |m| - 13 * (ord - 1) else 13)
    ensures Filled(d)
  {
    hide Ld16;
    var t := FirstZero(d, 0);
    var k := 13 * (ord - 1);
    assert k <= |m|;
    if t < 13 { assert Unit(d, t) == Cell(m, 13 * (ord - 1) + t) == 0; }
    if 13 * ord > |m| {
      var e := |m| - k;
      assert Unit(d, e) == Cell(m, 13 * (ord - 1) + e) == 0;
    }
  }

  /** Picking up entry ord puts its part of the name in place, and the terminator if it is
      the last one; nothing behind it is touched, and nothing before it. */
  lemma PickedPart(buf: seq<u16>, d: Slot, m: seq<u16>, ord: nat, sum: byte, max: nat)
    requires IsName(m) && |m| <= max < |buf| && IsEntry(d, m, ord, sum) && ord <= Entries(m)
    requires ord < Entries(m) ==> forall k :: 13 * ord <= k <= |m| ==> buf[k] == if k < |m| then m[k] else 0
    ensures var r := Pick(buf, d, max);
            r.Some? && forall k :: 13 * (ord - 1) <= k <= |m| ==> r.value[k] == if k < |m| then m[k] else 0
  {
    EntryShape(d, m, ord, sum);
    hide Ld16, NameOffset, FirstZero, Filled;
    var k0 := 13 * (ord - 1);
    assert forall i :: 0 <= i < 13 ==> Unit(d, i) == Cell(m, 13 * (ord - 1) + i);
  }

  /** The buffer after all entries from order n down to 1 have been picked up. */
  function PickAll(buf: seq<u16>, run: seq<Slot>, max: nat): (r: Option<seq<u16>>)
    requires |buf| > max
    ensures r.Some? ==> |r.value| == |buf|
  {
    if run == [] then Some(buf)
    else
      var b := PickAll(buf, run[..|run| - 1], max);
      if b.None? then None else Pick(b.value, run[|run| - 1], max)
  }

  /** The entries in the order dir_register stores them: the last part of the name first. */
  ghost predicate IsRun(run: seq<Slot>, m: seq<u16>, sum: byte) {
    |run| == Entries(m) && forall i :: 0 <= i < |run| ==> IsEntry(run[i], m, |run| - i, sum)
  }

  lemma {:induction false} PickedSoFar(buf: seq<u16>, run: seq<Slot>, m: seq<u16>, sum: byte, max: nat, n: nat)
    requires IsName(m) && |m| <= max < |buf| && IsRun(run, m, sum) && 1 <= n <= |run|
    ensures var r := PickAll(buf, run[..n], max);
            r.Some? && forall k :: 13 * (|run| - n) <= k <= |m| ==> r.value[k] == if k < |m| then m[k] else 0
  {
    hide IsEntry, Pick, IsName;
    assert run[..n][..n - 1] == run[..n - 1];
    if n > 1 {
      PickedSoFar(buf, run, m, sum, max, n - 1);
      PickedPart(PickAll(buf, run[..n - 1], max).value, run[n - 1], m, |run| - (n - 1), sum, max);
    } else {
      PickedPart(buf, run[0], m, |run|, sum, max);
    }
  }

  /** Round trip: every name that fits the buffer comes back exactly, whatever the buffer
      held before. */
  lemma NameComesBack(buf: seq<u16>, run: seq<Slot>, m: seq<u16>, sum: byte, max: nat)
    requires IsName(m) && |m| <= max < |buf| && IsRun(run, m, sum)
    ensures var r := PickAll(buf, run, max); r.Some? && Holds(r.value, m)
  {
    PickedSoFar(buf, run, m, sum, max, |run|);
    assert run[..|run|] == run;
  }

  /** The loop of dir_register that stores the entries, last part first. */
  method StoreRun(lfn: seq<u16>, slots: seq<Slot>, sum: byte, ghost m: seq<u16>) returns (run: seq<Slot>)
    requires IsName(m) && Holds(lfn, m) && |slots| == Entries(m)
    ensures IsRun(run, m, sum)
  {
    run := [];
    var nEnt := |slots|;
    while nEnt > 0
      invariant 0 <= nEnt <= |slots| == Entries(m) && |run| == |slots| - nEnt
      invariant forall i :: 0 <= i < |run| ==> IsEntry(run[i], m, |slots| - i, sum)
    {
      hide IsEntry;
      var d := PutLfn(lfn, slots[|run|], nEnt, sum, m);
      run := run + [d];
      nEnt := nEnt - 1;
    }
  }

  // ---- comparing ----

  /** Case folding may do anything to a unit but turn it into 0. */
  ghost predicate IsFold(fold: u16 -> u16) {
    forall c: u16 :: fold(c) == 0 <==> c == 0
  }

  /** The comparison of cmp_lfn as it would be in a buffer with one more cell behind
      FF_MAX_LFN + 1, where its last test can look. */
  function Matches(buf: seq<u16>, d: Slot, max: nat, fold: u16 -> u16): bool
    requires |buf| > max + 1
  {
    var ni, n := NameOffset(d[0] % 64), Taken(d);
    && Ld16(d, 26) == 0
    && Filled(d)
    && ni + n <= max + 1
    && (forall i :: 0 <= i < n ==> fold(Unit(d, i)) == fold(buf[ni + i]))
    && (IsLast(d) && FirstZero(d, 0) == 13 ==> buf[ni + 13] == 0)
  }

  lemma MatchesIs(buf: seq<u16>, d: Slot, max: nat, fold: u16 -> u16)
    requires |buf| > max + 1
    ensures Matches(buf, d, max, fold) <==>
              var ni, n := NameOffset(d[0] % 64), Taken(d);
              && Ld16(d, 26) == 0 && Filled(d) && ni + n <= max + 1
              && (forall i :: 0 <= i < n ==> fold(Unit(d, i)) == fold(buf[ni + i]))
              && (IsLast(d) && FirstZero(d, 0) == 13 ==> buf[ni + 13] == 0)
  {
  }

  /** cmp_lfn in the buffer of FF_MAX_LFN + 1 cells that the code has: None if the last test
      looks at the cell behind it. */
  function Compare(buf: seq<u16>, d: Slot, max: nat, fold: u16 -> u16): (r: Option<bool>)
    requires |buf| == max + 1
  {
    var ni, n := NameOffset(d[0] % 64), Taken(d);
    if Ld16(d, 26) != 0 || !Filled(d) || ni + n > max + 1 || exists i :: 0 <= i < n && fold(Unit(d, i)) != fold(buf[ni + i]) then Some(false)
    else if !IsLast(d) || FirstZero(d, 0) < 13 then Some(true)
    else if ni + 13 == max + 1 then None
    else Some(buf[ni + 13] == 0)
  }

  /** None is right: exactly then the outcome depends on the cell behind the buffer. */
  lemma CompareIs(buf: seq<u16>, d: Slot, max: nat, fold: u16 -> u16, x: u16)
    requires |buf| == max + 1
    ensures Compare(buf, d, max, fold) == Some(Matches(buf + [x], d, max, fold)) || (Compare(buf, d, max, fold).None? && Matches(buf + [x], d, max, fold) == (x == 0))
    ensures Compare(buf, d, max, fold).None? <==>
              var ni, n := NameOffset(d[0] % 64), Taken(d);
              && Ld16(d, 26) == 0 && Filled(d) && IsLast(d) && FirstZero(d, 0) == 13 && ni + 13 == max + 1
              && forall i :: 0 <= i < n ==> fold(Unit(d, i)) == fold(buf[ni + i])
  {
    hide Ld16, NameOffset, FirstZero, Filled;
  }

  lemma CompareParts(buf: seq<u16>, d: Slot, max: nat, fold: u16 -> u16)
    requires |buf| == max + 1
    ensures var ni, n := NameOffset(d[0] % 64), Taken(d);
            && (Ld16(d, 26) != 0 || !Filled(d) || ni + n > max + 1 ==> Compare(buf, d, max, fold) == Some(false))
            && (ni + n <= max + 1 && (exists i :: 0 <= i < n && fold(Unit(d, i)) != fold(buf[ni + i])) ==> Compare(buf, d, max, fold) == Some(false))
            && (Ld16(d, 26) == 0 && Filled(d) && ni + n <= max + 1 && (forall i :: 0 <= i < n ==> fold(Unit(d, i)) == fold(buf[ni + i])) ==>
                  Compare(buf, d, max, fold) ==
                  if !IsLast(d) || FirstZero(d, 0) < 13 then Some(true)
                  else if ni + 13 == max + 1 then None
                  else Some(buf[ni + 13] == 0))
  {
    hide Ld16, NameOffset, FirstZero, Filled;
  }

  /** cmp_lfn. */
  method CmpLfn(lfnbuf: seq<u16>, dir: Slot, max: nat, fold: u16 -> u16) returns (r: Option<bool>)
    requires |lfnbuf| == max + 1
    ensures r == Compare(lfnbuf, dir, max, fold)
  {
    hide *;
    ghost var t := FirstZero(dir, 0);
    TakenIs(dir);
    CompareParts(lfnbuf, dir, max, fold);
    if Ld16(dir, 26) != 0 { return Some(false); }
    var n0 := NameOffset(dir[0] % 64);
    var ni, di := n0, 0;
    var pchr: u16 := 1;
    while di < 13
      invariant 0 <= di <= 13
      invariant pchr == 0 <==> di > t
      invariant ni == n0 + (if di > t then t + 1 else di) && (di > 0 ==> ni <= max + 1)
      invariant forall i :: 0 <= i < ni - n0 ==> fold(Unit(dir, i)) == fold(lfnbuf[n0 + i])
      invariant forall i :: t < i < di ==> Unit(dir, i) == 0xFFFF
    {
      var chr: u16 := Ld16(dir, Ofs(di));
      assert chr == Unit(dir, di);
      if pchr != 0 {
        if ni >= max + 1 || fold(chr) != fold(lfnbuf[ni]) { return Some(false); }
        ni := ni + 1;
        pchr := chr;
      } else {
        if chr != 0xFFFF { return Some(false); }
      }
      di := di + 1;
    }
    if IsLast(dir) && pchr != 0 {
      if ni == |lfnbuf| { return None; } // reads behind the buffer
      if lfnbuf[ni] != 0 { return Some(false); }
    }
    r := Some(true);
  }

  /** Same name but for case. */
  ghost predicate SameName(a: seq<u16>, b: seq<u16>, fold: u16 -> u16) {
    |a| == |b| && forall i :: 0 <= i < |a| ==> fold(a[i]) == fold(b[i])
  }

  /** Entry ord of a run, which is stored last part first. */
  function EntryOf(run: seq<Slot>, ord: nat): Slot
    requires 1 <= ord <= |run|
  {
    run[|run| - ord]
  }

  ghost predicate RunMatches(buf: seq<u16>, run: seq<Slot>, max: nat, fold: u16 -> u16)
    requires |buf| > max + 1
  {
    forall i :: 0 <= i < |run| ==> Matches(buf, run[i], max, fold)
  }

  /** Cells a to b - 1 of the name are in the buffer, but for case. */
  ghost predicate PartSame(buf: seq<u16>, m: seq<u16>, a: nat, b: nat, max: nat, fold: u16 -> u16)
    requires |buf| > max + 1
  {
    b <= max + 1 && forall k :: a <= k < b ==> fold(Cell(m, k)) == fold(buf[k])
  }

  /** Where the cells of entry ord end, filler not counted. */
  function PartEnd(m: seq<u16>, ord: nat): nat {
    if 13 * ord <= |m| then 13 * ord else |m| + 1
  }

  /** What an accepted entry says about the buffer. */
  lemma AcceptedPart(buf: seq<u16>, d: Slot, m: seq<u16>, ord: nat, sum: byte, max: nat, fold: u16 -> u16)
    requires IsName(m) && |buf| > max + 1 && IsEntry(d, m, ord, sum) && ord <= Entries(m)
    ensures PartEnd(m, ord) <= max + 1 && 13 * ord == |m| ==> |m| < |buf|
    ensures Matches(buf, d, max, fold) <==>
              PartSame(buf, m, 13 * (ord - 1), PartEnd(m, ord), max, fold) && (13 * ord == |m| ==> buf[|m|] == 0)
  {
    hide *;
    EntryShape(d, m, ord, sum);
    LengthOf(m, ord);
    EntryTaken(d, m, ord);
    AcceptedCells(buf, d, m, ord, sum, max, fold);
  }

  lemma EntryTaken(d: Slot, m: seq<u16>, ord: nat)
    requires 1 <= ord <= Entries(m) && FirstZero(d, 0) == (if 13 * ord > |m| then |m| - 13 * (ord - 1) else 13)
    ensures 13 * (ord - 1) + Taken(d) == PartEnd(m, ord) && 13 * (ord - 1) + 13 == 13 * ord
    ensures FirstZero(d, 0) == 13 <==> 13 * ord <= |m|
  {
  }

  lemma AcceptedCells(buf: seq<u16>, d: Slot, m: seq<u16>, ord: nat, sum: byte, max: nat, fold: u16 -> u16)
    requires IsName(m) && |buf| > max + 1 && IsEntry(d, m, ord, sum) && ord <= Entries(m)
    ensures Taken(d) <= 13 && 13 * (ord - 1) + Taken(d) <= max + 1 && FirstZero(d, 0) == 13 ==> 13 * ord < |buf|
    ensures Matches(buf, d, max, fold) <==>
              && PartSame(buf, m, 13 * (ord - 1), 13 * (ord - 1) + Taken(d), max, fold)
              && (IsLast(d) && FirstZero(d, 0) == 13 ==> buf[13 * ord] == 0)
  {
    hide *;
    EntryShape(d, m, ord, sum);
    EntryParts(d, m, ord, sum);
    TakenIs(d);
    MatchesIs(buf, d, max, fold);
    PartIs(buf, d, m, 13 * (ord - 1), Taken(d), max, fold);
  }

  lemma LengthOf(m: seq<u16>, ord: nat)
    requires 1 <= ord <= Entries(m)
    ensures PartEnd(m, ord) == if 13 * ord <= |m| then 13 * ord else |m| + 1
    ensures 13 * (ord - 1) < |m| && (ord == Entries(m) ==> |m| <= 13 * ord)
    ensures ord < Entries(m) ==> 13 * ord < |m|
  {
  }

  lemma EntryParts(d: Slot, m: seq<u16>, ord: nat, sum: byte)
    requires IsEntry(d, m, ord, sum) && ord <= Entries(m)
    ensures 1 <= ord <= 20 && d[0] % 64 == ord && Ld16(d, 26) == 0 && d[13] == sum
    ensures forall i :: 0 <= i < 13 ==> Unit(d, i) == Cell(m, 13 * (ord - 1) + i)
  {
  }

  lemma PartIs(buf: seq<u16>, d: Slot, m: seq<u16>, k0: nat, n: nat, max: nat, fold: u16 -> u16)
    requires |buf| > max + 1 && n <= 13 && forall i :: 0 <= i < 13 ==> Unit(d, i) == Cell(m, k0 + i)
    ensures PartSame(buf, m, k0, k0 + n, max, fold) <==>
              k0 + n <= max + 1 && forall i :: 0 <= i < n ==> fold(Unit(d, i)) == fold(buf[k0 + i])
  {
    hide Unit;
    if k0 + n <= max + 1 && forall i :: 0 <= i < n ==> fold(Unit(d, i)) == fold(buf[k0 + i]) {
      forall k | k0 <= k < k0 + n
        ensures fold(Cell(m, k)) == fold(buf[k])
      {
        var i := k - k0;
        assert fold(Unit(d, i)) == fold(buf[k0 + i]);
      }
    }
  }

  /** All parts together are the whole name, terminator included. */
  lemma AllParts(buf: seq<u16>, m: seq<u16>, max: nat, fold: u16 -> u16)
    requires IsName(m) && |buf| > max + 1 && IsFold(fold)
    requires forall ord :: 1 <= ord <= Entries(m) ==> PartSame(buf, m, 13 * (ord - 1), PartEnd(m, ord), max, fold)
    requires 13 * Entries(m) == |m| ==> |m| < |buf| && buf[|m|] == 0
    ensures |m| <= max + 1 && buf[|m|] == 0 && forall k :: 0 <= k < |m| ==> fold(m[k]) == fold(buf[k])
  {
    LengthOf(m, Entries(m));
    assert PartSame(buf, m, 13 * (Entries(m) - 1), PartEnd(m, Entries(m)), max, fold);
    hide PartSame, Cell, PartEnd;
    if 13 * Entries(m) != |m| { CellSame(buf, m, Entries(m), |m|, max, fold); }
    forall k | 0 <= k < |m|
      ensures fold(m[k]) == fold(buf[k])
    {
      var ord := k / 13 + 1;
      CellSame(buf, m, ord, k, max, fold);
    }
  }

  lemma CellSame(buf: seq<u16>, m: seq<u16>, ord: nat, k: nat, max: nat, fold: u16 -> u16)
    requires |buf| > max + 1 && 1 <= ord && 13 * (ord - 1) <= k < 13 * ord && k <= |m|
    requires PartSame(buf, m, 13 * (ord - 1), PartEnd(m, ord), max, fold)
    ensures k <= max && fold(Cell(m, k)) == fold(buf[k])
  {
  }

  /** The whole name gives all parts. */
  lemma PartOfWhole(buf: seq<u16>, m: seq<u16>, ord: nat, max: nat, fold: u16 -> u16)
    requires |m| <= max && |buf| > max + 1 && 1 <= ord <= Entries(m) && buf[|m|] == 0
    requires forall k :: 0 <= k < |m| ==> fold(m[k]) == fold(buf[k])
    ensures PartSame(buf, m, 13 * (ord - 1), PartEnd(m, ord), max, fold)
  {
  }

  /** In the wider buffer the whole run of a stored name is accepted exactly if the sought
      name is equal to it under case folding. */
  lemma WiderIffSame(buf: seq<u16>, s: seq<u16>, run: seq<Slot>, m: seq<u16>, sum: byte, max: nat, fold: u16 -> u16)
    requires IsName(m) && IsRun(run, m, sum) && IsFold(fold)
    requires |buf| > max + 1 && IsName(s) && |s| <= max && Holds(buf, s)
    ensures RunMatches(buf, run, max, fold) <==> SameName(s, m, fold)
  {
    forall ord | 1 <= ord <= Entries(m)
      ensures PartEnd(m, ord) <= max + 1 && 13 * ord == |m| ==> |m| < |buf|
      ensures Matches(buf, EntryOf(run, ord), max, fold) <==>
                PartSame(buf, m, 13 * (ord - 1), PartEnd(m, ord), max, fold) && (13 * ord == |m| ==> buf[|m|] == 0)
    {
      AcceptedPart(buf, EntryOf(run, ord), m, ord, sum, max, fold);
    }
    hide *;
    RunParts(run, m, sum);
    if RunMatches(buf, run, max, fold) {
      RunMatchesAll(buf, run, max, fold);
      PartsFit(buf, m, max, fold);
      AllParts(buf, m, max, fold);
      SameOf(buf, s, m, max, fold);
    }
    if SameName(s, m, fold) {
      SameWhole(buf, s, m, fold);
      forall ord | 1 <= ord <= Entries(m)
        ensures Matches(buf, EntryOf(run, ord), max, fold)
      {
        PartOfWhole(buf, m, ord, max, fold);
      }
      RunMatchesOf(buf, run, max, fold);
    }
  }

  lemma PartsFit(buf: seq<u16>, m: seq<u16>, max: nat, fold: u16 -> u16)
    requires IsName(m) && |buf| > max + 1 && PartSame(buf, m, 13 * (Entries(m) - 1), PartEnd(m, Entries(m)), max, fold)
    ensures 1 <= Entries(m) && |m| < |buf|
  {
  }

  lemma RunParts(run: seq<Slot>, m: seq<u16>, sum: byte)
    requires IsRun(run, m, sum) && IsName(m)
    ensures |run| == Entries(m) > 0
  {
  }

  lemma RunMatchesAll(buf: seq<u16>, run: seq<Slot>, max: nat, fold: u16 -> u16)
    requires |buf| > max + 1 && RunMatches(buf, run, max, fold)
    ensures forall ord :: 1 <= ord <= |run| ==> Matches(buf, EntryOf(run, ord), max, fold)
  {
  }

  lemma RunMatchesOf(buf: seq<u16>, run: seq<Slot>, max: nat, fold: u16 -> u16)
    requires |buf| > max + 1 && forall ord :: 1 <= ord <= |run| ==> Matches(buf, EntryOf(run, ord), max, fold)
    ensures RunMatches(buf, run, max, fold)
  {
    forall i | 0 <= i < |run|
      ensures Matches(buf, run[i], max, fold)
    {
      var ord := |run| - i;
      assert EntryOf(run, ord) == run[i];
    }
  }

  lemma SameOf(buf: seq<u16>, s: seq<u16>, m: seq<u16>, max: nat, fold: u16 -> u16)
    requires IsName(s) && IsName(m) && Holds(buf, s) && IsFold(fold) && |m| < |buf| && buf[|m|] == 0
    requires forall k :: 0 <= k < |m| ==> fold(m[k]) == fold(buf[k])
    ensures SameName(s, m, fold)
  {
    assert forall k :: 0 <= k < |s| ==> s[k] == buf[k];
  }

  lemma SameWhole(buf: seq<u16>, s: seq<u16>, m: seq<u16>, fold: u16 -> u16)
    requires Holds(buf, s) && SameName(s, m, fold)
    ensures |m| == |s| < |buf| && buf[|m|] == 0 && forall k :: 0 <= k < |m| ==> fold(m[k]) == fold(buf[k])
  {
    assert forall k :: 0 <= k < |s| ==> s[k] == buf[k];
  }

  // ---- staying inside the buffer ----

  /** The stored name is one unit longer than any that can be sought, fills its last entry,
      and that part of it is what stale cells of the buffer hold. */
  ghost predicate PastEnd(buf: seq<u16>, m: seq<u16>, max: nat, fold: u16 -> u16)
    requires |buf| == max + 1
  {
    |m| == max + 1 && |m| % 13 == 0 && forall k :: |m| - 13 <= k < |m| && k >= 0 ==> fold(m[k]) == fold(buf[k])
  }

  /** Only the first entry stored of such a name makes cmp_lfn look behind the buffer. */
  lemma EntryInside(buf: seq<u16>, run: seq<Slot>, m: seq<u16>, sum: byte, max: nat, fold: u16 -> u16, i: nat)
    requires IsName(m) && IsRun(run, m, sum) && |buf| == max + 1 && i < |run|
    ensures Compare(buf, run[i], max, fold).None? <==> i == 0 && PastEnd(buf, m, max, fold)
  {
    var ord, d := |run| - i, run[i];
    EntryShape(d, m, ord, sum);
    EntryParts(d, m, ord, sum);
    EntryTaken(d, m, ord);
    LengthOf(m, ord);
    CompareIs(buf, d, max, fold, 0);
    RunParts(run, m, sum);
    hide *;
    if i == 0 && 13 * ord == |m| == max + 1 {
      FullPart(buf, d, m, ord, max, fold);
    } else {
      NotFull(buf, m, ord, max, fold);
    }
  }

  lemma FullPart(buf: seq<u16>, d: Slot, m: seq<u16>, ord: nat, max: nat, fold: u16 -> u16)
    requires |buf| == max + 1 == |m| == 13 * ord && ord >= 1
    requires forall j :: 0 <= j < 13 ==> Unit(d, j) == Cell(m, 13 * (ord - 1) + j)
    ensures PastEnd(buf, m, max, fold) <==> forall j :: 0 <= j < 13 ==> fold(Unit(d, j)) == fold(buf[13 * (ord - 1) + j])
  {
    hide Unit;
    if forall j :: 0 <= j < 13 ==> fold(Unit(d, j)) == fold(buf[13 * (ord - 1) + j]) {
      forall k | |m| - 13 <= k < |m|
        ensures fold(m[k]) == fold(buf[k])
      {
        var j := k - (|m| - 13);
        assert fold(Unit(d, j)) == fold(buf[13 * (ord - 1) + j]);
      }
    }
  }

  lemma NotFull(buf: seq<u16>, m: seq<u16>, ord: nat, max: nat, fold: u16 -> u16)
    requires |buf| == max + 1
    ensures PastEnd(buf, m, max, fold) ==> |m| == max + 1 && 13 * Entries(m) == |m|
  {
  }

  ghost predicate RunAccepted(buf: seq<u16>, run: seq<Slot>, max: nat, fold: u16 -> u16)
    requires |buf| == max + 1
  {
    forall i :: 0 <= i < |run| ==> Compare(buf, run[i], max, fold) == Some(true)
  }

  /** cmp_lfn accepts the whole run of a stored name exactly if the sought name is equal to
      it under case folding, whatever stale data follows the sought name. */
  lemma AcceptedIffSame(buf: seq<u16>, s: seq<u16>, run: seq<Slot>, m: seq<u16>, sum: byte, max: nat, fold: u16 -> u16)
    requires IsName(m) && IsRun(run, m, sum) && IsFold(fold)
    requires |buf| == max + 1 && IsName(s) && |s| <= max && Holds(buf, s)
    ensures RunAccepted(buf, run, max, fold) <==> SameName(s, m, fold)
  {
    hide *;
    RunParts(run, m, sum);
    HoldsWider(buf, s);
    WiderIffSame(buf + [0], s, run, m, sum, max, fold);
    EntryInside(buf, run, m, sum, max, fold, 0);
    WiderSame(buf, run, max, fold);
    if SameName(s, m, fold) {
      SameLengths(buf, s, m, max, fold);
      forall i | 0 <= i < |run|
        ensures Compare(buf, run[i], max, fold).Some?
      {
        EntryInside(buf, run, m, sum, max, fold, i);
      }
    }
  }

  lemma SameLengths(buf: seq<u16>, s: seq<u16>, m: seq<u16>, max: nat, fold: u16 -> u16)
    requires |buf| == max + 1 && |s| <= max && SameName(s, m, fold)
    ensures !PastEnd(buf, m, max, fold)
  {
  }

  lemma HoldsWider(buf: seq<u16>, s: seq<u16>)
    requires Holds(buf, s)
    ensures Holds(buf + [0], s)
  {
  }

  lemma WiderSame(buf: seq<u16>, run: seq<Slot>, max: nat, fold: u16 -> u16)
    requires |buf| == max + 1
    ensures RunAccepted(buf, run, max, fold) ==> RunMatches(buf + [0], run, max, fold)
    ensures RunMatches(buf + [0], run, max, fold) && (forall i :: 0 <= i < |run| ==> Compare(buf, run[i], max, fold).Some?) ==>
              RunAccepted(buf, run, max, fold)
  {
    forall i | 0 <= i < |run|
      ensures Compare(buf, run[i], max, fold).Some? ==> Compare(buf, run[i], max, fold) == Some(Matches(buf + [0], run[i], max, fold))
    {
      CompareIs(buf, run[i], max, fold, 0);
    }
    hide Compare, Matches;
  }

  /** cmp_lfn never looks behind a buffer that holds some name, whatever entry it is given. */
  ghost predicate AlwaysInside(max: nat, fold: u16 -> u16) {
    forall buf: seq<u16>, d: Slot, s: seq<u16> ::
      |buf| == max + 1 && IsName(s) && |s| <= max && Holds(buf, s) ==> Compare(buf, d, max, fold).Some?
  }

  /** It does so exactly if FF_MAX_LFN + 1 is not a multiple of 13 other than 13 itself. */
  lemma InsideIff(max: nat, fold: u16 -> u16)
    requires IsFold(fold) && max <= 255
    ensures AlwaysInside(max, fold) <==> (max + 1) % 13 != 0 || max + 1 == 13
  {
    if (max + 1) % 13 == 0 && max + 1 != 13 {
      var buf, d := LooksBehind(max, fold);
      hide Compare;
      assert Holds(buf, [0x4141]) && IsName([0x4141]);
      assert Compare(buf, d, max, fold).None?;
    } else {
      forall buf: seq<u16>, d: Slot, s: seq<u16> | |buf| == max + 1 && IsName(s) && |s| <= max && Holds(buf, s)
        ensures Compare(buf, d, max, fold).Some?
      {
        NeverLooksBehind(buf, d, s, max, fold);
      }
    }
  }

  lemma NeverLooksBehind(buf: seq<u16>, d: Slot, s: seq<u16>, max: nat, fold: u16 -> u16)
    requires IsFold(fold) && |buf| == max + 1 <= 256 && IsName(s) && |s| <= max && Holds(buf, s)
    requires (max + 1) % 13 != 0 || max + 1 == 13
    ensures Compare(buf, d, max, fold).Some?
  {
    var ni, k := NameOffset(d[0] % 64), |s|;
    CompareIs(buf, d, max, fold, 0);
    TakenIs(d);
    hide NameOffset, Ld16, Compare, Filled, IsFold;
    if FirstZero(d, 0) == 13 && ni == 0 && max == 12 {
      FoldZero(fold, Unit(d, k));
      assert buf[ni + k] == 0 && fold(Unit(d, k)) != fold(buf[ni + k]);
    }
  }

  lemma FoldZero(fold: u16 -> u16, u: u16)
    requires IsFold(fold)
    ensures fold(0) == 0 && (fold(u) == 0 ==> u == 0)
  {
  }

  /** The last entry of a name of 13 * k units, all of them 0x4141. */
  function FullEntry(k: nat): (d: Slot)
    requires k < 64
  {
    seq(32, i => if i == 0 then 64 + k else if i == 11 then AM_LFN else if i == 12 || i == 26 || i == 27 then 0 else 0x41)
  }

  lemma FullEntryIs(k: nat)
    requires 0 < k < 64
    ensures var d := FullEntry(k);
            && d[0] % 64 == k && IsLast(d) && Ld16(d, 26) == 0 && FirstZero(d, 0) == 13
            && forall i :: 0 <= i < 13 ==> Unit(d, i) == 0x4141
  {
    var d := FullEntry(k);
    assert Ld16(d, 26) == 0;
    forall i | 0 <= i < 13
      ensures Unit(d, i) == 0x4141
    {
      assert d[Ofs(i)] == 0x41 && d[Ofs(i) + 1] == 0x41;
    }
  }

  /** An input that makes it look there: a name of one unit with stale cells behind it, and
      the last entry of a longer name whose units are those cells. */
  lemma LooksBehind(max: nat, fold: u16 -> u16) returns (buf: seq<u16>, d: Slot)
    requires max <= 255 && (max + 1) % 13 == 0 && max + 1 != 13
    ensures |buf| == max + 1 && Holds(buf, [0x4141]) && d == FullEntry((max + 1) / 13)
    ensures Compare(buf, d, max, fold).None?
  {
    buf := seq(max + 1, i => if i == 1 then 0 else 0x4141);
    var k := (max + 1) / 13;
    d := FullEntry(k);
    FullEntryIs(k);
    assert NameOffset(k) == 13 * (k - 1);
    TakenIs(d);
    CompareIs(buf, d, max, fold, 0);
    hide NameOffset, Ld16, Compare, Filled, FullEntry, Unit, FirstZero;
  }

  /** With FF_MAX_LFN at its default of 64 the entry has order 5. */
  lemma DefaultLooksBehind(fold: u16 -> u16) returns (buf: seq<u16>, d: Slot)
    ensures |buf| == 65 && Holds(buf, [0x4141]) && d[0] == 0x45 && Compare(buf, d, 64, fold).None?
  {
    buf, d := LooksBehind(64, fold);
  }

  // ---- the sequence check of dir_find ----

  datatype Seek = Seek(ord: nat, sum: byte)

  /** What dir_find does with one LFN entry; None if cmp_lfn looks behind the buffer. */
  function Step(st: Seek, d: Slot, buf: seq<u16>, max: nat, fold: u16 -> u16): Option<Seek>
    requires |buf| == max + 1
  {
    var et := OrderOf(d);
    var ord, sum := if IsLast(d) then et else st.ord, if IsLast(d) then d[13] else st.sum;
    if et == ord && sum == d[13] then
      match Compare(buf, d, max, fold)
      case None => None
      case Some(same) => Some(Seek(if same && ord > 0 then ord - 1 else 0xFF, sum))
    else Some(Seek(0xFF, sum))
  }

  function Steps(st: Seek, run: seq<Slot>, buf: seq<u16>, max: nat, fold: u16 -> u16): Option<Seek>
    requires |buf| == max + 1
  {
    if run == [] then Some(st)
    else
      match Steps(st, run[..|run| - 1], buf, max, fold)
      case None => None
      case Some(before) => Step(before, run[|run| - 1], buf, max, fold)
  }

  /** The loop of dir_find over consecutive LFN entries. */
  method FollowRun(ord0: nat, sum0: byte, run: seq<Slot>, lfnbuf: seq<u16>, max: nat, fold: u16 -> u16) returns (r: Option<Seek>)
    requires |lfnbuf| == max + 1
    ensures r == Steps(Seek(ord0, sum0), run, lfnbuf, max, fold)
  {
    hide Compare;
    var ord, sum := ord0, sum0;
    var i := 0;
    while i < |run|
      invariant 0 <= i <= |run| && Steps(Seek(ord0, sum0), run[..i], lfnbuf, max, fold) == Some(Seek(ord, sum))
    {
      StepsMore(Seek(ord0, sum0), run, lfnbuf, max, fold, i + 1);
      var et := OrderOf(run[i]);
      if IsLast(run[i]) { ord, sum := et, run[i][13]; }
      if et == ord && sum == run[i][13] {
        var same := CmpLfn(lfnbuf, run[i], max, fold);
        if same == None {
          NoneStays(Seek(ord0, sum0), run, lfnbuf, max, fold, i + 1);
          return None;
        }
        ord := if same.value && ord > 0 then ord - 1 else 0xFF;
      } else {
        ord := 0xFF;
      }
      i := i + 1;
    }
    assert run[..i] == run;
    r := Some(Seek(ord, sum));
  }

  lemma StepsMore(st: Seek, run: seq<Slot>, buf: seq<u16>, max: nat, fold: u16 -> u16, n: nat)
    requires |buf| == max + 1 && 1 <= n <= |run|
    ensures Steps(st, run[..n], buf, max, fold) ==
            match Steps(st, run[..n - 1], buf, max, fold)
            case None => None
            case Some(before) => Step(before, run[n - 1], buf, max, fold)
  {
    hide Step;
    assert run[..n][..n - 1] == run[..n - 1];
  }

  lemma {:induction false} NoneStays(st: Seek, run: seq<Slot>, buf: seq<u16>, max: nat, fold: u16 -> u16, n: nat)
    requires |buf| == max + 1 && n <= |run| && Steps(st, run[..n], buf, max, fold).None?
    ensures Steps(st, run, buf, max, fold).None?
    decreases |run| - n
  {
    if n == |run| {
      assert run[..n] == run;
    } else {
      StepsMore(st, run, buf, max, fold, n + 1);
      NoneStays(st, run, buf, max, fold, n + 1);
    }
  }

  lemma {:induction false} FollowedSoFar(st: Seek, run: seq<Slot>, m: seq<u16>, sum: byte, buf: seq<u16>, max: nat, fold: u16 -> u16, n: nat)
    requires IsName(m) && IsRun(run, m, sum) && |buf| == max + 1 && 1 <= n <= |run| && !PastEnd(buf, m, max, fold)
    ensures Steps(st, run[..n], buf, max, fold) == Some(Seek(if RunAccepted(buf, run[..n], max, fold) then |run| - n else 0xFF, sum))
  {
    hide *;
    RunParts(run, m, sum);
    StepsMore(st, run, buf, max, fold, n);
    RunEntry(run, m, sum, n - 1);
    EntryInside(buf, run, m, sum, max, fold, n - 1);
    AcceptedMore(buf, run, max, fold, n);
    if n > 1 {
      FollowedSoFar(st, run, m, sum, buf, max, fold, n - 1);
      StepIs(Steps(st, run[..n - 1], buf, max, fold).value, run[n - 1], buf, max, fold);
    } else {
      NoSteps(st, run, buf, max, fold);
      StepIs(st, run[0], buf, max, fold);
    }
  }

  lemma NoSteps(st: Seek, run: seq<Slot>, buf: seq<u16>, max: nat, fold: u16 -> u16)
    requires |buf| == max + 1
    ensures Steps(st, run[..0], buf, max, fold) == Some(st)
  {
  }

  lemma RunEntry(run: seq<Slot>, m: seq<u16>, sum: byte, i: nat)
    requires IsName(m) && IsRun(run, m, sum) && i < |run|
    ensures OrderOf(run[i]) == |run| - i <= 20 && IsLast(run[i]) == (i == 0) && run[i][13] == sum
  {
    EntryShape(run[i], m, |run| - i, sum);
  }

  lemma AcceptedMore(buf: seq<u16>, run: seq<Slot>, max: nat, fold: u16 -> u16, n: nat)
    requires |buf| == max + 1 && 1 <= n <= |run|
    ensures RunAccepted(buf, run[..n], max, fold) <==> RunAccepted(buf, run[..n - 1], max, fold) && Compare(buf, run[n - 1], max, fold) == Some(true)
    ensures n == 1 ==> RunAccepted(buf, run[..n - 1], max, fold)
  {
    hide Compare;
    assert forall i :: 0 <= i < n ==> run[..n][i] == run[i];
    assert forall i :: 0 <= i < n - 1 ==> run[..n - 1][i] == run[..n][i];
  }

  lemma StepIs(st: Seek, d: Slot, buf: seq<u16>, max: nat, fold: u16 -> u16)
    requires |buf| == max + 1
    ensures var et, r, same := OrderOf(d), Step(st, d, buf, max, fold), Compare(buf, d, max, fold);
            && (IsLast(d) && same.Some? && et > 0 ==> r == Some(Seek(if same.value then et - 1 else 0xFF, d[13])))
            && (IsLast(d) && same.None? ==> r == None)
            && (!IsLast(d) && same.Some? && et > 0 ==>
                  r == Some(Seek(if et == st.ord && st.sum == d[13] && same.value then et - 1 else 0xFF, st.sum)))
  {
    hide Compare;
  }

  /** From any state, the sequence check on the run of a stored name looks behind the buffer
      exactly in the case PastEnd; otherwise it reaches order 0 exactly if the sought name
      is the same, and then only the checksum of the short entry is left. */
  lemma OrderZeroIffSame(st: Seek, buf: seq<u16>, s: seq<u16>, run: seq<Slot>, m: seq<u16>, sum: byte, max: nat, fold: u16 -> u16)
    requires IsName(m) && IsRun(run, m, sum) && IsFold(fold)
    requires |buf| == max + 1 && IsName(s) && |s| <= max && Holds(buf, s)
    ensures var r := Steps(st, run, buf, max, fold);
            && (r.None? <==> PastEnd(buf, m, max, fold))
            && (r.Some? ==> r.value.sum == sum && (r.value.ord == 0 <==> SameName(s, m, fold)))
    ensures (max + 1) % 13 != 0 || max + 1 == 13 ==> !PastEnd(buf, m, max, fold)
  {
    if (max + 1) % 13 != 0 || max + 1 == 13 { NotPastEnd(buf, s, m, max, fold); }
    hide *;
    RunParts(run, m, sum);
    assert run[..|run|] == run;
    if PastEnd(buf, m, max, fold) {
      EntryInside(buf, run, m, sum, max, fold, 0);
      RunEntry(run, m, sum, 0);
      StepsMore(st, run, buf, max, fold, 1);
      NoSteps(st, run, buf, max, fold);
      StepIs(st, run[0], buf, max, fold);
      NoneStays(st, run, buf, max, fold, 1);
    } else {
      AcceptedIffSame(buf, s, run, m, sum, max, fold);
      FollowedSoFar(st, run, m, sum, buf, max, fold, |run|);
    }
  }

  lemma NotPastEnd(buf: seq<u16>, s: seq<u16>, m: seq<u16>, max: nat, fold: u16 -> u16)
    requires IsFold(fold) && |buf| == max + 1 && IsName(m) && IsName(s) && |s| <= max && Holds(buf, s) && ((max + 1) % 13 != 0 || max + 1 == 13)
    ensures !PastEnd(buf, m, max, fold)
  {
    if |m| == max + 1 && |m| == 13 {
      assert buf[|s|] == 0;
      FoldZero(fold, m[|s|]);
    }
  }

  /** Whatever lies in the directory: order 0 is reached only behind a complete sequence
      n, n - 1, ..., 1 that begins with a flagged entry, has one checksum, and was accepted
      by cmp_lfn throughout. */
  lemma {:induction false} OrderZeroSound(st: Seek, run: seq<Slot>, buf: seq<u16>, max: nat, fold: u16 -> u16) returns (p: nat)
    requires |buf| == max + 1 && run != [] && st.ord == 0xFF
    requires Steps(st, run, buf, max, fold).Some? && Steps(st, run, buf, max, fold).value.ord != 0xFF
    ensures p < |run| && IsLast(run[p]) && OrderOf(run[p]) == Steps(st, run, buf, max, fold).value.ord + (|run| - p)
    ensures forall i :: p <= i < |run| ==>
              && OrderOf(run[i]) == Steps(st, run, buf, max, fold).value.ord + (|run| - i)
              && run[i][13] == Steps(st, run, buf, max, fold).value.sum && Compare(buf, run[i], max, fold) == Some(true)
    decreases |run|
  {
    hide Compare;
    var n := |run| - 1;
    var d := run[n];
    var before := Steps(st, run[..n], buf, max, fold).value;
    if IsLast(d) {
      p := n;
    } else {
      assert before.ord == OrderOf(d);
      assert d[0] < 64 || d[0] >= 128;
      if before.ord == 0xFF { NotSentinel(d); }
      p := OrderZeroSound(st, run[..n], buf, max, fold);
    }
  }

  /** An entry whose flag is clear cannot have order 0xFF. */
  lemma NotSentinel(d: Slot)
    requires !IsLast(d)
    ensures OrderOf(d) != 0xFF
  {
  }
}
