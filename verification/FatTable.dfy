/** The FAT as bytes: how get_fat and put_fat decode and encode an entry of a
    FAT12, FAT16 or FAT32 volume. A table is the byte string of one FAT copy. */
module FatTable {
  import opened Base

  datatype FatType = Fat12 | Fat16 | Fat32

  /** One more than the largest value an entry of this type holds. */
  function Width(t: FatType): nat {
    match t
    case Fat12 => 0x1000
    case Fat16 => 0x1_0000
    case Fat32 => 0x1000_0000
  }

  /** What is left of a value stored in an entry. */
  function Mask(t: FatType, v: nat): (r: nat)
    ensures r <= v
  {
    v % Width(t)
  }

  /** What put_fat(c, 0xFFFFFFFF) leaves: the end mark. */
  function EndMark(t: FatType): nat { Mask(t, 0xFFFF_FFFF) }

  /** MAX_FAT12, MAX_FAT16 and MAX_FAT32: the largest cluster count of each type. */
  function MaxClusters(t: FatType): nat {
    match t
    case Fat12 => 0xFF5
    case Fat16 => 0xFFF5
    case Fat32 => 0x0FFF_FFF5
  }

  /** Bytes that n entries need (szbfat in mount_volume). */
  function TableBytes(t: FatType, n: nat): nat {
    match t
    case Fat12 => n * 3 / 2 + n % 2
    case Fat16 => n * 2
    case Fat32 => n * 4
  }

  predicate Holds(t: FatType, n: nat, tbl: seq<byte>) {
    TableBytes(t, n) <= |tbl|
  }

  /** Offset of the first byte of entry c, and the number of bytes it touches. */
  function Ofs(t: FatType, c: nat): nat {
    match t
    case Fat12 => c + c / 2
    case Fat16 => 2 * c
    case Fat32 => 4 * c
  }

  function Size(t: FatType): nat {
    if t == Fat32 then 4 else 2
  }

  lemma OfsInTable(t: FatType, n: nat, c: nat)
    requires c < n
    ensures Ofs(t, c) + Size(t) <= TableBytes(t, n)
  {
  }

  /** FAT12 packs two entries into three bytes; these pick one out and put it back. */
  function Get12(c: nat, p0: byte, p1: byte): (v: nat)
    ensures v < 4096
  {
    var w := p0 as int + 256 * (p1 as int);
    if c % 2 == 1 then w / 16 else w % 4096
  }

  function Low12(c: nat, val: nat, p: byte): byte {
    if c % 2 == 1 then p % 16 + 16 * (val % 16) else val % 256
  }

  function High12(c: nat, val: nat, p: byte): byte {
    if c % 2 == 1 then val / 16 % 256 else p - p % 16 + val / 256 % 16
  }

  /** FAT32: the 28 value bits with the top four bits of the old word kept. */
  function Merge32(val: nat, word: u32): u32 {
    val % 0x1000_0000 + (word - word % 0x1000_0000)
  }

  /** The value get_fat returns for entry c. */
  function Entry(t: FatType, n: nat, tbl: seq<byte>, c: nat): (v: nat)
    requires Holds(t, n, tbl) && c < n
    ensures v < Width(t)
  {
    OfsInTable(t, n, c);
    var b := Ofs(t, c);
    match t
    case Fat12 => Get12(c, tbl[b], tbl[b + 1])
    case Fat16 => Ld16(tbl, b)
    case Fat32 => Ld32(tbl, b) % 0x1000_0000
  }

  /** The whole table as a map from cluster number to value. */
  function Entries(t: FatType, n: nat, tbl: seq<byte>): (f: seq<nat>)
    requires Holds(t, n, tbl)
    ensures |f| == n
    ensures forall c :: 0 <= c < n ==> f[c] == Entry(t, n, tbl, c)
  {
    seq(n, c requires 0 <= c < n => Entry(t, n, tbl, c))
  }

  /** The table after put_fat(c, val). */
  function Store(t: FatType, n: nat, tbl: seq<byte>, c: nat, val: nat): (r: seq<byte>)
    requires Holds(t, n, tbl) && c < n
    ensures |r| == |tbl|
  {
    OfsInTable(t, n, c);
    var b := Ofs(t, c);
    match t
    case Fat12 => tbl[b := Low12(c, val, tbl[b])][b + 1 := High12(c, val, tbl[b + 1])]
    case Fat16 => St16(tbl, b, val)
    case Fat32 => St32(tbl, b, Merge32(val, Ld32(tbl, b)))
  }

  /** A 12-bit value cut after its low nibble or after its low byte. */
  lemma Cut12(v: nat)
    ensures v % 4096 == v % 16 + 16 * (v / 16 % 256)
    ensures v % 4096 == v % 256 + 256 * (v / 256 % 16)
  {
    Mod4096(v, v / 16 / 256, v % 16 + 16 * (v / 16 % 256));
    Mod4096(v, v / 256 / 16, v % 256 + 256 * (v / 256 % 16));
  }

  lemma Mod4096(v: nat, k: nat, r: nat)
    requires v == 4096 * k + r && r < 4096
    ensures v % 4096 == r
  {
  }

  /** What a FAT12 store leaves in its own two bytes. */
  lemma OwnOdd12(c: nat, val: nat, p0: byte, p1: byte)
    requires c % 2 == 1
    ensures Get12(c, Low12(c, val, p0), High12(c, val, p1)) == val % 4096
  {
    Cut12(val);
    var lo: int, hi: int := val % 16, val / 16 % 256;
    var p: int := p0;
    assert (p % 16 + 16 * lo + 256 * hi) / 16 == lo + 16 * hi;
  }

  lemma OwnEven12(c: nat, val: nat, p0: byte, p1: byte)
    requires c % 2 == 0
    ensures Get12(c, Low12(c, val, p0), High12(c, val, p1)) == val % 4096
  {
    Cut12(val);
    var lo: int, hi: int := val % 256, val / 256 % 16;
    var h: int := p1 / 16;
    assert p1 - p1 % 16 == 16 * h;
    assert (lo + 256 * (16 * h + hi)) % 4096 == lo + 256 * hi;
  }

  /** What a FAT12 store leaves in the nibble it shares with a neighbour. */
  lemma Shared12(c: nat, val: nat, p0: byte, p1: byte, q: byte)
    ensures c % 2 == 0 ==> Get12(c + 1, High12(c, val, p1), q) == Get12(c + 1, p1, q)
    ensures c % 2 == 1 ==> Get12(c - 1, q, Low12(c, val, p0)) == Get12(c - 1, q, p0)
  {
    if c % 2 == 0 {
      var x := High12(c, val, p1);
      assert x / 16 == p1 / 16;
    } else {
      var x := Low12(c, val, p0);
      assert x % 16 == p0 % 16;
      var i: int, j: int, k: int := q, x, p0;
      Mod4096(i + 256 * j, j / 16, i + 256 * (j % 16));
      Mod4096(i + 256 * k, k / 16, i + 256 * (k % 16));
    }
  }

  lemma Store12(n: nat, tbl: seq<byte>, c: nat, val: nat, c': nat)
    requires Holds(Fat12, n, tbl) && c < n && c' < n
    ensures Entry(Fat12, n, Store(Fat12, n, tbl, c, val), c')
         == if c' == c then val % 4096 else Entry(Fat12, n, tbl, c')
  {
    OfsInTable(Fat12, n, c);
    OfsInTable(Fat12, n, c');
    var b, b' := Ofs(Fat12, c), Ofs(Fat12, c');
    var q: byte := if c' == c + 1 then tbl[b' + 1] else tbl[b'];
    if c % 2 == 1 { OwnOdd12(c, val, tbl[b], tbl[b + 1]); } else { OwnEven12(c, val, tbl[b], tbl[b + 1]); }
    Shared12(c, val, tbl[b], tbl[b + 1], q);
    if c' == c || (c' == c + 1 && c % 2 == 0) || (c' + 1 == c && c % 2 == 1) {
    } else {
      assert b' + 1 < b || b + 1 < b';
    }
  }

  lemma Store32(n: nat, tbl: seq<byte>, c: nat, val: nat, c': nat)
    requires Holds(Fat32, n, tbl) && c < n && c' < n
    ensures Ld32(Store(Fat32, n, tbl, c, val), 4 * c')
         == if c' == c then Merge32(val, Ld32(tbl, 4 * c)) else Ld32(tbl, 4 * c')
  {
    St32ReadBack(tbl, 4 * c, Merge32(val, Ld32(tbl, 4 * c)));
  }

  lemma Merged32(val: nat, w: u32)
    ensures Merge32(val, w) % 0x1000_0000 == val % 0x1000_0000
    ensures Merge32(val, w) / 0x1000_0000 == w / 0x1000_0000
  {
    var h := w / 0x1000_0000;
    assert w - w % 0x1000_0000 == 0x1000_0000 * h;
  }

  lemma Store16(n: nat, tbl: seq<byte>, c: nat, val: nat, c': nat)
    requires Holds(Fat16, n, tbl) && c < n && c' < n
    ensures Entry(Fat16, n, Store(Fat16, n, tbl, c, val), c')
         == if c' == c then val % 65536 else Entry(Fat16, n, tbl, c')
  {
    St16ReadBack(tbl, 2 * c, val);
  }

  lemma Store32Entry(n: nat, tbl: seq<byte>, c: nat, val: nat, c': nat)
    requires Holds(Fat32, n, tbl) && c < n && c' < n
    ensures Entry(Fat32, n, Store(Fat32, n, tbl, c, val), c')
         == if c' == c then val % 0x1000_0000 else Entry(Fat32, n, tbl, c')
  {
    Store32(n, tbl, c, val, c');
    Merged32(val, Ld32(tbl, 4 * c));
    hide St32, Ld32, Merge32;
  }

  lemma StoreAt(t: FatType, n: nat, tbl: seq<byte>, c: nat, val: nat, c': nat)
    requires Holds(t, n, tbl) && c < n && c' < n
    ensures Entry(t, n, Store(t, n, tbl, c, val), c')
         == if c' == c then Mask(t, val) else Entry(t, n, tbl, c')
  {
    hide Entry, Store, Holds;
    match t
    case Fat12 => Store12(n, tbl, c, val, c');
    case Fat16 => Store16(n, tbl, c, val, c');
    case Fat32 => Store32Entry(n, tbl, c, val, c');
  }

  /** put_fat refines the update of one key of a map: the entry reads back masked
      to its width and every other entry is unchanged. */
  lemma StoreRefinesUpdate(t: FatType, n: nat, tbl: seq<byte>, c: nat, val: nat)
    requires Holds(t, n, tbl) && c < n
    ensures Entries(t, n, Store(t, n, tbl, c, val)) == Entries(t, n, tbl)[c := Mask(t, val)]
  {
    var r := Store(t, n, tbl, c, val);
    var f, f' := Entries(t, n, tbl), Entries(t, n, r);
    forall c' | 0 <= c' < n
      ensures f'[c'] == f[c := Mask(t, val)][c']
    {
      StoreAt(t, n, tbl, c, val, c');
    }
  }

  /** The top four bits of a FAT32 word, which belong to nobody, survive a store. */
  lemma ReservedBitsKept(n: nat, tbl: seq<byte>, c: nat, val: nat)
    requires Holds(Fat32, n, tbl) && c < n
    ensures Ld32(Store(Fat32, n, tbl, c, val), 4 * c) / 0x1000_0000 == Ld32(tbl, 4 * c) / 0x1000_0000
  {
    Store32(n, tbl, c, val, c);
    Merged32(val, Ld32(tbl, 4 * c));
  }

  /** A FAT12 store cut short after its first byte can spoil only its own entry. */
  lemma HalfStore12(n: nat, tbl: seq<byte>, c: nat, val: nat, c': nat)
    requires Holds(Fat12, n, tbl) && c < n && c' < n && c' != c
    ensures Ofs(Fat12, c) < |tbl|
    ensures var b := Ofs(Fat12, c);
            Entry(Fat12, n, tbl[b := Low12(c, val, tbl[b])], c') == Entry(Fat12, n, tbl, c')
  {
    OfsInTable(Fat12, n, c);
    OfsInTable(Fat12, n, c');
    var b, b' := Ofs(Fat12, c), Ofs(Fat12, c');
    Shared12(c, val, tbl[b], tbl[b + 1], tbl[b']);
    if c' + 1 == c && c % 2 == 1 {
    } else {
      assert b' + 1 < b || b < b';
    }
  }

  /** The end mark reads back above every cluster number of a mountable volume, and
      no stored value reads back as the disk-error code. */
  lemma EndMarkReadsAsEnd(t: FatType, n: nat, v: nat)
    requires n <= MaxClusters(t) + 2
    ensures EndMark(t) >= n
    ensures Mask(t, v) < DISKERR
    ensures v < n ==> Mask(t, v) == v
  {
  }

  /** The bytes of a run of sectors, in order. */
  function Flat(area: seq<Sector>): (tbl: seq<byte>)
    ensures |tbl| == 512 * |area|
    ensures forall b :: 0 <= b < 512 * |area| ==> tbl[b] == area[b / 512][b % 512]
  {
    seq(512 * |area|, b requires 0 <= b < 512 * |area| => area[b / 512][b % 512])
  }

  /** Byte j of sector i is byte 512 * i + j of the run. */
  lemma FlatAt(area: seq<Sector>, i: nat, j: nat)
    requires i < |area| && j < 512
    ensures Flat(area)[512 * i + j] == area[i][j]
  {
    assert (512 * i + j) / 512 == i && (512 * i + j) % 512 == j;
  }

  /** Storing a byte in one sector stores that byte of the run. */
  lemma FlatStore(area: seq<Sector>, i: nat, j: nat, v: byte)
    requires i < |area| && j < 512
    ensures var s: Sector := area[i][j := v];
            Flat(area[i := s]) == Flat(area)[512 * i + j := v]
  {
    var s: Sector := area[i][j := v];
    var f, f' := Flat(area), Flat(area[i := s]);
    forall b | 0 <= b < |f'|
      ensures f'[b] == f[512 * i + j := v][b]
    {
      assert b == 512 * (b / 512) + b % 512;
    }
  }

  /** Byte b of a table, read from the sector sec that holds it. */
  ghost predicate SectorOf(tbl: seq<byte>, b: nat, sec: Sector) {
    var k := b - b % 512;
    k + 512 <= |tbl| && sec == tbl[k..k + 512]
  }

  lemma ByteInSector(tbl: seq<byte>, b: nat, sec: Sector)
    requires SectorOf(tbl, b, sec)
    ensures b < |tbl| && sec[b % 512] == tbl[b]
  {
  }

  /** The bytes of an aligned word share a sector. */
  lemma SameSector(b: nat)
    ensures b % 2 == 0 ==> (b + 1) / 512 == b / 512
    ensures b % 4 == 0 ==> (b + 1) / 512 == b / 512 && (b + 2) / 512 == b / 512 && (b + 3) / 512 == b / 512
  {
    var k, i := b / 512, b % 512;
    if b % 2 == 0 {
      assert i % 2 == 0;
      assert b + 1 == 512 * k + (i + 1) && i + 1 < 512;
    }
    if b % 4 == 0 {
      assert i % 4 == 0;
      assert i + 3 < 512;
    }
  }

  /** An aligned 16- or 32-bit entry lies inside one sector. */
  lemma WordInSector(tbl: seq<byte>, c: nat, sec: Sector)
    ensures SectorOf(tbl, 2 * c, sec) ==> 2 * c + 2 <= |tbl| && 2 * c % 512 + 2 <= 512 && Ld16(sec, 2 * c % 512) == Ld16(tbl, 2 * c)
    ensures SectorOf(tbl, 4 * c, sec) ==> 4 * c + 4 <= |tbl| && 4 * c % 512 + 4 <= 512 && Ld32(sec, 4 * c % 512) == Ld32(tbl, 4 * c)
  {
  }
}
