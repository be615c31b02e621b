/** Bytes, little-endian words, sectors and result codes shared by every module
    of the FAT engine. */
module Base {

  type byte = x: int | 0 <= x < 256
  type u32 = x: int | 0 <= x < 0x1_0000_0000

  /** FF_MIN_SS == FF_MAX_SS == 512. */
  type Sector = s: seq<byte> | |s| == 512 witness seq(512, _ => 0)

  /** Marks a window that holds no sector: (LBA_t)0 - 1. */
  const NOSECT: u32 := 0xFFFF_FFFF
  /** The value by which get_fat and create_chain report a disk error. */
  const DISKERR: u32 := 0xFFFF_FFFF

  datatype Option<+T> = None | Some(value: T)

  datatype FResult = FrOk | FrDiskErr | FrIntErr | FrDenied

  function Ld16(b: seq<byte>, off: nat): (v: u32)
    requires off + 2 <= |b|
    ensures v < 65536
  {
    b[off] as int + 256 * (b[off + 1] as int)
  }

  function Ld32(b: seq<byte>, off: nat): (v: u32)
    requires off + 4 <= |b|
  {
    b[off] as int + 256 * (b[off + 1] as int) + 65536 * (b[off + 2] as int) + 16777216 * (b[off + 3] as int)
  }

  function St16(b: seq<byte>, off: nat, v: nat): (r: seq<byte>)
    requires off + 2 <= |b|
    ensures |r| == |b|
  {
    b[off := v % 256][off + 1 := v / 256 % 256]
  }

  function St32(b: seq<byte>, off: nat, v: nat): (r: seq<byte>)
    requires off + 4 <= |b|
    ensures |r| == |b|
  {
    b[off := v % 256][off + 1 := v / 256 % 256][off + 2 := v / 65536 % 256][off + 3 := v / 16777216 % 256]
  }

  /** A stored word reads back truncated to its width, and no other byte moves. */
  lemma St16ReadBack(b: seq<byte>, off: nat, v: nat)
    requires off + 2 <= |b|
    ensures Ld16(St16(b, off, v), off) == v % 65536
    ensures forall i :: 0 <= i < |b| && !(off <= i < off + 2) ==> St16(b, off, v)[i] == b[i]
  {
    assert v % 65536 == v % 256 + 256 * (v / 256 % 256);
  }

  /** The four bytes of a double word. */
  lemma Bytes32(v: u32)
    ensures v == v % 256 + 256 * (v / 256 % 256) + 65536 * (v / 65536 % 256) + 16777216 * (v / 16777216 % 256)
  {
    var q := v / 256;
    var r := q / 256;
    assert r == v / 65536;
    var t := r / 256;
    assert t == v / 16777216 && t < 256;
    assert v == 256 * q + v % 256 && q == 256 * r + q % 256 && r == 256 * t + r % 256;
  }

  lemma St32ReadBack(b: seq<byte>, off: nat, v: u32)
    requires off + 4 <= |b|
    ensures Ld32(St32(b, off, v), off) == v
    ensures forall i :: 0 <= i < |b| && !(off <= i < off + 4) ==> St32(b, off, v)[i] == b[i]
  {
    Bytes32(v);
    var b0: byte, b1: byte, b2: byte, b3: byte := v % 256, v / 256 % 256, v / 65536 % 256, v / 16777216 % 256;
    assert St32(b, off, v) == b[off := b0][off + 1 := b1][off + 2 := b2][off + 3 := b3];
  }

  /** Unsigned 32-bit subtraction. */
  function Sub32(a: u32, b: u32): (r: u32)
    ensures a >= b ==> r == a - b
    ensures a < b ==> r == a - b + 0x1_0000_0000
  {
    (a - b) % 0x1_0000_0000
  }

  lemma St16Is(b: seq<byte>, off: nat, v: nat)
    requires off + 2 <= |b|
    ensures St16(b, off, v) == b[off := v % 256][off + 1 := v / 256 % 256]
  {
  }

  lemma St32Is(b: seq<byte>, off: nat, v: nat)
    requires off + 4 <= |b|
    ensures St32(b, off, v) == b[off := v % 256][off + 1 := v / 256 % 256][off + 2 := v / 65536 % 256][off + 3 := v / 16777216 % 256]
  {
  }

  lemma Aligned(c: nat)
    ensures 2 * c % 2 == 0 && 4 * c % 4 == 0
  {
  }
}
