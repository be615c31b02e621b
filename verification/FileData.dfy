/** The bytes of a file behind its one-sector buffer, as values: what the device and
    the buffer together say about the contents, and how each step of f_read, f_write,
    f_lseek and f_truncate keeps it. */
module FileData {
  import opened Base
  import opened FatTable
  import opened Geometry

  /** File contents; None is a byte nobody wrote: the gap left by seeking past the end. */
  type Content = seq<Option<byte>>

  function Defined(data: seq<byte>): (c: Content)
    ensures |c| == |data|
    ensures forall i :: 0 <= i < |data| ==> c[i] == Some(data[i])
  {
    seq(|data|, i requires 0 <= i < |data| => Some(data[i]))
  }

  /** Contents after writing data at pos. */
  function Splice(c: Content, pos: nat, data: seq<byte>): (r: Content)
    requires pos <= |c|
    ensures |r| == if pos + |data| > |c| then pos + |data| else |c|
    ensures forall i :: 0 <= i < |r| ==> r[i] == if pos <= i < pos + |data| then Some(data[i - pos]) else c[i]
  {
    c[..pos] + Defined(data) + if pos + |data| < |c| then c[pos + |data|..] else []
  }

  /** Contents after growing to size n by a seek. */
  function Grown(c: Content, n: nat): (r: Content)
    ensures |r| == if n > |c| then n else |c|
    ensures forall i :: 0 <= i < |r| ==> r[i] == if i < |c| then c[i] else None
  {
    if n > |c| then c + seq(n - |c|, _ => None) else c
  }

  /** The bytes read agree with the contents wherever those are defined. */
  ghost predicate Matches(data: seq<byte>, c: Content) {
    |data| == |c| && forall i :: 0 <= i < |c| && c[i].Some? ==> data[i] == c[i].value
  }

  /** Writing twice in a row is one write of both pieces. */
  lemma SpliceTwice(c: Content, pos: nat, a: seq<byte>, b: seq<byte>)
    requires pos <= |c|
    ensures Splice(Splice(c, pos, a), pos + |a|, b) == Splice(c, pos, a + b)
  {
  }

  lemma SpliceNone(c: Content, pos: nat)
    requires pos <= |c|
    ensures Splice(c, pos, []) == c
  {
  }

  lemma MatchesTwice(a: seq<byte>, b: seq<byte>, c: Content, pos: nat)
    requires pos + |a| + |b| <= |c|
    requires Matches(a, c[pos..pos + |a|]) && Matches(b, c[pos + |a|..pos + |a| + |b|])
    ensures Matches(a + b, c[pos..pos + |a| + |b|])
  {
    var d := c[pos..pos + |a| + |b|];
    forall i | 0 <= i < |d| && d[i].Some?
      ensures (a + b)[i] == d[i].value
    {
      if i < |a| {
        assert c[pos..pos + |a|][i] == d[i];
      } else {
        assert c[pos + |a|..pos + |a| + |b|][i - |a|] == d[i];
      }
    }
  }

  /** Sector sec says what the contents say about file sector k. */
  ghost predicate Shows(c: Content, k: nat, sec: Sector) {
    forall j :: 0 <= j < 512 && 512 * k + j < |c| && c[512 * k + j].Some? ==> sec[j] == c[512 * k + j].value
  }

  /** The sectors of a file, its contents, and its buffer with the sector it caches. */
  datatype FState = FState(secs: seq<nat>, content: Content, sect: u32, buf: Sector, dirty: bool)

  ghost predicate DistinctSecs(secs: seq<nat>) {
    forall i, j :: 0 <= i < j < |secs| ==> secs[i] != secs[j]
  }

  /** Every sector of the file shows its contents, on the device unless the buffer holds
      newer data, and in the buffer if it caches that sector. */
  ghost predicate DataOk(v: Image, f: FState) {
    && |f.content| <= 512 * |f.secs|
    && DistinctSecs(f.secs)
    && (forall k :: 0 <= k < |f.secs| ==> f.secs[k] < |v|)
    && (f.dirty ==> f.sect in f.secs)
    && (forall k :: 0 <= k < |f.secs| ==>
          && (f.secs[k] == f.sect ==> Shows(f.content, k, f.buf))
          && (!(f.dirty && f.secs[k] == f.sect) ==> Shows(f.content, k, v[f.secs[k]])))
  }

  /** Writing the dirty buffer back loses nothing. */
  lemma Flushed(v: Image, f: FState)
    requires DataOk(v, f) && f.sect < |v|
    ensures DataOk(v[f.sect := f.buf], f.(dirty := false))
  {
  }

  /** Loading a sector of the file into a clean buffer. */
  lemma Loaded(v: Image, f: FState, k: nat)
    requires DataOk(v, f) && !f.dirty && k < |f.secs| && f.secs[k] < 0x1_0000_0000
    ensures DataOk(v, f.(sect := f.secs[k], buf := v[f.secs[k]]))
  {
  }

  /** Past the end of the contents the buffer need not be loaded. */
  lemma Claimed(v: Image, f: FState, k: nat)
    requires DataOk(v, f) && !f.dirty && k < |f.secs| && f.secs[k] < 0x1_0000_0000 && |f.content| <= 512 * k
    ensures DataOk(v, f.(sect := f.secs[k]))
  {
  }

  /** The buffer after copying data into it at offset off. */
  function BufPut(buf: Sector, off: nat, data: seq<byte>): (r: Sector)
    requires off + |data| <= 512
    ensures forall j :: 0 <= j < 512 ==> r[j] == if off <= j < off + |data| then data[j - off] else buf[j]
  {
    buf[..off] + data + buf[off + |data|..]
  }

  /** A write into the cached sector. */
  lemma BufWritten(v: Image, f: FState, k: nat, off: nat, data: seq<byte>)
    requires DataOk(v, f) && k < |f.secs| && f.sect == f.secs[k] && off + |data| <= 512
    requires 512 * k + off <= |f.content|
    ensures DataOk(v, f.(buf := BufPut(f.buf, off, data), dirty := true, content := Splice(f.content, 512 * k + off, data)))
  {
    var c := Splice(f.content, 512 * k + off, data);
    var b := BufPut(f.buf, off, data);
    forall i | 0 <= i < |f.secs|
      ensures f.secs[i] == f.sect ==> Shows(c, i, b)
      ensures f.secs[i] != f.sect ==> Shows(c, i, v[f.secs[i]])
    {
      if i == k {
        assert Shows(f.content, k, f.buf);
      } else {
        assert f.secs[i] != f.secs[k];
        assert Shows(f.content, i, v[f.secs[i]]);
      }
    }
  }

  /** The buffer after a direct write, refilled if it cached one of the sectors written. */
  function Refilled(f: FState, lba: u32, data: seq<Sector>): Sector {
    if Sub32(f.sect, lba) < |data| then data[Sub32(f.sect, lba)] else f.buf
  }

  /** File sectors k to k + n lie side by side from sector lba on. */
  ghost predicate RunAt(secs: seq<nat>, k: nat, lba: nat, n: nat) {
    k + n <= |secs| && forall i :: k <= i < k + n ==> secs[i] == lba + (i - k)
  }

  /** A write of whole sectors that bypasses the buffer. */
  lemma DirectWritten(v: Image, f: FState, k: nat, lba: u32, data: seq<Sector>)
    requires DataOk(v, f) && !f.dirty && k + |data| <= |f.secs| && 512 * k <= |f.content|
    requires lba + |data| <= |v| < 0x1_0000_0000
    requires RunAt(f.secs, k, lba, |data|)
    ensures DataOk(Patched(v, lba, data), f.(buf := Refilled(f, lba, data), content := Splice(f.content, 512 * k, Flat(data))))
  {
    var v', b, c := Patched(v, lba, data), Refilled(f, lba, data), Splice(f.content, 512 * k, Flat(data));
    forall i | 0 <= i < |f.secs|
      ensures f.secs[i] == f.sect ==> Shows(c, i, b)
      ensures Shows(c, i, v'[f.secs[i]])
    {
      if k <= i < k + |data| {
        assert f.secs[i] == lba + (i - k);
        DirectSector(f.content, k, i, data);
      } else {
        OutsideRun(f, k, lba, |data|, i);
        assert Shows(f.content, i, v[f.secs[i]]);
        OtherSector(f.content, k, i, data);
      }
    }
  }

  lemma OutsideRun(f: FState, k: nat, lba: nat, n: nat, i: nat)
    requires DistinctSecs(f.secs) && k + n <= |f.secs| && i < |f.secs| && !(k <= i < k + n)
    requires RunAt(f.secs, k, lba, n)
    ensures !(lba <= f.secs[i] < lba + n)
  {
    var j := if lba <= f.secs[i] < lba + n then k + (f.secs[i] - lba) else k;
    assert n > 0 ==> f.secs[j] == lba + (j - k);
  }

  lemma DirectSector(c: Content, k: nat, i: nat, data: seq<Sector>)
    requires 512 * k <= |c| && k <= i < k + |data|
    ensures Shows(Splice(c, 512 * k, Flat(data)), i, data[i - k])
  {
    var s, sec := Splice(c, 512 * k, Flat(data)), data[i - k];
    forall j | 0 <= j < 512 && 512 * i + j < |s| && s[512 * i + j].Some?
      ensures sec[j] == s[512 * i + j].value
    {
      FlatAt(data, i - k, j);
    }
  }

  lemma OtherSector(c: Content, k: nat, i: nat, data: seq<Sector>)
    requires 512 * k <= |c| && !(k <= i < k + |data|)
    ensures forall sec: Sector :: Shows(c, i, sec) ==> Shows(Splice(c, 512 * k, Flat(data)), i, sec)
  {
  }

  /** New sectors at the end hold nothing the contents speak of. */
  lemma Extended(v: Image, f: FState, more: seq<nat>)
    requires DataOk(v, f) && DistinctSecs(f.secs + more)
    requires forall i :: 0 <= i < |more| ==> more[i] < |v|
    ensures DataOk(v, f.(secs := f.secs + more))
  {
    var s := f.secs + more;
    forall k | 0 <= k < |s|
      ensures s[k] < |v|
      ensures s[k] == f.sect ==> Shows(f.content, k, f.buf)
      ensures !(f.dirty && s[k] == f.sect) ==> Shows(f.content, k, v[s[k]])
    {
      if k < |f.secs| { assert s[k] == f.secs[k]; } else { assert s[k] == more[k - |f.secs|]; }
    }
  }

  /** Cutting the file; the dirty buffer, wherever it belongs, is written back. */
  lemma Truncated(v: Image, f: FState, n: nat, m: nat)
    requires DataOk(v, f) && n <= |f.content| && m <= |f.secs| && n <= 512 * m
    requires f.dirty ==> f.sect < |v|
    ensures DataOk(if f.dirty then v[f.sect := f.buf] else v,
                   f.(secs := f.secs[..m], content := f.content[..n], dirty := false))
  {
    var v' := if f.dirty then v[f.sect := f.buf] else v;
    var c := f.content[..n];
    forall k | 0 <= k < m
      ensures f.secs[k] == f.sect ==> Shows(c, k, f.buf)
      ensures Shows(c, k, v'[f.secs[k]])
    {
      if f.secs[k] == f.sect { assert Shows(f.content, k, f.buf); }
      if !(f.dirty && f.secs[k] == f.sect) { assert Shows(f.content, k, v[f.secs[k]]); }
    }
  }

  /** Growing by a seek promises nothing about the new bytes. */
  lemma GapAdded(v: Image, f: FState, n: nat)
    requires DataOk(v, f) && n <= 512 * |f.secs|
    ensures DataOk(v, f.(content := Grown(f.content, n)))
  {
    var c := Grown(f.content, n);
    forall k | 0 <= k < |f.secs|
      ensures f.secs[k] == f.sect ==> Shows(c, k, f.buf)
      ensures !(f.dirty && f.secs[k] == f.sect) ==> Shows(c, k, v[f.secs[k]])
    {
      if f.secs[k] == f.sect { assert Shows(f.content, k, f.buf); }
      if !(f.dirty && f.secs[k] == f.sect) { assert Shows(f.content, k, v[f.secs[k]]); }
    }
  }

  /** Nothing that leaves the file's own sectors alone can change the file. */
  lemma DataKept(v: Image, v': Image, f: FState)
    requires DataOk(v, f) && |v'| == |v|
    requires forall k :: 0 <= k < |f.secs| ==> v'[f.secs[k]] == v[f.secs[k]]
    ensures DataOk(v', f)
  {
  }

  /** Bytes taken from the cached sector. */
  lemma BufRead(v: Image, f: FState, k: nat, off: nat, n: nat)
    requires DataOk(v, f) && k < |f.secs| && f.sect == f.secs[k] && off + n <= 512
    requires 512 * k + off + n <= |f.content|
    ensures Matches(f.buf[off..off + n], f.content[512 * k + off..512 * k + off + n])
  {
    assert Shows(f.content, k, f.buf);
    var c := f.content[512 * k + off..512 * k + off + n];
    forall i | 0 <= i < n && c[i].Some?
      ensures f.buf[off..off + n][i] == c[i].value
    {
      assert c[i] == f.content[512 * k + (off + i)];
    }
  }

  /** Whole sectors read from the device, with the dirty buffer laid over them. */
  function Overlaid(f: FState, lba: u32, data: seq<Sector>): (r: seq<Sector>)
    ensures |r| == |data|
  {
    if f.dirty && Sub32(f.sect, lba) < |data| then data[Sub32(f.sect, lba) := f.buf] else data
  }

  /** A read of whole sectors that bypasses the buffer. */
  lemma DirectRead(v: Image, f: FState, k: nat, lba: u32, n: nat)
    requires DataOk(v, f) && k + n <= |f.secs| && 512 * (k + n) <= |f.content|
    requires lba + n <= |v| < 0x1_0000_0000
    requires RunAt(f.secs, k, lba, n)
    ensures Matches(Flat(Overlaid(f, lba, v[lba..lba + n])), f.content[512 * k..512 * (k + n)])
  {
    var d := Overlaid(f, lba, v[lba..lba + n]);
    forall i | 0 <= i < n
      ensures Shows(f.content, k + i, d[i])
    {
      var at := k + i;
      assert f.secs[at] == lba + i;
      assert d[i] == if f.dirty && f.sect == f.secs[at] then f.buf else v[f.secs[at]];
    }
    hide *;
    ShowsAll(f.content, k, d);
  }

  /** Sectors that show the contents one by one show them together. */
  lemma ShowsAll(c: Content, k: nat, d: seq<Sector>)
    requires 512 * (k + |d|) <= |c|
    requires forall i :: 0 <= i < |d| ==> Shows(c, k + i, d[i])
    ensures Matches(Flat(d), c[512 * k..512 * (k + |d|)])
  {
    var s := c[512 * k..512 * (k + |d|)];
    forall b | 0 <= b < 512 * |d| && s[b].Some?
      ensures Flat(d)[b] == s[b].value
    {
      var i, j := b / 512, b % 512;
      FlatAt(d, i, j);
      assert 512 * (k + i) + j == 512 * k + b;
      assert Shows(c, k + i, d[i]);
    }
  }
}
