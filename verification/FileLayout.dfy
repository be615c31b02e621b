/** Where the sectors of a cluster chain lie on the device. */
module FileLayout {
  import opened Base
  import opened Numbers
  import opened FatTable
  import opened Chains
  import opened Geometry
  import opened FileData

  /** clst2sect: the first sector of a cluster, 0 for an invalid cluster number. */
  function Clst2Sect(g: Geo, clst: nat): (s: nat) {
    if g.IsCluster(clst) then g.database + g.csize * (clst - 2) else 0
  }

  /** Cluster 2 begins the data area, and each further cluster lies behind the one before. */
  lemma ClusterPlaces(g: Geo, c: nat)
    ensures g.IsCluster(2) ==> Clst2Sect(g, 2) == g.database
    ensures g.IsCluster(c) && g.IsCluster(c + 1) ==> Clst2Sect(g, c + 1) == Clst2Sect(g, c) + g.csize
    ensures !g.IsCluster(c) ==> Clst2Sect(g, c) == 0
  {
    if g.IsCluster(c) && g.IsCluster(c + 1) { assert g.csize * (c + 1 - 2) == g.csize * (c - 2) + g.csize; }
  }

  /** n consecutive sector numbers. */
  function Run(lo: nat, n: nat): (r: seq<nat>)
    ensures |r| == n && forall j :: 0 <= j < n ==> r[j] == lo + j
  {
    seq(n, j requires 0 <= j < n => lo + j)
  }

  /** The sectors of a file, in file order. */
  function Sectors(g: Geo, ch: seq<nat>): seq<nat> {
    if ch == [] then [] else Sectors(g, ch[..|ch| - 1]) + Run(Clst2Sect(g, ch[|ch| - 1]), g.csize)
  }

  /** Cluster numbers of the volume. */
  predicate AllClusters(g: Geo, ch: seq<nat>) {
    forall i :: 0 <= i < |ch| ==> g.IsCluster(ch[i])
  }

  predicate InCluster(g: Geo, c: nat, s: nat) {
    g.IsCluster(c) && Clst2Sect(g, c) <= s < Clst2Sect(g, c) + g.csize
  }

  /** Two clusters share no sector, and all lie in the data area. */
  lemma ClustersApart(g: Geo, c: nat, d: nat, s: nat)
    requires InCluster(g, c, s) && InCluster(g, d, s)
    ensures c == d
  {
    if c < d { MulGap(g.csize, c - 2, d - 2); }
    if d < c { MulGap(g.csize, d - 2, c - 2); }
  }

  lemma ClusterInData(g: Geo, c: nat, s: nat)
    requires InCluster(g, c, s)
    ensures g.database <= s < g.Top()
  {
    MulGap(g.csize, c - 2, g.nFatent - 2);
  }

  lemma {:induction false} SectorsLen(g: Geo, ch: seq<nat>)
    ensures |Sectors(g, ch)| == g.csize * |ch|
  {
    if ch != [] {
      SectorsLen(g, ch[..|ch| - 1]);
      assert g.csize * |ch| == g.csize * (|ch| - 1) + g.csize;
    }
  }

  /** Sector j of the i-th cluster of the chain is file sector csize * i + j. */
  lemma {:induction false} SectorAt(g: Geo, ch: seq<nat>, i: nat, j: nat)
    requires i < |ch| && j < g.csize
    ensures g.csize * i + j < |Sectors(g, ch)| == g.csize * |ch|
    ensures Sectors(g, ch)[g.csize * i + j] == Clst2Sect(g, ch[i]) + j
    decreases |ch|
  {
    SectorsLen(g, ch);
    MulGap(g.csize, i, |ch|);
    var m := |ch| - 1;
    SectorsLen(g, ch[..m]);
    if i < m {
      SectorAt(g, ch[..m], i, j);
    }
  }

  /** The bytes of a file, defined or not, lie where the FAT specification puts them: byte n
      of the file is byte n mod 512 of a sector of cluster number n / (512 csize) of the chain,
      and cluster c begins csize (c - 2) sectors into the data area. */
  ghost predicate Stored(g: Geo, v: Image, ch: seq<nat>, c: Content) {
    && g.csize > 0
    && forall n :: 0 <= n < |c| ==>
         && 0 <= n / (512 * g.csize) < |ch|
         && var s: int := g.database + g.csize * (ch[n / (512 * g.csize)] as int - 2) + n / 512 % g.csize;
            && 0 <= s < |v|
            && (c[n].Some? ==> v[s][n % 512] == c[n].value)
  }

  lemma ShownStored(g: Geo, v: Image, ch: seq<nat>, c: Content)
    requires g.csize > 0 && AllClusters(g, ch) && |c| <= 512 * |Sectors(g, ch)|
    requires forall k :: 0 <= k < |Sectors(g, ch)| ==> Sectors(g, ch)[k] < |v| && Shows(c, k, v[Sectors(g, ch)[k]])
    ensures Stored(g, v, ch, c)
  {
    var secs := Sectors(g, ch);
    forall n | 0 <= n < |c|
      ensures 0 <= n / (512 * g.csize) < |ch|
      ensures var s: int := g.database + g.csize * (ch[n / (512 * g.csize)] as int - 2) + n / 512 % g.csize;
              && 0 <= s < |v| && (c[n].Some? ==> v[s][n % 512] == c[n].value)
    {
      var k := n / 512;
      var i, j := SectorOwner(g, ch, k);
      ClusterOfByte(g.csize, n, i, j);
      assert Shows(c, k, v[secs[k]]) && 512 * k + n % 512 == n;
    }
  }

  lemma ClusterOfByte(csize: nat, n: nat, i: nat, j: nat)
    requires csize > 0 && j < csize && n / 512 == csize * i + j
    ensures n / (512 * csize) == i && n / 512 % csize == j
  {
    QuotientIs(n / 512, csize, i, j);
    assert (512 * csize) * i == 512 * (csize * i);
    QuotientIs(n, 512 * csize, i, 512 * j + n % 512);
  }

  /** The cluster and offset of a file sector. */
  lemma SectorOwner(g: Geo, ch: seq<nat>, k: nat) returns (i: nat, j: nat)
    requires g.csize > 0 && k < |Sectors(g, ch)|
    ensures i < |ch| && j < g.csize && k == g.csize * i + j
    ensures Sectors(g, ch)[k] == Clst2Sect(g, ch[i]) + j
    ensures g.IsCluster(ch[i]) ==> InCluster(g, ch[i], Sectors(g, ch)[k])
  {
    SectorsLen(g, ch);
    i, j := Split(g.csize, k);
    if i >= |ch| {
      if i > |ch| { MulGap(g.csize, |ch|, i); }
    }
    SectorAt(g, ch, i, j);
  }

  lemma Split(n: nat, k: nat) returns (i: nat, j: nat)
    requires n > 0
    ensures j < n && k == n * i + j && i == k / n && j == k % n
  {
    i, j := k / n, k % n;
  }

  lemma SectorsDistinct(g: Geo, ch: seq<nat>)
    requires g.csize > 0 && AllClusters(g, ch) && Distinct(ch)
    ensures DistinctSecs(Sectors(g, ch))
  {
    var secs := Sectors(g, ch);
    forall a, b | 0 <= a < b < |secs|
      ensures secs[a] != secs[b]
    {
      var i, j := SectorOwner(g, ch, a);
      var i', j' := SectorOwner(g, ch, b);
      if secs[a] == secs[b] {
        ClustersApart(g, ch[i], ch[i'], secs[a]);
      }
    }
  }

  lemma SectorsInData(g: Geo, ch: seq<nat>, k: nat)
    requires g.csize > 0 && AllClusters(g, ch) && k < |Sectors(g, ch)|
    ensures g.database <= Sectors(g, ch)[k] < g.Top()
  {
    var i, j := SectorOwner(g, ch, k);
    ClusterInData(g, ch[i], Sectors(g, ch)[k]);
  }

  lemma SectorsAppend(g: Geo, ch: seq<nat>, c: nat)
    ensures Sectors(g, ch + [c]) == Sectors(g, ch) + Run(Clst2Sect(g, c), g.csize)
  {
    assert (ch + [c])[..|ch|] == ch;
  }

  lemma {:induction false} SectorsPrefix(g: Geo, ch: seq<nat>, m: nat)
    requires m <= |ch|
    ensures g.csize * m <= |Sectors(g, ch)|
    ensures Sectors(g, ch[..m]) == Sectors(g, ch)[..g.csize * m]
    decreases |ch|
  {
    SectorsLen(g, ch);
    if m == |ch| {
      assert ch[..m] == ch;
    } else {
      MulGap(g.csize, m, |ch|);
      var l := |ch| - 1;
      SectorsPrefix(g, ch[..l], m);
      assert ch[..l][..m] == ch[..m];
    }
  }

  /** Neighbouring sectors of one cluster lie side by side. */
  lemma ClusterRun(g: Geo, ch: seq<nat>, i: nat, j: nat, n: nat)
    requires i < |ch| && j + n <= g.csize && n > 0
    ensures RunAt(Sectors(g, ch), g.csize * i + j, Clst2Sect(g, ch[i]) + j, n)
  {
    hide Sectors, Clst2Sect;
    var secs, k := Sectors(g, ch), g.csize * i + j;
    SectorAt(g, ch, i, j + n - 1);
    forall x | k <= x < k + n
      ensures secs[x] == Clst2Sect(g, ch[i]) + j + (x - k)
    {
      var y := j + (x - k);
      assert g.csize * i + y == x;
      SectorAt(g, ch, i, y);
    }
  }

  /** Chains that share no cluster share no sector. */
  lemma SectorsDisjoint(g: Geo, a: seq<nat>, b: seq<nat>, k: nat, l: nat)
    requires g.csize > 0 && AllClusters(g, a) && AllClusters(g, b) && Disjoint(a, b)
    requires k < |Sectors(g, a)| && l < |Sectors(g, b)|
    ensures Sectors(g, a)[k] != Sectors(g, b)[l]
  {
    var i, j := SectorOwner(g, a, k);
    var i', j' := SectorOwner(g, b, l);
    assert a[i] in a && b[i'] in b;
    if Sectors(g, a)[k] == Sectors(g, b)[l] {
      ClustersApart(g, a[i], b[i'], Sectors(g, a)[k]);
    }
  }

  /** A sector of a file belongs to a cluster of its chain. */
  lemma SectorInChain(g: Geo, ch: seq<nat>, s: nat)
    requires g.csize > 0 && AllClusters(g, ch) && s in Sectors(g, ch)
    ensures exists c :: c in ch && InCluster(g, c, s)
  {
    var secs := Sectors(g, ch);
    var k :| 0 <= k < |secs| && secs[k] == s;
    var i, j := SectorOwner(g, ch, k);
    assert ch[i] in ch;
  }

  /** A sector outside the chain's clusters is no sector of the file. */
  lemma SectorNotInChain(g: Geo, ch: seq<nat>, s: nat)
    requires g.csize > 0 && AllClusters(g, ch)
    requires s < g.database || s >= g.Top() || exists c :: c !in ch && InCluster(g, c, s)
    ensures s !in Sectors(g, ch)
  {
    if s in Sectors(g, ch) {
      SectorInChain(g, ch, s);
      var d :| d in ch && InCluster(g, d, s);
      ClusterInData(g, d, s);
      var c :| c !in ch && InCluster(g, c, s);
      ClustersApart(g, c, d, s);
    }
  }
}
