/** Facts about a FAT as a map from cluster to value: counting free clusters,
    following and freeing chains, and what makes a FAT a disjoint forest. */
module Chains {
  import opened Base

  type Fat = seq<nat>

  predicate IsCl(fat: Fat, c: int) { 2 <= c < |fat| }

  /** Number of free clusters. */
  function CountFree(fat: Fat): (k: nat)
    ensures k <= if |fat| >= 2 then |fat| - 2 else 0
  {
    if |fat| <= 2 then 0
    else CountFree(fat[..|fat| - 1]) + if fat[|fat| - 1] == 0 then 1 else 0
  }

  lemma {:induction false} CountUpdate(fat: Fat, c: nat, v: nat)
    requires IsCl(fat, c)
    ensures CountFree(fat[c := v])
         == CountFree(fat) - (if fat[c] == 0 then 1 else 0) + (if v == 0 then 1 else 0)
  {
    var m := |fat| - 1;
    if c == m {
      assert fat[c := v][..m] == fat[..m];
    } else {
      assert fat[c := v][..m] == fat[..m][c := v];
      CountUpdate(fat[..m], c, v);
    }
  }

  lemma {:induction false} CountZero(fat: Fat)
    ensures CountFree(fat) == 0 <==> forall c :: IsCl(fat, c) ==> fat[c] != 0
  {
    if |fat| > 2 {
      var m := |fat| - 1;
      CountZero(fat[..m]);
      assert forall c :: IsCl(fat[..m], c) ==> IsCl(fat, c) && fat[..m][c] == fat[c];
      assert forall c :: IsCl(fat, c) ==> c == m || IsCl(fat[..m], c);
    }
  }

  /** While a cluster is in use, not every cluster is free. */
  lemma CountInUse(fat: Fat, c: nat)
    requires IsCl(fat, c) && fat[c] != 0
    ensures CountFree(fat) < |fat| - 2
  {
    CountUpdate(fat, c, 0);
  }

  // ---- chains ----

  /** ch is the chain of clusters that starts at ch[0]: each links to the next and
      the last holds an end mark. */
  predicate IsChain(fat: Fat, ch: seq<nat>) {
    && |ch| > 0
    && (forall i :: 0 <= i < |ch| ==> IsCl(fat, ch[i]))
    && (forall i :: 0 <= i < |ch| - 1 ==> fat[ch[i]] == ch[i + 1])
    && fat[ch[|ch| - 1]] >= |fat|
  }

  predicate Distinct(ch: seq<nat>) {
    forall i, j :: 0 <= i < j < |ch| ==> ch[i] != ch[j]
  }

  predicate Disjoint(a: seq<nat>, b: seq<nat>) {
    forall c :: c in a ==> c !in b
  }

  /** A chain that ends cannot visit a cluster twice: it is acyclic. */
  lemma ChainDistinct(fat: Fat, ch: seq<nat>)
    requires IsChain(fat, ch)
    ensures Distinct(ch)
  {
    forall i, j | 0 <= i < j < |ch|
      ensures ch[i] != ch[j]
    {
      if ch[i] == ch[j] {
        var k := |ch| - 1 - j;
        assert fat[ch[i + k]] == ch[i + k + 1] < |fat|;
        SameStep(fat, ch, i, j, k);
      }
    }
  }

  /** From equal clusters the chain goes on equally. */
  lemma {:induction false} SameStep(fat: Fat, ch: seq<nat>, i: nat, j: nat, k: nat)
    requires IsChain(fat, ch) && i < j && j + k < |ch| && ch[i] == ch[j]
    ensures ch[i + k] == ch[j + k]
  {
    if k > 0 { SameStep(fat, ch, i, j, k - 1); }
  }

  /** A cluster starts at most one chain. */
  lemma {:induction false} ChainUnique(fat: Fat, a: seq<nat>, b: seq<nat>)
    requires IsChain(fat, a) && IsChain(fat, b) && a[0] == b[0]
    ensures a == b
    decreases |a|
  {
    assert |a| > 1 ==> fat[a[0]] == a[1] < |fat|;
    assert |b| > 1 ==> fat[b[0]] == b[1] < |fat|;
    if |a| == 1 {
      assert a == [a[0]] && b == [b[0]];
    } else {
      ChainTail(fat, a);
      ChainTail(fat, b);
      ChainUnique(fat, a[1..], b[1..]);
      assert a == [a[0]] + a[1..] && b == [b[0]] + b[1..];
    }
  }

  lemma ChainTail(fat: Fat, ch: seq<nat>)
    requires IsChain(fat, ch) && |ch| > 1
    ensures IsChain(fat, ch[1..]) && ch[0] !in ch[1..]
  {
    ChainDistinct(fat, ch);
    forall j | 0 <= j < |ch[1..]|
      ensures ch[1..][j] != ch[0]
    {
      assert ch[1..][j] == ch[j + 1];
    }
  }

  /** The clusters of a chain are in use. */
  lemma ChainUsed(fat: Fat, ch: seq<nat>)
    requires ch == [] || IsChain(fat, ch)
    ensures Distinct(ch)
    ensures forall c :: c in ch ==> 2 <= c < |fat| && fat[c] >= 2
  {
    if ch != [] {
      ChainDistinct(fat, ch);
      forall i | 0 <= i < |ch|
        ensures IsCl(fat, ch[i]) && fat[ch[i]] >= 2
      {
        if i < |ch| - 1 { assert fat[ch[i]] == ch[i + 1] && IsCl(fat, ch[i + 1]); }
      }
    }
  }

  /** A chain depends only on the entries of its own clusters. */
  lemma ChainKept(fat: Fat, fat': Fat, ch: seq<nat>)
    requires IsChain(fat, ch) && |fat'| == |fat|
    requires forall c :: c in ch ==> fat'[c] == fat[c]
    ensures IsChain(fat', ch)
  {
    forall i | 0 <= i < |ch|
      ensures fat'[ch[i]] == fat[ch[i]]
    {
      assert ch[i] in ch;
    }
  }

  /** Linking a fresh cluster behind the last one lengthens the chain by it. */
  lemma ChainStretched(fat: Fat, ch: seq<nat>, d: nat, end: nat)
    requires IsChain(fat, ch) && IsCl(fat, d) && fat[d] == 0 && end >= |fat|
    ensures IsChain(fat[d := end][ch[|ch| - 1] := d], ch + [d])
  {
    var fat' := fat[d := end][ch[|ch| - 1] := d];
    ChainDistinct(fat, ch);
    forall i | 0 <= i < |ch|
      ensures ch[i] != d && fat'[ch[i]] == if i == |ch| - 1 then d else fat[ch[i]]
    {
      if i < |ch| - 1 { assert IsCl(fat, ch[i + 1]); }
    }
  }

  /** Cutting a chain after position k leaves its first k clusters. */
  lemma ChainCut(fat: Fat, ch: seq<nat>, k: nat, end: nat)
    requires IsChain(fat, ch) && 0 < k < |ch| && end >= |fat|
    ensures IsChain(fat[ch[k - 1] := end], ch[..k])
    ensures IsChain(fat[ch[k - 1] := end], ch[k..])
  {
    ChainDistinct(fat, ch);
    var fat' := fat[ch[k - 1] := end];
    assert forall i :: 0 <= i < |ch| && i != k - 1 ==> fat'[ch[i]] == fat[ch[i]];
  }

  // ---- freeing ----

  /** remove_chain on any FAT, whatever its links: clusters are freed one after the
      other until a free cluster, a bad value or an end mark stops the walk. */
  function FreeWalk(fat: Fat, c: nat): (r: Fat)
    requires 2 <= c < |fat|
    ensures |r| == |fat|
    ensures forall i :: 0 <= i < |fat| ==> r[i] == fat[i] || (r[i] == 0 && IsCl(fat, i))
    decreases |fat| - CountFree(fat)
  {
    var nxt := fat[c];
    if nxt == 0 || nxt == 1 then fat
    else
      CountUpdate(fat, c, 0);
      if nxt < |fat| then FreeWalk(fat[c := 0], nxt) else fat[c := 0]
  }

  /** The walk stopped at a value that get_fat calls an internal error. */
  predicate WalkFails(fat: Fat, c: nat)
    requires 2 <= c < |fat|
    decreases |fat| - CountFree(fat)
  {
    var nxt := fat[c];
    if nxt == 0 then false
    else if nxt == 1 then true
    else
      CountUpdate(fat, c, 0);
      nxt < |fat| && WalkFails(fat[c := 0], nxt)
  }

  /** One turn of the walk. */
  lemma WalkUnfold(fat: Fat, c: nat)
    requires 2 <= c < |fat|
    ensures fat[c] == 0 ==> FreeWalk(fat, c) == fat && !WalkFails(fat, c)
    ensures fat[c] == 1 ==> FreeWalk(fat, c) == fat && WalkFails(fat, c)
    ensures fat[c] >= 2 ==> CountFree(fat[c := 0]) == CountFree(fat) + 1 <= |fat| - 2
    ensures fat[c] >= |fat| ==> FreeWalk(fat, c) == fat[c := 0] && !WalkFails(fat, c)
    ensures 2 <= fat[c] < |fat| ==>
              && FreeWalk(fat, c) == FreeWalk(fat[c := 0], fat[c])
              && WalkFails(fat, c) == WalkFails(fat[c := 0], fat[c])
  {
    CountUpdate(fat, c, 0);
  }

  function FreeAll(fat: Fat, ch: seq<nat>): (r: Fat)
    ensures |r| == |fat|
  {
    seq(|fat|, c requires 0 <= c < |fat| => if c in ch then 0 else fat[c])
  }

  /** On a well-formed chain the walk frees exactly the clusters of the chain. */
  lemma {:induction false} WalkFreesChain(fat: Fat, ch: seq<nat>)
    requires IsChain(fat, ch)
    ensures FreeWalk(fat, ch[0]) == FreeAll(fat, ch) && !WalkFails(fat, ch[0])
    decreases |ch|
  {
    var c := ch[0];
    if |ch| == 1 {
      assert fat[c := 0] == FreeAll(fat, ch);
    } else {
      ChainTail(fat, ch);
      var rest := ch[1..];
      assert fat[c] == rest[0];
      ChainKept(fat, fat[c := 0], rest);
      WalkFreesChain(fat[c := 0], rest);
      assert FreeAll(fat[c := 0], rest) == FreeAll(fat, ch) by {
        assert ch == [c] + rest;
      }
    }
  }

  /** The free clusters. */
  function Zeros(fat: Fat): set<nat> {
    set c: nat | 2 <= c < |fat| && fat[c] == 0
  }

  /** The count is the number of free clusters. */
  lemma {:induction false} CountIsZeros(fat: Fat)
    ensures CountFree(fat) == |Zeros(fat)|
  {
    if |fat| > 2 {
      var m := |fat| - 1;
      CountIsZeros(fat[..m]);
      assert Zeros(fat) == Zeros(fat[..m]) + if fat[m] == 0 then {m as nat} else {};
    } else {
      assert Zeros(fat) == {};
    }
  }

  /** Different clusters, each linked to the next. */
  predicate IsPath(fat: Fat, p: seq<nat>) {
    && |p| > 0 && Distinct(p)
    && (forall i :: 0 <= i < |p| ==> IsCl(fat, p[i]))
    && (forall i :: 0 <= i < |p| - 1 ==> fat[p[i]] == p[i + 1])
  }

  /** What is left of a path behind its first cluster, once that is free. */
  lemma PathTail(fat: Fat, p: seq<nat>)
    requires IsPath(fat, p) && |p| > 1
    ensures var f, rest, e := fat[p[0] := 0], p[1..], fat[p[|p| - 1]];
            && IsPath(f, rest) && f[rest[|rest| - 1]] == e && fat[p[0]] == rest[0]
            && (e in p <==> e == p[0] || e in rest) && p[0] !in rest
  {
    var c, rest, e := p[0], p[1..], fat[p[|p| - 1]];
    var f := fat[c := 0];
    forall i | 0 <= i < |rest|
      ensures rest[i] == p[i + 1] != c && IsCl(f, rest[i]) && f[rest[i]] == fat[rest[i]]
    {
    }
    forall i | 0 <= i < |rest| - 1
      ensures f[rest[i]] == rest[i + 1]
    {
      assert fat[p[i + 1]] == p[i + 2];
    }
    assert p == [c] + rest;
  }

  /** A path that runs into a free cluster outside it goes on to that cluster. */
  lemma PathLonger(f: Fat, p: seq<nat>, c: nat)
    requires IsPath(f, p) && IsCl(f, c) && f[p[|p| - 1]] == c && c !in p
    ensures IsPath(f, p + [c]) && (p + [c])[..|p|] == p
  {
  }

  lemma FreedFirst(fat: Fat, c: nat, q: seq<nat>)
    requires IsCl(fat, c)
    ensures FreeAll(fat[c := 0], q) == FreeAll(fat, [c] + q)
  {
  }

  /** What the walk does on any FAT: it frees the path up to where it stops. It stops before an
      entry 0, before an entry 1, which is an error, behind an end mark, and where the path runs
      into itself. */
  lemma {:induction false} WalkStops(fat: Fat, p: seq<nat>)
    requires IsPath(fat, p)
    ensures var e := fat[p[|p| - 1]];
            && (e < 2 ==> FreeWalk(fat, p[0]) == FreeAll(fat, p[..|p| - 1]) && (WalkFails(fat, p[0]) <==> e == 1))
            && (e >= |fat| || e in p ==> FreeWalk(fat, p[0]) == FreeAll(fat, p) && !WalkFails(fat, p[0]))
    decreases |fat| - CountFree(fat)
  {
    var c, e := p[0], fat[p[|p| - 1]];
    var f := fat[c := 0];
    if |p| == 1 {
      assert p[..0] == [] && FreeAll(fat, []) == fat && FreeAll(fat, p) == f;
    } else {
      CountUpdate(fat, c, 0);
      PathTail(fat, p);
      var rest := p[1..];
      assert p == [c] + rest && p[..|p| - 1] == [c] + rest[..|rest| - 1];
      FreedFirst(fat, c, rest);
      FreedFirst(fat, c, rest[..|rest| - 1]);
      if e == c { PathLonger(f, rest, c); }
      hide IsPath, FreeAll;
      WalkStops(f, if e == c then rest + [c] else rest);
    }
  }

  lemma ZerosMore(fat: Fat, c: nat)
    requires 2 <= c < |fat|
    ensures Zeros(fat) <= Zeros(fat[c := 0]) && c in Zeros(fat[c := 0])
    ensures fat[c] >= |fat| || fat[c] < 2 || FreeWalk(fat[c := 0], fat[c])[c] == 0
  {
  }

  // ---- forests ----

  /** No link leads to a free cluster and no cluster has two predecessors. */
  ghost predicate Safe(fat: Fat) {
    && (forall c :: IsCl(fat, c) && IsCl(fat, fat[c]) ==> fat[fat[c]] != 0)
    && (forall c, d :: IsCl(fat, c) && IsCl(fat, d) && c != d && IsCl(fat, fat[c]) ==> fat[c] != fat[d])
  }

  /** Nothing links to c: it can only be the head of a chain. */
  ghost predicate Unref(fat: Fat, c: nat) {
    forall p :: IsCl(fat, p) ==> fat[p] != c
  }

  /** In a safe FAT two chains whose heads nobody links to are equal or disjoint:
      the reachable FATs are disjoint forests. */
  lemma SafeChainsDisjoint(fat: Fat, a: seq<nat>, b: seq<nat>)
    requires Safe(fat) && IsChain(fat, a) && IsChain(fat, b)
    requires Unref(fat, a[0]) && Unref(fat, b[0]) && a[0] != b[0]
    ensures Disjoint(a, b)
  {
    forall c | c in a
      ensures c !in b
    {
      var i :| 0 <= i < |a| && a[i] == c;
      if c in b {
        var j :| 0 <= j < |b| && b[j] == c;
        MeetBackwards(fat, a, b, i, j);
      }
    }
  }

  lemma {:induction false} MeetBackwards(fat: Fat, a: seq<nat>, b: seq<nat>, i: nat, j: nat)
    requires Safe(fat) && IsChain(fat, a) && IsChain(fat, b)
    requires Unref(fat, a[0]) && Unref(fat, b[0])
    requires i < |a| && j < |b| && a[i] == b[j]
    ensures a[0] == b[0]
  {
    if i > 0 { assert fat[a[i - 1]] == a[i]; }
    if j > 0 { assert fat[b[j - 1]] == b[j]; }
    if i > 0 && j > 0 {
      MeetBackwards(fat, a, b, i - 1, j - 1);
    }
  }

  lemma SafeEnd(fat: Fat, c: nat, end: nat)
    requires Safe(fat) && IsCl(fat, c) && end >= |fat|
    ensures Safe(fat[c := end])
  {
  }

  lemma SafeLink(fat: Fat, c: nat, d: nat)
    requires Safe(fat) && IsCl(fat, c) && IsCl(fat, d) && c != d && fat[d] != 0 && Unref(fat, d)
    ensures Safe(fat[c := d])
  {
  }

  /** In a safe FAT nothing links to a free cluster. */
  lemma FreeIsUnref(fat: Fat, c: nat)
    requires Safe(fat) && IsCl(fat, c) && fat[c] == 0
    ensures Unref(fat, c)
  {
  }

  /** Freeing a head nobody links to leaves its successor a head nobody links to. */
  lemma SafeFreeHead(fat: Fat, c: nat)
    requires Safe(fat) && IsCl(fat, c) && Unref(fat, c)
    ensures Safe(fat[c := 0])
    ensures IsCl(fat, fat[c]) ==> Unref(fat[c := 0], fat[c])
  {
  }

  /** Cutting the link into c leaves c without predecessor. */
  lemma SafeCut(fat: Fat, p: nat, end: nat)
    requires Safe(fat) && IsCl(fat, p) && IsCl(fat, fat[p]) && end >= |fat|
    ensures Safe(fat[p := end]) && Unref(fat[p := end], fat[p])
  {
  }

  /** The count of free clusters is right whenever it is in range. */
  predicate Accurate(fat: Fat, free: nat) {
    |fat| >= 2 && (free <= |fat| - 2 ==> free == CountFree(fat))
  }

  /** remove_chain counts a freed cluster only while the count is in range. */
  lemma AccurateFreed(fat: Fat, c: nat, free: nat)
    requires Accurate(fat, free) && 2 <= c < |fat| && fat[c] != 0
    ensures Accurate(fat[c := 0], if free < |fat| - 2 then free + 1 else free)
  {
    CountUpdate(fat, c, 0);
    CountInUse(fat, c);
  }

  /** create_chain counts a taken cluster only while the count is in range. */
  lemma AccurateTaken(fat: Fat, c: nat, v: nat, free: nat)
    requires Accurate(fat, free) && 2 <= c < |fat| && fat[c] == 0 && v != 0
    ensures Accurate(fat[c := v], if 0 < free <= |fat| - 2 then free - 1 else free)
  {
    CountUpdate(fat, c, v);
  }

  /** Changing one used entry into another changes no count. */
  lemma AccurateRelinked(fat: Fat, c: nat, v: nat, free: nat)
    requires Accurate(fat, free) && 2 <= c < |fat| && fat[c] != 0 && v != 0
    ensures Accurate(fat[c := v], free)
  {
    CountUpdate(fat, c, v);
  }

  // ---- allocation ----

  /** The clusters after scl up to ncl, in cyclic order, are all in use. */
  ghost predicate Searched(fat: Fat, scl: int, ncl: int) {
    forall c :: IsCl(fat, c) && (if scl <= ncl then scl < c <= ncl else scl < c || c <= ncl) ==> fat[c] != 0
  }

  /** r is the first free cluster after scl in cyclic order. */
  ghost predicate NextFree(fat: Fat, scl: int, r: int) {
    && IsCl(fat, r) && fat[r] == 0
    && forall c :: IsCl(fat, c) && (if scl < r then scl < c < r else scl < c || c < r) ==> fat[c] != 0
  }

  /** The search moves on: from ncl to the next cluster, or from the last one to 2. */
  lemma SearchTurn(fat: Fat, scl: int, ncl: int)
    requires 1 <= scl < |fat| && (scl <= ncl < |fat| || 2 <= ncl < scl) && Searched(fat, scl, ncl)
    ensures var nxt := if ncl + 1 >= |fat| then 2 else ncl + 1;
            && (nxt <= scl || ncl + 1 < |fat| ==>
                  && 2 <= nxt < |fat|
                  && (nxt != scl && fat[nxt] != 0 ==> Searched(fat, scl, nxt))
                  && (fat[nxt] == 0 ==> NextFree(fat, scl, nxt))
                  && (nxt == scl && fat[nxt] != 0 ==> CountFree(fat) == 0))
            && (ncl + 1 >= |fat| && 2 > scl ==> CountFree(fat) == 0)
  {
    CountZero(fat);
  }

  lemma SearchStart(fat: Fat, scl: int)
    ensures Searched(fat, scl, scl)
  {
  }

  /** Where create_chain starts to look: the hint if it is a cluster number. */
  function Hint(fat: Fat, lastClst: nat, otherwise: nat): (h: nat)
    ensures 0 < lastClst < |fat| ==> h == lastClst
    ensures !(0 < lastClst < |fat|) ==> h == otherwise
  {
    if lastClst == 0 || lastClst >= |fat| then otherwise else lastClst
  }

  /** The cluster create_chain picks: a new chain takes the first free cluster after the
      hint; a stretched chain takes the next cluster if it is free. */
  ghost predicate Picked(fat: Fat, clst: nat, lastClst: nat, r: nat) {
    && IsCl(fat, r) && fat[r] == 0
    && (clst == 0 ==> NextFree(fat, Hint(fat, lastClst, 1), r))
    && (clst != 0 ==>
          var next := if clst + 1 >= |fat| then 2 else clst + 1;
          if IsCl(fat, next) && fat[next] == 0 then r == next
          else NextFree(fat, if lastClst < 2 then clst else Hint(fat, lastClst, clst), r))
  }

  /** The FAT after cluster r was taken and, if clst is given, linked behind it. */
  function Linked(fat: Fat, clst: nat, r: nat, end: nat): (f: Fat)
    requires 2 <= r < |fat| && (clst == 0 || 2 <= clst < |fat|)
    ensures |f| == |fat|
  {
    if clst == 0 then fat[r := end] else fat[r := end][clst := r]
  }

  lemma PickFacts(fat: Fat, clst: nat, lastClst: nat, r: nat)
    ensures 2 <= r < |fat| && clst == 0 && NextFree(fat, Hint(fat, lastClst, 1), r) ==> Picked(fat, clst, lastClst, r)
    ensures Hint(fat, lastClst, 1) == if lastClst == 0 || lastClst >= |fat| then 1 else lastClst
    ensures 2 <= clst < |fat| ==>
              var next := if clst + 1 >= |fat| then 2 else clst + 1;
              && 2 <= next < |fat|
              && (fat[next] == 0 ==> Picked(fat, clst, lastClst, next))
              && (fat[next] != 0 && NextFree(fat, if 2 <= lastClst < |fat| then lastClst else clst, r) ==> Picked(fat, clst, lastClst, r))
    ensures Picked(fat, clst, lastClst, r) ==> 2 <= r < |fat| && fat[r] == 0
  {
  }

  /** Nothing links to the cluster just taken. */
  lemma TakenIsUnref(fat: Fat, r: nat, end: nat)
    requires Safe(fat) && IsCl(fat, r) && fat[r] == 0 && end >= |fat|
    ensures Unref(fat[r := end], r)
  {
    FreeIsUnref(fat, r);
  }

  lemma NoneFree(fat: Fat, free: nat)
    ensures free == 0 && Accurate(fat, free) ==> CountFree(fat) == 0
  {
  }

  /** The two stores of create_chain and what they do to the free count. */
  lemma LinkedFacts(fat: Fat, clst: nat, r: nat, end: nat, free: nat)
    requires 2 <= r < |fat| && fat[r] == 0 && end >= |fat|
    requires clst == 0 || (2 <= clst < |fat| && fat[clst] != 0)
    ensures clst == 0 ==> Linked(fat, clst, r, end) == fat[r := end]
    ensures clst != 0 ==> Linked(fat, clst, r, end) == fat[r := end][clst := r]
    ensures Accurate(fat, free) ==> Accurate(Linked(fat, clst, r, end), if 0 < free <= |fat| - 2 then free - 1 else free)
  {
    if Accurate(fat, free) {
      var left := if 0 < free <= |fat| - 2 then free - 1 else free;
      AccurateTaken(fat, r, end, free);
      if clst != 0 { AccurateRelinked(fat[r := end], clst, r, left); }
    }
  }

  /** Why create_chain reports an internal error: the cluster to stretch is not one or
      not in use, or the search met an entry that holds 1. */
  ghost predicate Insane(fat: Fat, clst: nat) {
    || (clst != 0 && (!IsCl(fat, clst) || fat[clst] < 2))
    || exists c :: IsCl(fat, c) && fat[c] == 1
  }

  /** What create_chain returned r for: the successor clst already had, with nothing
      changed, or a cluster that was free, now the tail of the chain. */
  ghost predicate Created(fat: Fat, fat': Fat, clst: nat, lastClst: nat, r: nat, end: nat) {
    if IsCl(fat, clst) && IsCl(fat, fat[clst]) then r == fat[clst] && fat' == fat
    else
      && Picked(fat, clst, lastClst, r)
      && (clst == 0 || (IsCl(fat, clst) && fat[clst] >= |fat|))
      && fat' == Linked(fat, clst, r, end)
  }

  lemma InsaneFacts(fat: Fat, clst: nat)
    requires clst != 0
    ensures !(2 <= clst < |fat|) ==> Insane(fat, clst)
    ensures 2 <= clst < |fat| && fat[clst] < 2 ==> Insane(fat, clst)
  {
  }

  lemma InsaneEntry(fat: Fat, clst: nat)
    requires exists c :: 2 <= c < |fat| && fat[c] == 1
    ensures Insane(fat, clst)
  {
    var c :| 2 <= c < |fat| && fat[c] == 1;
    assert IsCl(fat, c);
  }

  lemma ExistingFacts(fat: Fat, clst: nat, lastClst: nat, end: nat)
    requires 2 <= clst < |fat| && 2 <= fat[clst] < |fat|
    ensures Created(fat, fat, clst, lastClst, fat[clst], end)
  {
  }

  lemma CreatedFacts(fat: Fat, clst: nat, lastClst: nat, end: nat)
    requires clst == 0 || (2 <= clst < |fat| && fat[clst] >= |fat|)
    ensures forall r :: 2 <= r < |fat| && Picked(fat, clst, lastClst, r) ==> Created(fat, Linked(fat, clst, r, end), clst, lastClst, r, end)
    ensures forall r :: 2 <= r < |fat| && fat[r] == 0 && end != 0 ==> Linked(fat, clst, r, end) != fat
  {
    forall r | 2 <= r < |fat| && fat[r] == 0 && end != 0
      ensures Linked(fat, clst, r, end) != fat
    {
      var l := Linked(fat, clst, r, end);
      assert l[r] != 0;
    }
  }

  /** Zero entries among all, the two reserved ones included: what the sector scan of
      f_getfree counts. */
  function CountZeros(fat: Fat): (k: nat)
    ensures k <= |fat|
  {
    if fat == [] then 0
    else CountZeros(fat[..|fat| - 1]) + if fat[|fat| - 1] == 0 then 1 else 0
  }

  /** The scan counts the free clusters plus the reserved entries that are zero. */
  lemma {:induction false} ZerosAreFree(fat: Fat)
    requires |fat| >= 2
    ensures CountZeros(fat) == CountFree(fat) + (if fat[0] == 0 then 1 else 0) + (if fat[1] == 0 then 1 else 0)
  {
    if |fat| == 2 {
      assert fat[..1][..0] == [];
    } else {
      ZerosAreFree(fat[..|fat| - 1]);
    }
  }

  lemma CountZerosStep(fat: Fat, c: nat)
    requires c < |fat|
    ensures CountZeros(fat[..c + 1]) == CountZeros(fat[..c]) + if fat[c] == 0 then 1 else 0
  {
    assert fat[..c + 1][..c] == fat[..c];
  }

  lemma CountFreeStep(fat: Fat, c: nat)
    requires 2 <= c < |fat|
    ensures CountFree(fat[..c + 1]) == CountFree(fat[..c]) + if fat[c] == 0 then 1 else 0
  {
    assert fat[..c + 1][..c] == fat[..c];
  }

  lemma WholeCounts(fat: Fat)
    requires |fat| >= 2
    ensures CountFree(fat[..2]) == 0 && CountZeros(fat[..0]) == 0
    ensures CountFree(fat[..|fat|]) == CountFree(fat) && CountZeros(fat[..|fat|]) == CountZeros(fat)
    ensures Accurate(fat, CountFree(fat))
    ensures CountZeros(fat) == CountFree(fat) + (if fat[0] == 0 then 1 else 0) + (if fat[1] == 0 then 1 else 0)
  {
    ZerosAreFree(fat);
    assert fat[..|fat|] == fat;
  }
}
