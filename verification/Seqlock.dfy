/** The block diagnostics: one writer updates a structure field by field between two
    increments of a sequence counter, and a reader copies it without a lock. The writer may
    run between any two accesses of the reader; WriterSteps() marks those places. */
module Seqlock {
  import opened Base
  import opened Numbers

  /** Wrapping keeps the lowest bit. */
  lemma WrapParity(n: nat)
    ensures Wrap(n) % 2 == n % 2
  {
    var q := n / 0x1_0000_0000;
    assert n == 0x1_0000_0000 * q + Wrap(n);
  }

  class Diagnostics {
    var sequence: u32
    const fields: array<u32>

    /** How often the counter was incremented, and the value of the structure after each
        complete update. */
    ghost var steps: nat
    ghost var versions: seq<seq<u32>>

    /** The counter is even outside an update, and then the structure has its latest value. */
    ghost predicate Valid()
      reads this, fields
    {
      && sequence == Wrap(steps)
      && |versions| == steps / 2 + 1
      && (forall i :: 0 <= i < |versions| ==> |versions[i]| == fields.Length)
      && (steps % 2 == 0 ==> fields[..] == versions[steps / 2])
    }

    constructor (initial: seq<u32>)
      ensures Valid() && steps == 0 && versions == [initial] && fresh(fields)
    {
      var f := new u32[|initial|](i requires 0 <= i < |initial| => initial[i]);
      sequence, fields, steps, versions := 0, f, 0, [initial];
      new;
      assert fields[..] == initial;
    }

    /** ++sequence at the start of an update. */
    method Begin()
      requires Valid() && steps % 2 == 0
      modifies `sequence, `steps
      ensures Valid() && steps == old(steps) + 1
    {
      WrapAdd(steps, 1);
      sequence := Wrap(sequence + 1);
      steps := steps + 1;
    }

    /** One store into the structure, which happens only inside an update. */
    method Store(i: nat, v: u32)
      requires Valid() && steps % 2 == 1 && i < fields.Length
      modifies fields
      ensures Valid() && fields[..] == old(fields[..])[i := v]
    {
      fields[i] := v;
    }

    /** ++sequence at the end of an update: the structure has a new version. */
    method End()
      requires Valid() && steps % 2 == 1
      modifies `sequence, `steps, `versions
      ensures Valid() && steps == old(steps) + 1 && versions == old(versions) + [fields[..]]
    {
      WrapAdd(steps, 1);
      sequence := Wrap(sequence + 1);
      steps := steps + 1;
      versions := versions + [fields[..]];
    }

    /** A whole update, as in record_begin, record_end and reset: it publishes exactly the
        structure with its stores applied. */
    method Update(stores: seq<(nat, u32)>)
      requires Valid() && steps % 2 == 0 && forall k :: 0 <= k < |stores| ==> stores[k].0 < fields.Length
      modifies this, fields
      ensures Valid() && steps == old(steps) + 2
      ensures versions == old(versions) + [Applied(old(fields[..]), stores)] && fields[..] == Applied(old(fields[..]), stores)
    {
      Begin();
      var k := 0;
      while k < |stores|
        invariant 0 <= k <= |stores| && Valid() && steps == old(steps) + 1 && versions == old(versions)
        invariant fields[..] == Applied(old(fields[..]), stores[..k])
      {
        Store(stores[k].0, stores[k].1);
        assert stores[..k + 1][..k] == stores[..k];
        k := k + 1;
      }
      assert stores[..k] == stores;
      End();
    }

    /** Any number of steps of the writer. Without an increment of the counter nothing
        outside an update changes. */
    method WriterSteps()
      requires Valid()
      modifies this, fields
      ensures Valid() && steps >= old(steps) && old(versions) <= versions
      ensures steps == old(steps) && steps % 2 == 0 ==> fields[..] == old(fields[..])
    {
      var count: nat := *;
      while count > 0
        invariant Valid() && steps >= old(steps) && old(versions) <= versions
        invariant steps == old(steps) && steps % 2 == 0 ==> fields[..] == old(fields[..])
      {
        if sequence % 2 == 0 {
          WrapParity(steps);
          Begin();
        } else {
          WrapParity(steps);
          var store: bool := *;
          if store && fields.Length > 0 {
            var i: nat := *;
            var v: u32 := *;
            if i < fields.Length { Store(i, v); }
          } else {
            End();
          }
        }
        count := count - 1;
      }
    }

    /** A load of the counter. */
    method Load() returns (s: u32, ghost at: nat)
      requires Valid()
      modifies this, fields
      ensures Valid() && old(steps) <= at <= steps && s == Wrap(at) && old(versions) <= versions
      ensures steps == at && at % 2 == 0 ==> fields[..] == versions[at / 2]
    {
      WriterSteps();
      s, at := sequence, steps;
      WriterSteps();
    }

    /** *snapshot = diagnostics->snapshot, field by field. The copy is a version only if the
        counter stood still. */
    method Copy() returns (snapshot: seq<u32>)
      requires Valid()
      modifies this, fields
      ensures Valid() && steps >= old(steps) && old(versions) <= versions && |snapshot| == fields.Length
      ensures steps == old(steps) && steps % 2 == 0 ==> snapshot == versions[steps / 2]
    {
      snapshot := [];
      while |snapshot| < fields.Length
        invariant Valid() && steps >= old(steps) && old(versions) <= versions && |snapshot| <= fields.Length
        invariant steps == old(steps) && steps % 2 == 0 ==> snapshot == fields[..|snapshot|]
      {
        snapshot := snapshot + [fields[|snapshot|]];
        ghost var before := fields[..];
        WriterSteps();
        if steps == old(steps) && steps % 2 == 0 { assert fields[..] == before; }
      }
      if steps == old(steps) && steps % 2 == 0 { assert fields[..|snapshot|] == fields[..]; }
    }

    /** One attempt of the reader: it succeeds only if the counter reads the same even value
        before and after the copy. */
    method Attempt() returns (ok: bool, snapshot: seq<u32>, ghost version: nat, ghost increments: nat)
      requires Valid()
      modifies this, fields
      ensures Valid() && steps >= old(steps) && old(versions) <= versions && increments <= steps - old(steps)
      ensures ok && increments < 0x1_0000_0000 ==> old(steps) / 2 <= version < |versions| && snapshot == versions[version]
      ensures steps == old(steps) ==> (ok <==> steps % 2 == 0)
    {
      ok, version, increments, snapshot := false, 0, 0, [];
      var before;
      ghost var at;
      before, at := Load();
      WrapParity(at);
      if before % 2 != 0 { return; }
      snapshot := Copy();
      var after;
      ghost var end;
      after, end := Load();
      version, increments := at / 2, end - at;
      if increments < 0x1_0000_0000 { WrapDiff(at, increments); }
      ok := before == after && after % 2 == 0;
    }

    /** The lock-free path of mtfs_block_diagnostics_get: at most eight attempts. A snapshot
        that is returned is the value of the structure at an instant of the call outside any
        update, if fewer than 2^31 updates (2^32 increments) took place during its copy, and so
        in particular if no more took place during the whole call. */
    method Get() returns (ok: bool, snapshot: seq<u32>, ghost version: nat, ghost increments: nat)
      requires Valid()
      modifies this, fields
      ensures Valid() && old(versions) <= versions && steps >= old(steps)
      ensures ok && increments < 0x1_0000_0000 ==> old(steps) / 2 <= version < |versions| && snapshot == versions[version]
      ensures increments <= steps - old(steps)
      ensures ok && steps - old(steps) < 0x1_0000_0000 ==> exists v :: old(steps) / 2 <= v < |versions| && snapshot == versions[v]
      ensures steps == old(steps) ==> (ok <==> steps % 2 == 0)
    {
      hide *;
      ok, version, increments, snapshot := false, 0, 0, [];
      var attempts := 0;
      while attempts < 8
        invariant 0 <= attempts <= 8 && Valid() && steps >= old(steps) && old(versions) <= versions && !ok
        invariant attempts > 0 && old(steps) % 2 == 0 ==> steps > old(steps)
        invariant increments <= steps - old(steps)
      {
        attempts := attempts + 1;
        ok, snapshot, version, increments := Attempt();
        if ok { return; }
      }
    }
  }

  /** A field has the value of the last store to it. */
  lemma {:induction false} AppliedLast(f: seq<u32>, stores: seq<(nat, u32)>, i: nat, k: nat)
    requires i < |f| && forall j :: 0 <= j < |stores| ==> stores[j].0 < |f|
    requires k < |stores| && stores[k].0 == i && forall j :: k < j < |stores| ==> stores[j].0 != i
    ensures Applied(f, stores)[i] == stores[k].1
  {
    var m := |stores| - 1;
    if k < m { AppliedLast(f, stores[..m], i, k); }
  }

  /** A field nobody stored to keeps its value. */
  lemma {:induction false} AppliedNone(f: seq<u32>, stores: seq<(nat, u32)>, i: nat)
    requires i < |f| && forall j :: 0 <= j < |stores| ==> stores[j].0 < |f| && stores[j].0 != i
    ensures Applied(f, stores)[i] == f[i]
  {
    if stores != [] { AppliedNone(f, stores[..|stores| - 1], i); }
  }

  /** The structure after a list of stores. */
  function Applied(f: seq<u32>, stores: seq<(nat, u32)>): (r: seq<u32>)
    requires forall k :: 0 <= k < |stores| ==> stores[k].0 < |f|
    ensures |r| == |f|
  {
    if stores == [] then f
    else
      var k := |stores| - 1;
      Applied(f, stores[..k])[stores[k].0 := stores[k].1]
  }
}
