/** The card-detect debouncer. The interrupt handler may run between any two accesses the
    task makes to the notification sequence; Interrupts() marks those places. */
module Media {
  import opened Base
  import opened Numbers

  const INT32_MAX: nat := 0x7FFF_FFFF
  const WAIT_FOREVER: u32 := 0xFFFF_FFFF

  datatype State = Absent | DebouncingInsert | Present | DebouncingRemove | Error

  datatype MResult = Ok | Io | NotReady

  lemma WrapFull(a: nat, d: nat)
    requires a < 0x1_0000_0000 && 0 < d <= 0x1_0000_0000
    ensures Wrap(a + d) == a <==> d == 0x1_0000_0000
  {
  }

  /** mtfs_media_deadline_reached: the sign of the wrapped difference. */
  function DeadlineReached(now: u32, deadline: u32): bool {
    Sub32(now, deadline) < 0x8000_0000
  }

  /** On the true time scale: never early, and never missed within 2^31 ms. */
  lemma DeadlineExact(ms: nat, start: nat, debounce: nat)
    requires start <= ms && debounce <= INT32_MAX
    ensures DeadlineReached(Wrap(ms), Wrap(start + debounce)) ==> ms >= start + debounce
    ensures ms < start + debounce + 0x8000_0000 ==>
              (DeadlineReached(Wrap(ms), Wrap(start + debounce)) <==> ms >= start + debounce)
    ensures ms < start + debounce ==> Sub32(Wrap(start + debounce), Wrap(ms)) == start + debounce - ms
  {
    var t := start + debounce;
    if ms >= t { Difference(t, ms - t); } else { Difference(ms, t - ms); }
  }

  lemma Difference(a: nat, d: nat)
    ensures Sub32(Wrap(a + d), Wrap(a)) == Wrap(d)
    ensures 0 < d < 0x1_0000_0000 ==> Sub32(Wrap(a), Wrap(a + d)) == 0x1_0000_0000 - d
    ensures d == 0 ==> Sub32(Wrap(a), Wrap(a + d)) == 0
    ensures d < 0x1_0000_0000 ==> Wrap(d) == d
  {
    WrapAdd(a, d);
    var x: int, y: int := Wrap(a), Wrap(d);
    assert Wrap(a + d) == Wrap(x + y) by { WrapAdd(d, x); }
    assert Wrap(x + y) == if x + y < 0x1_0000_0000 then x + y else x + y - 0x1_0000_0000;
  }

  /** Insertions and removals take turns, beginning with the opposite of the first state. */
  predicate Alternating(edges: seq<bool>, initial: bool) {
    forall i :: 0 <= i < |edges| ==> edges[i] == if i % 2 == 0 then !initial else initial
  }

  lemma EdgeAdded(edges: seq<bool>, initial: bool, present: bool)
    requires Alternating(edges, initial)
    ensures present != (if |edges| % 2 == 0 then initial else !initial) ==>
              && Alternating(edges + [present], initial)
              && present == if |edges + [present]| % 2 == 0 then initial else !initial
  {
  }

  /** Results of reads were added, and those of reads before time c are what they were. */
  ghost predicate Grew(m: map<nat, bool>, m': map<nat, bool>, c: nat) {
    forall t :: t in m ==> t in m' && (t < c ==> m'[t] == m[t])
  }

  lemma GrewOne(m: map<nat, bool>, c: nat, t: nat, level: bool)
    ensures Grew(m, m, c) && (t >= c ==> Grew(m, m[t := level], c))
  {
  }

  lemma GrewTwice(m: map<nat, bool>, m': map<nat, bool>, m'': map<nat, bool>, c: nat, c': nat)
    requires Grew(m, m', c) && Grew(m', m'', c') && c <= c'
    ensures Grew(m, m'', c)
  {
  }

  lemma GrewAt(m: map<nat, bool>, m': map<nat, bool>, c: nat, t: nat)
    requires Grew(m, m', c) && t in m && t < c
    ensures t in m' && m'[t] == m[t]
  {
  }

  class Context {
    const debounce: nat
    const activeHigh: bool
    /** Shared with the interrupt handler. */
    var sequence: u32
    var accepting: bool
    /** Owned by the task. */
    var initialized: bool
    var observed: u32
    var deadline: u32
    var state: State
    var stable: bool
    var candidate: bool
    var polledRaw: bool
    var debouncing: bool
    var generation: u32

    /** Notifications not yet observed. */
    ghost var pending: nat
    /** A count of all accesses, used as a clock; the times of the last notification and of
        the beginning of the reads that gave the stable state and the candidate; and the result
        of each read that did not fail, with the number of those that did. */
    ghost var clock: nat
    ghost var lastNotified: nat
    ghost var stableRead: nat
    ghost var candidateRead: nat
    ghost var results: map<nat, bool>
    ghost var failures: nat
    /** The events sent, the state found by init, and the true time of the last debounce. */
    ghost var edges: seq<bool>
    ghost var initial: bool
    ghost var started: nat
    /** The notifications made by the task itself. */
    ghost var own: nat

    /** The sequence counts notifications modulo 2^32, and fewer than 2^32 are pending. */
    ghost predicate Linked()
      reads `sequence, `observed, `pending, `clock, `lastNotified, `stableRead, `candidateRead
    {
      && pending < 0x1_0000_0000 && sequence == Wrap(observed + pending)
      && lastNotified < clock && stableRead < clock && candidateRead < clock
    }

    /** No notification is lost: at rest with nothing pending, the stable state is what a
        read that began after the last notification found. A debounce waits for the state that
        a read found. */
    ghost predicate Fresh()
      reads `debouncing, `state, `pending, `lastNotified, `stableRead, `results, `stable, `candidate, `candidateRead
    {
      && (state != Error && !debouncing ==>
            && stableRead in results && results[stableRead] == stable
            && (pending == 0 ==> lastNotified < stableRead))
      && (debouncing ==> candidateRead in results && results[candidateRead] == candidate)
    }

    ghost predicate History()
      reads `edges, `initial, `stable, `generation
    {
      && Alternating(edges, initial)
      && stable == (if |edges| % 2 == 0 then initial else !initial)
      && generation == Wrap((if initial then 1 else 0) + |edges|)
    }

    ghost predicate Valid()
      reads `sequence, `observed, `pending, `clock, `lastNotified, `stableRead, `candidateRead, `results
      reads `debouncing, `deadline, `started, `state, `stable, `candidate, `edges, `initial, `generation
    {
      Linked() && Fresh() && History() && Shape() && debounce <= INT32_MAX
    }

    /** mtfs_media_init; a failed read leaves the context in the error state. */
    constructor (debounce: nat, activeHigh: bool, value: int)
      requires debounce <= INT32_MAX
      ensures Valid() && initialized && accepting && pending == 0 && this.debounce == debounce
      ensures state == if value < 0 then Error else if (value != 0) == activeHigh then Present else Absent
      ensures edges == [] && !debouncing && (value >= 0 ==> polledRaw == (value != 0))
    {
      this.debounce, this.activeHigh := debounce, activeHigh;
      sequence, observed, deadline, pending := 0, 0, 0, 0;
      clock, lastNotified, stableRead, candidateRead, started := 2, 0, 1, 1, 0;
      accepting, initialized, debouncing, failures, own := true, true, false, 0, 0;
      edges := [];
      if value < 0 {
        state, stable, candidate, polledRaw, generation, initial := Error, false, false, false, 0, false;
        results := map[];
      } else {
        var present := (value != 0) == activeHigh;
        stable, candidate, polledRaw := present, present, value != 0;
        generation := if present then 1 else 0;
        state := if present then Present else Absent;
        initial := present;
        results := map[1 := present];
      }
    }

    /** mtfs_media_notify_isr: the handler runs to its end before the task goes on. */
    method NotifyIsr() returns (r: MResult)
      requires Linked() && pending + 1 < 0x1_0000_0000
      modifies `sequence, `pending, `clock, `lastNotified
      ensures Linked() && clock >= old(clock)
      ensures initialized && accepting ==> r == Ok && pending == old(pending) + 1 && lastNotified >= old(clock)
      ensures !(initialized && accepting) ==> r == NotReady && pending == old(pending) && lastNotified == old(lastNotified)
    {
      if !initialized || !accepting { return NotReady; }
      WrapAdd(observed + pending, 1);
      sequence := Wrap(sequence + 1);
      pending := pending + 1;
      lastNotified := clock;
      clock := clock + 1;
      r := Ok;
    }

    /** Any number of interrupts, as long as they leave fewer than 2^32 - 1 notifications
        pending. */
    method Interrupts()
      requires Linked()
      modifies `sequence, `pending, `clock, `lastNotified
      ensures Linked() && clock >= old(clock) && pending >= old(pending)
      ensures old(pending) + 1 < 0x1_0000_0000 ==> pending + 1 < 0x1_0000_0000
      ensures pending == old(pending) <==> lastNotified == old(lastNotified)
      ensures lastNotified >= old(lastNotified)
    {
      while *
        invariant Linked() && clock >= old(clock) && pending >= old(pending)
        invariant pending > old(pending) ==> lastNotified >= old(clock)
        invariant pending == old(pending) ==> lastNotified == old(lastNotified)
        invariant lastNotified >= old(lastNotified)
        invariant old(pending) + 1 < 0x1_0000_0000 ==> pending + 1 < 0x1_0000_0000
        invariant initialized == old(initialized) && accepting == old(accepting)
        decreases 0x1_0000_0000 - pending
      {
        WrapAdd(observed + pending, 1);
        WrapFull(observed, pending + 1);
        if pending + 2 <= 0x1_0000_0000 {
          WrapAdd(observed + pending, 2);
          WrapFull(observed, pending + 2);
        }
        if !initialized || !accepting || Wrap(sequence + 1) == observed || Wrap(sequence + 2) == observed { break; }
        var _ := NotifyIsr();
      }
    }

    /** mtfs_media_read: interrupts may come before, during and after it. */
    method ReadSignal() returns (ok: bool, raw: bool, present: bool, ghost began: nat)
      requires Linked()
      modifies `sequence, `pending, `clock, `lastNotified, `results, `failures
      ensures failures == old(failures) + if ok then 0 else 1
      ensures Linked() && clock >= old(clock) && pending >= old(pending)
      ensures old(pending) + 1 < 0x1_0000_0000 ==> pending + 1 < 0x1_0000_0000
      ensures lastNotified >= old(lastNotified)
      ensures pending == old(pending) <==> lastNotified == old(lastNotified)
      ensures pending == old(pending) ==> lastNotified < began
      ensures present == (raw == activeHigh)
      ensures ok ==> results == old(results)[began := present]
      ensures old(clock) <= began < clock
      ensures !ok ==> results == old(results)
    {
      Interrupts();
      began := clock;
      clock := clock + 1;
      var value: int := *;
      raw, present, ok := value != 0, (value != 0) == activeHigh, value >= 0;
      Interrupts();
      if ok { results := results[began := present]; } else { failures := failures + 1; }
    }

    method EnterError() returns (r: MResult)
      requires Linked() && History() && debounce <= INT32_MAX
      modifies `state, `debouncing
      ensures Valid() && state == Error && !debouncing && r == Io
    {
      state := Error;
      debouncing := false;
      r := Io;
    }

    /** mtfs_media_start_debounce. */
    method StartDebounce(present: bool, now: u32, ghost ms: nat, ghost began: nat)
      requires Linked() && History() && debounce <= INT32_MAX && now == Wrap(ms)
      requires began in results && results[began] == present && began < clock
      modifies `candidate, `candidateRead, `state, `deadline, `debouncing, `started
      ensures Valid() && debouncing && candidate == present && started == ms && candidateRead == began
    {
      hide Wrap, Alternating;
      candidate := present;
      candidateRead := began;
      state := if present then DebouncingInsert else DebouncingRemove;
      WrapAdd(ms, debounce);
      deadline := Wrap(now + debounce);
      started := ms;
      debouncing := true;
    }

    /** mtfs_media_settle: the generation advances once per event, and the event is sent
        only if the stable state changes. */
    method Settle(present: bool, ghost began: nat)
      requires Linked() && History() && debounce <= INT32_MAX
      requires began in results && results[began] == present && began < clock && (pending == 0 ==> lastNotified < began)
      modifies `stable, `state, `debouncing, `generation, `edges, `stableRead
      ensures Valid() && !debouncing && stable == present && stableRead == began
      ensures edges == if present != old(stable) then old(edges) + [present] else old(edges)
    {
      hide Alternating, Wrap;
      EdgeAdded(edges, initial, present);
      var changed := present != stable;
      stable := present;
      stableRead := began;
      state := if present then Present else Absent;
      debouncing := false;
      if !changed { return; }
      edges := edges + [present];
      WrapAdd((if initial then 1 else 0) + |edges| - 1, 1);
      generation := Wrap(generation + 1);
    }

    /** What the task saw is now observed: the notifications since then stay pending. */
    method Observe(seen: u32, ghost before: nat)
      requires Linked() && before <= pending && seen == Wrap(observed + before)
      modifies `observed, `pending
      ensures Linked() && pending == old(pending) - before && observed == seen
    {
      WrapAdd(observed + before, pending - before);
      observed := seen;
      pending := pending - before;
    }

    lemma ValidParts()
      requires Valid()
      ensures Linked() && Fresh() && History() && debounce <= INT32_MAX
      ensures Shape() && (debouncing ==> deadline == Wrap(started + debounce) && state != Error)
      ensures state != Error && !debouncing ==>
                && stableRead in results && results[stableRead] == stable && stableRead < clock
                && (pending == 0 ==> lastNotified < stableRead)
      ensures debouncing ==> candidateRead in results && results[candidateRead] == candidate && candidateRead < clock
    {
    }

    /** No notification is lost: when the context is at rest, not in error, and the observed
        sequence is the notified one, a read that began after the last notification found
        the stable state. */
    lemma NothingLost()
      requires Valid() && !debouncing && state != Error && observed == sequence
      ensures stableRead in results && results[stableRead] == stable && lastNotified < stableRead
      ensures state == if stable then Present else Absent
    {
      hide *;
      ValidParts();
      LinkedParts();
      WrapFullOrNone();
      RestState();
    }

    lemma WrapFullOrNone()
      requires Linked() && observed == sequence
      ensures pending == 0
    {
      WrapDiff(observed, pending);
    }

    lemma RestState()
      requires Shape() && !debouncing && state != Error
      ensures state == if stable then Present else Absent
    {
    }

    /** The fields that depend on whether a debounce is running. */
    ghost predicate Shape()
      reads `debouncing, `deadline, `started, `state, `stable, `candidate
    {
      && (debouncing ==> deadline == Wrap(started + debounce) && state == if candidate then DebouncingInsert else DebouncingRemove)
      && (!debouncing ==> state == Error || state == if stable then Present else Absent)
    }

    lemma ValidOf()
      requires Linked() && History() && Shape() && debounce <= INT32_MAX
      requires state != Error && !debouncing ==>
                 && stableRead in results && results[stableRead] == stable
                 && (pending == 0 ==> lastNotified < stableRead)
      requires debouncing ==> candidateRead in results && results[candidateRead] == candidate
      ensures Valid()
    {
    }

    /** A load of the notification sequence, with interrupts around it. */
    method Load() returns (seen: u32, ghost before: nat)
      requires Linked()
      modifies `sequence, `pending, `clock, `lastNotified
      ensures Linked() && old(pending) <= before <= pending && seen == Wrap(observed + before)
      ensures pending == before ==> sequence == seen
      ensures clock >= old(clock) && lastNotified >= old(lastNotified)
      ensures pending == old(pending) <==> lastNotified == old(lastNotified)
    {
      hide *;
      Interrupts();
      LinkedParts();
      seen, before := sequence, pending;
      Interrupts();
      LinkedParts();
    }

    /** Remember what was seen before the read and debounce what it found. */
    method Restart(seen: u32, ghost before: nat, present: bool, now: u32, ghost ms: nat, ghost began: nat)
      requires Linked() && History() && debounce <= INT32_MAX && now == Wrap(ms)
      requires began in results && results[began] == present && began < clock
      requires before <= pending && seen == Wrap(observed + before)
      modifies `sequence, `pending, `clock, `lastNotified, `observed, `candidate, `candidateRead, `state, `deadline, `debouncing, `started
      ensures Valid() && debouncing && started == ms && candidate == present && candidateRead == began && clock >= old(clock)
      ensures lastNotified >= old(lastNotified)
      ensures lastNotified == old(lastNotified) ==> pending == old(pending) - before
    {
      hide *;
      Observe(seen, before);
      Interrupts();
      StartDebounce(present, now, ms, began);
    }

    /** The first half of mtfs_media_process: notifications start a new debounce for what a
        read then finds. The sequence is sampled before the read, so one that races the read
        stays pending. With nothing pending, nothing happens. */
    method Sample(now: u32, ghost ms: nat) returns (ok: bool, ghost sampled: bool)
      requires Valid() && now == Wrap(ms) && started <= ms
      modifies `sequence, `pending, `clock, `lastNotified, `results, `failures, `polledRaw
      modifies `observed, `candidate, `candidateRead, `state, `deadline, `debouncing, `started
      ensures Valid() && clock >= old(clock) && lastNotified >= old(lastNotified)
      ensures ok && sampled ==>
                && debouncing && started == ms && candidateRead >= old(clock)
                && results == old(results)[candidateRead := candidate] && candidate == (polledRaw == activeHigh)
      ensures ok && !sampled ==> polledRaw == old(polledRaw)
      ensures ok && !sampled ==>
                && started == old(started) && debouncing == old(debouncing) && candidate == old(candidate)
                && candidateRead == old(candidateRead) && state == old(state) && results == old(results) && observed == old(observed)
      ensures !ok ==> state == Error && !debouncing && started == old(started)
      ensures failures == old(failures) + if ok then 0 else 1
      ensures lastNotified == old(lastNotified) ==> (sampled <==> old(pending) > 0) && (ok ==> pending == 0)
      ensures old(pending) > 0 ==> sampled
    {
      hide *;
      ValidParts();
      LinkedParts();
      var seen;
      ghost var before;
      seen, before := Load();
      LinkedParts();
      WrapIs(observed);
      WrapDiff(observed, before);
      ok, sampled := true, seen != observed;
      if seen != observed {
        var raw, present;
        ghost var began;
        ok, raw, present, began := ReadSignal();
        if !ok { var _ := EnterError(); return; }
        polledRaw := raw;
        Restart(seen, before, present, now, ms, began);
      } else {
        ValidOf();
      }
    }

    lemma LinkedParts()
      requires Linked()
      ensures pending < 0x1_0000_0000 && sequence == Wrap(observed + pending) && lastNotified < clock
      ensures stableRead < clock && candidateRead < clock
    {
    }

    /** Every read since time t found this level. */
    ghost predicate Steady(t: nat, level: bool)
      reads `results
    {
      forall u :: u in results && u >= t ==> results[u] == level
    }

    /** mtfs_media_process. No settle comes early; and without a notification, and with the
        level that the debounce began with, the first call past the deadline settles. */
    method Process(now: u32, ghost ms: nat) returns (r: MResult, wait: u32)
      requires Valid() && now == Wrap(ms) && started <= ms
      modifies this
      ensures Valid() && started <= ms && initialized == old(initialized) && accepting == old(accepting)
      ensures r == NotReady <==> !old(initialized)
      ensures r == NotReady ==> edges == old(edges) && debouncing == old(debouncing)
      ensures r == Io ==> state == Error && edges == old(edges)
      ensures r == Io <==> failures > old(failures)
      ensures edges == old(edges) || (edges == old(edges) + [stable] && ms >= started + debounce)
      ensures r == Ok && old(debouncing) && !debouncing ==> ms >= started + debounce
      ensures r == Ok && debouncing && ms < started + debounce + 0x8000_0000 ==> wait as int == started + debounce - ms
      ensures r == Ok && !debouncing ==> wait == WAIT_FOREVER
      ensures r == Ok && lastNotified == old(lastNotified) && old(pending) == 0 && !old(debouncing) ==>
                !debouncing && edges == old(edges) && state == old(state) && results == old(results)
      ensures r == Ok && old(pending) > 0 && debounce > 0 ==> debouncing && started == ms && candidateRead >= old(clock)
      ensures r == Ok && debouncing && started == ms && old(started) < ms ==> candidateRead >= old(clock)
      ensures r == Ok ==> Grew(old(results), results, old(clock))
      ensures r == Ok && debouncing && candidateRead >= old(clock) ==> candidate == (polledRaw == activeHigh)
      ensures r == Ok && !debouncing && stableRead >= old(clock) ==> stable == (polledRaw == activeHigh)
      ensures own == old(own)
      ensures r == Ok && old(debouncing) && old(pending) == 0 && lastNotified == old(lastNotified) && Steady(old(clock), old(candidate)) ==>
                && (ms < old(started) + debounce ==> debouncing && candidate == old(candidate) && edges == old(edges))
                && (old(started) + debounce <= ms < old(started) + debounce + 0x8000_0000 ==>
                      && !debouncing && stable == old(candidate)
                      && edges == if old(candidate) != old(stable) then old(edges) + [old(candidate)] else old(edges))
    {
      hide *;
      Constants();
      wait := WAIT_FOREVER;
      if !initialized { return NotReady, wait; }
      ValidParts();
      LinkedParts();
      var ok;
      ghost var sampled;
      ok, sampled := Sample(now, ms);
      GrewOne(old(results), old(clock), candidateRead, candidate);
      if !ok { return Io, wait; }
      if !debouncing { return Ok, wait; }
      ValidParts();
      DeadlineExact(ms, started, debounce);
      if !DeadlineReached(now, deadline) {
        wait := Sub32(deadline, now);
        return Ok, wait;
      }
      ghost var c1, m1 := clock, results;
      r, wait := Recheck(now, ms);
      if r == Ok {
        GrewOne(m1, c1, if debouncing then candidateRead else stableRead, if debouncing then candidate else stable);
        GrewTwice(old(results), m1, results, old(clock), c1);
      }
      SteadyLater(old(clock), c1, old(candidate));
    }

    lemma SteadyLater(t: nat, u: nat, level: bool)
      requires t <= u
      ensures Steady(t, level) ==> Steady(u, level)
    {
    }

    lemma SteadyAt(t: nat, level: bool, u: nat)
      requires Steady(t, level) && u in results && u >= t
      ensures results[u] == level
    {
    }

    lemma Constants()
      ensures INT32_MAX == 0x7FFF_FFFF && WAIT_FOREVER == 0xFFFF_FFFF
    {
    }

    /** The second half of mtfs_media_process: the deadline is reached. The state settles
        if and only if no notification raced the read and the read confirms the candidate. */
    method Recheck(now: u32, ghost ms: nat) returns (r: MResult, wait: u32)
      requires Valid() && debouncing && now == Wrap(ms) && started + debounce <= ms
      modifies `sequence, `pending, `clock, `lastNotified, `results, `failures, `polledRaw
      modifies `observed, `candidate, `candidateRead, `state, `deadline, `debouncing, `started
      modifies `stable, `generation, `edges, `stableRead
      ensures Valid() && r != NotReady && lastNotified >= old(lastNotified)
      ensures r == Io ==> state == Error && !debouncing && edges == old(edges) && started == old(started)
      ensures failures == old(failures) + if r == Io then 1 else 0
      ensures r == Ok && debouncing ==>
                && started == ms && wait == debounce && edges == old(edges) && stable == old(stable)
                && candidateRead >= old(clock) && results == old(results)[candidateRead := candidate]
      ensures r == Ok ==> (polledRaw == activeHigh) == if debouncing then candidate else stable
      ensures r == Ok && !debouncing ==>
                && started == old(started) && wait == WAIT_FOREVER && stable == old(candidate)
                && stableRead >= old(clock) && results == old(results)[stableRead := stable]
                && edges == if stable != old(stable) then old(edges) + [stable] else old(edges)
      ensures r == Ok && lastNotified == old(lastNotified) && Steady(old(clock), old(candidate)) ==> !debouncing
    {
      hide *;
      Constants();
      ValidParts();
      wait := WAIT_FOREVER;
      var ok, seen, present;
      ghost var before, began;
      ok, seen, before, present, began := Probe();
      if !ok { r := EnterError(); return; }
      if Steady(old(clock), old(candidate)) { SteadyAt(old(clock), old(candidate), began); }
      wait := Confirm(seen, before, present, now, ms, began);
      r := Ok;
    }

    /** Load the sequence and then read the signal. */
    method Probe() returns (ok: bool, seen: u32, ghost before: nat, present: bool, ghost began: nat)
      requires Linked()
      modifies `sequence, `pending, `clock, `lastNotified, `results, `failures, `polledRaw
      ensures Linked() && old(pending) <= before <= pending && seen == Wrap(observed + before)
      ensures old(clock) <= began < clock && lastNotified >= old(lastNotified)
      ensures pending == old(pending) <==> lastNotified == old(lastNotified)
      ensures pending == before ==> lastNotified < began
      ensures failures == old(failures) + if ok then 0 else 1
      ensures ok ==> results == old(results)[began := present] && present == (polledRaw == activeHigh)
      ensures !ok ==> results == old(results) && polledRaw == old(polledRaw)
    {
      hide *;
      seen, before := Load();
      var raw;
      ok, raw, present, began := ReadSignal();
      if ok { polledRaw := raw; }
    }

    /** The decision after the read that began at `began` and found `present`. */
    method Confirm(seen: u32, ghost before: nat, present: bool, now: u32, ghost ms: nat, ghost began: nat) returns (wait: u32)
      requires Linked() && History() && debounce <= INT32_MAX && now == Wrap(ms) && before <= pending && seen == Wrap(observed + before)
      requires began in results && results[began] == present && began < clock && (pending == before ==> lastNotified < began)
      modifies `sequence, `pending, `clock, `lastNotified
      modifies `observed, `candidate, `candidateRead, `state, `deadline, `debouncing, `started
      modifies `stable, `generation, `edges, `stableRead
      ensures Valid() && lastNotified >= old(lastNotified)
      ensures debouncing ==>
                && started == ms && wait as int == debounce && edges == old(edges) && stable == old(stable)
                && candidateRead == began && candidate == present
      ensures !debouncing ==>
                && started == old(started) && wait == WAIT_FOREVER && stable == old(candidate) == present && stableRead == began
                && edges == if stable != old(stable) then old(edges) + [stable] else old(edges)
      ensures lastNotified == old(lastNotified) && old(pending) == before && present == old(candidate) ==> !debouncing
    {
      hide *;
      Constants();
      LinkedParts();
      wait := WAIT_FOREVER;
      var again;
      ghost var after;
      again, after := Load();
      LinkedParts();
      WrapDiff(observed + before, after - before);
      if seen != again || present != candidate {
        Restart(seen, before, present, now, ms, began);
        return debounce;
      }
      Settle(present, began);
    }

    /** The increment of the task is a load and a store with interrupts between them: those
        notifications may not be counted, but one stays pending. */
    method Increment()
      requires Linked() && pending + 1 < 0x1_0000_0000
      modifies `sequence, `pending, `clock, `lastNotified, `own
      ensures own == old(own) + 1
      ensures Linked() && 0 < pending && clock >= old(clock)
    {
      hide *;
      LinkedParts();
      var loaded := sequence;
      ghost var before := pending;
      Interrupts();
      LinkedParts();
      WrapAdd(observed + before, 1);
      sequence := Wrap((loaded as int) + 1);
      pending := before + 1;
      lastNotified := clock;
      clock := clock + 1;
      own := own + 1;
      LinkedOf();
    }

    lemma LinkedOf()
      requires pending < 0x1_0000_0000 && sequence == Wrap(observed + pending) && lastNotified < clock
      requires stableRead < clock && candidateRead < clock
      ensures Linked()
    {
    }

    /** mtfs_media_read outside a debounce step. */
    method ReadLevel() returns (ok: bool, raw: bool, present: bool, ghost began: nat)
      requires Valid() && pending + 1 < 0x1_0000_0000
      modifies `sequence, `pending, `clock, `lastNotified, `results, `failures
      ensures Valid() && pending + 1 < 0x1_0000_0000 && old(clock) <= began < clock
      ensures failures == old(failures) + if ok then 0 else 1
      ensures present == (raw == activeHigh) && (ok ==> results == old(results)[began := present])
    {
      hide *;
      ValidParts();
      ok, raw, present, began := ReadSignal();
      ValidOf();
    }

    /** A notification of the task. */
    method CountNotification()
      requires Valid() && pending + 1 < 0x1_0000_0000
      modifies `sequence, `pending, `clock, `lastNotified, `own
      ensures Valid() && 0 < pending && clock >= old(clock) && own == old(own) + 1
    {
      hide *;
      ValidParts();
      Increment();
      ValidOf();
    }

    /** mtfs_media_notify: a notification from the task. */
    method Notify() returns (r: MResult)
      requires Valid() && pending + 1 < 0x1_0000_0000
      modifies `sequence, `pending, `clock, `lastNotified, `results, `failures, `state, `debouncing, `own
      ensures own == old(own) + if r == Ok then 1 else 0
      ensures Valid()
      ensures r == NotReady <==> !(initialized && accepting)
      ensures r == Ok ==> 0 < pending && state == old(state) && debouncing == old(debouncing)
      ensures r == Io ==> state == Error
      ensures failures == old(failures) + if r == Io then 1 else 0
      ensures r == NotReady ==> pending == old(pending) && state == old(state) && debouncing == old(debouncing)
    {
      hide *;
      if !initialized || !accepting { return NotReady; }
      var ok, raw, present, began := ReadLevel();
      if !ok { ValidParts(); r := EnterError(); return; }
      CountNotification();
      r := Ok;
    }

    /** The first part of mtfs_media_poll: a level that differs from the last one polled is
        a notification. */
    method PollLevel() returns (r: MResult, ghost began: nat)
      requires Valid() && pending + 1 < 0x1_0000_0000
      modifies `sequence, `pending, `clock, `lastNotified, `results, `failures, `state, `debouncing, `polledRaw, `own
      ensures own == old(own) + if polledRaw != old(polledRaw) then 1 else 0
      ensures Valid() && (r == Ok || r == Io) && failures == old(failures) + if r == Io then 1 else 0
      ensures r == Io ==> state == Error && !debouncing
      ensures r == Ok ==> state == old(state) && debouncing == old(debouncing) && (polledRaw != old(polledRaw) ==> 0 < pending)
      ensures r == Ok ==> old(clock) <= began < clock && began in results && results[began] == (polledRaw == activeHigh)
    {
      hide *;
      var ok, raw, present;
      ok, raw, present, began := ReadLevel();
      if !ok { ValidParts(); r := EnterError(); return; }
      if raw != polledRaw {
        polledRaw := raw;
        CountNotification();
      }
      r := Ok;
    }

    /** mtfs_media_poll. A level that differs from the one polled before starts a debounce; one
        that does not makes no notification. */
    method Poll(now: u32, ghost ms: nat) returns (r: MResult, wait: u32)
      requires Valid() && now == Wrap(ms) && started <= ms && pending + 1 < 0x1_0000_0000
      modifies this
      ensures Valid() && started <= ms
      ensures r == NotReady <==> !old(initialized && accepting)
      ensures r == NotReady || r == Io ==> edges == old(edges)
      ensures r == Io ==> state == Error
      ensures r == Io <==> failures > old(failures)
      ensures edges == old(edges) || (edges == old(edges) + [stable] && ms >= started + debounce)
      ensures r == Ok && debounce > 0 ==>
                forall level: bool :: Steady(old(clock), level) && level != (old(polledRaw) == activeHigh) ==>
                  debouncing && started == ms && candidate == level
      ensures r == Ok && Steady(old(clock), old(polledRaw) == activeHigh) ==> own == old(own)
    {
      hide *;
      wait := WAIT_FOREVER;
      if !initialized || !accepting { return NotReady, wait; }
      ghost var began;
      r, began := PollLevel();
      if r == Io { return; }
      ghost var c1, m1 := clock, results;
      r, wait := Process(now, ms);
      if r == Ok {
        GrewAt(m1, results, c1, began);
        PollSteady(old(clock), began);
      }
    }

    /** A steady level is that of the read that began at t, and of the candidate. */
    lemma PollSteady(c: nat, t: nat)
      requires Valid() && t in results && c <= t
      ensures forall level: bool :: Steady(c, level) ==> results[t] == level
      ensures forall level: bool :: Steady(c, level) && debouncing && candidateRead >= c ==> candidate == level
    {
      ValidParts();
    }
  }
}
