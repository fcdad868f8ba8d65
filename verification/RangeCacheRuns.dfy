/**
 What holds of the range cache over every run: accounting, the byte bound, recency order, and how
 nested ranges can come to coexist (browser/src/http.ts, `HttpRangeCache`).
 */
module RangeCacheRuns {
  import opened Wrappers
  import opened Sequences
  import opened RangeCache

  // ---------- invariants of a single state ----------

  ghost function SettledLength(e: Entry): int { if e.settled then Length(e) else 0 }

  ghost function Bytes(ranges: seq<Entry>): int { Sum(ranges, Length) }

  ghost function SettledBytes(ranges: seq<Entry>): int { Sum(ranges, SettledLength) }

  ghost predicate Inside(inner: Entry, outer: Entry)
  {
    inner.key == outer.key && outer.start <= inner.start && inner.end <= outer.end
  }

  /** Entries stand in the order their loads were issued. */
  ghost predicate IssueOrder(ranges: seq<Entry>)
  {
    forall i, j :: 0 <= i < j < |ranges| ==> ranges[i].bytes < ranges[j].bytes
  }

  ghost predicate ProperRanges(ranges: seq<Entry>)
  {
    forall i :: 0 <= i < |ranges| ==> ranges[i].start <= ranges[i].end
  }

  /** `lastUsed` values are clock readings and never shared, so eviction victims are unique. */
  ghost predicate RecencyDistinct(ranges: seq<Entry>, clock: nat)
  {
    && (forall i :: 0 <= i < |ranges| ==> 0 < ranges[i].lastUsed <= clock)
    && (forall i, j :: 0 <= i < j < |ranges| ==> ranges[i].lastUsed != ranges[j].lastUsed)
  }

  /** A range inside another was issued before it (later it would have been a hit). */
  ghost predicate NestedIssue(ranges: seq<Entry>)
  {
    forall i, j :: 0 <= i < j < |ranges| ==> !Inside(ranges[j], ranges[i])
  }

  ghost predicate Structure(c: Cache)
  {
    && c.sizeBytes == Bytes(c.ranges)
    && ProperRanges(c.ranges)
    && IssueOrder(c.ranges)
    && RecencyDistinct(c.ranges, c.clock)
    && NestedIssue(c.ranges)
  }

  ghost predicate Valid(c: Cache)
  {
    Structure(c) && SettledBytes(c.ranges) <= c.capacity
  }

  lemma SettledWithinTotal(ranges: seq<Entry>)
    requires ProperRanges(ranges)
    ensures 0 <= SettledBytes(ranges) <= Bytes(ranges)
    ensures (forall e :: e in ranges ==> e.settled) ==> SettledBytes(ranges) == Bytes(ranges)
    ensures (forall e :: e in ranges ==> !e.settled) ==> SettledBytes(ranges) == 0
  {
    hide Sum;
    var zero := (e: Entry) => 0;
    SumMonotone(ranges, SettledLength, Length);
    SumMonotone(ranges, zero, SettledLength);
    SumZero(ranges, zero);
    if forall e :: e in ranges ==> e.settled { SumMonotone(ranges, Length, SettledLength); }
    if forall e :: e in ranges ==> !e.settled { SumMonotone(ranges, SettledLength, zero); }
  }

  lemma {:induction false} SumZero<T>(s: seq<T>, zero: T -> int)
    requires forall x :: x in s ==> zero(x) == 0
    ensures Sum(s, zero) == 0
  {
    if s != [] { SumZero(s[1..], zero); }
  }

  // ---------- preservation, operation by operation ----------

  lemma DropStructure(c: Cache, i: nat)
    requires Structure(c) && i < |c.ranges|
    ensures Structure(Drop(c, i))
    ensures SettledBytes(Drop(c, i).ranges) <= SettledBytes(c.ranges)
    ensures forall e :: e in Drop(c, i).ranges <==> e in c.ranges && e != c.ranges[i]
  {
    hide Sum, RemoveAt, ProperRanges, IssueOrder, RecencyDistinct, NestedIssue;
    SumRemove(c.ranges, i, Length);
    SumRemove(c.ranges, i, SettledLength);
    DropOrder(c.ranges, i, c.clock);
    DropNested(c.ranges, i);
    DropMembers(c.ranges, i);
    assert c.ranges[i] in c.ranges;
    LengthNatural(c.ranges);
  }

  lemma LengthNatural(ranges: seq<Entry>)
    requires ProperRanges(ranges)
    ensures forall e :: e in ranges ==> SettledLength(e) >= 0
  {
  }

  lemma DropOrder(ranges: seq<Entry>, i: nat, clock: nat)
    requires i < |ranges| && ProperRanges(ranges) && IssueOrder(ranges) && RecencyDistinct(ranges, clock)
    ensures var r := RemoveAt(ranges, i); ProperRanges(r) && IssueOrder(r) && RecencyDistinct(r, clock)
  {
    Renumbered(ranges, i);
  }

  lemma DropNested(ranges: seq<Entry>, i: nat)
    requires i < |ranges| && NestedIssue(ranges)
    ensures NestedIssue(RemoveAt(ranges, i))
  {
    hide Inside;
    Renumbered(ranges, i);
  }

  lemma Renumbered(ranges: seq<Entry>, i: nat)
    requires i < |ranges|
    ensures forall k :: 0 <= k < |ranges| - 1 ==> RemoveAt(ranges, i)[k] == ranges[if k < i then k else k + 1]
  {
  }

  lemma DropMembers(ranges: seq<Entry>, i: nat)
    requires i < |ranges| && IssueOrder(ranges)
    ensures forall e :: e in RemoveAt(ranges, i) <==> e in ranges && e != ranges[i]
  {
    var r := RemoveAt(ranges, i);
    forall e | e in ranges && e != ranges[i] ensures e in r {
      var k :| 0 <= k < |ranges| && ranges[k] == e;
      assert r[if k < i then k else k - 1] == e;
    }
    forall e | e in r ensures e in ranges && e != ranges[i] {
      var k :| 0 <= k < |r| && r[k] == e;
      assert ranges[if k < i then k else k + 1].bytes != ranges[i].bytes;
    }
  }

  /** A read keeps the state valid; in particular an insert never overwrites a live key. */
  lemma ReadValid(c: Cache, key: ObjectKey, start: nat, end: nat, promise: nat)
    requires Valid(c) && start <= end
    requires forall e :: e in c.ranges ==> e.bytes < promise
    ensures var r := Read(c, key, start, end, promise);
            && Valid(r.cache)
            && (r.outcome.Loading? ==> r.cache.ranges == c.ranges + [r.outcome.entry])
  {
    hide Sum, Covering, ProperRanges, IssueOrder, RecencyDistinct, NestedIssue, Put;
    var r := Read(c, key, start, end, promise);
    if r.outcome.Hit? {
      var i := Covering(c.ranges, key, start, end).value;
      SumUpdate(c.ranges, i, r.outcome.entry, Length);
      SumUpdate(c.ranges, i, r.outcome.entry, SettledLength);
      TouchStructure(c, i);
    } else if r.outcome.Loading? {
      var e := r.outcome.entry;
      NewKey(c.ranges, e);
      SumAppend(c.ranges, [e], Length);
      SumAppend(c.ranges, [e], SettledLength);
      SumSingle(e, Length);
      SumSingle(e, SettledLength);
      AppendStructure(c, e);
    }
  }

  ghost predicate Contains(e: Entry, key: ObjectKey, start: nat, end: nat)
  {
    e.key == key && e.start <= start && end <= e.end
  }

  ghost predicate Resident(ranges: seq<Entry>, key: ObjectKey, start: nat, end: nat)
  {
    exists i :: 0 <= i < |ranges| && Contains(ranges[i], key, start, end)
  }

  /**
   What a read does, by the capacity and the resident ranges: a cache without capacity is bypassed and
   unchanged; a read inside a resident range is a hit on a shortest such range; of the others, exactly
   those longer than the capacity bypass the cache, and the rest are entered at once.
   */
  lemma ReadOutcome(c: Cache, key: ObjectKey, start: nat, end: nat, promise: nat)
    requires start <= end
    ensures var r, inside := Read(c, key, start, end, promise), Resident(c.ranges, key, start, end);
            && (r.outcome.Uncached? <==> c.capacity == 0)
            && (r.outcome.Hit? <==> c.capacity > 0 && inside)
            && (r.outcome.Oversize? <==> c.capacity > 0 && !inside && end - start > c.capacity)
            && (r.outcome.Loading? <==> c.capacity > 0 && !inside && end - start <= c.capacity)
            && (r.outcome.Uncached? ==> r.cache == c)
            && (r.outcome.Oversize? ==> r.cache == c.(misses := c.misses + 1))
            && (r.outcome.Loading? ==>
                  && r.outcome.entry == Entry(key, start, end, promise, false, c.clock + 1)
                  && r.cache == c.(misses := c.misses + 1, clock := c.clock + 1,
                                   ranges := c.ranges + [r.outcome.entry], sizeBytes := c.sizeBytes + (end - start)))
            && (r.outcome.Hit? ==> HitOn(c, key, start, end, r.outcome.entry, r.cache))
  {
    var i := Covering(c.ranges, key, start, end);
    if i.Some? {
      assert Contains(c.ranges[i.value], key, start, end);
      forall j | 0 <= j < |c.ranges| && Contains(c.ranges[j], key, start, end)
        ensures Length(c.ranges[i.value]) <= Length(c.ranges[j])
      {
        assert CoversRange(c.ranges[j], key, start, end);
      }
      assert c.capacity > 0 ==> HitAt(c, key, start, end, i.value, Read(c, key, start, end, promise).outcome.entry, Read(c, key, start, end, promise).cache);
    } else {
      forall j | 0 <= j < |c.ranges| ensures !Contains(c.ranges[j], key, start, end) {
        assert !CoversRange(c.ranges[j], key, start, end);
      }
      NewKey(c.ranges, Entry(key, start, end, promise, false, c.clock + 1));
      hide Covering, Put;
    }
  }

  /** The hit range is a shortest one around the read; only its recency and the counters change. */
  ghost predicate HitOn(c: Cache, key: ObjectKey, start: nat, end: nat, used: Entry, c': Cache)
  {
    exists i :: 0 <= i < |c.ranges| && HitAt(c, key, start, end, i, used, c')
  }

  ghost predicate HitAt(c: Cache, key: ObjectKey, start: nat, end: nat, i: nat, used: Entry, c': Cache)
    requires i < |c.ranges|
  {
    && Contains(c.ranges[i], key, start, end)
    && (forall j :: 0 <= j < |c.ranges| && Contains(c.ranges[j], key, start, end) ==> Length(c.ranges[i]) <= Length(c.ranges[j]))
    && used == c.ranges[i].(lastUsed := c.clock + 1)
    && c' == c.(hits := c.hits + 1, clock := c.clock + 1, ranges := c.ranges[i := used])
  }

  /** A read that fits the cache is served by it: the entry it awaits is resident and contains it. */
  lemma ReadIsServed(capacity: nat, events: seq<Event>, key: ObjectKey, start: nat, end: nat, promise: nat)
    requires 0 < capacity && start <= end && end - start <= capacity
    ensures var r := Read(After(capacity, events).cache, key, start, end, promise);
            && (r.outcome.Hit? || r.outcome.Loading?)
            && r.outcome.entry in r.cache.ranges && Contains(r.outcome.entry, key, start, end)
            && (r.outcome.Loading? ==> r.outcome.entry.bytes == promise)
            && (r.outcome.Hit? ==> exists e :: e in After(capacity, events).cache.ranges && e.bytes == r.outcome.entry.bytes && Contains(e, key, start, end))
  {
    hide After;
    RunInv(capacity, events);
    var c := After(capacity, events).cache;
    ReadOutcome(c, key, start, end, promise);
    hide Read;
    var r := Read(c, key, start, end, promise);
    if r.outcome.Hit? {
      var i :| 0 <= i < |c.ranges| && HitAt(c, key, start, end, i, r.outcome.entry, r.cache);
      assert r.cache.ranges[i] == r.outcome.entry && c.ranges[i] in c.ranges;
    } else {
      assert r.cache.ranges[|c.ranges|] == r.outcome.entry;
    }
  }

  /** A range no resident covers has a key of its own, so inserting it appends. */
  lemma NewKey(ranges: seq<Entry>, e: Entry)
    requires Covering(ranges, e.key, e.start, e.end).None?
    ensures Put(ranges, e) == ranges + [e]
    ensures forall x :: x in ranges ==> !Inside(e, x)
  {
    assert forall i :: 0 <= i < |ranges| ==> !CoversRange(ranges[i], e.key, e.start, e.end);
  }

  lemma TouchStructure(c: Cache, i: nat)
    requires Structure(c) && i < |c.ranges|
    ensures var r := c.ranges[i := c.ranges[i].(lastUsed := c.clock + 1)];
            ProperRanges(r) && IssueOrder(r) && RecencyDistinct(r, c.clock + 1) && NestedIssue(r)
  {
    hide Sum, Inside;
    var r := c.ranges[i := c.ranges[i].(lastUsed := c.clock + 1)];
    SameExtent(c.ranges[i], r[i]);
    forall j, k | 0 <= j < k < |r| ensures !Inside(r[k], r[j]) {
      assert !Inside(c.ranges[k], c.ranges[j]);
    }
  }

  lemma SameExtent(a: Entry, b: Entry)
    requires b == a.(lastUsed := b.lastUsed)
    ensures forall x :: (Inside(x, a) <==> Inside(x, b)) && (Inside(a, x) <==> Inside(b, x))
  {
  }

  lemma AppendStructure(c: Cache, e: Entry)
    requires Structure(c) && e.start <= e.end && e.lastUsed == c.clock + 1
    requires forall x :: x in c.ranges ==> x.bytes < e.bytes && !Inside(e, x)
    ensures var r := c.ranges + [e];
            ProperRanges(r) && IssueOrder(r) && RecencyDistinct(r, c.clock + 1) && NestedIssue(r)
  {
    hide Sum, Inside;
    AppendNested(c.ranges, e);
  }

  lemma AppendNested(ranges: seq<Entry>, e: Entry)
    requires NestedIssue(ranges) && forall x :: x in ranges ==> !Inside(e, x)
    ensures NestedIssue(ranges + [e])
  {
    hide Inside;
  }

  lemma {:induction false} SupersedeKeeps(c: Cache, e: Entry, i: nat)
    requires Structure(c) && i <= |c.ranges|
    requires forall k :: 0 <= k < i ==> !Superseded(c.ranges[k], e)
    ensures var r := Supersede(c, e, i);
            && Structure(r) && r == c.(ranges := r.ranges, sizeBytes := r.sizeBytes)
            && (forall x :: x in r.ranges <==> x in c.ranges && !Superseded(x, e))
            && |r.ranges| <= |c.ranges|
    decreases |c.ranges| - i
  {
    if i < |c.ranges| {
      if Superseded(c.ranges[i], e) {
        DropStructure(c, i);
        var d := Drop(c, i);
        forall k | 0 <= k < i ensures !Superseded(d.ranges[k], e) {
          assert d.ranges[k] == c.ranges[k];
        }
        SupersedeKeeps(d, e, i);
      } else {
        SupersedeKeeps(c, e, i + 1);
      }
    }
  }

  /** Eviction removes only settled ranges and counts each. */
  lemma {:induction false} EvictKeeps(c: Cache)
    requires Structure(c)
    ensures var r := Evict(c);
            && Structure(r) && r == c.(ranges := r.ranges, sizeBytes := r.sizeBytes, evictions := r.evictions)
            && (forall x :: x in r.ranges ==> x in c.ranges)
            && (forall x :: x in c.ranges && !x.settled ==> x in r.ranges)
            && r.evictions + |r.ranges| == c.evictions + |c.ranges|
    decreases |c.ranges|
  {
    hide Structure;
    var oldest := Oldest(c.ranges);
    if c.sizeBytes > c.capacity && oldest.Some? {
      DropStructure(c, oldest.value);
      var d := Drop(c, oldest.value).(evictions := c.evictions + 1);
      DropStructureAgain(c, d, oldest.value);
      EvictKeeps(d);
    }
  }

  /** Eviction stops only within capacity or with nothing settled left. */
  lemma {:induction false} EvictBound(c: Cache)
    requires Structure(c)
    ensures SettledBytes(Evict(c).ranges) <= c.capacity
    decreases |c.ranges|
  {
    hide Sum;
    var oldest := Oldest(c.ranges);
    if c.sizeBytes > c.capacity && oldest.Some? {
      DropStructure(c, oldest.value);
      EvictBound(Drop(c, oldest.value).(evictions := c.evictions + 1));
    } else {
      SettledWithinTotal(c.ranges);
    }
  }

  lemma MarkStructure(c: Cache, i: nat)
    requires Structure(c) && i < |c.ranges|
    ensures Structure(MarkSettled(c, i))
  {
    hide Sum;
    SumUpdate(c.ranges, i, c.ranges[i].(settled := true), Length);
    var r := MarkSettled(c, i).ranges;
    forall j, k | 0 <= j < k < |r| ensures !Inside(r[k], r[j]) {
      assert !Inside(c.ranges[k], c.ranges[j]);
    }
  }

  // ---------- evict removes the shortest sufficient prefix in recency order ----------

  ghost function Newer(t: nat): Entry -> bool { (e: Entry) => !e.settled || t < e.lastUsed }

  /** What is left after evicting every settled range last used at `t` or before. */
  ghost function KeepNewer(ranges: seq<Entry>, t: nat): seq<Entry>
  {
    Filter(ranges, Newer(t))
  }

  ghost predicate Enough(ranges: seq<Entry>, capacity: nat)
  {
    Bytes(ranges) <= capacity || forall e :: e in ranges ==> !e.settled
  }

  /**
   `evict` removes a prefix of the settled ranges in recency order, and the shortest one that
   suffices: any cutoff that suffices keeps no more.
   */
  lemma {:induction false} EvictIsShortestPrefix(c: Cache) returns (cutoff: nat)
    requires Structure(c)
    ensures Evict(c).ranges == KeepNewer(c.ranges, cutoff)
    ensures Enough(Evict(c).ranges, c.capacity)
    ensures forall t :: Enough(KeepNewer(c.ranges, t), c.capacity) ==> |KeepNewer(c.ranges, t)| <= |Evict(c).ranges|
    decreases |c.ranges|
  {
    hide Sum, Filter, Structure, Enough, Newer, Oldest, Length;
    var oldest := Oldest(c.ranges);
    if c.sizeBytes <= c.capacity || oldest.None? {
      cutoff := 0;
      NothingToEvict(c);
    } else {
      var i := oldest.value;
      var d := Drop(c, i).(evictions := c.evictions + 1);
      DropStructure(c, i);
      DropStructureAgain(c, d, i);
      var rest := EvictIsShortestPrefix(d);
      cutoff := RaisedCutoff(c, i, rest);
      forall t | Enough(KeepNewer(c.ranges, t), c.capacity)
        ensures |KeepNewer(c.ranges, t)| <= |Evict(c).ranges|
      {
        SufficientCutoff(c, i, t);
      }
    }
  }

  lemma DropStructureAgain(c: Cache, d: Cache, i: nat)
    requires i < |c.ranges| && Structure(Drop(c, i)) && d == Drop(c, i).(evictions := d.evictions)
    ensures Structure(d)
  {
  }

  lemma NothingToEvict(c: Cache)
    requires Structure(c) && (c.sizeBytes <= c.capacity || Oldest(c.ranges).None?)
    ensures Enough(c.ranges, c.capacity)
    ensures KeepNewer(c.ranges, 0) == c.ranges
  {
    hide Sum, Filter;
    assert forall e :: e in c.ranges ==> Newer(0)(e);
    FilterAll(c.ranges, Newer(0));
  }

  lemma RaisedCutoff(c: Cache, i: nat, rest: nat) returns (cutoff: nat)
    requires Structure(c) && Oldest(c.ranges) == Some(i)
    ensures KeepNewer(c.ranges, cutoff) == KeepNewer(RemoveAt(c.ranges, i), rest)
  {
    hide Filter;
    cutoff := if rest < c.ranges[i].lastUsed then c.ranges[i].lastUsed else rest;
    OldestGoesFirst(c, i, cutoff);
    FilterAgree(RemoveAt(c.ranges, i), Newer(rest), Newer(cutoff));
  }

  lemma SufficientCutoff(c: Cache, i: nat, t: nat)
    requires Structure(c) && c.sizeBytes > c.capacity && Oldest(c.ranges) == Some(i)
    requires Enough(KeepNewer(c.ranges, t), c.capacity)
    ensures KeepNewer(c.ranges, t) == KeepNewer(RemoveAt(c.ranges, i), t)
  {
    if t < c.ranges[i].lastUsed {
      CutoffBelowOldest(c, i, t);
    } else {
      OldestGoesFirst(c, i, t);
    }
  }

  lemma OldestGoesFirst(c: Cache, i: nat, t: nat)
    requires Structure(c) && Oldest(c.ranges) == Some(i) && c.ranges[i].lastUsed <= t
    ensures KeepNewer(c.ranges, t) == KeepNewer(RemoveAt(c.ranges, i), t)
    ensures forall e :: e in RemoveAt(c.ranges, i) && e.settled ==> c.ranges[i].lastUsed < e.lastUsed
  {
    hide Filter;
    FilterRemove(c.ranges, i, Newer(t));
    var r := RemoveAt(c.ranges, i);
    forall e | e in r && e.settled ensures c.ranges[i].lastUsed < e.lastUsed {
      var k :| 0 <= k < |r| && r[k] == e;
      assert e == c.ranges[if k < i then k else k + 1];
    }
  }

  /** A cutoff below the oldest settled range evicts nothing, which does not suffice. */
  lemma CutoffBelowOldest(c: Cache, i: nat, t: nat)
    requires Structure(c) && c.sizeBytes > c.capacity
    requires Oldest(c.ranges) == Some(i) && t < c.ranges[i].lastUsed
    ensures !Enough(KeepNewer(c.ranges, t), c.capacity)
  {
    hide Sum, Filter;
    assert forall e :: e in c.ranges ==> Newer(t)(e);
    FilterAll(c.ranges, Newer(t));
    assert c.ranges[i] in c.ranges;
  }

  // ---------- runs ----------

  datatype Event =
    | ReadEvent(key: ObjectKey, start: nat, end: nat, promise: nat)
    | SuccessEvent(promise: nat)
    | FailureEvent(promise: nat)

  /**
   A cache with a record of its past: a bound on the promises used, those whose callbacks are still due,
   why entries left, how many reads there were, and when each range settled and was last asked for.
   */
  datatype Monitor = Monitor(
    cache: Cache, next: nat, due: set<nat>, oversize: nat, superseded: int, failed: nat,
    lookups: nat, time: nat, settledAt: map<nat, nat>, usedAt: map<nat, nat>)

  function Start(capacity: nat): Monitor
  {
    Monitor(Empty(capacity), 0, {}, 0, 0, 0, 0, 0, map[], map[])
  }

  predicate Enabled(m: Monitor, ev: Event)
  {
    match ev
    case ReadEvent(_, start, end, promise) => start <= end && promise >= m.next
    case SuccessEvent(p) => p in m.due
    case FailureEvent(p) => p in m.due
  }

  function Step(m: Monitor, ev: Event): Monitor
    requires Enabled(m, ev)
  {
    match ev
    case ReadEvent(key, start, end, promise) =>
      var r := Read(m.cache, key, start, end, promise);
      m.(cache := r.cache,
         next := if r.outcome.Hit? then m.next else promise + 1,
         due := if r.outcome.Loading? then m.due + {promise} else m.due,
         oversize := if r.outcome.Oversize? then m.oversize + 1 else m.oversize,
         lookups := m.lookups + 1,
         time := m.time + 1,
         usedAt := if r.outcome.Hit? || r.outcome.Loading? then m.usedAt[r.outcome.entry.bytes := m.time] else m.usedAt)
    case SuccessEvent(p) =>
      m.(cache := Succeed(m.cache, p),
         due := m.due - {p},
         superseded := m.superseded + (|m.cache.ranges| - |AfterSupersede(m.cache, p).ranges|),
         time := m.time + 1,
         settledAt := m.settledAt[p := m.time])
    case FailureEvent(p) =>
      m.(cache := Fail(m.cache, p),
         due := m.due - {p},
         failed := m.failed + 1,
         time := m.time + 1)
  }

  /** The state after the enabled events among `events`, in order. */
  function After(capacity: nat, events: seq<Event>): Monitor
  {
    if events == [] then Start(capacity)
    else
      var n := |events| - 1;
      var m := After(capacity, events[..n]);
      if Enabled(m, events[n]) then Step(m, events[n]) else m
  }

  /** The due promises are exactly those of the resident ranges still loading. */
  ghost predicate DueIsLoading(m: Monitor)
  {
    && (forall e :: e in m.cache.ranges && !e.settled ==> e.bytes in m.due)
    && (forall p :: p in m.due ==> exists e :: e in m.cache.ranges && e.bytes == p && !e.settled)
    && (forall e :: e in m.cache.ranges ==> e.bytes < m.next)
  }

  /** Every miss is accounted for by what became of it. */
  ghost predicate Accounted(m: Monitor)
  {
    m.cache.misses == m.oversize + |m.cache.ranges| + m.cache.evictions + m.superseded + m.failed
  }

  ghost predicate SettleTimes(m: Monitor)
  {
    && (forall e :: e in m.cache.ranges && e.settled ==> e.bytes in m.settledAt && m.settledAt[e.bytes] < m.time)
    && (forall a, b :: a in m.cache.ranges && b in m.cache.ranges && a.bytes != b.bytes && a.settled && b.settled && Inside(a, b) ==>
          m.settledAt[b.bytes] < m.settledAt[a.bytes])
  }

  /** The recency stamps order the resident ranges by the last read they served. */
  ghost predicate Recency(m: Monitor)
  {
    && (forall e :: e in m.cache.ranges ==> e.bytes in m.usedAt && m.usedAt[e.bytes] < m.time)
    && (forall a, b :: a in m.cache.ranges && b in m.cache.ranges && a.lastUsed < b.lastUsed ==>
          m.usedAt[a.bytes] < m.usedAt[b.bytes])
  }

  ghost predicate Counted(m: Monitor)
  {
    m.cache.capacity > 0 ==> m.cache.hits + m.cache.misses == m.lookups
  }

  ghost predicate Inv(m: Monitor)
  {
    Valid(m.cache) && DueIsLoading(m) && Accounted(m) && SettleTimes(m) && Recency(m) && Counted(m)
  }

  lemma ReadInv(m: Monitor, ev: Event)
    requires Inv(m) && ev.ReadEvent? && Enabled(m, ev)
    ensures Inv(Step(m, ev))
  {
    hide Valid, DueIsLoading, SettleTimes, Recency, Covering;
    IssuedBefore(m);
    ReadValid(m.cache, ev.key, ev.start, ev.end, ev.promise);
    var r := Read(m.cache, ev.key, ev.start, ev.end, ev.promise);
    var m' := Step(m, ev);
    if r.outcome.Hit? {
      var i := Covering(m.cache.ranges, ev.key, ev.start, ev.end).value;
      HitKeepsRecord(m, m', i, r.outcome.entry);
      HitRecency(m, m', i, r.outcome.entry);
    } else if r.outcome.Loading? {
      LoadIsDue(m, m', r.outcome.entry);
      LoadTimes(m, m', r.outcome.entry);
      LoadRecency(m, m', r.outcome.entry);
    } else {
      BypassKeepsRecord(m, m');
    }
  }

  lemma IssuedBefore(m: Monitor)
    requires DueIsLoading(m)
    ensures forall e :: e in m.cache.ranges ==> e.bytes < m.next
  {
  }

  lemma BypassKeepsRecord(m: Monitor, m': Monitor)
    requires DueIsLoading(m) && SettleTimes(m) && Recency(m)
    requires m'.cache.ranges == m.cache.ranges && m'.due == m.due && m'.next >= m.next
    requires m'.settledAt == m.settledAt && m'.usedAt == m.usedAt && m'.time >= m.time
    ensures DueIsLoading(m') && SettleTimes(m') && Recency(m')
  {
  }

  lemma LoadIsDue(m: Monitor, m': Monitor, e: Entry)
    requires DueIsLoading(m) && m'.cache.ranges == m.cache.ranges + [e]
    requires m'.due == m.due + {e.bytes} && m'.next == e.bytes + 1 && e.bytes >= m.next && !e.settled
    ensures DueIsLoading(m')
  {
    forall p | p in m'.due ensures exists x :: x in m'.cache.ranges && x.bytes == p && !x.settled {
      if p == e.bytes {
        assert e in m'.cache.ranges;
      } else {
        var x :| x in m.cache.ranges && x.bytes == p && !x.settled;
        assert x in m'.cache.ranges;
      }
    }
  }

  lemma LoadTimes(m: Monitor, m': Monitor, e: Entry)
    requires SettleTimes(m) && m'.cache.ranges == m.cache.ranges + [e] && !e.settled
    requires m'.settledAt == m.settledAt && m'.time >= m.time
    ensures SettleTimes(m')
  {
    assert forall x :: x in m'.cache.ranges && x.settled ==> x in m.cache.ranges;
  }

  lemma LoadRecency(m: Monitor, m': Monitor, e: Entry)
    requires Recency(m) && DueIsLoading(m) && Valid(m.cache)
    requires m'.cache.ranges == m.cache.ranges + [e] && e.bytes >= m.next && e.lastUsed == m.cache.clock + 1
    requires m'.usedAt == m.usedAt[e.bytes := m.time] && m'.time == m.time + 1
    ensures Recency(m')
  {
    StampsPast(m.cache);
    hide Valid;
    assert forall x :: x in m'.cache.ranges ==> x == e || x in m.cache.ranges;
  }

  lemma StampsPast(c: Cache)
    requires Valid(c)
    ensures forall e :: e in c.ranges ==> e.lastUsed <= c.clock
  {
    assert RecencyDistinct(c.ranges, c.clock);
  }

  /** Touching an entry changes neither what is due nor any settle time. */
  lemma HitKeepsRecord(m: Monitor, m': Monitor, i: nat, used: Entry)
    requires DueIsLoading(m) && SettleTimes(m) && i < |m.cache.ranges|
    requires used == m.cache.ranges[i].(lastUsed := used.lastUsed)
    requires m'.cache.ranges == m.cache.ranges[i := used]
    requires m'.due == m.due && m'.next >= m.next && m'.settledAt == m.settledAt && m'.time >= m.time
    ensures DueIsLoading(m') && SettleTimes(m')
  {
    var before, after := m.cache.ranges, m'.cache.ranges;
    forall p | p in m'.due ensures exists e :: e in after && e.bytes == p && !e.settled {
      var o :| o in before && o.bytes == p && !o.settled;
      var k :| 0 <= k < |before| && before[k] == o;
      assert after[k] in after;
    }
    forall e | e in after ensures (e.settled ==> e.bytes in m.settledAt && m.settledAt[e.bytes] < m.time)
                               && e.bytes < m'.next && (!e.settled ==> e.bytes in m'.due) {
      var o := Untouched(before, after, i, used, e);
    }
    forall a, b | a in after && b in after && a.bytes != b.bytes && a.settled && b.settled && Inside(a, b)
      ensures m.settledAt[b.bytes] < m.settledAt[a.bytes]
    {
      var a0 := Untouched(before, after, i, used, a);
      var b0 := Untouched(before, after, i, used, b);
      assert Inside(a0, b0);
    }
  }

  /** The range just read becomes the most recent; the order of the others is kept. */
  lemma HitRecency(m: Monitor, m': Monitor, i: nat, used: Entry)
    requires Recency(m) && Valid(m.cache) && i < |m.cache.ranges|
    requires used == m.cache.ranges[i].(lastUsed := m.cache.clock + 1)
    requires m'.cache.ranges == m.cache.ranges[i := used]
    requires m'.usedAt == m.usedAt[used.bytes := m.time] && m'.time == m.time + 1
    ensures Recency(m')
  {
    hide Sum;
    var before, after := m.cache.ranges, m'.cache.ranges;
    forall e | e in after ensures e == used || (e in before && e.bytes != used.bytes && e.lastUsed <= m.cache.clock) {
      var k :| 0 <= k < |after| && after[k] == e;
      assert k != i ==> before[k] == e;
    }
  }

  lemma Untouched(before: seq<Entry>, after: seq<Entry>, i: nat, used: Entry, e: Entry) returns (o: Entry)
    requires i < |before| && after == before[i := used] && used == before[i].(lastUsed := used.lastUsed)
    requires e in after
    ensures o in before && e == o.(lastUsed := e.lastUsed)
  {
    var k :| 0 <= k < |after| && after[k] == e;
    o := before[k];
  }

  /** The callback finds its entry resident: nothing else can have removed it. */
  lemma DueIsResident(m: Monitor, p: nat) returns (i: nat)
    requires Valid(m.cache) && DueIsLoading(m) && p in m.due
    ensures i < |m.cache.ranges| && Find(m.cache.ranges, p) == Some(i)
    ensures m.cache.ranges[i].bytes == p && !m.cache.ranges[i].settled
    ensures forall e :: e in m.cache.ranges && e != m.cache.ranges[i] ==> e.bytes != p
  {
    hide Valid;
    IssuedInOrder(m.cache);
    var e :| e in m.cache.ranges && e.bytes == p && !e.settled;
    i :| 0 <= i < |m.cache.ranges| && m.cache.ranges[i] == e;
  }

  lemma IssuedInOrder(c: Cache)
    requires Valid(c)
    ensures IssueOrder(c.ranges)
  {
  }

  lemma FailureInv(m: Monitor, ev: Event)
    requires Inv(m) && ev.FailureEvent? && Enabled(m, ev)
    ensures Inv(Step(m, ev))
  {
    hide Structure, SettledBytes, DueIsLoading, SettleTimes, Recency;
    var i := DueIsResident(m, ev.promise);
    DropStructure(m.cache, i);
    var m' := Step(m, ev);
    assert m'.cache == Drop(m.cache, i);
    FailureRecord(m, m', i);
    RecencyKept(m, m');
  }

  lemma FailureRecord(m: Monitor, m': Monitor, i: nat)
    requires DueIsLoading(m) && SettleTimes(m) && i < |m.cache.ranges|
    requires forall e :: e in m.cache.ranges && e != m.cache.ranges[i] ==> e.bytes != m.cache.ranges[i].bytes
    requires forall e :: e in m'.cache.ranges <==> e in m.cache.ranges && e != m.cache.ranges[i]
    requires m'.due == m.due - {m.cache.ranges[i].bytes} && m'.next == m.next
    requires m'.settledAt == m.settledAt && m'.time >= m.time
    ensures DueIsLoading(m') && SettleTimes(m')
  {
    forall p | p in m'.due ensures exists e :: e in m'.cache.ranges && e.bytes == p && !e.settled {
      var e :| e in m.cache.ranges && e.bytes == p && !e.settled;
    }
  }

  /** Removing or marking entries leaves the recency order as it was. */
  lemma RecencyKept(m: Monitor, m': Monitor)
    requires Recency(m) && m'.usedAt == m.usedAt && m'.time >= m.time
    requires forall a :: a in m'.cache.ranges ==>
               a in m.cache.ranges || a.(settled := false) in m.cache.ranges
    ensures Recency(m')
  {
    forall a, b | a in m'.cache.ranges && b in m'.cache.ranges && a.lastUsed < b.lastUsed
      ensures a.bytes in m.usedAt && b.bytes in m.usedAt && m.usedAt[a.bytes] < m.usedAt[b.bytes]
    {
      var a0 := if a in m.cache.ranges then a else a.(settled := false);
      var b0 := if b in m.cache.ranges then b else b.(settled := false);
      assert a0 in m.cache.ranges && b0 in m.cache.ranges && a0.lastUsed < b0.lastUsed;
    }
  }

  /** All the success callback does: what stays, what is counted, and the byte bound. */
  lemma SucceedEffect(c: Cache, p: nat, i: nat)
    requires Valid(c) && i < |c.ranges| && Find(c.ranges, p) == Some(i)
    ensures var r, e := Succeed(c, p), c.ranges[i].(settled := true);
            && Valid(r) && r.capacity == c.capacity && r.misses == c.misses && r.hits == c.hits && r.clock == c.clock
            && r.evictions + |r.ranges| == c.evictions + |AfterSupersede(c, p).ranges|
            && (forall x :: x in r.ranges ==> x == e || (x in c.ranges && x.bytes != e.bytes && !Superseded(x, e)))
            && (forall x :: x in c.ranges && x.bytes != e.bytes && !x.settled ==> x in r.ranges)
  {
    MarkStructure(c, i);
    MarkedMembers(c, i);
    hide Sum, Structure;
    var marked := MarkSettled(c, i);
    var e := marked.ranges[i];
    SupersedeKeeps(marked, e, 0);
    EvictKeeps(Supersede(marked, e, 0));
    EvictBound(Supersede(marked, e, 0));
  }

  /**
   What the success callback keeps: the arrived range, now settled, and every other range but the
   settled ones of the object inside it; then eviction takes the settled ranges last used at `cutoff`
   or before, as few as suffice.
   */
  lemma SucceedExactly(c: Cache, p: nat, i: nat) returns (kept: seq<Entry>, cutoff: nat)
    requires Valid(c) && i < |c.ranges| && Find(c.ranges, p) == Some(i)
    ensures var e := c.ranges[i].(settled := true);
            && (forall x :: x in kept <==> x == e || (x in c.ranges && x.bytes != p && !(x.settled && Inside(x, e))))
            && Succeed(c, p).ranges == KeepNewer(kept, cutoff)
            && Enough(Succeed(c, p).ranges, c.capacity)
            && (Bytes(kept) <= c.capacity ==> Succeed(c, p).ranges == kept)
  {
    hide Sum, Structure, Evict, KeepNewer, Enough;
    MarkStructure(c, i);
    MarkedMembersOf(c, i);
    var marked := MarkSettled(c, i);
    var e := marked.ranges[i];
    SupersedeKeeps(marked, e, 0);
    var after := Supersede(marked, e, 0);
    kept := after.ranges;
    cutoff := EvictIsShortestPrefix(after);
    SmallEnough(after);
    forall x ensures x in kept <==> x == e || (x in c.ranges && x.bytes != p && !(x.settled && Inside(x, e))) {
    }
  }

  lemma MarkedMembersOf(c: Cache, i: nat)
    requires Structure(c) && i < |c.ranges|
    ensures var e := MarkSettled(c, i).ranges[i];
            forall x :: x in MarkSettled(c, i).ranges <==> x == e || (x in c.ranges && x.bytes != e.bytes)
  {
    MarkedMembers(c, i);
  }

  lemma SmallEnough(c: Cache)
    requires Structure(c)
    ensures Bytes(c.ranges) <= c.capacity ==> Evict(c) == c
  {
  }

  /** The failure callback removes the failed range and nothing else. */
  lemma FailExactly(c: Cache, p: nat, i: nat)
    requires Valid(c) && i < |c.ranges| && Find(c.ranges, p) == Some(i)
    ensures forall x :: x in Fail(c, p).ranges <==> x in c.ranges && x.bytes != p
    ensures var r := Fail(c, p); r == c.(ranges := r.ranges, sizeBytes := r.sizeBytes)
  {
    DropStructure(c, i);
    hide Sum;
  }

  lemma SuccessInv(m: Monitor, ev: Event)
    requires Inv(m) && ev.SuccessEvent? && Enabled(m, ev)
    ensures Inv(Step(m, ev))
  {
    hide Valid, Succeed, AfterSupersede, DueIsLoading, SettleTimes, Recency, Superseded;
    var i := DueIsResident(m, ev.promise);
    SucceedEffect(m.cache, ev.promise, i);
    var m', e := Step(m, ev), m.cache.ranges[i].(settled := true);
    assert e.(settled := false) == m.cache.ranges[i];
    SuccessDue(m, m', i);
    SuccessTimes(m, m', i);
    RecencyKept(m, m');
  }

  lemma MarkedMembers(c: Cache, i: nat)
    requires IssueOrder(c.ranges) && i < |c.ranges|
    ensures var e := MarkSettled(c, i).ranges[i];
            forall x :: x in MarkSettled(c, i).ranges <==> x == e || (x in c.ranges && x.bytes != e.bytes)
  {
    var r := MarkSettled(c, i).ranges;
    var e := r[i];
    forall x | x in r ensures x == e || (x in c.ranges && x.bytes != e.bytes) {
      var k :| 0 <= k < |r| && r[k] == x;
      assert k == i || c.ranges[k] == x;
    }
    forall x | x in c.ranges && x.bytes != e.bytes ensures x in r {
      var k :| 0 <= k < |c.ranges| && c.ranges[k] == x;
      assert r[k] == x;
    }
  }

  lemma SuccessDue(m: Monitor, m': Monitor, i: nat)
    requires DueIsLoading(m) && i < |m.cache.ranges| && !m.cache.ranges[i].settled
    requires m'.due == m.due - {m.cache.ranges[i].bytes} && m'.next == m.next
    requires var e := m.cache.ranges[i].(settled := true);
             && (forall x :: x in m'.cache.ranges ==> x == e || (x in m.cache.ranges && x.bytes != e.bytes))
             && (forall x :: x in m.cache.ranges && x.bytes != e.bytes && !x.settled ==> x in m'.cache.ranges)
    ensures DueIsLoading(m')
  {
    assert m.cache.ranges[i] in m.cache.ranges;
    forall p | p in m'.due ensures exists x :: x in m'.cache.ranges && x.bytes == p && !x.settled {
      var x :| x in m.cache.ranges && x.bytes == p && !x.settled;
    }
  }

  /** The range that just settled contains no settled range any more. */
  lemma SuccessTimes(m: Monitor, m': Monitor, i: nat)
    requires SettleTimes(m) && i < |m.cache.ranges| && !m.cache.ranges[i].settled
    requires m'.time == m.time + 1 && m'.settledAt == m.settledAt[m.cache.ranges[i].bytes := m.time]
    requires var e := m.cache.ranges[i].(settled := true);
             forall x :: x in m'.cache.ranges ==> x == e || (x in m.cache.ranges && x.bytes != e.bytes && !Superseded(x, e))
    ensures SettleTimes(m')
  {
  }

  /** Every reachable state satisfies the invariants. */
  lemma {:induction false} RunInv(capacity: nat, events: seq<Event>)
    ensures Inv(After(capacity, events))
    ensures After(capacity, events).cache.capacity == capacity
  {
    hide Inv;
    if events == [] {
      StartInv(capacity);
    } else {
      var n := |events| - 1;
      RunInv(capacity, events[..n]);
      var m := After(capacity, events[..n]);
      if Enabled(m, events[n]) {
        match events[n] {
          case ReadEvent(_, _, _, _) => ReadInv(m, events[n]);
          case SuccessEvent(p) => SuccessInv(m, events[n]); SuccessCapacity(m, p);
          case FailureEvent(_) => FailureInv(m, events[n]);
        }
      }
    }
  }

  lemma StartInv(capacity: nat)
    ensures Inv(Start(capacity))
  {
  }

  lemma SuccessCapacity(m: Monitor, p: nat)
    requires Inv(m) && p in m.due
    ensures Succeed(m.cache, p).capacity == m.cache.capacity
  {
    var i := DueIsResident(m, p);
    SucceedEffect(m.cache, p, i);
  }

  // ---------- what the client may rely on ----------

  /** `sizeBytes` is the resident total; settled bytes never exceed the budget; nor does the size once idle. */
  lemma SizeAccounting(capacity: nat, events: seq<Event>)
    ensures var m := After(capacity, events);
            && m.cache.sizeBytes == Bytes(m.cache.ranges)
            && SettledBytes(m.cache.ranges) <= capacity
            && (m.due == {} ==> m.cache.sizeBytes <= capacity)
  {
    hide Sum;
    RunInv(capacity, events);
    var m := After(capacity, events);
    SettledWithinTotal(m.cache.ranges);
  }

  /** Misses are oversize bypasses plus resident, evicted, superseded and failed entries. */
  lemma MissAccounting(capacity: nat, events: seq<Event>)
    ensures var m := After(capacity, events);
            m.cache.misses == m.oversize + |m.cache.ranges| + m.cache.evictions + m.superseded + m.failed
  {
    RunInv(capacity, events);
  }

  /** Of two nested settled ranges, the inner was issued first and settled last. */
  lemma NestedRanges(capacity: nat, events: seq<Event>, inner: Entry, outer: Entry)
    requires var m := After(capacity, events);
             inner in m.cache.ranges && outer in m.cache.ranges && inner != outer
    requires inner.settled && outer.settled && Inside(inner, outer)
    ensures var m := After(capacity, events);
            && inner.bytes < outer.bytes
            && inner.bytes in m.settledAt && outer.bytes in m.settledAt
            && m.settledAt[outer.bytes] < m.settledAt[inner.bytes]
  {
    hide Sum, After, Inside;
    RunInv(capacity, events);
    var ranges := After(capacity, events).cache.ranges;
    var i :| 0 <= i < |ranges| && ranges[i] == inner;
    var j :| 0 <= j < |ranges| && ranges[j] == outer;
    assert NestedIssue(ranges) && IssueOrder(ranges);
  }

  /** Every lookup of an enabled cache is a hit or a miss, and recency stamps follow the order of last use. */
  lemma LookupsAndRecency(capacity: nat, events: seq<Event>)
    ensures var m := After(capacity, events);
            && (capacity > 0 ==> m.cache.hits + m.cache.misses == m.lookups)
            && (forall a, b :: a in m.cache.ranges && b in m.cache.ranges ==>
                  && a.bytes in m.usedAt && b.bytes in m.usedAt
                  && (a.lastUsed < b.lastUsed <==> m.usedAt[a.bytes] < m.usedAt[b.bytes]))
  {
    hide After, Valid;
    RunInv(capacity, events);
    SameStampSameEntry(After(capacity, events).cache);
  }

  lemma SameStampSameEntry(c: Cache)
    requires Valid(c)
    ensures forall a, b :: a in c.ranges && b in c.ranges && a.lastUsed == b.lastUsed ==> a == b
  {
    assert RecencyDistinct(c.ranges, c.clock);
    hide Valid;
    forall a, b | a in c.ranges && b in c.ranges && a.lastUsed == b.lastUsed ensures a == b {
      var i :| 0 <= i < |c.ranges| && c.ranges[i] == a;
      var j :| 0 <= j < |c.ranges| && c.ranges[j] == b;
    }
  }

  /** No two resident ranges share a recency stamp, and none shares a key. */
  lemma EntriesDistinct(capacity: nat, events: seq<Event>, i: nat, j: nat)
    requires i < j < |After(capacity, events).cache.ranges|
    ensures var r := After(capacity, events).cache.ranges;
            r[i].lastUsed != r[j].lastUsed && !SameKey(r[i], r[j]) && r[i].bytes < r[j].bytes
  {
    hide Sum;
    RunInv(capacity, events);
    var r := After(capacity, events).cache.ranges;
    assert NestedIssue(r) && !Inside(r[j], r[i]);
  }
}
