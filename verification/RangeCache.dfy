/**
 The byte-bounded LRU of ranges of immutable objects (browser/src/http.ts, `HttpRangeCache`).

 A range is entered as soon as its load is issued. The load's promise later runs the success or
 the failure callback. Every synchronous stretch of the client is one step here.
 */
module RangeCache {
  import opened Wrappers
  import opened Sequences

  datatype ObjectKey = ObjectKey(url: string, size: nat)

  /** A resident range. `bytes` is the promise of its load, which also is its identity. */
  datatype Entry = Entry(key: ObjectKey, start: nat, end: nat, bytes: nat, settled: bool, lastUsed: nat)

  /** `ranges` is in insertion order, which is the order the client visits it in. */
  datatype Cache = Cache(
    capacity: nat, ranges: seq<Entry>, sizeBytes: int, clock: nat, hits: nat, misses: nat, evictions: nat)

  datatype Outcome =
    | Uncached            // capacity zero: load directly, count nothing
    | Hit(entry: Entry)   // await the promise of a covering range
    | Oversize            // longer than the whole cache: load directly
    | Loading(entry: Entry)

  datatype ReadStep = ReadStep(outcome: Outcome, cache: Cache)

  function Length(e: Entry): int { e.end - e.start }

  predicate CoversRange(e: Entry, key: ObjectKey, start: nat, end: nat)
  {
    e.key == key && e.start <= start && e.end >= end
  }

  // ---------- the operations on values ----------

  /** The first of the shortest covering ranges. */
  function Covering(ranges: seq<Entry>, key: ObjectKey, start: nat, end: nat): (r: Option<nat>)
    ensures r.Some? ==> r.value < |ranges| && CoversRange(ranges[r.value], key, start, end)
    ensures r.None? ==> forall i :: 0 <= i < |ranges| ==> !CoversRange(ranges[i], key, start, end)
    ensures r.Some? ==> forall i :: 0 <= i < |ranges| && CoversRange(ranges[i], key, start, end) ==>
        Length(ranges[r.value]) < Length(ranges[i]) || (Length(ranges[r.value]) == Length(ranges[i]) && r.value <= i)
  {
    var n := |ranges| - 1;
    if n < 0 then None
    else
      var best := Covering(ranges[..n], key, start, end);
      if CoversRange(ranges[n], key, start, end)
         && (best.None? || Length(ranges[n]) < Length(ranges[best.value])) then Some(n)
      else best
  }

  /** The settled range used longest ago. */
  function Oldest(ranges: seq<Entry>): (r: Option<nat>)
    ensures r.Some? ==> r.value < |ranges| && ranges[r.value].settled
    ensures r.Some? ==> forall i :: 0 <= i < |ranges| && ranges[i].settled ==> ranges[r.value].lastUsed <= ranges[i].lastUsed
    ensures r.None? ==> forall i :: 0 <= i < |ranges| ==> !ranges[i].settled
  {
    var n := |ranges| - 1;
    if n < 0 then None
    else
      var best := Oldest(ranges[..n]);
      if ranges[n].settled && (best.None? || ranges[n].lastUsed < ranges[best.value].lastUsed) then Some(n)
      else best
  }

  function Find(ranges: seq<Entry>, bytes: nat): (r: Option<nat>)
    ensures r.Some? ==> r.value < |ranges| && ranges[r.value].bytes == bytes
    ensures r.None? ==> forall i :: 0 <= i < |ranges| ==> ranges[i].bytes != bytes
  {
    var n := |ranges| - 1;
    if n < 0 then None
    else if ranges[n].bytes == bytes then Some(n)
    else Find(ranges[..n], bytes)
  }

  /** `Map.set`: a key already present keeps its place and loses its old entry. */
  function Put(ranges: seq<Entry>, e: Entry): (r: seq<Entry>)
  {
    if exists i :: 0 <= i < |ranges| && SameKey(ranges[i], e) then
      seq(|ranges|, i requires 0 <= i < |ranges| => if SameKey(ranges[i], e) then e else ranges[i])
    else ranges + [e]
  }

  predicate SameKey(a: Entry, b: Entry)
  {
    a.key == b.key && a.start == b.start && a.end == b.end
  }

  function Read(c: Cache, key: ObjectKey, start: nat, end: nat, promise: nat): (r: ReadStep)
  {
    if c.capacity == 0 then ReadStep(Uncached, c)
    else
      var covering := Covering(c.ranges, key, start, end);
      if covering.Some? then
        var i := covering.value;
        var used := c.ranges[i].(lastUsed := c.clock + 1);
        ReadStep(Hit(used), c.(hits := c.hits + 1, clock := c.clock + 1, ranges := c.ranges[i := used]))
      else if end - start > c.capacity then
        ReadStep(Oversize, c.(misses := c.misses + 1))
      else
        var e := Entry(key, start, end, promise, false, c.clock + 1);
        ReadStep(Loading(e), c.(misses := c.misses + 1, clock := c.clock + 1,
                 ranges := Put(c.ranges, e), sizeBytes := c.sizeBytes + (end - start)))
  }

  function Drop(c: Cache, i: nat): (r: Cache)
    requires i < |c.ranges|
    ensures |r.ranges| == |c.ranges| - 1
  {
    c.(ranges := RemoveAt(c.ranges, i), sizeBytes := c.sizeBytes - Length(c.ranges[i]))
  }

  /** A settled range of the same object inside a range that has just arrived. */
  predicate Superseded(candidate: Entry, e: Entry)
  {
    && candidate.bytes != e.bytes && candidate.settled
    && candidate.key == e.key && candidate.start >= e.start && candidate.end <= e.end
  }

  /** The removal loop of the success callback, from position `i`. */
  function Supersede(c: Cache, e: Entry, i: nat): (r: Cache)
    decreases |c.ranges| - i
  {
    if i >= |c.ranges| then c
    else if Superseded(c.ranges[i], e) then Supersede(Drop(c, i), e, i)
    else Supersede(c, e, i + 1)
  }

  function Evict(c: Cache): (r: Cache)
    decreases |c.ranges|
  {
    if c.sizeBytes <= c.capacity then c
    else
      var oldest := Oldest(c.ranges);
      if oldest.None? then c
      else Evict(Drop(c, oldest.value).(evictions := c.evictions + 1))
  }

  function MarkSettled(c: Cache, i: nat): (r: Cache)
    requires i < |c.ranges|
  {
    c.(ranges := c.ranges[i := c.ranges[i].(settled := true)])
  }

  function AfterSupersede(c: Cache, promise: nat): (r: Cache)
  {
    var at := Find(c.ranges, promise);
    if at.None? then c
    else
      var marked := MarkSettled(c, at.value);
      Supersede(marked, marked.ranges[at.value], 0)
  }

  /** The success callback. */
  function Succeed(c: Cache, promise: nat): (r: Cache)
  {
    if Find(c.ranges, promise).None? then c else Evict(AfterSupersede(c, promise))
  }

  /** The failure callback. */
  function Fail(c: Cache, promise: nat): (r: Cache)
  {
    var at := Find(c.ranges, promise);
    if at.None? then c else Drop(c, at.value)
  }

  // ---------- the object itself ----------

  class HttpRangeCache {
    const capacity: nat
    var ranges: seq<Entry>
    var sizeBytes: int
    var clock: nat
    var hits: nat
    var misses: nat
    var evictions: nat

    function State(): (c: Cache)
      reads this
    {
      Cache(capacity, ranges, sizeBytes, clock, hits, misses, evictions)
    }

    constructor (capacity: nat)
      ensures State() == Empty(capacity)
    {
      this.capacity := capacity;
      ranges, sizeBytes, clock, hits, misses, evictions := [], 0, 0, 0, 0, 0;
    }

    /** `read` up to its first suspension; `promise` is the one a load issued now would get. */
    method ReadRange(key: ObjectKey, start: nat, end: nat, promise: nat) returns (outcome: Outcome)
      modifies this
      ensures ReadStep(outcome, State()) == Read(old(State()), key, start, end, promise)
    {
      if capacity == 0 { return Uncached; }
      var covering: Option<nat> := None;
      for i := 0 to |ranges|
        invariant covering == Covering(ranges[..i], key, start, end)
      {
        assert ranges[..i + 1][..i] == ranges[..i];
        if CoversRange(ranges[i], key, start, end)
           && (covering.None? || Length(ranges[i]) < Length(ranges[covering.value])) {
          covering := Some(i);
        }
      }
      assert ranges[..|ranges|] == ranges;
      if covering.Some? {
        hits := hits + 1;
        clock := clock + 1;
        var used := ranges[covering.value].(lastUsed := clock);
        ranges := ranges[covering.value := used];
        return Hit(used);
      }
      misses := misses + 1;
      if end - start > capacity { return Oversize; }
      clock := clock + 1;
      var e := Entry(key, start, end, promise, false, clock);
      ranges := Put(ranges, e);
      sizeBytes := sizeBytes + (end - start);
      return Loading(e);
    }

    method DropAt(i: nat)
      requires i < |ranges|
      modifies this
      ensures State() == Drop(old(State()), i)
    {
      sizeBytes := sizeBytes - Length(ranges[i]);
      ranges := RemoveAt(ranges, i);
    }

    method OnSuccess(promise: nat)
      modifies this
      ensures State() == Succeed(old(State()), promise)
    {
      var at := Find(ranges, promise);
      if at.None? { return; }
      var e := ranges[at.value].(settled := true);
      ranges := ranges[at.value := e];
      ghost var marked := State();
      var i := 0;
      while i < |ranges|
        invariant Supersede(State(), e, i) == Supersede(marked, e, 0)
        decreases |ranges| - i
      {
        if Superseded(ranges[i], e) {
          DropAt(i);
        } else {
          i := i + 1;
        }
      }
      EvictToCapacity();
    }

    method OnFailure(promise: nat)
      modifies this
      ensures State() == Fail(old(State()), promise)
    {
      var at := Find(ranges, promise);
      if at.Some? { DropAt(at.value); }
    }

    method EvictToCapacity()
      modifies this
      ensures State() == Evict(old(State()))
    {
      while sizeBytes > capacity
        invariant Evict(State()) == Evict(old(State()))
        decreases |ranges|
      {
        var oldest: Option<nat> := None;
        for i := 0 to |ranges|
          invariant oldest == Oldest(ranges[..i])
        {
          assert ranges[..i + 1][..i] == ranges[..i];
          if ranges[i].settled && (oldest.None? || ranges[i].lastUsed < ranges[oldest.value].lastUsed) {
            oldest := Some(i);
          }
        }
        assert ranges[..|ranges|] == ranges;
        if oldest.None? { return; }
        DropAt(oldest.value);
        evictions := evictions + 1;
      }
    }
  }

  function Empty(capacity: nat): Cache
  {
    Cache(capacity, [], 0, 0, 0, 0, 0)
  }
}
