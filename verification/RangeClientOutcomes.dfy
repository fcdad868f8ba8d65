/**
 What each call of the client does, in terms of its arguments and the state before it: which slices are
 accepted and where they go, what a flush sends, and how the shared cache is used
 (browser/src/http.ts, `HttpRangeBuffer` over `HttpRangeCache`).
 */
module RangeClientOutcomes {
  import opened Wrappers
  import opened Sequences
  import opened Numbers
  import opened Coalescing
  import opened RangeClient
  import opened RangeClientRuns
  import RangeCache
  import Runs = RangeCacheRuns

  // ---------- which slices are accepted ----------

  /** A non-empty range inside the object, within the client limit unless it is the whole object. */
  ghost predicate Allowed(size: nat, maxRangeBytes: nat, start: int, end: int)
  {
    0 <= start < end <= size && (end - start <= maxRangeBytes || (start == 0 && end == size))
  }

  /**
   A slice is accepted exactly if it is allowed. A whole object is loaded at once, past the cache; every
   other accepted slice is pending with its own bounds and ticket.
   */
  lemma SliceOutcome(s: System, b: nat, start: int, end: int)
    requires b < |s.buffers|
    ensures var s', buffer, ticket := SliceStep(s, b, start, end), s.buffers[b], |s.requests|;
            if !Allowed(buffer.key.size, buffer.maxRangeBytes, start, end) then s' == s
            else
              && s' == s.(requests := s'.requests, buffers := s'.buffers, promises := s'.promises, waiters := s'.waiters)
              && s'.requests == s.requests + [Request(buffer.key, start, end)]
              && if start == 0 && end == buffer.key.size then
                   && s'.buffers == s.buffers
                   && s'.promises == s.promises + [Load(buffer.key, start, end, None)]
                   && s'.waiters == s.waiters + [Waiter(|s.promises|, start, CoalescedRange(start, end, 0, [Read(start, end, ticket)]))]
                 else
                   && s'.promises == s.promises && s'.waiters == s.waiters
                   && s'.buffers == s.buffers[b := buffer.(pending := buffer.pending + [Read(start, end, ticket)], flushScheduled := true)]
  {
  }

  // ---------- what a flush sends ----------

  /**
   One read of a flush. A range inside a resident one issues no load and awaits that range; any other is
   loaded, and exactly those that fit the cache are entered and get a callback.
   */
  lemma IssueOutcome(s: System, key: ObjectKey, range: CoalescedRange)
    requires range.start <= range.end
    ensures var s', p := Issue(s, key, range), |s.promises|;
            var inside := s.cache.capacity > 0 && Runs.Resident(s.cache.ranges, key, range.start, range.end);
            && s' == s.(cache := s'.cache, promises := s'.promises, due := s'.due, waiters := s'.waiters)
            && (inside ==> s'.promises == s.promises && s'.due == s.due && AwaitsResident(s, s', key, range))
            && (!inside ==>
                  && s'.promises == s.promises + [Load(key, range.start, range.end, None)]
                  && s'.waiters == s.waiters + [Waiter(p, range.start, range)]
                  && s'.due == if s.cache.capacity > 0 && range.end - range.start <= s.cache.capacity then s.due + {p} else s.due)
  {
    Runs.ReadOutcome(s.cache, key, range.start, range.end, |s.promises|);
    hide RangeCache.Read;
    var r := RangeCache.Read(s.cache, key, range.start, range.end, |s.promises|);
    if r.outcome.Hit? {
      var i :| 0 <= i < |s.cache.ranges| && Runs.HitAt(s.cache, key, range.start, range.end, i, r.outcome.entry, r.cache);
      assert AwaitsEntry(s, Issue(s, key, range), key, range, i);
    }
  }

  ghost predicate AwaitsResident(s: System, s': System, key: ObjectKey, range: CoalescedRange)
  {
    exists i :: 0 <= i < |s.cache.ranges| && AwaitsEntry(s, s', key, range, i)
  }

  ghost predicate AwaitsEntry(s: System, s': System, key: ObjectKey, range: CoalescedRange, i: nat)
    requires i < |s.cache.ranges|
  {
    var e := s.cache.ranges[i];
    Runs.Contains(e, key, range.start, range.end) && s'.waiters == s.waiters + [Waiter(e.bytes, e.start, range)]
  }

  /** A range awaited through the cache: its promise is that of a resident range around it. */
  ghost predicate InCache(c: RangeCache.Cache, key: ObjectKey, w: Waiter)
  {
    exists e :: e in c.ranges && e.bytes == w.promise && Runs.Contains(e, key, w.range.start, w.range.end)
  }

  /** What sending the ranges of a flush does: one waiter for each, in order, served by the cache if it fits. */
  ghost predicate Sent(s: System, s': System, key: ObjectKey, ranges: seq<CoalescedRange>)
  {
    && |s'.waiters| == |s.waiters| + |ranges| && s.waiters <= s'.waiters
    && (forall k :: 0 <= k < |ranges| ==> s'.waiters[|s.waiters| + k].range == ranges[k])
    && (forall k :: 0 <= k < |ranges| && 0 < s.cache.capacity && ranges[k].end - ranges[k].start <= s.cache.capacity ==>
          InCache(s'.cache, key, s'.waiters[|s.waiters| + k]))
    && (s.cache.capacity == 0 ==> s'.cache == s.cache)
    && s'.cache.capacity == s.cache.capacity
  }

  /** Reads remove no entry. */
  lemma ReadKeepsEntries(c: RangeCache.Cache, key: ObjectKey, start: nat, end: nat, p: nat, other: ObjectKey, w: Waiter)
    requires start <= end && InCache(c, other, w)
    ensures InCache(RangeCache.Read(c, key, start, end, p).cache, other, w)
  {
    Runs.ReadOutcome(c, key, start, end, p);
    hide RangeCache.Read;
    var r := RangeCache.Read(c, key, start, end, p);
    var e :| e in c.ranges && e.bytes == w.promise && Runs.Contains(e, other, w.range.start, w.range.end);
    var j :| 0 <= j < |c.ranges| && c.ranges[j] == e;
    if r.outcome.Hit? {
      var i :| 0 <= i < |c.ranges| && Runs.HitAt(c, key, start, end, i, r.outcome.entry, r.cache);
      assert r.cache.ranges[j] in r.cache.ranges;
    } else if r.outcome.Loading? {
      assert r.cache.ranges[j] == e;
    }
  }

  lemma IssueSends(s: System, key: ObjectKey, range: CoalescedRange)
    requires range.start <= range.end
    ensures Sent(s, Issue(s, key, range), key, [range])
  {
    Runs.ReadOutcome(s.cache, key, range.start, range.end, |s.promises|);
    hide RangeCache.Read;
    var r, s' := RangeCache.Read(s.cache, key, range.start, range.end, |s.promises|), Issue(s, key, range);
    var w := s'.waiters[|s.waiters|];
    if r.outcome.Hit? {
      var i :| 0 <= i < |s.cache.ranges| && Runs.HitAt(s.cache, key, range.start, range.end, i, r.outcome.entry, r.cache);
      assert s'.cache.ranges[i] == r.outcome.entry && r.outcome.entry in s'.cache.ranges;
      assert InCache(s'.cache, key, w);
    } else if r.outcome.Loading? {
      assert s'.cache.ranges[|s.cache.ranges|] == r.outcome.entry;
      assert InCache(s'.cache, key, w);
    }
  }

  lemma {:induction false} AllSent(s: System, key: ObjectKey, ranges: seq<CoalescedRange>)
    requires forall k :: 0 <= k < |ranges| ==> ranges[k].start <= ranges[k].end
    ensures Sent(s, IssueAll(s, key, ranges), key, ranges)
    decreases |ranges|
  {
    hide Issue, InCache, Sent;
    if ranges == [] {
      NothingSent(s, key);
    } else {
      var next := Issue(s, key, ranges[0]);
      IssueSends(s, key, ranges[0]);
      AllSent(next, key, ranges[1..]);
      FirstSent(s, next, key, ranges[0]);
      var w := next.waiters[|s.waiters|];
      if InCache(next.cache, key, w) { StillInCache(next, key, ranges[1..], key, w); }
      SentTwice(s, next, IssueAll(s, key, ranges), key, ranges[0], ranges[1..]);
      assert ranges == [ranges[0]] + ranges[1..];
    }
  }

  lemma NothingSent(s: System, key: ObjectKey)
    ensures Sent(s, s, key, [])
  {
  }

  lemma FirstSent(s: System, s': System, key: ObjectKey, range: CoalescedRange)
    requires Sent(s, s', key, [range])
    ensures |s'.waiters| == |s.waiters| + 1
  {
  }

  lemma SentTwice(s: System, next: System, s': System, key: ObjectKey, first: CoalescedRange, rest: seq<CoalescedRange>)
    requires Sent(s, next, key, [first]) && Sent(next, s', key, rest)
    requires |next.waiters| == |s.waiters| + 1
    requires InCache(next.cache, key, next.waiters[|s.waiters|]) ==> InCache(s'.cache, key, next.waiters[|s.waiters|])
    ensures Sent(s, s', key, [first] + rest)
  {
    hide InCache;
    var n, ranges := |s.waiters|, [first] + rest;
    assert [first][0] == first && s'.waiters[n] == next.waiters[n];
    forall k | 0 < k < |ranges|
      ensures ranges[k] == rest[k - 1] && s'.waiters[n + k] == s'.waiters[|next.waiters| + (k - 1)]
    {
    }
  }

  lemma {:induction false} StillInCache(s: System, key: ObjectKey, ranges: seq<CoalescedRange>, other: ObjectKey, w: Waiter)
    requires InCache(s.cache, other, w) && forall k :: 0 <= k < |ranges| ==> ranges[k].start <= ranges[k].end
    ensures InCache(IssueAll(s, key, ranges).cache, other, w)
    decreases |ranges|
  {
    hide InCache, RangeCache.Read;
    if ranges != [] {
      ReadKeepsEntries(s.cache, key, ranges[0].start, ranges[0].end, |s.promises|, other, w);
      StillInCache(Issue(s, key, ranges[0]), key, ranges[1..], other, w);
    }
  }

  /** The ranges a flush sends: exact, within the buffer's own two limits, and the fewest possible. */
  ghost predicate BestRanges(b: Buffer, ranges: seq<CoalescedRange>)
  {
    b.maxRangeGapBytes >= 0
    && var limits := Limits(b.maxRangeBytes, b.maxRangeGapBytes);
       Sound(ranges, SortReads(b.pending), limits) && FewestRequests(ranges, SortReads(b.pending), limits)
  }

  /**
   A flush empties the buffer. If the gap option is not in [0, maxRangeBytes] it answers each pending read
   with the option error and sends nothing; otherwise it sends the best ranges, through the cache.
   */
  lemma FlushOutcome(s: System, b: nat, store: Store) returns (ranges: seq<CoalescedRange>)
    requires Inv(s, store) && b < |s.buffers|
    ensures var s', buffer := FlushStep(s, b), s.buffers[b];
            && s'.buffers == s.buffers[b := buffer.(pending := [], flushScheduled := false)] && s'.requests == s.requests
            && if BadGapOption(buffer) then
                 && s' == s.(buffers := s'.buffers, replies := s'.replies)
                 && s.replies <= s'.replies && |s'.replies| == |s.replies| + |buffer.pending|
                 && forall i :: 0 <= i < |buffer.pending| ==>
                      s'.replies[|s.replies| + i] == Reply(buffer.pending[i].ticket, Err(InvalidGapOption), None)
               else
                 s'.replies == s.replies && BestRanges(buffer, ranges) && Sent(s, s', buffer.key, ranges)
  {
    hide Inv, Coalesced, IssueAll, SortReads, Sent, BestRanges, Issue;
    var buffer := s.buffers[b];
    ranges := [];
    if BadGapOption(buffer) {
      FlushRefused(s, b);
    } else {
      ranges := Coalesced(SortReads(buffer.pending), Limits(buffer.maxRangeBytes, buffer.maxRangeGapBytes));
      var s0 := s.(buffers := s.buffers[b := Drained(buffer)]);
      FlushRanges(s, b, store);
      AllSent(s0, buffer.key, ranges);
      SentFromDrained(s, s0, IssueAll(s0, buffer.key, ranges), buffer.key, ranges);
      IssueAllWork(s0, buffer.key, ranges);
      BufferFit(s, b, store);
      BestAreCoalesced(buffer, s.requests, store);
    }
  }

  lemma BufferFit(s: System, b: nat, store: Store)
    requires Inv(s, store) && b < |s.buffers|
    ensures BufferOk(s.buffers[b], s.requests, store)
  {
    hide CacheOk, Conserved;
    BufferAt(s, b, store);
  }

  lemma SentFromDrained(s: System, s0: System, s': System, key: ObjectKey, ranges: seq<CoalescedRange>)
    requires Sent(s0, s', key, ranges) && s0.waiters == s.waiters && s0.cache == s.cache
    ensures Sent(s, s', key, ranges)
  {
    hide InCache;
  }

  lemma FlushRefused(s: System, b: nat)
    requires b < |s.buffers| && BadGapOption(s.buffers[b])
    ensures var s', buffer := FlushStep(s, b), s.buffers[b];
            && s' == s.(buffers := s.buffers[b := buffer.(pending := [], flushScheduled := false)], replies := s'.replies)
            && s.replies <= s'.replies && |s'.replies| == |s.replies| + |buffer.pending|
            && forall i :: 0 <= i < |buffer.pending| ==>
                 s'.replies[|s.replies| + i] == Reply(buffer.pending[i].ticket, Err(InvalidGapOption), None)
  {
  }

  lemma BestAreCoalesced(b: Buffer, requests: seq<Request>, store: Store)
    requires BufferOk(b, requests, store) && !BadGapOption(b)
    ensures BestRanges(b, Coalesced(SortReads(b.pending), Limits(b.maxRangeBytes, b.maxRangeGapBytes)))
  {
    hide Coalesced, SortReads;
    var limits := Limits(b.maxRangeBytes, b.maxRangeGapBytes);
    var sorted := SortReads(b.pending);
    SortedAccepted(b, requests, store);
    SortedByComparator(b.pending);
    CoalescedSound(sorted, limits);
    CoalescedIsOptimal(sorted, limits);
  }

  // ---------- the shared cache is a cache run ----------

  ghost function IssueEvents(s: System, key: ObjectKey, ranges: seq<CoalescedRange>): seq<Runs.Event>
    decreases |ranges|
  {
    if ranges == [] then []
    else
      [Runs.ReadEvent(key, ranges[0].start, ranges[0].end, |s.promises|)] + IssueEvents(Issue(s, key, ranges[0]), key, ranges[1..])
  }

  /** What the cache sees of an event: the reads of a flush, and the callback that fits how the load ended. */
  ghost function CacheEventsOf(s: System, ev: Event): seq<Runs.Event>
  {
    match ev
    case FlushEvent(b) =>
      if b >= |s.buffers| || BadGapOption(s.buffers[b]) then []
      else
        var buffer := s.buffers[b];
        var ranges := Coalesced(SortReads(buffer.pending), Limits(buffer.maxRangeBytes, buffer.maxRangeGapBytes));
        IssueEvents(s.(buffers := s.buffers[b := Drained(buffer)]), buffer.key, ranges)
    case CallbackEvent(p) =>
      if p >= |s.promises| || s.promises[p].outcome.None? then []
      else if s.promises[p].outcome.value.Ok? then [Runs.SuccessEvent(p)] else [Runs.FailureEvent(p)]
    case _ => []
  }

  ghost function CacheEvents(start: System, events: seq<Event>, store: Store): seq<Runs.Event>
  {
    if events == [] then []
    else
      var n := |events| - 1;
      var s := After(start, events[..n], store);
      CacheEvents(start, events[..n], store) + if Enabled(s, events[n], store) then CacheEventsOf(s, events[n]) else []
  }

  ghost predicate Tracks(m: Runs.Monitor, s: System)
  {
    m.cache == s.cache && m.due == s.due && m.next <= |s.promises|
  }

  lemma RunSnoc(capacity: nat, x: seq<Runs.Event>, ev: Runs.Event)
    ensures var m := Runs.After(capacity, x);
            Runs.After(capacity, x + [ev]) == if Runs.Enabled(m, ev) then Runs.Step(m, ev) else m
  {
    hide Runs.Step, Runs.Enabled;
    assert (x + [ev])[..|x|] == x;
  }

  lemma IssueTracks(s: System, key: ObjectKey, range: CoalescedRange, capacity: nat, x: seq<Runs.Event>)
    requires range.start <= range.end && Tracks(Runs.After(capacity, x), s)
    ensures Tracks(Runs.After(capacity, x + [Runs.ReadEvent(key, range.start, range.end, |s.promises|)]), Issue(s, key, range))
  {
    hide RangeCache.Read, Runs.After;
    RunSnoc(capacity, x, Runs.ReadEvent(key, range.start, range.end, |s.promises|));
  }

  lemma {:induction false} AllTracked(s: System, key: ObjectKey, ranges: seq<CoalescedRange>, capacity: nat, x: seq<Runs.Event>)
    requires Tracks(Runs.After(capacity, x), s)
    requires forall k :: 0 <= k < |ranges| ==> ranges[k].start <= ranges[k].end
    ensures Tracks(Runs.After(capacity, x + IssueEvents(s, key, ranges)), IssueAll(s, key, ranges))
    decreases |ranges|
  {
    hide Issue, Runs.After, Tracks;
    if ranges == [] {
      assert x + [] == x;
    } else {
      var first := Runs.ReadEvent(key, ranges[0].start, ranges[0].end, |s.promises|);
      IssueTracks(s, key, ranges[0], capacity, x);
      AllTracked(Issue(s, key, ranges[0]), key, ranges[1..], capacity, x + [first]);
      var rest := IssueEvents(Issue(s, key, ranges[0]), key, ranges[1..]);
      assert (x + [first]) + rest == x + ([first] + rest);
    }
  }

  lemma EventTracked(s: System, ev: Event, store: Store, capacity: nat, x: seq<Runs.Event>)
    requires Inv(s, store) && Enabled(s, ev, store) && Tracks(Runs.After(capacity, x), s)
    ensures Tracks(Runs.After(capacity, x + CacheEventsOf(s, ev)), Step(s, ev, store))
  {
    hide Inv, Runs.After, Coalesced, IssueAll, IssueEvents, SortReads;
    assert x + [] == x;
    match ev {
      case FlushEvent(b) =>
        var buffer := s.buffers[b];
        FlushRanges(s, b, store);
        if !BadGapOption(buffer) {
          AllTracked(s.(buffers := s.buffers[b := Drained(buffer)]), buffer.key,
                     Coalesced(SortReads(buffer.pending), Limits(buffer.maxRangeBytes, buffer.maxRangeGapBytes)), capacity, x);
        }
      case CallbackEvent(p) =>
        RunSnoc(capacity, x, Runs.SuccessEvent(p));
        RunSnoc(capacity, x, Runs.FailureEvent(p));
        hide RangeCache.Succeed, RangeCache.Fail, RangeCache.AfterSupersede;
      case SliceEvent(b, from, to) => SliceOutcome(s, b, from, to);
      case LoadEvent(_, _) =>
      case DeliverEvent(_) =>
    }
  }

  lemma FlushRanges(s: System, b: nat, store: Store)
    requires Inv(s, store) && b < |s.buffers|
    ensures var buffer := s.buffers[b];
            !BadGapOption(buffer) ==>
              forall k :: 0 <= k < |Coalesced(SortReads(buffer.pending), Limits(buffer.maxRangeBytes, buffer.maxRangeGapBytes))| ==>
                var range := Coalesced(SortReads(buffer.pending), Limits(buffer.maxRangeBytes, buffer.maxRangeGapBytes))[k];
                range.start <= range.end
  {
    hide Coalesced, SortReads, CacheOk, Conserved;
    BufferAt(s, b, store);
    if !BadGapOption(s.buffers[b]) { CoalescedRangesOk(s.buffers[b], s.requests, store); }
  }

  /**
   The cache of a client in any state is the cache after a run of its own: the reads of the flushes so
   far and the callbacks that fit how the loads ended. So all that holds of cache runs holds of it.
   */
  lemma {:induction false} CacheIsRun(start: System, events: seq<Event>, store: Store)
    requires Initial(start, store)
    ensures Tracks(Runs.After(start.cache.capacity, CacheEvents(start, events, store)), After(start, events, store))
  {
    hide Inv, Step, CacheEventsOf;
    if events != [] {
      var n := |events| - 1;
      CacheIsRun(start, events[..n], store);
      RunInv(start, events[..n], store);
      var s, x := After(start, events[..n], store), CacheEvents(start, events[..n], store);
      assert x + [] == x;
      if Enabled(s, events[n], store) { EventTracked(s, events[n], store, start.cache.capacity, x); }
    }
  }

  /** A client at rest holds settled ranges only, within the capacity of its cache. */
  lemma RestingCacheWithinCapacity(start: System, events: seq<Event>, store: Store)
    requires Initial(start, store) && Resting(After(start, events, store), store)
    ensures var c := After(start, events, store).cache;
            c.sizeBytes == Runs.Bytes(c.ranges) && c.sizeBytes <= start.cache.capacity && forall e :: e in c.ranges ==> e.settled
  {
    hide After, Runs.After, Runs.Bytes, Runs.SettledBytes;
    CacheIsRun(start, events, store);
    var s, x := After(start, events, store), CacheEvents(start, events, store);
    Runs.SizeAccounting(start.cache.capacity, x);
    Runs.RunInv(start.cache.capacity, x);
    var m := Runs.After(start.cache.capacity, x);
    forall p | p in s.due ensures p < |s.promises| {
      var i := DueBelowNext(m, p);
    }
    forall p | p in s.due ensures false {
      var ev := DueMoves(s, p, store);
    }
    NothingDue(m);
  }

  /** A load that is due can finish, or its callback can run. */
  lemma DueMoves(s: System, p: nat, store: Store) returns (ev: Event)
    requires p in s.due && p < |s.promises|
    ensures Enabled(s, ev, store) && !ev.SliceEvent?
  {
    ev := if s.promises[p].outcome.None? then LoadEvent(p, Err(0)) else CallbackEvent(p);
  }

  lemma DueBelowNext(m: Runs.Monitor, p: nat) returns (i: nat)
    requires Runs.Inv(m) && p in m.due
    ensures p < m.next && i < |m.cache.ranges|
  {
    hide Runs.Valid;
    var e :| e in m.cache.ranges && e.bytes == p && !e.settled;
    i :| 0 <= i < |m.cache.ranges| && m.cache.ranges[i] == e;
  }

  lemma NothingDue(m: Runs.Monitor)
    requires Runs.Inv(m)
    ensures m.due == {} ==> forall e :: e in m.cache.ranges ==> e.settled
  {
    hide Runs.Valid;
  }

  // ---------- every allowed slice settles ----------

  lemma StepKeeps(s: System, ev: Event, store: Store)
    requires Inv(s, store) && Enabled(s, ev, store)
    ensures var s' := Step(s, ev, store);
            && s.requests <= s'.requests && |s'.buffers| == |s.buffers|
            && forall b :: 0 <= b < |s.buffers| ==>
                 s'.buffers[b].key == s.buffers[b].key && s'.buffers[b].maxRangeBytes == s.buffers[b].maxRangeBytes
  {
    hide Inv, Coalesced, IssueAll;
    match ev {
      case SliceEvent(b, from, to) => SliceOutcome(s, b, from, to);
      case FlushEvent(b) =>
        FlushKeeps(s, b);
      case _ =>
    }
  }

  lemma FlushKeeps(s: System, b: nat)
    requires b < |s.buffers|
    ensures FlushStep(s, b).buffers == s.buffers[b := Drained(s.buffers[b])] && FlushStep(s, b).requests == s.requests
  {
    hide Coalesced, IssueAll, SortReads;
    var buffer := s.buffers[b];
    if ValidGapOption(buffer) {
      IssueAllWork(s.(buffers := s.buffers[b := Drained(buffer)]), buffer.key, Coalesced(SortReads(buffer.pending), LimitsOf(buffer)));
    }
  }

  lemma {:induction false} RunKeeps(start: System, x: seq<Event>, y: seq<Event>, store: Store)
    requires Initial(start, store)
    ensures var s, s' := After(start, x, store), After(start, x + y, store);
            && s.requests <= s'.requests && |s'.buffers| == |s.buffers|
            && forall b :: 0 <= b < |s.buffers| ==>
                 s'.buffers[b].key == s.buffers[b].key && s'.buffers[b].maxRangeBytes == s.buffers[b].maxRangeBytes
    decreases |y|
  {
    hide Inv, Step;
    if y == [] {
      assert x + y == x;
    } else {
      var n := |y| - 1;
      assert (x + y)[..|x| + n] == x + y[..n];
      RunKeeps(start, x, y[..n], store);
      RunInv(start, x + y[..n], store);
      var s := After(start, x + y[..n], store);
      if Enabled(s, y[n], store) { StepKeeps(s, y[n], store); }
    }
  }

  /**
   Every allowed slice a run makes is answered: once slices stop and the client is at rest, there is
   exactly one reply for it, with the plain read of the bounds it gave or the error of its load.
   */
  lemma EveryAllowedSliceSettles(start: System, events: seq<Event>, more: seq<Event>, store: Store, k: nat) returns (i: nat)
    requires Initial(start, store) && k < |events| && events[k].SliceEvent? && events[k].buffer < |start.buffers|
    requires var b, ev := start.buffers[events[k].buffer], events[k];
             Allowed(b.key.size, b.maxRangeBytes, ev.start, ev.end)
    requires var s := After(start, events, store);
             Moves(s, more, store) && Resting(After(s, more, store), store)
    ensures var s' := After(After(start, events, store), more, store); var ev := events[k];
            && OnlyReply(s'.replies, i) && ReplyOk(s'.replies[i], s', store)
            && s'.requests[s'.replies[i].ticket] == Request(start.buffers[ev.buffer].key, ev.start, ev.end)
            && s'.replies[i].ticket == |After(start, events[..k], store).requests|
  {
    hide After, ReplyOk, Resting, Moves, OnlyReply, Work, Initial;
    var ticket := |After(start, events[..k], store).requests|;
    AllowedSliceHasTicket(start, events, store, k);
    i := EverySliceSettlesOnce(start, events, more, store, ticket);
    AfterAppend(start, events, more, store);
    RunKeeps(start, events, more, store);
  }

  /** An allowed slice is handed the next ticket, for the bounds it gave. */
  lemma AllowedSliceHasTicket(start: System, events: seq<Event>, store: Store, k: nat)
    requires Initial(start, store) && k < |events| && events[k].SliceEvent? && events[k].buffer < |start.buffers|
    requires var b, ev := start.buffers[events[k].buffer], events[k];
             Allowed(b.key.size, b.maxRangeBytes, ev.start, ev.end)
    ensures var ticket, requests, ev := |After(start, events[..k], store).requests|, After(start, events, store).requests, events[k];
            ticket < |requests| && requests[ticket] == Request(start.buffers[ev.buffer].key, ev.start, ev.end)
  {
    hide Step, Enabled, Initial, After;
    var before := After(start, events[..k], store);
    BuffersFromStart(start, events[..k], store);
    SliceTakesTicket(before, events[k], store);
    NextState(start, events, store, k);
    assert events == events[..k + 1] + events[k + 1..];
    RunKeeps(start, events[..k + 1], events[k + 1..], store);
  }

  lemma BuffersFromStart(start: System, events: seq<Event>, store: Store)
    requires Initial(start, store)
    ensures var s := After(start, events, store);
            && |s.buffers| == |start.buffers|
            && forall b :: 0 <= b < |start.buffers| ==>
                 s.buffers[b].key == start.buffers[b].key && s.buffers[b].maxRangeBytes == start.buffers[b].maxRangeBytes
  {
    RunKeeps(start, [], events, store);
    hide Initial, Step, Enabled;
    assert [] + events == events && After(start, [], store) == start;
  }

  lemma NextState(start: System, events: seq<Event>, store: Store, k: nat)
    requires k < |events| && Enabled(After(start, events[..k], store), events[k], store)
    ensures After(start, events[..k + 1], store) == Step(After(start, events[..k], store), events[k], store)
  {
    hide Step, Enabled;
    assert events[..k + 1][..k] == events[..k];
  }

  lemma SliceTakesTicket(s: System, ev: Event, store: Store)
    requires ev.SliceEvent? && ev.buffer < |s.buffers|
    requires Allowed(s.buffers[ev.buffer].key.size, s.buffers[ev.buffer].maxRangeBytes, ev.start, ev.end)
    ensures Enabled(s, ev, store) && Step(s, ev, store).requests == s.requests + [Request(s.buffers[ev.buffer].key, ev.start, ev.end)]
  {
    SliceOutcome(s, ev.buffer, ev.start, ev.end);
    hide SliceStep;
  }
}
