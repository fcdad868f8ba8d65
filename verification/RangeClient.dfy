/**
 Range buffers sharing one cache, against a network whose loads finish in any order or fail
 (browser/src/http.ts, `HttpRangeBuffer` over `HttpRangeCache`).

 Each synchronous stretch of the client is one event. A caller's promise is a ticket.
 */
module RangeClient {
  import opened Wrappers
  import opened Sequences
  import opened Numbers
  import opened Coalescing
  import RangeCache

  type ObjectKey = RangeCache.ObjectKey

  /** The immutable objects behind the URLs. */
  type Store = map<ObjectKey, seq<Byte>>

  datatype Error = LoadFailed(reason: nat) | InvalidGapOption

  datatype Buffer = Buffer(
    key: ObjectKey, maxRangeBytes: nat, maxRangeGapBytes: int, pending: seq<Read>, flushScheduled: bool)

  /** A load of [start, end) of an object and, once it finished, how. */
  datatype Load = Load(key: ObjectKey, start: nat, end: nat, outcome: Option<Result<seq<Byte>, nat>>)

  /** A coalesced range awaiting the bytes of `promise`, which begin at object position `base`. */
  datatype Waiter = Waiter(promise: nat, base: nat, range: CoalescedRange)

  datatype Request = Request(key: ObjectKey, start: nat, end: nat)

  /** `load` is the promise the caller awaited, if its read was ever issued. */
  datatype Reply = Reply(ticket: nat, result: Result<seq<Byte>, Error>, load: Option<nat>)

  /** `due` holds the promises whose cache callback has not run; tickets index `requests`. */
  datatype System = System(
    cache: RangeCache.Cache, buffers: seq<Buffer>, promises: seq<Load>, due: set<nat>,
    waiters: seq<Waiter>, requests: seq<Request>, replies: seq<Reply>)

  datatype Event =
    | SliceEvent(buffer: nat, start: int, end: int)
    | FlushEvent(buffer: nat)
    | LoadEvent(promise: nat, outcome: Result<seq<Byte>, nat>)
    | CallbackEvent(promise: nat)
    | DeliverEvent(waiter: nat)

  // ---------- slices of byte buffers ----------

  function Clamp(length: nat, i: int): (r: nat)
    ensures r <= length
  {
    if i < 0 then (if length + i < 0 then 0 else length + i)
    else if i > length then length
    else i
  }

  /** `ArrayBuffer.slice`, which clamps its arguments. */
  function SliceBytes(bytes: seq<Byte>, from: int, to: int): seq<Byte>
  {
    var lo, hi := Clamp(|bytes|, from), Clamp(|bytes|, to);
    if lo <= hi then bytes[lo..hi] else []
  }

  // ---------- one buffer ----------

  datatype SliceOutcome = Rejected | Direct | Queued

  /** How `slice` treats its arguments. */
  function Admit(b: Buffer, start: int, end: int): (r: SliceOutcome)
  {
    if !(0 <= start < end <= b.key.size) then Rejected
    else if start == 0 && end == b.key.size then Direct
    else if end - start > b.maxRangeBytes then Rejected
    else Queued
  }

  function Enqueue(b: Buffer, read: Read): Buffer
  {
    b.(pending := b.pending + [read], flushScheduled := true)
  }

  function Drained(b: Buffer): Buffer
  {
    b.(pending := [], flushScheduled := false)
  }

  predicate ValidGapOption(b: Buffer)
  {
    0 <= b.maxRangeGapBytes <= b.maxRangeBytes
  }

  function LimitsOf(b: Buffer): Limits
    requires ValidGapOption(b)
  {
    Limits(b.maxRangeBytes, b.maxRangeGapBytes)
  }

  class HttpRangeBuffer {
    const key: ObjectKey
    const maxRangeBytes: nat
    const maxRangeGapBytes: int
    var pending: seq<Read>
    var flushScheduled: bool

    function State(): Buffer
      reads this
    {
      Buffer(key, maxRangeBytes, maxRangeGapBytes, pending, flushScheduled)
    }

    constructor (key: ObjectKey, maxRangeBytes: nat, maxRangeGapBytes: int)
      requires key.size > 0
      ensures State() == Buffer(key, maxRangeBytes, maxRangeGapBytes, [], false)
    {
      this.key, this.maxRangeBytes, this.maxRangeGapBytes := key, maxRangeBytes, maxRangeGapBytes;
      pending, flushScheduled := [], false;
    }

    /** `schedule` tells that a timer was set; at most one is ever outstanding. */
    method Slice(start: int, end: int, ticket: nat) returns (outcome: SliceOutcome, schedule: bool)
      modifies this
      ensures outcome == Admit(old(State()), start, end)
      ensures State() == if outcome.Queued? then Enqueue(old(State()), Read(start, end, ticket)) else old(State())
      ensures schedule <==> outcome.Queued? && !old(flushScheduled)
      ensures outcome.Rejected? <==> !(0 <= start < end <= key.size && (end - start <= maxRangeBytes || (start == 0 && end == key.size)))
      ensures outcome.Direct? <==> start == 0 && 0 < end == key.size
      ensures pending == if outcome.Queued? then old(pending) + [Read(start, end, ticket)] else old(pending)
    {
      schedule := false;
      if start < 0 || end <= start || end > key.size { return Rejected, false; }
      if end - start > maxRangeBytes && !(start == 0 && end == key.size) { return Rejected, false; }
      if start == 0 && end == key.size { return Direct, false; }
      outcome := Queued;
      pending := pending + [Read(start, end, ticket)];
      if flushScheduled { return; }
      flushScheduled := true;
      schedule := true;
    }

    /** The timer callback up to `flush`. */
    method OnTimer() returns (batch: seq<Read>)
      modifies this
      ensures batch == old(pending)
      ensures State() == Drained(old(State()))
    {
      flushScheduled := false;
      batch := pending;
      pending := [];
    }
  }

  // ---------- the events ----------

  predicate Enabled(s: System, ev: Event, store: Store)
  {
    match ev
    case SliceEvent(b, _, _) => b < |s.buffers|
    case FlushEvent(b) => b < |s.buffers| && s.buffers[b].flushScheduled
    case LoadEvent(p, outcome) =>
      && p < |s.promises| && s.promises[p].outcome.None?
      && (outcome.Ok? ==> Delivers(s.promises[p], outcome.value, store))
    case CallbackEvent(p) => p in s.due && p < |s.promises| && s.promises[p].outcome.Some?
    case DeliverEvent(w) =>
      w < |s.waiters| && s.waiters[w].promise < |s.promises| && s.promises[s.waiters[w].promise].outcome.Some?
  }

  /** The contract of `fetchSlice`: a load that succeeds has exactly the bytes it asked for. */
  predicate Delivers(l: Load, bytes: seq<Byte>, store: Store)
  {
    && l.key in store && l.start <= l.end <= |store[l.key]|
    && bytes == store[l.key][l.start..l.end]
  }

  function SliceStep(s: System, b: nat, start: int, end: int): System
    requires b < |s.buffers|
  {
    var buffer, ticket := s.buffers[b], |s.requests|;
    match Admit(buffer, start, end)
    case Rejected => s
    case Direct =>
      s.(promises := s.promises + [Load(buffer.key, start, end, None)],
         waiters := s.waiters + [Waiter(|s.promises|, start, CoalescedRange(start, end, 0, [Read(start, end, ticket)]))],
         requests := s.requests + [Request(buffer.key, start, end)])
    case Queued =>
      s.(buffers := s.buffers[b := Enqueue(buffer, Read(start, end, ticket))],
         requests := s.requests + [Request(buffer.key, start, end)])
  }

  /** One `rangeCache.read` of a flush. */
  function Issue(s: System, key: ObjectKey, range: CoalescedRange): System
  {
    var p := |s.promises|;
    var r := RangeCache.Read(s.cache, key, range.start, range.end, p);
    if r.outcome.Hit? then
      s.(cache := r.cache, waiters := s.waiters + [Waiter(r.outcome.entry.bytes, r.outcome.entry.start, range)])
    else
      s.(cache := r.cache,
         promises := s.promises + [Load(key, range.start, range.end, None)],
         due := if r.outcome.Loading? then s.due + {p} else s.due,
         waiters := s.waiters + [Waiter(p, range.start, range)])
  }

  function IssueAll(s: System, key: ObjectKey, ranges: seq<CoalescedRange>): System
    decreases ranges
  {
    if ranges == [] then s
    else IssueAll(Issue(s, key, ranges[0]), key, ranges[1..])
  }

  function FailAll(batch: seq<Read>, error: Error): (r: seq<Reply>)
    ensures |r| == |batch|
  {
    seq(|batch|, i requires 0 <= i < |batch| => Reply(batch[i].ticket, Err(error), None))
  }

  function FlushStep(s: System, b: nat): System
    requires b < |s.buffers|
  {
    var buffer := s.buffers[b];
    var s' := s.(buffers := s.buffers[b := Drained(buffer)]);
    if !ValidGapOption(buffer) then s'.(replies := s.replies + FailAll(buffer.pending, InvalidGapOption))
    else IssueAll(s', buffer.key, Coalesced(SortReads(buffer.pending), LimitsOf(buffer)))
  }

  function LoadStep(s: System, p: nat, outcome: Result<seq<Byte>, nat>): System
    requires p < |s.promises|
  {
    s.(promises := s.promises[p := s.promises[p].(outcome := Some(outcome))])
  }

  function CallbackStep(s: System, p: nat): System
    requires p < |s.promises| && s.promises[p].outcome.Some?
  {
    var cache := if s.promises[p].outcome.value.Ok? then RangeCache.Succeed(s.cache, p) else RangeCache.Fail(s.cache, p);
    s.(cache := cache, due := s.due - {p})
  }

  function Answer(w: Waiter, read: Read, outcome: Result<seq<Byte>, nat>): Reply
  {
    match outcome
    case Err(reason) => Reply(read.ticket, Err(LoadFailed(reason)), Some(w.promise))
    case Ok(bytes) =>
      var range := SliceBytes(bytes, w.range.start - w.base, w.range.end - w.base);
      Reply(read.ticket, Ok(SliceBytes(range, read.start - w.range.start, read.end - w.range.start)), Some(w.promise))
  }

  function Answers(w: Waiter, outcome: Result<seq<Byte>, nat>): (r: seq<Reply>)
    ensures |r| == |w.range.members|
  {
    seq(|w.range.members|, i requires 0 <= i < |w.range.members| => Answer(w, w.range.members[i], outcome))
  }

  function DeliverStep(s: System, w: nat): System
    requires w < |s.waiters| && s.waiters[w].promise < |s.promises| && s.promises[s.waiters[w].promise].outcome.Some?
  {
    var waiter := s.waiters[w];
    s.(waiters := RemoveAt(s.waiters, w),
       replies := s.replies + Answers(waiter, s.promises[waiter.promise].outcome.value))
  }

  function Step(s: System, ev: Event, store: Store): System
    requires Enabled(s, ev, store)
  {
    match ev
    case SliceEvent(b, start, end) => SliceStep(s, b, start, end)
    case FlushEvent(b) => FlushStep(s, b)
    case LoadEvent(p, outcome) => LoadStep(s, p, outcome)
    case CallbackEvent(p) => CallbackStep(s, p)
    case DeliverEvent(w) => DeliverStep(s, w)
  }

  /** A fresh client: an empty cache and buffers over objects of the store. */
  ghost predicate Initial(s: System, store: Store)
  {
    && s.cache == RangeCache.Empty(s.cache.capacity)
    && s.promises == [] && s.due == {} && s.waiters == [] && s.requests == [] && s.replies == []
    && forall b :: 0 <= b < |s.buffers| ==>
         && s.buffers[b].key in store && |store[s.buffers[b].key]| == s.buffers[b].key.size
         && s.buffers[b].pending == [] && !s.buffers[b].flushScheduled
  }

  /** The state after the enabled events among `events`, in order. */
  function After(start: System, events: seq<Event>, store: Store): System
  {
    if events == [] then start
    else
      var n := |events| - 1;
      var s := After(start, events[..n], store);
      if Enabled(s, events[n], store) then Step(s, events[n], store) else s
  }
}
