/**
 What the IPC driver guarantees over every run of pushes: bytes are conserved, frames are bounded,
 and the output does not depend on how the stream was cut into chunks (python/src/ipc.rs).
 */
module IpcDecoderRuns {
  import opened Wrappers
  import opened Numbers
  import opened IpcDecoder

  /** A stream decoder has no schema at first, keeps the one it found, and needs it before a batch. */
  ghost predicate Lawful<S(!new), B, C>(a: Automaton<S, B, C>)
  {
    && a.schema(a.init).None?
    && forall s, b :: a.feed(s, b).Advance? ==>
         && (a.schema(s).Some? ==> a.schema(a.feed(s, b).state) == a.schema(s))
         && (a.feed(s, b).batch.Some? ==> a.schema(a.feed(s, b).state).Some?)
  }

  // ---------- the reference: bytes one at a time ----------

  datatype Fed<+S, +B> = Fed(state: S, batches: seq<B>) | Refused

  /** Feeding a whole stream byte by byte, ignoring windows and chunks. */
  ghost function FeedAll<S, B, C>(a: Automaton<S, B, C>, s: S, bytes: seq<Byte>): Fed<S, B>
  {
    if bytes == [] then Fed(s, [])
    else
      match a.feed(s, bytes[0])
      case Advance(s', batch) =>
        var rest := FeedAll(a, s', bytes[1..]);
        if rest.Refused? then Refused else Fed(rest.state, ToSeq(batch) + rest.batches)
      case _ => Refused
  }

  function ToSeq<T>(o: Option<T>): seq<T> { if o.Some? then [o.value] else [] }

  lemma {:induction false} FeedAppend<S, B, C>(a: Automaton<S, B, C>, s: S, x: seq<Byte>, y: seq<Byte>)
    requires FeedAll(a, s, x).Fed?
    ensures var first := FeedAll(a, s, x);
            var second := FeedAll(a, first.state, y);
            FeedAll(a, s, x + y) == if second.Refused? then Refused else Fed(second.state, first.batches + second.batches)
  {
    if x == [] {
      assert x + y == y;
    } else {
      assert (x + y)[1..] == x[1..] + y;
      FeedAppend(a, a.feed(s, x[0]).state, x[1..], y);
    }
  }

  lemma {:induction false} FeedSchema<S(!new), B, C>(a: Automaton<S, B, C>, s: S, bytes: seq<Byte>)
    requires Lawful(a) && FeedAll(a, s, bytes).Fed?
    ensures a.schema(s).Some? ==> a.schema(FeedAll(a, s, bytes).state) == a.schema(s)
    ensures FeedAll(a, s, bytes).batches != [] ==> a.schema(FeedAll(a, s, bytes).state).Some?
  {
    if bytes != [] {
      var f := a.feed(s, bytes[0]);
      FeedSchema(a, f.state, bytes[1..]);
    }
  }

  /** A window call agrees with the reference on the bytes it took. */
  lemma {:induction false} DecodeFeeds<S, B, C>(a: Automaton<S, B, C>, s: S, window: seq<Byte>)
    ensures var r := Decode(a, s, window);
            !r.fault ==> FeedAll(a, s, window[..r.consumed]) == Fed(r.state, ToSeq(r.batch))
  {
    if window != [] {
      var f := a.feed(s, window[0]);
      if f.Advance? {
        if f.batch.Some? {
          assert window[..1][1..] == [];
        } else {
          DecodeFeeds(a, f.state, window[1..]);
          var r := Decode(a, s, window);
          assert window[..r.consumed][1..] == window[1..][..r.consumed - 1];
        }
      }
    }
  }

  // ---------- one call ----------

  ghost function PendingBytes<S>(d: Driver<S>): seq<Byte>
  {
    if d.pending.Some? then d.pending.value else []
  }

  ghost predicate DriverOk<S, B, C>(a: Automaton<S, B, C>, d: Driver<S>)
  {
    && d.sinceBoundary <= d.maxFrameBytes
    && (d.pending.Some? ==> d.pending.value != [])
    && (d.schemaEmitted <==> a.schema(d.decoder).Some?)
  }

  /**
   How far the last boundary lies back: `count` bytes were taken so far, and the last boundary came
   after `at` of them. Before any batch, that is the start or the window that found the schema.
   */
  ghost predicate Spaced<S, B, C>(a: Automaton<S, B, C>, d: Driver<S>, count: nat, hasBatch: bool, at: nat)
  {
    && at <= count && count - at == d.sinceBoundary
    && (hasBatch ==> a.schema(d.decoder).Some?)
    && (!hasBatch && a.schema(d.decoder).None? ==> at == 0)
    && (!hasBatch ==> at <= d.maxFrameBytes)
  }

  ghost predicate NextBatchAt<S>(d: Driver<S>, count: nat, hasBatch: bool, at: nat)
  {
    if hasBatch then at <= count && count - at <= d.maxFrameBytes else count <= 2 * d.maxFrameBytes
  }

  ghost function Boundary(count: nat, at: nat, boundary: Option<nat>): nat
  {
    if boundary.Some? then count + boundary.value else at
  }

  /** A window that does not fault keeps the driver in order and the bytes conserved. */
  lemma WindowOk<S(!new), B, C>(a: Automaton<S, B, C>, d: Driver<S>, r: Decoded<S, B>, count: nat, hasBatch: bool, at: nat)
    requires Lawful(a) && DriverOk(a, d) && d.pending.Some? && d.sinceBoundary < d.maxFrameBytes
    requires var input := d.pending.value;
             r == Decode(a, d.decoder, input[..Min(d.maxFrameBytes - d.sinceBoundary, |input|)]) && !r.fault
    requires Spaced(a, d, count, hasBatch, at)
    ensures var input := d.pending.value; var d' := Consume(a, d, input, r);
            && DriverOk(a, d') && d'.maxFrameBytes == d.maxFrameBytes
            && input[..r.consumed] + PendingBytes(d') == input
            && FeedAll(a, d.decoder, input[..r.consumed]) == Fed(r.state, ToSeq(r.batch))
            && (hasBatch ==> !FindsSchema(a, d, r))
            && (r.batch.None? ==> Spaced(a, d', count + r.consumed, hasBatch, if FindsSchema(a, d, r) then count + r.consumed else at))
            && (r.batch.Some? ==> NextBatchAt(d', count + r.consumed, hasBatch, at) && Spaced(a, d', count + r.consumed, true, count + r.consumed))
  {
    var input := d.pending.value;
    var window := input[..Min(d.maxFrameBytes - d.sinceBoundary, |input|)];
    DecodeFeeds(a, d.decoder, window);
    assert window[..r.consumed] == input[..r.consumed];
    hide Decode;
    FeedSchema(a, d.decoder, input[..r.consumed]);
    hide FeedAll, Lawful;
    assert input[..r.consumed] + input[r.consumed..] == input;
  }

  ghost function BatchOf<S, B, C>(call: Call<S, B, C>): Option<B>
  {
    if call.result.Ok? then call.result.value.batch else None
  }

  ghost predicate BytesOk<S, B, C>(a: Automaton<S, B, C>, d: Driver<S>, call: Call<S, B, C>)
  {
    && DriverOk(a, call.driver) && call.driver.maxFrameBytes == d.maxFrameBytes
    && call.taken + PendingBytes(call.driver) == PendingBytes(d)
    && (call.result.Ok? ==> call.result.value.buffered == call.driver.pending.Some?)
  }

  ghost predicate OutputOk<S, B, C>(a: Automaton<S, B, C>, d: Driver<S>, call: Call<S, B, C>)
  {
    FeedAll(a, d.decoder, call.taken) == Fed(call.driver.decoder, ToSeq(BatchOf(call)))
  }

  ghost predicate SpacingOk<S, B, C>(a: Automaton<S, B, C>, call: Call<S, B, C>, count: nat, hasBatch: bool, at: nat)
  {
    var count' := count + |call.taken|;
    if BatchOf(call).None? then
      Spaced(a, call.driver, count', hasBatch, Boundary(count, at, call.boundary)) && (hasBatch ==> call.boundary.None?)
    else
      && NextBatchAt(call.driver, count', hasBatch, at) && Spaced(a, call.driver, count', true, count')
      && call.boundary == Some(|call.taken|)
  }

  /** What a call that did not hit a malformed stream took, produced and left behind. */
  ghost predicate CallOk<S, B, C>(a: Automaton<S, B, C>, d: Driver<S>, call: Call<S, B, C>, count: nat, hasBatch: bool, at: nat)
  {
    BytesOk(a, d, call) && OutputOk(a, d, call) && SpacingOk(a, call, count, hasBatch, at)
  }

  lemma {:induction false} LoopOk<S(!new), B, C>(a: Automaton<S, B, C>, d: Driver<S>, schema: Option<C>, count: nat, hasBatch: bool, at: nat)
    requires Lawful(a) && DriverOk(a, d) && Spaced(a, d, count, hasBatch, at)
    ensures var call := Loop(a, d, schema);
            call.result != Err(Corrupt) ==> CallOk(a, d, call, count, hasBatch, at)
    decreases if d.pending.Some? then 1 + |d.pending.value| else 0
  {
    hide Lawful, FeedAll, Decode, Consume, DriverOk, Spaced, NextBatchAt, CallOk;
    if d.pending.None? || d.sinceBoundary >= d.maxFrameBytes {
      IdleCall(a, d, schema, count, hasBatch, at);
    } else {
      var input := d.pending.value;
      var r := Decode(a, d.decoder, input[..Min(d.maxFrameBytes - d.sinceBoundary, |input|)]);
      if !r.fault {
        WindowOk(a, d, r, count, hasBatch, at);
        var d' := Consume(a, d, input, r);
        var schema' := SeenSchema(a, d, r, schema);
        if r.batch.Some? || r.consumed == 0 {
          LastWindow(a, d, r, schema, count, hasBatch, at);
        } else {
          ConsumedPending(a, d, r);
          var found := FindsSchema(a, d, r);
          var at' := if found then count + r.consumed else at;
          LoopOk(a, d', schema', count + r.consumed, hasBatch, at');
          var rest := Loop(a, d', schema');
          if rest.result != Err(Corrupt) {
            CallsCompose(a, d, d', rest, input[..r.consumed], found, count, hasBatch, at);
          }
        }
      }
    }
  }

  lemma ConsumedPending<S, B, C>(a: Automaton<S, B, C>, d: Driver<S>, r: Decoded<S, B>)
    requires d.pending.Some? && 0 < r.consumed <= |d.pending.value|
    ensures var d' := Consume(a, d, d.pending.value, r);
            d'.decoder == r.state && |PendingBytes(d')| < |d.pending.value|
            && (d'.pending.Some? ==> |d'.pending.value| < |d.pending.value|)
            && d.pending.value[..r.consumed] + PendingBytes(d') == d.pending.value
  {
    var input := d.pending.value;
    assert input[..r.consumed] + input[r.consumed..] == input;
  }

  lemma IdleCall<S, B, C>(a: Automaton<S, B, C>, d: Driver<S>, schema: Option<C>, count: nat, hasBatch: bool, at: nat)
    requires DriverOk(a, d) && Spaced(a, d, count, hasBatch, at)
    requires d.pending.None? || d.sinceBoundary >= d.maxFrameBytes
    ensures CallOk(a, d, Loop(a, d, schema), count, hasBatch, at)
  {
  }

  lemma LastWindow<S, B, C>(a: Automaton<S, B, C>, d: Driver<S>, r: Decoded<S, B>, schema: Option<C>, count: nat, hasBatch: bool, at: nat)
    requires d.pending.Some? && d.sinceBoundary < d.maxFrameBytes && !r.fault
    requires var input := d.pending.value;
             r == Decode(a, d.decoder, input[..Min(d.maxFrameBytes - d.sinceBoundary, |input|)])
    requires r.batch.Some? || r.consumed == 0
    requires var input := d.pending.value; var d' := Consume(a, d, input, r);
             && DriverOk(a, d') && d'.maxFrameBytes == d.maxFrameBytes
             && input[..r.consumed] + PendingBytes(d') == input
             && FeedAll(a, d.decoder, input[..r.consumed]) == Fed(r.state, ToSeq(r.batch))
             && (hasBatch ==> !FindsSchema(a, d, r))
             && (r.batch.None? ==> Spaced(a, d', count + r.consumed, hasBatch, if FindsSchema(a, d, r) then count + r.consumed else at))
             && (r.batch.Some? ==> NextBatchAt(d', count + r.consumed, hasBatch, at) && Spaced(a, d', count + r.consumed, true, count + r.consumed))
    ensures CallOk(a, d, Loop(a, d, schema), count, hasBatch, at)
  {
    hide Decode, FeedAll, Spaced, NextBatchAt;
    assert r.consumed == 0 ==> d.pending.value[..r.consumed] == [];
  }

  /** What a window took, followed by what the rest of the call did. */
  ghost function Prefixed<S, B, C>(rest: Call<S, B, C>, taken: seq<Byte>, found: bool): Call<S, B, C>
  {
    rest.(taken := taken + rest.taken,
          boundary := if rest.boundary.Some? then Some(|taken| + rest.boundary.value)
                      else if found then Some(|taken|) else None)
  }

  lemma CallsCompose<S, B, C>(a: Automaton<S, B, C>, d: Driver<S>, d': Driver<S>, rest: Call<S, B, C>, taken: seq<Byte>,
                              found: bool, count: nat, hasBatch: bool, at: nat)
    requires d'.maxFrameBytes == d.maxFrameBytes && taken + PendingBytes(d') == PendingBytes(d)
    requires FeedAll(a, d.decoder, taken) == Fed(d'.decoder, [])
    requires hasBatch ==> !found
    requires CallOk(a, d', rest, count + |taken|, hasBatch, if found then count + |taken| else at)
    ensures CallOk(a, d, Prefixed(rest, taken, found), count, hasBatch, at)
  {
    hide FeedAll, BytesOk, OutputOk, SpacingOk, Prefixed, PendingBytes;
    BytesCompose(a, d, d', rest, taken, found);
    OutputComposes(a, d, d', rest, taken, found);
    SpacingComposes(a, rest, taken, found, count, hasBatch, at);
  }

  lemma BytesCompose<S, B, C>(a: Automaton<S, B, C>, d: Driver<S>, d': Driver<S>, rest: Call<S, B, C>, taken: seq<Byte>, found: bool)
    requires d'.maxFrameBytes == d.maxFrameBytes && taken + PendingBytes(d') == PendingBytes(d)
    requires BytesOk(a, d', rest)
    ensures BytesOk(a, d, Prefixed(rest, taken, found))
  {
    hide DriverOk, PendingBytes;
    assert (taken + rest.taken) + PendingBytes(rest.driver) == taken + (rest.taken + PendingBytes(rest.driver));
  }

  lemma OutputComposes<S, B, C>(a: Automaton<S, B, C>, d: Driver<S>, d': Driver<S>, rest: Call<S, B, C>, taken: seq<Byte>, found: bool)
    requires FeedAll(a, d.decoder, taken) == Fed(d'.decoder, [])
    requires OutputOk(a, d', rest)
    ensures OutputOk(a, d, Prefixed(rest, taken, found))
  {
    hide FeedAll;
    FeedAppend(a, d.decoder, taken, rest.taken);
  }

  lemma SpacingComposes<S, B, C>(a: Automaton<S, B, C>, rest: Call<S, B, C>, taken: seq<Byte>,
                                 found: bool, count: nat, hasBatch: bool, at: nat)
    requires hasBatch ==> !found
    requires SpacingOk(a, rest, count + |taken|, hasBatch, if found then count + |taken| else at)
    ensures SpacingOk(a, Prefixed(rest, taken, found), count, hasBatch, at)
  {
    hide Spaced;
  }

  /** The schema a call returns is the one the decoder found during that call, if any. */
  lemma {:induction false} LoopSchema<S(!new), B, C>(a: Automaton<S, B, C>, d: Driver<S>, schema: Option<C>)
    requires Lawful(a) && DriverOk(a, d)
    requires schema.Some? ==> a.schema(d.decoder) == schema
    ensures var call := Loop(a, d, schema);
            call.result.Ok? ==>
              call.result.value.schema == if a.schema(d.decoder).Some? then schema else a.schema(call.driver.decoder)
    decreases if d.pending.Some? then 1 + |d.pending.value| else 0
  {
    hide Decode, Loop, Lawful;
    LoopUnfolds(a, d, schema);
    if d.pending.Some? && d.sinceBoundary < d.maxFrameBytes {
      var input := d.pending.value;
      var window := input[..Min(d.maxFrameBytes - d.sinceBoundary, |input|)];
      var r := Decode(a, d.decoder, window);
      if !r.fault {
        WindowSchema(a, d.decoder, window);
        if r.batch.None? && r.consumed > 0 {
          var d' := Consume(a, d, input, r);
          LoopSchema(a, d', SeenSchema(a, d, r, schema));
          SchemaPersists(a, d', SeenSchema(a, d, r, schema));
        }
      }
    }
  }

  lemma WindowSchema<S(!new), B, C>(a: Automaton<S, B, C>, s: S, window: seq<Byte>)
    requires Lawful(a) && !Decode(a, s, window).fault
    ensures a.schema(s).Some? ==> a.schema(Decode(a, s, window).state) == a.schema(s)
  {
    hide Decode, Lawful;
    DecodeFeeds(a, s, window);
    FeedSchema(a, s, window[..Decode(a, s, window).consumed]);
  }

  lemma SchemaPersists<S(!new), B, C>(a: Automaton<S, B, C>, d: Driver<S>, schema: Option<C>)
    requires Lawful(a) && DriverOk(a, d)
    ensures var call := Loop(a, d, schema);
            call.result != Err(Corrupt) && a.schema(d.decoder).Some? ==> a.schema(call.driver.decoder) == a.schema(d.decoder)
  {
    hide Loop;
    LoopFeeds(a, d, schema);
    var call := Loop(a, d, schema);
    if call.result != Err(Corrupt) { FeedSchema(a, d.decoder, call.taken); }
  }

  lemma LoopFeeds<S(!new), B, C>(a: Automaton<S, B, C>, d: Driver<S>, schema: Option<C>)
    requires Lawful(a) && DriverOk(a, d)
    ensures var call := Loop(a, d, schema);
            call.result != Err(Corrupt) ==>
              FeedAll(a, d.decoder, call.taken).Fed? && FeedAll(a, d.decoder, call.taken).state == call.driver.decoder
  {
    hide Loop, FeedAll, Lawful;
    LoopOk(a, d, schema, d.sinceBoundary, a.schema(d.decoder).Some?, 0);
  }

  // ---------- calls that fail ----------

  /** The stream breaks off after `fed`: the automaton takes these bytes, then finds the next one malformed. */
  ghost predicate BreaksAfter<S, B, C>(a: Automaton<S, B, C>, s: S, fed: seq<Byte>, next: Byte)
  {
    FeedAll(a, s, fed).Fed? && a.feed(FeedAll(a, s, fed).state, next).Fault?
  }

  lemma {:induction false} DecodeFaults<S, B, C>(a: Automaton<S, B, C>, s: S, window: seq<Byte>)
    requires Decode(a, s, window).fault
    ensures var n := Decode(a, s, window).consumed;
            && n < |window| && BreaksAfter(a, s, window[..n], window[n])
            && FeedAll(a, s, window[..n]).batches == []
  {
    var f := a.feed(s, window[0]);
    if f.Advance? {
      DecodeFaults(a, f.state, window[1..]);
      var n := Decode(a, s, window).consumed;
      assert window[..n][1..] == window[1..][..n - 1];
    }
  }

  /** A call that found the stream malformed: what it took, and what the decoder had taken of the rest. */
  ghost predicate FaultOk<S, B, C>(a: Automaton<S, B, C>, d: Driver<S>, call: Call<S, B, C>)
  {
    var rest := PendingBytes(call.driver);
    && call.taken + rest == PendingBytes(d) && call.unadvanced < |rest|
    && BreaksAfter(a, d.decoder, call.taken + rest[..call.unadvanced], rest[call.unadvanced])
    && FeedAll(a, d.decoder, call.taken + rest[..call.unadvanced]).batches == []
  }

  lemma {:induction false} LoopFaults<S, B, C>(a: Automaton<S, B, C>, d: Driver<S>, schema: Option<C>)
    ensures Loop(a, d, schema).result == Err(Corrupt) ==> FaultOk(a, d, Loop(a, d, schema))
    decreases if d.pending.Some? then 1 + |d.pending.value| else 0
  {
    hide Decode, Consume, FaultOk, Loop, FindsSchema, SeenSchema, Prefixed, FeedAll;
    LoopUnfolds(a, d, schema);
    if d.pending.Some? && d.sinceBoundary < d.maxFrameBytes {
      var input := d.pending.value;
      var window := input[..Min(d.maxFrameBytes - d.sinceBoundary, |input|)];
      var r := Decode(a, d.decoder, window);
      if r.fault {
        FirstWindowFaults(a, d, window, schema);
      } else if r.batch.None? && r.consumed > 0 {
        var d' := Consume(a, d, input, r);
        ConsumedPending(a, d, r);
        LoopFaults(a, d', SeenSchema(a, d, r, schema));
        LoopContinues(a, d, r, schema);
        var rest := Loop(a, d', SeenSchema(a, d, r, schema));
        if rest.result == Err(Corrupt) {
          DecodeFeeds(a, d.decoder, window);
          assert window[..r.consumed] == input[..r.consumed];
          FaultsCompose(a, d, d', rest, input[..r.consumed], FindsSchema(a, d, r));
        }
      }
    }
  }

  /** A turn of the loop that goes on. */
  lemma LoopContinues<S, B, C>(a: Automaton<S, B, C>, d: Driver<S>, r: Decoded<S, B>, schema: Option<C>)
    requires d.pending.Some? && d.sinceBoundary < d.maxFrameBytes
    requires var input := d.pending.value;
             r == Decode(a, d.decoder, input[..Min(d.maxFrameBytes - d.sinceBoundary, |input|)])
    requires !r.fault && r.batch.None? && r.consumed > 0
    ensures var input := d.pending.value;
            var rest := Loop(a, Consume(a, d, input, r), SeenSchema(a, d, r, schema));
            Loop(a, d, schema) == Prefixed(rest, input[..r.consumed], FindsSchema(a, d, r))
  {
    hide Decode, Consume, SeenSchema, FindsSchema;
  }

  lemma FirstWindowFaults<S, B, C>(a: Automaton<S, B, C>, d: Driver<S>, window: seq<Byte>, schema: Option<C>)
    requires d.pending.Some? && d.sinceBoundary < d.maxFrameBytes
    requires window == d.pending.value[..Min(d.maxFrameBytes - d.sinceBoundary, |d.pending.value|)]
    requires Decode(a, d.decoder, window).fault
    ensures FaultOk(a, d, Loop(a, d, schema))
  {
    hide Decode, FeedAll, BreaksAfter;
    DecodeFaults(a, d.decoder, window);
    var n := Decode(a, d.decoder, window).consumed;
    assert [] + d.pending.value[..n] == window[..n];
  }

  lemma FaultsCompose<S, B, C>(a: Automaton<S, B, C>, d: Driver<S>, d': Driver<S>, rest: Call<S, B, C>, taken: seq<Byte>, found: bool)
    requires taken + PendingBytes(d') == PendingBytes(d)
    requires FeedAll(a, d.decoder, taken) == Fed(d'.decoder, [])
    requires FaultOk(a, d', rest)
    ensures FaultOk(a, d, Prefixed(rest, taken, found))
  {
    hide FeedAll, PendingBytes;
    var pending := PendingBytes(rest.driver);
    var fed := rest.taken + pending[..rest.unadvanced];
    FeedAppend(a, d.decoder, taken, fed);
    assert (taken + rest.taken) + pending[..rest.unadvanced] == taken + fed;
    assert (taken + rest.taken) + pending == taken + (rest.taken + pending);
  }

  /** A driver that can only fail: its input stays pending, at the frame limit or before a byte never taken. */
  ghost predicate Stuck<S, B, C>(a: Automaton<S, B, C>, d: Driver<S>)
  {
    && !d.finished && d.pending.Some? && d.pending.value != []
    && (d.sinceBoundary >= d.maxFrameBytes || a.feed(d.decoder, d.pending.value[0]).Stall?)
  }

  lemma DecodeStalls<S, B, C>(a: Automaton<S, B, C>, s: S, window: seq<Byte>)
    ensures var r := Decode(a, s, window);
            window != [] && !r.fault && r.batch.None? && r.consumed == 0 ==> a.feed(s, window[0]).Stall?
    ensures window != [] && a.feed(s, window[0]).Stall? ==> Decode(a, s, window) == Decoded(s, 0, None, false)
  {
  }

  /** A push that raised without finding the stream malformed leaves the driver stuck. */
  lemma {:induction false} LoopSticks<S, B, C>(a: Automaton<S, B, C>, d: Driver<S>, schema: Option<C>)
    requires !d.finished && (d.pending.Some? ==> d.pending.value != [])
    ensures var call := Loop(a, d, schema);
            call.result.Err? && call.result != Err(Corrupt) ==> Stuck(a, call.driver)
    decreases if d.pending.Some? then 1 + |d.pending.value| else 0
  {
    hide Decode, Loop;
    LoopUnfolds(a, d, schema);
    if d.pending.Some? && d.sinceBoundary < d.maxFrameBytes {
      var input := d.pending.value;
      var window := input[..Min(d.maxFrameBytes - d.sinceBoundary, |input|)];
      var r := Decode(a, d.decoder, window);
      if !r.fault && r.batch.None? {
        if r.consumed == 0 {
          DecodeStalls(a, d.decoder, window);
        } else {
          LoopSticks(a, Consume(a, d, input, r), SeenSchema(a, d, r, schema));
        }
      }
    }
  }

  /** A stuck driver rejects every push and `finish`, and stays as it is. */
  lemma StuckStays<S, B, C>(a: Automaton<S, B, C>, d: Driver<S>, chunk: seq<Byte>)
    requires Stuck(a, d)
    ensures var call := Push(a, d, chunk);
            && call.driver == d && call.taken == [] && call.boundary == None
            && call.result == Err(if chunk != [] then MustDrain else if d.sinceBoundary >= d.maxFrameBytes then FrameTooLarge else NoProgress)
    ensures FinishStep(a, d) == Finish(d, Err(Unconsumed))
  {
    hide Decode, Loop;
    LoopTakesNothing(a, d, None);
  }

  lemma LoopTakesNothing<S, B, C>(a: Automaton<S, B, C>, d: Driver<S>, schema: Option<C>)
    requires Stuck(a, d)
    ensures var call := Loop(a, d, schema);
            call.driver == d && call.taken == [] && call.boundary == None
            && call.result == Err(if d.sinceBoundary >= d.maxFrameBytes then FrameTooLarge else NoProgress)
  {
    if d.sinceBoundary < d.maxFrameBytes {
      var input := d.pending.value;
      DecodeStalls(a, d.decoder, input[..Min(d.maxFrameBytes - d.sinceBoundary, |input|)]);
      hide Decode;
      assert input[0..] == input;
    }
  }

  /** A call that finds the schema and fails has a boundary behind the first byte it took. */
  lemma {:induction false} FoundBoundary<S, B, C>(a: Automaton<S, B, C>, d: Driver<S>, schema: Option<C>)
    ensures var call := Loop(a, d, schema);
            a.schema(d.decoder).None? && a.schema(call.driver.decoder).Some? && call.result.Err? && call.result != Err(Corrupt) ==>
              call.boundary.Some? && call.boundary.value > 0
    decreases if d.pending.Some? then 1 + |d.pending.value| else 0
  {
    hide Decode, Consume;
    if d.pending.Some? && d.sinceBoundary < d.maxFrameBytes {
      var input := d.pending.value;
      var window := input[..Min(d.maxFrameBytes - d.sinceBoundary, |input|)];
      var r := Decode(a, d.decoder, window);
      if !r.fault && r.batch.None? {
        ConsumedDecoder(a, d, r);
        if r.consumed == 0 {
          NothingConsumed(a, d.decoder, window);
        } else {
          ConsumedPending(a, d, r);
          FoundBoundary(a, Consume(a, d, input, r), SeenSchema(a, d, r, schema));
        }
      }
    }
  }

  lemma ConsumedDecoder<S, B, C>(a: Automaton<S, B, C>, d: Driver<S>, r: Decoded<S, B>)
    requires d.pending.Some? && r.consumed <= |d.pending.value|
    ensures Consume(a, d, d.pending.value, r).decoder == r.state
  {
  }

  lemma NothingConsumed<S, B, C>(a: Automaton<S, B, C>, s: S, window: seq<Byte>)
    ensures var r := Decode(a, s, window); !r.fault && r.consumed == 0 ==> r.state == s
  {
  }

  // ---------- runs ----------

  datatype Op = PushOp(chunk: seq<Byte>) | FinishOp

  /**
   A driver with a record of the run: accepted and consumed bytes, what was returned, after how many
   bytes each batch and the last boundary came, whether the decoder reported a malformed stream,
   whether a push raised for the frame limit or for lack of progress, whether a push that raised is the
   one that found the schema, and what each `finish` returned.
   */
  datatype Session<S, B, C> = Session(
    driver: Driver<S>, accepted: seq<Byte>, taken: seq<Byte>, schemas: seq<C>, batches: seq<B>, batchAt: seq<nat>,
    boundary: nat, corrupt: bool, failed: bool, schemaLost: bool, finishes: seq<Result<(), Error>>)

  function Accepts<S>(d: Driver<S>, chunk: seq<Byte>): seq<Byte>
  {
    if !d.finished && d.pending.None? then chunk else []
  }

  function Recorded<S, B, C>(a: Automaton<S, B, C>, h: Session<S, B, C>, call: Call<S, B, C>, accepted: seq<Byte>): Session<S, B, C>
  {
    var taken := h.taken + call.taken;
    var h' := h.(driver := call.driver, accepted := h.accepted + accepted, taken := taken,
                 boundary := if call.boundary.Some? then |h.taken| + call.boundary.value else h.boundary);
    match call.result
    case Ok(pushed) =>
      h'.(schemas := h.schemas + ToSeq(pushed.schema),
          batches := h.batches + ToSeq(pushed.batch),
          batchAt := if pushed.batch.Some? then h.batchAt + [|taken|] else h.batchAt)
    case Err(e) =>
      h'.(corrupt := h.corrupt || e.Corrupt?,
          failed := h.failed || e.FrameTooLarge? || e.NoProgress?,
          schemaLost := h.schemaLost || FoundSchema(a, h.driver, call.driver))
  }

  predicate FoundSchema<S, B, C>(a: Automaton<S, B, C>, before: Driver<S>, after: Driver<S>)
  {
    a.schema(before.decoder).None? && a.schema(after.decoder).Some?
  }

  function Record<S, B, C>(a: Automaton<S, B, C>, h: Session<S, B, C>, op: Op): Session<S, B, C>
  {
    match op
    case FinishOp =>
      var f := FinishStep(a, h.driver);
      h.(driver := f.driver, finishes := h.finishes + [f.result])
    case PushOp(chunk) => Recorded(a, h, Push(a, h.driver, chunk), Accepts(h.driver, chunk))
  }

  function After<S, B, C>(a: Automaton<S, B, C>, maxFrameBytes: nat, ops: seq<Op>): Session<S, B, C>
  {
    if ops == [] then Session(NewDriver(a, maxFrameBytes), [], [], [], [], [], 0, false, false, false, [])
    else
      var n := |ops| - 1;
      Record(a, After(a, maxFrameBytes, ops[..n]), ops[n])
  }

  ghost predicate BatchesSpaced(batchAt: seq<nat>, maxFrameBytes: nat)
  {
    && (batchAt != [] ==> batchAt[0] <= 2 * maxFrameBytes)
    && (forall i :: 0 < i < |batchAt| ==> batchAt[i - 1] <= batchAt[i] <= batchAt[i - 1] + maxFrameBytes)
  }

  ghost function LastAt(batchAt: seq<nat>): nat { if batchAt == [] then 0 else batchAt[|batchAt| - 1] }

  ghost predicate Inv<S, B, C>(a: Automaton<S, B, C>, h: Session<S, B, C>)
  {
    && DriverOk(a, h.driver)
    && h.taken + PendingBytes(h.driver) == h.accepted
    && FeedAll(a, a.init, h.taken) == Fed(h.driver.decoder, h.batches)
    && |h.batchAt| == |h.batches|
    && Spaced(a, h.driver, |h.taken|, h.batchAt != [], h.boundary)
    && (h.batchAt != [] ==> h.boundary == LastAt(h.batchAt))
    && BatchesSpaced(h.batchAt, h.driver.maxFrameBytes)
    && SchemasOk(a, h)
    && (h.failed ==> Stuck(a, h.driver))
    && (h.driver.finished ==> h.driver.pending.None? && a.mayFinish(h.driver.decoder))
    && (h.driver.finished <==> Ok(()) in h.finishes)
  }

  /** The schema was returned once it was found, unless the push that found it raised. */
  ghost predicate SchemasOk<S, B, C>(a: Automaton<S, B, C>, h: Session<S, B, C>)
  {
    && h.schemas == (if h.schemaLost then [] else ToSeq(a.schema(h.driver.decoder)))
    && (h.schemaLost ==> h.failed && a.schema(h.driver.decoder).Some?)
  }

  lemma PushInv<S(!new), B, C>(a: Automaton<S, B, C>, h: Session<S, B, C>, chunk: seq<Byte>)
    requires Lawful(a) && Inv(a, h) && !Record(a, h, PushOp(chunk)).corrupt
    ensures Inv(a, Record(a, h, PushOp(chunk)))
    ensures Record(a, h, PushOp(chunk)).driver.maxFrameBytes == h.driver.maxFrameBytes
  {
    hide FeedAll, Lawful, Loop, Spaced, DriverOk, CallOk, BatchesSpaced, Recorded, Stuck, SchemasOk;
    var d := h.driver;
    NotCorrupt(a, h, Push(a, d, chunk), Accepts(d, chunk));
    if d.finished || (chunk != [] && d.pending.Some?) {
      RejectedPush(a, h, chunk);
    } else {
      var d0 := if chunk != [] then d.(pending := Some(chunk)) else d;
      var count, hasBatch, at := |h.taken|, h.batchAt != [], h.boundary;
      Loaded(a, d, chunk, count, hasBatch, at);
      LoopOk(a, d0, None, count, hasBatch, at);
      LoopSchema(a, d0, None);
      SchemaPersists(a, d0, None);
      LoopErrors(a, d0, None);
      var call := Loop(a, d0, None);
      var accepted := Accepts(d, chunk);
      assert h.taken + PendingBytes(d0) == h.accepted + accepted;
      PushBytes(a, h, d0, call, accepted);
      PushReference(a, h, d0, call, accepted);
      PushSpacing(a, h, d0, call, accepted);
      SchemasOnce(a, h, d0, call, accepted);
      if h.failed { StuckHasInput(a, d); }
      PushSticks(a, h, d0, call, accepted);
    }
  }

  lemma NotCorrupt<S, B, C>(a: Automaton<S, B, C>, h: Session<S, B, C>, call: Call<S, B, C>, accepted: seq<Byte>)
    ensures !Recorded(a, h, call, accepted).corrupt ==> call.result != Err(Corrupt)
  {
  }

  lemma RejectedPush<S, B, C>(a: Automaton<S, B, C>, h: Session<S, B, C>, chunk: seq<Byte>)
    requires h.driver.finished || (chunk != [] && h.driver.pending.Some?)
    ensures Record(a, h, PushOp(chunk)) == h
  {
    assert h.taken + [] == h.taken && h.accepted + [] == h.accepted;
  }

  lemma PushBytes<S, B, C>(a: Automaton<S, B, C>, h: Session<S, B, C>, d0: Driver<S>, call: Call<S, B, C>, accepted: seq<Byte>)
    requires CallOk(a, d0, call, |h.taken|, h.batchAt != [], h.boundary)
    requires h.taken + PendingBytes(d0) == h.accepted + accepted
    ensures var h' := Recorded(a, h, call, accepted);
            DriverOk(a, h'.driver) && h'.taken + PendingBytes(h'.driver) == h'.accepted && h'.driver.maxFrameBytes == d0.maxFrameBytes
  {
    hide FeedAll, Spaced, DriverOk;
    assert (h.taken + call.taken) + PendingBytes(call.driver) == h.taken + (call.taken + PendingBytes(call.driver));
  }

  lemma PushReference<S, B, C>(a: Automaton<S, B, C>, h: Session<S, B, C>, d0: Driver<S>, call: Call<S, B, C>, accepted: seq<Byte>)
    requires CallOk(a, d0, call, |h.taken|, h.batchAt != [], h.boundary)
    requires FeedAll(a, a.init, h.taken) == Fed(d0.decoder, h.batches)
    requires |h.batchAt| == |h.batches|
    ensures var h' := Recorded(a, h, call, accepted);
            FeedAll(a, a.init, h'.taken) == Fed(h'.driver.decoder, h'.batches) && |h'.batchAt| == |h'.batches|
  {
    hide FeedAll, Spaced, DriverOk, NextBatchAt;
    FeedAppend(a, a.init, h.taken, call.taken);
    assert h.batches + [] == h.batches;
  }

  lemma PushSpacing<S, B, C>(a: Automaton<S, B, C>, h: Session<S, B, C>, d0: Driver<S>, call: Call<S, B, C>, accepted: seq<Byte>)
    requires CallOk(a, d0, call, |h.taken|, h.batchAt != [], h.boundary)
    requires BatchesSpaced(h.batchAt, d0.maxFrameBytes) && (h.batchAt != [] ==> h.boundary == LastAt(h.batchAt))
    ensures var h' := Recorded(a, h, call, accepted);
            && Spaced(a, h'.driver, |h'.taken|, h'.batchAt != [], h'.boundary)
            && (h'.batchAt != [] ==> h'.boundary == LastAt(h'.batchAt))
            && BatchesSpaced(h'.batchAt, d0.maxFrameBytes)
  {
    hide FeedAll, Spaced, DriverOk, BatchesSpaced, PendingBytes;
    var count := |h.taken| + |call.taken|;
    if call.result.Ok? && call.result.value.batch.Some? {
      OneMoreBatch(h.batchAt, count, d0.maxFrameBytes);
    }
  }

  lemma OneMoreBatch(batchAt: seq<nat>, count: nat, maxFrameBytes: nat)
    requires BatchesSpaced(batchAt, maxFrameBytes)
    requires if batchAt != [] then LastAt(batchAt) <= count <= LastAt(batchAt) + maxFrameBytes else count <= 2 * maxFrameBytes
    ensures BatchesSpaced(batchAt + [count], maxFrameBytes) && LastAt(batchAt + [count]) == count
  {
  }

  lemma {:induction false} LoopErrors<S, B, C>(a: Automaton<S, B, C>, d: Driver<S>, schema: Option<C>)
    ensures var call := Loop(a, d, schema);
            call.result.Err? ==> call.result.error in {Corrupt, FrameTooLarge, NoProgress}
    decreases if d.pending.Some? then 1 + |d.pending.value| else 0
  {
    hide Decode, Loop, Consume, SeenSchema;
    LoopUnfolds(a, d, schema);
    if d.pending.Some? && d.sinceBoundary < d.maxFrameBytes {
      var input := d.pending.value;
      var r := Decode(a, d.decoder, input[..Min(d.maxFrameBytes - d.sinceBoundary, |input|)]);
      if !r.fault && r.batch.None? && r.consumed > 0 {
        ConsumedPending(a, d, r);
        LoopErrors(a, Consume(a, d, input, r), SeenSchema(a, d, r, schema));
      }
    }
  }

  lemma Loaded<S, B, C>(a: Automaton<S, B, C>, d: Driver<S>, chunk: seq<Byte>, count: nat, hasBatch: bool, at: nat)
    requires DriverOk(a, d) && Spaced(a, d, count, hasBatch, at)
    ensures var d0 := if chunk != [] then d.(pending := Some(chunk)) else d;
            DriverOk(a, d0) && Spaced(a, d0, count, hasBatch, at)
  {
  }

  lemma SchemasOnce<S, B, C>(a: Automaton<S, B, C>, h: Session<S, B, C>, d0: Driver<S>, call: Call<S, B, C>, accepted: seq<Byte>)
    requires d0.decoder == h.driver.decoder
    requires SchemasOk(a, h)
    requires call.result.Err? ==> call.result.error in {Corrupt, FrameTooLarge, NoProgress}
    requires call.result.Ok? ==> call.result.value.schema == if a.schema(d0.decoder).Some? then None else a.schema(call.driver.decoder)
    requires a.schema(d0.decoder).Some? ==> a.schema(call.driver.decoder) == a.schema(d0.decoder)
    requires call.result != Err(Corrupt)
    ensures SchemasOk(a, Recorded(a, h, call, accepted))
  {
  }

  lemma {:induction false} PushSticks<S, B, C>(a: Automaton<S, B, C>, h: Session<S, B, C>, d0: Driver<S>, call: Call<S, B, C>, accepted: seq<Byte>)
    requires call == Loop(a, d0, None) && !d0.finished && (d0.pending.Some? ==> d0.pending.value != [])
    requires call.result != Err(Corrupt)
    requires h.failed ==> Stuck(a, d0)
    ensures var h' := Recorded(a, h, call, accepted);
            (h'.failed ==> Stuck(a, h'.driver)) && !h'.driver.finished && h'.finishes == h.finishes
  {
    hide Loop, Stuck, Decode;
    LoopSticks(a, d0, None);
    KeepsFinished(a, d0, None);
    if h.failed { LoopTakesNothing(a, d0, None); }
  }

  lemma {:induction false} KeepsFinished<S, B, C>(a: Automaton<S, B, C>, d: Driver<S>, schema: Option<C>)
    ensures Loop(a, d, schema).driver.finished == d.finished
    decreases if d.pending.Some? then 1 + |d.pending.value| else 0
  {
    hide Decode, Loop;
    LoopUnfolds(a, d, schema);
    if d.pending.Some? && d.sinceBoundary < d.maxFrameBytes {
      var input := d.pending.value;
      var r := Decode(a, d.decoder, input[..Min(d.maxFrameBytes - d.sinceBoundary, |input|)]);
      if !r.fault && r.batch.None? && r.consumed > 0 {
        KeepsFinished(a, Consume(a, d, input, r), SeenSchema(a, d, r, schema));
      }
    }
  }

  lemma {:induction false} RunInv<S(!new), B, C>(a: Automaton<S, B, C>, maxFrameBytes: nat, ops: seq<Op>)
    requires Lawful(a) && maxFrameBytes > 0
    ensures var h := After(a, maxFrameBytes, ops);
            !h.corrupt ==> Inv(a, h) && h.driver.maxFrameBytes == maxFrameBytes
  {
    hide Inv, Lawful, Record;
    if ops == [] {
      StartInv(a, maxFrameBytes);
    } else {
      var n := |ops| - 1;
      RunInv(a, maxFrameBytes, ops[..n]);
      var h := After(a, maxFrameBytes, ops[..n]);
      CorruptStays(a, h, ops[n]);
      if !Record(a, h, ops[n]).corrupt {
        if ops[n].PushOp? {
          PushInv(a, h, ops[n].chunk);
        } else {
          FinishInv(a, h);
        }
      }
    }
  }

  lemma CorruptStays<S, B, C>(a: Automaton<S, B, C>, h: Session<S, B, C>, op: Op)
    ensures h.corrupt ==> Record(a, h, op).corrupt
  {
  }

  lemma StartInv<S(!new), B, C>(a: Automaton<S, B, C>, maxFrameBytes: nat)
    requires Lawful(a)
    ensures Inv(a, After(a, maxFrameBytes, []))
  {
  }

  lemma FinishInv<S, B, C>(a: Automaton<S, B, C>, h: Session<S, B, C>)
    requires Inv(a, h)
    ensures Inv(a, Record(a, h, FinishOp)) && Record(a, h, FinishOp).driver.maxFrameBytes == h.driver.maxFrameBytes
  {
    hide FeedAll;
  }

  /**
   In every run, whatever raised, the bytes advanced over followed by the buffer are the accepted
   chunks, and a frame never exceeds its limit.
   */
  lemma {:induction false} BytesConserved<S, B, C>(a: Automaton<S, B, C>, maxFrameBytes: nat, ops: seq<Op>)
    ensures var h := After(a, maxFrameBytes, ops);
            && h.taken + PendingBytes(h.driver) == h.accepted
            && h.driver.sinceBoundary <= h.driver.maxFrameBytes == maxFrameBytes
  {
    hide Record;
    if ops != [] {
      var n := |ops| - 1;
      BytesConserved(a, maxFrameBytes, ops[..n]);
      RecordKeepsBytes(a, After(a, maxFrameBytes, ops[..n]), ops[n]);
    }
  }

  lemma RecordKeepsBytes<S, B, C>(a: Automaton<S, B, C>, h: Session<S, B, C>, op: Op)
    requires h.taken + PendingBytes(h.driver) == h.accepted && h.driver.sinceBoundary <= h.driver.maxFrameBytes
    ensures var h' := Record(a, h, op);
            && h'.taken + PendingBytes(h'.driver) == h'.accepted
            && h'.driver.sinceBoundary <= h'.driver.maxFrameBytes == h.driver.maxFrameBytes
  {
    hide Push, PendingBytes, Accepts;
    if op.PushOp? {
      var call, added := Push(a, h.driver, op.chunk), Accepts(h.driver, op.chunk);
      PushKeepsBytes(a, h.driver, op.chunk);
      BytesJoin(h.taken, call.taken, PendingBytes(call.driver));
      BytesJoin(h.taken, PendingBytes(h.driver), added);
    } else {
      FinishKeepsBytes(a, h.driver);
    }
  }

  lemma BytesJoin(x: seq<Byte>, y: seq<Byte>, z: seq<Byte>)
    ensures (x + y) + z == x + (y + z)
  {
  }

  lemma FinishKeepsBytes<S, B, C>(a: Automaton<S, B, C>, d: Driver<S>)
    ensures FinishStep(a, d).driver == d.(finished := FinishStep(a, d).driver.finished)
    ensures PendingBytes(FinishStep(a, d).driver) == PendingBytes(d)
  {
  }

  lemma PushKeepsBytes<S, B, C>(a: Automaton<S, B, C>, d: Driver<S>, chunk: seq<Byte>)
    requires d.sinceBoundary <= d.maxFrameBytes
    ensures var call := Push(a, d, chunk);
            && call.taken + PendingBytes(call.driver) == PendingBytes(d) + Accepts(d, chunk)
            && call.driver.sinceBoundary <= call.driver.maxFrameBytes == d.maxFrameBytes
  {
    hide Loop;
    if !d.finished && (chunk == [] || d.pending.None?) {
      LoopKeepsBytes(a, if chunk != [] then d.(pending := Some(chunk)) else d, None);
    }
  }

  lemma {:induction false} LoopKeepsBytes<S, B, C>(a: Automaton<S, B, C>, d: Driver<S>, schema: Option<C>)
    requires d.sinceBoundary <= d.maxFrameBytes
    ensures var call := Loop(a, d, schema);
            && call.taken + PendingBytes(call.driver) == PendingBytes(d)
            && call.driver.sinceBoundary <= call.driver.maxFrameBytes == d.maxFrameBytes
    decreases if d.pending.Some? then 1 + |d.pending.value| else 0
  {
    hide Decode, Consume, SeenSchema, FindsSchema;
    if d.pending.Some? && d.sinceBoundary < d.maxFrameBytes {
      var input := d.pending.value;
      var r := Decode(a, d.decoder, input[..Min(d.maxFrameBytes - d.sinceBoundary, |input|)]);
      if !r.fault {
        ConsumedBytes(a, d, r);
        if r.batch.None? && r.consumed > 0 {
          var d' := Consume(a, d, input, r);
          ConsumedPending(a, d, r);
          LoopKeepsBytes(a, d', SeenSchema(a, d, r, schema));
          var rest := Loop(a, d', SeenSchema(a, d, r, schema));
          assert (input[..r.consumed] + rest.taken) + PendingBytes(rest.driver) == input[..r.consumed] + (rest.taken + PendingBytes(rest.driver));
        }
      }
    }
  }

  lemma ConsumedBytes<S, B, C>(a: Automaton<S, B, C>, d: Driver<S>, r: Decoded<S, B>)
    requires d.pending.Some? && r.consumed <= |d.pending.value| && d.sinceBoundary + r.consumed <= d.maxFrameBytes
    ensures var d' := Consume(a, d, d.pending.value, r);
            && d.pending.value[..r.consumed] + PendingBytes(d') == d.pending.value
            && d'.sinceBoundary <= d'.maxFrameBytes == d.maxFrameBytes
            && (r.consumed == 0 ==> PendingBytes(d') == d.pending.value)
  {
    var input := d.pending.value;
    assert input[..r.consumed] + input[r.consumed..] == input;
  }

  /** Batches are at most `maxFrameBytes` consumed bytes apart, the first at most twice that from the start. */
  lemma {:induction false} BatchSpacing<S(!new), B, C>(a: Automaton<S, B, C>, maxFrameBytes: nat, ops: seq<Op>)
    requires Lawful(a) && maxFrameBytes > 0 && !After(a, maxFrameBytes, ops).corrupt
    ensures var h := After(a, maxFrameBytes, ops);
            |h.batchAt| == |h.batches| && BatchesSpaced(h.batchAt, maxFrameBytes)
  {
    hide FeedAll;
    RunInv(a, maxFrameBytes, ops);
  }

  lemma {:induction false} LimitReached<S, B, C>(a: Automaton<S, B, C>, d: Driver<S>, schema: Option<C>)
    ensures var call := Loop(a, d, schema);
            call.result == Err(FrameTooLarge) ==> call.driver.sinceBoundary >= call.driver.maxFrameBytes
    decreases if d.pending.Some? then 1 + |d.pending.value| else 0
  {
    hide Decode, Loop, Consume, SeenSchema;
    LoopUnfolds(a, d, schema);
    if d.pending.Some? && d.sinceBoundary < d.maxFrameBytes {
      var input := d.pending.value;
      var r := Decode(a, d.decoder, input[..Min(d.maxFrameBytes - d.sinceBoundary, |input|)]);
      if !r.fault && r.batch.None? && r.consumed > 0 {
        ConsumedPending(a, d, r);
        LimitReached(a, Consume(a, d, input, r), SeenSchema(a, d, r, schema));
      }
    }
  }

  /** A frame is refused only when exactly `maxFrameBytes` bytes were taken since the last boundary. */
  lemma {:induction false} FrameLimitExact<S(!new), B, C>(a: Automaton<S, B, C>, maxFrameBytes: nat, ops: seq<Op>, chunk: seq<Byte>)
    requires Lawful(a) && maxFrameBytes > 0 && !After(a, maxFrameBytes, ops).corrupt
    requires Push(a, After(a, maxFrameBytes, ops).driver, chunk).result == Err(FrameTooLarge)
    ensures var h := Record(a, After(a, maxFrameBytes, ops), PushOp(chunk));
            h.boundary <= |h.taken| && |h.taken| - h.boundary == maxFrameBytes
  {
    hide FeedAll, Loop, After, Lawful;
    RunInv(a, maxFrameBytes, ops);
    var h := After(a, maxFrameBytes, ops);
    PushInv(a, h, chunk);
    LimitReached(a, if chunk != [] then h.driver.(pending := Some(chunk)) else h.driver, None);
  }

  /** The batches returned are those the automaton emits on the consumed bytes, whichever pushes raised. */
  lemma {:induction false} OutputIsReference<S(!new), B, C>(a: Automaton<S, B, C>, maxFrameBytes: nat, ops: seq<Op>)
    requires Lawful(a) && maxFrameBytes > 0 && !After(a, maxFrameBytes, ops).corrupt
    ensures var h := After(a, maxFrameBytes, ops);
            FeedAll(a, a.init, h.taken) == Fed(h.driver.decoder, h.batches)
  {
    hide FeedAll;
    RunInv(a, maxFrameBytes, ops);
  }

  /**
   The schema is returned exactly once after it was found, if and only if the push that found it did
   not raise.
   */
  lemma SchemaReturnedOnce<S(!new), B, C>(a: Automaton<S, B, C>, maxFrameBytes: nat, ops: seq<Op>)
    requires Lawful(a) && maxFrameBytes > 0 && !After(a, maxFrameBytes, ops).corrupt
    ensures var h := After(a, maxFrameBytes, ops);
            && h.schemas == (if h.schemaLost then [] else ToSeq(a.schema(h.driver.decoder)))
            && (a.schema(h.driver.decoder).Some? ==> (|h.schemas| == 1 <==> !h.schemaLost))
  {
    hide FeedAll;
    RunInv(a, maxFrameBytes, ops);
  }

  /** An automaton that knows its schema after one byte and never emits a batch. */
  function Headers(): Automaton<int, (), int>
  {
    Automaton(0, (s: int, _: Byte) => Advance(s + 1, None), (s: int) => if s >= 1 then Some(7) else None, (_: int) => true)
  }

  /** The schema can be lost: found within the first byte, and two bytes later the push raises. */
  lemma SchemaLostExample()
    ensures Lawful(Headers())
    ensures var h := After(Headers(), 1, [PushOp([0, 0, 0])]);
            && h.schemaLost && h.schemas == [] && h.driver.schemaEmitted && !h.corrupt
            && Headers().schema(h.driver.decoder) == Some(7)
            && Push(Headers(), NewDriver(Headers(), 1), [0, 0, 0]).result == Err(FrameTooLarge)
  {
    LostCall();
    hide Push, Headers;
    var ops: seq<Op> := [PushOp([0, 0, 0])];
    assert ops[..0] == [];
    assert After(Headers(), 1, ops) == Record(Headers(), After(Headers(), 1, []), ops[0]);
  }

  lemma LostCall()
    ensures Lawful(Headers()) && Headers().schema(0) == None && Headers().schema(2) == Some(7) && Headers().init == 0
    ensures var call := Push(Headers(), NewDriver(Headers(), 1), [0, 0, 0]);
            call.driver == Driver(2, 1, 1, Some([0]), true, false) && call.result == Err(FrameTooLarge)
  {
    hide Loop;
    HeaderByte(NewDriver(Headers(), 1).(pending := Some([0, 0, 0])), [0, 0, 0], None);
    HeaderByte(Driver(1, 1, 0, Some([0, 0]), true, false), [0, 0], Some(7));
    assert [0, 0, 0][1..] == [0, 0] && [0, 0][1..] == [0];
  }

  /** One turn of the loop for `Headers` under a limit of one byte, at a boundary. */
  lemma HeaderByte(d: Driver<int>, input: seq<Byte>, schema: Option<int>)
    requires d.pending == Some(input) && d.maxFrameBytes == 1 && d.sinceBoundary == 0 && |input| > 1 && d.decoder >= 0
    ensures var found := d.decoder == 0;
            var d' := Driver(d.decoder + 1, 1, if found then 0 else 1, Some(input[1..]), d.schemaEmitted || found, d.finished);
            var rest := Loop(Headers(), d', if found && !d.schemaEmitted then Some(7) else schema);
            Loop(Headers(), d, schema).driver == rest.driver && Loop(Headers(), d, schema).result == rest.result
            && (!found ==> rest.driver == d' && rest.result == Err(FrameTooLarge))
  {
    assert input[..1][1..] == [];
    assert Decode(Headers(), d.decoder, input[..1]) == Decoded(d.decoder + 1, 1, None, false);
    hide Decode;
    LoopUnfolds(Headers(), d, schema);
  }

  predicate ShortChunks(ops: seq<Op>, limit: nat)
  {
    forall i :: 0 <= i < |ops| && ops[i].PushOp? ==> |ops[i].chunk| <= limit
  }

  /**
   A caller keeps the schema by pushing at most one byte more than a frame may hold, unless the
   decoder refuses a byte.
   */
  lemma {:induction false} ShortChunksKeepSchema<S(!new), B, C>(a: Automaton<S, B, C>, maxFrameBytes: nat, ops: seq<Op>)
    requires Lawful(a) && maxFrameBytes > 0 && !After(a, maxFrameBytes, ops).corrupt
    requires ShortChunks(ops, maxFrameBytes + 1)
    requires forall s, b :: !a.feed(s, b).Stall?
    ensures !After(a, maxFrameBytes, ops).schemaLost
    ensures |PendingBytes(After(a, maxFrameBytes, ops).driver)| <= maxFrameBytes + 1
  {
    hide Lawful, Inv, Record;
    if ops != [] {
      var n := |ops| - 1;
      var h := After(a, maxFrameBytes, ops[..n]);
      CorruptStays(a, h, ops[n]);
      RunInv(a, maxFrameBytes, ops[..n]);
      ShortChunksKeepSchema(a, maxFrameBytes, ops[..n]);
      if ops[n].PushOp? {
        ShortPush(a, h, ops[n].chunk);
      } else {
        FinishKeeps(a, h);
      }
    }
  }

  lemma FinishKeeps<S, B, C>(a: Automaton<S, B, C>, h: Session<S, B, C>)
    ensures var h' := Record(a, h, FinishOp);
            h'.schemaLost == h.schemaLost && h'.driver == h.driver.(finished := h'.driver.finished)
  {
  }

  lemma ShortPush<S(!new), B, C>(a: Automaton<S, B, C>, h: Session<S, B, C>, chunk: seq<Byte>)
    requires Lawful(a) && Inv(a, h) && !h.schemaLost && !Record(a, h, PushOp(chunk)).corrupt
    requires var limit := h.driver.maxFrameBytes + 1; |chunk| <= limit && |PendingBytes(h.driver)| <= limit
    requires forall s, b :: !a.feed(s, b).Stall?
    ensures !Record(a, h, PushOp(chunk)).schemaLost
    ensures |PendingBytes(Record(a, h, PushOp(chunk)).driver)| <= h.driver.maxFrameBytes + 1
  {
    hide FeedAll, Lawful, Loop, DriverOk, BatchesSpaced, Stuck, SchemasOk;
    var d := h.driver;
    if d.finished || (chunk != [] && d.pending.Some?) {
      RejectedPush(a, h, chunk);
    } else {
      var d0 := if chunk != [] then d.(pending := Some(chunk)) else d;
      Loaded(a, d, chunk, |h.taken|, h.batchAt != [], h.boundary);
      LoopOk(a, d0, None, |h.taken|, h.batchAt != [], h.boundary);
      LimitReached(a, d0, None);
      ShortCall(a, d0, |h.taken|, h.batchAt != [], h.boundary);
    }
  }

  lemma ShortCall<S(!new), B, C>(a: Automaton<S, B, C>, d: Driver<S>, count: nat, hasBatch: bool, at: nat)
    requires Loop(a, d, None).result != Err(Corrupt) && CallOk(a, d, Loop(a, d, None), count, hasBatch, at)
    requires !d.finished && (d.pending.Some? ==> d.pending.value != []) && |PendingBytes(d)| <= d.maxFrameBytes + 1
    requires forall s, b :: !a.feed(s, b).Stall?
    ensures var call := Loop(a, d, None);
            && |PendingBytes(call.driver)| <= d.maxFrameBytes + 1
            && (call.result.Err? ==> !FoundSchema(a, d, call.driver))
  {
    hide Loop, FeedAll, Decode, DriverOk;
    var call := Loop(a, d, None);
    FoundBoundary(a, d, None);
    LoopSticks(a, d, None);
    assert |call.taken| + |PendingBytes(call.driver)| == |PendingBytes(d)|;
  }

  /**
   Two runs over the same bytes, cut into chunks in any way and under any frame limits, return the
   same schema, at most once, and the same batches, provided nothing is left buffered in either.
   */
  lemma {:induction false} ChunkingIrrelevant<S(!new), B, C>(a: Automaton<S, B, C>, max1: nat, ops1: seq<Op>, max2: nat, ops2: seq<Op>)
    requires Lawful(a) && max1 > 0 && max2 > 0
    requires var h1, h2 := After(a, max1, ops1), After(a, max2, ops2);
             && !h1.corrupt && !h2.corrupt
             && h1.driver.pending.None? && h2.driver.pending.None?
             && h1.accepted == h2.accepted
    ensures var h1, h2 := After(a, max1, ops1), After(a, max2, ops2);
            h1.batches == h2.batches && h1.schemas == h2.schemas && |h1.schemas| <= 1
  {
    hide FeedAll, After, Lawful;
    DrainedIsComplete(a, max1, ops1);
    DrainedIsComplete(a, max2, ops2);
  }

  /** A run with nothing left buffered returned exactly what the automaton emits on everything accepted. */
  lemma {:induction false} DrainedIsComplete<S(!new), B, C>(a: Automaton<S, B, C>, maxFrameBytes: nat, ops: seq<Op>)
    requires Lawful(a) && maxFrameBytes > 0
    requires var h := After(a, maxFrameBytes, ops); !h.corrupt && h.driver.pending.None?
    ensures var h := After(a, maxFrameBytes, ops);
            && FeedAll(a, a.init, h.accepted) == Fed(h.driver.decoder, h.batches)
            && h.schemas == ToSeq(a.schema(h.driver.decoder))
  {
    hide FeedAll, After, Lawful;
    RunInv(a, maxFrameBytes, ops);
    var h := After(a, maxFrameBytes, ops);
    assert h.taken + [] == h.taken;
  }

  /**
   A run that finished was drained, so its output is complete: every accepted byte was decoded, no
   push raised, and the decoder stands where its stream may end.
   */
  lemma FinishedIsComplete<S(!new), B, C>(a: Automaton<S, B, C>, maxFrameBytes: nat, ops: seq<Op>)
    requires Lawful(a) && maxFrameBytes > 0
    requires var h := After(a, maxFrameBytes, ops); !h.corrupt && h.driver.finished
    ensures var h := After(a, maxFrameBytes, ops);
            && h.driver.pending.None? && !h.failed && a.mayFinish(h.driver.decoder)
            && FeedAll(a, a.init, h.accepted) == Fed(h.driver.decoder, h.batches)
            && h.schemas == ToSeq(a.schema(h.driver.decoder))
  {
    hide FeedAll, After, Lawful;
    RunInv(a, maxFrameBytes, ops);
    DrainedIsComplete(a, maxFrameBytes, ops);
  }

  /**
   `finish` succeeds exactly if nothing is buffered and the stream may end, or an earlier `finish` did;
   it tells unconsumed input from an incomplete stream. Success finishes the decoder with complete
   output, failure changes nothing, and a finished decoder rejects every push.
   */
  lemma FinishOutcome<S(!new), B, C>(a: Automaton<S, B, C>, maxFrameBytes: nat, ops: seq<Op>)
    requires Lawful(a) && maxFrameBytes > 0 && !After(a, maxFrameBytes, ops).corrupt
    ensures var h, h' := After(a, maxFrameBytes, ops), Record(a, After(a, maxFrameBytes, ops), FinishOp);
            var result: Result<(), Error> :=
              if Ok(()) in h.finishes then Ok(())
              else if h.driver.pending.Some? then Err(Unconsumed)
              else if !a.mayFinish(h.driver.decoder) then Err(Unfinished)
              else Ok(());
            && h' == h.(driver := h'.driver, finishes := h.finishes + [result])
            && (result.Err? ==> h'.driver == h.driver)
            && (result.Ok? ==>
                  && h'.driver == h.driver.(finished := true) && h.driver.pending.None?
                  && FeedAll(a, a.init, h.accepted) == Fed(h.driver.decoder, h.batches)
                  && h.schemas == ToSeq(a.schema(h.driver.decoder))
                  && forall chunk :: Push(a, h'.driver, chunk).result == Err(AlreadyFinished) && Push(a, h'.driver, chunk).driver == h'.driver)
  {
    hide FeedAll, After, Lawful, Loop;
    RunInv(a, maxFrameBytes, ops);
    var h := After(a, maxFrameBytes, ops);
    if h.driver.pending.None? { DrainedIsComplete(a, maxFrameBytes, ops); }
  }

  /** A push is turned away exactly if the decoder finished, or if it brings input while some is buffered. */
  lemma PushAccepted<S, B, C>(a: Automaton<S, B, C>, d: Driver<S>, chunk: seq<Byte>)
    ensures var result := Push(a, d, chunk).result;
            && (result == Err(AlreadyFinished) <==> d.finished)
            && (result == Err(MustDrain) <==> !d.finished && chunk != [] && d.pending.Some?)
            && (result.Err? ==> result.error !in {Unconsumed, Unfinished})
  {
    hide Loop;
    LoopErrors(a, if chunk != [] then d.(pending := Some(chunk)) else d, None);
  }

  /**
   Once a push raised for the frame limit or for lack of progress, nothing the caller does helps: in
   every continuation the input stays pending, nothing more is returned, and no push or `finish`
   succeeds.
   */
  lemma {:induction false} FailureIsFinal<S(!new), B, C>(a: Automaton<S, B, C>, maxFrameBytes: nat, ops: seq<Op>, more: seq<Op>)
    requires Lawful(a) && maxFrameBytes > 0
    requires var h := After(a, maxFrameBytes, ops); h.failed && !h.corrupt
    ensures var h := After(a, maxFrameBytes, ops);
            var h' := After(a, maxFrameBytes, ops + more);
            && h' == h.(finishes := h'.finishes) && h.driver.pending.Some?
            && h.finishes <= h'.finishes && (forall i :: |h.finishes| <= i < |h'.finishes| ==> h'.finishes[i].Err?)
            && (forall chunk :: Push(a, h.driver, chunk).result.Err?)
            && FinishStep(a, h.driver).result.Err?
    decreases |more|
  {
    hide FeedAll, Lawful, Record, Push, FinishStep, Stuck;
    RunInv(a, maxFrameBytes, ops);
    var h := After(a, maxFrameBytes, ops);
    StuckHasInput(a, h.driver);
    StuckStays(a, h.driver, []);
    forall chunk ensures Push(a, h.driver, chunk).result.Err? {
      StuckStays(a, h.driver, chunk);
    }
    assert ops + [] == ops;
    if more != [] {
      var n := |more| - 1;
      FailureIsFinal(a, maxFrameBytes, ops, more[..n]);
      assert (ops + more)[..|ops| + n] == ops + more[..n];
      StuckRecord(a, After(a, maxFrameBytes, ops + more[..n]), more[n]);
    }
  }

  lemma StuckHasInput<S, B, C>(a: Automaton<S, B, C>, d: Driver<S>)
    requires Stuck(a, d)
    ensures d.pending.Some?
  {
  }

  lemma StuckRecord<S, B, C>(a: Automaton<S, B, C>, h: Session<S, B, C>, op: Op)
    requires Stuck(a, h.driver) && h.failed
    ensures var h' := Record(a, h, op);
            h' == h.(finishes := h'.finishes) && h'.finishes == if op.FinishOp? then h.finishes + [Err(Unconsumed)] else h.finishes
  {
    hide Push, FinishStep;
    StuckStays(a, h.driver, if op.PushOp? then op.chunk else []);
    StuckHasInput(a, h.driver);
    assert h.taken + [] == h.taken && h.accepted + [] == h.accepted;
    UnrecordedFailure(a, h);
  }

  lemma UnrecordedFailure<S, B, C>(a: Automaton<S, B, C>, h: Session<S, B, C>)
    ensures !FoundSchema(a, h.driver, h.driver)
  {
  }

  // ---------- malformed streams ----------

  /** The bytes the decoder was fed when it found the stream malformed. */
  ghost function FedAtFault<S, B, C>(h: Session<S, B, C>, call: Call<S, B, C>): seq<Byte>
    requires call.unadvanced <= |PendingBytes(call.driver)|
  {
    h.taken + call.taken + PendingBytes(call.driver)[..call.unadvanced]
  }

  /**
   Up to the push that first finds the stream malformed, the batches are the reference batches of the
   bytes before the malformed one. The input is not advanced over the last window, so the bytes fed
   followed by the buffer are the accepted chunks exactly if that window fed nothing.
   */
  lemma FaultIsReference<S(!new), B, C>(a: Automaton<S, B, C>, maxFrameBytes: nat, ops: seq<Op>, chunk: seq<Byte>)
    requires Lawful(a) && maxFrameBytes > 0 && !After(a, maxFrameBytes, ops).corrupt
    requires Push(a, After(a, maxFrameBytes, ops).driver, chunk).result == Err(Corrupt)
    ensures var h := After(a, maxFrameBytes, ops); var call := Push(a, h.driver, chunk); var h' := Record(a, h, PushOp(chunk));
            && h'.corrupt && h'.batches == h.batches && h'.taken + PendingBytes(h'.driver) == h'.accepted
            && call.unadvanced < |PendingBytes(call.driver)|
            && var fed := FedAtFault(h, call);
               && fed + [PendingBytes(call.driver)[call.unadvanced]] <= h'.accepted
               && BreaksAfter(a, a.init, fed, PendingBytes(call.driver)[call.unadvanced])
               && FeedAll(a, a.init, fed).batches == h'.batches
               && (fed + PendingBytes(h'.driver) == h'.accepted <==> call.unadvanced == 0)
  {
    hide FeedAll, After, Lawful, Loop, BreaksAfter, FaultOk, FedAtFault;
    RunInv(a, maxFrameBytes, ops);
    var h := After(a, maxFrameBytes, ops);
    var d0 := if chunk != [] then h.driver.(pending := Some(chunk)) else h.driver;
    LoopFaults(a, d0, None);
    assert h.taken + PendingBytes(d0) == h.accepted + Accepts(h.driver, chunk);
    FaultBytes(a, h, d0, Loop(a, d0, None), h.accepted + Accepts(h.driver, chunk));
  }

  lemma FaultBytes<S, B, C>(a: Automaton<S, B, C>, h: Session<S, B, C>, d0: Driver<S>, call: Call<S, B, C>, accepted: seq<Byte>)
    requires FaultOk(a, d0, call) && h.taken + PendingBytes(d0) == accepted
    requires FeedAll(a, a.init, h.taken) == Fed(d0.decoder, h.batches)
    ensures var rest := PendingBytes(call.driver);
            && call.unadvanced < |rest| && h.taken + call.taken + rest == accepted
            && var fed := FedAtFault(h, call);
               && fed + [rest[call.unadvanced]] <= accepted
               && BreaksAfter(a, a.init, fed, rest[call.unadvanced])
               && FeedAll(a, a.init, fed).batches == h.batches
               && (fed + rest == accepted <==> call.unadvanced == 0)
  {
    hide FeedAll, PendingBytes;
    var rest := PendingBytes(call.driver);
    var own := call.taken + rest[..call.unadvanced];
    FeedAppend(a, a.init, h.taken, own);
    assert FedAtFault(h, call) == h.taken + own;
    assert accepted == h.taken + call.taken + rest;
    assert h.batches + [] == h.batches;
    assert FedAtFault(h, call) + [rest[call.unadvanced]] == accepted[..|FedAtFault(h, call)| + 1];
    assert |FedAtFault(h, call) + rest| == |accepted| + call.unadvanced;
    assert call.unadvanced == 0 ==> FedAtFault(h, call) == h.taken + call.taken;
  }

  /** Where a stream breaks does not depend on how it is cut. */
  lemma BreakIsUnique<S, B, C>(a: Automaton<S, B, C>, s: S, stream: seq<Byte>, fed1: seq<Byte>, next1: Byte, fed2: seq<Byte>, next2: Byte)
    requires fed1 + [next1] <= stream && fed2 + [next2] <= stream
    requires BreaksAfter(a, s, fed1, next1) && BreaksAfter(a, s, fed2, next2)
    ensures fed1 == fed2
  {
    if |fed1| < |fed2| {
      NoneAfterBreak(a, s, fed1, next1, fed2);
    } else if |fed2| < |fed1| {
      NoneAfterBreak(a, s, fed2, next2, fed1);
    } else {
      assert fed1 == stream[..|fed1|] == fed2;
    }
  }

  lemma NoneAfterBreak<S, B, C>(a: Automaton<S, B, C>, s: S, fed: seq<Byte>, next: Byte, longer: seq<Byte>)
    requires BreaksAfter(a, s, fed, next) && fed + [next] <= longer
    ensures FeedAll(a, s, longer).Refused?
  {
    var rest := longer[|fed|..];
    assert longer == fed + rest && rest[0] == next;
    FeedAppend(a, s, fed, rest);
  }

  /** Two runs over one malformed stream return the same batches before they find it malformed. */
  lemma FaultChunkingIrrelevant<S(!new), B, C>(a: Automaton<S, B, C>, max1: nat, ops1: seq<Op>, chunk1: seq<Byte>,
                                              max2: nat, ops2: seq<Op>, chunk2: seq<Byte>, stream: seq<Byte>)
    requires Lawful(a) && max1 > 0 && max2 > 0
    requires !After(a, max1, ops1).corrupt && Push(a, After(a, max1, ops1).driver, chunk1).result == Err(Corrupt)
    requires !After(a, max2, ops2).corrupt && Push(a, After(a, max2, ops2).driver, chunk2).result == Err(Corrupt)
    requires Record(a, After(a, max1, ops1), PushOp(chunk1)).accepted <= stream
    requires Record(a, After(a, max2, ops2), PushOp(chunk2)).accepted <= stream
    ensures Record(a, After(a, max1, ops1), PushOp(chunk1)).batches == Record(a, After(a, max2, ops2), PushOp(chunk2)).batches
  {
    hide FeedAll, After, Lawful, Push, Record, FedAtFault, BreaksAfter;
    FaultIsReference(a, max1, ops1, chunk1);
    FaultIsReference(a, max2, ops2, chunk2);
    var h1, h2 := After(a, max1, ops1), After(a, max2, ops2);
    var call1, call2 := Push(a, h1.driver, chunk1), Push(a, h2.driver, chunk2);
    BreakIsUnique(a, a.init, stream, FedAtFault(h1, call1), PendingBytes(call1.driver)[call1.unadvanced],
                  FedAtFault(h2, call2), PendingBytes(call2.driver)[call2.unadvanced]);
  }
}
