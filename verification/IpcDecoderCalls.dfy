/**
 What a push will do, read off its input beforehand (python/src/ipc.rs, `decode_next`): where the
 stream decoder stops, how far the windows reach, and so exactly when bytes are fed twice, when the
 schema is lost, and when draining ends.
 */
module IpcDecoderCalls {
  import opened Wrappers
  import opened Numbers
  import opened IpcDecoder
  import opened IpcDecoderRuns

  // ---------- where the stream decoder stops ----------

  /** How many bytes the automaton takes without emitting a batch, refusing one or finding one malformed. */
  function FirstStop<S, B, C>(a: Automaton<S, B, C>, s: S, bytes: seq<Byte>): (m: nat)
    ensures m <= |bytes|
  {
    if bytes == [] then 0
    else
      match a.feed(s, bytes[0])
      case Advance(s', None) => 1 + FirstStop(a, s', bytes[1..])
      case _ => 0
  }

  /** The state after `n` of those bytes. */
  function StateAt<S, B, C>(a: Automaton<S, B, C>, s: S, bytes: seq<Byte>, n: nat): S
    requires n <= FirstStop(a, s, bytes)
  {
    if n == 0 then s else StateAt(a, a.feed(s, bytes[0]).state, bytes[1..], n - 1)
  }

  lemma {:induction false} StopInPrefix<S, B, C>(a: Automaton<S, B, C>, s: S, bytes: seq<Byte>, n: nat)
    requires n <= |bytes|
    ensures FirstStop(a, s, bytes[..n]) == Min(n, FirstStop(a, s, bytes))
    ensures forall k :: 0 <= k <= Min(n, FirstStop(a, s, bytes)) ==> StateAt(a, s, bytes[..n], k) == StateAt(a, s, bytes, k)
  {
    if n > 0 {
      match a.feed(s, bytes[0]) {
        case Advance(s', None) =>
          assert bytes[..n][1..] == bytes[1..][..n - 1];
          StopInPrefix(a, s', bytes[1..], n - 1);
        case _ =>
      }
    }
  }

  lemma {:induction false} StopInRest<S, B, C>(a: Automaton<S, B, C>, s: S, bytes: seq<Byte>, n: nat, k: nat)
    requires n + k <= FirstStop(a, s, bytes)
    ensures var s' := StateAt(a, s, bytes, n);
            FirstStop(a, s', bytes[n..]) == FirstStop(a, s, bytes) - n && StateAt(a, s', bytes[n..], k) == StateAt(a, s, bytes, n + k)
  {
    if n == 0 {
      assert bytes[0..] == bytes;
    } else {
      OneMoreByte(a, s, bytes);
      StopInRest(a, a.feed(s, bytes[0]).state, bytes[1..], n - 1, k);
      assert bytes[1..][n - 1..] == bytes[n..];
    }
  }

  lemma OneMoreByte<S, B, C>(a: Automaton<S, B, C>, s: S, bytes: seq<Byte>)
    requires FirstStop(a, s, bytes) > 0
    ensures a.feed(s, bytes[0]).Advance? && FirstStop(a, s, bytes) == 1 + FirstStop(a, a.feed(s, bytes[0]).state, bytes[1..])
    ensures forall n :: 0 < n <= FirstStop(a, s, bytes) ==>
              StateAt(a, s, bytes, n) == StateAt(a, a.feed(s, bytes[0]).state, bytes[1..], n - 1)
  {
  }

  /** A window ends where the automaton stops. */
  lemma {:induction false} DecodeStops<S, B, C>(a: Automaton<S, B, C>, s: S, window: seq<Byte>)
    ensures var m := FirstStop(a, s, window); var r := Decode(a, s, window);
            if m == |window| then r == Decoded(StateAt(a, s, window, m), m, None, false)
            else
              match a.feed(StateAt(a, s, window, m), window[m])
              case Stall => r == Decoded(StateAt(a, s, window, m), m, None, false)
              case Fault(poisoned) => r == Decoded(poisoned, m, None, true)
              case Advance(s', batch) => batch.Some? && r == Decoded(s', m + 1, batch, false)
  {
    if window != [] {
      match a.feed(s, window[0]) {
        case Advance(s', None) =>
          DecodeStops(a, s', window[1..]);
        case _ =>
      }
    }
  }

  /** The bytes before the stop feed the reference without a batch. */
  lemma {:induction false} StopFeeds<S, B, C>(a: Automaton<S, B, C>, s: S, bytes: seq<Byte>, n: nat)
    requires n <= FirstStop(a, s, bytes)
    ensures FeedAll(a, s, bytes[..n]) == Fed(StateAt(a, s, bytes, n), [])
  {
    if n > 0 {
      assert bytes[..n][1..] == bytes[1..][..n - 1];
      StopFeeds(a, a.feed(s, bytes[0]).state, bytes[1..], n - 1);
    }
  }

  // ---------- how far a call reaches ----------

  /** The first window of a call takes up to this many bytes. */
  function Window<S>(d: Driver<S>): nat
    requires d.sinceBoundary <= d.maxFrameBytes
  {
    d.maxFrameBytes - d.sinceBoundary
  }

  /** The first window is taken whole and finds the schema. */
  predicate FindsInWindow<S, B, C>(a: Automaton<S, B, C>, d: Driver<S>, input: seq<Byte>)
    requires d.sinceBoundary <= d.maxFrameBytes
  {
    && a.schema(d.decoder).None? && Window(d) <= FirstStop(a, d.decoder, input)
    && a.schema(StateAt(a, d.decoder, input, Window(d))).Some?
  }

  /** The bytes a call can take before the frame limit: one window, or two if the first finds the schema. */
  function Reach<S, B, C>(a: Automaton<S, B, C>, d: Driver<S>, input: seq<Byte>): nat
    requires d.sinceBoundary <= d.maxFrameBytes
  {
    if FindsInWindow(a, d, input) then Window(d) + d.maxFrameBytes else Window(d)
  }

  /** What a call does, by where the stream decoder stops and how far the call reaches. */
  ghost predicate Foreseen<S, B, C>(a: Automaton<S, B, C>, d: Driver<S>, input: seq<Byte>, call: Call<S, B, C>)
    requires d.sinceBoundary <= d.maxFrameBytes
  {
    var m, reach := FirstStop(a, d.decoder, input), Reach(a, d, input);
    if m < |input| && m < reach then
      match a.feed(StateAt(a, d.decoder, input, m), input[m])
      case Fault(_) => call.result == Err(Corrupt) && call.unadvanced == if m < Window(d) then m else m - Window(d)
      case Stall =>
        call.result == Err(NoProgress) && call.unadvanced == 0 && call.driver.decoder == StateAt(a, d.decoder, input, m)
      case Advance(_, _) => call.result.Ok? && call.result.value.batch.Some? && call.unadvanced == 0
    else if |input| > reach then
      reach <= m && call.result == Err(FrameTooLarge) && call.unadvanced == 0
      && call.driver.decoder == StateAt(a, d.decoder, input, reach)
    else
      call.result.Ok? && call.result.value.batch.None? && call.unadvanced == 0 && call.driver.pending.None?
  }

  lemma {:induction false} CallForeseen<S(!new), B, C>(a: Automaton<S, B, C>, d: Driver<S>, schema: Option<C>)
    requires Lawful(a) && d.pending.Some? && d.pending.value != [] && d.sinceBoundary < d.maxFrameBytes
    ensures Foreseen(a, d, d.pending.value, Loop(a, d, schema))
    decreases if d.pending.Some? then |d.pending.value| else 0
  {
    hide Decode, FirstStop, StateAt, Lawful, Prefixed;
    var input := d.pending.value;
    var m, w := FirstStop(a, d.decoder, input), Window(d);
    var window := input[..Min(w, |input|)];
    var r := Decode(a, d.decoder, window);
    StopInPrefix(a, d.decoder, input, |window|);
    DecodeStops(a, d.decoder, window);
    if m < |window| {
      StopInFirstWindow(a, d, r, schema);
    } else if |input| <= w {
      assert input[..|input|] == input;
      WholeInput(a, d, r, schema);
    } else {
      WindowSchemas(a, d.decoder, window);
      SecondWindow(a, d, r, schema);
      if FindsInWindow(a, d, input) {
        var d' := Consume(a, d, input, r);
        CallForeseen(a, d', SeenSchema(a, d, r, schema));
        SecondForeseen(a, d, d', Loop(a, d', SeenSchema(a, d, r, schema)));
      }
    }
  }

  lemma WindowSchemas<S(!new), B, C>(a: Automaton<S, B, C>, s: S, window: seq<Byte>)
    requires Lawful(a) && !Decode(a, s, window).fault
    ensures a.schema(s).Some? ==> a.schema(Decode(a, s, window).state).Some?
  {
    hide Decode, Lawful;
    WindowSchema(a, s, window);
  }

  /** The stream decoder stops within the first window. */
  lemma StopInFirstWindow<S, B, C>(a: Automaton<S, B, C>, d: Driver<S>, r: Decoded<S, B>, schema: Option<C>)
    requires d.pending.Some? && d.pending.value != [] && d.sinceBoundary < d.maxFrameBytes
    requires var input := d.pending.value;
             r == Decode(a, d.decoder, input[..Min(Window(d), |input|)])
    requires FirstStop(a, d.decoder, d.pending.value) < Min(Window(d), |d.pending.value|)
    requires var m, input := FirstStop(a, d.decoder, d.pending.value), d.pending.value;
             match a.feed(StateAt(a, d.decoder, input, m), input[m])
             case Stall => r == Decoded(StateAt(a, d.decoder, input, m), m, None, false)
             case Fault(poisoned) => r == Decoded(poisoned, m, None, true)
             case Advance(s', batch) => batch.Some? && r == Decoded(s', m + 1, batch, false)
    ensures Foreseen(a, d, d.pending.value, Loop(a, d, schema))
  {
    hide Decode, FirstStop, StateAt;
    var input := d.pending.value;
    if !r.fault && r.batch.None? && r.consumed > 0 {
      var d' := Consume(a, d, input, r);
      LoopContinues(a, d, r, schema);
      LoopRefused(a, d', SeenSchema(a, d, r, schema));
    }
  }

  lemma LoopRefused<S, B, C>(a: Automaton<S, B, C>, d: Driver<S>, schema: Option<C>)
    requires d.pending.Some? && d.pending.value != [] && d.sinceBoundary < d.maxFrameBytes
    requires a.feed(d.decoder, d.pending.value[0]).Stall?
    ensures var call := Loop(a, d, schema);
            call.result == Err(NoProgress) && call.unadvanced == 0 && call.driver.decoder == d.decoder
  {
    var window := d.pending.value[..Min(d.maxFrameBytes - d.sinceBoundary, |d.pending.value|)];
    DecodeStalls(a, d.decoder, window);
    hide Decode;
  }

  /** One window takes the whole input. */
  lemma WholeInput<S, B, C>(a: Automaton<S, B, C>, d: Driver<S>, r: Decoded<S, B>, schema: Option<C>)
    requires d.pending.Some? && d.pending.value != [] && d.sinceBoundary < d.maxFrameBytes
    requires var input := d.pending.value;
             && |input| <= Window(d) && FirstStop(a, d.decoder, input) == |input|
             && r == Decode(a, d.decoder, input[..Min(Window(d), |input|)])
             && !r.fault && r.batch.None? && r.consumed == |input|
    ensures Foreseen(a, d, d.pending.value, Loop(a, d, schema))
  {
    hide Decode, FirstStop, StateAt;
    LoopContinues(a, d, r, schema);
  }

  /** The first window is taken whole and more input follows. */
  lemma SecondWindow<S, B, C>(a: Automaton<S, B, C>, d: Driver<S>, r: Decoded<S, B>, schema: Option<C>)
    requires d.pending.Some? && d.sinceBoundary < d.maxFrameBytes
    requires var input := d.pending.value;
             && Window(d) < |input| && Window(d) <= FirstStop(a, d.decoder, input)
             && r == Decode(a, d.decoder, input[..Min(Window(d), |input|)])
             && r == Decoded(StateAt(a, d.decoder, input, Window(d)), Window(d), None, false)
    ensures var input := d.pending.value; var d' := Consume(a, d, input, r);
            && Loop(a, d, schema) == Prefixed(Loop(a, d', SeenSchema(a, d, r, schema)), input[..Window(d)], FindsSchema(a, d, r))
            && d'.pending == Some(input[Window(d)..]) && d'.decoder == r.state && d'.maxFrameBytes == d.maxFrameBytes
            && d'.sinceBoundary == (if FindsInWindow(a, d, input) then 0 else d.maxFrameBytes)
    ensures !FindsInWindow(a, d, d.pending.value) ==> Foreseen(a, d, d.pending.value, Loop(a, d, schema))
  {
    hide Decode, FirstStop, StateAt;
    LoopContinues(a, d, r, schema);
  }

  /** After a first window that found the schema, a whole frame is allowed again. */
  lemma SecondForeseen<S, B, C>(a: Automaton<S, B, C>, d: Driver<S>, d': Driver<S>, rest: Call<S, B, C>)
    requires d.pending.Some? && d.sinceBoundary < d.maxFrameBytes
    requires var input, w := d.pending.value, Window(d);
             && w < |input| && FindsInWindow(a, d, input)
             && d'.decoder == StateAt(a, d.decoder, input, w) && d'.maxFrameBytes == d.maxFrameBytes && d'.sinceBoundary == 0
             && Foreseen(a, d', input[w..], rest)
    ensures var input, w := d.pending.value, Window(d);
            Foreseen(a, d, input, Prefixed(rest, input[..w], true))
  {
    hide FirstStop, StateAt;
    var input, w := d.pending.value, Window(d);
    var m := FirstStop(a, d.decoder, input);
    StopInRest(a, d.decoder, input, w, m - w);
    if d.maxFrameBytes <= m - w { StopInRest(a, d.decoder, input, w, d.maxFrameBytes); }
  }

  // ---------- the input of a push ----------

  /** The driver as the decoding loop finds it, if the push gets that far and there is anything to decode. */
  function Decoding<S>(d: Driver<S>, chunk: seq<Byte>): Option<Driver<S>>
  {
    if d.finished || (chunk != [] && d.pending.Some?) then None
    else
      var d0 := if chunk != [] then d.(pending := Some(chunk)) else d;
      if d0.pending.None? || d0.sinceBoundary >= d0.maxFrameBytes then None else Some(d0)
  }

  lemma PushForeseen<S(!new), B, C>(a: Automaton<S, B, C>, d: Driver<S>, chunk: seq<Byte>)
    requires Lawful(a) && (d.pending.Some? ==> d.pending.value != [])
    ensures var d0, call := Decoding(d, chunk), Push(a, d, chunk);
            && (d0.Some? ==> d0.value.pending.Some? && d0.value.sinceBoundary < d0.value.maxFrameBytes
                             && d0.value.decoder == d.decoder && Foreseen(a, d0.value, d0.value.pending.value, call))
            && (d0.None? ==> call.driver.decoder == d.decoder && call.unadvanced == 0 && call.taken == [] && call.result != Err(Corrupt))
  {
    hide Foreseen, Lawful;
    var d0 := Decoding(d, chunk);
    if d0.Some? { CallForeseen(a, d0.value, None); }
  }

  // ---------- when bytes are fed twice ----------

  /** The malformed byte the push will reach: the place where the stream decoder stops in its input. */
  predicate MeetsFault<S, B, C>(a: Automaton<S, B, C>, d: Driver<S>, chunk: seq<Byte>)
    requires d.pending.Some? ==> d.pending.value != []
  {
    var d0 := Decoding(d, chunk);
    && d0.Some?
    && var input := d0.value.pending.value; var m := FirstStop(a, d.decoder, input);
       m < |input| && m < Reach(a, d0.value, input) && a.feed(StateAt(a, d.decoder, input, m), input[m]).Fault?
  }

  /** The malformed byte opens neither the first window nor the second, so its window feeds bytes that stay pending. */
  predicate FaultInsideWindow<S, B, C>(a: Automaton<S, B, C>, d: Driver<S>, chunk: seq<Byte>)
    requires d.pending.Some? ==> d.pending.value != []
  {
    && MeetsFault(a, d, chunk)
    && var d0 := Decoding(d, chunk).value;
       var m := FirstStop(a, d.decoder, d0.pending.value);
       m != 0 && m != Window(d0)
  }

  /** The bytes the decoder was fed by the end of a push: those it advanced over, and those of a faulting window. */
  ghost function FedBytes<S, B, C>(h: Session<S, B, C>, call: Call<S, B, C>): seq<Byte>
  {
    h.taken + call.taken + PendingBytes(call.driver)[..Min(call.unadvanced, |PendingBytes(call.driver)|)]
  }

  /**
   A push reports a malformed stream exactly if it meets a malformed byte. The bytes fed, followed by
   the buffer, are the accepted chunks after every push but one that meets it inside a window.
   */
  lemma ConservationExact<S(!new), B, C>(a: Automaton<S, B, C>, maxFrameBytes: nat, ops: seq<Op>, chunk: seq<Byte>)
    requires Lawful(a) && maxFrameBytes > 0 && !After(a, maxFrameBytes, ops).corrupt
    ensures var h := After(a, maxFrameBytes, ops);
            var call, h' := Push(a, h.driver, chunk), Record(a, h, PushOp(chunk));
            && (h.driver.pending.Some? ==> h.driver.pending.value != [])
            && (call.result == Err(Corrupt) <==> MeetsFault(a, h.driver, chunk))
            && (FedBytes(h, call) + PendingBytes(h'.driver) == h'.accepted <==> !FaultInsideWindow(a, h.driver, chunk))
  {
    hide FeedAll, After, Lawful, Push, MeetsFault, Record, FedAtFault, Decoding;
    RunInv(a, maxFrameBytes, ops);
    var h := After(a, maxFrameBytes, ops);
    var call := Push(a, h.driver, chunk);
    PushForeseen(a, h.driver, chunk);
    FaultForeseen(a, h.driver, chunk);
    BytesConserved(a, maxFrameBytes, ops + [PushOp(chunk)]);
    AfterSnoc(a, maxFrameBytes, ops, PushOp(chunk));
    RecordedBytes(a, h, chunk);
    if call.result == Err(Corrupt) { FaultIsReference(a, maxFrameBytes, ops, chunk); }
    FedLength(h, call, Record(a, h, PushOp(chunk)).accepted);
  }

  lemma AfterSnoc<S, B, C>(a: Automaton<S, B, C>, maxFrameBytes: nat, ops: seq<Op>, op: Op)
    ensures After(a, maxFrameBytes, ops + [op]) == Record(a, After(a, maxFrameBytes, ops), op)
  {
    hide Record;
    assert (ops + [op])[..|ops|] == ops;
  }

  lemma RecordedBytes<S, B, C>(a: Automaton<S, B, C>, h: Session<S, B, C>, chunk: seq<Byte>)
    ensures var call, h' := Push(a, h.driver, chunk), Record(a, h, PushOp(chunk));
            h'.driver == call.driver && h'.taken == h.taken + call.taken
  {
    hide Push;
  }

  lemma FedLength<S, B, C>(h: Session<S, B, C>, call: Call<S, B, C>, accepted: seq<Byte>)
    requires h.taken + call.taken + PendingBytes(call.driver) == accepted
    requires call.unadvanced == 0 || call.unadvanced < |PendingBytes(call.driver)|
    ensures FedBytes(h, call) + PendingBytes(call.driver) == accepted <==> call.unadvanced == 0
  {
    hide PendingBytes;
    var rest := PendingBytes(call.driver);
    assert |FedBytes(h, call) + rest| == |accepted| + call.unadvanced;
    if call.unadvanced == 0 { assert FedBytes(h, call) == h.taken + call.taken; }
  }

  lemma FaultForeseen<S(!new), B, C>(a: Automaton<S, B, C>, d: Driver<S>, chunk: seq<Byte>)
    requires Lawful(a) && (d.pending.Some? ==> d.pending.value != [])
    ensures var call := Push(a, d, chunk);
            && (call.result == Err(Corrupt) <==> MeetsFault(a, d, chunk))
            && (call.unadvanced > 0 <==> FaultInsideWindow(a, d, chunk))
  {
    hide Push, FirstStop, StateAt, Lawful;
    PushForeseen(a, d, chunk);
  }

  /** An automaton that takes one byte and finds the next malformed. */
  function Hiccup(): Automaton<int, (), int>
  {
    Automaton(0, (s: int, _: Byte) => if s == 0 then Advance(1, None) else Fault(2), (_: int) => None, (_: int) => false)
  }

  /** Conservation does fail: both bytes stay pending although the decoder was fed the first. */
  lemma FedTwiceExample()
    ensures Lawful(Hiccup()) && FaultInsideWindow(Hiccup(), NewDriver(Hiccup(), 2), [0, 0])
    ensures var call := Push(Hiccup(), NewDriver(Hiccup(), 2), [0, 0]);
            && call.result == Err(Corrupt) && call.driver.pending == Some([0, 0]) && call.taken == [] && call.unadvanced == 1
  {
    hide FirstStop, StateAt, Loop;
    var d := NewDriver(Hiccup(), 2).(pending := Some([0, 0]));
    HiccupStops();
    HiccupCall(d);
    assert Decoding(NewDriver(Hiccup(), 2), [0, 0]) == Some(d);
  }

  lemma HiccupStops()
    ensures FirstStop(Hiccup(), 0, [0, 0]) == 1 && StateAt(Hiccup(), 0, [0, 0], 1) == 1
    ensures Hiccup().feed(1, 0).Fault? && Lawful(Hiccup()) && Hiccup().schema(0).None?
  {
    assert [0, 0][1..] == [0];
    assert FirstStop(Hiccup(), 1, [0]) == 0;
  }

  lemma HiccupCall(d: Driver<int>)
    requires d == Driver(0, 2, 0, Some([0, 0]), false, false)
    ensures var call := Loop(Hiccup(), d, None);
            call.result == Err(Corrupt) && call.driver.pending == Some([0, 0]) && call.taken == [] && call.unadvanced == 1
  {
    assert [0, 0][1..] == [0] && [0, 0][..2] == [0, 0];
    assert Decode(Hiccup(), 1, [0]) == Decoded(2, 0, None, true);
    assert Decode(Hiccup(), 0, [0, 0]) == Decoded(2, 1, None, true);
    hide Decode;
  }

  // ---------- when the schema is lost ----------

  /**
   The push will find the schema and raise: a byte is refused with the schema found, or the schema is
   found in the first window and a whole frame and more follows without a batch.
   */
  predicate LosesSchema<S, B, C>(a: Automaton<S, B, C>, d: Driver<S>, chunk: seq<Byte>)
    requires d.pending.Some? ==> d.pending.value != []
  {
    var d0 := Decoding(d, chunk);
    && d0.Some? && a.schema(d.decoder).None?
    && var input := d0.value.pending.value; var m, reach := FirstStop(a, d.decoder, input), Reach(a, d0.value, input);
       if m < |input| && m < reach then
         a.feed(StateAt(a, d.decoder, input, m), input[m]).Stall? && a.schema(StateAt(a, d.decoder, input, m)).Some?
       else
         |input| > reach && FindsInWindow(a, d0.value, input)
  }

  lemma LossForeseen<S(!new), B, C>(a: Automaton<S, B, C>, d: Driver<S>, chunk: seq<Byte>)
    requires Lawful(a) && (d.pending.Some? ==> d.pending.value != [])
    requires Push(a, d, chunk).result != Err(Corrupt)
    ensures var call := Push(a, d, chunk);
            call.result.Err? && FoundSchema(a, d, call.driver) <==> LosesSchema(a, d, chunk)
  {
    hide Push, FirstStop, Lawful, StateAt;
    PushForeseen(a, d, chunk);
    var d0 := Decoding(d, chunk);
    if d0.Some? && a.schema(d.decoder).None? {
      FoundWhereReached(a, d0.value, d0.value.pending.value);
    }
  }

  /** Within reach of the frame limit, only the first window can have found the schema. */
  lemma FoundWhereReached<S(!new), B, C>(a: Automaton<S, B, C>, d: Driver<S>, input: seq<Byte>)
    requires Lawful(a) && d.sinceBoundary < d.maxFrameBytes && a.schema(d.decoder).None?
    ensures var m, reach := FirstStop(a, d.decoder, input), Reach(a, d, input);
            reach <= m ==> (a.schema(StateAt(a, d.decoder, input, reach)).Some? <==> FindsInWindow(a, d, input))
  {
    hide FirstStop, Lawful, StateAt;
    var m, reach, w := FirstStop(a, d.decoder, input), Reach(a, d, input), Window(d);
    if reach <= m && FindsInWindow(a, d, input) {
      StopInRest(a, d.decoder, input, w, reach - w);
      SchemaKept(a, StateAt(a, d.decoder, input, w), input[w..], reach - w);
    }
  }

  lemma SchemaKept<S(!new), B, C>(a: Automaton<S, B, C>, s: S, bytes: seq<Byte>, n: nat)
    requires Lawful(a) && n <= FirstStop(a, s, bytes)
    ensures a.schema(s).Some? ==> a.schema(StateAt(a, s, bytes, n)).Some?
  {
    hide Lawful, FirstStop, StateAt, FeedAll;
    StopFeeds(a, s, bytes, n);
    FeedSchema(a, s, bytes[..n]);
  }

  /** Some push of the run met an input that loses the schema. */
  ghost predicate LossAhead<S, B, C>(a: Automaton<S, B, C>, maxFrameBytes: nat, ops: seq<Op>)
  {
    exists i :: 0 <= i < |ops| && ops[i].PushOp? && LossAt(a, After(a, maxFrameBytes, ops[..i]).driver, ops[i].chunk)
  }

  ghost predicate LossAt<S, B, C>(a: Automaton<S, B, C>, d: Driver<S>, chunk: seq<Byte>)
  {
    (d.pending.Some? ==> d.pending.value != []) && LosesSchema(a, d, chunk)
  }

  /** The record of a lost schema is exactly what the inputs foretold. */
  lemma {:induction false} LossIsForeseen<S(!new), B, C>(a: Automaton<S, B, C>, maxFrameBytes: nat, ops: seq<Op>)
    requires Lawful(a) && maxFrameBytes > 0 && !After(a, maxFrameBytes, ops).corrupt
    ensures After(a, maxFrameBytes, ops).schemaLost <==> LossAhead(a, maxFrameBytes, ops)
  {
    hide Lawful, Inv, Record, LossAt;
    if ops != [] {
      var n := |ops| - 1;
      var before, h := ops[..n], After(a, maxFrameBytes, ops[..n]);
      CorruptStays(a, h, ops[n]);
      LossIsForeseen(a, maxFrameBytes, before);
      RunInv(a, maxFrameBytes, before);
      RecordLoss(a, h, ops[n]);
      LossAheadSnoc(a, maxFrameBytes, ops);
    }
  }

  lemma LossAheadSnoc<S, B, C>(a: Automaton<S, B, C>, maxFrameBytes: nat, ops: seq<Op>)
    requires ops != []
    ensures var n := |ops| - 1;
            LossAhead(a, maxFrameBytes, ops) <==>
              LossAhead(a, maxFrameBytes, ops[..n])
              || (ops[n].PushOp? && LossAt(a, After(a, maxFrameBytes, ops[..n]).driver, ops[n].chunk))
  {
    hide LossAt, After;
    var n := |ops| - 1;
    assert forall i :: 0 <= i < n ==> ops[..n][..i] == ops[..i];
    if i :| 0 <= i < n && ops[..n][i].PushOp? && LossAt(a, After(a, maxFrameBytes, ops[..n][..i]).driver, ops[..n][i].chunk) {
      assert ops[i].PushOp? && LossAt(a, After(a, maxFrameBytes, ops[..i]).driver, ops[i].chunk);
    }
  }

  lemma RecordLoss<S(!new), B, C>(a: Automaton<S, B, C>, h: Session<S, B, C>, op: Op)
    requires Lawful(a) && Inv(a, h) && !Record(a, h, op).corrupt
    ensures Record(a, h, op).schemaLost <==> h.schemaLost || (op.PushOp? && LossAt(a, h.driver, op.chunk))
  {
    hide Lawful, FeedAll, LosesSchema, FoundSchema, Push, BatchesSpaced, Spaced, Stuck;
    if op.PushOp? {
      NotCorrupt(a, h, Push(a, h.driver, op.chunk), Accepts(h.driver, op.chunk));
      LossForeseen(a, h.driver, op.chunk);
    }
  }

  /**
   The schema is returned exactly once after it was found, unless the input of some push lost it, which
   can be told before that push.
   */
  lemma SchemaReturnedExactly<S(!new), B, C>(a: Automaton<S, B, C>, maxFrameBytes: nat, ops: seq<Op>)
    requires Lawful(a) && maxFrameBytes > 0 && !After(a, maxFrameBytes, ops).corrupt
    ensures var h := After(a, maxFrameBytes, ops);
            && h.schemas == (if LossAhead(a, maxFrameBytes, ops) then [] else ToSeq(a.schema(h.driver.decoder)))
            && (a.schema(h.driver.decoder).Some? ==> (|h.schemas| == 1 <==> !LossAhead(a, maxFrameBytes, ops)))
  {
    hide Lawful, After, LossAhead;
    SchemaReturnedOnce(a, maxFrameBytes, ops);
    LossIsForeseen(a, maxFrameBytes, ops);
  }

  // ---------- draining ----------

  /** An empty push that does not raise leaves nothing pending, or returns a batch and shortens the input. */
  lemma EmptyPush<S(!new), B, C>(a: Automaton<S, B, C>, d: Driver<S>)
    requires Lawful(a) && !d.finished && (d.pending.Some? ==> d.pending.value != [])
    ensures var call := Push(a, d, []);
            call.result.Ok? ==>
              call.driver.pending.None?
              || (call.result.value.batch.Some? && |PendingBytes(call.driver)| < |PendingBytes(d)|)
  {
    hide Push, Lawful, FirstStop, StateAt;
    PushForeseen(a, d, []);
    PushShortens(a, d);
  }

  lemma PushShortens<S, B, C>(a: Automaton<S, B, C>, d: Driver<S>)
    requires d.pending.Some? ==> d.pending.value != []
    ensures var call := Push(a, d, []);
            call.result.Ok? && call.driver.pending.Some? ==> |PendingBytes(call.driver)| < |PendingBytes(d)|
    ensures Decoding(d, []).None? && Push(a, d, []).result.Ok? ==> Push(a, d, []).driver.pending.None?
  {
    hide Loop, Decode;
    LoopShortens(a, d, None);
    if d.pending.None? || d.sinceBoundary >= d.maxFrameBytes { LoopUnfolds(a, d, None); }
  }

  lemma {:induction false} LoopShortens<S, B, C>(a: Automaton<S, B, C>, d: Driver<S>, schema: Option<C>)
    requires d.pending.Some? ==> d.pending.value != []
    ensures var call := Loop(a, d, schema);
            call.result.Ok? && call.driver.pending.Some? ==> |PendingBytes(call.driver)| < |PendingBytes(d)|
    decreases if d.pending.Some? then 1 + |d.pending.value| else 0
  {
    hide Loop, Decode;
    LoopUnfolds(a, d, schema);
    if d.pending.Some? && d.sinceBoundary < d.maxFrameBytes {
      var input := d.pending.value;
      var window := input[..Min(d.maxFrameBytes - d.sinceBoundary, |input|)];
      var r := Decode(a, d.decoder, window);
      if !r.fault && r.batch.None? && r.consumed > 0 {
        LoopShortens(a, Consume(a, d, input, r), SeenSchema(a, d, r, schema));
      } else if !r.fault && r.batch.Some? {
        BatchTakesByte(a, d.decoder, window);
      }
    }
  }

  lemma {:induction false} BatchTakesByte<S, B, C>(a: Automaton<S, B, C>, s: S, window: seq<Byte>)
    ensures Decode(a, s, window).batch.Some? ==> Decode(a, s, window).consumed > 0
  {
  }

  function Drains(n: nat): seq<Op> { seq(n, _ => PushOp([])) }

  /** As many empty pushes as there are bytes pending drain the session, unless one of them raises. */
  lemma {:induction false} DrainingEnds<S(!new), B, C>(a: Automaton<S, B, C>, maxFrameBytes: nat, ops: seq<Op>, n: nat)
    requires Lawful(a) && maxFrameBytes > 0
    ensures var h, h' := After(a, maxFrameBytes, ops), After(a, maxFrameBytes, ops + Drains(n));
            || h'.corrupt || h'.failed || h'.driver.pending.None?
            || |PendingBytes(h'.driver)| + n <= |PendingBytes(h.driver)|
    ensures var h, h' := After(a, maxFrameBytes, ops), After(a, maxFrameBytes, ops + Drains(n));
            n >= |PendingBytes(h.driver)| ==> h'.corrupt || h'.failed || h'.driver.pending.None?
  {
    hide Lawful, Record, Inv;
    assert ops + Drains(0) == ops;
    if n > 0 {
      DrainingEnds(a, maxFrameBytes, ops, n - 1);
      var before := ops + Drains(n - 1);
      assert ops + Drains(n) == before + [PushOp([])];
      AfterSnoc(a, maxFrameBytes, before, PushOp([]));
      var m := After(a, maxFrameBytes, before);
      CorruptStays(a, m, PushOp([]));
      if !m.corrupt {
        RunInv(a, maxFrameBytes, before);
        DrainStep(a, m);
      }
    }
    var h' := After(a, maxFrameBytes, ops + Drains(n));
    if !h'.corrupt { RunInv(a, maxFrameBytes, ops + Drains(n)); PendingNotEmpty(a, h'); }
  }

  lemma PendingNotEmpty<S, B, C>(a: Automaton<S, B, C>, h: Session<S, B, C>)
    requires Inv(a, h)
    ensures h.driver.pending.Some? ==> |PendingBytes(h.driver)| > 0
  {
    hide FeedAll;
  }

  lemma DrainStep<S(!new), B, C>(a: Automaton<S, B, C>, h: Session<S, B, C>)
    requires Lawful(a) && Inv(a, h)
    ensures var h' := Record(a, h, PushOp([]));
            || h'.corrupt || h'.failed
            || (h.driver.pending.None? && h'.driver.pending.None?)
            || h'.driver.pending.None? || |PendingBytes(h'.driver)| < |PendingBytes(h.driver)|
    ensures h.failed ==> Record(a, h, PushOp([])).failed
  {
    hide Lawful, FeedAll, Push, FoundSchema, BatchesSpaced, Spaced, Stuck, SchemasOk;
    if !h.driver.finished {
      EmptyPush(a, h.driver);
      EmptyPushErrors(a, h.driver);
    } else {
      FinishedPush(a, h.driver);
    }
  }

  lemma EmptyPushErrors<S, B, C>(a: Automaton<S, B, C>, d: Driver<S>)
    requires !d.finished
    ensures var call := Push(a, d, []); call.result.Err? ==> call.result.error in {Corrupt, FrameTooLarge, NoProgress}
  {
    hide Loop;
    LoopErrors(a, d, None);
  }

  lemma FinishedPush<S, B, C>(a: Automaton<S, B, C>, d: Driver<S>)
    requires d.finished
    ensures Push(a, d, []).driver == d
  {
  }
}
