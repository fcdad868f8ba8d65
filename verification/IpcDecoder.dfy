/**
 The windowed driver around the Arrow IPC stream decoder (python/src/ipc.rs, `PyIpcDecoder`).

 The stream decoder itself is taken as a deterministic byte automaton that stops right after a
 record batch.
 */
module IpcDecoder {
  import opened Wrappers
  import opened Numbers

  /** What the automaton does with one byte: take it, leave it, or report a malformed stream. */
  datatype Feed<+S, +B> = Advance(state: S, batch: Option<B>) | Stall | Fault(poisoned: S)

  datatype Automaton<!S, !B, !C> = Automaton(
    init: S, feed: (S, Byte) -> Feed<S, B>, schema: S -> Option<C>, mayFinish: S -> bool)

  /** One call of the stream decoder on a window. */
  datatype Decoded<+S, +B> = Decoded(state: S, consumed: nat, batch: Option<B>, fault: bool)

  function Decode<S, B, C>(a: Automaton<S, B, C>, s: S, window: seq<Byte>): (r: Decoded<S, B>)
    ensures r.consumed <= |window|
  {
    if window == [] then Decoded(s, 0, None, false)
    else
      match a.feed(s, window[0])
      case Stall => Decoded(s, 0, None, false)
      case Fault(poisoned) => Decoded(poisoned, 0, None, true)
      case Advance(s', batch) =>
        if batch.Some? then Decoded(s', 1, batch, false)
        else
          var rest := Decode(a, s', window[1..]);
          rest.(consumed := rest.consumed + 1)
  }

  datatype Error = AlreadyFinished | MustDrain | FrameTooLarge | NoProgress | Corrupt | Unconsumed | Unfinished

  datatype Pushed<+B, +C> = Pushed(schema: Option<C>, batch: Option<B>, buffered: bool)

  datatype Driver<+S> = Driver(
    decoder: S, maxFrameBytes: nat, sinceBoundary: nat, pending: Option<seq<Byte>>, schemaEmitted: bool, finished: bool)

  /**
   The outcome of a call: the new state, the result, the bytes the decoder took, after how many of
   them the last boundary (a batch, or the window that found the schema) was, and how many bytes of
   the input left pending the decoder had taken when it found the stream malformed.
   */
  datatype Call<+S, +B, +C> = Call(
    driver: Driver<S>, result: Result<Pushed<B, C>, Error>, taken: seq<Byte>, boundary: Option<nat>, unadvanced: nat)

  function Rest(input: seq<Byte>, consumed: nat): (r: Option<seq<Byte>>)
    requires consumed <= |input|
  {
    if consumed == |input| then None else Some(input[consumed..])
  }

  predicate FindsSchema<S, B, C>(a: Automaton<S, B, C>, d: Driver<S>, r: Decoded<S, B>)
  {
    a.schema(d.decoder).None? && a.schema(r.state).Some?
  }

  /** The state after a window that did not fault. */
  function Consume<S, B, C>(a: Automaton<S, B, C>, d: Driver<S>, input: seq<Byte>, r: Decoded<S, B>): Driver<S>
    requires r.consumed <= |input|
  {
    var newSchema := FindsSchema(a, d, r);
    d.(decoder := r.state,
       pending := Rest(input, r.consumed),
       sinceBoundary := if newSchema || r.batch.Some? then 0 else d.sinceBoundary + r.consumed,
       schemaEmitted := d.schemaEmitted || newSchema)
  }

  function SeenSchema<S, B, C>(a: Automaton<S, B, C>, d: Driver<S>, r: Decoded<S, B>, schema: Option<C>): Option<C>
  {
    if FindsSchema(a, d, r) && !d.schemaEmitted then a.schema(r.state) else schema
  }

  /** The decoding loop; `schema` is what this call has seen so far. */
  function Loop<S, B, C>(a: Automaton<S, B, C>, d: Driver<S>, schema: Option<C>): Call<S, B, C>
    decreases if d.pending.Some? then 1 + |d.pending.value| else 0
  {
    if d.pending.None? then Call(d, Ok(Pushed(schema, None, false)), [], None, 0)
    else if d.sinceBoundary >= d.maxFrameBytes then Call(d, Err(FrameTooLarge), [], None, 0)
    else
      var input := d.pending.value;
      var r := Decode(a, d.decoder, input[..Min(d.maxFrameBytes - d.sinceBoundary, |input|)]);
      if r.fault then Call(d.(decoder := r.state), Err(Corrupt), [], None, r.consumed)
      else
        var d' := Consume(a, d, input, r);
        var schema' := SeenSchema(a, d, r, schema);
        if r.batch.Some? then Call(d', Ok(Pushed(schema', r.batch, d'.pending.Some?)), input[..r.consumed], Some(r.consumed), 0)
        else if r.consumed == 0 then Call(d', Err(NoProgress), [], if FindsSchema(a, d, r) then Some(0) else None, 0)
        else
          var rest := Loop(a, d', schema');
          rest.(taken := input[..r.consumed] + rest.taken,
                boundary := if rest.boundary.Some? then Some(r.consumed + rest.boundary.value)
                            else if FindsSchema(a, d, r) then Some(r.consumed) else None)
  }

  /** One turn of the loop. */
  lemma LoopUnfolds<S, B, C>(a: Automaton<S, B, C>, d: Driver<S>, schema: Option<C>)
    ensures var call := Loop(a, d, schema);
            if d.pending.None? then call.driver == d && call.result == Ok(Pushed(schema, None, false))
            else if d.sinceBoundary >= d.maxFrameBytes then call.driver == d && call.result == Err(FrameTooLarge)
            else
              var input := d.pending.value;
              var r := Decode(a, d.decoder, input[..Min(d.maxFrameBytes - d.sinceBoundary, |input|)]);
              var d', schema' := Consume(a, d, input, r), SeenSchema(a, d, r, schema);
              if r.fault then call.driver == d.(decoder := r.state) && call.result == Err(Corrupt)
              else if r.batch.Some? then call.driver == d' && call.result == Ok(Pushed(schema', r.batch, d'.pending.Some?))
              else if r.consumed == 0 then call.driver == d' && call.result == Err(NoProgress)
              else call.driver == Loop(a, d', schema').driver && call.result == Loop(a, d', schema').result
  {
    hide Decode;
  }

  function Push<S, B, C>(a: Automaton<S, B, C>, d: Driver<S>, chunk: seq<Byte>): Call<S, B, C>
  {
    if d.finished then Call(d, Err(AlreadyFinished), [], None, 0)
    else if chunk != [] && d.pending.Some? then Call(d, Err(MustDrain), [], None, 0)
    else Loop(a, if chunk != [] then d.(pending := Some(chunk)) else d, None)
  }

  datatype Finish<+S> = Finish(driver: Driver<S>, result: Result<(), Error>)

  function FinishStep<S, B, C>(a: Automaton<S, B, C>, d: Driver<S>): Finish<S>
  {
    if d.finished then Finish(d, Ok(()))
    else if d.pending.Some? then Finish(d, Err(Unconsumed))
    else if !a.mayFinish(d.decoder) then Finish(d, Err(Unfinished))
    else Finish(d.(finished := true), Ok(()))
  }

  function NewDriver<S, B, C>(a: Automaton<S, B, C>, maxFrameBytes: nat): Driver<S>
  {
    Driver(a.init, maxFrameBytes, 0, None, false, false)
  }

  class PyIpcDecoder<S, B, C> {
    const automaton: Automaton<S, B, C>
    const maxFrameBytes: nat
    var decoder: S
    var sinceBoundary: nat
    var pending: Option<seq<Byte>>
    var schemaEmitted: bool
    var finished: bool

    function State(): Driver<S>
      reads this
    {
      Driver(decoder, maxFrameBytes, sinceBoundary, pending, schemaEmitted, finished)
    }

    constructor (automaton: Automaton<S, B, C>, maxFrameBytes: nat)
      requires maxFrameBytes > 0
      ensures this.automaton == automaton && State() == NewDriver(automaton, maxFrameBytes)
    {
      this.automaton, this.maxFrameBytes := automaton, maxFrameBytes;
      decoder, sinceBoundary, pending, schemaEmitted, finished := automaton.init, 0, None, false, false;
    }

    method PushChunk(chunk: seq<Byte>) returns (result: Result<Pushed<B, C>, Error>)
      modifies this
      ensures var call := Push(automaton, old(State()), chunk);
              result == call.result && State() == call.driver
    {
      if finished { return Err(AlreadyFinished); }
      result := DecodeNext(chunk);
    }

    method DecodeNext(chunk: seq<Byte>) returns (result: Result<Pushed<B, C>, Error>)
      requires !finished
      modifies this
      ensures var call := Push(automaton, old(State()), chunk);
              result == call.result && State() == call.driver
    {
      hide Decode, Loop, Consume, SeenSchema;
      if chunk != [] {
        if pending.Some? { return Err(MustDrain); }
        pending := Some(chunk);
      }
      ghost var all := Loop(automaton, State(), None);
      var schema: Option<C> := None;
      while pending.Some?
        invariant Loop(automaton, State(), schema).driver == all.driver
        invariant Loop(automaton, State(), schema).result == all.result
        decreases if pending.Some? then 1 + |pending.value| else 0
      {
        LoopUnfolds(automaton, State(), schema);
        if sinceBoundary >= maxFrameBytes { return Err(FrameTooLarge); }
        var input := pending.value;
        var take := Min(maxFrameBytes - sinceBoundary, |input|);
        var r := Decode(automaton, decoder, input[..take]);
        if r.fault {
          decoder := r.state;
          return Err(Corrupt);
        }
        schema := AfterWindow(input, r, schema);
        if r.batch.Some? { return Ok(Pushed(schema, r.batch, pending.Some?)); }
        if r.consumed == 0 { return Err(NoProgress); }
      }
      LoopUnfolds(automaton, State(), schema);
      return Ok(Pushed(schema, None, false));
    }

    /** The bookkeeping after a window, up to the test for a batch. */
    method AfterWindow(input: seq<Byte>, r: Decoded<S, B>, seen: Option<C>) returns (schema: Option<C>)
      requires pending == Some(input) && r.consumed <= |input|
      modifies this
      ensures State() == Consume(automaton, old(State()), input, r)
      ensures pending == Rest(input, r.consumed)
      ensures schema == SeenSchema(automaton, old(State()), r, seen)
    {
      schema := seen;
      var hadSchema := automaton.schema(decoder).Some?;
      decoder := r.state;
      sinceBoundary := sinceBoundary + r.consumed;
      pending := if r.consumed == |input| then None else Some(input[r.consumed..]);
      if !hadSchema && automaton.schema(decoder).Some? {
        sinceBoundary := 0;
        if !schemaEmitted {
          schema := automaton.schema(decoder);
          schemaEmitted := true;
        }
      }
      if r.batch.Some? { sinceBoundary := 0; }
    }

    method FinishStream() returns (result: Result<(), Error>)
      modifies this
      ensures var f := FinishStep(automaton, old(State()));
              result == f.result && State() == f.driver
    {
      if finished { return Ok(()); }
      if pending.Some? { return Err(Unconsumed); }
      if !automaton.mayFinish(decoder) { return Err(Unfinished); }
      finished := true;
      return Ok(());
    }
  }
}
