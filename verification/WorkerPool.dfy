/**
 The bounded worker pool of a query (browser/src/index.ts, `mapConcurrent`). Workers share the
 counter `next`; between suspensions a worker runs atomically.
 */
module WorkerPool {
  import opened Wrappers
  import opened Sequences
  import opened Numbers

  /** A worker stands at its loop head, awaits a mapper call, has returned, or has thrown. */
  datatype Worker = Ready | Awaiting(position: nat) | Returned | Thrown(position: nat)

  /** `calls` records the positions the mapper was called for, in order. */
  datatype Pool<U> = Pool(next: nat, workers: seq<Worker>, results: seq<Option<U>>, calls: seq<nat>)

  datatype Event = Resume(worker: nat) | Resolve(worker: nat) | Reject(worker: nat)

  function Start<T, U>(values: seq<T>, concurrency: nat): Pool<U>
  {
    Pool(0, seq(Min(concurrency, |values|), _ => Ready), seq(|values|, _ => None), [])
  }

  predicate Enabled<U>(p: Pool<U>, ev: Event)
  {
    && ev.worker < |p.workers|
    && match ev {
         case Resume(w) => p.workers[w].Ready?
         case Resolve(w) => p.workers[w].Awaiting? && p.workers[w].position < |p.results|
         case Reject(w) => p.workers[w].Awaiting?
       }
  }

  function Step<T, U>(p: Pool<U>, ev: Event, values: seq<T>, mapper: T -> U): Pool<U>
    requires Enabled(p, ev) && |p.results| == |values|
  {
    var w := ev.worker;
    match ev
    case Resume(_) =>
      if p.next < |values| then
        p.(next := p.next + 1, workers := p.workers[w := Awaiting(p.next)], calls := p.calls + [p.next])
      else p.(workers := p.workers[w := Returned])
    case Resolve(_) =>
      var position := p.workers[w].position;
      p.(workers := p.workers[w := Ready], results := p.results[position := Some(mapper(values[position]))])
    case Reject(_) =>
      p.(workers := p.workers[w := Thrown(p.workers[w].position)])
  }

  /** The pool after the enabled events among `events`, in order. */
  function After<T, U>(values: seq<T>, concurrency: nat, mapper: T -> U, events: seq<Event>): (p: Pool<U>)
    ensures |p.results| == |values|
  {
    if events == [] then Start(values, concurrency)
    else
      var n := |events| - 1;
      var p := After(values, concurrency, mapper, events[..n]);
      if Enabled(p, events[n]) then Step(p, events[n], values, mapper) else p
  }

  /** A worker holds a position while it awaits it, and for good if the mapper threw on it. */
  predicate Holds(w: Worker, position: int)
  {
    (w.Awaiting? || w.Thrown?) && w.position == position
  }

  ghost predicate Held(workers: seq<Worker>, position: int)
  {
    exists w :: 0 <= w < |workers| && Holds(workers[w], position)
  }

  /** The mapper was called for 0, 1, ..., next - 1, once each. */
  ghost predicate CallsInOrder<U>(p: Pool<U>)
  {
    |p.calls| == p.next && forall i :: 0 <= i < p.next ==> p.calls[i] == i
  }

  /** Positions held by workers were started, and each is held by one worker only. */
  ghost predicate HeldApart<U>(p: Pool<U>)
  {
    && (forall w, position :: 0 <= w < |p.workers| && Holds(p.workers[w], position) ==> position < p.next)
    && (forall v, w, position :: 0 <= v < |p.workers| && 0 <= w < |p.workers| && Holds(p.workers[v], position) && Holds(p.workers[w], position) ==> v == w)
  }

  /** A started position is either held or done, never both, and done means mapped. */
  ghost predicate ResultsRight<T, U>(p: Pool<U>, values: seq<T>, mapper: T -> U)
  {
    && |p.results| == |values|
    && (forall i :: 0 <= i < |values| ==> (p.results[i].Some? <==> i < p.next && !Held(p.workers, i)))
    && (forall i :: 0 <= i < |values| && p.results[i].Some? ==> p.results[i].value == mapper(values[i]))
  }

  ghost predicate Inv<T, U>(p: Pool<U>, values: seq<T>, concurrency: nat, mapper: T -> U)
  {
    && p.next <= |values|
    && |p.workers| == Min(concurrency, |values|)
    && CallsInOrder(p) && HeldApart(p) && ResultsRight(p, values, mapper)
    && (forall w :: 0 <= w < |p.workers| && p.workers[w].Returned? ==> p.next == |values|)
  }

  lemma StepInv<T, U>(p: Pool<U>, ev: Event, values: seq<T>, concurrency: nat, mapper: T -> U)
    requires Inv(p, values, concurrency, mapper) && Enabled(p, ev)
    ensures Inv(Step(p, ev, values, mapper), values, concurrency, mapper)
  {
    StepHeldApart(p, ev, values, mapper);
    StepResults(p, ev, values, mapper);
  }

  lemma StepHeldApart<T, U>(p: Pool<U>, ev: Event, values: seq<T>, mapper: T -> U)
    requires HeldApart(p) && Enabled(p, ev) && |p.results| == |values|
    ensures HeldApart(Step(p, ev, values, mapper))
  {
    var p', w := Step(p, ev, values, mapper), ev.worker;
    forall v, position | 0 <= v < |p'.workers| && Holds(p'.workers[v], position)
      ensures position < p'.next
      ensures Holds(p.workers[v], position) || (v == w && position == p.next)
    {
      assert v != w || ev.Reject? ==> Holds(p.workers[v], position);
    }
  }

  lemma StepResults<T, U>(p: Pool<U>, ev: Event, values: seq<T>, mapper: T -> U)
    requires HeldApart(p) && ResultsRight(p, values, mapper) && Enabled(p, ev)
    ensures ResultsRight(Step(p, ev, values, mapper), values, mapper)
  {
    hide Held;
    var p', w := Step(p, ev, values, mapper), ev.worker;
    forall i | 0 <= i < |values| ensures p'.results[i].Some? <==> i < p'.next && !Held(p'.workers, i) {
      OneWorkerChanges(p, w, p'.workers[w], i);
      assert p.results[i].Some? <==> i < p.next && !Held(p.workers, i);
      assert Holds(p.workers[w], i) ==> i < p.next;
    }
  }

  lemma OneWorkerChanges<U>(p: Pool<U>, w: nat, worker: Worker, i: int)
    requires HeldApart(p) && w < |p.workers|
    ensures Holds(p.workers[w], i) ==> Held(p.workers, i)
    ensures Held(p.workers[w := worker], i) <==> Holds(worker, i) || (Held(p.workers, i) && !Holds(p.workers[w], i))
  {
    var after := p.workers[w := worker];
    if Holds(worker, i) { assert Holds(after[w], i); }
    if Held(p.workers, i) && !Holds(p.workers[w], i) {
      var v :| 0 <= v < |p.workers| && Holds(p.workers[v], i);
      assert Holds(after[v], i);
    }
    if Held(after, i) {
      var v :| 0 <= v < |after| && Holds(after[v], i);
      assert v != w ==> Holds(p.workers[v], i);
    }
  }

  /** Under every interleaving the pool keeps its positions apart and its results right. */
  lemma {:induction false} RunInv<T, U>(values: seq<T>, concurrency: nat, mapper: T -> U, events: seq<Event>)
    ensures Inv(After(values, concurrency, mapper, events), values, concurrency, mapper)
  {
    if events == [] {
      assert forall i :: !Held(Start<T, U>(values, concurrency).workers, i);
    } else {
      var n := |events| - 1;
      RunInv(values, concurrency, mapper, events[..n]);
      var p := After(values, concurrency, mapper, events[..n]);
      if Enabled(p, events[n]) { StepInv(p, events[n], values, concurrency, mapper); }
    }
  }

  ghost function InFlight<U>(p: Pool<U>): set<int>
  {
    AwaitedBy(p.workers)
  }

  ghost function AwaitedBy(workers: seq<Worker>): set<int>
  {
    set w | 0 <= w < |workers| && workers[w].Awaiting? :: workers[w].position as int
  }

  ghost function Done<U>(p: Pool<U>): set<int>
  {
    set i | 0 <= i < |p.results| && p.results[i].Some? :: i
  }

  ghost function Lost<U>(p: Pool<U>): set<int>
  {
    set w | 0 <= w < |p.workers| && p.workers[w].Thrown? :: p.workers[w].position as int
  }

  /** The started positions are 0..next-1, split into in flight, done and failed; at most `concurrency` are in flight. */
  lemma StartedPositions<T, U>(values: seq<T>, concurrency: nat, mapper: T -> U, events: seq<Event>)
    ensures var p := After(values, concurrency, mapper, events);
            && InFlight(p) + Done(p) + Lost(p) == Interval(0, p.next)
            && InFlight(p) !! Done(p) !! Lost(p)
            && |InFlight(p)| <= concurrency
            && p.calls == seq(p.next, i => i)
  {
    hide After, Inv, InFlight, Done, Lost;
    RunInv(values, concurrency, mapper, events);
    var p := After(values, concurrency, mapper, events);
    forall i
      ensures i in InFlight(p) || i in Done(p) || i in Lost(p) <==> 0 <= i < p.next
      ensures !(i in InFlight(p) && i in Done(p)) && !(i in InFlight(p) && i in Lost(p)) && !(i in Done(p) && i in Lost(p))
    {
      PositionState(p, values, concurrency, mapper, i);
    }
    InFlightWithinConcurrency(p, values, concurrency, mapper);
  }

  lemma PositionState<T, U>(p: Pool<U>, values: seq<T>, concurrency: nat, mapper: T -> U, i: int)
    requires Inv(p, values, concurrency, mapper)
    ensures i in InFlight(p) || i in Done(p) || i in Lost(p) <==> 0 <= i < p.next
    ensures !(i in InFlight(p) && i in Done(p)) && !(i in InFlight(p) && i in Lost(p)) && !(i in Done(p) && i in Lost(p))
  {
    HeldSets(p, i);
    hide InFlight, Lost;
    assert Held(p.workers, i) ==> 0 <= i < p.next;
  }

  lemma InFlightWithinConcurrency<T, U>(p: Pool<U>, values: seq<T>, concurrency: nat, mapper: T -> U)
    requires Inv(p, values, concurrency, mapper)
    ensures |InFlight(p)| <= concurrency
    ensures p.calls == seq(p.next, i => i)
  {
    InFlightBound(p.workers);
  }

  lemma HeldSets<U>(p: Pool<U>, i: int)
    ensures i in InFlight(p) + Lost(p) <==> Held(p.workers, i)
    ensures i in InFlight(p) <==> exists w :: 0 <= w < |p.workers| && Holds(p.workers[w], i) && p.workers[w].Awaiting?
    ensures i in Lost(p) <==> exists w :: 0 <= w < |p.workers| && Holds(p.workers[w], i) && p.workers[w].Thrown?
  {
    if Held(p.workers, i) {
      var w :| 0 <= w < |p.workers| && Holds(p.workers[w], i);
      assert p.workers[w].Awaiting? ==> i in InFlight(p);
      assert p.workers[w].Thrown? ==> i in Lost(p);
    }
    if i in InFlight(p) {
      var w :| 0 <= w < |p.workers| && p.workers[w].Awaiting? && p.workers[w].position == i;
      assert Holds(p.workers[w], i);
    }
    if i in Lost(p) {
      var w :| 0 <= w < |p.workers| && p.workers[w].Thrown? && p.workers[w].position == i;
      assert Holds(p.workers[w], i);
    }
  }

  lemma {:induction false} InFlightBound(workers: seq<Worker>)
    ensures |AwaitedBy(workers)| <= |workers|
  {
    if workers == [] {
      assert AwaitedBy(workers) == {};
    } else {
      var n := |workers| - 1;
      InFlightBound(workers[..n]);
      var last := if workers[n].Awaiting? then {workers[n].position as int} else {};
      forall x ensures x in AwaitedBy(workers) <==> x in AwaitedBy(workers[..n]) + last {
        if x in AwaitedBy(workers[..n]) {
          var w :| 0 <= w < n && workers[..n][w].Awaiting? && workers[..n][w].position == x;
          assert workers[w].Awaiting? && workers[w].position == x;
        }
        if x in AwaitedBy(workers) {
          var w :| 0 <= w < |workers| && workers[w].Awaiting? && workers[w].position == x;
          assert w < n ==> workers[..n][w].Awaiting? && workers[..n][w].position == x;
        }
      }
      assert AwaitedBy(workers) == AwaitedBy(workers[..n]) + last;
    }
  }

  ghost predicate AllReturned<U>(p: Pool<U>)
  {
    forall w :: 0 <= w < |p.workers| ==> p.workers[w].Returned?
  }

  /** When every worker returned, each value was mapped exactly once and stands at its own position. */
  lemma Completion<T, U>(values: seq<T>, concurrency: nat, mapper: T -> U, events: seq<Event>)
    requires concurrency > 0
    requires AllReturned(After(values, concurrency, mapper, events))
    ensures var p := After(values, concurrency, mapper, events);
            && p.calls == seq(|values|, i => i)
            && p.results == seq(|values|, i requires 0 <= i < |values| => Some(mapper(values[i])))
  {
    RunInv(values, concurrency, mapper, events);
    var p := After(values, concurrency, mapper, events);
    if |values| > 0 { assert p.workers[0].Returned?; }
    assert p.next == |values|;
    forall i | 0 <= i < |values| ensures p.results[i] == Some(mapper(values[i])) {
      assert !Held(p.workers, i);
    }
  }

  /** Every worker has returned or thrown. */
  ghost predicate Settled<U>(p: Pool<U>)
  {
    forall w :: 0 <= w < |p.workers| ==> p.workers[w].Returned? || p.workers[w].Thrown?
  }

  /** Until then some worker can take a step. */
  lemma Progress<T, U>(values: seq<T>, concurrency: nat, mapper: T -> U, events: seq<Event>) returns (ev: Event)
    requires !Settled(After(values, concurrency, mapper, events))
    ensures Enabled(After(values, concurrency, mapper, events), ev) && !ev.Reject?
  {
    RunInv(values, concurrency, mapper, events);
    var p := After(values, concurrency, mapper, events);
    var w :| 0 <= w < |p.workers| && !p.workers[w].Returned? && !p.workers[w].Thrown?;
    if p.workers[w].Awaiting? {
      assert Holds(p.workers[w], p.workers[w].position);
      ev := Resolve(w);
    } else {
      ev := Resume(w);
    }
  }

  // ---------- every run comes to rest ----------

  /** The steps a worker has left before it needs a new position. */
  ghost function Steps(w: Worker): int
  {
    match w
    case Awaiting(_) => 2
    case Ready => 1
    case _ => 0
  }

  /** What is left to do: two steps for each position not started, and those of the workers. */
  ghost function Work<U>(p: Pool<U>): int
  {
    2 * (|p.results| - p.next) + Sum(p.workers, Steps)
  }

  lemma WorkNatural<T, U>(p: Pool<U>, values: seq<T>, concurrency: nat, mapper: T -> U)
    requires Inv(p, values, concurrency, mapper)
    ensures Work(p) >= 0
  {
    StepsNatural(p.workers);
  }

  lemma {:induction false} StepsNatural(workers: seq<Worker>)
    ensures 0 <= Sum(workers, Steps) <= 2 * |workers|
    ensures (forall w :: 0 <= w < |workers| ==> workers[w].Ready?) ==> Sum(workers, Steps) == |workers|
  {
    if workers != [] { StepsNatural(workers[1..]); }
  }

  lemma WorkDecreases<T, U>(p: Pool<U>, ev: Event, values: seq<T>, mapper: T -> U)
    requires Enabled(p, ev) && |p.results| == |values|
    ensures Work(Step(p, ev, values, mapper)) < Work(p)
  {
    hide Sum;
    SumUpdate(p.workers, ev.worker, Step(p, ev, values, mapper).workers[ev.worker], Steps);
  }

  /** Events that can all happen one after the other. */
  ghost predicate Moves<T(!new), U(!new)>(values: seq<T>, concurrency: nat, mapper: T -> U, events: seq<Event>)
  {
    forall i :: 0 <= i < |events| ==> Enabled(After(values, concurrency, mapper, events[..i]), events[i])
  }

  /** A run has at most two events for each value and one for each worker. */
  lemma {:induction false} RunsEnd<T(!new), U(!new)>(values: seq<T>, concurrency: nat, mapper: T -> U, events: seq<Event>)
    requires Moves(values, concurrency, mapper, events)
    ensures |events| + Work(After(values, concurrency, mapper, events)) <= 2 * |values| + Min(concurrency, |values|)
    ensures |events| <= 2 * |values| + Min(concurrency, |values|)
  {
    RunInv(values, concurrency, mapper, events);
    WorkNatural(After(values, concurrency, mapper, events), values, concurrency, mapper);
    hide Work, Step, Inv;
    if events == [] {
      StartWork(values, concurrency, mapper);
    } else {
      var n := |events| - 1;
      var before := events[..n];
      assert forall i :: 0 <= i < n ==> before[..i] == events[..i];
      RunsEnd(values, concurrency, mapper, before);
      WorkDecreases(After(values, concurrency, mapper, before), events[n], values, mapper);
    }
  }

  lemma StartWork<T, U>(values: seq<T>, concurrency: nat, mapper: T -> U)
    ensures Work(After(values, concurrency, mapper, [])) == 2 * |values| + Min(concurrency, |values|)
  {
    hide Sum;
    StepsNatural(After(values, concurrency, mapper, []).workers);
  }

  lemma OneMore<T(!new), U(!new)>(values: seq<T>, concurrency: nat, mapper: T -> U, events: seq<Event>, ev: Event)
    requires Moves(values, concurrency, mapper, events) && Enabled(After(values, concurrency, mapper, events), ev)
    ensures Moves(values, concurrency, mapper, events + [ev])
    ensures After(values, concurrency, mapper, events + [ev]) == Step(After(values, concurrency, mapper, events), ev, values, mapper)
  {
    hide Step, Enabled;
    var longer := events + [ev];
    assert longer[..|events|] == events;
    assert forall i :: 0 <= i < |events| ==> longer[..i] == events[..i];
  }

  /** Every run can be completed, without the mapper throwing, until all workers have returned or thrown. */
  lemma {:induction false} RunToRest<T(!new), U(!new)>(values: seq<T>, concurrency: nat, mapper: T -> U, events: seq<Event>)
    returns (all: seq<Event>)
    requires Moves(values, concurrency, mapper, events)
    ensures events <= all && Moves(values, concurrency, mapper, all) && Settled(After(values, concurrency, mapper, all))
    ensures forall i :: |events| <= i < |all| ==> !all[i].Reject?
    decreases Work(After(values, concurrency, mapper, events))
  {
    hide Work, Step, Inv, After, Settled, Moves, Enabled;
    var p := After(values, concurrency, mapper, events);
    if Settled(p) {
      all := events;
    } else {
      var ev := Progress(values, concurrency, mapper, events);
      var longer := events + [ev];
      OneMore(values, concurrency, mapper, events, ev);
      WorkDecreases(p, ev, values, mapper);
      RunInv(values, concurrency, mapper, longer);
      WorkNatural(After(values, concurrency, mapper, longer), values, concurrency, mapper);
      all := RunToRest(values, concurrency, mapper, longer);
    }
  }

  lemma {:induction false} NoneThrown<T, U>(values: seq<T>, concurrency: nat, mapper: T -> U, events: seq<Event>)
    requires forall i :: 0 <= i < |events| ==> !events[i].Reject?
    ensures forall w :: 0 <= w < |After(values, concurrency, mapper, events).workers| ==>
              !After(values, concurrency, mapper, events).workers[w].Thrown?
  {
    if events != [] { NoneThrown(values, concurrency, mapper, events[..|events| - 1]); }
  }

  /**
   A run in which no event can follow has settled; if the mapper never threw, all workers have returned
   and every result is in place.
   */
  lemma RestIsCompletion<T(!new), U(!new)>(values: seq<T>, concurrency: nat, mapper: T -> U, events: seq<Event>)
    requires concurrency > 0
    requires forall ev :: !Enabled(After(values, concurrency, mapper, events), ev)
    ensures Settled(After(values, concurrency, mapper, events))
    ensures (forall i :: 0 <= i < |events| ==> !events[i].Reject?) ==>
              && AllReturned(After(values, concurrency, mapper, events))
              && After(values, concurrency, mapper, events).results
                 == seq(|values|, i requires 0 <= i < |values| => Some(mapper(values[i])))
  {
    hide After;
    var p := After(values, concurrency, mapper, events);
    if !Settled(p) {
      var ev := Progress(values, concurrency, mapper, events);
    }
    if forall i :: 0 <= i < |events| ==> !events[i].Reject? {
      NoneThrown(values, concurrency, mapper, events);
      Completion(values, concurrency, mapper, events);
    }
  }
}
