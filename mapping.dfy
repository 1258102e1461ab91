/**
 * The ordered convenience layer over the executor: `map` and `map_array`
 * consume their futures in submission order and hand the results on as a
 * generator. A generator is modelled by what it yields before it stops and
 * by the remote exception, if any, that it raises at that point.
 */
module Mapping {
  import opened Sequences
  import opened Artifacts
  import opened Futures
  import opened Batching

  /** The values a generator yields, then the exception it raises (or `None` when it runs out). */
  datatype Yield<T> = Yield(values: seq<T>, raised: Option<RemoteException>)

  /**
   * What `map_array` yields: with a batch size of one, each slot's result as
   * it is; otherwise the slot results flattened into one stream.
   */
  datatype ArrayYield<T> = PerSlot(slots: Yield<seq<T>>) | Flattened(items: Yield<T>)

  /** Every future has been resolved, so `fut.result()` returns or raises at once. */
  predicate Resolved<T>(states: seq<FutureState<T>>)
  {
    forall i :: 0 <= i < |states| ==> !states[i].Pending?
  }

  /** The states of the given futures, in order. */
  function States<T>(futs: seq<Future<T>>): (r: seq<FutureState<T>>)
    reads futs
    ensures |r| == |futs| && forall i :: 0 <= i < |futs| ==> r[i] == futs[i].state
  {
    seq(|futs|, i requires 0 <= i < |futs| reads futs => futs[i].state)
  }

  /**
   * `for fut in futs: yield fut.result()`: the results in submission order,
   * up to the first future that failed, whose exception the generator raises.
   */
  function Ordered<T>(states: seq<FutureState<T>>): (r: Yield<T>)
    requires Resolved(states)
    ensures r.raised.None? <==> forall i :: 0 <= i < |states| ==> states[i].Ok?
    ensures r.raised.None? ==> |r.values| == |states|
    ensures r.raised.Some? ==> |r.values| < |states| && states[|r.values|] == Err(r.raised.value)
    ensures forall i :: 0 <= i < |r.values| ==> states[i] == Ok(r.values[i])
  {
    if states == [] then Yield([], None)
    else match states[0]
      case Ok(v) =>
        var rest := Ordered(states[1..]);
        Yield([v] + rest.values, rest.raised)
      case Err(e) => Yield([], Some(e))
  }

  /** The values of futures that all succeeded. */
  function Values<T>(states: seq<FutureState<T>>): (r: seq<T>)
    requires forall i :: 0 <= i < |states| ==> states[i].Ok?
    ensures |r| == |states| && forall i :: 0 <= i < |states| ==> states[i] == Ok(r[i])
  {
    seq(|states|, i requires 0 <= i < |states| && states[i].Ok? => states[i].value)
  }

  /**
   * `results.append(list(fut.result()))` for every future, then
   * `yield from chain(*results)`: nothing is yielded before every batch is in,
   * and a failed batch raises before anything is yielded.
   */
  function Chained<T>(states: seq<FutureState<seq<T>>>): (r: Yield<T>)
    requires Resolved(states)
    ensures r.raised.None? <==> forall i :: 0 <= i < |states| ==> states[i].Ok?
    ensures r.raised.None? ==> r.values == Concat(Values(states))
    ensures r.raised.Some? ==> r.values == [] && r.raised == Ordered(states).raised
  {
    if states == [] then Yield([], None)
    else match states[0]
      case Err(e) => Yield([], Some(e))
      case Ok(vs) =>
        var rest := Chained(states[1..]);
        if rest.raised.Some? then rest
        else
          assert Values(states)[1..] == Values(states[1..]);
          Yield(vs + rest.values, None)
  }

  /**
   * The ordered case of `map_array`: the branch on `batch_size` inside the
   * loop, and the flattening after it, which only a batch size above one
   * reaches.
   */
  function ArrayOrdered<T>(batchSize: int, states: seq<FutureState<seq<T>>>): (r: ArrayYield<T>)
    requires Resolved(states)
    ensures batchSize == 1 <==> r.PerSlot?
    ensures batchSize == 1 ==> r.slots == Ordered(states)
    ensures batchSize > 1 ==> r.items == Chained(states)
    ensures batchSize < 1 ==> r.items == Yield([], Ordered(states).raised)
  {
    if batchSize == 1 then PerSlot(Ordered(states))
    else if batchSize > 1 then Flattened(Chained(states))
    else Flattened(Yield([], Chained(states).raised))
  }

  /** `f` applied to each element, in order. */
  function Apply<X, T>(f: X -> T, xs: seq<X>): (r: seq<T>)
    ensures |r| == |xs| && forall i :: 0 <= i < |xs| ==> r[i] == f(xs[i])
  {
    seq(|xs|, i requires 0 <= i < |xs| => f(xs[i]))
  }

  /**
   * `map` keeps submission order: when the job for each argument returned
   * `f(arg)`, the generator yields `f` of every argument, in argument order,
   * and raises nothing, whatever order the jobs finished in.
   */
  lemma MapKeepsOrder<X, T>(f: X -> T, args: seq<X>, states: seq<FutureState<T>>)
    requires |states| == |args|
    requires forall i :: 0 <= i < |args| ==> states[i] == Ok(f(args[i]))
    ensures Resolved(states)
    ensures Ordered(states) == Yield(Apply(f, args), None)
  {
    var r := Ordered(states);
    assert |r.values| == |args|;
    assert forall i :: 0 <= i < |args| ==> r.values[i] == f(args[i]) by {
      forall i | 0 <= i < |args|
        ensures r.values[i] == f(args[i])
      {
        assert states[i] == Ok(r.values[i]);
      }
    }
  }

  /**
   * Squaring over `range(4)` with the module's own `map` yields 0, 1, 4, 9,
   * in that order, whatever order the jobs finished in. (The test suite's
   * `executor.map` is the standard library's `Executor.map`, which this
   * model does not cover; the scenario is the same.)
   */
  lemma MapSquares(states: seq<FutureState<int>>)
    requires |states| == 4 && forall i :: 0 <= i < 4 ==> states[i] == Ok(i * i)
    ensures Ordered(states) == Yield([0, 1, 4, 9], None)
  {
    var square := (x: int) => x * x;
    MapKeepsOrder(square, [0, 1, 2, 3], states);
    assert Apply(square, [0, 1, 2, 3]) == [0, 1, 4, 9];
  }

  /**
   * A failed job stops `map` there: when the futures before it succeeded,
   * the generator yields their results and then raises the failed job's
   * exception, whatever the futures after it hold.
   */
  lemma MapStopsAtFailure<T>(states: seq<FutureState<T>>, values: seq<T>, e: RemoteException)
    requires Resolved(states)
    requires |values| < |states| && states[|values|] == Err(e)
    requires forall i :: 0 <= i < |values| ==> states[i] == Ok(values[i])
    ensures Ordered(states) == Yield(values, Some(e))
  {
    var r := Ordered(states);
    var k := |values|;
    assert r.raised.Some? by {
      assert !states[k].Ok?;
    }
    var m := |r.values|;
    assert m == k by {
      assert states[m].Err? && states[k].Err?;
      assert forall i :: 0 <= i < m ==> states[i].Ok?;
    }
    assert r.values == values by {
      assert forall i :: 0 <= i < k ==> Ok(r.values[i]) == states[i] == Ok(values[i]);
    }
  }

  /** Applying `f` to a concatenation applies it to each part. */
  lemma {:induction false} ApplyConcat<X, T>(f: X -> T, parts: seq<seq<X>>)
    ensures Apply(f, Concat(parts)) == Concat(Apply((p: seq<X>) => Apply(f, p), parts))
  {
    if parts != [] {
      ApplyConcat(f, parts[1..]);
      var g := (p: seq<X>) => Apply(f, p);
      assert Apply(g, parts)[1..] == Apply(g, parts[1..]);
      assert Apply(f, parts[0] + Concat(parts[1..])) == Apply(f, parts[0]) + Apply(f, Concat(parts[1..]));
    }
  }

  /**
   * `map_array` with batches of more than one argument keeps argument order:
   * when the slot for batch i returned `f` of each argument of that batch,
   * the flattened stream is `f` of every argument, in argument order.
   */
  lemma MapArrayKeepsOrder<X, T>(f: X -> T, args: seq<X>, batchSize: int, n: int,
                                 states: seq<FutureState<seq<T>>>)
    requires 1 < batchSize && n * batchSize == |args|
    requires |states| == |ArrayBatches(args, batchSize, n)|
    requires forall i :: 0 <= i < |states| ==> states[i] == Ok(Apply(f, ArrayBatches(args, batchSize, n)[i]))
    ensures Resolved(states)
    ensures ArrayOrdered(batchSize, states) == Flattened(Yield(Apply(f, args), None))
  {
    var batches := ArrayBatches(args, batchSize, n);
    ArrayBatchesCover(args, batchSize, n);
    var g := (p: seq<X>) => Apply(f, p);
    assert Values(states) == Apply(g, batches);
    ApplyConcat(f, batches);
  }

  /**
   * The generator loop of `map` in the ordered case: each future's result in
   * turn, stopping with the first failure.
   */
  method YieldOrdered<T>(futs: seq<Future<T>>) returns (y: Yield<T>)
    requires Resolved(States(futs))
    ensures y == Ordered(States(futs))
  {
    ghost var states := States(futs);
    var values := [];
    var i := 0;
    while i < |futs|
      invariant 0 <= i <= |futs| && |values| == i
      invariant forall j :: 0 <= j < i ==> states[j] == Ok(values[j])
    {
      match futs[i].state {
        case Ok(v) =>
          values := values + [v];
        case Err(e) =>
          MapStopsAtFailure(states, values, e);
          return Yield(values, Some(e));
      }
      i := i + 1;
    }
    MapKeepsOrder(x => x, values, states);
    assert Apply(x => x, values) == values;
    y := Yield(values, None);
  }

  /**
   * The generator loop of `map_array` in the ordered case: with a batch size
   * of one each slot result is yielded as it comes; otherwise the slot
   * results are collected and flattened once all are in. A failed slot
   * raises from inside the loop either way.
   */
  method YieldArray<T>(futs: seq<Future<seq<T>>>, batchSize: int) returns (y: ArrayYield<T>)
    requires Resolved(States(futs))
    ensures y == ArrayOrdered(batchSize, States(futs))
  {
    ghost var states := States(futs);
    var yielded := [];
    var results := [];
    var i := 0;
    while i < |futs|
      invariant 0 <= i <= |futs|
      invariant batchSize == 1 ==> |yielded| == i && results == []
      invariant batchSize != 1 ==> |results| == i && yielded == []
      invariant forall j :: 0 <= j < i ==> states[j] == Ok(if batchSize == 1 then yielded[j] else results[j])
    {
      match futs[i].state {
        case Ok(v) =>
          if batchSize == 1 {
            yielded := yielded + [v];
          } else {
            results := results + [v];
          }
        case Err(e) =>
          if batchSize == 1 {
            MapStopsAtFailure(states, yielded, e);
            return PerSlot(Yield(yielded, Some(e)));
          }
          MapStopsAtFailure(states, results, e);
          return Flattened(Yield([], Some(e)));
      }
      i := i + 1;
    }
    if batchSize == 1 {
      MapKeepsOrder(x => x, yielded, states);
      assert Apply(x => x, yielded) == yielded;
      return PerSlot(Yield(yielded, None));
    }
    assert results == Values(states);
    if batchSize > 1 {
      return Flattened(Yield(Concat(results), None));
    }
    return Flattened(Yield([], None));
  }
}
