/**
 * The tuples a stream carries, for the graphs whose result does not depend on
 * thread timing: sources, maps, tags, ordered isolation and barriers. `input`
 * is what the source carries, `apply(f, v)` is caller function f on tuple v
 * and `pack` turns a barrier round into one List tuple.
 *
 * An ordered isolate (Isolate<T>, unbounded or with a positive capacity) is a
 * FIFO queue between one producer and one consumer: it neither loses,
 * duplicates nor reorders tuples (IsolateQueue), so its output is its input.
 * A barrier (one queue of `queueCapacity` per input, blocking when full)
 * likewise needs a positive capacity. A capacity of 0 or less accepts
 * nothing, and unordered isolation and pressure relief depend on timing;
 * their result is None here.
 *
 * Every Source stands for the one stream the graph was built from: Eval is
 * for graphs with a single source, as isolate, barrier over fan-outs,
 * concurrent and concurrentMap build them from one input stream.
 */
module Dataflow {
  import opened Wrappers
  import opened Topology
  import BarrierRounds
  import IsolateQueue

  /** map(fn) over a finite stream. */
  function MapAll<F, V>(f: F, xs: seq<V>, apply: (F, V) -> V): (ys: seq<V>)
    ensures |ys| == |xs| && forall k :: 0 <= k < |xs| ==> ys[k] == apply(f, xs[k])
  {
    seq(|xs|, k requires 0 <= k < |xs| => apply(f, xs[k]))
  }

  /** The isolate oplets that pass every tuple through in order. */
  predicate FifoIsolate<F>(op: Oplet<F>)
  {
    op.IsolateOp? && (op.queueCapacity.None? || op.queueCapacity.value > 0)
  }

  /**
   * What stream s carries when its source carries `input`. No graph of these
   * operators makes up tuples: a map keeps the count, an isolate passes the
   * stream on, and a barrier emits no more rounds than its shortest input
   * has tuples.
   */
  function Eval<F, V>(s: Stream<F>, input: seq<V>, apply: (F, V) -> V, pack: seq<V> -> V): (r: Option<seq<V>>)
    ensures r.Some? ==> |r.value| <= |input|
    decreases s
  {
    match s
    case Source(_) => Some(input)
    case Tagged(t, _) => Eval(t, input, apply, pack)
    case Map(t, f) =>
      (match Eval(t, input, apply, pack)
       case None => None
       case Some(xs) => Some(MapAll(f, xs, apply)))
    case Pipe(t, op) => if FifoIsolate(op) then Eval(t, input, apply, pack) else None
    case Fanin(first, op, others) =>
      if !op.BarrierOp? || op.slotCapacity <= 0 then None
      else
        var outs := seq(|others| + 1, i requires 0 <= i <= |others| =>
          if i == 0 then Eval(first, input, apply, pack) else Eval(others[i - 1], input, apply, pack));
        if forall i :: 0 <= i < |outs| ==> outs[i].Some? then
          var values := seq(|outs|, i requires 0 <= i < |outs| => outs[i].value);
          var rounds := BarrierRounds.Rounds(values);
          assert |rounds| <= |values[0]| == |Eval(first, input, apply, pack).value| <= |input|;
          Some(seq(|rounds|, n requires 0 <= n < |rounds| => pack(rounds[n])))
        else None
  }

  /**
   * Reading an ordered isolate as the identity agrees with its queue: every
   * schedule of puts and takes that gets the whole stream in and drains the
   * queue delivers exactly the stream Eval gives, for isolate(s, true) with an
   * unbounded queue and for isolate(s, c) with a queue of capacity c > 0.
   */
  lemma IsolateEvalIsQueueRun<F, V>(s: Stream<F>, input: seq<V>, apply: (F, V) -> V, pack: seq<V> -> V,
                                    events: seq<IsolateQueue.Event<V>>, capacity: Option<nat>)
    requires Eval(s, input, apply, pack).Some?
    requires IsolateQueue.Run(events, capacity, true).accepted == Eval(s, input, apply, pack).value
    requires IsolateQueue.Run(events, capacity, true).queued == []
    ensures capacity.None? ==>
      Eval(Isolate(s, true), input, apply, pack) == Some(IsolateQueue.Run(events, capacity, true).delivered)
    ensures capacity.Some? && capacity.value > 0 ==>
      Eval(IsolateBounded(s, capacity.value), input, apply, pack) == Some(IsolateQueue.Run(events, capacity, true).delivered)
  {
    IsolateQueue.OrderedDrainedIsIdentity(events, capacity);
  }

  /**
   * A barrier over streams carrying outs[0], ..., outs[N-1] emits, for every n
   * below the shortest length, the round packing element n of every stream,
   * stream i at position i, for any positive queue capacity. With a capacity
   * of 0 or less every input's queue is full from the start and the barrier
   * has no result.
   */
  lemma {:induction false} BarrierEval<F, V>(streams: seq<Stream<F>>, queueCapacity: int, outs: seq<seq<V>>,
                                             input: seq<V>, apply: (F, V) -> V, pack: seq<V> -> V)
    requires |streams| > 0 && |outs| == |streams|
    requires forall i :: 0 <= i < |streams| ==> Eval(streams[i], input, apply, pack) == Some(outs[i])
    ensures var r := Eval(BarrierOver(streams, queueCapacity), input, apply, pack);
      queueCapacity > 0 ==>
        && r.Some?
        && |r.value| == BarrierRounds.MinLength(outs)
        && forall n :: 0 <= n < |r.value| ==> r.value[n] == pack(seq(|outs|, i requires 0 <= i < |outs| => outs[i][n]))
    ensures queueCapacity <= 0 ==> Eval(BarrierOver(streams, queueCapacity), input, apply, pack) == None
  {
    if queueCapacity <= 0 {
      return;
    }
    BarrierPacksRounds(streams, queueCapacity, outs, input, apply, pack);
    BarrierRounds.RoundsAt(outs);
    var rounds := BarrierRounds.Rounds(outs);
    forall n | 0 <= n < |rounds|
      ensures rounds[n] == seq(|outs|, i requires 0 <= i < |outs| => outs[i][n])
    {
    }
  }

  /** A barrier with a positive capacity over streams carrying outs packs the rounds of outs. */
  lemma BarrierPacksRounds<F, V>(streams: seq<Stream<F>>, queueCapacity: int, outs: seq<seq<V>>,
                                 input: seq<V>, apply: (F, V) -> V, pack: seq<V> -> V)
    requires queueCapacity > 0
    requires |streams| > 0 && |outs| == |streams|
    requires forall i :: 0 <= i < |streams| ==> Eval(streams[i], input, apply, pack) == Some(outs[i])
    ensures var rounds := BarrierRounds.Rounds(outs);
      Eval(BarrierOver(streams, queueCapacity), input, apply, pack)
        == Some(seq(|rounds|, n requires 0 <= n < |rounds| => pack(rounds[n])))
  {
    var b := BarrierOver(streams, queueCapacity);
    var evals := seq(|b.others| + 1, i requires 0 <= i <= |b.others| =>
      if i == 0 then Eval(b.first, input, apply, pack) else Eval(b.others[i - 1], input, apply, pack));
    assert forall i :: 0 <= i < |evals| ==> evals[i] == Some(outs[i]) by {
      forall i | 0 <= i < |evals| ensures evals[i] == Some(outs[i]) {
        assert b.Inputs()[i] == streams[i];
      }
    }
    var values := seq(|evals|, i requires 0 <= i < |evals| => evals[i].value);
    assert values == outs;
  }

  /**
   * concurrentMap on a stream carrying xs: for every input tuple t, in order,
   * the result stream carries combiner([mappers[0](t), ..., mappers[N-1](t)]),
   * one result per input tuple.
   */
  lemma ConcurrentMapEval<F, V>(stream: Stream<F>, mappers: seq<F>, combiner: F, xs: seq<V>,
                                input: seq<V>, apply: (F, V) -> V, pack: seq<V> -> V)
    requires |mappers| > 0
    requires Eval(stream, input, apply, pack) == Some(xs)
    ensures var g := Map(Tagged(BarrierOver(MapChannels(stream, mappers), ConcurrentBarrierQueueCapacity), BarrierTag), combiner);
      var r := Eval(g, input, apply, pack);
      && r.Some?
      && |r.value| == |xs|
      && forall k :: 0 <= k < |xs| ==>
           r.value[k] == apply(combiner, pack(seq(|mappers|, i requires 0 <= i < |mappers| => apply(mappers[i], xs[k]))))
  {
    var channels := MapChannels(stream, mappers);
    var outs := seq(|mappers|, i requires 0 <= i < |mappers| => MapAll(mappers[i], xs, apply));
    forall i | 0 <= i < |channels|
      ensures Eval(channels[i], input, apply, pack) == Some(outs[i])
    {
      assert Eval(Fanout(stream, i), input, apply, pack) == Some(xs);
    }
    BarrierEval(channels, ConcurrentBarrierQueueCapacity, outs, input, apply, pack);
    MinLengthOfEqual(outs, |xs|);
    var joined := Eval(BarrierOver(channels, ConcurrentBarrierQueueCapacity), input, apply, pack).value;
    forall k | 0 <= k < |xs|
      ensures joined[k] == pack(seq(|mappers|, i requires 0 <= i < |mappers| => apply(mappers[i], xs[k])))
    {
      assert seq(|outs|, i requires 0 <= i < |outs| => outs[i][k])
          == seq(|mappers|, i requires 0 <= i < |mappers| => apply(mappers[i], xs[k]));
    }
  }

  lemma MinLengthOfEqual<V>(outs: seq<seq<V>>, len: nat)
    requires |outs| > 0
    requires forall i :: 0 <= i < |outs| ==> |outs[i]| == len
    ensures BarrierRounds.MinLength(outs) == len
  {
  }
}
