/**
 * The topology-building half of PlumbingStreams: isolate, pressureReliever,
 * barrier, concurrent and concurrentMap.
 *
 * A stream is described by how it was built: a datatype whose nodes are the
 * TStream calls these functions make (map, pipe, fanin, tag). The caller's
 * functions (mappers, key functions, combiners) appear as labels of type F;
 * pipelines and stream combiners are Dafny functions from streams to streams.
 */
module Topology {
  import opened Wrappers

  /** The oplets this layer pipes streams into. */
  datatype Oplet<F> =
    /** Isolate<T>() when queueCapacity is None, Isolate<T>(queueCapacity) otherwise. */
    | IsolateOp(queueCapacity: Option<int>)
    | UnorderedIsolateOp
    | PressureRelieverOp(count: int, keyFunction: F)
    | BarrierOp(slotCapacity: int)

  datatype Stream<F> =
    | Source(name: string)
    /** stream.map(fn) */
    | Map(input: Stream<F>, fn: F)
    /** stream.pipe(oplet) */
    | Pipe(input: Stream<F>, oplet: Oplet<F>)
    /** first.fanin(oplet, others) */
    | Fanin(first: Stream<F>, oplet: Oplet<F>, others: seq<Stream<F>>)
    /** stream.tag(tag) */
    | Tagged(input: Stream<F>, tag: string)
  {
    /** The input streams of a fan-in, in the order the oplet sees them. */
    function Inputs(): seq<Stream<F>>
      requires Fanin?
    {
      [first] + others
    }
  }

  /** The exception barrier raises: remove(0) on an empty list. */
  datatype BuildError = IndexOutOfBounds

  /**
   * isolate(stream, ordered): one pipe into an isolating oplet, the ordered
   * one (an unbounded FIFO, no capacity chosen) exactly when `ordered`.
   */
  function Isolate<F>(stream: Stream<F>, ordered: bool): (r: Stream<F>)
    ensures r.Pipe? && r.input == stream
    ensures r.oplet.IsolateOp? <==> ordered
    ensures r.oplet.UnorderedIsolateOp? <==> !ordered
    ensures r.oplet.IsolateOp? ==> r.oplet.queueCapacity.None?
  {
    Pipe(stream, if ordered then IsolateOp(None) else UnorderedIsolateOp)
  }

  /**
   * isolate(stream, queueCapacity): one pipe into the ordered isolating oplet
   * with the caller's capacity, passed on unchecked.
   */
  function IsolateBounded<F>(stream: Stream<F>, queueCapacity: int): (r: Stream<F>)
    ensures r.Pipe? && r.input == stream
    ensures r.oplet.IsolateOp? && r.oplet.queueCapacity == Some(queueCapacity)
  {
    Pipe(stream, IsolateOp(Some(queueCapacity)))
  }

  /**
   * pressureReliever(stream, keyFunction, count): one pipe into the pressure
   * reliever with the caller's key function and count, passed on unchecked.
   */
  function PressureReliever<F>(stream: Stream<F>, keyFunction: F, count: int): (r: Stream<F>)
    ensures r.Pipe? && r.input == stream
    ensures r.oplet.PressureRelieverOp? && r.oplet.count == count && r.oplet.keyFunction == keyFunction
  {
    Pipe(stream, PressureRelieverOp(count, keyFunction))
  }

  // ---------------------------------------------------------------------------
  // barrier
  // ---------------------------------------------------------------------------

  /** The queue capacity barrier(streams) uses. */
  const DefaultBarrierQueueCapacity: int := 1

  /** The barrier fan-in over a non-empty list of streams, stream i as input i. */
  function BarrierOver<F>(streams: seq<Stream<F>>, queueCapacity: int): (b: Stream<F>)
    requires |streams| > 0
    ensures b.Fanin? && b.oplet == BarrierOp(queueCapacity) && b.Inputs() == streams
  {
    Fanin(streams[0], BarrierOp(queueCapacity), streams[1..])
  }

  /**
   * barrier(streams, queueCapacity): copy the list, take its head off the copy
   * and fan the head in with the rest. The caller's list is a value and stays
   * as it was; the barrier's inputs are the streams in the caller's order.
   */
  method Barrier<F>(streams: seq<Stream<F>>, queueCapacity: int) returns (r: Result<Stream<F>, BuildError>)
    ensures |streams| == 0 ==> r == Failure(IndexOutOfBounds)
    ensures |streams| > 0 ==> r.Success? && r.value == BarrierOver(streams, queueCapacity)
    ensures r.Success? ==> r.value.oplet == BarrierOp(queueCapacity) && r.value.Inputs() == streams
  {
    var others := streams;
    if |others| == 0 {
      return Failure(IndexOutOfBounds);
    }
    var s1 := others[0];
    others := others[1..];
    r := Success(Fanin(s1, BarrierOp(queueCapacity), others));
  }

  /** barrier(streams): the same as barrier(streams, 1). */
  method BarrierDefault<F>(streams: seq<Stream<F>>) returns (r: Result<Stream<F>, BuildError>)
    ensures |streams| == 0 ==> r == Failure(IndexOutOfBounds)
    ensures |streams| > 0 ==> r == Success(BarrierOver(streams, DefaultBarrierQueueCapacity))
  {
    r := Barrier(streams, DefaultBarrierQueueCapacity);
  }

  // ---------------------------------------------------------------------------
  // concurrent and concurrentMap
  // ---------------------------------------------------------------------------

  /** The barrier queue capacity of concurrent, letting pipelines get ahead some. */
  const ConcurrentBarrierQueueCapacity: int := 10

  const BarrierTag: string := "concurrent.barrier"

  function Digit(d: nat): char
    requires d < 10
  {
    "0123456789"[d]
  }

  /** Java's decimal rendering of a non-negative int, as in "ch" + i. */
  function Decimal(n: nat): string
    decreases n
  {
    if n < 10 then [Digit(n)] else Decimal(n / 10) + [Digit(n % 10)]
  }

  function IsolatedTag(i: nat): string
  {
    "concurrent.isolated-ch" + Decimal(i)
  }

  function ChannelTag(i: nat): string
  {
    "concurrent-ch" + Decimal(i)
  }

  /** Fan-out i of concurrent: isolate(stream, 1), tagged with its channel. */
  function Fanout<F>(stream: Stream<F>, i: nat): Stream<F>
  {
    Tagged(IsolateBounded(stream, 1), IsolatedTag(i))
  }

  /** The barrier inputs concurrent builds: pipeline i applied to fan-out i, tagged. */
  function Channels<F>(stream: Stream<F>, pipelines: seq<Stream<F> -> Stream<F>>): (cs: seq<Stream<F>>)
    ensures |cs| == |pipelines|
    ensures forall i :: 0 <= i < |cs| ==> cs[i] == Tagged(pipelines[i](Fanout(stream, i)), ChannelTag(i))
  {
    seq(|pipelines|, i requires 0 <= i < |pipelines| => Tagged(pipelines[i](Fanout(stream, i)), ChannelTag(i)))
  }

  /**
   * concurrent(stream, pipelines, combiner): one isolated fan-out per
   * pipeline, pipeline i on fan-out i, all joined by a barrier of capacity 10
   * with pipeline i's stream as barrier input i, the combiner on the barrier.
   * With no pipelines the barrier's remove(0) throws.
   */
  method Concurrent<F>(stream: Stream<F>, pipelines: seq<Stream<F> -> Stream<F>>, combiner: Stream<F> -> Stream<F>)
    returns (r: Result<Stream<F>, BuildError>)
    ensures |pipelines| == 0 ==> r == Failure(IndexOutOfBounds)
    ensures |pipelines| > 0 ==>
      r == Success(combiner(Tagged(BarrierOver(Channels(stream, pipelines), ConcurrentBarrierQueueCapacity), BarrierTag)))
  {
    var n := |pipelines|;

    // add concurrent (isolated) fan-outs
    var fanouts: seq<Stream<F>> := [];
    for i := 0 to n
      invariant |fanouts| == i
      invariant forall j :: 0 <= j < i ==> fanouts[j] == Fanout(stream, j)
    {
      fanouts := fanouts + [Tagged(IsolateBounded(stream, 1), IsolatedTag(i))];
    }

    // add the pipelines
    var results: seq<Stream<F>> := [];
    var ch := 0;
    while ch < n
      invariant 0 <= ch <= n
      invariant |results| == ch
      invariant forall j :: 0 <= j < ch ==> results[j] == Channels(stream, pipelines)[j]
    {
      results := results + [Tagged(pipelines[ch](fanouts[ch]), ChannelTag(ch))];
      ch := ch + 1;
    }
    assert results == Channels(stream, pipelines);

    // add the barrier
    var barrier := Barrier(results, ConcurrentBarrierQueueCapacity);
    if barrier.Failure? {
      return Failure(barrier.error);
    }

    // add the combiner
    r := Success(combiner(Tagged(barrier.value, BarrierTag)));
  }

  /** The barrier inputs concurrentMap ends up with: mapper i mapped over fan-out i, tagged. */
  function MapChannels<F>(stream: Stream<F>, mappers: seq<F>): (cs: seq<Stream<F>>)
    ensures |cs| == |mappers|
    ensures forall i :: 0 <= i < |cs| ==> cs[i] == Tagged(Map(Fanout(stream, i), mappers[i]), ChannelTag(i))
  {
    seq(|mappers|, i requires 0 <= i < |mappers| => Tagged(Map(Fanout(stream, i), mappers[i]), ChannelTag(i)))
  }

  /**
   * concurrentMap(stream, mappers, combiner): concurrent with pipeline i being
   * s -> s.map(mappers[i]) and the combiner s -> s.map(combiner).
   */
  method ConcurrentMap<F>(stream: Stream<F>, mappers: seq<F>, combiner: F) returns (r: Result<Stream<F>, BuildError>)
    ensures |mappers| == 0 ==> r == Failure(IndexOutOfBounds)
    ensures |mappers| > 0 ==>
      r == Success(Map(Tagged(BarrierOver(MapChannels(stream, mappers), ConcurrentBarrierQueueCapacity), BarrierTag), combiner))
  {
    var pipelines: seq<Stream<F> -> Stream<F>> := [];
    for i := 0 to |mappers|
      invariant |pipelines| == i
      invariant forall j, s :: 0 <= j < i ==> pipelines[j](s) == Map(s, mappers[j])
    {
      var mapper := mappers[i];
      pipelines := pipelines + [(s: Stream<F>) => Map(s, mapper)];
    }
    assert Channels(stream, pipelines) == MapChannels(stream, mappers);
    r := Concurrent(stream, pipelines, (s: Stream<F>) => Map(s, combiner));
  }
}
