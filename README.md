# PlumbingStreams in Dafny

A model of the plumbing layer of an Apache Edgent streaming topology
(`org.apache.edgent.topology.plumbing.PlumbingStreams`): the per-tuple pacing
functions (`blockingDelay`, `blockingThrottle`, `blockingOneShotDelay`), the
single-operator concurrent map (`concurrentMapSingleOp`), the topology builders
(`isolate`, `pressureReliever`, `barrier`, `concurrent`, `concurrentMap`) and
the documented behaviour of the barrier and pressure-reliever oplets they
install.

Modules:

- `Wrappers` (wrappers.dfy): `Option` (Java's null) and `Result` (a thrown exception).
- `Pacing` (pacing.dfy): the three pacing closures. The throttle and the
  one-shot delay are classes holding the closure's one-element array as a field
  (`nextTupleTime`, `initialDelay`); each call takes the clock reading as an
  input and returns the amount it asks `Thread.sleep` for. An interrupted sleep
  is the outcome `Interrupted` (the RuntimeException). Trace functions give the
  forwarding times of a whole run, and lemmas state the cadence.
- `SingleOpMap` (single_op_map.dfy): one application of the
  `concurrentMapSingleOp` function to a tuple. The result list is an array
  filled in place, slot i by task i, with the tasks running in an arbitrary
  schedule; the futures are awaited in index order.
- `Topology` (topology.dfy): a stream is a datatype recording the TStream calls
  that built it (`map`, `pipe`, `fanin`, `tag`); `Barrier`, `Concurrent` and
  `ConcurrentMap` are methods building it the way the Java code does.
- `BarrierRounds` (barrier_rounds.dfy): what a barrier emits: round n pairs the
  n-th tuple of every input, input i at position i.
- `Dataflow` (dataflow.dfy): the tuples a graph built from sources, maps, tags,
  ordered isolates and barriers carries, and the end-to-end result of
  `concurrentMap`.
- `IsolateQueue` (isolate_queue.dfy): the queue an isolate puts between
  upstream and downstream, driven by any schedule of puts and takes: FIFO when
  ordered, nothing lost or duplicated either way, never over its capacity.
- `PressureRelief` (pressure_relief.dfy): per-key buffers of at most `count`
  newest tuples with drop-oldest, and per-key order for any interleaving of
  arrivals and deliveries.

Where the doc comments and the code differ, the model follows the code: the
doc comment of `concurrentMap` (lines 273-276) promises a runtime error for a
null mapper result, but `concurrentMap` itself has no null check. Further
facts of the code that the model keeps: `blockingDelay` passes
`unit.toMillis(delay)` to `Thread.sleep` unclamped; `barrier`, and therefore
`concurrent` and `concurrentMap`, throws on an empty list; and
`concurrentMapSingleOp` fails every tuple when there are no mappers, because
`Executors.newFixedThreadPool(0)` refuses a pool of size 0. The doc comment
of `blockingThrottle` also says, in its example (line 104), that the first
tuple t1 is delayed by the full 100ms; the code (line 124) and the doc's own
rule (line 97) do not delay the first tuple, and the model follows them.

## Model

| member | source | states |
|---|---|---|
| `Pacing.DelayStep` | api/topology/src/main/java/org/apache/edgent/topology/plumbing/PlumbingStreams-withComcurrentMapSingleOp.JAVA:72-79 | every call asks for a sleep of exactly `delay`; the tuple is forwarded unchanged iff the sleep is not interrupted |
| `Pacing.DelayStream` | api/topology/src/main/java/org/apache/edgent/topology/plumbing/PlumbingStreams-withComcurrentMapSingleOp.JAVA:72-79 | the blockingDelay closure applied to each tuple of an uninterrupted stream in turn, one outcome per tuple |
| `Pacing.DelayStreamIsUniform` | api/topology/src/main/java/org/apache/edgent/topology/plumbing/PlumbingStreams-withComcurrentMapSingleOp.JAVA:46-79 | over a whole uninterrupted stream, tuple k is forwarded unchanged after the same fixed delay |
| `Pacing.DelayForwards` | api/topology/src/main/java/org/apache/edgent/topology/plumbing/PlumbingStreams-withComcurrentMapSingleOp.JAVA:52-79 | the blockingDelay timing trace: one forwarding time per arrival, each the arrival plus the sleep `DelayStep` asks for (`DelayGap` states the timing) |
| `Pacing.DelayGap` | api/topology/src/main/java/org/apache/edgent/topology/plumbing/PlumbingStreams-withComcurrentMapSingleOp.JAVA:52-79 | in the forwarding times built from `DelayStep`'s sleeps, each forward is `delay` after its arrival, so the gap between forwards is the downstream time plus the whole delay (the 180ms example) |
| `Pacing.ThrottleSleep` | api/topology/src/main/java/org/apache/edgent/topology/plumbing/PlumbingStreams-withComcurrentMapSingleOp.JAVA:124-128 | the throttle sleeps (a positive amount) iff a deadline is set and still ahead, and then exactly until the deadline; never while the deadline is 0 |
| `Pacing.ThrottleDeadline` | api/topology/src/main/java/org/apache/edgent/topology/plumbing/PlumbingStreams-withComcurrentMapSingleOp.JAVA:132-135 | the new deadline is the arrival time plus delay without a sleep, the re-read clock plus delay after one; a sleep at least as long as asked gives at least `max(now, old deadline) + delay`, an exact one exactly that |
| `Pacing.Throttle.constructor` | api/topology/src/main/java/org/apache/edgent/topology/plumbing/PlumbingStreams-withComcurrentMapSingleOp.JAVA:120-121 | a fresh throttle has no deadline (`nextTupleTime` is 0) |
| `Pacing.Throttle.Apply` | api/topology/src/main/java/org/apache/edgent/topology/plumbing/PlumbingStreams-withComcurrentMapSingleOp.JAVA:122-137 | returns the sleep `ThrottleSleep` gives; an interrupted sleep throws and leaves the deadline as it was; otherwise the tuple is forwarded unchanged and the deadline becomes `ThrottleDeadline` |
| `Pacing.ThrottleForwards` | api/topology/src/main/java/org/apache/edgent/topology/plumbing/PlumbingStreams-withComcurrentMapSingleOp.JAVA:122-137 | one forward per arrival; the first tuple leaves neither before it arrived nor before a pending deadline (`ThrottleCadence` and `ThrottleSpacing` state the rest) |
| `Pacing.ThrottleCadence` | api/topology/src/main/java/org/apache/edgent/topology/plumbing/PlumbingStreams-withComcurrentMapSingleOp.JAVA:96-108 | with exact sleeps, every forward after the first happens at the later of its arrival and `delay` after the previous forward, from any starting deadline |
| `Pacing.ThrottleSpacing` | api/topology/src/main/java/org/apache/edgent/topology/plumbing/PlumbingStreams-withComcurrentMapSingleOp.JAVA:96-108 | a fresh throttle forwards the first tuple at once, never forwards before arrival, keeps forwards at least `delay` apart, forwards at once when the delay has elapsed, and exactly `delay` after the previous forward otherwise (the 20ms example) |
| `Pacing.OneShotSleep` | api/topology/src/main/java/org/apache/edgent/topology/plumbing/PlumbingStreams-withComcurrentMapSingleOp.JAVA:167-169 | no sleep once the flag is -1, a sleep of the whole initial delay before that |
| `Pacing.OneShotNext` | api/topology/src/main/java/org/apache/edgent/topology/plumbing/PlumbingStreams-withComcurrentMapSingleOp.JAVA:167-175 | the flag becomes -1 exactly when it was -1 or the sleep was not interrupted; an interrupted sleep keeps the delay pending |
| `Pacing.OneShotDelay.constructor` | api/topology/src/main/java/org/apache/edgent/topology/plumbing/PlumbingStreams-withComcurrentMapSingleOp.JAVA:164-165 | the flag starts at the delay in milliseconds |
| `Pacing.OneShotDelay.Apply` | api/topology/src/main/java/org/apache/edgent/topology/plumbing/PlumbingStreams-withComcurrentMapSingleOp.JAVA:166-177 | sleeps `OneShotSleep` of the old flag, sets the flag to `OneShotNext`, forwards the tuple unchanged unless the sleep throws |
| `Pacing.OneShotSleeps` | api/topology/src/main/java/org/apache/edgent/topology/plumbing/PlumbingStreams-withComcurrentMapSingleOp.JAVA:160-177 | the one-shot closure's run: one sleep per tuple, each from `OneShotSleep` of the flag the earlier calls left (`OneShotDelaysFirstOnly` and `OneShotDoneNeverSleeps` state what it is) |
| `Pacing.OneShotDelaysFirstOnly` | api/topology/src/main/java/org/apache/edgent/topology/plumbing/PlumbingStreams-withComcurrentMapSingleOp.JAVA:140-142 | in an uninterrupted run only the first tuple is delayed, by the whole delay; every later tuple sleeps 0 |
| `Pacing.OneShotDoneNeverSleeps` | api/topology/src/main/java/org/apache/edgent/topology/plumbing/PlumbingStreams-withComcurrentMapSingleOp.JAVA:167-176 | once the flag is -1 no later call sleeps, whatever the interruptions |
| `SingleOpMap.Outputs` | api/topology/src/main/java/org/apache/edgent/topology/plumbing/PlumbingStreams-withComcurrentMapSingleOp.JAVA:332-335 | entry i is mapper i applied to the tuple, one entry per mapper |
| `SingleOpMap.FirstNull` | api/topology/src/main/java/org/apache/edgent/topology/plumbing/PlumbingStreams-withComcurrentMapSingleOp.JAVA:343-352 | the first index, in mapper order, whose result is null; every earlier result is present; `|s|` when none is null |
| `SingleOpMap.Values` | api/topology/src/main/java/org/apache/edgent/topology/plumbing/PlumbingStreams-withComcurrentMapSingleOp.JAVA:327 | the list handed to the combiner: same length, entry i the value in slot i |
| `SingleOpMap.Apply` | api/topology/src/main/java/org/apache/edgent/topology/plumbing/PlumbingStreams-withComcurrentMapSingleOp.JAVA:322-356 | for any task schedule: no mappers fails (pool of size 0); a null result fails reporting the first null mapper index; otherwise the combiner gets the list whose entry i is mapper i's result |
| `Topology.Isolate` | api/topology/src/main/java/org/apache/edgent/topology/plumbing/PlumbingStreams-withComcurrentMapSingleOp.JAVA:225-228 | one pipe from the stream into the ordered isolate (no capacity chosen) exactly when `ordered`, into the unordered one otherwise; `IsolateQueue` states what each does |
| `Topology.IsolateBounded` | api/topology/src/main/java/org/apache/edgent/topology/plumbing/PlumbingStreams-withComcurrentMapSingleOp.JAVA:247-249 | one pipe from the stream into the ordered isolate with the caller's capacity, passed on unchecked |
| `Topology.PressureReliever` | api/topology/src/main/java/org/apache/edgent/topology/plumbing/PlumbingStreams-withComcurrentMapSingleOp.JAVA:209-211 | one pipe from the stream into the pressure reliever with the caller's key function and count; `PressureRelief` states what it does |
| `Topology.BarrierOver` | api/topology/src/main/java/org/apache/edgent/topology/plumbing/PlumbingStreams-withComcurrentMapSingleOp.JAVA:471-472 | a barrier fan-in with the given capacity whose inputs are the streams in the caller's order |
| `Topology.Barrier` | api/topology/src/main/java/org/apache/edgent/topology/plumbing/PlumbingStreams-withComcurrentMapSingleOp.JAVA:488-492 | an empty list throws IndexOutOfBounds; otherwise head fanned in with the rest, the barrier's inputs being exactly the caller's list in order, with the given capacity |
| `Topology.BarrierDefault` | api/topology/src/main/java/org/apache/edgent/topology/plumbing/PlumbingStreams-withComcurrentMapSingleOp.JAVA:451-460 | the same result as `Barrier` with queue capacity 1 |
| `Topology.Channels` | api/topology/src/main/java/org/apache/edgent/topology/plumbing/PlumbingStreams-withComcurrentMapSingleOp.JAVA:431-442 | one channel per pipeline; channel i is pipeline i applied to its own `isolate(stream, 1)` fan-out, tagged with i |
| `Topology.Concurrent` | api/topology/src/main/java/org/apache/edgent/topology/plumbing/PlumbingStreams-withComcurrentMapSingleOp.JAVA:418-449 | no pipelines throws (from the barrier); otherwise the combiner applied to the tagged barrier of capacity 10 over the channels, pipeline i's stream at barrier input i |
| `Topology.MapChannels` | api/topology/src/main/java/org/apache/edgent/topology/plumbing/PlumbingStreams-withComcurrentMapSingleOp.JAVA:289-292 | channel i is mapper i mapped over fan-out i, tagged with i |
| `Topology.ConcurrentMap` | api/topology/src/main/java/org/apache/edgent/topology/plumbing/PlumbingStreams-withComcurrentMapSingleOp.JAVA:284-295 | no mappers throws; otherwise the combiner mapped over the barrier of capacity 10 whose input i is mapper i over fan-out i |
| `BarrierRounds.MinLength` | api/topology/src/main/java/org/apache/edgent/topology/plumbing/PlumbingStreams-withComcurrentMapSingleOp.JAVA:467-469 | the number of complete rounds: at most every input's length and equal to some input's |
| `BarrierRounds.Rounds` | api/topology/src/main/java/org/apache/edgent/topology/plumbing/PlumbingStreams-withComcurrentMapSingleOp.JAVA:464-472 | the barrier never reads an input past its end: there are no more rounds than any input has tuples |
| `BarrierRounds.RoundsAt` | api/topology/src/main/java/org/apache/edgent/topology/plumbing/PlumbingStreams-withComcurrentMapSingleOp.JAVA:464-472 | the barrier emits as many lists as the shortest input has tuples, each of length N, list n holding input i's n-th tuple at position i |
| `BarrierRounds.TwoInputsThreeRounds` | api/topology/src/main/java/org/apache/edgent/topology/plumbing/PlumbingStreams-withComcurrentMapSingleOp.JAVA:467-472 | two inputs of three tuples give exactly `[a0,b0]`, `[a1,b1]`, `[a2,b2]` |
| `IsolateQueue.Step` | api/topology/src/main/java/org/apache/edgent/topology/plumbing/PlumbingStreams-withComcurrentMapSingleOp.JAVA:231-238 | a put on a full bounded queue blocks and changes nothing; otherwise the tuple gets in at the tail of the queue; the ordered consumer hands over the head, an unordered one the tuple it picks; a take from an empty queue changes nothing |
| `IsolateQueue.Run` | api/topology/src/main/java/org/apache/edgent/topology/plumbing/PlumbingStreams-withComcurrentMapSingleOp.JAVA:231-238 | the queue after any schedule of puts and takes, from empty; every tuple that got in is queued or delivered, counted once |
| `IsolateQueue.OrderedIsFifo` | api/topology/src/main/java/org/apache/edgent/topology/plumbing/PlumbingStreams-withComcurrentMapSingleOp.JAVA:231-249 | for any schedule of puts and takes, the ordered isolate has delivered a prefix of what got in, the rest still queued in order |
| `IsolateQueue.OrderedDrainedIsIdentity` | api/topology/src/main/java/org/apache/edgent/topology/plumbing/PlumbingStreams-withComcurrentMapSingleOp.JAVA:238 | once the ordered queue is empty, everything that got in has been delivered, in the order received |
| `IsolateQueue.NothingLostOrDuplicated` | api/topology/src/main/java/org/apache/edgent/topology/plumbing/PlumbingStreams-withComcurrentMapSingleOp.JAVA:214-228 | ordered or not, delivered plus queued is, as a multiset, exactly what got in |
| `IsolateQueue.BoundedNeverOverfills` | api/topology/src/main/java/org/apache/edgent/topology/plumbing/PlumbingStreams-withComcurrentMapSingleOp.JAVA:233-236 | a queue with a capacity never holds more tuples than the capacity: upstream blocks instead |
| `IsolateQueue.UnboundedAcceptsEveryOffer` | api/topology/src/main/java/org/apache/edgent/topology/plumbing/PlumbingStreams-withComcurrentMapSingleOp.JAVA:214-228 | without a capacity no put blocks: every offered tuple gets in, in the order offered |
| `Dataflow.IsolateEvalIsQueueRun` | api/topology/src/main/java/org/apache/edgent/topology/plumbing/PlumbingStreams-withComcurrentMapSingleOp.JAVA:225-249 | for any schedule of puts and takes that gets the whole stream in and drains the queue, what the queue delivers is what `Eval` gives: for `isolate(s, true)` with an unbounded queue, and for `isolate(s, c)` with a queue of capacity c > 0 |
| `Dataflow.MapAll` | api/topology/src/main/java/org/apache/edgent/topology/plumbing/PlumbingStreams-withComcurrentMapSingleOp.JAVA:289-291 | `s.map(mapper)` over a finite stream: one result per tuple, result k being the function applied to tuple k |
| `Dataflow.Eval` | api/topology/src/main/java/org/apache/edgent/topology/plumbing/PlumbingStreams-withComcurrentMapSingleOp.JAVA:225-295 | what a graph of sources, maps, tags, ordered isolates and barriers carries; an isolate or a barrier with a capacity of 0 or less, an unordered isolate and a pressure reliever get no result; no graph carries more tuples than its source |
| `Dataflow.BarrierEval` | api/topology/src/main/java/org/apache/edgent/topology/plumbing/PlumbingStreams-withComcurrentMapSingleOp.JAVA:462-479 | a barrier over streams carrying given sequences emits one packed list per complete round, list n holding element n of every stream in stream order, for any positive queue capacity; with a capacity of 0 or less every input's queue is full and there is no result |
| `Dataflow.ConcurrentMapEval` | api/topology/src/main/java/org/apache/edgent/topology/plumbing/PlumbingStreams-withComcurrentMapSingleOp.JAVA:251-283 | the graph `concurrentMap` builds carries, for each input tuple t in order, `combiner([mappers[0](t), ..., mappers[N-1](t)])`, exactly one result per input tuple |
| `PressureRelief.Last` | api/topology/src/main/java/org/apache/edgent/topology/plumbing/PlumbingStreams-withComcurrentMapSingleOp.JAVA:192-194 | keeps at most `count` tuples, all of them when there are no more, exactly `count` otherwise |
| `PressureRelief.LastIsSuffix` | api/topology/src/main/java/org/apache/edgent/topology/plumbing/PlumbingStreams-withComcurrentMapSingleOp.JAVA:192-194 | the tuples kept are the end of the buffer, the most recent ones in their order |
| `PressureRelief.Offer` | api/topology/src/main/java/org/apache/edgent/topology/plumbing/PlumbingStreams-withComcurrentMapSingleOp.JAVA:186-211 | an arrival creates its key's buffer if needed, appends to it and keeps its `count` newest tuples; no other key's buffer changes |
| `PressureRelief.OfKey` | api/topology/src/main/java/org/apache/edgent/topology/plumbing/PlumbingStreams-withComcurrentMapSingleOp.JAVA:196-197 | the tuples of one partition, each with that key |
| `PressureRelief.OfferAll` | api/topology/src/main/java/org/apache/edgent/topology/plumbing/PlumbingStreams-withComcurrentMapSingleOp.JAVA:186-197 | the buffers after a run of arrivals with no consumer: a buffer is added for the key of every arrival, none removed (`OfferAllKeepsNewest` states the contents) |
| `PressureRelief.OfferAllKeepsNewest` | api/topology/src/main/java/org/apache/edgent/topology/plumbing/PlumbingStreams-withComcurrentMapSingleOp.JAVA:192-197 | without a consumer each key's buffer is the `count` newest tuples of that key in arrival order, whatever other keys receive |
| `PressureRelief.SingleKeyKeepsLastCount` | api/topology/src/main/java/org/apache/edgent/topology/plumbing/PlumbingStreams-withComcurrentMapSingleOp.JAVA:192-194 | one key and no consumer: after m tuples the buffer is exactly the last `count` of them, in order |
| `PressureRelief.Step` | api/topology/src/main/java/org/apache/edgent/topology/plumbing/PlumbingStreams-withComcurrentMapSingleOp.JAVA:186-197 | an arrival delivers nothing and offers its tuple as `Offer` does; a delivery hands over the oldest tuple of its key and drops it from that buffer, or does nothing on an empty buffer; no other key's buffer changes, and only a key's first arrival adds its buffer |
| `PressureRelief.Run` | api/topology/src/main/java/org/apache/edgent/topology/plumbing/PlumbingStreams-withComcurrentMapSingleOp.JAVA:192-197 | after any interleaving, buffers exist exactly for the keys of the tuples that have arrived (created lazily, never removed) |
| `PressureRelief.PerKeyOrder` | api/topology/src/main/java/org/apache/edgent/topology/plumbing/PlumbingStreams-withComcurrentMapSingleOp.JAVA:189-197 | for any interleaving of arrivals and deliveries, each buffer holds at most `count` tuples and the tuples delivered for a key are that key's arrivals with some dropped, none reordered or duplicated |

## Left out

- Real time and sleeping: `System.currentTimeMillis` and `Thread.sleep` are inputs (`now`, `woke`, `interrupted`) and an output (the requested sleep); re-asserting the thread's interrupt flag is not modelled, only the RuntimeException outcome.
- `TimeUnit.toMillis`: delays are already whole non-negative milliseconds; a negative delay is not modelled. With one, `blockingDelay`, and `blockingOneShotDelay` below -1 ms, pass it to `Thread.sleep`, which throws IllegalArgumentException; `blockingThrottle` sets a deadline already past and never sleeps; a one-shot delay of exactly -1 ms is the done flag itself and never sleeps.
- Pacing.ThrottleDeadline: clock readings and deadlines are unbounded naturals; the 64-bit `long` overflow of `now + delay` is not modelled, since millisecond clock values are far from it.
- Pacing.ThrottleCadence: assumes every sleep lasts exactly what was asked; `ThrottleDeadline` states the weaker bound for sleeps that last longer.
- `ExecutorService`, `Future.get` and the lazy `compareAndSet` creation of the pool in `concurrentMapSingleOp`: the tasks run in a given schedule; the pool size cap `min(n, 20)` only limits parallelism and is not modelled; mappers throwing exceptions other than a null result, and interruption of the wait, are not modelled.
- `Objects.requireNonNull` checks: Dafny values here cannot be null.
- The topology graph as shared mutable state: a stream is the tree of calls that built it, so an oplet nothing downstream reads is not recorded. In `concurrent`, every `isolate(stream, 1)` fan-out is added to the Java graph, but one whose pipeline ignores its input does not occur in the model's result.
- Internals of the `Isolate`, `UnorderedIsolate`, `Barrier` and `PressureReliever` oplets and of `TStream.map`, `pipe`, `fanin` and `tag` are not part of this model: only their documented results are. Threads and the barrier's per-input queues and stall are not modelled beyond rounds stopping at the shortest input; the isolate's queue is modelled as a sequence of puts and takes, not as threads.
- Unordered isolation and pressure relief depend on thread timing: `Dataflow.Eval` gives them no result.
- Graphs with several sources: `Dataflow.Eval` reads every `Source` as the one input stream, so it describes graphs built from a single stream; a `concurrent` pipeline that ignores its fan-out and returns some other stream is not described correctly.
- Null mapper results in `concurrentMap`: mappers are total functions in the model; the code has no null check there.
- IsolateQueue: a capacity is a natural number, and a capacity of 0 blocks every put. How the `Isolate` oplet treats a capacity of 0 or less, which `isolate` passes on unchecked, is not part of this model; `Topology.IsolateBounded` keeps the integer and `Dataflow.Eval` gives such an isolate no result. The same holds for `barrier(streams, queueCapacity)`, which passes the integer on unchecked: `Topology.BarrierOver` keeps it, and `Dataflow.Eval` gives a barrier of capacity 0 or less no result, its input queues being full from the start.
- Pressure reliever: `count` is a natural number (negative counts are not modelled); which key the consumer drains next, and its fairness, are arbitrary inputs (the `Deliver` events).
- `samples/utils/src/main/java/quarks/samples/utils/sensor/SimulatedTemperatureSensor.java` (random floating-point readings) and `connectors/wsclient-javax.websocket/src/test/java/quarks/tests/connectors/wsclient/javax/websocket/KeystorePath.java` (file-system test helper) are not part of this model.
