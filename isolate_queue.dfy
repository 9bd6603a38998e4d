/**
 * The queue an isolate puts between the thread that submits tuples and the
 * thread (or threads) that process them downstream, as its documentation
 * states it. The producer puts each tuple at the tail; when a capacity is set
 * and the queue is full, the put blocks, so the tuple is not accepted yet and
 * the producer tries again later. The ordered isolate's consumer takes the
 * head; an unordered isolate's consumers may take any queued tuple.
 */
module IsolateQueue {
  import opened Wrappers

  /** What happens next: the producer offers a tuple, or a consumer takes the tuple at `index`. */
  datatype Event<T> = Put(tuple: T) | Take(index: nat)

  /** The queued tuples, every tuple the producer got in, and every tuple handed downstream. */
  datatype State<T> = State(queued: seq<T>, accepted: seq<T>, delivered: seq<T>)

  /** A put blocks: a capacity is set and that many tuples are queued. */
  predicate Full<T>(st: State<T>, capacity: Option<nat>)
  {
    capacity.Some? && |st.queued| >= capacity.value
  }

  /**
   * One event. A put on a full queue, or a take from an empty one, waits and
   * changes nothing. The ordered consumer always takes the head; an unordered
   * one takes the tuple at `index` when there is one.
   */
  function Step<T>(st: State<T>, capacity: Option<nat>, ordered: bool, e: Event<T>): (r: State<T>)
    ensures e.Put? && !Full(st, capacity) ==>
      r.queued == st.queued + [e.tuple] && r.accepted == st.accepted + [e.tuple] && r.delivered == st.delivered
    ensures e.Put? && Full(st, capacity) ==> r == st
    ensures e.Take? ==> r.accepted == st.accepted
    ensures e.Take? && st.queued != [] && ordered ==>
      r.delivered == st.delivered + [st.queued[0]] && r.queued == st.queued[1..]
    ensures e.Take? && !ordered && e.index < |st.queued| ==>
      && r.delivered == st.delivered + [st.queued[e.index]]
      && r.queued == st.queued[..e.index] + st.queued[e.index + 1..]
    ensures e.Take? && (if ordered then st.queued == [] else e.index >= |st.queued|) ==> r == st
  {
    match e
    case Put(t) =>
      if Full(st, capacity) then st else State(st.queued + [t], st.accepted + [t], st.delivered)
    case Take(i) =>
      var j := if ordered then 0 else i;
      if j < |st.queued| then
        State(st.queued[..j] + st.queued[j + 1..], st.accepted, st.delivered + [st.queued[j]])
      else st
  }

  /** The state after `events`, starting from an empty queue. */
  function Run<T>(events: seq<Event<T>>, capacity: Option<nat>, ordered: bool): (r: State<T>)
    // every tuple that got in is either still queued or delivered, counted once
    ensures |r.delivered| + |r.queued| == |r.accepted|
    decreases |events|
  {
    if events == [] then State([], [], [])
    else Step(Run(events[..|events| - 1], capacity, ordered), capacity, ordered, events[|events| - 1])
  }

  /** The tuples the producer offered during `events`, in order, blocked offers included. */
  function Offers<T>(events: seq<Event<T>>): (r: seq<T>)
    ensures |r| <= |events|
    decreases |events|
  {
    if events == [] then []
    else
      var e := events[|events| - 1];
      Offers(events[..|events| - 1]) + (if e.Put? then [e.tuple] else [])
  }

  /**
   * The ordered isolate is a FIFO: what went downstream followed by what is
   * still queued is exactly what the producer got in, in the same order.
   */
  lemma {:induction false} OrderedIsFifo<T>(events: seq<Event<T>>, capacity: Option<nat>)
    ensures var st := Run(events, capacity, true); st.delivered + st.queued == st.accepted
    decreases |events|
  {
    if events != [] {
      OrderedIsFifo(events[..|events| - 1], capacity);
      StepKeepsFifo(Run(events[..|events| - 1], capacity, true), capacity, events[|events| - 1]);
    }
  }

  /** One put or take of the ordered isolate keeps delivered followed by queued equal to what got in. */
  lemma StepKeepsFifo<T>(st: State<T>, capacity: Option<nat>, e: Event<T>)
    requires st.delivered + st.queued == st.accepted
    ensures var r := Step(st, capacity, true, e); r.delivered + r.queued == r.accepted
  {
    var r := Step(st, capacity, true, e);
    if e.Put? && !Full(st, capacity) {
      assert r.delivered + r.queued == (st.delivered + st.queued) + [e.tuple];
    } else if e.Take? && st.queued != [] {
      assert r.delivered + r.queued == st.delivered + ([st.queued[0]] + st.queued[1..]);
      assert [st.queued[0]] + st.queued[1..] == st.queued;
    }
  }

  /** Once the ordered queue has drained, its output is its input. */
  lemma OrderedDrainedIsIdentity<T>(events: seq<Event<T>>, capacity: Option<nat>)
    requires Run(events, capacity, true).queued == []
    ensures Run(events, capacity, true).delivered == Run(events, capacity, true).accepted
  {
    OrderedIsFifo(events, capacity);
    assert Run(events, capacity, true).delivered + [] == Run(events, capacity, true).delivered;
  }

  /**
   * Either isolate neither loses nor duplicates a tuple: what went downstream
   * and what is still queued together are, as a multiset, what got in.
   */
  lemma {:induction false} NothingLostOrDuplicated<T>(events: seq<Event<T>>, capacity: Option<nat>, ordered: bool)
    ensures var st := Run(events, capacity, ordered);
      multiset(st.delivered) + multiset(st.queued) == multiset(st.accepted)
    decreases |events|
  {
    if events != [] {
      NothingLostOrDuplicated(events[..|events| - 1], capacity, ordered);
      StepKeepsContents(Run(events[..|events| - 1], capacity, ordered), capacity, ordered, events[|events| - 1]);
    }
  }

  /** One put or take keeps delivered plus queued equal to what got in, as multisets. */
  lemma StepKeepsContents<T>(st: State<T>, capacity: Option<nat>, ordered: bool, e: Event<T>)
    requires multiset(st.delivered) + multiset(st.queued) == multiset(st.accepted)
    ensures var r := Step(st, capacity, ordered, e);
      multiset(r.delivered) + multiset(r.queued) == multiset(r.accepted)
  {
    if e.Put? {
      PutKeepsContents(st, capacity, ordered, e);
    } else {
      TakeKeepsContents(st, capacity, ordered, e);
    }
  }

  /** A put adds its tuple to both sides, or blocks and changes nothing. */
  lemma PutKeepsContents<T>(st: State<T>, capacity: Option<nat>, ordered: bool, e: Event<T>)
    requires e.Put?
    requires multiset(st.delivered) + multiset(st.queued) == multiset(st.accepted)
    ensures var r := Step(st, capacity, ordered, e);
      multiset(r.delivered) + multiset(r.queued) == multiset(r.accepted)
  {
    if !Full(st, capacity) {
      var r := Step(st, capacity, ordered, e);
      assert multiset(r.queued) == multiset(st.queued) + multiset{e.tuple};
      assert multiset(r.accepted) == multiset(st.accepted) + multiset{e.tuple};
    }
  }

  /** A take moves one tuple from queued to delivered, or waits and changes nothing. */
  lemma TakeKeepsContents<T>(st: State<T>, capacity: Option<nat>, ordered: bool, e: Event<T>)
    requires e.Take?
    requires multiset(st.delivered) + multiset(st.queued) == multiset(st.accepted)
    ensures var r := Step(st, capacity, ordered, e);
      multiset(r.delivered) + multiset(r.queued) == multiset(r.accepted)
  {
    var j := if ordered then 0 else e.index;
    if j < |st.queued| {
      var r := Step(st, capacity, ordered, e);
      assert r.queued == st.queued[..j] + st.queued[j + 1..];
      RemoveAt(st.queued, j);
      assert multiset(r.delivered) == multiset(st.delivered) + multiset{st.queued[j]};
    }
  }

  /** Taking the tuple at j out of q moves it, and only it, out of q's multiset. */
  lemma RemoveAt<T>(q: seq<T>, j: nat)
    requires j < |q|
    ensures multiset(q[..j] + q[j + 1..]) + multiset{q[j]} == multiset(q)
  {
    assert q == q[..j] + [q[j]] + q[j + 1..];
  }

  /** A bounded isolate never holds more than its capacity. */
  lemma {:induction false} BoundedNeverOverfills<T>(events: seq<Event<T>>, capacity: nat, ordered: bool)
    ensures |Run(events, Some(capacity), ordered).queued| <= capacity
    decreases |events|
  {
    if events != [] {
      BoundedNeverOverfills(events[..|events| - 1], capacity, ordered);
    }
  }

  /** Without a capacity no put ever blocks: every offered tuple gets in, in the order offered. */
  lemma {:induction false} UnboundedAcceptsEveryOffer<T>(events: seq<Event<T>>, ordered: bool)
    ensures Run(events, None, ordered).accepted == Offers(events)
    decreases |events|
  {
    if events != [] {
      UnboundedAcceptsEveryOffer(events[..|events| - 1], ordered);
    }
  }
}
