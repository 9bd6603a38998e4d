/**
 * The pressure reliever as its documentation states it: the tuples of
 * `stream` are kept per key, at most `count` of the most recent ones per key,
 * an arrival on a full buffer discarding that key's oldest tuple; the
 * consumer takes the oldest tuple of some key's buffer. Tuple order is kept
 * within a key; nothing is promised across keys.
 */
module PressureRelief {

  /** The `count` most recent tuples of s (all of s when it is no longer). */
  function Last<T>(s: seq<T>, count: nat): (r: seq<T>)
    ensures |r| <= count && |r| <= |s|
    ensures |s| <= count ==> r == s
    ensures |s| > count ==> |r| == count
  {
    if |s| <= count then s else s[|s| - count..]
  }

  /** What Last keeps is the end of s: the newest tuples, in their order. */
  lemma LastIsSuffix<T>(s: seq<T>, count: nat)
    ensures Last(s, count) == s[|s| - |Last(s, count)|..]
  {
  }

  /** The buffer of key k; a key's buffer is created lazily, empty until its first tuple. */
  function Buffer<T, K(==,!new)>(buffers: map<K, seq<T>>, k: K): seq<T>
  {
    if k in buffers then buffers[k] else []
  }

  /**
   * A tuple arrives: it joins the end of its key's buffer, which then keeps
   * its `count` newest tuples. No other key's buffer changes.
   */
  function Offer<T, K(==,!new)>(buffers: map<K, seq<T>>, keyOf: T -> K, count: nat, t: T): (b: map<K, seq<T>>)
    ensures b.Keys == buffers.Keys + {keyOf(t)}
    ensures Buffer(b, keyOf(t)) == Last(Buffer(buffers, keyOf(t)) + [t], count)
    ensures |Buffer(b, keyOf(t))| <= count
    ensures forall k :: k != keyOf(t) ==> Buffer(b, k) == Buffer(buffers, k)
  {
    buffers[keyOf(t) := Last(Buffer(buffers, keyOf(t)) + [t], count)]
  }

  /** The tuples of s whose key is k, in the order of s. */
  function OfKey<T, K(==,!new)>(s: seq<T>, keyOf: T -> K, k: K): (r: seq<T>)
    ensures |r| <= |s|
    ensures forall i :: 0 <= i < |r| ==> keyOf(r[i]) == k
    decreases |s|
  {
    if s == [] then []
    else OfKey(s[..|s| - 1], keyOf, k) + (if keyOf(s[|s| - 1]) == k then [s[|s| - 1]] else [])
  }

  /** The buffers after `ts` arrive, one by one, with no consumer draining them. */
  function OfferAll<T, K(==,!new)>(buffers: map<K, seq<T>>, keyOf: T -> K, count: nat, ts: seq<T>): (b: map<K, seq<T>>)
    // a buffer is added for the key of every arrival, and none is removed
    ensures b.Keys == buffers.Keys + set t | t in ts :: keyOf(t)
    decreases |ts|
  {
    if ts == [] then buffers
    else Offer(OfferAll(buffers, keyOf, count, ts[..|ts| - 1]), keyOf, count, ts[|ts| - 1])
  }

  /** Trimming before appending one more tuple keeps the same newest tuples. */
  lemma LastOfLast<T>(s: seq<T>, t: T, count: nat)
    ensures Last(Last(s, count) + [t], count) == Last(s + [t], count)
  {
    var l := Last(s, count);
    assert (s + [t])[|s + [t]| - |Last(s + [t], count)|..] == Last(s + [t], count);
    if |s| > count {
      assert l + [t] == (s + [t])[|s| - count..];
    }
  }

  /**
   * Without a consumer, each key's buffer holds the `count` newest tuples of
   * that key, in arrival order, whatever the tuples of other keys did.
   */
  lemma {:induction false} OfferAllKeepsNewest<T, K(!new)>(buffers: map<K, seq<T>>, keyOf: T -> K, count: nat, ts: seq<T>, k: K)
    requires |Buffer(buffers, k)| <= count
    ensures Buffer(OfferAll(buffers, keyOf, count, ts), k) == Last(Buffer(buffers, k) + OfKey(ts, keyOf, k), count)
    decreases |ts|
  {
    if ts == [] {
      assert Buffer(buffers, k) + [] == Buffer(buffers, k);
      LastIdempotent(Buffer(buffers, k), count);
    } else {
      var init, t := ts[..|ts| - 1], ts[|ts| - 1];
      OfferAllKeepsNewest(buffers, keyOf, count, init, k);
      var mid := OfferAll(buffers, keyOf, count, init);
      assert OfferAll(buffers, keyOf, count, ts) == Offer(mid, keyOf, count, t);
      var before := Buffer(buffers, k) + OfKey(init, keyOf, k);
      OfferKeepsNewest(mid, keyOf, count, t, k, before);
      if keyOf(t) == k {
        assert OfKey(ts, keyOf, k) == OfKey(init, keyOf, k) + [t];
        assert before + [t] == Buffer(buffers, k) + OfKey(ts, keyOf, k);
      } else {
        assert OfKey(ts, keyOf, k) == OfKey(init, keyOf, k);
      }
    }
  }

  /** One offer on a buffer holding the newest tuples of `before` keeps them newest. */
  lemma OfferKeepsNewest<T, K(!new)>(buffers: map<K, seq<T>>, keyOf: T -> K, count: nat, t: T, k: K, before: seq<T>)
    requires Buffer(buffers, k) == Last(before, count)
    ensures keyOf(t) == k ==> Buffer(Offer(buffers, keyOf, count, t), k) == Last(before + [t], count)
    ensures keyOf(t) != k ==> Buffer(Offer(buffers, keyOf, count, t), k) == Last(before, count)
  {
    if keyOf(t) == k {
      LastOfLast(before, t, count);
    }
  }

  /** Trimming a buffer that is already within bounds changes nothing. */
  lemma LastIdempotent<T>(s: seq<T>, count: nat)
    requires |s| <= count
    ensures Last(s, count) == s
  {
  }

  lemma {:induction false} OfKeyAll<T, K(!new)>(ts: seq<T>, keyOf: T -> K, k: K)
    requires forall i :: 0 <= i < |ts| ==> keyOf(ts[i]) == k
    ensures OfKey(ts, keyOf, k) == ts
    decreases |ts|
  {
    if ts != [] {
      OfKeyAll(ts[..|ts| - 1], keyOf, k);
      assert ts[..|ts| - 1] + [ts[|ts| - 1]] == ts;
    }
  }

  /** One key, no consumer: after m tuples the buffer is exactly the last `count` of them, in order. */
  lemma SingleKeyKeepsLastCount<T, K(!new)>(keyOf: T -> K, count: nat, ts: seq<T>, k: K)
    requires forall i :: 0 <= i < |ts| ==> keyOf(ts[i]) == k
    ensures Buffer(OfferAll(map[], keyOf, count, ts), k) == Last(ts, count)
  {
    OfferAllKeepsNewest(map[], keyOf, count, ts, k);
    OfKeyAll(ts, keyOf, k);
    assert Buffer(map[], k) + ts == ts;
  }

  // ---------------------------------------------------------------------------
  // Arrivals interleaved with deliveries
  // ---------------------------------------------------------------------------

  /** What happens next: a tuple arrives, or the consumer takes the oldest tuple of key k. */
  datatype Event<T, K> = Arrive(tuple: T) | Deliver(key: K)

  datatype State<T, K> = State(buffers: map<K, seq<T>>, delivered: seq<T>)

  /** The key whose buffer event e touches. */
  function KeyOf<T, K>(e: Event<T, K>, keyOf: T -> K): K
  {
    match e
    case Arrive(t) => keyOf(t)
    case Deliver(k) => k
  }

  /**
   * One event. An arrival delivers nothing; a delivery hands over the oldest
   * tuple of its key and drops it from that buffer, and does nothing when
   * the buffer is empty. Only the touched key's buffer changes, and a key is
   * added only by the first arrival that carries it.
   */
  function Step<T, K(==,!new)>(st: State<T, K>, keyOf: T -> K, count: nat, e: Event<T, K>): (r: State<T, K>)
    ensures r.buffers.Keys == st.buffers.Keys + (if e.Arrive? then {keyOf(e.tuple)} else {})
    ensures forall k :: k != KeyOf(e, keyOf) ==> Buffer(r.buffers, k) == Buffer(st.buffers, k)
    ensures e.Arrive? ==> r.delivered == st.delivered && r.buffers == Offer(st.buffers, keyOf, count, e.tuple)
    ensures e.Deliver? && Buffer(st.buffers, e.key) == [] ==> r == st
    ensures e.Deliver? && Buffer(st.buffers, e.key) != [] ==>
      && r.delivered == st.delivered + [Buffer(st.buffers, e.key)[0]]
      && Buffer(r.buffers, e.key) == Buffer(st.buffers, e.key)[1..]
  {
    match e
    case Arrive(t) => State(Offer(st.buffers, keyOf, count, t), st.delivered)
    case Deliver(k) =>
      var b := Buffer(st.buffers, k);
      if b == [] then st else State(st.buffers[k := b[1..]], st.delivered + [b[0]])
  }

  /** The state after `events`, starting with no buffers and nothing delivered. */
  function Run<T, K(==,!new)>(events: seq<Event<T, K>>, keyOf: T -> K, count: nat): (r: State<T, K>)
    // buffers exist exactly for the keys that have seen a tuple
    ensures r.buffers.Keys == set t | t in Arrivals(events) :: keyOf(t)
    decreases |events|
  {
    if events == [] then State(map[], [])
    else Step(Run(events[..|events| - 1], keyOf, count), keyOf, count, events[|events| - 1])
  }

  /** The tuples that arrived during `events`, in order. */
  function Arrivals<T, K(==,!new)>(events: seq<Event<T, K>>): seq<T>
    decreases |events|
  {
    if events == [] then []
    else
      var e := events[|events| - 1];
      Arrivals(events[..|events| - 1]) + (if e.Arrive? then [e.tuple] else [])
  }

  /** p embeds a in b: a[i] is b[p[i]], the positions strictly increasing. */
  ghost predicate Embeds<T>(a: seq<T>, b: seq<T>, p: seq<nat>)
  {
    && |p| == |a|
    && (forall i :: 0 <= i < |p| ==> p[i] < |b| && a[i] == b[p[i]])
    && (forall i, j :: 0 <= i < j < |p| ==> p[i] < p[j])
  }

  /** a is b with some tuples left out, the rest in the same order. */
  ghost predicate Subseq<T>(a: seq<T>, b: seq<T>)
  {
    exists p :: Embeds(a, b, p)
  }

  lemma SubseqTrans<T>(a: seq<T>, b: seq<T>, c: seq<T>)
    requires Subseq(a, b) && Subseq(b, c)
    ensures Subseq(a, c)
  {
    var p: seq<nat> :| Embeds(a, b, p);
    var q: seq<nat> :| Embeds(b, c, q);
    var r := seq(|a|, i requires 0 <= i < |a| => q[p[i]]);
    assert Embeds(a, c, r);
  }

  lemma SubseqSnoc<T>(a: seq<T>, b: seq<T>, x: T)
    requires Subseq(a, b)
    ensures Subseq(a + [x], b + [x])
  {
    var p: seq<nat> :| Embeds(a, b, p);
    assert Embeds(a + [x], b + [x], p + [|b|]);
  }

  /** Leaving out a block after a prefix keeps a subsequence. */
  lemma SubseqDropBlock<T>(x: seq<T>, d: seq<T>, j: nat)
    requires j <= |d|
    ensures Subseq(x + d[j..], x + d)
  {
    var p := seq(|x| + |d| - j, i requires 0 <= i < |x| + |d| - j => if i < |x| then i else i + j);
    assert Embeds(x + d[j..], x + d, p);
  }

  lemma SubseqPrefix<T>(a: seq<T>, b: seq<T>)
    ensures Subseq(a, a + b)
  {
    assert Embeds(a, a + b, seq(|a|, i requires 0 <= i < |a| => i));
  }

  /**
   * The reliever's invariant against the tuples that arrived: every buffer
   * holds only its own key's tuples and at most `count` of them, and for each
   * key, what was delivered followed by what is buffered is that key's
   * arrivals with some left out, in arrival order.
   */
  ghost predicate Inv<T, K(!new)>(st: State<T, K>, arrived: seq<T>, keyOf: T -> K, count: nat)
  {
    forall k ::
      && |Buffer(st.buffers, k)| <= count
      && (forall i :: 0 <= i < |Buffer(st.buffers, k)| ==> keyOf(Buffer(st.buffers, k)[i]) == k)
      && Subseq(OfKey(st.delivered, keyOf, k) + Buffer(st.buffers, k), OfKey(arrived, keyOf, k))
  }

  /** Appending to a buffer and trimming it keeps what was delivered then buffered a subsequence. */
  lemma TrimKeepsSubseq<T>(x: seq<T>, b: seq<T>, arrived: seq<T>, t: T, count: nat)
    requires Subseq(x + b, arrived)
    ensures Subseq(x + Last(b + [t], count), arrived + [t])
  {
    var d := b + [t];
    var j := |d| - |Last(d, count)|;
    assert Last(d, count) == d[j..];
    SubseqSnoc(x + b, arrived, t);
    assert x + b + [t] == x + d;
    SubseqDropBlock(x, d, j);
    SubseqTrans(x + d[j..], x + d, arrived + [t]);
  }

  /** Trimming a buffer of key k keeps it a buffer of key k. */
  lemma TrimKeepsKey<T, K>(b: seq<T>, t: T, count: nat, keyOf: T -> K, k: K)
    requires forall i :: 0 <= i < |b| ==> keyOf(b[i]) == k
    requires keyOf(t) == k
    ensures forall i :: 0 <= i < |Last(b + [t], count)| ==> keyOf(Last(b + [t], count)[i]) == k
  {
    var d := b + [t];
    var l := Last(d, count);
    forall i | 0 <= i < |l| ensures keyOf(l[i]) == k {
      assert l[i] == d[|d| - |l| + i];
    }
  }

  lemma ArriveKeepsInv<T, K(!new)>(st: State<T, K>, arrived: seq<T>, keyOf: T -> K, count: nat, t: T)
    requires Inv(st, arrived, keyOf, count)
    ensures Inv(Step(st, keyOf, count, Arrive(t)), arrived + [t], keyOf, count)
  {
    var st' := Step(st, keyOf, count, Arrive(t));
    assert st' == State(Offer(st.buffers, keyOf, count, t), st.delivered);
    assert (arrived + [t])[..|arrived + [t]| - 1] == arrived;
    forall k
      ensures && |Buffer(st'.buffers, k)| <= count
              && (forall i :: 0 <= i < |Buffer(st'.buffers, k)| ==> keyOf(Buffer(st'.buffers, k)[i]) == k)
              && Subseq(OfKey(st'.delivered, keyOf, k) + Buffer(st'.buffers, k), OfKey(arrived + [t], keyOf, k))
    {
      var x := OfKey(st.delivered, keyOf, k);
      var b := Buffer(st.buffers, k);
      if k == keyOf(t) {
        assert Buffer(st'.buffers, k) == Last(b + [t], count);
        assert OfKey(arrived + [t], keyOf, k) == OfKey(arrived, keyOf, k) + [t];
        TrimKeepsSubseq(x, b, OfKey(arrived, keyOf, k), t, count);
        TrimKeepsKey(b, t, count, keyOf, k);
      } else {
        assert Buffer(st'.buffers, k) == b;
        assert OfKey(arrived + [t], keyOf, k) == OfKey(arrived, keyOf, k);
      }
    }
  }

  lemma DeliverKeepsInv<T, K(!new)>(st: State<T, K>, arrived: seq<T>, keyOf: T -> K, count: nat, k0: K)
    requires Inv(st, arrived, keyOf, count)
    ensures Inv(Step(st, keyOf, count, Deliver(k0)), arrived, keyOf, count)
  {
    var b0 := Buffer(st.buffers, k0);
    if b0 != [] {
      var st' := Step(st, keyOf, count, Deliver(k0));
      var out := st.delivered + [b0[0]];
      assert st'.delivered == out;
      assert out[..|out| - 1] == st.delivered;
      assert keyOf(b0[0]) == k0;
      forall k
        ensures && |Buffer(st'.buffers, k)| <= count
                && (forall i :: 0 <= i < |Buffer(st'.buffers, k)| ==> keyOf(Buffer(st'.buffers, k)[i]) == k)
                && Subseq(OfKey(st'.delivered, keyOf, k) + Buffer(st'.buffers, k), OfKey(arrived, keyOf, k))
      {
        if k == k0 {
          assert OfKey(out, keyOf, k) == OfKey(st.delivered, keyOf, k) + [b0[0]];
          assert OfKey(out, keyOf, k) + b0[1..] == OfKey(st.delivered, keyOf, k) + b0;
          forall i | 0 <= i < |b0[1..]| ensures keyOf(b0[1..][i]) == k {
            assert b0[1..][i] == b0[i + 1];
          }
        } else {
          assert OfKey(out, keyOf, k) == OfKey(st.delivered, keyOf, k);
          assert Buffer(st'.buffers, k) == Buffer(st.buffers, k);
        }
      }
    }
  }

  lemma {:induction false} RunKeepsInv<T, K(!new)>(events: seq<Event<T, K>>, keyOf: T -> K, count: nat)
    ensures Inv(Run(events, keyOf, count), Arrivals(events), keyOf, count)
    decreases |events|
  {
    if events == [] {
      var st := Run(events, keyOf, count);
      assert st == State(map[], []);
      forall k
        ensures Subseq(OfKey(st.delivered, keyOf, k) + Buffer(st.buffers, k), OfKey(Arrivals(events), keyOf, k))
      {
        assert OfKey(st.delivered, keyOf, k) + Buffer(st.buffers, k) == [];
        assert OfKey(Arrivals(events), keyOf, k) == [];
        assert Embeds<T>([], [], []);
      }
    } else {
      var init, e := events[..|events| - 1], events[|events| - 1];
      RunKeepsInv(init, keyOf, count);
      assert Run(events, keyOf, count) == Step(Run(init, keyOf, count), keyOf, count, e);
      match e
      case Arrive(t) =>
        ArriveKeepsInv(Run(init, keyOf, count), Arrivals(init), keyOf, count, t);
      case Deliver(k) =>
        assert Arrivals(events) == Arrivals(init) + [] == Arrivals(init);
        DeliverKeepsInv(Run(init, keyOf, count), Arrivals(init), keyOf, count, k);
    }
  }

  /**
   * Whatever interleaving of arrivals and deliveries: each key's buffer holds
   * at most `count` tuples, and the tuples delivered for a key are that key's
   * arrivals with some dropped and none reordered or duplicated.
   */
  lemma PerKeyOrder<T, K(!new)>(events: seq<Event<T, K>>, keyOf: T -> K, count: nat, k: K)
    ensures |Buffer(Run(events, keyOf, count).buffers, k)| <= count
    ensures Subseq(OfKey(Run(events, keyOf, count).delivered, keyOf, k), OfKey(Arrivals(events), keyOf, k))
  {
    RunKeepsInv(events, keyOf, count);
    var st := Run(events, keyOf, count);
    var x := OfKey(st.delivered, keyOf, k);
    SubseqPrefix(x, Buffer(st.buffers, k));
    SubseqTrans(x, x + Buffer(st.buffers, k), OfKey(Arrivals(events), keyOf, k));
  }
}
