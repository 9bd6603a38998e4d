/**
 * What a barrier emits, as its documentation states it: once every input has
 * a tuple, one list holding one tuple from each input, input i at position i;
 * then the same again. With finite inputs this is a zip that stops at the
 * shortest input: no partial round is ever emitted.
 */
module BarrierRounds {

  /** The length of the shortest input. */
  function MinLength<V>(inputs: seq<seq<V>>): (m: nat)
    requires |inputs| > 0
    ensures forall i :: 0 <= i < |inputs| ==> m <= |inputs[i]|
    ensures exists i :: 0 <= i < |inputs| && m == |inputs[i]|
  {
    if |inputs| == 1 then |inputs[0]|
    else
      var rest := MinLength(inputs[1..]);
      if |inputs[0]| <= rest then |inputs[0]| else rest
  }

  predicate AllNonEmpty<V>(inputs: seq<seq<V>>)
  {
    forall i :: 0 <= i < |inputs| ==> inputs[i] != []
  }

  /** The tuples one round takes: the oldest of every input, input i at position i. */
  function Heads<V>(inputs: seq<seq<V>>): (h: seq<V>)
    requires AllNonEmpty(inputs)
    ensures |h| == |inputs| && forall i :: 0 <= i < |h| ==> h[i] == inputs[i][0]
  {
    seq(|inputs|, i requires 0 <= i < |inputs| => inputs[i][0])
  }

  /** What is left on every input after a round. */
  function Tails<V>(inputs: seq<seq<V>>): (t: seq<seq<V>>)
    requires AllNonEmpty(inputs)
    ensures |t| == |inputs| && forall i :: 0 <= i < |t| ==> t[i] == inputs[i][1..]
  {
    seq(|inputs|, i requires 0 <= i < |inputs| => inputs[i][1..])
  }

  /** The barrier's synchronization loop: a round while every input has a tuple. */
  function Rounds<V>(inputs: seq<seq<V>>): (r: seq<seq<V>>)
    requires |inputs| > 0
    // no input is read past its end: no round is emitted without a tuple from every input
    ensures forall i :: 0 <= i < |inputs| ==> |r| <= |inputs[i]|
    decreases |inputs[0]|
  {
    if AllNonEmpty(inputs) then [Heads(inputs)] + Rounds(Tails(inputs)) else []
  }

  /**
   * The n-th output list pairs element n of every input, input i at position i,
   * and there are exactly as many lists as the shortest input has tuples.
   */
  lemma {:induction false} RoundsAt<V>(inputs: seq<seq<V>>)
    requires |inputs| > 0
    ensures |Rounds(inputs)| == MinLength(inputs)
    ensures forall n :: 0 <= n < |Rounds(inputs)| ==> |Rounds(inputs)[n]| == |inputs|
    ensures forall n, i :: 0 <= n < |Rounds(inputs)| && 0 <= i < |inputs| ==> Rounds(inputs)[n][i] == inputs[i][n]
    decreases |inputs[0]|
  {
    if AllNonEmpty(inputs) {
      var t := Tails(inputs);
      RoundsAt(t);
      MinLengthOfTails(inputs);
      var r := Rounds(inputs);
      assert r == [Heads(inputs)] + Rounds(t);
      forall n, i | 0 <= n < |r| && 0 <= i < |inputs|
        ensures |r[n]| == |inputs| && r[n][i] == inputs[i][n]
      {
        if n > 0 {
          assert r[n] == Rounds(t)[n - 1];
          assert t[i][n - 1] == inputs[i][n];
        }
      }
    } else {
      var i :| 0 <= i < |inputs| && inputs[i] == [];
      assert MinLength(inputs) <= |inputs[i]|;
    }
  }

  lemma MinLengthOfTails<V>(inputs: seq<seq<V>>)
    requires |inputs| > 0 && AllNonEmpty(inputs)
    ensures MinLength(Tails(inputs)) + 1 == MinLength(inputs)
  {
    var t := Tails(inputs);
    var j :| 0 <= j < |t| && MinLength(t) == |t[j]|;
    var k :| 0 <= k < |inputs| && MinLength(inputs) == |inputs[k]|;
    assert MinLength(t) <= |t[k]|;
    assert MinLength(inputs) <= |inputs[j]|;
  }

  /** Two inputs of three tuples each, fed in lockstep, give three pairs in order. */
  lemma TwoInputsThreeRounds<V>(a0: V, a1: V, a2: V, b0: V, b1: V, b2: V)
    ensures Rounds([[a0, a1, a2], [b0, b1, b2]]) == [[a0, b0], [a1, b1], [a2, b2]]
  {
    var inputs := [[a0, a1, a2], [b0, b1, b2]];
    RoundsAt(inputs);
    var r := Rounds(inputs);
    assert MinLength(inputs) == 3;
    assert r[0] == [a0, b0] && r[1] == [a1, b1] && r[2] == [a2, b2];
  }
}
