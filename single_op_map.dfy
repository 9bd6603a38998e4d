/**
 * concurrentMapSingleOp: the per-tuple function that runs every mapper on the
 * tuple as a separate task, fills slot i of a result list with mapper i's
 * result, waits for all tasks in submission order and hands the list to the
 * combiner.
 *
 * Mappers are functions to Option, None standing for a null result. The thread
 * pool is replaced by a schedule: the order in which the tasks run.
 */
module SingleOpMap {
  import opened Wrappers

  /** The runtime errors concurrentMapSingleOp raises for a tuple. */
  datatype MapError =
    /** Executors.newFixedThreadPool(0) refuses a pool of size 0 when there are no mappers. */
    | PoolSizeInvalid
    /** The IllegalStateException "mapper index i returned null", rethrown by the wait on task i. */
    | MapperReturnedNull(index: nat)

  /** What each mapper returns for the tuple, in mapper order. */
  function Outputs<T, U>(mappers: seq<T -> Option<U>>, tuple: T): (s: seq<Option<U>>)
    ensures |s| == |mappers|
    ensures forall i :: 0 <= i < |s| ==> s[i] == mappers[i](tuple)
  {
    seq(|mappers|, i requires 0 <= i < |mappers| => mappers[i](tuple))
  }

  /** The index of the first missing result, or |s| when every result is present. */
  function FirstNull<U>(s: seq<Option<U>>): (k: nat)
    ensures k <= |s|
    ensures forall j :: 0 <= j < k ==> s[j].Some?
    ensures k < |s| ==> s[k].None?
  {
    if s == [] then 0 else if s[0].None? then 0 else 1 + FirstNull(s[1..])
  }

  /** The results of a list in which every result is present. */
  function Values<U>(s: seq<Option<U>>): (vs: seq<U>)
    requires forall i :: 0 <= i < |s| ==> s[i].Some?
    ensures |vs| == |s|
    ensures forall i :: 0 <= i < |s| ==> Some(vs[i]) == s[i]
  {
    seq(|s|, i requires 0 <= i < |s| => s[i].value)
  }

  /** A schedule of the n tasks: each task runs exactly once, in schedule order. */
  predicate IsSchedule(schedule: seq<nat>, n: nat)
  {
    && |schedule| == n
    && (forall j :: 0 <= j < |schedule| ==> schedule[j] < n)
    && (forall i :: 0 <= i < n ==> i in schedule)
  }

  /**
   * One application of the concurrentMapSingleOp function to `tuple`.
   * Whatever the schedule, the combiner gets the list whose entry i is
   * mapper i's result; a null result fails the tuple, reporting the first
   * failing mapper in mapper order since the tasks are awaited in that order.
   */
  method Apply<T, U, R>(tuple: T, mappers: seq<T -> Option<U>>, combiner: seq<U> -> R, schedule: seq<nat>)
    returns (r: Result<R, MapError>)
    requires IsSchedule(schedule, |mappers|)
    ensures |mappers| == 0 ==> r == Failure(PoolSizeInvalid)
    ensures |mappers| > 0 && FirstNull(Outputs(mappers, tuple)) < |mappers| ==>
      r == Failure(MapperReturnedNull(FirstNull(Outputs(mappers, tuple))))
    ensures |mappers| > 0 && FirstNull(Outputs(mappers, tuple)) == |mappers| ==>
      r == Success(combiner(Values(Outputs(mappers, tuple))))
  {
    var n := |mappers|;
    if n == 0 {
      return Failure(PoolSizeInvalid);
    }
    // the result list starts as n nulls; done[i] is whether task i completed normally
    var results := new Option<U>[n](_ => None);
    var done := new bool[n](_ => false);

    // run the tasks in schedule order; each one fills only its own slot
    var j := 0;
    while j < n
      invariant 0 <= j <= n
      invariant forall i :: 0 <= i < n ==>
        done[i] == (i in schedule[..j] && mappers[i](tuple).Some?)
      invariant forall i :: 0 <= i < n ==>
        results[i] == if done[i] then mappers[i](tuple) else None
    {
      var index := schedule[j];
      var result := mappers[index](tuple);
      if result.Some? {
        results[index] := result;
        done[index] := true;
      }
      j := j + 1;
    }
    assert schedule[..n] == schedule;

    // await the tasks in submission order
    var k := 0;
    while k < n
      invariant 0 <= k <= n
      invariant forall i :: 0 <= i < k ==> done[i]
    {
      if !done[k] {
        assert Outputs(mappers, tuple)[k].None?;
        FirstNullIsFirst(Outputs(mappers, tuple), k);
        return Failure(MapperReturnedNull(k));
      }
      k := k + 1;
    }
    assert results[..] == Outputs(mappers, tuple);
    FirstNullIsFirst(Outputs(mappers, tuple), n);
    r := Success(combiner(Values(results[..])));
  }

  /** FirstNull is determined by where the missing results are. */
  lemma FirstNullIsFirst<U>(s: seq<Option<U>>, k: nat)
    requires k <= |s|
    requires forall j :: 0 <= j < k ==> s[j].Some?
    requires k < |s| ==> s[k].None?
    ensures FirstNull(s) == k
  {
  }
}
