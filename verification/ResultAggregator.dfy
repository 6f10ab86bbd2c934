/**
 Collecting the results of tasks that end in any order. A task takes its index when it is
 submitted and saves its result under that index; each method runs under the mutex. At the
 end the results of failed tasks are filtered out in place.
 */
module ResultAggregator {

  type Result = int

  const ZERO: Result := 0

  datatype Save = Save(result: Result, errored: bool)

  // ---------------------------------------------------------------- sorting

  predicate Increasing(s: seq<nat>) {
    forall i, j :: 0 <= i < j < |s| ==> s[i] < s[j]
  }

  function Members(s: seq<nat>): set<nat> {
    set i | i in s
  }

  function InsertInt(sorted: seq<nat>, n: nat): (r: seq<nat>)
    ensures forall i :: i in r <==> i in sorted || i == n
  {
    if sorted != [] && n < sorted[|sorted| - 1] then
      assert sorted == sorted[..|sorted| - 1] + [sorted[|sorted| - 1]];
      InsertInt(sorted[..|sorted| - 1], n) + [sorted[|sorted| - 1]]
    else sorted + [n]
  }

  /** The library's sort, of distinct numbers. */
  function SortInts(s: seq<nat>): (r: seq<nat>)
    ensures forall i :: i in r <==> i in s
  {
    if s == [] then []
    else
      assert s == s[..|s| - 1] + [s[|s| - 1]];
      InsertInt(SortInts(s[..|s| - 1]), s[|s| - 1])
  }

  lemma {:induction false} InsertIncreasing(sorted: seq<nat>, n: nat)
    requires Increasing(sorted) && n !in sorted
    ensures Increasing(InsertInt(sorted, n))
    decreases |sorted|
  {
    if sorted != [] && n < sorted[|sorted| - 1] {
      var k := |sorted| - 1;
      var before := InsertInt(sorted[..k], n);
      InsertIncreasing(sorted[..k], n);
      forall i | 0 <= i < |before|
        ensures before[i] < sorted[k]
      {
        assert before[i] in before;
      }
    }
  }

  predicate Distinct(s: seq<nat>) {
    forall i, j :: 0 <= i < j < |s| ==> s[i] != s[j]
  }

  lemma {:induction false} SortIncreasing(s: seq<nat>)
    requires Distinct(s)
    ensures Increasing(SortInts(s))
  {
    if s != [] {
      var k := |s| - 1;
      SortIncreasing(s[..k]);
      assert s[k] !in s[..k];
      InsertIncreasing(SortInts(s[..k]), s[k]);
    }
  }

  // ---------------------------------------------------------------- filtering

  /** The results with index below `n` whose tasks did not fail, in order. */
  function Kept(results: seq<Result>, errored: set<nat>, n: nat): seq<Result>
    requires n <= |results|
  {
    if n == 0 then []
    else Kept(results, errored, n - 1) + if n - 1 in errored then [] else [results[n - 1]]
  }

  lemma {:induction false} KeptLength(results: seq<Result>, errored: set<nat>, n: nat)
    requires n <= |results|
    ensures |Kept(results, errored, n)| <= n
  {
    if n > 0 {
      KeptLength(results, errored, n - 1);
    }
  }

  function CountGood(errored: set<nat>, n: nat): nat {
    if n == 0 then 0 else CountGood(errored, n - 1) + if n - 1 in errored then 0 else 1
  }

  lemma {:induction false} KeptCount(results: seq<Result>, errored: set<nat>, n: nat)
    requires n <= |results|
    ensures |Kept(results, errored, n)| == CountGood(errored, n)
  {
    if n > 0 {
      KeptCount(results, errored, n - 1);
    }
  }

  /** They are exactly the results that did not fail: as many, and each at its place. */
  lemma {:induction false} KeptExactly(results: seq<Result>, errored: set<nat>, n: nat, i: nat)
    requires i < n <= |results| && i !in errored
    ensures |Kept(results, errored, n)| == CountGood(errored, n) > CountGood(errored, i)
    ensures Kept(results, errored, n)[CountGood(errored, i)] == results[i]
  {
    KeptCount(results, errored, n - 1);
    if i < n - 1 {
      KeptExactly(results, errored, n - 1, i);
    }
  }

  /** One past the largest errored index. */
  function Reach(errored: seq<nat>): nat {
    if errored == [] then 0
    else
      var before, last := Reach(errored[..|errored| - 1]), errored[|errored| - 1] + 1;
      if before < last then last else before
  }

  lemma {:induction false} ReachBounds(errored: seq<nat>)
    ensures forall i :: i in errored ==> i < Reach(errored)
    ensures errored != [] ==> Reach(errored) - 1 in errored
  {
    if errored != [] {
      ReachBounds(errored[..|errored| - 1]);
      assert errored == errored[..|errored| - 1] + [errored[|errored| - 1]];
    }
  }

  /** What the collection returns: with failures it stops at the last one. */
  function Collected(results: seq<Result>, errored: seq<nat>, collectErrored: bool): seq<Result>
    requires forall i :: i in errored ==> i < |results|
  {
    ReachBounds(errored);
    if collectErrored || errored == [] then results else Kept(results, Members(errored), Reach(errored))
  }

  /** Everything is returned if failed results are wanted or none failed; otherwise what did not
      fail before the last failure. */
  lemma CollectedExactly(results: seq<Result>, errored: seq<nat>, collectErrored: bool)
    requires forall i :: i in errored ==> i < |results|
    ensures collectErrored || errored == [] ==> Collected(results, errored, collectErrored) == results
    ensures !collectErrored && errored != [] ==> exists last ::
      && last in errored && (forall i :: i in errored ==> i <= last)
      && Collected(results, errored, collectErrored) == Kept(results, Members(errored), last)
  {
    if errored != [] {
      ReachBounds(errored);
      var last := Reach(errored) - 1;
      assert last in Members(errored);
      assert Kept(results, Members(errored), last + 1) == Kept(results, Members(errored), last) + [];
    }
  }

  /** Nothing that succeeded is lost exactly when the last task failed, or none did. */
  lemma CollectsAllExactly(results: seq<Result>, errored: seq<nat>)
    requires forall i :: i in errored ==> i < |results|
    ensures Collected(results, errored, false) == Kept(results, Members(errored), |results|) <==>
      errored == [] || |results| - 1 in errored
  {
    ReachBounds(errored);
    if errored == [] {
      KeptNoErrors(results, Members(errored), |results|);
      assert results[..|results|] == results;
    } else {
      KeptAbove(results, Members(errored), Reach(errored), |results|);
      AtTheEnd(errored, |results|);
    }
  }

  /** Of two tasks the first fails: the result of the second is not returned. */
  lemma ResultLost()
    ensures Collected([10, 20], [0], false) == []
    ensures Kept([10, 20], Members([0]), 2) == [20]
  {
    var results, errored := [10, 20], Members([0]);
    assert 0 in errored && 1 !in errored;
    assert [0][..0] == [] && Reach([0]) == 1;
    assert Kept(results, errored, 1) == [];
  }

  lemma AtTheEnd(errored: seq<nat>, n: nat)
    requires errored != [] && forall i :: i in errored ==> i < n
    ensures Reach(errored) == n <==> n - 1 in errored
  {
    ReachBounds(errored);
  }

  lemma {:induction false} KeptNoErrors(results: seq<Result>, errored: set<nat>, n: nat)
    requires n <= |results| && errored == {}
    ensures Kept(results, errored, n) == results[..n]
  {
    if n > 0 {
      KeptNoErrors(results, errored, n - 1);
    }
  }

  lemma {:induction false} KeptAbove(results: seq<Result>, errored: set<nat>, m: nat, n: nat)
    requires m <= n <= |results|
    requires forall i :: m <= i < n ==> i !in errored
    ensures |Kept(results, errored, n)| == |Kept(results, errored, m)| + n - m
  {
    if m < n {
      KeptAbove(results, errored, m, n - 1);
    }
  }

  // ---------------------------------------------------------------- the aggregator

  class Aggregator {
    var len: nat
    var results: array<Result>
    var errored: seq<nat>
    ghost var saved: map<nat, Save>

    /** Every saved result is in its slot, and the failed ones are listed once each. */
    ghost predicate Valid()
      reads this, results
    {
      && results.Length <= len
      && (forall i :: i in saved ==> i < results.Length && results[i] == saved[i].result)
      && (forall i :: 0 <= i < results.Length && i !in saved ==> results[i] == ZERO)
      && Distinct(errored)
      && (forall i :: i in errored <==> i in saved && saved[i].errored)
    }

    constructor ()
      ensures Valid() && len == 0 && saved == map[] && fresh(results)
    {
      len, errored, saved := 0, [], map[];
      results := new Result[0];
    }

    method NextIndex() returns (nextIdx: nat)
      requires Valid()
      modifies this`len
      ensures Valid() && nextIdx == old(len) && len == old(len) + 1
    {
      nextIdx := len;
      len := len + 1;
    }

    /** Saves the result of the task with this index, which has not been saved before. */
    method SaveResult(i: nat, res: Result, failed: bool)
      requires Valid() && i < len && i !in saved
      modifies this`results, this`errored, this`saved, results
      ensures Valid() && saved == old(saved)[i := Save(res, failed)]
      ensures results == old(results) || fresh(results)
    {
      if i >= results.Length {
        var grown := new Result[len](_ => ZERO);
        var k := 0;
        while k < results.Length
          modifies grown
          invariant 0 <= k <= results.Length
          invariant forall j :: 0 <= j < k ==> grown[j] == results[j]
          invariant forall j :: k <= j < len ==> grown[j] == ZERO
        {
          grown[k] := results[k];
          k := k + 1;
        }
        results := grown;
      }
      results[i] := res;
      if failed {
        errored := errored + [i];
      }
      saved := saved[i := Save(res, failed)];
    }

    /** Once every submitted task has saved its result, the slots are the results in order of
        submission. */
    lemma AllSaved()
      requires Valid() && forall i :: 0 <= i < len ==> i in saved
      ensures results.Length == len
      ensures forall i :: 0 <= i < len ==> results[i] == saved[i].result
    {
      if len > 0 {
        assert len - 1 in saved;
      }
    }

    /** Returns the length of the part of the results that is the answer. The results are slid
        to the front of the same array; none is overwritten before it has been read. */
    method Collect(collectErrored: bool) returns (n: nat)
      requires Valid() && forall i :: 0 <= i < len ==> i in saved
      modifies this`errored, results
      ensures n <= results.Length
      ensures results[..n] == Collected(old(results[..]), old(errored), collectErrored)
    {
      if collectErrored || |errored| == 0 {
        return results.Length;
      }
      LastIsReach(errored);
      InRange();
      ghost var was, failed := results[..], Members(errored);
      assert Collected(was, errored, false) == Kept(was, failed, Reach(errored));
      var sorted := SortInts(errored);
      assert sorted[|sorted| - 1] + 1 == Reach(errored);
      n := SlideAll(results, sorted, failed);
      assert results[..n] == Kept(was, failed, sorted[|sorted| - 1] + 1);
      errored := sorted;
    }

    lemma InRange()
      requires Valid()
      ensures forall i :: i in errored ==> i < results.Length
      ensures errored != [] ==> 0 < Reach(errored) <= results.Length
    {
      ReachBounds(errored);
    }
  }

  /** Appends, for each errored index, the slots between the one before it and it. */
  method SlideAll(results: array<Result>, sorted: seq<nat>, ghost failed: set<nat>) returns (n: nat)
    requires sorted != [] && Increasing(sorted) && forall j :: j in failed <==> j in sorted
    requires sorted[|sorted| - 1] < results.Length
    modifies results
    ensures n <= results.Length
    ensures results[..n] == Kept(old(results[..]), failed, sorted[|sorted| - 1] + 1)
  {
    n := 0;
    var i, start := 0, 0;
    assert forall j :: 0 <= j < |sorted| ==> sorted[j] <= sorted[|sorted| - 1];
    while i < |sorted|
      invariant 0 <= i <= |sorted| && start == if i == 0 then 0 else sorted[i - 1] + 1
      invariant n <= start <= results.Length
      invariant forall j :: start <= j < results.Length ==> results[j] == old(results[j])
      invariant results[..n] == Kept(old(results[..]), failed, start)
    {
      NoneBetween(sorted, failed, i);
      n := Slide(results, n, start, sorted[i], old(results[..]), failed);
      start := sorted[i] + 1;
      i := i + 1;
    }
  }

  /** Appends the slots from `start` to `end` to the first `n`, in the same array. */
  method Slide(results: array<Result>, n: nat, start: nat, end: nat, ghost was: seq<Result>, ghost failed: set<nat>)
    returns (m: nat)
    requires n <= start <= end < results.Length == |was|
    requires forall j :: start <= j < results.Length ==> results[j] == was[j]
    requires results[..n] == Kept(was, failed, start)
    requires end in failed && forall j :: start <= j < end ==> j !in failed
    modifies results
    ensures m <= end + 1
    ensures forall j :: end < j < results.Length ==> results[j] == was[j]
    ensures results[..m] == Kept(was, failed, end + 1)
  {
    m := n;
    var k := start;
    while k < end
      invariant start <= k <= end && m <= k
      invariant forall j :: k <= j < results.Length ==> results[j] == was[j]
      invariant results[..m] == Kept(was, failed, k)
    {
      results[m] := results[k];
      m := m + 1;
      k := k + 1;
    }
  }

  /** Between two neighbours of the sorted indices there is no other. */
  lemma NoneBetween(sorted: seq<nat>, failed: set<nat>, i: nat)
    requires Increasing(sorted) && i < |sorted| && forall j :: j in failed <==> j in sorted
    ensures sorted[i] in failed
    ensures (if i == 0 then 0 else sorted[i - 1] + 1) <= sorted[i]
    ensures forall j :: (if i == 0 then 0 else sorted[i - 1] + 1) <= j < sorted[i] ==> j !in failed
  {
    assert sorted[i] in sorted;
  }

  /** The last of the sorted errored indices is the largest. */
  lemma LastIsReach(errored: seq<nat>)
    requires errored != [] && Distinct(errored)
    ensures var sorted := SortInts(errored);
      Increasing(sorted) && sorted != [] && sorted[|sorted| - 1] + 1 == Reach(errored)
  {
    var sorted := SortInts(errored);
    SortIncreasing(errored);
    ReachBounds(errored);
    assert Reach(errored) - 1 in sorted;
    assert sorted[|sorted| - 1] in errored;
  }
}
