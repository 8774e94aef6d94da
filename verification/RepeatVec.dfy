/** A run-length vector: each physical item stands for a run of equal logical items. */
module RepeatVec {
  import opened Collections
  import opened FileFormat

  function Repeat<T>(item: T, n: nat): (r: seq<T>)
    ensures |r| == n && forall i :: 0 <= i < n ==> r[i] == item
  {
    if n == 0 then [] else Repeat(item, n - 1) + [item]
  }

  /** A run begins where the one before it ends, and none is empty. */
  predicate AreRuns<T>(items: seq<(nat, T)>, len: nat) {
    var n := |items|;
    if n == 0 then len == 0 else items[n - 1].0 < len && AreRuns(items[..n - 1], items[n - 1].0)
  }

  /** The logical items; the last run ends at `len`. */
  function Expand<T>(items: seq<(nat, T)>, len: nat): seq<T> {
    var n := |items|;
    if n == 0 then []
    else
      var (start, item) := items[n - 1];
      Expand(items[..n - 1], start) + Repeat(item, if start <= len then len - start else 0)
  }

  /** The sequence with the listed positions deleted. */
  function Without<T>(s: seq<T>, positions: seq<nat>): seq<T> {
    var n := |s|;
    if n == 0 then []
    else Without(s[..n - 1], positions) + if n - 1 in positions then [] else [s[n - 1]]
  }

  /** How many of the first `x` positions are listed. */
  function Listed(positions: seq<nat>, x: nat): (r: nat)
    ensures r <= x
  {
    if x == 0 then 0 else Listed(positions, x - 1) + if x - 1 in positions then 1 else 0
  }

  // ---------------------------------------------------------------- runs

  lemma {:induction false} RunsShrink<T>(items: seq<(nat, T)>, len: nat, k: nat)
    requires AreRuns(items, len) && k < |items|
    ensures AreRuns(items[..k], items[k].0) && items[k].0 < RunEnd(items, len, k)
    decreases |items|
  {
    var n := |items|;
    if k < n - 1 {
      RunsShrink(items[..n - 1], items[n - 1].0, k);
      assert items[..n - 1][..k] == items[..k];
    }
  }

  /** The starts of the runs ascend from 0. */
  lemma {:induction false} StartsAscend<T>(items: seq<(nat, T)>, len: nat)
    requires AreRuns(items, len)
    ensures forall i, j :: 0 <= i < j < |items| ==> items[i].0 < items[j].0
    ensures forall i :: 0 <= i < |items| ==> items[i].0 < len
    ensures items != [] ==> items[0].0 == 0
  {
    var n := |items|;
    if n > 0 {
      StartsAscend(items[..n - 1], items[n - 1].0);
      assert forall i :: 0 <= i < n - 1 ==> items[i] == items[..n - 1][i];
    }
  }

  lemma {:induction false} ExpandLength<T>(items: seq<(nat, T)>, len: nat)
    requires AreRuns(items, len)
    ensures |Expand(items, len)| == len
  {
    var n := |items|;
    if n > 0 {
      RunsShrink(items, len, n - 1);
      ExpandLength(items[..n - 1], items[n - 1].0);
    }
  }

  /** Where run `k` ends. */
  function RunEnd<T>(items: seq<(nat, T)>, len: nat, k: nat): nat
    requires k < |items|
  {
    if k + 1 < |items| then items[k + 1].0 else len
  }

  lemma ExpandStep<T>(items: seq<(nat, T)>, len: nat, k: nat)
    requires AreRuns(items, len) && k < |items|
    ensures items[k].0 < RunEnd(items, len, k)
    ensures Expand(items[..k + 1], RunEnd(items, len, k)) ==
            Expand(items[..k], items[k].0) + Repeat(items[k].1, RunEnd(items, len, k) - items[k].0)
  {
    RunsShrink(items, len, k);
    assert items[..k + 1][..k] == items[..k];
  }

  /** Each logical item is that of the run around it. */
  lemma {:induction false} ExpandAt<T>(items: seq<(nat, T)>, len: nat, k: nat, at: nat)
    requires AreRuns(items, len) && k < |items| && items[k].0 <= at < RunEnd(items, len, k)
    ensures at < |Expand(items, len)| && Expand(items, len)[at] == items[k].1
    decreases |items|
  {
    var n := |items|;
    ExpandLength(items, len);
    RunsShrink(items, len, n - 1);
    ExpandLength(items[..n - 1], items[n - 1].0);
    if k < n - 1 {
      StartsAscend(items, len);
      ExpandAt(items[..n - 1], items[n - 1].0, k, at);
    }
  }

  // ---------------------------------------------------------------- deleting

  lemma {:induction false} WithoutRun<T>(s: seq<T>, item: T, n: nat, positions: seq<nat>)
    ensures Listed(positions, |s|) <= Listed(positions, |s| + n) <= Listed(positions, |s|) + n
    ensures Without(s + Repeat(item, n), positions) ==
            Without(s, positions)
            + Repeat(item, n - (Listed(positions, |s| + n) - Listed(positions, |s|)))
  {
    var all := s + Repeat(item, n);
    if n == 0 {
      assert all == s;
    } else {
      WithoutRun(s, item, n - 1, positions);
      assert all[..|all| - 1] == s + Repeat(item, n - 1);
    }
  }

  lemma {:induction false} WithoutNothing<T>(s: seq<T>, positions: seq<nat>)
    requires forall p :: p in positions ==> p >= |s|
    ensures Without(s, positions) == s
  {
    var n := |s|;
    if n > 0 {
      WithoutNothing(s[..n - 1], positions);
      assert s == s[..n - 1] + [s[n - 1]];
    }
  }

  lemma {:induction false} ListedNothing(positions: seq<nat>, x: nat)
    requires forall p :: p in positions ==> p >= x
    ensures Listed(positions, x) == 0
  {
    if x > 0 { ListedNothing(positions, x - 1); }
  }

  /** Among ascending positions the number below `x` is an index into them. */
  lemma {:induction false} ListedIsIndex(positions: seq<nat>, x: nat, p: nat)
    requires IsAscending(positions) && p <= |positions|
    requires forall i :: 0 <= i < p ==> positions[i] < x
    requires forall i :: p <= i < |positions| ==> positions[i] >= x
    ensures Listed(positions, x) == p
    decreases x
  {
    if x == 0 {
    } else if p > 0 && positions[p - 1] == x - 1 {
      ListedIsIndex(positions, x - 1, p - 1);
    } else {
      ListedIsIndex(positions, x - 1, p);
    }
  }

  /** Where run `k` begins, or the end. */
  function Boundary<T>(items: seq<(nat, T)>, len: nat, k: nat): nat
    requires k <= |items|
  {
    if k < |items| then items[k].0 else len
  }

  function NewBoundary<T>(items: seq<(nat, T)>, len: nat, k: nat, positions: seq<nat>): nat
    requires k <= |items|
  {
    Boundary(items, len, k) - Listed(positions, Boundary(items, len, k))
  }

  /** `kept` are the first `k` runs without the listed positions. */
  ghost predicate Deleted<T>(items: seq<(nat, T)>, len: nat, k: nat, kept: seq<(nat, T)>, positions: seq<nat>)
    requires k <= |items|
  {
    var end := NewBoundary(items, len, k, positions);
    && AreRuns(kept, end)
    && Expand(kept, end) == Without(Expand(items[..k], Boundary(items, len, k)), positions)
  }

  /** The run `k` without the listed positions. */
  lemma WithoutNextRun<T>(items: seq<(nat, T)>, len: nat, k: nat, positions: seq<nat>)
    requires AreRuns(items, len) && k < |items|
    ensures var start, end := NewBoundary(items, len, k, positions), NewBoundary(items, len, k + 1, positions);
            && start <= end
            && Without(Expand(items[..k + 1], Boundary(items, len, k + 1)), positions) ==
               Without(Expand(items[..k], items[k].0), positions) + Repeat(items[k].1, end - start)
  {
    var oldStart, oldEnd := items[k].0, RunEnd(items, len, k);
    RunsShrink(items, len, k);
    ExpandLength(items[..k], oldStart);
    ExpandStep(items, len, k);
    WithoutRun(Expand(items[..k], oldStart), items[k].1, oldEnd - oldStart, positions);
  }

  function Push<T>(items: seq<(nat, T)>, start: nat, item: T, end: nat): seq<(nat, T)> {
    if end > start then items + [(start, item)] else items
  }

  lemma ExpandPush<T>(items: seq<(nat, T)>, start: nat, item: T, end: nat)
    requires AreRuns(items, start) && start <= end
    ensures AreRuns(Push(items, start, item, end), end)
    ensures Expand(Push(items, start, item, end), end) == Expand(items, start) + Repeat(item, end - start)
  {
    if start < end {
      assert (items + [(start, item)])[..|items|] == items;
    } else {
      assert Expand(items, start) + [] == Expand(items, start);
    }
  }

  /** What deleting does to one more run. */
  lemma DeleteRun<T>(items: seq<(nat, T)>, len: nat, k: nat, kept: seq<(nat, T)>, positions: seq<nat>)
    requires AreRuns(items, len) && k < |items| && Deleted(items, len, k, kept, positions)
    ensures var start, end := NewBoundary(items, len, k, positions), NewBoundary(items, len, k + 1, positions);
            && start <= end
            && Deleted(items, len, k + 1, Push(kept, start, items[k].1, end), positions)
  {
    WithoutNextRun(items, len, k, positions);
    ExpandPush(kept, NewBoundary(items, len, k, positions), items[k].1,
               NewBoundary(items, len, k + 1, positions));
  }

  /** The counter moves past the positions below `end`: the inner loop of `remove_all_impl`. */
  method CountBelow(positions: seq<nat>, decrease: nat, end: nat) returns (r: nat)
    requires IsAscending(positions) && decrease <= |positions|
    requires forall i :: 0 <= i < decrease ==> positions[i] < end
    ensures r <= |positions| && r == Listed(positions, end)
    ensures forall i :: 0 <= i < r ==> positions[i] < end
  {
    r := decrease;
    while r < |positions| && positions[r] < end
      invariant decrease <= r <= |positions|
      invariant forall i :: 0 <= i < r ==> positions[i] < end
    {
      r := r + 1;
    }
    ListedIsIndex(positions, end, r);
  }

  lemma RunIsNonEmpty<T>(items: seq<(nat, T)>, len: nat, k: nat)
    requires AreRuns(items, len) && k < |items|
    ensures items[k].0 == Boundary(items, len, k) < Boundary(items, len, k + 1)
  {
    RunsShrink(items, len, k);
  }

  /** The state of the outer loop before run `k`. */
  ghost predicate Deleting<T>(items: seq<(nat, T)>, len: nat, k: nat, kept: seq<(nat, T)>, decrease: nat,
      positions: seq<nat>)
    requires k <= |items|
  {
    && decrease <= |positions| && decrease == Listed(positions, Boundary(items, len, k))
    && (forall i :: 0 <= i < decrease ==> positions[i] < Boundary(items, len, k))
    && Deleted(items, len, k, kept, positions)
  }

  /** One round of the outer loop of `remove_all_impl`. */
  method DeleteFromRun<T>(items: seq<(nat, T)>, len: nat, k: nat, kept: seq<(nat, T)>, decrease: nat,
      positions: seq<nat>)
    returns (kept': seq<(nat, T)>, decrease': nat)
    requires AreRuns(items, len) && IsAscending(positions) && k < |items|
    requires Deleting(items, len, k, kept, decrease, positions)
    ensures Deleting(items, len, k + 1, kept', decrease', positions)
  {
    var (current, elem) := items[k];
    var currentNew := current - decrease;
    var next := if k + 1 < |items| then items[k + 1].0 else len;
    DeleteRun(items, len, k, kept, positions);
    RunIsNonEmpty(items, len, k);
    decrease' := CountBelow(positions, decrease, next);
    var nextNew := next - decrease';
    assert nextNew >= currentNew;
    kept' := Push(kept, currentNew, elem, nextNew);
  }

  /** The outer loop, from the run of the first position. */
  method DeleteRuns<T>(items: seq<(nat, T)>, len: nat, firstIdx: nat, positions: seq<nat>)
    returns (kept: seq<(nat, T)>, decrease: nat)
    requires AreRuns(items, len) && firstIdx < |items|
    requires IsAscending(positions) && positions != [] && items[firstIdx].0 <= positions[0]
    ensures Deleting(items, len, |items|, kept, decrease, positions)
  {
    decrease := 0;
    kept := items[..firstIdx];
    NothingBefore(items, len, firstIdx, positions);
    var k := firstIdx;
    while k < |items|
      invariant k <= |items| && Deleting(items, len, k, kept, decrease, positions)
    {
      kept, decrease := DeleteFromRun(items, len, k, kept, decrease, positions);
      k := k + 1;
    }
  }

  // ---------------------------------------------------------------- sorting the positions

  function InsertPosition(s: seq<nat>, p: nat): seq<nat> {
    if s == [] || p < s[0] then [p] + s
    else if p == s[0] then s
    else [s[0]] + InsertPosition(s[1..], p)
  }

  /** `sort_unstable` and `dedup` */
  function SortedDistinct(s: seq<nat>): seq<nat> {
    if s == [] then [] else InsertPosition(SortedDistinct(s[1..]), s[0])
  }

  lemma {:induction false} InsertPositionKeepsOrder(s: seq<nat>, p: nat)
    requires IsAscending(s)
    ensures IsAscending(InsertPosition(s, p))
    ensures forall x :: x in InsertPosition(s, p) <==> x in s || x == p
  {
    if s != [] && p > s[0] {
      InsertPositionKeepsOrder(s[1..], p);
      assert s == [s[0]] + s[1..];
      var r := InsertPosition(s[1..], p);
      forall i | 0 <= i < |r| ensures s[0] < r[i] {
        assert r[i] in r;
      }
    }
  }

  lemma {:induction false} SortedDistinctMeaning(s: seq<nat>)
    ensures IsAscending(SortedDistinct(s))
    ensures forall x :: x in SortedDistinct(s) <==> x in s
  {
    if s != [] {
      SortedDistinctMeaning(s[1..]);
      InsertPositionKeepsOrder(SortedDistinct(s[1..]), s[0]);
      assert s == [s[0]] + s[1..];
    }
  }

  lemma {:induction false} WithoutSame<T>(s: seq<T>, a: seq<nat>, b: seq<nat>)
    requires forall x :: x in a <==> x in b
    ensures Without(s, a) == Without(s, b)
  {
    if s != [] { WithoutSame(s[..|s| - 1], a, b); }
  }

  // ---------------------------------------------------------------- the vector

  class RepeatVec<T> {
    var items: seq<(nat, T)>
    var len: nat

    ghost predicate Valid()
      reads this
    {
      AreRuns(items, len)
    }

    ghost function Contents(): seq<T>
      reads this
    {
      Expand(items, len)
    }

    constructor ()
      ensures Valid() && Contents() == []
    {
      items := [];
      len := 0;
    }

    method Len() returns (n: nat)
      requires Valid()
      ensures n == |Contents()|
    {
      ExpandLength(items, len);
      return len;
    }

    method Extend(item: T, size: nat)
      requires Valid()
      modifies this
      ensures Valid() && Contents() == old(Contents()) + Repeat(item, size)
    {
      if size > 0 {
        ghost var before := items;
        items := items + [(len, item)];
        len := len + size;
        assert items[..|items| - 1] == before;
      } else {
        assert Contents() + [] == Contents();
      }
    }

    /** `binary_search_by_key` on the starts of the runs */
    method BinarySearch(at: nat) returns (found: bool, idx: nat)
      requires Valid()
      ensures idx <= |items|
      ensures found ==> idx < |items| && items[idx].0 == at
      ensures !found ==> (forall i :: 0 <= i < idx ==> items[i].0 < at)
      ensures !found ==> (forall i :: idx <= i < |items| ==> items[i].0 > at)
    {
      StartsAscend(items, len);
      var lo, hi := 0, |items|;
      while lo < hi
        invariant 0 <= lo <= hi <= |items|
        invariant forall i :: 0 <= i < lo ==> items[i].0 < at
        invariant forall i :: hi <= i < |items| ==> items[i].0 > at
      {
        var mid := (lo + hi) / 2;
        if items[mid].0 == at { return true, mid; }
        if items[mid].0 < at { lo := mid + 1; } else { hi := mid; }
      }
      return false, lo;
    }

    /** The logical item, and which copy of its run it is. */
    method Get(at: nat) returns (r: Option<(T, nat)>)
      requires Valid()
      ensures r.None? <==> at >= |Contents()|
      ensures r.Some? ==>
                && r.value.0 == Contents()[at]
                && r.value.1 <= at
                && exists k :: 0 <= k < |items| && items[k].0 == at - r.value.1
                     && items[k].1 == r.value.0 && at < RunEnd(items, len, k)
    {
      ExpandLength(items, len);
      StartsAscend(items, len);
      if at >= len { return None; }
      var found, idx := BinarySearch(at);
      if found {
        ExpandStep(items, len, idx);
        ExpandAt(items, len, idx, at);
        return Some((items[idx].1, 0));
      }
      assert idx > 0;
      ExpandAt(items, len, idx - 1, at);
      return Some((items[idx - 1].1, at - items[idx - 1].0));
    }

    /** `remove_all`: deletes the listed positions, ignoring those out of range. */
    method RemoveAll(logicalIndexes: seq<nat>)
      requires Valid()
      modifies this
      ensures Valid() && Contents() == Without(old(Contents()), logicalIndexes)
    {
      SortedDistinctMeaning(logicalIndexes);
      RemoveAllImpl(SortedDistinct(logicalIndexes));
      WithoutSame(old(Contents()), SortedDistinct(logicalIndexes), logicalIndexes);
    }

    method Remove(index: nat)
      requires Valid()
      modifies this
      ensures Valid() && Contents() == Without(old(Contents()), [index])
    {
      RemoveAll([index]);
    }

    /** The run in which the deletions begin. */
    method FirstRun(first: nat) returns (idx: nat)
      requires Valid() && first < len
      ensures idx < |items| && items[idx].0 <= first
    {
      StartsAscend(items, len);
      var found;
      found, idx := BinarySearch(first);
      if !found {
        assert idx > 0;
        idx := idx - 1;
      }
    }

    method RemoveAllImpl(positions: seq<nat>)
      requires Valid() && IsAscending(positions)
      modifies this
      ensures Valid() && Contents() == Without(old(Contents()), positions)
    {
      ExpandLength(items, len);
      if positions == [] || positions[0] >= len {
        WithoutNothing(Contents(), positions);
        return;
      }
      var firstIdx := FirstRun(positions[0]);
      var kept, decrease := DeleteRuns(items, len, firstIdx, positions);
      assert items[..|items|] == items;
      items := kept;
      len := len - decrease;
    }
  }

  /** No listed position lies before the run of the first one. */
  lemma NothingBefore<T>(items: seq<(nat, T)>, len: nat, k: nat, positions: seq<nat>)
    requires AreRuns(items, len) && k < |items|
    requires IsAscending(positions) && positions != [] && items[k].0 <= positions[0]
    ensures Deleting(items, len, k, items[..k], 0, positions)
  {
    forall p | p in positions ensures p >= items[k].0 {
      var i :| 0 <= i < |positions| && positions[i] == p;
    }
    ListedNothing(positions, items[k].0);
    RunsShrink(items, len, k);
    ExpandLength(items[..k], items[k].0);
    WithoutNothing(Expand(items[..k], items[k].0), positions);
  }
}
