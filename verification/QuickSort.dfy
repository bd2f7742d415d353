/** priority_quick_sort and decks_quick_sort: one in-place algorithm, run once on
    the priorities of the wall and otherwise on the keys of a hand. */
module QuickSort {
  ghost predicate Sorted<T>(s: seq<T>, key: T -> int) {
    forall i, j :: 0 <= i < j < |s| ==> key(s[i]) <= key(s[j])
  }

  ghost predicate AllAtMost<T>(s: seq<T>, key: T -> int, bound: int) {
    forall i :: 0 <= i < |s| ==> key(s[i]) <= bound
  }

  ghost predicate AllAtLeast<T>(s: seq<T>, key: T -> int, bound: int) {
    forall i :: 0 <= i < |s| ==> bound <= key(s[i])
  }

  /** Bounds on every element carry over to any rearrangement. */
  lemma BoundsSurvivePermutation<T>(s: seq<T>, t: seq<T>, key: T -> int, bound: int)
    requires multiset(s) == multiset(t)
    ensures AllAtMost(s, key, bound) ==> AllAtMost(t, key, bound)
    ensures AllAtLeast(s, key, bound) ==> AllAtLeast(t, key, bound)
  {
    forall i | 0 <= i < |t|
      ensures exists k :: 0 <= k < |s| && s[k] == t[i]
    {
      assert t[i] in multiset(t);
      assert t[i] in multiset(s);
    }
  }

  lemma SortedConcat<T>(s: seq<T>, pivot: T, t: seq<T>, key: T -> int)
    requires Sorted(s, key) && Sorted(t, key)
    requires AllAtMost(s, key, key(pivot)) && AllAtLeast(t, key, key(pivot))
    ensures Sorted(s + [pivot] + t, key)
  {
  }

  function Swapped<T>(s: seq<T>, i: nat, j: nat): (r: seq<T>)
    requires i < |s| && j < |s|
    ensures |r| == |s|
    ensures multiset(r) == multiset(s)
  {
    s[i := s[j]][j := s[i]]
  }

  lemma IsSwapped<T>(s: seq<T>, t: seq<T>, i: nat, j: nat)
    requires |s| == |t| && i < |s| && j < |s| && t[i] == s[j] && t[j] == s[i]
    requires forall k :: 0 <= k < |s| && k != i && k != j ==> t[k] == s[k]
    ensures t == Swapped(s, i, j)
  {
  }

  method Swap<T>(a: array<T>, i: nat, j: nat)
    requires i < a.Length && j < a.Length
    modifies a
    ensures a[i] == old(a[j]) && a[j] == old(a[i])
    ensures forall k :: 0 <= k < a.Length && k != i && k != j ==> a[k] == old(a[k])
    ensures multiset(a[..]) == multiset(old(a[..]))
  {
    a[i], a[j] := a[j], a[i];
    IsSwapped(old(a[..]), a[..], i, j);
  }

  /** What a range holds is settled by the whole array and the cells outside. */
  lemma RangeKeepsMultiset<T>(s: seq<T>, t: seq<T>, lo: nat, hi: nat)
    requires |s| == |t| && lo <= hi <= |s|
    requires s[..lo] == t[..lo] && s[hi..] == t[hi..]
    requires multiset(s) == multiset(t)
    ensures multiset(s[lo..hi]) == multiset(t[lo..hi])
  {
    assert s == s[..lo] + s[lo..hi] + s[hi..];
    assert t == t[..lo] + t[lo..hi] + t[hi..];
    var rest := multiset(s[..lo]) + multiset(s[hi..]);
    assert multiset(s[lo..hi]) == multiset(s) - rest;
    assert multiset(t[lo..hi]) == multiset(t) - rest;
  }

  /** Splits the cells after the first into those at most and those at least the pivot. */
  method Divide<T>(a: array<T>, start: nat, end: nat, key: T -> int) returns (right: nat)
    requires start < end < a.Length
    modifies a
    ensures start <= right <= end
    ensures a[start] == old(a[start])
    ensures forall k :: start < k <= right ==> key(a[k]) <= key(a[start])
    ensures forall k :: right < k <= end ==> key(a[start]) <= key(a[k])
    ensures forall k :: 0 <= k < start || end < k < a.Length ==> a[k] == old(a[k])
    ensures multiset(a[..]) == multiset(old(a[..]))
  {
    var pivot := key(a[start]);
    var left := start + 1;
    right := end;
    while left <= right
      invariant start < left <= right + 1 && right <= end
      invariant a[start] == old(a[start])
      invariant forall k :: start < k < left ==> key(a[k]) <= pivot
      invariant forall k :: right < k <= end ==> pivot <= key(a[k])
      invariant forall k :: 0 <= k < start || end < k < a.Length ==> a[k] == old(a[k])
      invariant multiset(a[..]) == multiset(old(a[..]))
      decreases right - left, if left <= right && key(a[left]) > pivot then 1 else 0
    {
      while left <= right && key(a[left]) <= pivot
        invariant start < left <= right + 1
        invariant forall k :: start < k < left ==> key(a[k]) <= pivot
      {
        left := left + 1;
      }
      while left <= right && key(a[right]) >= pivot
        invariant start <= right <= end && left <= right + 1
        invariant forall k :: right < k <= end ==> pivot <= key(a[k])
        decreases right
      {
        right := right - 1;
      }
      if left < right {
        Swap(a, left, right);
      }
    }
  }

  /** What one call leaves: the pivot placed, the rest on its two sides. */
  ghost predicate Parted<T>(s: seq<T>, start: nat, mid: int, end: nat, key: T -> int) {
    && start <= mid <= end < |s|
    && AllAtMost(s[start..mid], key, key(s[mid]))
    && AllAtLeast(s[mid + 1..end + 1], key, key(s[mid]))
  }

  /** The same cells outside the range and the same elements within it. */
  ghost predicate OnlyRangeRearranged<T>(s: seq<T>, t: seq<T>, start: int, end: int)
    requires 0 <= start <= end + 1 <= |s|
  {
    && |s| == |t|
    && (forall k :: 0 <= k < start || end < k < |s| ==> s[k] == t[k])
    && multiset(s[start..end + 1]) == multiset(t[start..end + 1])
  }

  lemma OnlyRangeSymmetric<T>(s: seq<T>, t: seq<T>, start: int, end: int)
    requires 0 <= start <= end + 1 <= |s| && OnlyRangeRearranged(s, t, start, end)
    ensures |s| == |t| && OnlyRangeRearranged(t, s, start, end)
  {
  }

  method Partition<T>(a: array<T>, start: nat, end: nat, key: T -> int) returns (mid: int)
    requires start < end < a.Length
    modifies a
    ensures Parted(a[..], start, mid, end, key)
    ensures OnlyRangeRearranged(old(a[..]), a[..], start, end)
  {
    var right := Divide(a, start, end, key);
    Swap(a, start, right);
    RangeKeepsMultiset(old(a[..]), a[..], start, end + 1);
    mid := right;
  }

  /** Sorting the two sides of a parted range sorts the range. */
  lemma SidesSorted<T>(p: seq<T>, q: seq<T>, r: seq<T>, start: nat, mid: int, end: nat, key: T -> int)
    requires Parted(p, start, mid, end, key)
    requires OnlyRangeRearranged(p, q, start, mid - 1) && Sorted(q[start..mid], key)
    requires OnlyRangeRearranged(q, r, mid + 1, end) && Sorted(r[mid + 1..end + 1], key)
    ensures OnlyRangeRearranged(p, r, start, end) && Sorted(r[start..end + 1], key)
  {
    hide AllAtMost, AllAtLeast, Sorted;
    assert q[mid + 1..end + 1] == p[mid + 1..end + 1];
    assert r[start..mid] == q[start..mid];
    BoundsSurvivePermutation(p[start..mid], q[start..mid], key, key(p[mid]));
    BoundsSurvivePermutation(q[mid + 1..end + 1], r[mid + 1..end + 1], key, key(p[mid]));
    SortedConcat(r[start..mid], r[mid], r[mid + 1..end + 1], key);
    assert r[start..end + 1] == r[start..mid] + [r[mid]] + r[mid + 1..end + 1];
    assert p[start..end + 1] == p[start..mid] + [p[mid]] + p[mid + 1..end + 1];
  }

  method Sort<T>(a: array<T>, start: int, end: int, key: T -> int)
    requires 0 <= start <= end + 1 <= a.Length
    modifies a
    ensures Sorted(a[start..end + 1], key)
    ensures OnlyRangeRearranged(old(a[..]), a[..], start, end)
    decreases end + 1 - start
  {
    if start >= end {
      return;
    }
    var mid := Partition(a, start, end, key);
    ghost var parted := a[..];
    Sort(a, start, mid - 1, key);
    ghost var half := a[..];
    Sort(a, mid + 1, end, key);
    SidesSorted(parted, half, a[..], start, mid, end, key);
  }

  /** Sorting every cell, as shuffle and the eat test do. */
  method SortWhole<T>(a: array<T>, key: T -> int)
    modifies a
    ensures Sorted(a[..], key)
    ensures multiset(a[..]) == multiset(old(a[..]))
  {
    ghost var before := a[..];
    Sort(a, 0, a.Length - 1, key);
    ghost var after := a[..];
    assert before[0..|before|] == before && after[0..|after|] == after;
  }

  // ----- a sorted arrangement is unique ------------------------------------------

  /** The key tells different elements apart. */
  ghost predicate Distinguishes<T>(key: T -> int, s: seq<T>) {
    forall i, j :: 0 <= i < |s| && 0 <= j < |s| && key(s[i]) == key(s[j]) ==> s[i] == s[j]
  }

  lemma DistinguishesPermuted<T>(s: seq<T>, t: seq<T>, key: T -> int)
    requires multiset(s) == multiset(t) && Distinguishes(key, s)
    ensures Distinguishes(key, t)
  {
    forall i, j | 0 <= i < |t| && 0 <= j < |t| && key(t[i]) == key(t[j])
      ensures t[i] == t[j]
    {
      assert t[i] in multiset(t) && t[j] in multiset(t);
      assert t[i] in s && t[j] in s;
    }
  }

  lemma SmallestFirst<T>(s: seq<T>, t: seq<T>, key: T -> int)
    requires s != [] && t != [] && multiset(s) == multiset(t)
    requires Sorted(s, key) && Sorted(t, key) && Distinguishes(key, s)
    ensures s[0] == t[0]
  {
    assert s[0] in multiset(t) && t[0] in multiset(s);
    var i :| 0 <= i < |t| && t[i] == s[0];
    var k :| 0 <= k < |s| && s[k] == t[0];
    assert key(t[0]) <= key(t[i]) && key(s[0]) <= key(s[k]);
  }

  lemma WithoutFirst<T>(s: seq<T>, key: T -> int)
    requires s != [] && Sorted(s, key)
    ensures Sorted(s[1..], key) && (Distinguishes(key, s) ==> Distinguishes(key, s[1..]))
    ensures multiset(s[1..]) == multiset(s) - multiset{s[0]}
  {
    assert s == [s[0]] + s[1..];
  }

  lemma {:induction false} SortedUnique<T>(s: seq<T>, t: seq<T>, key: T -> int)
    requires Sorted(s, key) && Sorted(t, key) && Distinguishes(key, s)
    requires multiset(s) == multiset(t)
    ensures s == t
    decreases |s|
  {
    hide Sorted, Distinguishes;
    assert |multiset(s)| == |s| && |multiset(t)| == |t|;
    if s != [] {
      SmallestFirst(s, t, key);
      WithoutFirst(s, key);
      WithoutFirst(t, key);
      SortedUnique(s[1..], t[1..], key);
      assert s == [s[0]] + s[1..] && t == [t[0]] + t[1..];
    }
  }
}
