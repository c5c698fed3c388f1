/**
 * `hasConsecutive` (script.js): sort a list of indices ascending in place, then
 * look for a run of `minLength` entries each one more than the previous.
 */
module Consecutive {
  import opened Symbols

  predicate Sorted(s: seq<int>)
  {
    forall i, j :: 0 <= i < j < |s| ==> s[i] <= s[j]
  }

  predicate Distinct<T(==)>(s: seq<T>)
  {
    forall i, j :: 0 <= i < j < |s| ==> s[i] != s[j]
  }

  /**
   * The length of the run of +1 steps that ends at index `e`: the value the
   * source's `count` has after looking at `s[e]`.
   */
  function StepRunLen(s: seq<int>, e: nat): (n: nat)
    requires e < |s|
    ensures 1 <= n <= e + 1
    ensures n > 1 ==> s[e] == s[e - 1] + 1
  {
    if e == 0 || s[e] != s[e - 1] + 1 then 1 else StepRunLen(s, e - 1) + 1
  }

  /** Somewhere the list holds `m` entries in a row, each one more than the previous. */
  ghost predicate HasStepRun(s: seq<int>, m: int)
  {
    exists e :: 0 <= e < |s| && StepRunLen(s, e) >= m
  }

  /** The `k` values `x`, `x+1`, ..., `x+k-1` all occur in `s`. */
  ghost predicate ValueRunFrom(s: seq<int>, x: int, k: int)
  {
    forall v :: x <= v < x + k ==> v in s
  }

  /** Some `k` consecutive values all occur in `s`. */
  ghost predicate HasValueRun(s: seq<int>, k: int)
  {
    exists x :: ValueRunFrom(s, x, k)
  }

  // ---------------------------------------------------------------- runs of positions and runs of values

  /** Going back `j` steps inside a run lowers the value by `j`. */
  lemma {:induction false} StepRunValues(s: seq<int>, e: nat, j: nat)
    requires e < |s| && j < StepRunLen(s, e)
    ensures s[e - j] == s[e] - j
  {
    if j > 0 {
      StepRunValues(s, e - 1, j - 1);
    }
  }

  /** A run of `m` positions is a run of `m` values. */
  lemma StepRunGivesValueRun(s: seq<int>, m: int)
    requires HasStepRun(s, m)
    ensures HasValueRun(s, m)
  {
    var e :| 0 <= e < |s| && StepRunLen(s, e) >= m;
    var x := s[e] - m + 1;
    forall v | x <= v < x + m
      ensures v in s
    {
      StepRunValues(s, e, s[e] - v);
      assert s[e - (s[e] - v)] == v;
    }
    assert ValueRunFrom(s, x, m);
  }

  /** In a list with strictly increasing entries, entries `d` places apart differ by at least `d`. */
  lemma {:induction false} StrictGap(s: seq<int>, i: nat, j: nat)
    requires Sorted(s) && Distinct(s)
    requires i <= j < |s|
    ensures s[j] - s[i] >= j - i
    decreases j - i
  {
    if i < j {
      StrictGap(s, i, j - 1);
    }
  }

  /** In a strictly increasing list, the values `x`, `x+1`, ... sit at consecutive positions. */
  lemma {:induction false} ValueRunPositions(s: seq<int>, i: nat, m: nat, t: nat)
    requires Sorted(s) && Distinct(s) && i < |s|
    requires ValueRunFrom(s, s[i], m)
    requires t < m
    ensures i + t < |s| && s[i + t] == s[i] + t
  {
    if t > 0 {
      ValueRunPositions(s, i, m, t - 1);
      assert s[i] + t in s;
      var l :| 0 <= l < |s| && s[l] == s[i] + t;
      if l <= i + t - 1 {
        StrictGap(s, l, i + t - 1);
      }
      StrictGap(s, i + t - 1, l);
    }
  }

  /** Consecutive positions holding consecutive values form a run of that length. */
  lemma {:induction false} StepRunAtLeast(s: seq<int>, i: nat, t: nat)
    requires i + t < |s|
    requires forall p :: i <= p <= i + t ==> s[p] == s[i] + (p - i)
    ensures StepRunLen(s, i + t) >= t + 1
  {
    if t > 0 {
      StepRunAtLeast(s, i, t - 1);
      assert s[i + t] == s[i] + t && s[i + t - 1] == s[i] + (t - 1);
      assert StepRunLen(s, i + t) == StepRunLen(s, i + t - 1) + 1;
    }
  }

  /** For a strictly increasing list, a run of values is a run of positions. */
  lemma ValueRunGivesStepRun(s: seq<int>, m: int)
    requires Sorted(s) && Distinct(s) && m >= 1
    requires HasValueRun(s, m)
    ensures HasStepRun(s, m)
  {
    var x :| ValueRunFrom(s, x, m);
    assert x in s;
    var i :| 0 <= i < |s| && s[i] == x;
    ValueRunPositions(s, i, m, m - 1);
    forall p | i <= p <= i + (m - 1)
      ensures s[p] == s[i] + (p - i)
    {
      ValueRunPositions(s, i, m, p - i);
    }
    StepRunAtLeast(s, i, m - 1);
  }

  /** `m` different values cannot fit in fewer than `m` entries. */
  lemma {:induction false} ValueRunNeedsRoom(s: seq<int>, x: int, m: nat)
    requires ValueRunFrom(s, x, m)
    ensures |s| >= m
  {
    if m > 0 {
      var top := x + m - 1;
      assert top in s;
      var l :| 0 <= l < |s| && s[l] == top;
      var rest := s[..l] + s[l + 1..];
      assert s == s[..l] + [top] + s[l + 1..];
      forall v | x <= v < x + (m - 1)
        ensures v in rest
      {
        assert v in s && v != top;
        var k :| 0 <= k < |s| && s[k] == v;
        if k < l {
          assert rest[k] == v;
        } else {
          assert rest[k - 1] == v;
        }
      }
      assert ValueRunFrom(rest, x, m - 1);
      ValueRunNeedsRoom(rest, x, m - 1);
    }
  }

  /** A permutation has the same runs of values. */
  lemma SameValueRuns(s: seq<int>, t: seq<int>, k: int)
    requires multiset(s) == multiset(t)
    ensures HasValueRun(s, k) <==> HasValueRun(t, k)
  {
    forall v ensures v in s <==> v in t {
      assert v in s <==> v in multiset(s);
      assert v in t <==> v in multiset(t);
    }
    if HasValueRun(s, k) {
      var x :| ValueRunFrom(s, x, k);
      assert ValueRunFrom(t, x, k);
    }
    if HasValueRun(t, k) {
      var x :| ValueRunFrom(t, x, k);
      assert ValueRunFrom(s, x, k);
    }
  }

  /** A permutation of a list without repeats has no repeats. */
  lemma {:induction false} DistinctCount(s: seq<int>, v: int)
    requires Distinct(s)
    ensures multiset(s)[v] <= 1
  {
    if s != [] {
      var init := s[..|s| - 1];
      assert s == init + [s[|s| - 1]];
      DistinctCount(init, v);
      if v == s[|s| - 1] {
        assert v !in init;
      }
    }
  }

  lemma PermutationDistinct(s: seq<int>, t: seq<int>)
    requires Distinct(s) && multiset(s) == multiset(t)
    ensures Distinct(t)
  {
    forall i, j | 0 <= i < j < |t|
      ensures t[i] != t[j]
    {
      if t[i] == t[j] {
        assert t == t[..j] + t[j..];
        assert t[i] in multiset(t[..j]) && t[j] in multiset(t[j..]);
        assert multiset(t)[t[i]] == multiset(t[..j])[t[i]] + multiset(t[j..])[t[i]];
        DistinctCount(s, t[i]);
      }
    }
  }

  // ---------------------------------------------------------------- the source's operations

  /** Exchange the entries at `j - 1` and `j`. */
  method SwapDown(a: array<int>, j: int)
    requires 0 < j < a.Length
    modifies a
    ensures a[j - 1] == old(a[j]) && a[j] == old(a[j - 1])
    ensures forall k :: 0 <= k < a.Length && k != j - 1 && k != j ==> a[k] == old(a[k])
    ensures multiset(a[..]) == multiset(old(a[..]))
  {
    a[j - 1], a[j] := a[j], a[j - 1];
  }

  /**
   * One step of the sort: the entry at `i` is swapped down into the sorted
   * prefix `a[..i]` until the entry before it is not larger.
   */
  method SinkInto(a: array<int>, i: int)
    requires 0 <= i < a.Length && Sorted(a[..i])
    modifies a
    ensures Sorted(a[..i + 1])
    ensures multiset(a[..]) == multiset(old(a[..]))
    ensures forall k :: i < k < a.Length ==> a[k] == old(a[k])
  {
    var j := i;
    while j > 0 && a[j - 1] > a[j]
      invariant 0 <= j <= i
      invariant forall k, l :: 0 <= k < l <= i && l != j ==> a[k] <= a[l]
      invariant forall l :: j < l <= i ==> a[j] <= a[l]
      invariant multiset(a[..]) == multiset(old(a[..]))
      invariant forall k :: i < k < a.Length ==> a[k] == old(a[k])
    {
      SwapDown(a, j);
      j := j - 1;
    }
    assert forall k :: 0 <= k <= i ==> a[..i + 1][k] == a[k];
  }

  /** `arr.sort((a, b) => a - b)`: ascending, in place, a permutation of the input. */
  method SortAscending(a: array<int>)
    modifies a
    ensures Sorted(a[..])
    ensures multiset(a[..]) == multiset(old(a[..]))
  {
    var i := 0;
    while i < a.Length
      invariant 0 <= i <= a.Length
      invariant Sorted(a[..i])
      invariant multiset(a[..]) == multiset(old(a[..]))
    {
      SinkInto(a, i);
      i := i + 1;
    }
    assert a[..] == a[..a.Length];
  }

  /**
   * `hasConsecutive(arr, minLength)`. A list shorter than `minLength` is refused
   * before sorting. Otherwise the list is sorted and scanned with `count`, which
   * is only compared with `minLength` after a +1 step, so a run of at least two
   * entries is always needed. For a list without repeats and `minLength >= 2`
   * the answer is exactly whether `minLength` consecutive values occur in it.
   */
  method HasConsecutive(arr: array<int>, minLength: int) returns (found: bool)
    modifies arr
    ensures arr.Length < minLength ==> !found && arr[..] == old(arr[..])
    ensures arr.Length >= minLength ==> Sorted(arr[..]) && multiset(arr[..]) == multiset(old(arr[..]))
    ensures found <==> arr.Length >= minLength && HasStepRun(arr[..], Max(minLength, 2))
    ensures found ==> HasValueRun(old(arr[..]), Max(minLength, 2))
    ensures minLength >= 2 && Distinct(old(arr[..])) ==> (found <==> HasValueRun(old(arr[..]), minLength))
  {
    if arr.Length < minLength {
      found := false;
      if minLength >= 2 && HasValueRun(arr[..], minLength) {
        var x :| ValueRunFrom(arr[..], x, minLength);
        ValueRunNeedsRoom(arr[..], x, minLength);
      }
      return;
    }
    ghost var before := arr[..];
    SortAscending(arr);
    ghost var s := arr[..];
    SameValueRuns(before, s, Max(minLength, 2));
    SameValueRuns(before, s, minLength);
    if Distinct(before) {
      PermutationDistinct(before, s);
    }
    var count := 1;
    var i := 1;
    while i < arr.Length
      invariant 1 <= i <= Max(arr.Length, 1)
      invariant arr[..] == s
      invariant arr.Length > 0 ==> count == StepRunLen(s, i - 1)
      invariant forall e :: 0 <= e < i && e < arr.Length ==> StepRunLen(s, e) < Max(minLength, 2)
    {
      if arr[i] == arr[i - 1] + 1 {
        count := count + 1;
        if count >= minLength {
          found := true;
          assert StepRunLen(s, i) == count;
          StepRunGivesValueRun(s, Max(minLength, 2));
          return;
        }
      } else {
        count := 1;
      }
      i := i + 1;
    }
    found := false;
    if minLength >= 2 && Distinct(before) && HasValueRun(s, minLength) {
      ValueRunGivesStepRun(s, minLength);
    }
  }
}
