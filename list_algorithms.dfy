/** The integer list algorithms behind the numeric endpoints: bubble sort,
    binary search, merge sort with its merge step, minimum, maximum, the even
    filter and the sum. */
module ListAlgorithms {
  import opened Outcomes

  predicate Sorted(s: seq<int>) {
    forall i, j :: 0 <= i < j < |s| ==> s[i] <= s[j]
  }

  // ---------------------------------------------------------------- bubble sort

  /** The last `n - k` positions of `s` are in order and hold the largest
      elements: nothing before position `k` exceeds anything from `k` on. */
  ghost predicate SettledFrom(s: seq<int>, k: int)
    requires 0 <= k <= |s|
  {
    && (forall p, q :: k <= p < q < |s| ==> s[p] <= s[q])
    && (forall p, q :: 0 <= p < k <= q < |s| ==> s[p] <= s[q])
  }

  /** `bubble_sort`: sorts the list in place by adjacent swaps. Pass `i` (the
      inner loop, `BubblePass` below) bubbles the largest of `a[..n - i]` to
      position `n - i - 1`, so after it the last `i + 1` positions hold the
      largest elements in their final order. */
  method BubbleSort(a: array<int>)
    modifies a
    ensures Sorted(a[..])
    ensures multiset(a[..]) == multiset(old(a[..]))
  {
    var n := a.Length;
    for i := 0 to n
      invariant multiset(a[..]) == multiset(old(a[..]))
      invariant SettledFrom(a[..], n - i)
    {
      BubblePass(a, n - i - 1);
    }
  }

  /** One pass of the inner loop, `for j in range(0, end)`: compares each
      adjacent pair up to position `end` and swaps it when out of order, which
      carries the largest of `a[..end + 1]` to position `end`. */
  method BubblePass(a: array<int>, end: int)
    requires 0 <= end < a.Length
    requires SettledFrom(a[..], end + 1)
    modifies a
    ensures multiset(a[..]) == multiset(old(a[..]))
    ensures SettledFrom(a[..], end)
  {
    for j := 0 to end
      invariant multiset(a[..]) == multiset(old(a[..]))
      invariant PassInvariant(a[..], end, j)
    {
      ghost var before := a[..];
      if a[j] > a[j + 1] {
        Swap(a, j);
      }
      PassStep(before, a[..], end, j);
    }
    PassDone(a[..], end);
  }

  /** Inside pass `end` at step `j`: the positions after `end` are settled as
      before the pass, and `s[j]` is the largest of `s[..j + 1]`. */
  ghost predicate PassInvariant(s: seq<int>, end: int, j: int)
    requires 0 <= j <= end < |s|
  {
    && (forall p, q :: end < p < q < |s| ==> s[p] <= s[q])
    && (forall p, q :: 0 <= p <= end < q < |s| ==> s[p] <= s[q])
    && (forall p :: 0 <= p <= j ==> s[p] <= s[j])
  }

  /** `s` with positions `j` and `j + 1` exchanged. */
  function SwappedAt(s: seq<int>, j: int): seq<int>
    requires 0 <= j < |s| - 1
  {
    s[j := s[j + 1]][j + 1 := s[j]]
  }

  /** A compare-and-swap of positions `j` and `j + 1` keeps the pass invariant
      one position further on. */
  lemma PassStep(s: seq<int>, t: seq<int>, end: int, j: int)
    requires 0 <= j < end < |s|
    requires PassInvariant(s, end, j)
    requires t == if s[j] > s[j + 1] then SwappedAt(s, j) else s
    ensures |t| == |s| && PassInvariant(t, end, j + 1)
  {
  }

  lemma PassDone(s: seq<int>, end: int)
    requires 0 <= end < |s| && PassInvariant(s, end, end)
    ensures SettledFrom(s, end)
  {
  }

  /** `arr[j], arr[j + 1] = arr[j + 1], arr[j]`. */
  method Swap(a: array<int>, j: int)
    requires 0 <= j < a.Length - 1
    modifies a
    ensures a[..] == SwappedAt(old(a[..]), j)
    ensures multiset(a[..]) == multiset(old(a[..]))
  {
    a[j], a[j + 1] := a[j + 1], a[j];
  }

  // -------------------------------------------------------------- binary search

  /** `binary_search`: returns `(True, i)` with `arr[i] == target`, or
      `(False, -1)`. The hit is sound on any list; on a sorted list a miss
      also means that `target` does not occur. */
  method BinarySearch(a: seq<int>, target: int) returns (found: bool, index: int)
    ensures found ==> 0 <= index < |a| && a[index] == target
    ensures !found ==> index == -1
    ensures Sorted(a) ==> (found <==> target in a)
  {
    var left, right := 0, |a| - 1;
    while left <= right
      invariant 0 <= left <= right + 1 <= |a|
      invariant Sorted(a) ==> forall k :: 0 <= k < |a| && a[k] == target ==> left <= k <= right
      decreases right - left
    {
      var mid := (left + right) / 2;
      assert left <= mid <= right;
      if a[mid] == target {
        return true, mid;
      } else if a[mid] < target {
        left := mid + 1;
      } else {
        right := mid - 1;
      }
    }
    return false, -1;
  }

  // ----------------------------------------------------------------- merge sort

  /** The stable merge of two lists: on equal heads the left one goes first. */
  function Merged(left: seq<int>, right: seq<int>): seq<int>
    decreases |left| + |right|
  {
    if left == [] then right
    else if right == [] then left
    else if left[0] <= right[0] then [left[0]] + Merged(left[1..], right)
    else [right[0]] + Merged(left, right[1..])
  }

  /** A merge holds exactly the elements of both inputs. */
  lemma {:induction false} MergedMultiset(left: seq<int>, right: seq<int>)
    ensures multiset(Merged(left, right)) == multiset(left) + multiset(right)
    decreases |left| + |right|
  {
    if left != [] && right != [] {
      if left[0] <= right[0] {
        var rest := Merged(left[1..], right);
        MergedMultiset(left[1..], right);
        calc {
          multiset(Merged(left, right));
          multiset([left[0]] + rest);
          multiset([left[0]]) + multiset(rest);
          multiset([left[0]]) + multiset(left[1..]) + multiset(right);
          { assert left == [left[0]] + left[1..]; }
          multiset(left) + multiset(right);
        }
      } else {
        var rest := Merged(left, right[1..]);
        MergedMultiset(left, right[1..]);
        calc {
          multiset(Merged(left, right));
          multiset([right[0]] + rest);
          multiset([right[0]]) + multiset(rest);
          multiset(left) + (multiset([right[0]]) + multiset(right[1..]));
          { assert right == [right[0]] + right[1..]; }
          multiset(left) + multiset(right);
        }
      }
    }
  }

  /** Every element of a merge comes from one of its two inputs. */
  lemma MergedFrom(left: seq<int>, right: seq<int>, y: int)
    requires y in Merged(left, right)
    ensures y in left || y in right
  {
    MergedMultiset(left, right);
    assert y in multiset(Merged(left, right));
  }

  /** A sorted list stays sorted when an element no larger than all of it
      goes in front. */
  lemma SortedCons(h: int, rest: seq<int>)
    requires Sorted(rest)
    requires forall y :: y in rest ==> h <= y
    ensures Sorted([h] + rest)
  {
    var r := [h] + rest;
    forall i, j | 0 <= i < j < |r| ensures r[i] <= r[j] {
      assert r[j] == rest[j - 1] && rest[j - 1] in rest;
      if i > 0 {
        assert r[i] == rest[i - 1];
      }
    }
  }

  /** Merging two sorted lists gives a sorted list. */
  lemma {:induction false} MergedSorted(left: seq<int>, right: seq<int>)
    requires Sorted(left) && Sorted(right)
    ensures Sorted(Merged(left, right))
    decreases |left| + |right|
  {
    if left != [] && right != [] {
      if left[0] <= right[0] {
        var rest := Merged(left[1..], right);
        MergedSorted(left[1..], right);
        forall y | y in rest ensures left[0] <= y {
          MergedFrom(left[1..], right, y);
        }
        SortedCons(left[0], rest);
      } else {
        var rest := Merged(left, right[1..]);
        MergedSorted(left, right[1..]);
        forall y | y in rest ensures right[0] <= y {
          MergedFrom(left, right[1..], y);
        }
        SortedCons(right[0], rest);
      }
    }
  }

  /** Ties go to the left list: when nothing in `left` exceeds anything in
      `right`, merging is plain concatenation, so equal elements keep the
      left-before-right order. */
  lemma {:induction false} MergedPrefersLeft(left: seq<int>, right: seq<int>)
    requires forall x, y :: x in left && y in right ==> x <= y
    ensures Merged(left, right) == left + right
    decreases |left|
  {
    if left != [] && right != [] {
      assert left[0] in left && right[0] in right;
      forall x, y | x in left[1..] && y in right ensures x <= y {
        assert x in left;
      }
      MergedPrefersLeft(left[1..], right);
      assert left == [left[0]] + left[1..];
    }
  }

  /** One step of the merge from positions `i` and `j`. */
  lemma MergedStep(left: seq<int>, right: seq<int>, i: nat, j: nat)
    requires i < |left| && j < |right|
    ensures Merged(left[i..], right[j..]) ==
      if left[i] <= right[j] then [left[i]] + Merged(left[i + 1..], right[j..])
      else [right[j]] + Merged(left[i..], right[j + 1..])
  {
    assert left[i..][0] == left[i] && left[i..][1..] == left[i + 1..];
    assert right[j..][0] == right[j] && right[j..][1..] == right[j + 1..];
  }

  /** Once one side is used up, the merge is the rest of the other side. */
  lemma MergedDrained(left: seq<int>, right: seq<int>)
    requires left == [] || right == []
    ensures Merged(left, right) == left + right
  {
    if left == [] {
      assert left + right == right;
    } else {
      assert left + right == left;
    }
  }

  /** Taking the smaller head keeps `Merge`'s loop invariant: the output so
      far followed by the merge of the rest is the whole merge. */
  lemma MergeAdvance(left: seq<int>, right: seq<int>, i: nat, j: nat, result: seq<int>)
    requires i < |left| && j < |right|
    requires result + Merged(left[i..], right[j..]) == Merged(left, right)
    ensures left[i] <= right[j] ==>
      (result + [left[i]]) + Merged(left[i + 1..], right[j..]) == Merged(left, right)
    ensures right[j] < left[i] ==>
      (result + [right[j]]) + Merged(left[i..], right[j + 1..]) == Merged(left, right)
  {
    MergedStep(left, right, i, j);
    if left[i] <= right[j] {
      var rest := Merged(left[i + 1..], right[j..]);
      assert result + ([left[i]] + rest) == (result + [left[i]]) + rest;
    } else {
      var rest := Merged(left[i..], right[j + 1..]);
      assert result + ([right[j]] + rest) == (result + [right[j]]) + rest;
    }
  }

  /** `merge`: walks both lists with indices `i` and `j`, appending the smaller
      head (the left one on ties), then appends what is left of each. */
  method Merge(left: seq<int>, right: seq<int>) returns (result: seq<int>)
    ensures result == Merged(left, right)
  {
    result := [];
    var i, j := 0, 0;
    while i < |left| && j < |right|
      invariant 0 <= i <= |left| && 0 <= j <= |right|
      invariant result + Merged(left[i..], right[j..]) == Merged(left, right)
      decreases |left| - i + |right| - j
    {
      MergeAdvance(left, right, i, j, result);
      if left[i] <= right[j] {
        result := result + [left[i]];
        i := i + 1;
      } else {
        result := result + [right[j]];
        j := j + 1;
      }
    }
    MergedDrained(left[i..], right[j..]);
    assert result + Merged(left[i..], right[j..]) == result + left[i..] + right[j..];
    result := result + left[i..] + right[j..];
  }

  /** `merge_sort`: splits at `len // 2`, sorts both halves and merges them. */
  function MergeSort(s: seq<int>): (r: seq<int>)
    ensures Sorted(r)
    ensures multiset(r) == multiset(s) && |r| == |s|
    ensures |s| <= 1 ==> r == s
    decreases |s|
  {
    if |s| <= 1 then s
    else
      var mid := |s| / 2;
      assert s == s[..mid] + s[mid..];
      var left, right := MergeSort(s[..mid]), MergeSort(s[mid..]);
      MergedSorted(left, right);
      MergedMultiset(left, right);
      var merged := Merged(left, right);
      assert |merged| == |multiset(merged)| == |multiset(s)| == |s|;
      merged
  }

  /** A sorted arrangement of a multiset is unique, so every correct sort of a
      list gives the same list: bubble sort and merge sort agree. */
  lemma {:induction false} SortedPermutationUnique(a: seq<int>, b: seq<int>)
    requires Sorted(a) && Sorted(b)
    requires multiset(a) == multiset(b)
    ensures a == b
    decreases |a|
  {
    assert |a| == |multiset(a)| == |multiset(b)| == |b|;
    if a != [] {
      SameLeast(a, b);
      SortedTail(a);
      SortedTail(b);
      SameRest(a, b);
      SortedPermutationUnique(a[1..], b[1..]);
      assert a == [a[0]] + a[1..] && b == [b[0]] + b[1..];
    }
  }

  /** Two sorted arrangements of one multiset start with the same element. */
  lemma SameLeast(a: seq<int>, b: seq<int>)
    requires Sorted(a) && Sorted(b) && a != [] && b != []
    requires multiset(a) == multiset(b)
    ensures a[0] == b[0]
  {
    assert a[0] in multiset(b) && b[0] in multiset(a);
    SortedHeadIsLeast(b, a[0]);
    SortedHeadIsLeast(a, b[0]);
  }

  /** Taking the same first element off two lists with one multiset leaves
      lists with one multiset. */
  lemma SameRest(a: seq<int>, b: seq<int>)
    requires a != [] && b != [] && a[0] == b[0]
    requires multiset(a) == multiset(b)
    ensures multiset(a[1..]) == multiset(b[1..])
  {
    assert a == [a[0]] + a[1..] && b == [b[0]] + b[1..];
    assert multiset(a) == multiset([a[0]]) + multiset(a[1..]);
    assert multiset(b) == multiset([a[0]]) + multiset(b[1..]);
    assert multiset(a[1..]) == multiset(a) - multiset([a[0]]);
  }

  lemma SortedTail(s: seq<int>)
    requires Sorted(s) && s != []
    ensures Sorted(s[1..])
  {
  }

  lemma SortedHeadIsLeast(s: seq<int>, x: int)
    requires Sorted(s) && x in s
    ensures s[0] <= x
  {
  }

  // ------------------------------------------------------------ min, max, sum

  /** `find_min`: raises ValueError on an empty list, otherwise scans for the
      smallest element. */
  method FindMin(a: seq<int>) returns (r: Result<int>)
    ensures a == [] <==> r.Err?
    ensures a == [] ==> r == Err(ValueError("La lista está vacía"))
    ensures r.Ok? ==> r.value in a && forall x :: x in a ==> r.value <= x
    ensures r.Ok? ==> r.value == Min(a)
  {
    if a == [] {
      return Err(ValueError("La lista está vacía"));
    }
    var minVal := a[0];
    for k := 1 to |a|
      invariant minVal in a[..k]
      invariant forall p :: 0 <= p < k ==> minVal <= a[p]
    {
      if a[k] < minVal {
        minVal := a[k];
      }
    }
    assert a[..|a|] == a;
    return Ok(minVal);
  }

  /** The minimum of a non-empty list: the reference `find_min` is proved
      against. */
  function Min(s: seq<int>): (r: int)
    requires s != []
    ensures r in s
    ensures forall x :: x in s ==> r <= x
  {
    if |s| == 1 then s[0]
    else
      var m := Min(s[1..]);
      assert s == [s[0]] + s[1..];
      if s[0] <= m then s[0] else m
  }

  /** Python's `max` on a non-empty list. */
  function Max(s: seq<int>): (r: int)
    requires s != []
    ensures r in s
    ensures forall x :: x in s ==> x <= r
  {
    if |s| == 1 then s[0]
    else
      var m := Max(s[1..]);
      assert s == [s[0]] + s[1..];
      if s[0] >= m then s[0] else m
  }

  /** Python's `sum`: 0 for the empty list. The total of `n` elements lies
      between `n` times the smallest and `n` times the largest, so the mean
      `sum / n` lies between the minimum and the maximum. */
  function Sum(s: seq<int>): (r: int)
    ensures s != [] ==> |s| * Min(s) <= r <= |s| * Max(s)
  {
    if s == [] then 0
    else
      var rest := Sum(s[1..]);
      SumStep(s, rest);
      s[0] + rest
  }

  /** One step of `Sum`'s bounds: adding the head to the bounded total of the
      tail keeps the total between the scaled minimum and maximum. */
  lemma SumStep(s: seq<int>, rest: int)
    requires s != []
    requires |s| > 1 ==> (|s| - 1) * Min(s[1..]) <= rest <= (|s| - 1) * Max(s[1..])
    requires |s| == 1 ==> rest == 0
    ensures |s| * Min(s) <= s[0] + rest <= |s| * Max(s)
  {
    var n := |s| - 1;
    ScaleSucc(n, Min(s));
    ScaleSucc(n, Max(s));
    if n > 0 {
      assert Min(s[1..]) in s && Max(s[1..]) in s;
      ScaleMonotone(n, Min(s), Min(s[1..]));
      ScaleMonotone(n, Max(s[1..]), Max(s));
    }
  }

  /** One more copy of `x` adds `x` to the scaled value. */
  lemma ScaleSucc(n: nat, x: int)
    ensures (n + 1) * x == n * x + x
  {
  }

  /** Multiplying by a count keeps the order of two values. */
  lemma {:induction false} ScaleMonotone(n: nat, x: int, y: int)
    requires x <= y
    ensures n * x <= n * y
  {
    if n > 0 {
      ScaleMonotone(n - 1, x, y);
      assert n * x == (n - 1) * x + x && n * y == (n - 1) * y + y;
    }
  }

  /** The sum of a concatenation is the sum of the parts. */
  lemma {:induction false} SumConcat(a: seq<int>, b: seq<int>)
    ensures Sum(a + b) == Sum(a) + Sum(b)
    decreases |a|
  {
    if a != [] {
      assert (a + b)[0] == a[0] && (a + b)[1..] == a[1..] + b;
      SumConcat(a[1..], b);
      assert Sum(a + b) == a[0] + Sum(a[1..] + b);
    } else {
      assert a + b == b;
    }
  }

  // ---------------------------------------------------------------- even filter

  predicate IsEven(x: int) {
    x % 2 == 0
  }

  /** `[num for num in numbers if num % 2 == 0]`. Python's `%` and Dafny's
      agree on whether the remainder by 2 is zero, also for negative numbers. */
  function FilterEven(s: seq<int>): (r: seq<int>)
    ensures forall k :: 0 <= k < |r| ==> IsEven(r[k])
  {
    if s == [] then []
    else (if IsEven(s[0]) then [s[0]] else []) + FilterEven(s[1..])
  }

  /** The filter keeps every even element as often as it occurs and drops
      every odd one. */
  lemma {:induction false} FilterEvenCount(s: seq<int>, x: int)
    ensures multiset(FilterEven(s))[x] == if IsEven(x) then multiset(s)[x] else 0
    decreases |s|
  {
    if s != [] {
      assert s == [s[0]] + s[1..];
      FilterEvenCount(s[1..], x);
    }
  }

  /** The filter works element by element and keeps the original order:
      filtering a concatenation filters each part. */
  lemma {:induction false} FilterEvenConcat(a: seq<int>, b: seq<int>)
    ensures FilterEven(a + b) == FilterEven(a) + FilterEven(b)
    decreases |a|
  {
    if a == [] {
      assert a + b == b;
    } else {
      assert (a + b)[0] == a[0] && (a + b)[1..] == a[1..] + b;
      var head := if IsEven(a[0]) then [a[0]] else [];
      assert FilterEven(a + b) == head + FilterEven(a[1..] + b);
      assert FilterEven(a) == head + FilterEven(a[1..]);
      FilterEvenConcat(a[1..], b);
    }
  }
}
