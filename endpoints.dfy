/** The bodies of the numeric endpoints. Each takes the payload's `numbers`
    (and `target`) as a sequence and answers with the response value or with
    the 400 error the endpoint raises on an empty list. */
module NumberEndpoints {
  import opened Outcomes
  import opened ListAlgorithms

  /** `detail` of the 400 raised by `/max-value`. */
  const EmptyNumbersDetail: string := "La lista de números no puede estar vacía."
  /** `detail` of the 400 raised by `/min-value` and `/mean-median`. */
  const EmptyListDetail: string := "La lista no puede estar vacía."

  /** A quotient `num / den`, standing for the float the source computes. */
  datatype Ratio = Ratio(num: int, den: int)

  /** The response of `/mean-median`. */
  datatype Stats = Stats(mean: Ratio, median: Ratio)

  /** Copies a payload list into a fresh array, as the source's lists are. */
  method ToArray(s: seq<int>) returns (a: array<int>)
    ensures fresh(a) && a[..] == s
  {
    a := new int[|s|](k requires 0 <= k < |s| => s[k]);
  }

  /** `/bubble-sort`: the payload sorted ascending. It is the same list merge
      sort produces, since a sorted permutation is unique. */
  method BubbleSortEndpoint(numbers: seq<int>) returns (sorted: seq<int>)
    ensures Sorted(sorted) && multiset(sorted) == multiset(numbers)
    ensures sorted == MergeSort(numbers)
  {
    var arr := ToArray(numbers);
    BubbleSort(arr);
    sorted := arr[..];
    SortedPermutationUnique(sorted, MergeSort(numbers));
  }

  /** `/max-value`: 400 on an empty list, otherwise the largest element. */
  function MaxValue(numbers: seq<int>): (r: Result<int>)
    ensures numbers == [] ==> r == Err(BadRequest(EmptyNumbersDetail))
    ensures numbers != [] ==> r.Ok? && r.value in numbers
    ensures r.Ok? ==> forall x :: x in numbers ==> x <= r.value
  {
    if numbers == [] then Err(BadRequest(EmptyNumbersDetail)) else Ok(Max(numbers))
  }

  /** `/min-value`: 400 on an empty list, otherwise `find_min` of it. The
      guard makes `find_min`'s own ValueError unreachable from here. */
  method MinValue(numbers: seq<int>) returns (r: Result<int>)
    ensures numbers == [] ==> r == Err(BadRequest(EmptyListDetail))
    ensures numbers != [] ==> r.Ok? && r.value in numbers
    ensures r.Ok? ==> forall x :: x in numbers ==> r.value <= x
    ensures r.Ok? ==> r.value == Min(numbers)
  {
    if numbers == [] {
      return Err(BadRequest(EmptyListDetail));
    }
    r := FindMin(numbers);
  }

  /** `/binary-search`: sorts the payload, then searches it. Because of the
      sort, `found` says exactly whether `target` occurs in the payload, and
      `index` is a position of `target` in the sorted list. */
  method BinarySearchEndpoint(numbers: seq<int>, target: int) returns (found: bool, index: int)
    ensures found <==> target in numbers
    ensures found ==> 0 <= index < |numbers| && MergeSort(numbers)[index] == target
    ensures !found ==> index == -1
  {
    var sorted := BubbleSortEndpoint(numbers);
    found, index := BinarySearch(sorted, target);
    assert target in numbers <==> target in multiset(sorted);
  }

  /** The median the source picks from the sorted list: the middle element
      for an odd length, the average of the two middle ones for an even one.
      It lies between the minimum and the maximum of the list. */
  function MedianOf(s: seq<int>): (r: Ratio)
    requires s != []
    ensures r.den == if |s| % 2 == 0 then 2 else 1
    ensures r.den * Min(s) <= r.num <= r.den * Max(s)
  {
    var t, n := MergeSort(s), |s|;
    SortedElementInList(s, n / 2);
    if n % 2 == 0 then
      SortedElementInList(s, n / 2 - 1);
      Ratio(t[n / 2 - 1] + t[n / 2], 2)
    else
      Ratio(t[n / 2], 1)
  }

  /** The median of an odd-length list is one of its elements. */
  lemma MedianWithinList(s: seq<int>)
    requires |s| % 2 == 1
    ensures MedianOf(s).num in s
  {
    SortedElementInList(s, |s| / 2);
  }

  /** Every position of the sorted list holds an element of the input. */
  lemma SortedElementInList(s: seq<int>, k: int)
    requires 0 <= k < |s|
    ensures MergeSort(s)[k] in s
  {
    var t := MergeSort(s);
    assert t[k] in multiset(t);
  }

  /** The median of an odd-length list splits it in halves: at most `n / 2`
      elements lie strictly below it and at most `n / 2` strictly above. */
  lemma MedianRank(s: seq<int>)
    requires |s| % 2 == 1
    ensures |Below(s, MedianOf(s).num)| <= |s| / 2
    ensures |Above(s, MedianOf(s).num)| <= |s| / 2
  {
    var t, n := MergeSort(s), |s|;
    var m := t[n / 2];
    BelowSorted(t, m, n / 2);
    AboveSorted(t, m, n / 2);
    SameCounts(s, t, m);
  }

  // ------------------------------------------------------------ rank counting

  /** The elements of `s` strictly below `m`, in order. */
  function Below(s: seq<int>, m: int): (r: seq<int>)
    ensures |r| <= |s|
  {
    if s == [] then [] else (if s[0] < m then [s[0]] else []) + Below(s[1..], m)
  }

  /** The elements of `s` strictly above `m`, in order. */
  function Above(s: seq<int>, m: int): (r: seq<int>)
    ensures |r| <= |s|
  {
    if s == [] then [] else (if s[0] > m then [s[0]] else []) + Above(s[1..], m)
  }

  /** `Below` and `Above` keep each qualifying value as often as it occurs. */
  lemma {:induction false} RankCount(s: seq<int>, m: int, x: int)
    ensures multiset(Below(s, m))[x] == if x < m then multiset(s)[x] else 0
    ensures multiset(Above(s, m))[x] == if x > m then multiset(s)[x] else 0
    decreases |s|
  {
    if s != [] {
      assert s == [s[0]] + s[1..];
      RankCount(s[1..], m, x);
    }
  }

  /** Permutations have as many elements below and above any value. */
  lemma SameCounts(s: seq<int>, t: seq<int>, m: int)
    requires multiset(s) == multiset(t)
    ensures |Below(s, m)| == |Below(t, m)| && |Above(s, m)| == |Above(t, m)|
  {
    forall x
      ensures multiset(Below(s, m))[x] == multiset(Below(t, m))[x]
      ensures multiset(Above(s, m))[x] == multiset(Above(t, m))[x]
    {
      RankCount(s, m, x);
      RankCount(t, m, x);
    }
    assert multiset(Below(s, m)) == multiset(Below(t, m));
    assert multiset(Above(s, m)) == multiset(Above(t, m));
  }

  /** In a sorted list, the values below `t[k]` or less all sit before `k`. */
  lemma {:induction false} BelowSorted(t: seq<int>, m: int, k: int)
    requires Sorted(t) && 0 <= k < |t| && m <= t[k]
    ensures |Below(t, m)| <= k
    decreases k
  {
    if k == 0 {
      NoneBelow(t, m);
    } else {
      BelowSorted(t[1..], m, k - 1);
    }
  }

  /** Nothing lies below a lower bound of the list. */
  lemma {:induction false} NoneBelow(t: seq<int>, m: int)
    requires forall i :: 0 <= i < |t| ==> m <= t[i]
    ensures Below(t, m) == []
    decreases |t|
  {
    if t != [] {
      NoneBelow(t[1..], m);
    }
  }

  /** In a sorted list, the values above `t[k]` or more all sit after `k`. */
  lemma {:induction false} AboveSorted(t: seq<int>, m: int, k: int)
    requires Sorted(t) && 0 <= k < |t| && t[k] <= m
    ensures |Above(t, m)| <= |t| - 1 - k
    decreases k
  {
    assert Above(t, m) == Above(t[1..], m);
    if k > 0 {
      AboveSorted(t[1..], m, k - 1);
    }
  }

  /** Any sorted permutation of `s` gives the same median as `MedianOf`. */
  lemma MedianFromSorted(s: seq<int>, t: seq<int>)
    requires s != [] && Sorted(t) && multiset(t) == multiset(s)
    ensures |t| == |s|
    ensures MedianOf(s) == if |s| % 2 == 0 then Ratio(t[|s| / 2 - 1] + t[|s| / 2], 2)
                           else Ratio(t[|s| / 2], 1)
  {
    SortedPermutationUnique(t, MergeSort(s));
  }

  /** `calculate_mean_median`: raises ValueError on an empty list; otherwise
      the mean of the list and the median of a sorted COPY. The array has no
      `modifies` clause here, so the caller's list is left as it was. */
  method CalculateMeanMedian(arr: array<int>) returns (r: Result<Stats>)
    ensures arr.Length == 0 ==> r == Err(ValueError("La lista está vacía"))
    ensures arr.Length > 0 ==> r.Ok?
    ensures r.Ok? ==> r.value.mean == Ratio(Sum(arr[..]), arr.Length)
    ensures r.Ok? ==> r.value.median == MedianOf(arr[..])
  {
    if arr.Length == 0 {
      return Err(ValueError("La lista está vacía"));
    }
    var n := arr.Length;
    var items := arr[..];
    var sortedArr := ToArray(items);
    BubbleSort(sortedArr);
    var sorted := sortedArr[..];
    MedianFromSorted(items, sorted);
    var mean := Ratio(Sum(items), n);
    var median;
    if n % 2 == 0 {
      median := Ratio(sorted[n / 2 - 1] + sorted[n / 2], 2);
    } else {
      median := Ratio(sorted[n / 2], 1);
    }
    return Ok(Stats(mean, median));
  }

  /** `/mean-median`: 400 on an empty list, otherwise `calculate_mean_median`. */
  method MeanMedian(numbers: seq<int>) returns (r: Result<Stats>)
    ensures numbers == [] ==> r == Err(BadRequest(EmptyListDetail))
    ensures numbers != [] ==> r == Ok(Stats(Ratio(Sum(numbers), |numbers|), MedianOf(numbers)))
  {
    if numbers == [] {
      return Err(BadRequest(EmptyListDetail));
    }
    var arr := ToArray(numbers);
    r := CalculateMeanMedian(arr);
  }
}
