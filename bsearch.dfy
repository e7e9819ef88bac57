// Binary search over a vector of integers (prusti/bsearch/bsearch.rs).

module BSearch {

  predicate Sorted(s: seq<int>) {
    forall i, j :: 0 <= i < j < |s| ==> s[i] <= s[j]
  }

  /** `binary_search`: an index holding `k`, or the length when the search
      gives up. On an ascending vector it gives up exactly when `k` is absent. */
  method BinarySearch(k: int, items: seq<int>) returns (r: nat)
    ensures r == |items| || (r < |items| && items[r] == k)
    ensures k !in items ==> r == |items|
    ensures Sorted(items) ==> (r < |items| <==> k in items)
  {
    var size := |items|;
    if size <= 0 {
      return size;
    }

    var low: nat := 0;
    var high: int := size - 1;

    while low <= high
      invariant high < size && low <= high + 1
      invariant Sorted(items) && k in items ==> k in items[low..high + 1]
      decreases high - low
    {
      var middle := low + (high - low) / 2;
      var current := items[middle];
      if current == k {
        return middle;
      }
      if current > k {
        if middle == 0 {
          assert Sorted(items) ==> k !in items;
          return size;
        }
        assert Sorted(items) ==> forall i :: middle <= i < size ==> items[i] > k;
        high := middle - 1;
      }
      if current < k {
        assert Sorted(items) ==> forall i :: 0 <= i <= middle ==> items[i] < k;
        low := middle + 1;
      }
    }
    r := size;
  }
}
