// In-place heap sort of a vector (lr/src/heapsort.rs): a build phase that
// sifts every inner node down, then an extraction phase that swaps the root
// behind the heap and sifts the new root down.

module HeapSort {

  function Parent(c: nat): nat
    requires c > 0
  {
    (c - 1) / 2
  }

  predicate Sorted(s: seq<int>) {
    forall i, j :: 0 <= i < j < |s| ==> s[i] <= s[j]
  }

  /** Every element before `end` is at most every element from `end` on. */
  predicate PrefixBelow(s: seq<int>, end: nat) {
    forall i, j :: 0 <= i < end <= j < |s| ==> s[i] <= s[j]
  }

  /** `s` and `t` agree outside `[start, end]`. */
  predicate SameOutside(s: seq<int>, t: seq<int>, start: nat, end: nat) {
    |s| == |t| && forall i :: 0 <= i < |s| && (i < start || i > end) ==> s[i] == t[i]
  }

  /** Every parent-child pair inside `[start, end]` is ordered, except the
      pairs whose parent is `hole`. */
  ghost predicate HeapExcept(s: seq<int>, start: nat, end: int, hole: int) {
    end < |s| &&
    forall c :: 0 < c <= end && start <= Parent(c) && Parent(c) != hole ==> s[Parent(c)] >= s[c]
  }

  ghost predicate Heap(s: seq<int>, start: nat, end: int) {
    HeapExcept(s, start, end, -1)
  }

  /** While `hole` sinks, its parent still dominates its children. */
  ghost predicate AboveHole(s: seq<int>, start: nat, end: int, hole: nat) {
    end < |s| &&
    (hole > start ==> forall c :: 0 < c <= end && Parent(c) == hole ==> s[Parent(hole)] >= s[c])
  }

  /** The root of a heap over `[0, end]` is its largest element. */
  lemma {:induction false} RootIsMax(s: seq<int>, end: nat, i: nat)
    requires Heap(s, 0, end) && i <= end
    ensures s[0] >= s[i]
    decreases i
  {
    if i > 0 {
      RootIsMax(s, end, Parent(i));
    }
  }

  /** `vec.swap(i, j)`. */
  method Swap(a: array<int>, i: nat, j: nat)
    modifies a
    requires i < a.Length && j < a.Length
    ensures a[..] == old(a[..])[i := old(a[..])[j]][j := old(a[..])[i]]
    ensures multiset(a[..]) == old(multiset(a[..]))
  {
    a[i], a[j] := a[j], a[i];
  }

  /** Swapping a hole with its larger child, when that child is larger than
      the hole, moves the hole down to the child. */
  lemma SinkStep(s: seq<int>, start: nat, end: nat, root: nat, child: nat)
    requires end < |s| && start <= root
    requires child == 2 * root + 1 || child == 2 * root + 2
    requires child <= end && s[root] < s[child]
    requires child == 2 * root + 1 && child + 1 <= end ==> s[child] >= s[child + 1]
    requires child == 2 * root + 2 ==> s[child] >= s[child - 1]
    requires HeapExcept(s, start, end, root) && AboveHole(s, start, end, root)
    ensures var s' := s[root := s[child]][child := s[root]];
      HeapExcept(s', start, end, child) && AboveHole(s', start, end, child)
  {
    var s' := s[root := s[child]][child := s[root]];
    assert Parent(child) == root;
    forall c | 0 < c <= end && start <= Parent(c) && Parent(c) != child
      ensures s'[Parent(c)] >= s'[c]
    {
      if Parent(c) == root {
        assert c == 2 * root + 1 || c == 2 * root + 2;
      } else if c == root {
        assert s[Parent(root)] >= s[child];
      }
    }
  }

  lemma SortedJoin(s: seq<int>)
    requires |s| >= 1 && Sorted(s[1..]) && PrefixBelow(s, 1)
    ensures Sorted(s)
  {
    forall i, j | 0 <= i < j < |s|
      ensures s[i] <= s[j]
    {
      if i > 0 {
        assert s[i] == s[1..][i - 1] && s[j] == s[1..][j - 1];
      }
    }
  }

  /** A permutation that keeps the suffix from `end` keeps every element of
      the prefix below every element of the suffix. */
  lemma PermutedPrefixBound(b: seq<int>, c: seq<int>, end: nat)
    requires |b| == |c| && end <= |b|
    requires multiset(c) == multiset(b) && c[end..] == b[end..]
    requires PrefixBelow(b, end)
    ensures PrefixBelow(c, end)
  {
    assert multiset(b) == multiset(b[..end]) + multiset(b[end..]) by {
      assert b == b[..end] + b[end..];
    }
    assert multiset(c) == multiset(c[..end]) + multiset(c[end..]) by {
      assert c == c[..end] + c[end..];
    }
    assert multiset(c[..end]) == multiset(b[..end]) by {
      assert multiset(c[..end]) == multiset(c) - multiset(c[end..]);
    }
    forall i, j | 0 <= i < end <= j < |c|
      ensures c[i] <= c[j]
    {
      assert c[i] in multiset(c[..end]) by {
        assert c[..end][i] == c[i];
      }
      var i' :| 0 <= i' < end && b[..end][i'] == c[i];
    }
  }

  /** Swapping the root of the heap `[0, end]` with position `end` extends
      the sorted suffix by one and leaves a heap over `[0, end - 1]` except at
      the root. */
  lemma SwapRootBehind(s: seq<int>, end: nat)
    requires 0 < end < |s| && Heap(s, 0, end)
    requires Sorted(s[end + 1..])
    requires PrefixBelow(s, end + 1)
    ensures var t := s[0 := s[end]][end := s[0]];
      && HeapExcept(t, 0, end - 1, 0)
      && Sorted(t[end..])
      && PrefixBelow(t, end)
  {
    var t := s[0 := s[end]][end := s[0]];
    forall i | 0 <= i <= end
      ensures s[0] >= s[i]
    {
      RootIsMax(s, end, i);
    }
    assert forall i :: 0 <= i < end ==> t[i] <= t[end];
  }

  /** A swap inside `[start, end]` keeps agreement outside it. */
  lemma SwapInside(s: seq<int>, s0: seq<int>, start: nat, end: nat, i: nat, j: nat)
    requires SameOutside(s, s0, start, end) && start <= i <= end && start <= j <= end && end < |s|
    ensures SameOutside(s[i := s[j]][j := s[i]], s0, start, end)
  {
  }

  /** A hole without children in range leaves a heap. */
  lemma HoleAtLeaf(s: seq<int>, start: nat, end: nat, root: nat)
    requires HeapExcept(s, start, end, root) && 2 * root + 1 > end
    ensures Heap(s, start, end)
  {
    forall c | 0 < c <= end && start <= Parent(c)
      ensures s[Parent(c)] >= s[c]
    {
      assert Parent(c) != root;
    }
  }

  /** A hole at least as large as its larger child leaves a heap. */
  lemma HoleSettled(s: seq<int>, start: nat, end: nat, root: nat, child: nat)
    requires HeapExcept(s, start, end, root)
    requires child == 2 * root + 1 || child == 2 * root + 2
    requires child <= end && s[root] >= s[child]
    requires child == 2 * root + 1 && child + 1 <= end ==> s[child] >= s[child + 1]
    requires child == 2 * root + 2 ==> s[child] >= s[child - 1]
    ensures Heap(s, start, end)
  {
    forall c | 0 < c <= end && start <= Parent(c)
      ensures s[Parent(c)] >= s[c]
    {
      if Parent(c) == root {
        assert c == 2 * root + 1 || c == 2 * root + 2;
      }
    }
  }

  /** Sifting the prefix keeps the sorted suffix and the bound between them. */
  lemma ExtractStep(b: seq<int>, c: seq<int>, end: nat)
    requires 0 < end <= |b| && SameOutside(c, b, 0, end - 1) && multiset(c) == multiset(b)
    requires PrefixBelow(b, end) && Sorted(b[end..])
    ensures PrefixBelow(c, end) && Sorted(c[end..])
  {
    assert c[end..] == b[end..];
    PermutedPrefixBound(b, c, end);
  }

  /** `shift_down(vec, start, end)`: sifts the element at `start` down the
      heap bounded by `end`, touching only `[start, end]`. If that range was a
      heap except at `start`, it is a heap afterwards. */
  method ShiftDown(a: array<int>, start: nat, end: nat) returns (r: int)
    modifies a
    requires start < a.Length && end < a.Length
    ensures r == 0
    ensures multiset(a[..]) == old(multiset(a[..]))
    ensures SameOutside(a[..], old(a[..]), start, end)
    ensures HeapExcept(old(a[..]), start, end, start) ==> Heap(a[..], start, end)
  {
    ghost var s0 := a[..];
    ghost var pre := HeapExcept(a[..], start, end, start);
    var root := start;
    while true
      invariant start <= root < a.Length
      invariant multiset(a[..]) == multiset(s0)
      invariant SameOutside(a[..], s0, start, end)
      invariant pre ==> HeapExcept(a[..], start, end, root) && AboveHole(a[..], start, end, root)
      decreases a.Length - root
    {
      var child := root * 2 + 1;
      if child > end {
        if pre {
          HoleAtLeaf(a[..], start, end, root);
        }
        break;
      } else {
        if child + 1 <= end {
          if a[child] < a[child + 1] {
            child := child + 1;
          }
        }
        if a[root] < a[child] {
          if pre {
            SinkStep(a[..], start, end, root, child);
          }
          SwapInside(a[..], s0, start, end, root, child);
          Swap(a, root, child);
          root := child;
        } else {
          if pre {
            HoleSettled(a[..], start, end, root, child);
          }
          break;
        }
      }
    }
    r := 0;
  }

  /** `heap_sort`: sorts the vector in place into ascending order and
      returns 0. */
  method HeapSort(a: array<int>) returns (r: int)
    modifies a
    ensures r == 0
    ensures Sorted(a[..])
    ensures multiset(a[..]) == old(multiset(a[..]))
  {
    var len := a.Length;
    if len <= 0 {
      return 0;
    }

    var start: nat := len / 2;
    while start > 0
      invariant start <= len / 2
      invariant multiset(a[..]) == old(multiset(a[..]))
      invariant Heap(a[..], start, len - 1)
    {
      start := start - 1;
      var _ := ShiftDown(a, start, len - 1);
    }

    var end := len;
    while end > 1
      invariant 1 <= end <= len
      invariant multiset(a[..]) == old(multiset(a[..]))
      invariant Heap(a[..], 0, end - 1)
      invariant Sorted(a[end..])
      invariant PrefixBelow(a[..], end)
    {
      end := end - 1;
      var start := 0;
      SwapRootBehind(a[..], end);
      Swap(a, start, end);
      ghost var swapped := a[..];
      var _ := ShiftDown(a, start, end - 1);
      ExtractStep(swapped, a[..], end);
    }
    SortedJoin(a[..]);
    r := 0;
  }
}
