/** A value-level model of `heapify` and `heapSort` from Heapsort/heapsort.py.
    Arrays are sequences of integers; each function returns the array the
    Python code leaves behind, and a companion function counts the
    `heapify` invocations it makes (each one adds 2 to the `iterations`
    counter). */
module HeapModel {

  function Left(i: nat): nat { 2 * i + 1 }
  function Right(i: nat): nat { 2 * i + 2 }

  function Parent(k: nat): nat
    requires k > 0
  {
    (k - 1) / 2
  }

  /** Python's `arr[i], arr[j] = arr[j], arr[i]`. */
  function Swap(s: seq<int>, i: nat, j: nat): (r: seq<int>)
    requires i < |s| && j < |s|
    ensures |r| == |s| && r[i] == s[j] && r[j] == s[i]
    ensures forall k :: 0 <= k < |s| && k != i && k != j ==> r[k] == s[k]
    ensures multiset(r) == multiset(s)
  {
    s[i := s[j]][j := s[i]]
  }

  /** The index `heapify(arr, n, i)` calls `largest` once both comparisons
      are made: `i` unless a child inside `[0, n)` is strictly larger, in
      which case the larger child (the left one on a tie between children). */
  function Largest(s: seq<int>, n: nat, i: nat): (m: nat)
    requires n <= |s|
    ensures m == i || (i < m < n && (m == Left(i) || m == Right(i)))
    ensures i < n ==> && (Left(i) < n ==> s[m] >= s[Left(i)])
                      && (Right(i) < n ==> s[m] >= s[Right(i)])
                      && s[m] >= s[i]
    ensures m == i <==> || i >= n
                        || ((Left(i) >= n || s[Left(i)] <= s[i])
                            && (Right(i) >= n || s[Right(i)] <= s[i]))
  {
    var l := if Left(i) < n && s[i] < s[Left(i)] then Left(i) else i;
    if Right(i) < n && s[l] < s[Right(i)] then Right(i) else l
  }

  /** The array `heapify(arr, n, i)` leaves behind. It only swaps, it only
      touches indices in `[i, n)`, and each recursive call moves to a child
      `largest` with `i < largest < n`, which is why it terminates. */
  function SiftDown(s: seq<int>, n: nat, i: nat): (r: seq<int>)
    requires n <= |s|
    ensures |r| == |s|
    ensures multiset(r) == multiset(s)
    ensures forall k :: 0 <= k < |s| && (k < i || k >= n) ==> r[k] == s[k]
    decreases n - i
  {
    var m := Largest(s, n, i);
    if m == i then s else SiftDown(Swap(s, i, m), n, m)
  }

  /** The number of `heapify` invocations `heapify(arr, n, i)` makes,
      itself included. */
  function SiftCalls(s: seq<int>, n: nat, i: nat): nat
    requires n <= |s|
    decreases n - i
  {
    var m := Largest(s, n, i);
    if m == i then 1 else 1 + SiftCalls(Swap(s, i, m), n, m)
  }

  /** The build loop `for i in range(k - 1, -1, -1): heapify(arr, n, i)`;
      the Python code starts it at `k = n // 2`. */
  function BuildHeap(s: seq<int>, n: nat, k: nat): (r: seq<int>)
    requires n <= |s|
    ensures |r| == |s|
    ensures multiset(r) == multiset(s)
    ensures forall j :: n <= j < |s| ==> r[j] == s[j]
    decreases k
  {
    if k == 0 then s else BuildHeap(SiftDown(s, n, k - 1), n, k - 1)
  }

  function BuildCalls(s: seq<int>, n: nat, k: nat): nat
    requires n <= |s|
    decreases k
  {
    if k == 0 then 0 else SiftCalls(s, n, k - 1) + BuildCalls(SiftDown(s, n, k - 1), n, k - 1)
  }

  /** The extraction loop `for i in range(k - 1, 0, -1)`: move the root
      behind the heap, then `heapify(arr, i, 0)` on the shrunken heap; the
      Python code starts it at `k = n`. */
  function SortFrom(s: seq<int>, k: nat): (r: seq<int>)
    requires k <= |s|
    ensures |r| == |s|
    ensures multiset(r) == multiset(s)
    decreases k
  {
    if k <= 1 then s else SortFrom(SiftDown(Swap(s, k - 1, 0), k - 1, 0), k - 1)
  }

  function SortCalls(s: seq<int>, k: nat): nat
    requires k <= |s|
    decreases k
  {
    if k <= 1 then 0
    else SiftCalls(Swap(s, k - 1, 0), k - 1, 0) + SortCalls(SiftDown(Swap(s, k - 1, 0), k - 1, 0), k - 1)
  }

  /** The array `heapSort(arr)` leaves behind. */
  function HeapSorted(s: seq<int>): seq<int>
  {
    SortFrom(BuildHeap(s, |s|, |s| / 2), |s|)
  }

  /** The value `heapSort(arr)` returns: two per `heapify` invocation. */
  function Iterations(s: seq<int>): nat
  {
    2 * (BuildCalls(s, |s|, |s| / 2) + SortCalls(BuildHeap(s, |s|, |s| / 2), |s|))
  }

  // ---------------------------------------------------------------------
  // Heap shape

  /** Node `p` is at least as large as each of its children inside `[0, n)`. */
  ghost predicate Dominates(s: seq<int>, n: nat, p: nat)
    requires n <= |s|
  {
    && (Left(p) < n ==> s[p] >= s[Left(p)])
    && (Right(p) < n ==> s[p] >= s[Right(p)])
  }

  /** Every node of `[lo, n)` dominates its children: for `lo == 0` this is
      the max-heap property of the prefix `arr[0..n)`. */
  ghost predicate HeapFrom(s: seq<int>, n: nat, lo: nat)
    requires n <= |s|
  {
    forall p :: lo <= p < n ==> Dominates(s, n, p)
  }

  /** The state in which `heapify(arr, n, i)` is entered while building or
      restoring a heap on `[lo, n)`: every node of `[lo, n)` but `i`
      dominates its children, and if `i` is not the top its parent also
      dominates `i`'s children. */
  ghost predicate SiftReady(s: seq<int>, n: nat, lo: nat, i: nat)
    requires n <= |s|
  {
    && lo <= i
    && (forall p :: lo <= p < n && p != i ==> Dominates(s, n, p))
    && (lo < i < n ==>
          && lo <= Parent(i)
          && (Left(i) < n ==> s[Parent(i)] >= s[Left(i)])
          && (Right(i) < n ==> s[Parent(i)] >= s[Right(i)]))
  }

  ghost predicate SortedBetween(s: seq<int>, lo: nat, hi: nat)
    requires lo <= hi <= |s|
  {
    forall a, b :: lo <= a < b < hi ==> s[a] <= s[b]
  }

  ghost predicate Sorted(s: seq<int>) {
    SortedBetween(s, 0, |s|)
  }

  // ---------------------------------------------------------------------
  // heapify

  /** After `heapify` swaps `i` with `largest`, `i` dominates its children. */
  lemma SwapTopDominates(s: seq<int>, n: nat, i: nat)
    requires n <= |s| && Largest(s, n, i) != i
    ensures Dominates(Swap(s, i, Largest(s, n, i)), n, i)
  {
    var m := Largest(s, n, i);
    var t := Swap(s, i, m);
    var other := if m == Left(i) then Right(i) else Left(i);
    assert t[i] == s[m] && t[m] == s[i];
    assert other < n ==> t[other] == s[other];
  }

  /** The swap keeps the parent of `i` dominant, given that it dominated
      `i`'s children. */
  lemma SwapParentDominates(s: seq<int>, n: nat, i: nat)
    requires n <= |s| && Largest(s, n, i) != i && i > 0
    requires Dominates(s, n, Parent(i))
    requires Left(i) < n ==> s[Parent(i)] >= s[Left(i)]
    requires Right(i) < n ==> s[Parent(i)] >= s[Right(i)]
    ensures Dominates(Swap(s, i, Largest(s, n, i)), n, Parent(i))
  {
    var m := Largest(s, n, i);
    var t := Swap(s, i, m);
    var p := Parent(i);
    assert p < i && t[p] == s[p] && t[i] == s[m];
    var sibling := if i == Left(p) then Right(p) else Left(p);
    assert sibling != m && sibling != i;
    assert sibling < n ==> t[sibling] == s[sibling];
  }

  /** The swap leaves every other dominant node dominant. */
  lemma SwapOtherDominates(s: seq<int>, n: nat, i: nat, p: nat)
    requires n <= |s| && Largest(s, n, i) != i
    requires p != i && p != Largest(s, n, i) && Left(p) != i && Right(p) != i
    requires Dominates(s, n, p)
    ensures Dominates(Swap(s, i, Largest(s, n, i)), n, p)
  {
    var m := Largest(s, n, i);
    assert Parent(m) == i;
    assert Left(p) != m && Right(p) != m;
  }

  /** One swap of `heapify` keeps the sift-down state, one level lower. */
  lemma SiftStep(s: seq<int>, n: nat, lo: nat, i: nat)
    requires n <= |s| && SiftReady(s, n, lo, i)
    requires Largest(s, n, i) != i
    ensures SiftReady(Swap(s, i, Largest(s, n, i)), n, lo, Largest(s, n, i))
  {
    var m := Largest(s, n, i);
    var t := Swap(s, i, m);
    assert Parent(m) == i;
    forall p | lo <= p < n && p != m
      ensures Dominates(t, n, p)
    {
      if p == i {
        SwapTopDominates(s, n, i);
      } else if i > lo && p == Parent(i) {
        SwapParentDominates(s, n, i);
      } else {
        SwapOtherDominates(s, n, i, p);
      }
    }
    assert Dominates(s, n, m);
  }

  /** heapify's contract: entered in the sift-down state for `[lo, n)`, it
      leaves `[lo, n)` a heap. With `lo == i` this reads: if every node below
      `i` already satisfies the heap property, then afterwards `i` does too. */
  lemma {:induction false} SiftDownHeap(s: seq<int>, n: nat, lo: nat, i: nat)
    requires n <= |s| && SiftReady(s, n, lo, i)
    ensures HeapFrom(SiftDown(s, n, i), n, lo)
    decreases n - i
  {
    var m := Largest(s, n, i);
    if m == i {
      if i < n {
        assert Dominates(s, n, i);
      }
    } else {
      SiftStep(s, n, lo, i);
      SiftDownHeap(Swap(s, i, m), n, lo, m);
    }
  }

  // ---------------------------------------------------------------------
  // heapify on one subtree

  /** `j` lies in the subtree rooted at `a`: it is `a`, or its parent lies
      there. */
  ghost predicate Descendant(a: nat, j: nat)
    decreases j
  {
    j == a || (j > a && Descendant(a, Parent(j)))
  }

  /** The subtree rooted at `a`, cut off at `n`, is a max-heap. */
  ghost predicate SubHeap(s: seq<int>, n: nat, a: nat)
    requires n <= |s|
  {
    forall j: nat :: j < n && Descendant(a, j) ==> Dominates(s, n, j)
  }

  /** The sift-down state inside the subtree rooted at `top`: every node of
      the subtree but `i` dominates its children, and if `i` is not the top
      its parent also dominates `i`'s children. */
  ghost predicate SubtreeReady(s: seq<int>, n: nat, top: nat, i: nat)
    requires n <= |s|
  {
    && Descendant(top, i)
    && (forall p: nat :: p < n && p != i && Descendant(top, p) ==> Dominates(s, n, p))
    && (top < i < n ==>
          && (Left(i) < n ==> s[Parent(i)] >= s[Left(i)])
          && (Right(i) < n ==> s[Parent(i)] >= s[Right(i)]))
  }

  /** A node below `a` lies below one of `a`'s children. */
  lemma {:induction false} BelowChild(a: nat, j: nat)
    requires Descendant(a, j) && j != a
    ensures Descendant(Left(a), j) || Descendant(Right(a), j)
    decreases j
  {
    if Parent(j) == a {
      assert j == Left(a) || j == Right(a);
    } else {
      BelowChild(a, Parent(j));
    }
  }

  /** The subtree relation is transitive. */
  lemma {:induction false} DescendantTrans(a: nat, b: nat, j: nat)
    requires Descendant(a, b) && Descendant(b, j)
    ensures Descendant(a, j)
    decreases j
  {
    if j != b {
      DescendantTrans(a, b, Parent(j));
    }
  }

  /** Every index lies in the subtree of the root. */
  lemma {:induction false} BelowRoot(j: nat)
    ensures Descendant(0, j)
    decreases j
  {
    if j > 0 {
      BelowRoot(Parent(j));
    }
  }

  /** One swap of `heapify` keeps the sift-down state of the subtree, one
      level lower. */
  lemma SubtreeStep(s: seq<int>, n: nat, top: nat, i: nat)
    requires n <= |s| && SubtreeReady(s, n, top, i)
    requires Largest(s, n, i) != i
    ensures SubtreeReady(Swap(s, i, Largest(s, n, i)), n, top, Largest(s, n, i))
  {
    var m := Largest(s, n, i);
    var t := Swap(s, i, m);
    assert Parent(m) == i;
    assert Descendant(top, m);
    forall p: nat | p < n && p != m && Descendant(top, p)
      ensures Dominates(t, n, p)
    {
      if p == i {
        SwapTopDominates(s, n, i);
      } else if top < i && p == Parent(i) {
        assert Descendant(top, Parent(i));
        SwapParentDominates(s, n, i);
      } else {
        assert p >= top;
        SwapOtherDominates(s, n, i, p);
      }
    }
    assert Dominates(s, n, m);
  }

  lemma {:induction false} SiftDownSubtreeReady(s: seq<int>, n: nat, top: nat, i: nat)
    requires n <= |s| && SubtreeReady(s, n, top, i)
    ensures SubHeap(SiftDown(s, n, i), n, top)
    decreases n - i
  {
    var m := Largest(s, n, i);
    if m == i {
      if i < n {
        assert Dominates(s, n, i);
      }
    } else {
      SubtreeStep(s, n, top, i);
      SiftDownSubtreeReady(Swap(s, i, m), n, top, m);
    }
  }

  /** heapify's contract for one subtree: if the subtrees rooted at `i`'s
      children are max-heaps, `heapify(arr, n, i)` makes the subtree rooted
      at `i` a max-heap, whatever holds elsewhere in the array. */
  lemma SiftDownSubtree(s: seq<int>, n: nat, i: nat)
    requires n <= |s|
    requires SubHeap(s, n, Left(i)) && SubHeap(s, n, Right(i))
    ensures SubHeap(SiftDown(s, n, i), n, i)
  {
    forall p: nat | p < n && p != i && Descendant(i, p)
      ensures Dominates(s, n, p)
    {
      BelowChild(i, p);
    }
    SiftDownSubtreeReady(s, n, i, i);
  }

  /** At the root the subtree form and the index-range form of the heap
      property agree. */
  lemma SubHeapAtRoot(s: seq<int>, n: nat)
    requires n <= |s|
    ensures SubHeap(s, n, 0) <==> HeapFrom(s, n, 0)
  {
    forall p: nat | p < n
      ensures Descendant(0, p)
    {
      BelowRoot(p);
    }
  }

  /** heapify only moves elements inside the subtree rooted at `i`. */
  lemma {:induction false} SiftDownOutside(s: seq<int>, n: nat, i: nat)
    requires n <= |s|
    ensures forall k: nat :: k < |s| && !Descendant(i, k) ==> SiftDown(s, n, i)[k] == s[k]
    decreases n - i
  {
    var m := Largest(s, n, i);
    if m != i {
      var t := Swap(s, i, m);
      assert Parent(m) == i && Descendant(i, m);
      SiftDownOutside(t, n, m);
      forall k: nat | k < |s| && !Descendant(i, k)
        ensures SiftDown(s, n, i)[k] == s[k]
      {
        if Descendant(m, k) {
          DescendantTrans(i, m, k);
        }
        assert k != i && k != m;
      }
    }
  }

  /** heapify keeps every element of `[0, n)` below any bound they were all
      below. */
  lemma {:induction false} SiftDownBounded(s: seq<int>, n: nat, i: nat, v: int)
    requires n <= |s|
    requires forall a :: 0 <= a < n ==> s[a] <= v
    ensures forall a :: 0 <= a < n ==> SiftDown(s, n, i)[a] <= v
    decreases n - i
  {
    var m := Largest(s, n, i);
    if m != i {
      SiftDownBounded(Swap(s, i, m), n, m, v);
    }
  }

  /** heapify recurses at most about log2(n / (i + 1)) times:
      `(i + 1) * 2^(calls - 1) <= n`. */
  lemma SiftCallsLogarithmic(s: seq<int>, n: nat, i: nat)
    requires n <= |s| && i < n
    ensures (i + 1) * Pow2(SiftCalls(s, n, i) - 1) <= n
  {
    SiftCallsDoubled(s, n, i);
    DoubledIsProduct(i, SiftCalls(s, n, i) - 1);
  }

  /** `i + 1` doubled `k` times: the position one past the node `k` levels
      below `i` along the leftmost path, counted from 1. */
  function Doubled(i: nat, k: nat): nat
  {
    if k == 0 then i + 1 else 2 * Doubled(i, k - 1)
  }

  /** The depth bound in linear terms: every level `heapify` descends at
      least doubles `index + 1`, and the last index is still below `n`. */
  lemma {:induction false} SiftCallsDoubled(s: seq<int>, n: nat, i: nat)
    requires n <= |s| && i < n
    ensures Doubled(i, SiftCalls(s, n, i) - 1) <= n
    decreases n - i
  {
    var m := Largest(s, n, i);
    SiftCallsStep(s, n, i);
    if m != i {
      var t := Swap(s, i, m);
      SiftCallsDoubled(t, n, m);
      SiftCallsStep(t, n, m);
      DoubledStep(i, m, SiftCalls(t, n, m) - 1);
    }
  }

  /** One level of `heapify`'s recursion: one invocation, plus those of
      the recursive call when `largest != i`. */
  lemma SiftCallsStep(s: seq<int>, n: nat, i: nat)
    requires n <= |s|
    ensures SiftCalls(s, n, i) >= 1
    ensures Largest(s, n, i) == i ==> SiftCalls(s, n, i) == 1
    ensures Largest(s, n, i) != i ==>
              SiftCalls(s, n, i) == 1 + SiftCalls(Swap(s, i, Largest(s, n, i)), n, Largest(s, n, i))
  {
  }

  /** Going from `i` to a child `m` at least doubles `index + 1`. */
  lemma {:induction false} DoubledStep(i: nat, m: nat, k: nat)
    requires 2 * (i + 1) <= m + 1
    ensures Doubled(i, k + 1) <= Doubled(m, k)
  {
    if k > 0 {
      DoubledStep(i, m, k - 1);
    }
  }

  function Pow2(k: nat): nat
  {
    if k == 0 then 1 else 2 * Pow2(k - 1)
  }

  lemma {:induction false} DoubledIsProduct(i: nat, k: nat)
    ensures Doubled(i, k) == (i + 1) * Pow2(k)
  {
    if k > 0 {
      DoubledIsProduct(i, k - 1);
      assert (i + 1) * (2 * Pow2(k - 1)) == 2 * ((i + 1) * Pow2(k - 1));
    }
  }

  // ---------------------------------------------------------------------
  // heapSort

  /** In a max-heap on `[0, n)` the root is a maximum of `arr[0..n)`. */
  lemma {:induction false} HeapRootIsMax(s: seq<int>, n: nat, k: nat)
    requires n <= |s| && HeapFrom(s, n, 0) && k < n
    ensures s[0] >= s[k]
    decreases k
  {
    if k > 0 {
      var p := Parent(k);
      assert Dominates(s, n, p);
      assert k == Left(p) || k == Right(p);
      HeapRootIsMax(s, n, p);
    }
  }

  /** The leaves, `[n // 2, n)`, form a heap with nothing to do. */
  lemma LeavesAreHeap(s: seq<int>, n: nat)
    requires n <= |s|
    ensures HeapFrom(s, n, n / 2)
  {
  }

  /** The build loop: from a heap on `[k, n)`, `heapify` on `k - 1, ..., 0`
      makes `[0, n)` a heap. */
  lemma {:induction false} BuildHeapIsHeap(s: seq<int>, n: nat, k: nat)
    requires n <= |s| && k <= n && HeapFrom(s, n, k)
    ensures HeapFrom(BuildHeap(s, n, k), n, 0)
    decreases k
  {
    if k > 0 {
      var j := k - 1;
      BuildTurn(s, n, j);
      BuildHeapIsHeap(SiftDown(s, n, j), n, j);
      BuildUnfold(s, n, j);
    }
  }

  /** One turn of the build loop extends the heap one node to the left. */
  lemma BuildTurn(s: seq<int>, n: nat, j: nat)
    requires n <= |s| && j < n && HeapFrom(s, n, j + 1)
    ensures HeapFrom(SiftDown(s, n, j), n, j)
  {
    ReadyBelowHeap(s, n, j);
    SiftDownHeap(s, n, j, j);
  }

  lemma BuildUnfold(s: seq<int>, n: nat, j: nat)
    requires n <= |s|
    ensures BuildHeap(s, n, j + 1) == BuildHeap(SiftDown(s, n, j), n, j)
    ensures BuildCalls(s, n, j + 1) == SiftCalls(s, n, j) + BuildCalls(SiftDown(s, n, j), n, j)
  {
  }

  /** A heap on `[j + 1, n)` is ready for `heapify(arr, n, j)`. */
  lemma ReadyBelowHeap(s: seq<int>, n: nat, j: nat)
    requires n <= |s| && HeapFrom(s, n, j + 1)
    ensures SiftReady(s, n, j, j)
  {
  }

  /** After the build loop, `arr[0..n)` is a max-heap and `arr[0]` is its
      maximum. */
  lemma BuildHeapRootIsMax(s: seq<int>)
    ensures HeapFrom(BuildHeap(s, |s|, |s| / 2), |s|, 0)
    ensures forall k :: 0 < k < |s| ==> BuildHeap(s, |s|, |s| / 2)[0] >= BuildHeap(s, |s|, |s| / 2)[k]
  {
    var b := BuildHeap(s, |s|, |s| / 2);
    LeavesAreHeap(s, |s|);
    BuildHeapIsHeap(s, |s|, |s| / 2);
    forall k | 0 < k < |s|
      ensures b[0] >= b[k]
    {
      HeapRootIsMax(b, |s|, k);
    }
  }

  /** The invariant of the extraction loop with `k - 1` as the loop index:
      `arr[0..k)` is a max-heap, `arr[k..)` is sorted, and nothing in the
      heap exceeds anything in the sorted suffix. */
  ghost predicate ExtractInvariant(s: seq<int>, k: nat)
    requires k <= |s|
  {
    && HeapFrom(s, k, 0)
    && SortedBetween(s, k, |s|)
    && (forall a, b :: 0 <= a < k <= b < |s| ==> s[a] <= s[b])
  }

  /** One extraction step (swap the root behind the heap, heapify the rest)
      keeps the loop invariant with the heap one shorter. */
  lemma ExtractStep(s: seq<int>, k: nat)
    requires 1 < k <= |s| && ExtractInvariant(s, k)
    ensures ExtractInvariant(SiftDown(Swap(s, k - 1, 0), k - 1, 0), k - 1)
  {
    var r := SiftDown(Swap(s, k - 1, 0), k - 1, 0);
    var j := k - 1;
    RootIsMax(s, k);
    ExtractKeepsHeap(s, k);
    ExtractKeepsSuffix(s, k);
    ExtractKeepsOrder(s, k, r, j);
    InvariantFrom(r, j);
  }

  lemma InvariantFrom(r: seq<int>, j: nat)
    requires j <= |r| && HeapFrom(r, j, 0) && SortedBetween(r, j, |r|)
    requires forall a, b :: 0 <= a < j <= b < |r| ==> r[a] <= r[b]
    ensures ExtractInvariant(r, j)
  {
  }

  /** The root of a heap on `[0, k)` is its maximum. */
  lemma RootIsMax(s: seq<int>, k: nat)
    requires 0 < k <= |s| && HeapFrom(s, k, 0)
    ensures forall a :: 0 <= a < k ==> s[a] <= s[0]
  {
    forall a | 0 <= a < k
      ensures s[a] <= s[0]
    {
      HeapRootIsMax(s, k, a);
    }
  }

  /** After the swap and `heapify`, nothing left in the heap exceeds
      anything in the sorted suffix. */
  lemma ExtractKeepsOrder(s: seq<int>, k: nat, r: seq<int>, j: nat)
    requires 1 < k <= |s| && j == k - 1
    requires r == SiftDown(Swap(s, j, 0), j, 0)
    requires forall a :: 0 <= a < k ==> s[a] <= s[0]
    requires forall a, b :: 0 <= a < k <= b < |s| ==> s[a] <= s[b]
    ensures forall a, b :: 0 <= a < j <= b < |r| ==> r[a] <= r[b]
  {
    var t := Swap(s, j, 0);
    assert |r| == |s|;
    forall b | j <= b < |s|
      ensures forall a :: 0 <= a < j ==> r[a] <= r[b]
    {
      assert forall a :: 0 <= a < j ==> t[a] <= t[b];
      SiftDownBounded(t, j, 0, t[b]);
    }
  }

  /** After the swap the shrunken prefix is ready for `heapify(arr, k - 1, 0)`,
      which makes it a heap again. */
  lemma ExtractKeepsHeap(s: seq<int>, k: nat)
    requires 1 < k <= |s| && HeapFrom(s, k, 0)
    ensures HeapFrom(SiftDown(Swap(s, k - 1, 0), k - 1, 0), k - 1, 0)
  {
    var t := Swap(s, k - 1, 0);
    var heapSize := k - 1;
    forall p | 0 < p < heapSize
      ensures Dominates(t, heapSize, p)
    {
      assert Dominates(s, k, p);
    }
    assert SiftReady(t, heapSize, 0, 0);
    SiftDownHeap(t, heapSize, 0, 0);
  }

  /** The root moved behind the heap extends the sorted suffix by one. */
  lemma ExtractKeepsSuffix(s: seq<int>, k: nat)
    requires 1 < k <= |s| && SortedBetween(s, k, |s|)
    requires forall a :: 0 <= a < k ==> s[a] <= s[0]
    requires forall b :: k <= b < |s| ==> s[0] <= s[b]
    ensures SortedBetween(SiftDown(Swap(s, k - 1, 0), k - 1, 0), k - 1, |s|)
  {
    var t := Swap(s, k - 1, 0);
    var r := SiftDown(t, k - 1, 0);
    assert forall b :: k - 1 <= b < |s| ==> r[b] == t[b];
  }

  /** The extraction loop sorts any array that satisfies its invariant. */
  lemma {:induction false} SortFromSorts(s: seq<int>, k: nat)
    requires k <= |s| && ExtractInvariant(s, k)
    ensures Sorted(SortFrom(s, k))
    decreases k
  {
    if k <= 1 {
      assert SortedBetween(s, 0, |s|);
    } else {
      ExtractStep(s, k);
      SortFromSorts(SiftDown(Swap(s, k - 1, 0), k - 1, 0), k - 1);
    }
  }

  /** heapSort sorts: its output is in non-decreasing order and is a
      permutation of its input. */
  lemma HeapSortCorrect(s: seq<int>)
    ensures Sorted(HeapSorted(s))
    ensures multiset(HeapSorted(s)) == multiset(s)
    ensures |HeapSorted(s)| == |s|
  {
    var b := BuildHeap(s, |s|, |s| / 2);
    BuildHeapRootIsMax(s);
    SortFromSorts(b, |s|);
  }

  // ---------------------------------------------------------------------
  // The iteration counter

  lemma {:induction false} BuildCallsAtLeast(s: seq<int>, n: nat, k: nat)
    requires n <= |s|
    ensures BuildCalls(s, n, k) >= k
    decreases k
  {
    if k > 0 {
      var j := k - 1;
      BuildCallsAtLeast(SiftDown(s, n, j), n, j);
      SiftCallsStep(s, n, j);
      BuildUnfold(s, n, j);
    }
  }

  lemma {:induction false} SortCallsAtLeast(s: seq<int>, k: nat)
    requires k <= |s|
    ensures k >= 1 ==> SortCalls(s, k) >= k - 1
    decreases k
  {
    if k > 1 {
      SortCallsAtLeast(SiftDown(Swap(s, k - 1, 0), k - 1, 0), k - 1);
    }
  }

  /** The returned count is even, is 0 for arrays of length 0 or 1, and is at
      least two per top-level `heapify` call: `n // 2` in the build loop and
      `n - 1` in the extraction loop. */
  lemma IterationsBounds(s: seq<int>)
    ensures Iterations(s) % 2 == 0
    ensures |s| <= 1 ==> Iterations(s) == 0
    ensures |s| >= 1 ==> Iterations(s) >= 2 * (|s| / 2 + |s| - 1)
  {
    var n := |s|;
    var b := BuildHeap(s, n, n / 2);
    BuildCallsAtLeast(s, n, n / 2);
    SortCallsAtLeast(b, n);
    if n <= 1 {
      assert n / 2 == 0;
      assert BuildCalls(s, n, 0) == 0;
      assert SortCalls(b, n) == 0;
    }
    var x, y := BuildCalls(s, n, n / 2), SortCalls(b, n);
    assert Iterations(s) == 2 * (x + y);
    CounterArithmetic(n, x, y);
  }

  lemma CounterArithmetic(n: nat, x: nat, y: nat)
    requires x >= n / 2 && (n >= 1 ==> y >= n - 1)
    requires n <= 1 ==> x == 0 && y == 0
    ensures (2 * (x + y)) % 2 == 0
    ensures n >= 1 ==> 2 * (x + y) >= 2 * (n / 2 + n - 1)
  {
  }
}
