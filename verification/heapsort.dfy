/** The in-place heapsort of Heapsort/heapsort.py on a Dafny array, proved
    to compute exactly what the value-level model in `HeapModel` describes. */
module Heapsort {
  import opened HeapModel

  /** `heapify(arr, n, i, iterations)`. The one-element list the Python code
      uses as a shared counter is threaded through as a value: the method
      receives the counter and returns its new value. */
  method Heapify(a: array<int>, n: nat, i: nat, iterations: nat) returns (counter: nat)
    requires n <= a.Length
    modifies a
    ensures a[..] == SiftDown(old(a[..]), n, i)
    ensures counter == iterations + 2 * SiftCalls(old(a[..]), n, i)
    decreases n - i
  {
    ghost var s := a[..];
    var largest := i;
    var left := 2 * i + 1;
    var right := 2 * i + 2;

    counter := iterations + 1;
    if left < n && a[i] < a[left] {
      largest := left;
    }

    counter := counter + 1;
    if right < n && a[largest] < a[right] {
      largest := right;
    }

    assert largest == Largest(s, n, i);
    if largest != i {
      a[i], a[largest] := a[largest], a[i];
      assert a[..] == Swap(s, i, largest);
      counter := Heapify(a, n, largest, counter);
    }
  }

  /** The first loop of `heapSort`: `heapify(arr, n, i)` for
      `i = n // 2 - 1, ..., 0`. */
  method BuildMaxHeap(a: array<int>, iterations: nat) returns (counter: nat)
    modifies a
    ensures a[..] == BuildHeap(old(a[..]), a.Length, a.Length / 2)
    ensures counter == iterations + 2 * BuildCalls(old(a[..]), a.Length, a.Length / 2)
  {
    ghost var input := a[..];
    var n := a.Length;
    counter := iterations;
    // the loop index i of the Python code is k - 1
    var half := n / 2;
    var k := half;
    while k > 0
      invariant 0 <= k <= half
      invariant BuildHeap(a[..], n, k) == BuildHeap(input, n, half)
      invariant counter + 2 * BuildCalls(a[..], n, k) == iterations + 2 * BuildCalls(input, n, half)
    {
      k := k - 1;
      ghost var before := a[..];
      counter := Heapify(a, n, k, counter);
      BuildStep(before, n, k);
    }
  }

  /** The second loop of `heapSort`: for `i = n - 1, ..., 1` swap the root
      to position `i` and `heapify(arr, i, 0)`. */
  method SortMaxHeap(a: array<int>, iterations: nat) returns (counter: nat)
    modifies a
    ensures a[..] == SortFrom(old(a[..]), a.Length)
    ensures counter == iterations + 2 * SortCalls(old(a[..]), a.Length)
  {
    ghost var input := a[..];
    var n := a.Length;
    counter := iterations;
    // the loop index i of the Python code is k - 1
    var k := n;
    while k > 1
      invariant 0 <= k <= n
      invariant SortFrom(a[..], k) == SortFrom(input, n)
      invariant counter + 2 * SortCalls(a[..], k) == iterations + 2 * SortCalls(input, n)
    {
      ghost var before := a[..];
      a[k - 1], a[0] := a[0], a[k - 1];
      assert a[..] == Swap(before, k - 1, 0);
      counter := Heapify(a, k - 1, 0, counter);
      SortStep(before, k);
      k := k - 1;
    }
  }

  /** One turn of the build loop, at the value level. */
  lemma BuildStep(s: seq<int>, n: nat, k: nat)
    requires n <= |s|
    ensures BuildHeap(s, n, k + 1) == BuildHeap(SiftDown(s, n, k), n, k)
    ensures BuildCalls(s, n, k + 1) == SiftCalls(s, n, k) + BuildCalls(SiftDown(s, n, k), n, k)
  {
  }

  /** One turn of the extraction loop, at the value level. */
  lemma SortStep(s: seq<int>, k: nat)
    requires 1 < k <= |s|
    ensures SortFrom(s, k) == SortFrom(SiftDown(Swap(s, k - 1, 0), k - 1, 0), k - 1)
    ensures SortCalls(s, k) == SiftCalls(Swap(s, k - 1, 0), k - 1, 0) + SortCalls(SiftDown(Swap(s, k - 1, 0), k - 1, 0), k - 1)
  {
  }

  /** `heapSort(arr)`: sorts the caller's array in place and returns the
      value of the iteration counter. */
  method HeapSortInPlace(a: array<int>) returns (iterations: nat)
    modifies a
    ensures a[..] == HeapSorted(old(a[..]))
    ensures Sorted(a[..])
    ensures multiset(a[..]) == multiset(old(a[..]))
    ensures iterations == Iterations(old(a[..]))
  {
    ghost var input := a[..];
    iterations := BuildMaxHeap(a, 0);
    iterations := SortMaxHeap(a, iterations);
    HeapSortCorrect(input);
  }

  /** `heapSort` seen from a caller that hands over a list and reads it
      afterwards: the list the call leaves behind, and the counter it
      returns. */
  method HeapSort(input: seq<int>) returns (output: seq<int>, iterations: nat)
    ensures Sorted(output)
    ensures multiset(output) == multiset(input)
    ensures output == HeapSorted(input)
    ensures iterations == Iterations(input)
    ensures |input| <= 1 ==> iterations == 0
  {
    var a := new int[|input|](k requires 0 <= k < |input| => input[k]);
    assert a[..] == input;
    iterations := HeapSortInPlace(a);
    output := a[..];
    IterationsBounds(input);
  }
}
