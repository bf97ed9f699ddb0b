/** Go's `sort.Strings`, which the coordinator applies to the names it could
    not find in the registry. */
module StringSort {
  import opened Lexicographic

  /** Sorts the strings of `a` in place into ascending lexicographic order.
      Go uses this insertion sort for short slices and pdqsort for longer
      ones; every in-place sort leaves the same result. */
  method SortStrings(a: array<string>)
    modifies a
    ensures Sorted(a[..])
    ensures multiset(a[..]) == multiset(old(a[..]))
  {
    var i := 0;
    while i < a.Length
      invariant 0 <= i <= a.Length
      invariant forall k, l :: 0 <= k < l < i ==> Below(a[k], a[l])
      invariant multiset(a[..]) == multiset(old(a[..]))
    {
      // Sink a[i] towards the front; only the element at j may be out of order.
      var j := i;
      while j > 0 && !Below(a[j - 1], a[j])
        invariant 0 <= j <= i
        invariant forall k, l :: 0 <= k < l <= i && l != j ==> Below(a[k], a[l])
        invariant multiset(a[..]) == multiset(old(a[..]))
      {
        BelowTotal(a[j - 1], a[j]);
        a[j - 1], a[j] := a[j], a[j - 1];
        j := j - 1;
      }
      forall k | 0 <= k < j
        ensures Below(a[k], a[j])
      {
        if k < j - 1 {
          BelowTransitive(a[k], a[j - 1], a[j]);
        }
      }
      i := i + 1;
    }
  }
}
