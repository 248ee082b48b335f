/** Go's sort.Sort on a slice, modelled as an in-place insertion sort of an array
    under the slice's Less method. Go's sort is not stable, so only the order
    relation and the permutation are specified. */
module Sorting {

  /** `less` is a strict weak order on the given elements: asymmetric, and its
      negation ("not less") is transitive. Every Less method the core sorts by
      (integer fields, Go's string order) is one. */
  ghost predicate StrictWeakOrderOn<T>(elems: set<T>, less: (T, T) -> bool) {
    && (forall x, y :: x in elems && y in elems && less(x, y) ==> !less(y, x))
    && (forall x, y, z :: x in elems && y in elems && z in elems && !less(x, y) && !less(y, z) ==> !less(x, z))
  }

  /** No later element is less than an earlier one: the order sort.Sort establishes. */
  predicate SortedBy<T>(s: seq<T>, less: (T, T) -> bool) {
    forall i, j :: 0 <= i < j < |s| ==> !less(s[j], s[i])
  }

  method Swap<T(==)>(a: array<T>, i: int, j: int)
    requires 0 <= i < a.Length && 0 <= j < a.Length
    modifies a
    ensures a[i] == old(a[j]) && a[j] == old(a[i])
    ensures forall k :: 0 <= k < a.Length && k != i && k != j ==> a[k] == old(a[k])
    ensures multiset(a[..]) == old(multiset(a[..]))
  {
    a[i], a[j] := a[j], a[i];
  }

  /** One insertion step: with a[..i] sorted, move a[i] left until a[..i+1] is sorted. */
  method Insert<T(==)>(a: array<T>, i: int, less: (T, T) -> bool, ghost elems: set<T>)
    requires 0 <= i < a.Length
    requires StrictWeakOrderOn(elems, less)
    requires forall k :: 0 <= k < a.Length ==> a[k] in elems
    requires forall p, q :: 0 <= p < q < i ==> !less(a[q], a[p])
    modifies a
    ensures forall k :: 0 <= k < a.Length ==> a[k] in elems
    ensures forall p, q :: 0 <= p < q <= i ==> !less(a[q], a[p])
    ensures multiset(a[..]) == old(multiset(a[..]))
  {
    var j := i;
    while j > 0 && less(a[j], a[j - 1])
      invariant 0 <= j <= i
      invariant multiset(a[..]) == old(multiset(a[..]))
      invariant forall k :: 0 <= k < a.Length ==> a[k] in elems
      invariant forall p, q :: 0 <= p < q <= i && p != j && q != j ==> !less(a[q], a[p])
      invariant forall q :: j < q <= i ==> less(a[j], a[q])
    {
      Swap(a, j - 1, j);
      j := j - 1;
    }
    InsertedSorted(a[..], i, j, less, elems);
  }

  lemma InsertedSorted<T>(s: seq<T>, i: int, j: int, less: (T, T) -> bool, elems: set<T>)
    requires 0 <= j <= i < |s|
    requires StrictWeakOrderOn(elems, less)
    requires forall k :: 0 <= k < |s| ==> s[k] in elems
    requires forall p, q :: 0 <= p < q <= i && p != j && q != j ==> !less(s[q], s[p])
    requires forall q :: j < q <= i ==> less(s[j], s[q])
    requires j > 0 ==> !less(s[j], s[j - 1])
    ensures forall p, q :: 0 <= p < q <= i ==> !less(s[q], s[p])
  {
    forall p, q | 0 <= p < q <= i
      ensures !less(s[q], s[p])
    {
      if q == j && p < j - 1 {
        assert !less(s[j], s[j - 1]) && !less(s[j - 1], s[p]);
      }
    }
  }

  method InsertionSort<T(==)>(a: array<T>, less: (T, T) -> bool)
    requires StrictWeakOrderOn(set k | 0 <= k < a.Length :: a[k], less)
    modifies a
    ensures SortedBy(a[..], less)
    ensures multiset(a[..]) == old(multiset(a[..]))
  {
    ghost var elems := set k | 0 <= k < a.Length :: a[k];
    var i := 0;
    while i < a.Length
      invariant 0 <= i <= a.Length
      invariant multiset(a[..]) == old(multiset(a[..]))
      invariant forall k :: 0 <= k < a.Length ==> a[k] in elems
      invariant forall p, q :: 0 <= p < q < i ==> !less(a[q], a[p])
    {
      Insert(a, i, less, elems);
      i := i + 1;
    }
  }
}
