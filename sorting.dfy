/**
 * The ordering machinery shared by every collection loader: comparators are
 * boolean "less than or equal" relations, and `Array.prototype.sort` is
 * modelled by an in-place insertion sort over an array.
 */
module Sorting {

  /** `leq` is total and transitive: what a consistent sort comparator gives. */
  ghost predicate TotalPreorder<T(!new)>(leq: (T, T) -> bool) {
    Total(leq) && Transitive(leq)
  }

  ghost predicate Total<T(!new)>(leq: (T, T) -> bool) {
    forall x, y :: leq(x, y) || leq(y, x)
  }

  ghost predicate Transitive<T(!new)>(leq: (T, T) -> bool) {
    forall x, y, z :: leq(x, y) && leq(y, z) ==> leq(x, z)
  }

  /** Every earlier element is `leq` every later one. */
  ghost predicate SortedBy<T>(s: seq<T>, leq: (T, T) -> bool) {
    forall i, j :: 0 <= i < j < |s| ==> leq(s[i], s[j])
  }

  /** Neighbouring elements are in order. */
  ghost predicate AdjacentSorted<T>(s: seq<T>, leq: (T, T) -> bool) {
    forall k :: 0 < k < |s| ==> leq(s[k - 1], s[k])
  }

  /** For a transitive relation, ordered neighbours give an ordered sequence. */
  lemma {:induction false} AdjacentToSorted<T(!new)>(s: seq<T>, leq: (T, T) -> bool)
    requires TotalPreorder(leq)
    requires AdjacentSorted(s, leq)
    ensures SortedBy(s, leq)
  {
    if |s| > 1 {
      var t := s[..|s| - 1];
      assert AdjacentSorted(t, leq);
      AdjacentToSorted(t, leq);
      forall i | 0 <= i < |s| - 1
        ensures leq(s[i], s[|s| - 1])
      {
        if i < |s| - 2 {
          assert leq(t[i], t[|s| - 2]);
        }
      }
    }
  }

  /**
   * Sorts `a` in place: the result is ordered by `leq` and holds the same
   * elements.  Only totality is used by the loop (each step compares and
   * swaps neighbours); transitivity turns the neighbour order into `SortedBy`.
   */
  method SortInPlace<T(!new)>(a: array<T>, leq: (T, T) -> bool)
    requires TotalPreorder(leq)
    modifies a
    ensures SortedBy(a[..], leq)
    ensures multiset(a[..]) == multiset(old(a[..]))
  {
    var i := 0;
    while i < a.Length
      invariant 0 <= i <= a.Length
      invariant forall k :: 0 < k < i ==> leq(a[k - 1], a[k])
      invariant multiset(a[..]) == multiset(old(a[..]))
    {
      InsertLast(a, i, leq);
      i := i + 1;
    }
    assert AdjacentSorted(a[..], leq);
    AdjacentToSorted(a[..], leq);
  }

  /** Moves `a[i]` left past every neighbour it should precede. */
  method InsertLast<T(!new)>(a: array<T>, i: nat, leq: (T, T) -> bool)
    requires Total(leq)
    requires i < a.Length
    requires forall k :: 0 < k < i ==> leq(a[k - 1], a[k])
    modifies a
    ensures forall k :: 0 < k <= i ==> leq(a[k - 1], a[k])
    ensures multiset(a[..]) == multiset(old(a[..]))
  {
    var j := i;
    while 0 < j && !leq(a[j - 1], a[j])
      invariant 0 <= j <= i
      invariant forall k :: 0 < k <= i && k != j ==> leq(a[k - 1], a[k])
      invariant 0 < j < i ==> leq(a[j - 1], a[j + 1])
      invariant multiset(a[..]) == multiset(old(a[..]))
    {
      Swap(a, j);
      j := j - 1;
    }
  }

  /** Exchanges `a[j - 1]` and `a[j]`. */
  method Swap<T>(a: array<T>, j: nat)
    requires 0 < j < a.Length
    modifies a
    ensures a[j - 1] == old(a[j]) && a[j] == old(a[j - 1])
    ensures forall k :: 0 <= k < a.Length && k != j - 1 && k != j ==> a[k] == old(a[k])
    ensures multiset(a[..]) == multiset(old(a[..]))
  {
    a[j - 1], a[j] := a[j], a[j - 1];
  }

  /** Sorts a copy of `s`; the caller's sequence is a value and is not touched. */
  method Sort<T(!new)>(s: seq<T>, leq: (T, T) -> bool) returns (r: seq<T>)
    requires TotalPreorder(leq)
    ensures SortedBy(r, leq)
    ensures multiset(r) == multiset(s)
  {
    var a := new T[|s|](k requires 0 <= k < |s| => s[k]);
    assert a[..] == s;
    SortInPlace(a, leq);
    r := a[..];
  }
}
