/**
 * In-place reversal of the route segment between two indices (inclusive),
 * the move of the 2-opt improvement phase.
 */
module RouteOps {

  /** `s` with positions i and j exchanged. */
  function Swapped<T>(s: seq<T>, i: nat, j: nat): (r: seq<T>)
    requires i < |s| && j < |s|
    ensures |r| == |s| && r[i] == s[j] && r[j] == s[i]
    ensures forall k :: 0 <= k < |s| && k != i && k != j ==> r[k] == s[k]
  {
    s[i := s[j]][j := s[i]]
  }

  /** A segment the reversal may touch: empty (`lo >= hi`) or inside the route. */
  predicate SegmentInRoute(n: nat, lo: int, hi: int) {
    lo < hi ==> 0 <= lo && hi < n
  }

  /** `s` with the segment `s[lo..hi]` (both ends included) in reverse order. */
  function ReversedSegment<T>(s: seq<T>, lo: int, hi: int): (r: seq<T>)
    requires SegmentInRoute(|s|, lo, hi)
    ensures |r| == |s|
  {
    seq(|s|, k requires 0 <= k < |s| => if lo <= k <= hi then s[lo + hi - k] else s[k])
  }

  /** Reversing a segment is swapping its ends, then reversing what lies between them. */
  lemma ReversedSegmentPeel<T>(s: seq<T>, lo: int, hi: int)
    requires lo < hi && SegmentInRoute(|s|, lo, hi)
    ensures ReversedSegment(s, lo, hi) == ReversedSegment(Swapped(s, lo, hi), lo + 1, hi - 1)
  {
  }

  /** Swapping two positions keeps the same elements. */
  lemma SwappedPermutes<T>(s: seq<T>, i: nat, j: nat)
    requires i < |s| && j < |s|
    ensures multiset(Swapped(s, i, j)) == multiset(s)
  {
  }

  /** Reversing a segment keeps the same elements. */
  lemma {:induction false} ReversedSegmentPermutes<T>(s: seq<T>, lo: int, hi: int)
    requires SegmentInRoute(|s|, lo, hi)
    ensures multiset(ReversedSegment(s, lo, hi)) == multiset(s)
    decreases hi - lo
  {
    if lo < hi {
      ReversedSegmentPeel(s, lo, hi);
      SwappedPermutes(s, lo, hi);
      ReversedSegmentPermutes(Swapped(s, lo, hi), lo + 1, hi - 1);
    } else {
      assert ReversedSegment(s, lo, hi) == s;
    }
  }

  /** Reversing the same segment twice restores the route. */
  lemma ReversedSegmentTwice<T>(s: seq<T>, lo: int, hi: int)
    requires SegmentInRoute(|s|, lo, hi)
    ensures ReversedSegment(ReversedSegment(s, lo, hi), lo, hi) == s
  {
  }

  /** Exchanges the elements at positions i and j and leaves the rest alone. */
  method Swap<T>(a: array<T>, i: nat, j: nat)
    requires i < a.Length && j < a.Length
    modifies a
    ensures a[..] == Swapped(old(a[..]), i, j)
    ensures a[i] == old(a[j]) && a[j] == old(a[i])
    ensures forall k :: 0 <= k < a.Length && k != i && k != j ==> a[k] == old(a[k])
  {
    a[i], a[j] := a[j], a[i];
  }

  /**
   * Reverses `a[start..end]` (both ends included) in place by swapping the
   * two ends and moving inwards while `start < end`.
   */
  method ReverseSegment<T>(a: array<T>, start: int, end: int)
    requires SegmentInRoute(a.Length, start, end)
    modifies a
    ensures a[..] == ReversedSegment(old(a[..]), start, end)
    ensures forall k :: start <= k <= end && 0 <= k < a.Length ==> a[k] == old(a[start + end - k])
    ensures forall k :: 0 <= k < a.Length && !(start <= k <= end) ==> a[k] == old(a[k])
    ensures multiset(a[..]) == multiset(old(a[..]))
    ensures start >= end ==> a[..] == old(a[..])
  {
    var lo, hi := start, end;
    while lo < hi
      invariant lo + hi == start + end
      invariant lo < hi ==> start <= lo && hi <= end
      invariant SegmentInRoute(a.Length, lo, hi)
      invariant ReversedSegment(a[..], lo, hi) == ReversedSegment(old(a[..]), start, end)
      decreases hi - lo
    {
      ReversedSegmentPeel(a[..], lo, hi);
      Swap(a, lo, hi);
      lo := lo + 1;
      hi := hi - 1;
    }
    assert ReversedSegment(a[..], lo, hi) == a[..];
    ReversedSegmentPermutes(old(a[..]), start, end);
  }
}
