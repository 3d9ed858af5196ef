/** The edge sort of tools/stb_truetype.h: a quicksort whose partition scans have
    no bounds check, finished off by an insertion sort. */
module EdgeSort {
  import opened Basics

  datatype Edge = Edge(x0: real, y0: real, x1: real, y1: real, invert: int)

  const THRESHOLD: nat := 12

  /** STBTT__COMPARE */
  predicate Less(a: Edge, b: Edge) {
    a.y0 < b.y0
  }

  ghost predicate Sorted(s: seq<Edge>) {
    forall i, j :: 0 <= i < j < |s| ==> !Less(s[j], s[i])
  }

  ghost predicate Permutation(s: seq<Edge>, t: seq<Edge>) {
    multiset(s) == multiset(t)
  }

  /** s and t agree outside [lo, hi). */
  ghost predicate SameOutside(s: seq<Edge>, t: seq<Edge>, lo: nat, hi: nat) {
    |s| == |t| && forall k :: 0 <= k < |s| && !(lo <= k < hi) ==> s[k] == t[k]
  }

  /** t rearranged within [lo, hi) gives s. */
  ghost predicate Rearranged(s: seq<Edge>, t: seq<Edge>, lo: nat, hi: nat) {
    Permutation(s, t) && SameOutside(s, t, lo, hi)
  }

  lemma Trivial(s: seq<Edge>, lo: nat, hi: nat)
    ensures Rearranged(s, s, lo, hi)
  {
  }

  lemma Compose(s: seq<Edge>, t: seq<Edge>, u: seq<Edge>, lo: nat, hi: nat, lo0: nat, hi0: nat)
    requires Rearranged(s, t, lo, hi) && Rearranged(t, u, lo0, hi0) && lo0 <= lo && hi <= hi0
    ensures Rearranged(s, u, lo0, hi0)
  {
  }

  function Swapped(s: seq<Edge>, i: nat, j: nat): (r: seq<Edge>)
    requires i < |s| && j < |s|
    ensures |r| == |s|
  {
    s[i := s[j]][j := s[i]]
  }

  lemma SwappedPermutes(s: seq<Edge>, i: nat, j: nat)
    requires i < |s| && j < |s|
    ensures Permutation(Swapped(s, i, j), s)
  {
  }

  method Swap(a: array<Edge>, i: nat, j: nat)
    requires i < a.Length && j < a.Length
    modifies a
    ensures a[..] == Swapped(old(a[..]), i, j) && Permutation(a[..], old(a[..]))
  {
    SwappedPermutes(a[..], i, j);
    var t := a[i];
    a[i] := a[j];
    a[j] := t;
  }

  // ----- insertion sort -----------------------------------------------------------------

  /** s with the element in hand, t, back in the hole at j. */
  ghost function Plug(s: seq<Edge>, j: nat, t: Edge): seq<Edge>
    requires j < |s|
  {
    s[j := t]
  }

  lemma ShiftPermutes(s: seq<Edge>, j: nat, t: Edge)
    requires 0 < j < |s|
    ensures Permutation(Plug(s[j := s[j - 1]], j - 1, t), Plug(s, j, t))
  {
    var u := Plug(s, j, t);
    assert Plug(s[j := s[j - 1]], j - 1, t) == Swapped(u, j - 1, j);
    SwappedPermutes(u, j - 1, j);
  }

  /** The inner loop: shift larger elements up until t's place is free. */
  method ShiftUp(a: array<Edge>, i: nat, t: Edge) returns (j: nat)
    requires i < a.Length && a[i] == t
    modifies a
    ensures j <= i && Permutation(Plug(a[..], j, t), old(a[..])) && SameOutside(a[..], old(a[..]), 0, i + 1)
    ensures forall k :: 0 <= k < j ==> a[k] == old(a[..])[k]
    ensures forall k :: j < k <= i ==> a[k] == old(a[..])[k - 1] && Less(t, a[k])
    ensures j > 0 ==> !Less(t, a[j - 1])
    ensures j == i ==> a[..] == old(a[..])
  {
    hide Permutation, Plug;
    j := i;
    ghost var s0 := a[..];
    PlugSelf(s0, i);
    while j > 0 && Less(t, a[j - 1])
      invariant 0 <= j <= i && (j == i ==> a[..] == s0)
      invariant Permutation(Plug(a[..], j, t), s0) && SameOutside(a[..], s0, 0, i + 1)
      invariant forall k :: 0 <= k < j ==> a[k] == s0[k]
      invariant forall k :: j < k <= i ==> a[k] == s0[k - 1] && Less(t, a[k])
    {
      ShiftPermutes(a[..], j, t);
      ghost var s := a[..];
      a[j] := a[j - 1];
      assert a[..] == s[j := s[j - 1]];
      PermutationTrans(Plug(a[..], j - 1, t), Plug(s, j, t), s0);
      j := j - 1;
    }
  }

  lemma PlugSelf(s: seq<Edge>, i: nat)
    requires i < |s|
    ensures Permutation(Plug(s, i, s[i]), s)
  {
    assert Plug(s, i, s[i]) == s;
  }

  lemma PermutationTrans(s: seq<Edge>, t: seq<Edge>, u: seq<Edge>)
    requires Permutation(s, t) && Permutation(t, u)
    ensures Permutation(s, u)
  {
  }

  /** One round of the outer loop: a[i] joins the sorted prefix. */
  method Insert(a: array<Edge>, i: nat)
    requires 0 < i < a.Length && Sorted(a[..i])
    modifies a
    ensures Sorted(a[..i + 1]) && Rearranged(a[..], old(a[..]), 0, i + 1)
  {
    var t := a[i];
    ghost var s0 := a[..];
    assert forall k :: 0 <= k < i ==> s0[..i][k] == s0[k];
    hide Permutation;
    var j := ShiftUp(a, i, t);
    ghost var s := a[..];
    if i != j {
      a[j] := t;
    }
    assert a[..] == Plug(s, j, t);
    Placed(s0, a[..], i, j, t);
  }

  lemma Placed(s: seq<Edge>, r: seq<Edge>, i: nat, j: nat, t: Edge)
    requires |r| == |s| && j <= i < |s| && r[j] == t
    requires forall k, m :: 0 <= k < m < i ==> !Less(s[m], s[k])
    requires forall k :: 0 <= k < j ==> r[k] == s[k]
    requires forall k :: j < k <= i ==> r[k] == s[k - 1] && Less(t, r[k])
    requires j > 0 ==> !Less(t, s[j - 1])
    ensures Sorted(r[..i + 1])
  {
    forall k, m | 0 <= k < m <= i ensures !Less(r[m], r[k]) {
      if m == j && k < j - 1 {
        assert !Less(s[j - 1], s[k]);
      }
    }
  }

  lemma OneIsSorted(s: seq<Edge>)
    ensures Sorted(s[..0]) && (|s| > 0 ==> Sorted(s[..1]))
  {
  }

  method InsertionSort(a: array<Edge>, n: nat)
    requires n <= a.Length
    modifies a
    ensures Sorted(a[..n]) && Rearranged(a[..], old(a[..]), 0, n)
  {
    hide Rearranged, Sorted;
    Trivial(a[..], 0, n);
    OneIsSorted(a[..]);
    var i := 1;
    while i < n
      invariant 1 <= i && (i <= n || n == 0)
      invariant i <= a.Length ==> Sorted(a[..i])
      invariant Rearranged(a[..], old(a[..]), 0, n)
    {
      ghost var s := a[..];
      Insert(a, i);
      Compose(a[..], s, old(a[..]), 0, i + 1, 0, n);
      i := i + 1;
    }
    OneIsSorted(a[..]);
    assert a[..][..0] == a[..0];
  }

  // ----- quicksort ------------------------------------------------------------------------

  /** The median of the three moved to the middle. */
  function MedianInMiddle(s: seq<Edge>, first: nat, mid: nat, last: nat): (r: seq<Edge>)
    requires first < mid < last < |s|
    ensures |r| == |s|
  {
    var c01, c12 := Less(s[first], s[mid]), Less(s[mid], s[last]);
    if c01 == c12 then s
    else if Less(s[first], s[last]) == c12 then Swapped(s, first, mid)
    else Swapped(s, last, mid)
  }

  /** Once the median is at the front, one of the other two is not smaller: that
      is what stops the first upward scan. */
  lemma MedianStops(s: seq<Edge>, first: nat, mid: nat, last: nat)
    requires first < mid < last < |s|
    ensures var t := Swapped(MedianInMiddle(s, first, mid, last), first, mid);
            !Less(t[mid], t[first]) || !Less(t[last], t[first])
  {
  }

  lemma MedianInside(s: seq<Edge>, first: nat, mid: nat, last: nat)
    requires first < mid < last < |s|
    ensures var t := Swapped(MedianInMiddle(s, first, mid, last), first, mid);
            Rearranged(t, s, first, last + 1)
  {
    hide Rearranged, Swapped;
    var s1 := MedianInMiddle(s, first, mid, last);
    Trivial(s, first, last + 1);
    SwapInside(s, first, mid, first, last + 1);
    SwapInside(s, last, mid, first, last + 1);
    SwapInside(s1, first, mid, first, last + 1);
    Compose(Swapped(s1, first, mid), s1, s, first, last + 1, first, last + 1);
  }

  method MedianToFront(a: array<Edge>, lo: nat, n: nat)
    requires n > THRESHOLD && lo + n <= a.Length
    modifies a
    ensures a[..] == Swapped(MedianInMiddle(old(a[..]), lo, lo + n / 2, lo + n - 1), lo, lo + n / 2)
  {
    hide Swapped, Permutation;
    var m := n / 2;
    var c01 := Less(a[lo], a[lo + m]);
    var c12 := Less(a[lo + m], a[lo + n - 1]);
    if c01 != c12 {
      var c := Less(a[lo], a[lo + n - 1]);
      var z := if c == c12 then 0 else n - 1;
      Swap(a, lo + z, lo + m);
    }
    Swap(a, lo, lo + m);
  }

  lemma SwapInside(s: seq<Edge>, i: nat, j: nat, lo: nat, hi: nat)
    requires lo <= i < hi <= |s| && lo <= j < hi
    ensures Rearranged(Swapped(s, i, j), s, lo, hi)
  {
    SwappedPermutes(s, i, j);
  }

  /** The partition loop with its two unguarded scans. */
  method Partition(a: array<Edge>, lo: nat, n: nat) returns (i: nat, j: nat)
    requires n > THRESHOLD && lo + n <= a.Length
    requires !Less(a[lo + n / 2], a[lo]) || !Less(a[lo + n - 1], a[lo])
    modifies a
    ensures Rearranged(a[..], old(a[..]), lo, lo + n)
    ensures 1 <= i <= n && j < n && j <= i
    ensures forall k :: lo <= k < lo + i ==> !Less(a[lo], a[k])
    ensures forall k :: lo + j < k < lo + n ==> !Less(a[k], a[lo])
  {
    i, j := 1, n - 1;
    ghost var stop := if !Less(a[lo + n / 2], a[lo]) then n / 2 else n - 1;
    while true
      invariant 1 <= i <= n && j < n && i <= j + 1
      invariant i <= stop < n && !Less(a[lo + stop], a[lo])
      invariant Permutation(a[..], old(a[..])) && SameOutside(a[..], old(a[..]), lo, lo + n)
      invariant a[lo] == old(a[lo])
      invariant forall k :: lo <= k < lo + i ==> !Less(a[lo], a[k])
      invariant forall k :: lo + j < k < lo + n ==> !Less(a[k], a[lo])
      decreases n - i
    {
      while Less(a[lo + i], a[lo])
        invariant 1 <= i <= stop
        invariant forall k :: lo <= k < lo + i ==> !Less(a[lo], a[k])
        decreases stop - i
      {
        i := i + 1;
      }
      while Less(a[lo], a[lo + j])
        invariant 0 <= j < n
        invariant forall k :: lo + j < k < lo + n ==> !Less(a[k], a[lo])
        decreases j
      {
        j := j - 1;
      }
      if i >= j {
        break;
      }
      Swap(a, lo + i, lo + j);
      stop := j;
      i := i + 1;
      j := j - 1;
    }
  }

  method ChoosePivot(a: array<Edge>, lo: nat, n: nat)
    requires n > THRESHOLD && lo + n <= a.Length
    modifies a
    ensures Rearranged(a[..], old(a[..]), lo, lo + n)
    ensures !Less(a[lo + n / 2], a[lo]) || !Less(a[lo + n - 1], a[lo])
  {
    hide Rearranged, Swapped, MedianInMiddle;
    MedianStops(a[..], lo, lo + n / 2, lo + n - 1);
    MedianInside(a[..], lo, lo + n / 2, lo + n - 1);
    MedianToFront(a, lo, n);
    assert a[lo] == a[..][lo] && a[lo + n / 2] == a[..][lo + n / 2] && a[lo + n - 1] == a[..][lo + n - 1];
  }

  /** Quicksort down to runs of 12.  Recursing on the smaller side only, it nests
      no deeper than the d with n < 2^d. */
  method QuickSort(a: array<Edge>, lo0: nat, n0: nat, ghost d: nat)
    requires lo0 + n0 <= a.Length && n0 < Pow2(d)
    modifies a
    ensures Rearranged(a[..], old(a[..]), lo0, lo0 + n0)
    decreases d
  {
    hide Rearranged, Less;
    var lo, n := lo0, n0;
    Trivial(a[..], lo0, lo0 + n0);
    while n > THRESHOLD
      invariant lo0 <= lo && lo + n <= lo0 + n0 && n < Pow2(d)
      invariant Rearranged(a[..], old(a[..]), lo0, lo0 + n0)
      decreases n
    {
      ghost var s0 := a[..];
      ChoosePivot(a, lo, n);
      ghost var s1 := a[..];
      Compose(s1, s0, old(a[..]), lo, lo + n, lo0, lo0 + n0);
      var i, j := Partition(a, lo, n);
      ghost var s2 := a[..];
      Compose(s2, s1, old(a[..]), lo, lo + n, lo0, lo0 + n0);
      if j < n - i {
        QuickSort(a, lo, j, d - 1);
        Compose(a[..], s2, old(a[..]), lo, lo + j, lo0, lo0 + n0);
        lo := lo + i;
        n := n - i;
      } else {
        QuickSort(a, lo + i, n - i, d - 1);
        Compose(a[..], s2, old(a[..]), lo + i, lo + n, lo0, lo0 + n0);
        n := j;
      }
    }
  }

  lemma {:induction false} Pow2Above(n: nat) returns (d: nat)
    ensures n < Pow2(d)
  {
    if n == 0 {
      d := 0;
    } else {
      d := Pow2Above(n / 2);
      d := d + 1;
    }
  }

  /** stbtt__sort_edges: the first n edges come out sorted by y0, rearranged and
      not changed, and nothing behind them is touched. */
  method SortEdges(a: array<Edge>, n: nat)
    requires n <= a.Length
    modifies a
    ensures forall i, j :: 0 <= i < j < n ==> a[i].y0 <= a[j].y0
    ensures multiset(a[..n]) == multiset(old(a[..n])) && a[n..] == old(a[n..])
  {
    ghost var d := Pow2Above(n);
    ghost var s := a[..];
    QuickSort(a, 0, n, d);
    ghost var s1 := a[..];
    InsertionSort(a, n);
    Compose(a[..], s1, s, 0, n, 0, n);
    PrefixPermutes(a[..], s, n);
    assert forall i :: 0 <= i < n ==> a[i] == a[..n][i];
  }

  lemma PrefixPermutes(s: seq<Edge>, t: seq<Edge>, n: nat)
    requires n <= |s| && Rearranged(s, t, 0, n)
    ensures multiset(s[..n]) == multiset(t[..n]) && s[n..] == t[n..]
  {
    assert s == s[..n] + s[n..] && t == t[..n] + t[n..];
    assert s[n..] == t[n..];
    assert multiset(s) == multiset(s[..n]) + multiset(s[n..]);
    assert multiset(t) == multiset(t[..n]) + multiset(t[n..]);
    calc {
      multiset(s[..n]);
      multiset(s) - multiset(s[n..]);
      multiset(t) - multiset(t[n..]);
      multiset(t[..n]);
    }
  }
}
