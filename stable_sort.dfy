/**
  Stable insertion sort by a strict weak ordering `lt` ("sorts strictly before"), the order
  `Array.prototype.sort` leaves an array in (ECMA-262 requires the sort to be stable), and the
  element that ends up first.
  */
module StableSort {

  /** `lt` is asymmetric and "not before" is transitive, as a comparator's strict order is. */
  ghost predicate StrictWeakOrder<T(!new)>(lt: (T, T) -> bool) {
    && (forall x, y :: lt(x, y) ==> !lt(y, x))
    && (forall x, y, z :: lt(x, z) ==> lt(x, y) || lt(y, z))
  }

  /**
    Where a stable insertion puts `x` into `s`: after the last element that `x` does not sort
    before, scanning from the right as an insertion sort's inner loop does.
    */
  function InsertionPoint<T>(s: seq<T>, x: T, lt: (T, T) -> bool): (p: nat)
    ensures p <= |s|
    ensures forall k :: p <= k < |s| ==> lt(x, s[k])
    ensures p == 0 || !lt(x, s[p - 1])
  {
    if s == [] || !lt(x, s[|s| - 1]) then |s|
    else InsertionPoint(s[..|s| - 1], x, lt)
  }

  function Insert<T>(s: seq<T>, x: T, lt: (T, T) -> bool): (r: seq<T>)
    ensures |r| == |s| + 1
  {
    var p := InsertionPoint(s, x, lt);
    s[..p] + [x] + s[p..]
  }

  /** The stable sort of `s`: each element inserted in turn into the sorted prefix before it. */
  function Sort<T>(s: seq<T>, lt: (T, T) -> bool): (r: seq<T>)
    ensures |r| == |s|
  {
    if s == [] then [] else Insert(Sort(s[..|s| - 1], lt), s[|s| - 1], lt)
  }

  /** No element sorts strictly before an element ahead of it. */
  ghost predicate SortedBy<T>(s: seq<T>, lt: (T, T) -> bool) {
    forall i, j :: 0 <= i < j < |s| ==> !lt(s[j], s[i])
  }

  lemma InsertPermutes<T>(s: seq<T>, x: T, lt: (T, T) -> bool)
    ensures multiset(Insert(s, x, lt)) == multiset(s) + multiset{x}
  {
    var p := InsertionPoint(s, x, lt);
    assert s == s[..p] + s[p..];
  }

  /** The sort rearranges its input and nothing more. */
  lemma {:induction false} SortPermutes<T>(s: seq<T>, lt: (T, T) -> bool)
    ensures multiset(Sort(s, lt)) == multiset(s)
  {
    if s != [] {
      var init, x := s[..|s| - 1], s[|s| - 1];
      SortPermutes(init, lt);
      InsertPermutes(Sort(init, lt), x, lt);
      assert s == init + [x];
    }
  }

  lemma InsertSorted<T(!new)>(s: seq<T>, x: T, lt: (T, T) -> bool)
    requires StrictWeakOrder(lt)
    requires SortedBy(s, lt)
    ensures SortedBy(Insert(s, x, lt), lt)
  {
    var p := InsertionPoint(s, x, lt);
    var r := Insert(s, x, lt);
    forall i, j | 0 <= i < j < |r| ensures !lt(r[j], r[i]) {
      if j < p {
        assert r[i] == s[i] && r[j] == s[j];
      } else if j == p {
        assert r[i] == s[i] && r[j] == x;
        assert !lt(s[p - 1], s[i]);
      } else if i < p {
        assert r[i] == s[i] && r[j] == s[j - 1];
      } else if i == p {
        assert r[i] == x && r[j] == s[j - 1];
      } else {
        assert r[i] == s[i - 1] && r[j] == s[j - 1];
      }
    }
  }

  /** The sort leaves its output ordered. */
  lemma {:induction false} SortSorted<T(!new)>(s: seq<T>, lt: (T, T) -> bool)
    requires StrictWeakOrder(lt)
    ensures SortedBy(Sort(s, lt), lt)
  {
    if s != [] {
      SortSorted(s[..|s| - 1], lt);
      InsertSorted(Sort(s[..|s| - 1], lt), s[|s| - 1], lt);
    }
  }

  // ------------------------------------------------------------------ the head

  /**
    Index `k` holds the element a stable sort puts first: nothing sorts strictly before it, and
    it sorts strictly before every element ahead of it, so among equals it is the first.
    */
  ghost predicate IsFirst<T>(s: seq<T>, k: int, lt: (T, T) -> bool) {
    && 0 <= k < |s|
    && (forall j :: 0 <= j < |s| ==> !lt(s[j], s[k]))
    && (forall j :: 0 <= j < k ==> lt(s[k], s[j]))
  }

  ghost predicate BeforeAll<T>(x: T, s: seq<T>, lt: (T, T) -> bool) {
    forall k :: 0 <= k < |s| ==> lt(x, s[k])
  }

  /** The index of the first element: the last one if it sorts before all the others, else the first among those. */
  ghost function FirstIndex<T(!new)>(s: seq<T>, lt: (T, T) -> bool): (k: nat)
    requires StrictWeakOrder(lt)
    requires s != []
    ensures IsFirst(s, k, lt)
  {
    var n := |s|;
    if n == 1 then 0
    else if BeforeAll(s[n - 1], s[..n - 1], lt) then
      FirstLast(s, lt);
      n - 1
    else
      var k := FirstIndex(s[..n - 1], lt);
      FirstKept(s, k, lt);
      k
  }

  lemma FirstLast<T(!new)>(s: seq<T>, lt: (T, T) -> bool)
    requires StrictWeakOrder(lt)
    requires |s| >= 2 && BeforeAll(s[|s| - 1], s[..|s| - 1], lt)
    ensures IsFirst(s, |s| - 1, lt)
  {
    var n := |s|;
    forall j | 0 <= j < n - 1 ensures lt(s[n - 1], s[j]) {
      assert s[j] == s[..n - 1][j];
    }
  }

  lemma FirstKept<T(!new)>(s: seq<T>, k: nat, lt: (T, T) -> bool)
    requires StrictWeakOrder(lt)
    requires |s| >= 2 && !BeforeAll(s[|s| - 1], s[..|s| - 1], lt)
    requires IsFirst(s[..|s| - 1], k, lt)
    ensures IsFirst(s, k, lt)
  {
    var n := |s|;
    var init, x := s[..n - 1], s[n - 1];
    var j0 :| 0 <= j0 < n - 1 && !lt(x, init[j0]);
    assert !lt(init[j0], init[k]);
    forall j | 0 <= j < n ensures !lt(s[j], s[k]) {
      if j < n - 1 {
        assert s[j] == init[j];
      }
    }
    forall j | 0 <= j < k ensures lt(s[k], s[j]) {
      assert s[j] == init[j];
    }
  }

  /** At most one index is first, so the element a stable sort puts first is determined. */
  lemma FirstUnique<T>(s: seq<T>, k1: int, k2: int, lt: (T, T) -> bool)
    requires IsFirst(s, k1, lt) && IsFirst(s, k2, lt)
    ensures k1 == k2
  {
    assert !lt(s[k2], s[k1]) && !lt(s[k1], s[k2]);
  }

  /** Of two elements where only the second sorts before the first, the second is first. */
  lemma SecondOfPair<T>(a: T, b: T, lt: (T, T) -> bool)
    requires lt(b, a) && !lt(a, b) && !lt(b, b)
    ensures IsFirst([a, b], 1, lt)
    ensures forall k :: IsFirst([a, b], k, lt) ==> k == 1
  {
    forall k | IsFirst([a, b], k, lt) ensures k == 1 {
      FirstUnique([a, b], k, 1, lt);
    }
  }

  lemma BeforeAllPermuted<T>(x: T, s: seq<T>, t: seq<T>, lt: (T, T) -> bool)
    requires multiset(s) == multiset(t)
    ensures BeforeAll(x, s, lt) <==> BeforeAll(x, t, lt)
  {
    if BeforeAll(x, s, lt) {
      forall k | 0 <= k < |t| ensures lt(x, t[k]) {
        assert t[k] in multiset(s);
        var j :| 0 <= j < |s| && s[j] == t[k];
      }
    }
    if BeforeAll(x, t, lt) {
      forall k | 0 <= k < |s| ensures lt(x, s[k]) {
        assert s[k] in multiset(t);
        var j :| 0 <= j < |t| && t[j] == s[k];
      }
    }
  }

  /** The head of the sorted sequence is the first element of the input; stability decides ties. */
  lemma {:induction false} SortHead<T(!new)>(s: seq<T>, lt: (T, T) -> bool)
    requires StrictWeakOrder(lt)
    requires s != []
    ensures Sort(s, lt)[0] == s[FirstIndex(s, lt)]
  {
    var n := |s|;
    var init, x := s[..n - 1], s[n - 1];
    if n > 1 {
      var t := Sort(init, lt);
      SortPermutes(init, lt);
      BeforeAllPermuted(x, t, init, lt);
      var p := InsertionPoint(t, x, lt);
      if p > 0 {
        SortHead(init, lt);
        assert Insert(t, x, lt)[0] == t[0];
      }
    }
  }
  // ------------------------------------------------------------------ in place

  /** Sorts `a` in place, stably: insertion sort, moving each element left past those it sorts before. */
  method SortInPlace<T>(a: array<T>, lt: (T, T) -> bool)
    modifies a
    ensures a[..] == Sort(old(a[..]), lt)
  {
    ghost var input := a[..];
    var i := 0;
    while i < a.Length
      invariant 0 <= i <= a.Length
      invariant a[..i] == Sort(input[..i], lt)
      invariant a[i..] == input[i..]
    {
      ghost var prefix := input[..i + 1];
      assert prefix[..i] == input[..i] && prefix[i] == a[i];
      InsertNext(a, i, lt);
      assert a[..i + 1] == Sort(prefix, lt);
      i := i + 1;
    }
    assert input[..a.Length] == input;
  }

  /** One pass of the outer loop: shift right the elements `a[i]` sorts before, then drop it in the gap. */
  method InsertNext<T>(a: array<T>, i: nat, lt: (T, T) -> bool)
    requires i < a.Length
    modifies a
    ensures a[..i + 1] == Insert(old(a[..i]), old(a[i]), lt)
    ensures a[i + 1..] == old(a[i + 1..])
  {
    ghost var sorted := a[..i];
    ghost var p := InsertionPoint(sorted, a[i], lt);
    var x := a[i];
    var j := i;
    while j > 0 && lt(x, a[j - 1])
      invariant p <= j <= i
      invariant forall k :: 0 <= k < j ==> a[k] == sorted[k]
      invariant forall k :: j < k <= i ==> a[k] == sorted[k - 1]
      invariant forall k :: i < k < a.Length ==> a[k] == old(a[k])
    {
      assert a[j - 1] == sorted[j - 1];
      a[j] := a[j - 1];
      j := j - 1;
    }
    assert j == p;
    a[j] := x;
    Assemble(a[..], sorted, x, j);
    assert a[..i + 1] == Insert(sorted, x, lt);
  }

  /** The array after the inner loop, read as a sequence: the sorted prefix with `x` at `j`. */
  lemma Assemble<T>(cur: seq<T>, sorted: seq<T>, x: T, j: nat)
    requires j <= |sorted| < |cur|
    requires forall k :: 0 <= k < j ==> cur[k] == sorted[k]
    requires cur[j] == x
    requires forall k :: j < k <= |sorted| ==> cur[k] == sorted[k - 1]
    ensures cur[..|sorted| + 1] == sorted[..j] + [x] + sorted[j..]
  {
  }
}
