/** `Array.prototype.filter`, used by every core file. */
module JsArray {

  /** The elements of `s` that satisfy `p`, in their original order. */
  function Filter<T>(p: T -> bool, s: seq<T>): (r: seq<T>)
    ensures |r| <= |s|
    ensures forall i :: 0 <= i < |r| ==> p(r[i])
    ensures forall i :: 0 <= i < |r| ==> r[i] in s
    ensures forall i :: 0 <= i < |s| && p(s[i]) ==> s[i] in r
  {
    if s == [] then []
    else if p(s[0]) then [s[0]] + Filter(p, s[1..])
    else Filter(p, s[1..])
  }

  /** Filtering distributes over concatenation: the kept elements keep their relative order. */
  lemma {:induction false} FilterConcat<T>(p: T -> bool, a: seq<T>, b: seq<T>)
    ensures Filter(p, a + b) == Filter(p, a) + Filter(p, b)
  {
    if a == [] {
      assert a + b == b;
    } else {
      assert (a + b)[0] == a[0];
      assert (a + b)[1..] == a[1..] + b;
      FilterConcat(p, a[1..], b);
    }
  }

  /** A sequence all of whose elements pass is kept whole; one none of whose elements pass is emptied. */
  lemma {:induction false} FilterAllOrNone<T>(p: T -> bool, s: seq<T>)
    ensures (forall i :: 0 <= i < |s| ==> p(s[i])) ==> Filter(p, s) == s
    ensures (forall i :: 0 <= i < |s| ==> !p(s[i])) ==> Filter(p, s) == []
  {
    if s != [] {
      FilterAllOrNone(p, s[1..]);
    }
  }

  /** The first element kept is the first element of `s` that passes. */
  lemma {:induction false} FilterHead<T>(p: T -> bool, s: seq<T>, k: nat)
    requires k < |s| && p(s[k])
    requires forall j :: 0 <= j < k ==> !p(s[j])
    ensures Filter(p, s) != [] && Filter(p, s)[0] == s[k]
  {
    if k > 0 {
      FilterHead(p, s[1..], k - 1);
    }
  }

  /** The head of a non-empty filtered sequence is the first element that satisfies `p`. */
  lemma {:induction false} FilterFirst<T>(p: T -> bool, s: seq<T>)
    requires Filter(p, s) != []
    ensures exists k ::
              0 <= k < |s| && p(s[k]) && (forall j :: 0 <= j < k ==> !p(s[j])) && Filter(p, s)[0] == s[k]
  {
    if p(s[0]) {
      FilterHead(p, s, 0);
    } else {
      var t := s[1..];
      assert Filter(p, s) == Filter(p, t);
      FilterFirst(p, t);
      var k :| 0 <= k < |t| && p(t[k]) && (forall j :: 0 <= j < k ==> !p(t[j])) && Filter(p, t)[0] == t[k];
      forall j | 0 <= j < k + 1 ensures !p(s[j]) {
        if j > 0 {
          assert s[j] == t[j - 1];
        }
      }
      assert s[k + 1] == t[k];
    }
  }
}
