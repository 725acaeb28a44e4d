/** Generic facts about sequences: order-preserving selection (the
    `Array.prototype.filter` idiom of the source), sorting and maxima. */
module Seqs {

  /** `a` is obtained from `b` by deleting zero or more elements, so the
      elements of `a` occur in `b` in the same order. */
  predicate IsSubseq<T(==)>(a: seq<T>, b: seq<T>)
    decreases |b|
  {
    if |a| == 0 then true
    else if |b| == 0 then false
    else (a[0] == b[0] && IsSubseq(a[1..], b[1..])) || IsSubseq(a, b[1..])
  }

  /** Keeps, in their original order, the elements that satisfy `p`. */
  function Filter<T(==)>(p: T -> bool, s: seq<T>): (r: seq<T>)
    ensures |r| <= |s|
    ensures forall i :: 0 <= i < |r| ==> r[i] in s && p(r[i])
    ensures forall i :: 0 <= i < |s| && p(s[i]) ==> s[i] in r
    ensures IsSubseq(r, s)
  {
    if |s| == 0 then []
    else if p(s[0]) then [s[0]] + Filter(p, s[1..])
    else Filter(p, s[1..])
  }

  /** The filter keeps every copy of an element that meets the predicate
      and no copy of one that does not. */
  lemma {:induction false} FilterCuenta<T>(p: T -> bool, s: seq<T>, x: T)
    ensures multiset(Filter(p, s))[x] == if p(x) then multiset(s)[x] else 0
    decreases |s|
  {
    if |s| > 0 {
      FilterCuenta(p, s[1..], x);
      assert s == [s[0]] + s[1..];
      assert multiset(s) == multiset{s[0]} + multiset(s[1..]);
      if p(s[0]) {
        assert Filter(p, s) == [s[0]] + Filter(p, s[1..]);
        assert multiset(Filter(p, s)) == multiset{s[0]} + multiset(Filter(p, s[1..]));
      } else {
        assert Filter(p, s) == Filter(p, s[1..]);
      }
    }
  }

  lemma {:induction false} FilterAppend<T>(p: T -> bool, a: seq<T>, b: seq<T>)
    ensures Filter(p, a + b) == Filter(p, a) + Filter(p, b)
    decreases |a|
  {
    if |a| == 0 {
      assert a + b == b;
    } else {
      assert (a + b)[1..] == a[1..] + b;
      FilterAppend(p, a[1..], b);
    }
  }

  /** Filtering with a predicate every element meets changes nothing. */
  lemma {:induction false} FilterKeepsAll<T>(p: T -> bool, s: seq<T>)
    requires forall i :: 0 <= i < |s| ==> p(s[i])
    ensures Filter(p, s) == s
    decreases |s|
  {
    if |s| > 0 {
      FilterKeepsAll(p, s[1..]);
    }
  }

  /** How many elements a filter keeps depends only on the multiset of the
      input, not on its order. */
  lemma FilterLengthOfPermutation<T>(p: T -> bool, a: seq<T>, b: seq<T>)
    requires multiset(a) == multiset(b)
    ensures |Filter(p, a)| == |Filter(p, b)|
  {
    forall x
      ensures multiset(Filter(p, a))[x] == multiset(Filter(p, b))[x]
    {
      FilterCuenta(p, a, x);
      FilterCuenta(p, b, x);
    }
    assert multiset(Filter(p, a)) == multiset(Filter(p, b));
  }

  /** The elements of the prefix `s[..k]` that meet `p` are kept, so the
      filter keeps at least `k` elements when that whole prefix meets `p`. */
  lemma FilterKeepsPrefix<T>(p: T -> bool, s: seq<T>, k: nat)
    requires k <= |s|
    requires forall i :: 0 <= i < k ==> p(s[i])
    ensures |Filter(p, s)| >= k
  {
    assert s == s[..k] + s[k..];
    FilterAppend(p, s[..k], s[k..]);
    FilterKeepsAll(p, s[..k]);
  }

  /** When no element from index `k` on meets the predicate, the filter
      keeps at most `k` elements. */
  lemma FilterKeepsAtMostPrefix<T>(p: T -> bool, s: seq<T>, k: nat)
    requires k <= |s|
    requires forall i :: k <= i < |s| ==> !p(s[i])
    ensures |Filter(p, s)| <= k
  {
    assert s == s[..k] + s[k..];
    FilterAppend(p, s[..k], s[k..]);
    FilterKeepsNone(p, s[k..]);
  }

  /** Filtering with a predicate no element meets keeps nothing. */
  lemma {:induction false} FilterKeepsNone<T>(p: T -> bool, s: seq<T>)
    requires forall i :: 0 <= i < |s| ==> !p(s[i])
    ensures Filter(p, s) == []
    decreases |s|
  {
    if |s| > 0 {
      FilterKeepsNone(p, s[1..]);
    }
  }

  /** `a` comes no later than `b` in ascending (or descending) order. */
  predicate InOrder(a: real, b: real, descending: bool)
  {
    if descending then a >= b else a <= b
  }

  predicate Sorted(s: seq<real>, descending: bool)
  {
    forall i, j :: 0 <= i < j < |s| ==> InOrder(s[i], s[j], descending)
  }

  /** Puts `x` before the first element it may precede. */
  function Insert(x: real, s: seq<real>, descending: bool): (r: seq<real>)
    ensures |r| == |s| + 1
  {
    if |s| == 0 || InOrder(x, s[0], descending) then [x] + s
    else [s[0]] + Insert(x, s[1..], descending)
  }

  lemma {:induction false} InsertMultiset(x: real, s: seq<real>, descending: bool)
    ensures multiset(Insert(x, s, descending)) == multiset(s) + multiset{x}
  {
    if |s| > 0 && !InOrder(x, s[0], descending) {
      InsertMultiset(x, s[1..], descending);
      assert s == [s[0]] + s[1..];
    }
  }

  /** Inserting into a sorted sequence keeps it sorted. */
  lemma {:induction false} InsertSorted(x: real, s: seq<real>, descending: bool)
    requires Sorted(s, descending)
    ensures Sorted(Insert(x, s, descending), descending)
  {
    if |s| > 0 && InOrder(x, s[0], descending) {
      PrependSorted(x, s, descending);
    } else if |s| > 0 {
      var t := Insert(x, s[1..], descending);
      InsertSorted(x, s[1..], descending);
      InsertMultiset(x, s[1..], descending);
      forall k | 0 <= k < |t|
        ensures InOrder(s[0], t[k], descending)
      {
        assert t[k] in multiset(s[1..]) + multiset{x};
        if t[k] != x {
          var m :| 0 <= m < |s[1..]| && s[1..][m] == t[k];
          assert s[m + 1] == t[k];
        }
      }
      PrependSorted(s[0], t, descending);
    }
  }

  /** A sorted sequence stays sorted under a head that may precede all of
      it. */
  lemma PrependSorted(x: real, s: seq<real>, descending: bool)
    requires Sorted(s, descending)
    requires (|s| > 0 && InOrder(x, s[0], descending)) || forall k :: 0 <= k < |s| ==> InOrder(x, s[k], descending)
    ensures Sorted([x] + s, descending)
  {
    var r := [x] + s;
    forall i, j | 0 <= i < j < |r|
      ensures InOrder(r[i], r[j], descending)
    {
      if i > 0 {
        assert r[i] == s[i - 1] && r[j] == s[j - 1];
      } else {
        assert r[j] == s[j - 1];
        assert j == 1 || InOrder(s[0], s[j - 1], descending);
      }
    }
  }

  /** Insertion sort: the numeric `sort((a, b) => a - b)` (ascending) or
      `sort((a, b) => b - a)` (descending) of the source. */
  function Sort(s: seq<real>, descending: bool): (r: seq<real>)
    ensures Sorted(r, descending)
    ensures multiset(r) == multiset(s)
    ensures |r| == |s|
  {
    if |s| == 0 then []
    else
      var t := Sort(s[1..], descending);
      InsertStep(s, t, descending);
      Insert(s[0], t, descending)
  }

  /** Inserting the head into the sorted tail sorts the whole sequence. */
  lemma InsertStep(s: seq<real>, t: seq<real>, descending: bool)
    requires |s| > 0 && Sorted(t, descending) && multiset(t) == multiset(s[1..])
    ensures Sorted(Insert(s[0], t, descending), descending)
    ensures multiset(Insert(s[0], t, descending)) == multiset(s)
  {
    InsertSorted(s[0], t, descending);
    InsertMultiset(s[0], t, descending);
    assert s == [s[0]] + s[1..];
    assert multiset(s) == multiset{s[0]} + multiset(s[1..]);
  }

  /** The running maximum `m = Math.max(m, x)` over `s`, started at `init`. */
  function MaxFrom(init: real, s: seq<real>): (m: real)
    ensures init <= m
    ensures forall i :: 0 <= i < |s| ==> s[i] <= m
    ensures m == init || m in s
    decreases |s|
  {
    if |s| == 0 then init
    else
      var m := MaxFrom(if s[0] > init then s[0] else init, s[1..]);
      assert s == [s[0]] + s[1..];
      m
  }

  function MinInt(s: seq<int>): (m: int)
    requires |s| > 0
    ensures m in s
    ensures forall i :: 0 <= i < |s| ==> m <= s[i]
  {
    if |s| == 1 then s[0]
    else
      var t := MinInt(s[1..]);
      if s[0] <= t then s[0] else t
  }

  function MaxInt(s: seq<int>): (m: int)
    requires |s| > 0
    ensures m in s
    ensures forall i :: 0 <= i < |s| ==> s[i] <= m
  {
    if |s| == 1 then s[0]
    else
      var t := MaxInt(s[1..]);
      if s[0] >= t then s[0] else t
  }
}
