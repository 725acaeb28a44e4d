/** Grouping by key in first-occurrence order: the `Map<string, …>` buckets
    the source fills with `forEach` (a JavaScript `Map` iterates in insertion
    order, so a sequence of buckets with distinct keys is its faithful
    image). */
module Grouping {

  datatype Bucket<K, T> = Bucket(key: K, items: seq<T>)

  /** The elements of `s` whose key is `k`, in their order in `s`. */
  function Having<K(==), T>(key: T -> K, k: K, s: seq<T>): (r: seq<T>)
    ensures |r| <= |s|
    ensures forall i :: 0 <= i < |r| ==> r[i] in s && key(r[i]) == k
    ensures forall i :: 0 <= i < |s| && key(s[i]) == k ==> s[i] in r
    decreases |s|
  {
    if |s| == 0 then []
    else
      var front := Having(key, k, s[..|s| - 1]);
      if key(s[|s| - 1]) == k then front + [s[|s| - 1]] else front
  }

  /** Index of the first element of `s` whose key is `k`, or `|s|` when
      there is none. */
  function FirstWithKey<K(==), T>(key: T -> K, k: K, s: seq<T>): (i: nat)
    ensures i <= |s|
    ensures i < |s| ==> key(s[i]) == k
    ensures forall j :: 0 <= j < i ==> key(s[j]) != k
  {
    FirstWithKeyFrom(key, k, s, 0)
  }

  /** Index of the first element of `s` at or after `from` whose key is
      `k`, or `|s|` when there is none. */
  function FirstWithKeyFrom<K(==), T>(key: T -> K, k: K, s: seq<T>, from: nat): (i: nat)
    requires from <= |s|
    ensures from <= i <= |s|
    ensures i < |s| ==> key(s[i]) == k
    ensures forall j :: from <= j < i ==> key(s[j]) != k
    decreases |s| - from
  {
    if from == |s| then |s|
    else if key(s[from]) == k then from
    else FirstWithKeyFrom(key, k, s, from + 1)
  }

  predicate DistinctKeys<K(==), T>(gs: seq<Bucket<K, T>>)
  {
    forall i, j :: 0 <= i < j < |gs| ==> gs[i].key != gs[j].key
  }

  /** Position of the bucket with key `k`, or -1 (the `has`/`get` of a
      `Map`). */
  function IndexOfKey<K(==), T>(gs: seq<Bucket<K, T>>, k: K): (i: int)
    ensures -1 <= i < |gs|
    ensures 0 <= i ==> gs[i].key == k
    ensures i < 0 ==> forall j :: 0 <= j < |gs| ==> gs[j].key != k
  {
    if |gs| == 0 then -1
    else if gs[0].key == k then 0
    else
      var j := IndexOfKey(gs[1..], k);
      if j < 0 then -1 else j + 1
  }

  /** Number of elements held by all buckets together. */
  function TotalSize<K, T>(gs: seq<Bucket<K, T>>): nat
    decreases |gs|
  {
    if |gs| == 0 then 0 else TotalSize(gs[..|gs| - 1]) + |gs[|gs| - 1].items|
  }

  lemma {:induction false} TotalSizeUpdate<K, T>(gs: seq<Bucket<K, T>>, i: nat, b: Bucket<K, T>)
    requires i < |gs|
    ensures TotalSize(gs[i := b]) == TotalSize(gs) - |gs[i].items| + |b.items|
    decreases |gs|
  {
    var n := |gs| - 1;
    if i < n {
      assert gs[i := b][..n] == gs[..n][i := b];
      TotalSizeUpdate(gs[..n], i, b);
    } else {
      assert gs[i := b][..n] == gs[..n];
    }
  }

  /** Adds `x` to the bucket of its key, opening a new bucket at the end
      when the key has not been seen yet. */
  function Place<K(==), T>(key: T -> K, gs: seq<Bucket<K, T>>, x: T): seq<Bucket<K, T>>
  {
    var i := IndexOfKey(gs, key(x));
    if 0 <= i then gs[i := Bucket(key(x), gs[i].items + [x])]
    else gs + [Bucket(key(x), [x])]
  }

  /** Each bucket holds exactly the elements of its key, in order. */
  ghost predicate BucketsExact<K, T>(key: T -> K, gs: seq<Bucket<K, T>>, s: seq<T>)
  {
    forall i :: 0 <= i < |gs| ==> gs[i].items == Having(key, gs[i].key, s)
  }

  ghost predicate NoEmptyBucket<K, T>(gs: seq<Bucket<K, T>>)
  {
    forall i :: 0 <= i < |gs| ==> |gs[i].items| > 0
  }

  /** Every element of `s` has a bucket. */
  ghost predicate Covers<K, T>(key: T -> K, gs: seq<Bucket<K, T>>, s: seq<T>)
  {
    forall i :: 0 <= i < |s| ==> 0 <= IndexOfKey(gs, key(s[i]))
  }

  /** `gs` groups `s` by `key`: keys are distinct, each bucket holds exactly
      the elements of its key in order and is non-empty, every element has a
      bucket, and the sizes add up to `|s|`. */
  ghost predicate Groups<K, T>(key: T -> K, gs: seq<Bucket<K, T>>, s: seq<T>)
  {
    && DistinctKeys(gs)
    && BucketsExact(key, gs, s)
    && NoEmptyBucket(gs)
    && Covers(key, gs, s)
    && TotalSize(gs) == |s|
  }

  /** Where each bucket's key first occurs in `s`. */
  ghost function FirstOccurrences<K, T>(key: T -> K, gs: seq<Bucket<K, T>>, s: seq<T>): seq<nat>
  {
    seq(|gs|, i requires 0 <= i < |gs| => FirstWithKey(key, gs[i].key, s))
  }

  ghost predicate Increasing(f: seq<nat>)
  {
    forall i, j :: 0 <= i < j < |f| ==> f[i] < f[j]
  }

  /** Buckets come in the order in which their keys first occur in `s`. */
  ghost predicate FirstOccurrenceOrder<K, T>(key: T -> K, gs: seq<Bucket<K, T>>, s: seq<T>)
  {
    Increasing(FirstOccurrences(key, gs, s))
  }

  /** Appending `x` to the input appends it to the selection of its key
      only. */
  lemma HavingSnoc<K, T>(key: T -> K, k: K, s': seq<T>)
    requires |s'| > 0
    ensures Having(key, k, s') == Having(key, k, s'[..|s'| - 1])
                                  + (if key(s'[|s'| - 1]) == k then [s'[|s'| - 1]] else [])
  {
  }

  /** No element has key `k`: nothing is selected. */
  lemma HavingNone<K, T>(key: T -> K, k: K, s: seq<T>)
    requires forall j :: 0 <= j < |s| ==> key(s[j]) != k
    ensures Having(key, k, s) == []
  {
  }

  lemma ExistingExact<K, T>(key: T -> K, gs: seq<Bucket<K, T>>, s': seq<T>, i: nat)
    requires |s'| > 0 && i < |gs| && gs[i].key == key(s'[|s'| - 1])
    requires DistinctKeys(gs) && BucketsExact(key, gs, s'[..|s'| - 1])
    ensures BucketsExact(key, gs[i := Bucket(key(s'[|s'| - 1]), gs[i].items + [s'[|s'| - 1]])], s')
  {
    var gs' := gs[i := Bucket(key(s'[|s'| - 1]), gs[i].items + [s'[|s'| - 1]])];
    forall j | 0 <= j < |gs'|
      ensures gs'[j].items == Having(key, gs'[j].key, s')
    {
      HavingSnoc(key, gs'[j].key, s');
    }
  }

  lemma ExistingCovers<K, T>(key: T -> K, gs: seq<Bucket<K, T>>, s': seq<T>, i: nat)
    requires |s'| > 0 && i < |gs| && gs[i].key == key(s'[|s'| - 1])
    requires Covers(key, gs, s'[..|s'| - 1])
    ensures Covers(key, gs[i := Bucket(key(s'[|s'| - 1]), gs[i].items + [s'[|s'| - 1]])], s')
  {
    var s := s'[..|s'| - 1];
    var gs' := gs[i := Bucket(key(s'[|s'| - 1]), gs[i].items + [s'[|s'| - 1]])];
    forall j | 0 <= j < |s'|
      ensures 0 <= IndexOfKey(gs', key(s'[j]))
    {
      if j < |s| {
        assert s'[j] == s[j];
        var m := IndexOfKey(gs, key(s[j]));
        assert gs'[m].key == key(s'[j]);
      } else {
        assert gs'[i].key == key(s'[j]);
      }
    }
  }

  lemma PlaceIntoExisting<K, T>(key: T -> K, gs: seq<Bucket<K, T>>, s': seq<T>)
    requires |s'| > 0
    requires Groups(key, gs, s'[..|s'| - 1])
    requires 0 <= IndexOfKey(gs, key(s'[|s'| - 1]))
    ensures Groups(key, Place(key, gs, s'[|s'| - 1]), s')
  {
    var x := s'[|s'| - 1];
    var i := IndexOfKey(gs, key(x));
    var b := Bucket(key(x), gs[i].items + [x]);
    assert Place(key, gs, x) == gs[i := b];
    TotalSizeUpdate(gs, i, b);
    ExistingExact(key, gs, s', i);
    ExistingCovers(key, gs, s', i);
    ExistingShape(gs, i, b);
  }

  /** Replacing a bucket by a non-empty one with the same key keeps the keys
      distinct and the buckets non-empty. */
  lemma ExistingShape<K, T>(gs: seq<Bucket<K, T>>, i: nat, b: Bucket<K, T>)
    requires i < |gs| && b.key == gs[i].key && |b.items| > 0
    requires DistinctKeys(gs) && NoEmptyBucket(gs)
    ensures DistinctKeys(gs[i := b]) && NoEmptyBucket(gs[i := b])
  {
    var gs' := gs[i := b];
    assert forall j :: 0 <= j < |gs| ==> gs'[j].key == gs[j].key;
  }

  lemma NewExact<K, T>(key: T -> K, gs: seq<Bucket<K, T>>, s': seq<T>)
    requires |s'| > 0
    requires BucketsExact(key, gs, s'[..|s'| - 1]) && Covers(key, gs, s'[..|s'| - 1])
    requires IndexOfKey(gs, key(s'[|s'| - 1])) < 0
    ensures BucketsExact(key, gs + [Bucket(key(s'[|s'| - 1]), [s'[|s'| - 1]])], s')
  {
    var s := s'[..|s'| - 1];
    var x := s'[|s'| - 1];
    var gs' := gs + [Bucket(key(x), [x])];
    forall j | 0 <= j < |s|
      ensures key(s[j]) != key(x)
    {
      assert 0 <= IndexOfKey(gs, key(s[j]));
    }
    HavingNone(key, key(x), s);
    forall j | 0 <= j < |gs'|
      ensures gs'[j].items == Having(key, gs'[j].key, s')
    {
      HavingSnoc(key, gs'[j].key, s');
    }
  }

  lemma NewCovers<K, T>(key: T -> K, gs: seq<Bucket<K, T>>, s': seq<T>)
    requires |s'| > 0
    requires Covers(key, gs, s'[..|s'| - 1])
    ensures Covers(key, gs + [Bucket(key(s'[|s'| - 1]), [s'[|s'| - 1]])], s')
  {
    var s := s'[..|s'| - 1];
    var gs' := gs + [Bucket(key(s'[|s'| - 1]), [s'[|s'| - 1]])];
    forall j | 0 <= j < |s'|
      ensures 0 <= IndexOfKey(gs', key(s'[j]))
    {
      if j < |s| {
        assert s'[j] == s[j];
        var m := IndexOfKey(gs, key(s[j]));
        assert gs'[m].key == key(s'[j]);
      } else {
        assert gs'[|gs'| - 1].key == key(s'[j]);
      }
    }
  }

  lemma PlaceIntoNew<K, T>(key: T -> K, gs: seq<Bucket<K, T>>, s': seq<T>)
    requires |s'| > 0
    requires Groups(key, gs, s'[..|s'| - 1])
    requires IndexOfKey(gs, key(s'[|s'| - 1])) < 0
    ensures Groups(key, Place(key, gs, s'[|s'| - 1]), s')
  {
    var x := s'[|s'| - 1];
    var b := Bucket(key(x), [x]);
    assert Place(key, gs, x) == gs + [b];
    NewExact(key, gs, s');
    NewCovers(key, gs, s');
    NewShape(gs, b);
  }

  /** Appending a non-empty bucket with a fresh key keeps the keys distinct
      and the buckets non-empty, and adds its size to the total. */
  lemma NewShape<K, T>(gs: seq<Bucket<K, T>>, b: Bucket<K, T>)
    requires IndexOfKey(gs, b.key) < 0 && |b.items| > 0
    requires DistinctKeys(gs) && NoEmptyBucket(gs)
    ensures DistinctKeys(gs + [b]) && NoEmptyBucket(gs + [b])
    ensures TotalSize(gs + [b]) == TotalSize(gs) + |b.items|
  {
    var gs' := gs + [b];
    assert gs'[..|gs'| - 1] == gs;
    assert forall j :: 0 <= j < |gs| ==> gs'[j] == gs[j];
  }

  /** Placing one more element keeps the grouping exact. */
  lemma PlaceGroups<K, T>(key: T -> K, gs: seq<Bucket<K, T>>, s': seq<T>)
    requires |s'| > 0
    requires Groups(key, gs, s'[..|s'| - 1])
    ensures Groups(key, Place(key, gs, s'[|s'| - 1]), s')
  {
    if 0 <= IndexOfKey(gs, key(s'[|s'| - 1])) {
      PlaceIntoExisting(key, gs, s');
    } else {
      PlaceIntoNew(key, gs, s');
    }
  }

  /** Appending an element leaves the first occurrence of a key already
      present where it was, and puts that of a key not yet present at the
      new element when it carries that key. */
  lemma FirstWithKeySnoc<K, T>(key: T -> K, k: K, s': seq<T>)
    requires |s'| > 0
    ensures var s := s'[..|s'| - 1];
      FirstWithKey(key, k, s) < |s| ==> FirstWithKey(key, k, s') == FirstWithKey(key, k, s)
    ensures var s := s'[..|s'| - 1];
      FirstWithKey(key, k, s) == |s| && key(s'[|s'| - 1]) == k ==> FirstWithKey(key, k, s') == |s|
  {
    var s := s'[..|s'| - 1];
    var a := FirstWithKey(key, k, s);
    if a < |s| {
      assert s'[a] == s[a];
    }
  }

  /** A key of a grouping occurs in the grouped input. */
  lemma KeyOccurs<K, T>(key: T -> K, gs: seq<Bucket<K, T>>, s: seq<T>, i: nat)
    requires Groups(key, gs, s) && i < |gs|
    ensures FirstWithKey(key, gs[i].key, s) < |s|
  {
    var x := gs[i].items[0];
    assert x in Having(key, gs[i].key, s);
    var j :| 0 <= j < |s| && s[j] == x;
  }

  /** Placing one more element keeps the buckets in first-occurrence
      order: an existing key keeps its place, a new one comes last. */
  lemma PlaceOrder<K, T>(key: T -> K, gs: seq<Bucket<K, T>>, s': seq<T>)
    requires |s'| > 0
    requires Groups(key, gs, s'[..|s'| - 1]) && FirstOccurrenceOrder(key, gs, s'[..|s'| - 1])
    ensures FirstOccurrenceOrder(key, Place(key, gs, s'[|s'| - 1]), s')
  {
    var s, x := s'[..|s'| - 1], s'[|s'| - 1];
    forall i | 0 <= i < |gs|
      ensures FirstWithKey(key, gs[i].key, s') == FirstWithKey(key, gs[i].key, s) < |s|
    {
      KeyOccurs(key, gs, s, i);
      FirstWithKeySnoc(key, gs[i].key, s');
    }
    if IndexOfKey(gs, key(x)) < 0 {
      forall j | 0 <= j < |s'| - 1
        ensures key(s'[j]) != key(x)
      {
        assert s'[j] == s[j];
        assert 0 <= IndexOfKey(gs, key(s[j]));
      }
      FirstAtLast(key, s');
    }
    PlaceOrderKept(key, gs, s');
  }

  /** The order step of `PlaceOrder`, from the first occurrences alone. */
  lemma PlaceOrderKept<K, T>(key: T -> K, gs: seq<Bucket<K, T>>, s': seq<T>)
    requires |s'| > 0
    requires FirstOccurrenceOrder(key, gs, s'[..|s'| - 1])
    requires forall i :: 0 <= i < |gs| ==>
      FirstWithKey(key, gs[i].key, s') == FirstWithKey(key, gs[i].key, s'[..|s'| - 1]) < |s'| - 1
    requires IndexOfKey(gs, key(s'[|s'| - 1])) < 0 ==>
      FirstWithKey(key, key(s'[|s'| - 1]), s') == |s'| - 1
    ensures FirstOccurrenceOrder(key, Place(key, gs, s'[|s'| - 1]), s')
  {
    var x := s'[|s'| - 1];
    var i := IndexOfKey(gs, key(x));
    if 0 <= i {
      OrderAfterUpdate(key, gs, s', i, Bucket(key(x), gs[i].items + [x]));
    } else {
      OrderAfterAppend(key, gs, s', Bucket(key(x), [x]));
    }
  }

  /** Replacing a bucket by one with the same key keeps the order. */
  lemma OrderAfterUpdate<K, T>(key: T -> K, gs: seq<Bucket<K, T>>, s': seq<T>, i: nat, b: Bucket<K, T>)
    requires |s'| > 0 && i < |gs| && b.key == gs[i].key
    requires FirstOccurrenceOrder(key, gs, s'[..|s'| - 1])
    requires forall j :: 0 <= j < |gs| ==>
      FirstWithKey(key, gs[j].key, s') == FirstWithKey(key, gs[j].key, s'[..|s'| - 1])
    ensures FirstOccurrenceOrder(key, gs[i := b], s')
  {
    var f, f' := FirstOccurrences(key, gs, s'[..|s'| - 1]), FirstOccurrences(key, gs[i := b], s');
    forall j | 0 <= j < |f|
      ensures f'[j] == f[j]
    {
      assert gs[i := b][j].key == gs[j].key;
      assert f'[j] == FirstWithKey(key, gs[j].key, s');
    }
    IncreasingAppend(f, f', []);
  }

  /** A bucket whose key first occurs at the last element goes last. */
  lemma OrderAfterAppend<K, T>(key: T -> K, gs: seq<Bucket<K, T>>, s': seq<T>, b: Bucket<K, T>)
    requires |s'| > 0
    requires FirstOccurrenceOrder(key, gs, s'[..|s'| - 1])
    requires forall j :: 0 <= j < |gs| ==>
      FirstWithKey(key, gs[j].key, s') == FirstWithKey(key, gs[j].key, s'[..|s'| - 1]) < |s'| - 1
    requires FirstWithKey(key, b.key, s') == |s'| - 1
    ensures FirstOccurrenceOrder(key, gs + [b], s')
  {
    var f, f' := FirstOccurrences(key, gs, s'[..|s'| - 1]), FirstOccurrences(key, gs + [b], s');
    forall j | 0 <= j < |f|
      ensures f'[j] == f[j] < |s'| - 1
    {
      assert (gs + [b])[j] == gs[j];
      assert f'[j] == FirstWithKey(key, gs[j].key, s');
    }
    assert f'[|f|] == FirstWithKey(key, b.key, s');
    IncreasingAppend(f, f', [|s'| - 1]);
  }

  /** A key that only the last element carries first occurs there. */
  lemma FirstAtLast<K, T>(key: T -> K, s': seq<T>)
    requires |s'| > 0
    requires forall j :: 0 <= j < |s'| - 1 ==> key(s'[j]) != key(s'[|s'| - 1])
    ensures FirstWithKey(key, key(s'[|s'| - 1]), s') == |s'| - 1
  {
  }

  /** Keeping an increasing sequence and appending at most one value larger
      than all of it gives an increasing sequence. */
  lemma IncreasingAppend(f: seq<nat>, f': seq<nat>, tail: seq<nat>)
    requires Increasing(f) && |tail| <= 1 && |f'| == |f| + |tail|
    requires forall j :: 0 <= j < |f| ==> f'[j] == f[j]
    requires forall j, t :: 0 <= j < |f| && 0 <= t < |tail| ==> f[j] < tail[t]
    requires forall t :: 0 <= t < |tail| ==> f'[|f| + t] == tail[t]
    ensures Increasing(f')
  {
    forall i, j | 0 <= i < j < |f'|
      ensures f'[i] < f'[j]
    {
      if j >= |f| {
        assert f'[j] == tail[j - |f|];
      }
    }
  }

  /** Groups `s` by `key`, placing the elements one at a time from the
      front as the source's `forEach` does; the buckets come in the order
      in which their keys first occur. */
  function GroupBy<K(==), T>(key: T -> K, s: seq<T>): (gs: seq<Bucket<K, T>>)
    ensures Groups(key, gs, s)
    ensures FirstOccurrenceOrder(key, gs, s)
    decreases |s|
  {
    if |s| == 0 then []
    else
      var gs0 := GroupBy(key, s[..|s| - 1]);
      PlaceGroups(key, gs0, s);
      PlaceOrder(key, gs0, s);
      Place(key, gs0, s[|s| - 1])
  }

  /** The first element with key `k` heads the selection of that key. */
  lemma {:induction false} HavingStartsAtFirst<K, T>(key: T -> K, k: K, s: seq<T>)
    requires FirstWithKey(key, k, s) < |s|
    ensures |Having(key, k, s)| > 0 && Having(key, k, s)[0] == s[FirstWithKey(key, k, s)]
    decreases |s|
  {
    var s0 := s[..|s| - 1];
    FirstWithKeySnoc(key, k, s);
    if FirstWithKey(key, k, s0) < |s0| {
      HavingStartsAtFirst(key, k, s0);
      assert s[FirstWithKey(key, k, s0)] == s0[FirstWithKey(key, k, s0)];
    } else {
      HavingNone(key, k, s0);
    }
  }

  /** Each bucket starts with the first element of its key, and a bucket
      before another starts earlier in the input. */
  lemma BucketsInFirstOccurrenceOrder<K, T>(key: T -> K, s: seq<T>, i: nat, j: nat)
    requires i < j < |GroupBy(key, s)|
    ensures var gs := GroupBy(key, s);
      && FirstWithKey(key, gs[i].key, s) < FirstWithKey(key, gs[j].key, s) < |s|
      && gs[i].items[0] == s[FirstWithKey(key, gs[i].key, s)]
      && gs[j].items[0] == s[FirstWithKey(key, gs[j].key, s)]
  {
    var gs := GroupBy(key, s);
    var f := FirstOccurrences(key, gs, s);
    assert f[i] < f[j];
    KeyOccurs(key, gs, s, j);
    HavingStartsAtFirst(key, gs[i].key, s);
    HavingStartsAtFirst(key, gs[j].key, s);
    assert gs[i].items == Having(key, gs[i].key, s);
    assert gs[j].items == Having(key, gs[j].key, s);
  }

  /** Non-empty buckets: there are no more buckets than elements. */
  lemma {:induction false} BucketsAtMostSize<K, T>(gs: seq<Bucket<K, T>>)
    requires NoEmptyBucket(gs)
    ensures |gs| <= TotalSize(gs)
    decreases |gs|
  {
    if |gs| > 0 {
      BucketsAtMostSize(gs[..|gs| - 1]);
    }
  }

  /** Each bucket's key is the key of an element of the input. */
  lemma BucketKeyOfInput<K, T>(key: T -> K, s: seq<T>, i: nat)
    requires i < |GroupBy(key, s)|
    ensures var b := GroupBy(key, s)[i];
      |b.items| > 0 && b.items[0] in s && key(b.items[0]) == b.key
  {
  }

  /** Every element of the input sits in exactly the bucket of its key. */
  lemma InExactlyOneBucket<K, T>(key: T -> K, s: seq<T>, x: T, i: nat)
    requires x in s
    requires i < |GroupBy(key, s)|
    ensures x in GroupBy(key, s)[i].items <==> GroupBy(key, s)[i].key == key(x)
  {
    var gs := GroupBy(key, s);
    var j :| 0 <= j < |s| && s[j] == x;
    if x in gs[i].items {
      var k :| 0 <= k < |gs[i].items| && gs[i].items[k] == x;
    }
  }
}
