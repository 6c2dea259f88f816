/** Stable sorting by a key: the one ordered arrangement that keeps the order
    of equal keys. */
module StableSort {

  function Insert<T>(x: T, ys: seq<T>, key: T -> int): seq<T> {
    if ys == [] || key(x) <= key(ys[0]) then [x] + ys else [ys[0]] + Insert(x, ys[1..], key)
  }

  function SortBy<T>(xs: seq<T>, key: T -> int): seq<T> {
    if xs == [] then [] else Insert(xs[0], SortBy(xs[1..], key), key)
  }

  predicate Ordered<T>(xs: seq<T>, key: T -> int) {
    forall i, j :: 0 <= i < j < |xs| ==> key(xs[i]) <= key(xs[j])
  }

  /** The elements of one key, in order. */
  function OfKey<T>(xs: seq<T>, key: T -> int, k: int): seq<T> {
    if xs == [] then [] else IfOfKey(xs[0], key, k) + OfKey(xs[1..], key, k)
  }

  lemma {:induction false} InsertKeeps<T>(x: T, ys: seq<T>, key: T -> int)
    ensures multiset(Insert(x, ys, key)) == multiset(ys) + multiset{x}
  {
    if ys != [] && key(x) > key(ys[0]) {
      InsertKeeps(x, ys[1..], key);
      assert ys == [ys[0]] + ys[1..];
    }
  }

  lemma {:induction false} InsertOrders<T>(x: T, ys: seq<T>, key: T -> int)
    requires Ordered(ys, key)
    ensures Ordered(Insert(x, ys, key), key)
  {
    if ys != [] && key(x) > key(ys[0]) {
      InsertOrders(x, ys[1..], key);
      InsertKeeps(x, ys[1..], key);
      var rest := Insert(x, ys[1..], key);
      forall j | 0 <= j < |rest| ensures key(ys[0]) <= key(rest[j]) {
        assert rest[j] in multiset(rest);
      }
    }
  }

  /** The element itself when it has the key. */
  function IfOfKey<T>(x: T, key: T -> int, k: int): seq<T> {
    if key(x) == k then [x] else []
  }

  lemma ConsOfKey<T>(x: T, xs: seq<T>, key: T -> int, k: int)
    ensures OfKey([x] + xs, key, k) == IfOfKey(x, key, k) + OfKey(xs, key, k)
  {
    assert ([x] + xs)[1..] == xs;
  }

  lemma {:induction false} InsertOfKey<T>(x: T, ys: seq<T>, key: T -> int, k: int)
    ensures OfKey(Insert(x, ys, key), key, k) == IfOfKey(x, key, k) + OfKey(ys, key, k)
  {
    if ys == [] || key(x) <= key(ys[0]) {
      ConsOfKey(x, ys, key, k);
    } else {
      InsertOfKey(x, ys[1..], key, k);
      ConsOfKey(ys[0], Insert(x, ys[1..], key), key, k);
      ConsOfKey(ys[0], ys[1..], key, k);
      assert [ys[0]] + ys[1..] == ys;
      SwapOfKey(x, ys[0], OfKey(ys[1..], key, k), key, k);
    }
  }

  lemma SwapOfKey<T>(x: T, y: T, rest: seq<T>, key: T -> int, k: int)
    requires key(x) != key(y)
    ensures IfOfKey(y, key, k) + (IfOfKey(x, key, k) + rest) == IfOfKey(x, key, k) + (IfOfKey(y, key, k) + rest)
  {
    assert [] + rest == rest;
  }

  /** Sorting rearranges the elements, puts their keys in order, and keeps the
      order of those with the same key. */
  lemma {:induction false} SortByIsStable<T>(xs: seq<T>, key: T -> int, k: int)
    ensures multiset(SortBy(xs, key)) == multiset(xs)
    ensures Ordered(SortBy(xs, key), key)
    ensures OfKey(SortBy(xs, key), key, k) == OfKey(xs, key, k)
  {
    if xs != [] {
      SortByIsStable(xs[1..], key, k);
      InsertKeeps(xs[0], SortBy(xs[1..], key), key);
      InsertOrders(xs[0], SortBy(xs[1..], key), key);
      InsertOfKey(xs[0], SortBy(xs[1..], key), key, k);
      assert xs == [xs[0]] + xs[1..];
    }
  }

  ghost predicate SameOfKeys<T>(a: seq<T>, b: seq<T>, key: T -> int) {
    forall k {:trigger OfKey(a, key, k)} {:trigger OfKey(b, key, k)} :: OfKey(a, key, k) == OfKey(b, key, k)
  }

  lemma SameMembers<T>(xs: seq<T>, key: T -> int)
    ensures |SortBy(xs, key)| == |xs| && forall x :: x in SortBy(xs, key) <==> x in xs
  {
    SortByIsStable(xs, key, 0);
    var s := SortBy(xs, key);
    assert |multiset(s)| == |s| && |multiset(xs)| == |xs|;
    forall x ensures x in s <==> x in xs {
      assert x in multiset(s) <==> x in multiset(xs);
    }
  }

  /** There is no other ordered arrangement with the same elements of each key. */
  lemma {:induction false} StableSortUnique<T>(a: seq<T>, b: seq<T>, key: T -> int)
    requires Ordered(a, key) && Ordered(b, key) && SameOfKeys(a, b, key)
    ensures a == b
  {
    if a == [] {
      if b != [] {
        HeadOfKey(b, key);
      }
    } else {
      HeadOfKey(a, key);
      if b != [] {
        SameFirst(a, b, key);
        forall k ensures OfKey(a[1..], key, k) == OfKey(b[1..], key, k) {
          TailOfKey(a, key, k);
          TailOfKey(b, key, k);
        }
        StableSortUnique(a[1..], b[1..], key);
        assert a == [a[0]] + a[1..] && b == [b[0]] + b[1..];
      }
    }
  }

  lemma HeadOfKey<T>(a: seq<T>, key: T -> int)
    requires a != []
    ensures OfKey(a, key, key(a[0])) != [] && OfKey(a, key, key(a[0]))[0] == a[0]
    ensures OfKey<T>([], key, key(a[0])) == []
  {
  }

  lemma TailOfKey<T>(a: seq<T>, key: T -> int, k: int)
    requires a != []
    ensures OfKey(a[1..], key, k) == if key(a[0]) == k then OfKey(a, key, k)[1..] else OfKey(a, key, k)
  {
  }

  lemma {:induction false} NoneOfKey<T>(a: seq<T>, key: T -> int, k: int)
    requires forall i :: 0 <= i < |a| ==> key(a[i]) != k
    ensures OfKey(a, key, k) == []
  {
    if a != [] {
      NoneOfKey(a[1..], key, k);
    }
  }

  lemma SameFirst<T>(a: seq<T>, b: seq<T>, key: T -> int)
    requires Ordered(a, key) && Ordered(b, key) && a != [] && b != []
    requires OfKey(a, key, key(a[0])) == OfKey(b, key, key(a[0])) &&
      OfKey(a, key, key(b[0])) == OfKey(b, key, key(b[0]))
    ensures a[0] == b[0]
  {
    HeadOfKey(a, key);
    HeadOfKey(b, key);
    if key(a[0]) < key(b[0]) {
      NoneOfKey(b, key, key(a[0]));
    } else if key(b[0]) < key(a[0]) {
      NoneOfKey(a, key, key(b[0]));
    }
  }

  /** What is in order already stays as it is. */
  lemma {:induction false} OrderedStays<T>(xs: seq<T>, key: T -> int)
    requires Ordered(xs, key)
    ensures SortBy(xs, key) == xs
  {
    if xs != [] {
      OrderedStays(xs[1..], key);
      assert xs[1..] == [] || key(xs[0]) <= key(xs[1..][0]);
      assert xs == [xs[0]] + xs[1..];
    }
  }

  /** An element whose key is the greatest stays last. */
  lemma {:induction false} GreatestStaysLast<T>(xs: seq<T>, last: T, key: T -> int)
    requires forall i :: 0 <= i < |xs| ==> key(xs[i]) <= key(last)
    ensures SortBy(xs + [last], key) == SortBy(xs, key) + [last]
  {
    if xs == [] {
      assert xs + [last] == [last];
    } else {
      assert (xs + [last])[1..] == xs[1..] + [last];
      GreatestStaysLast(xs[1..], last, key);
      SortByIsStable(xs[1..], key, 0);
      InsertBefore(xs[0], SortBy(xs[1..], key), last, key);
    }
  }

  lemma {:induction false} InsertBefore<T>(x: T, ys: seq<T>, last: T, key: T -> int)
    requires key(x) <= key(last)
    ensures Insert(x, ys + [last], key) == Insert(x, ys, key) + [last]
  {
    if ys == [] {
      assert ys + [last] == [last];
    } else if key(x) > key(ys[0]) {
      assert (ys + [last])[1..] == ys[1..] + [last];
      InsertBefore(x, ys[1..], last, key);
    }
  }
}
