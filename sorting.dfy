/** `Array.prototype.sort` with a numeric comparator `(a, b) => key(a) - key(b)`.
    The language requires the sort to be stable. `SortBy` is an insertion sort
    proved sorted, a permutation of its input and stable (`SortByStable`),
    which fixes its output for every input. */
module Sorting {
  import opened Common

  predicate SortedBy<T>(s: seq<T>, key: T -> int) {
    forall i, j :: 0 <= i < j < |s| ==> key(s[i]) <= key(s[j])
  }

  predicate KeysDistinct<T>(s: seq<T>, key: T -> int) {
    forall i, j :: 0 <= i < j < |s| ==> key(s[i]) != key(s[j])
  }

  /** Where `Insert` puts `x`: in front of the first element whose key is at
      least its own, so `x` stays ahead of the elements it ties with. */
  function InsertPos<T>(x: T, s: seq<T>, key: T -> int): (p: nat)
    ensures p <= |s|
    ensures forall i :: 0 <= i < p ==> key(s[i]) < key(x)
    ensures p < |s| ==> key(x) <= key(s[p])
  {
    if s == [] || key(x) <= key(s[0]) then 0
    else 1 + InsertPos(x, s[1..], key)
  }

  /** `s` with `x` put in at its place by key. */
  function Insert<T>(x: T, s: seq<T>, key: T -> int): (r: seq<T>)
    requires SortedBy(s, key)
    ensures |r| == |s| + 1
    ensures SortedBy(r, key)
    ensures multiset(r) == multiset(s) + multiset{x}
  {
    var p := InsertPos(x, s, key);
    InsertSorted(x, s, key, p);
    assert s == s[..p] + s[p..];
    s[..p] + [x] + s[p..]
  }

  lemma InsertSorted<T>(x: T, s: seq<T>, key: T -> int, p: nat)
    requires SortedBy(s, key) && p == InsertPos(x, s, key)
    ensures SortedBy(s[..p] + [x] + s[p..], key)
  {
    var r := s[..p] + [x] + s[p..];
    forall i, j | 0 <= i < j < |r| ensures key(r[i]) <= key(r[j]) {
      InsertedAt(x, s, p, i);
      InsertedAt(x, s, p, j);
      if p < j && i <= p {
        assert key(x) <= key(s[p]) <= key(s[j - 1]);
      }
    }
  }

  /** The element at position `k` after putting `x` in at position `p`. */
  lemma InsertedAt<T>(x: T, s: seq<T>, p: nat, k: int)
    requires p <= |s| && 0 <= k <= |s|
    ensures (s[..p] + [x] + s[p..])[k] == if k < p then s[k] else if k == p then x else s[k - 1]
  {
  }

  /** The stable ascending sort of `s` by `key`. */
  function SortBy<T>(s: seq<T>, key: T -> int): (r: seq<T>)
    ensures SortedBy(r, key)
    ensures multiset(r) == multiset(s)
    ensures |r| == |s|
  {
    if s == [] then []
    else
      assert s == [s[0]] + s[1..];
      Insert(s[0], SortBy(s[1..], key), key)
  }

  lemma SortByMembers<T>(s: seq<T>, key: T -> int)
    ensures forall x :: x in SortBy(s, key) <==> x in s
  {
    var r := SortBy(s, key);
    assert forall x :: x in r <==> x in multiset(r);
    assert forall x :: x in s <==> x in multiset(s);
  }

  lemma InsertKeysDistinct<T>(x: T, s: seq<T>, key: T -> int)
    requires SortedBy(s, key) && KeysDistinct(s, key)
    requires forall k :: 0 <= k < |s| ==> key(s[k]) != key(x)
    ensures KeysDistinct(Insert(x, s, key), key)
  {
    var p := InsertPos(x, s, key);
    var r := Insert(x, s, key);
    assert r == s[..p] + [x] + s[p..];
    forall i, j | 0 <= i < j < |r| ensures key(r[i]) != key(r[j]) {
      InsertedAt(x, s, p, i);
      InsertedAt(x, s, p, j);
    }
  }

  /** Sorting keeps distinct keys distinct, so the result is strictly ascending. */
  lemma {:induction false} SortByStrict<T>(s: seq<T>, key: T -> int)
    requires KeysDistinct(s, key)
    ensures KeysDistinct(SortBy(s, key), key)
    ensures forall i, j :: 0 <= i < j < |s| ==> key(SortBy(s, key)[i]) < key(SortBy(s, key)[j])
  {
    if s != [] {
      SortByStrict(s[1..], key);
      var t := SortBy(s[1..], key);
      SortByMembers(s[1..], key);
      forall k | 0 <= k < |t| ensures key(t[k]) != key(s[0]) {
        assert t[k] in multiset(t);
        assert t[k] in multiset(s[1..]);
        var p :| 0 <= p < |s| - 1 && s[1..][p] == t[k];
        assert s[p + 1] == t[k];
      }
      InsertKeysDistinct(s[0], t, key);
    }
  }

  // ---------------------------------------------------------------------------
  // Stability

  /** The elements of `s` whose key is `k`, in the order of `s`. */
  function WithKey<T>(s: seq<T>, key: T -> int, k: int): seq<T> {
    if s == [] then [] else (if key(s[0]) == k then [s[0]] else []) + WithKey(s[1..], key, k)
  }

  lemma {:induction false} WithKeyAppend<T>(a: seq<T>, b: seq<T>, key: T -> int, k: int)
    ensures WithKey(a + b, key, k) == WithKey(a, key, k) + WithKey(b, key, k)
  {
    if a == [] {
      assert a + b == b;
    } else {
      var h := if key(a[0]) == k then [a[0]] else [];
      assert (a + b)[0] == a[0];
      assert (a + b)[1..] == a[1..] + b;
      WithKeyAppend(a[1..], b, key, k);
      calc {
        WithKey(a + b, key, k);
        h + WithKey(a[1..] + b, key, k);
        h + (WithKey(a[1..], key, k) + WithKey(b, key, k));
        (h + WithKey(a[1..], key, k)) + WithKey(b, key, k);
      }
    }
  }

  lemma {:induction false} WithKeyNone<T>(s: seq<T>, key: T -> int, k: int)
    requires forall i :: 0 <= i < |s| ==> key(s[i]) != k
    ensures WithKey(s, key, k) == []
  {
    if s != [] {
      WithKeyNone(s[1..], key, k);
    }
  }

  /** Inserting `x` puts it in front of the elements whose key it shares. */
  lemma InsertWithKey<T>(x: T, s: seq<T>, key: T -> int, k: int)
    requires SortedBy(s, key)
    ensures WithKey(Insert(x, s, key), key, k) == (if key(x) == k then [x] else []) + WithKey(s, key, k)
  {
    var p := InsertPos(x, s, key);
    assert s == s[..p] + s[p..];
    SplicedWithKey(s[..p], x, s[p..], key, k);
  }

  lemma SplicedWithKey<T>(front: seq<T>, x: T, back: seq<T>, key: T -> int, k: int)
    requires forall i :: 0 <= i < |front| ==> key(front[i]) < key(x)
    ensures WithKey(front + [x] + back, key, k) == (if key(x) == k then [x] else []) + WithKey(front + back, key, k)
  {
    var h := if key(x) == k then [x] else [];
    assert front + [x] + back == front + ([x] + back);
    assert WithKey([x], key, k) == h + WithKey([], key, k);
    WithKeyAppend(front, [x] + back, key, k);
    WithKeyAppend([x], back, key, k);
    WithKeyAppend(front, back, key, k);
    if key(x) == k {
      WithKeyNone(front, key, k);
    }
  }

  /** The sort is stable: the elements that share a key keep their input order. */
  lemma {:induction false} SortByStable<T>(s: seq<T>, key: T -> int, k: int)
    ensures WithKey(SortBy(s, key), key, k) == WithKey(s, key, k)
  {
    if s != [] {
      SortByStable(s[1..], key, k);
      InsertWithKey(s[0], SortBy(s[1..], key), key, k);
    }
  }

  /** Of the elements with one key, a prefix of a sequence holds the first ones. */
  lemma WithKeyPrefix<T>(s: seq<T>, key: T -> int, k: int, w: nat)
    requires w <= |s|
    ensures WithKey(s[..w], key, k) <= WithKey(s, key, k)
  {
    assert s == s[..w] + s[w..];
    WithKeyAppend(s[..w], s[w..], key, k);
  }

  /** Cutting a sorted sequence leaves no key in front larger than a key behind. */
  lemma SortedSplit<T>(s: seq<T>, key: T -> int, w: nat)
    requires SortedBy(s, key) && w <= |s|
    ensures forall x, y :: x in s[..w] && y in multiset(s[w..]) ==> key(x) <= key(y)
  {
    forall x, y | x in s[..w] && y in multiset(s[w..]) ensures key(x) <= key(y) {
      assert y in s[w..];
      var i :| 0 <= i < w && s[i] == x;
      var j :| 0 <= j < |s| - w && s[w..][j] == y;
      assert s[w + j] == y;
    }
  }

  function Last<T>(s: seq<T>): T
    requires |s| > 0
  {
    s[|s| - 1]
  }

  /** What `Insert` leaves at the end: `x` when it beats every key, the old
      last element otherwise. */
  lemma InsertLast<T>(x: T, s: seq<T>, key: T -> int)
    requires SortedBy(s, key) && |s| > 0
    ensures Last(Insert(x, s, key)) == if key(x) > key(Last(s)) then x else Last(s)
  {
    var p := InsertPos(x, s, key);
    if p < |s| {
      assert key(s[p]) <= key(Last(s));
    }
  }

  /** The winner of `pop()` after sorting `s`, in terms of the winner for its tail. */
  lemma SortByConsLast<T>(s: seq<T>, key: T -> int)
    requires |s| > 1
    ensures Last(SortBy(s, key)) ==
      if key(s[0]) > key(Last(SortBy(s[1..], key))) then s[0] else Last(SortBy(s[1..], key))
  {
    InsertLast(s[0], SortBy(s[1..], key), key);
  }

  /** What putting `x` in front of `tail` does to the winner of `pop()`:
      `r` is `x` when `x` beats the winner `rt` of `tail`, `rt` otherwise. */
  lemma PopStep<T>(x: T, tail: seq<T>, key: T -> int, rt: T, r: T)
    requires rt in tail
    requires forall i :: 0 <= i < |tail| ==> key(tail[i]) <= key(rt)
    requires forall i :: 0 <= i < |tail| && key(tail[i]) == key(rt) ==> i <= LastIndex(tail, rt)
    requires r == if key(x) > key(rt) then x else rt
    ensures r in [x] + tail
    ensures forall i :: 0 <= i < |tail| + 1 ==> key(([x] + tail)[i]) <= key(r)
    ensures forall i :: 0 <= i < |tail| + 1 && key(([x] + tail)[i]) == key(r) ==> i <= LastIndex([x] + tail, r)
  {
    var s := [x] + tail;
    forall i | 0 < i < |s| ensures s[i] == tail[i - 1] {
    }
    if key(x) <= key(rt) {
      LastIndexCons(x, tail, rt);
    }
  }

  /** Among the elements tied for the largest key, the last element of the
      sorted sequence is the one whose last occurrence comes latest in `s`:
      stability keeps tied elements in input order. */
  lemma {:induction false} SortByLastLatest<T>(s: seq<T>, key: T -> int)
    requires |s| > 0
    ensures Last(SortBy(s, key)) in s
    ensures forall i :: 0 <= i < |s| ==> key(s[i]) <= key(Last(SortBy(s, key)))
    ensures forall i :: 0 <= i < |s| && key(s[i]) == key(Last(SortBy(s, key))) ==>
      i <= LastIndex(s, Last(SortBy(s, key)))
  {
    if |s| == 1 {
      assert SortBy(s, key) == [s[0]];
    } else {
      var tail := s[1..];
      var t := SortBy(tail, key);
      SortByLastLatest(tail, key);
      SortByConsLast(s, key);
      PopStep(s[0], tail, key, Last(t), Last(SortBy(s, key)));
      assert s == [s[0]] + tail;
    }
  }

  /** The element that `sort(...).pop()` returns: one with the largest key,
      and, among the elements with that key, the one whose last occurrence
      comes latest in `s`. */
  lemma SortByLast<T>(s: seq<T>, key: T -> int)
    requires |s| > 0
    ensures var r := Last(SortBy(s, key));
      && r in s
      && (forall i :: 0 <= i < |s| ==> key(s[i]) <= key(r))
      && (forall i :: 0 <= i < |s| && key(s[i]) == key(r) ==> i <= LastIndex(s, r))
  {
    SortByLastLatest(s, key);
  }
}
