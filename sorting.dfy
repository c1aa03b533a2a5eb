/**
 * `Array.prototype.sort` with a numeric comparator `(a, b) => key(a) - key(b)`.
 * The ECMAScript sort is stable, so it is modelled as a stable insertion sort.
 */
module Sorting {
  predicate SortedBy<T>(s: seq<T>, key: T -> int) {
    forall i, j :: 0 <= i < j < |s| ==> key(s[i]) <= key(s[j])
  }

  /** The elements of `s` whose key is `v`, in their order in `s`. */
  function WithKey<T>(s: seq<T>, key: T -> int, v: int): (r: seq<T>)
    ensures |r| <= |s|
  {
    if |s| == 0 then []
    else (if key(s[0]) == v then [s[0]] else []) + WithKey(s[1..], key, v)
  }

  /** Where `Insert` puts `x`: before the first element whose key is not smaller. */
  function InsertPos<T>(x: T, s: seq<T>, key: T -> int): (k: nat)
    ensures k <= |s|
    ensures forall i :: 0 <= i < k ==> key(s[i]) < key(x)
    ensures k < |s| ==> key(x) <= key(s[k])
  {
    if |s| == 0 || key(x) <= key(s[0]) then 0 else 1 + InsertPos(x, s[1..], key)
  }

  function Insert<T>(x: T, s: seq<T>, key: T -> int): (r: seq<T>)
    ensures r == s[..InsertPos(x, s, key)] + [x] + s[InsertPos(x, s, key)..]
  {
    if |s| == 0 || key(x) <= key(s[0]) then [x] + s
    else [s[0]] + Insert(x, s[1..], key)
  }

  /** The stable sort of `s` by `key`. */
  function SortBy<T>(s: seq<T>, key: T -> int): (r: seq<T>)
    ensures |r| == |s|
  {
    if |s| == 0 then [] else Insert(s[0], SortBy(s[1..], key), key)
  }

  /** The elements of `Insert(x, s, key)` by position. */
  lemma InsertAt<T>(x: T, s: seq<T>, key: T -> int, i: nat)
    requires i <= |s|
    ensures |Insert(x, s, key)| == |s| + 1
    ensures var k := InsertPos(x, s, key);
      Insert(x, s, key)[i] == if i < k then s[i] else if i == k then x else s[i - 1]
  {
  }

  lemma InsertSorted<T>(x: T, s: seq<T>, key: T -> int)
    requires SortedBy(s, key)
    ensures SortedBy(Insert(x, s, key), key)
  {
    var k := InsertPos(x, s, key);
    var r := Insert(x, s, key);
    InsertAt(x, s, key, 0);
    forall i, j | 0 <= i < j < |r| ensures key(r[i]) <= key(r[j]) {
      InsertAt(x, s, key, i);
      InsertAt(x, s, key, j);
      if i < k && k < j {
        assert key(s[i]) < key(x) <= key(s[k]) <= key(s[j - 1]);
      }
    }
  }

  lemma {:induction false} SortByIsSorted<T>(s: seq<T>, key: T -> int)
    ensures SortedBy(SortBy(s, key), key)
  {
    if |s| > 0 {
      SortByIsSorted(s[1..], key);
      InsertSorted(s[0], SortBy(s[1..], key), key);
    }
  }

  lemma {:induction false} SortByIsPermutation<T>(s: seq<T>, key: T -> int)
    ensures multiset(SortBy(s, key)) == multiset(s)
  {
    if |s| > 0 {
      SortByIsPermutation(s[1..], key);
      InsertMultiset(s[0], SortBy(s[1..], key), key);
      MultisetCons(s);
    }
  }

  lemma MultisetCons<T>(s: seq<T>)
    requires |s| > 0
    ensures multiset(s) == multiset(s[1..]) + multiset{s[0]}
  {
    assert s == [s[0]] + s[1..];
  }

  lemma InsertMultiset<T>(x: T, s: seq<T>, key: T -> int)
    ensures multiset(Insert(x, s, key)) == multiset(s) + multiset{x}
  {
    var k := InsertPos(x, s, key);
    var a, b := s[..k], s[k..];
    assert s == a + b;
    assert Insert(x, s, key) == a + [x] + b;
    calc {
      multiset(a + [x] + b);
      multiset(a + [x]) + multiset(b);
      multiset(a) + multiset{x} + multiset(b);
      multiset(a + b) + multiset{x};
    }
  }

  lemma {:induction false} WithKeyConcat<T>(a: seq<T>, b: seq<T>, key: T -> int, v: int)
    ensures WithKey(a + b, key, v) == WithKey(a, key, v) + WithKey(b, key, v)
  {
    if |a| > 0 {
      assert (a + b)[1..] == a[1..] + b;
      WithKeyConcat(a[1..], b, key, v);
    } else {
      assert a + b == b;
    }
  }

  lemma {:induction false} WithKeyNone<T>(s: seq<T>, key: T -> int, v: int)
    requires forall i :: 0 <= i < |s| ==> key(s[i]) != v
    ensures WithKey(s, key, v) == []
  {
    if |s| > 0 {
      WithKeyNone(s[1..], key, v);
    }
  }

  /** Inserting `x` adds it to the front of its own key's elements. */
  lemma {:induction false} InsertWithKey<T>(x: T, t: seq<T>, key: T -> int, v: int)
    ensures WithKey(Insert(x, t, key), key, v) == WithKey([x], key, v) + WithKey(t, key, v)
    decreases |t|
  {
    if |t| == 0 || key(x) <= key(t[0]) {
      assert Insert(x, t, key) == [x] + t;
      WithKeyConcat([x], t, key, v);
    } else {
      var rest := Insert(x, t[1..], key);
      var r := [t[0]] + rest;
      assert Insert(x, t, key) == r;
      assert r[0] == t[0] && r[1..] == rest;
      InsertWithKey(x, t[1..], key, v);
      var head := if key(t[0]) == v then [t[0]] else [];
      assert WithKey(r, key, v) == head + WithKey(rest, key, v);
      assert WithKey(t, key, v) == head + WithKey(t[1..], key, v);
      if key(x) == v {
        assert head == [];
      } else {
        assert WithKey([x], key, v) == [];
      }
    }
  }

  /** Stability: elements with equal keys keep their relative order. */
  lemma {:induction false} SortByIsStable<T>(s: seq<T>, key: T -> int, v: int)
    ensures WithKey(SortBy(s, key), key, v) == WithKey(s, key, v)
  {
    if |s| > 0 {
      var t := SortBy(s[1..], key);
      assert SortBy(s, key) == Insert(s[0], t, key);
      SortByIsStable(s[1..], key, v);
      InsertWithKey(s[0], t, key, v);
      assert s == [s[0]] + s[1..];
      WithKeyConcat([s[0]], s[1..], key, v);
    }
  }

  /** A sequence that is already sorted is its own sort. */
  lemma {:induction false} SortBySorted<T>(s: seq<T>, key: T -> int)
    requires SortedBy(s, key)
    ensures SortBy(s, key) == s
  {
    if |s| > 0 {
      SortBySorted(s[1..], key);
      assert InsertPos(s[0], s[1..], key) == 0;
    }
  }

  lemma SortByMembers<T>(s: seq<T>, key: T -> int)
    ensures forall x :: x in SortBy(s, key) <==> x in s
  {
    SortByIsPermutation(s, key);
    forall x ensures x in SortBy(s, key) <==> x in s {
      assert x in SortBy(s, key) <==> x in multiset(SortBy(s, key));
      assert x in s <==> x in multiset(s);
    }
  }
}
