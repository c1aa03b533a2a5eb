/**
 * The parts of JavaScript's `Map`, `Set` and `Array.prototype.filter` the export code
 * relies on: keys iterate in the order they were first inserted, and `set` on an
 * existing key replaces its value without moving it.
 */
module OrderedIndex {
  /** A `Map` from string keys to the position of the value last stored under each key. */
  datatype Index = Index(keys: seq<string>, pos: map<string, nat>)

  predicate NoDuplicates<T(==)>(s: seq<T>) {
    forall i, j :: 0 <= i < j < |s| ==> s[i] != s[j]
  }

  /** A non-empty sequence is its front followed by its last element. */
  lemma LastSplit<T>(s: seq<T>)
    requires |s| > 0
    ensures s == s[..|s| - 1] + [s[|s| - 1]]
  {
  }

  /** `map.set(key, i)`. */
  function Put(ix: Index, key: string, i: nat): Index {
    if key in ix.pos then Index(ix.keys, ix.pos[key := i]) else Index(ix.keys + [key], ix.pos[key := i])
  }

  /** The map built by `hs.forEach((h, i) => map.set(h, i))`. */
  function Build(hs: seq<string>): Index
    decreases |hs|
  {
    if |hs| == 0 then Index([], map[]) else Put(Build(hs[..|hs| - 1]), hs[|hs| - 1], |hs| - 1)
  }

  /** One `map.set` step of the loop that computes `Build`. */
  lemma BuildStep(hs: seq<string>, i: nat)
    requires i < |hs|
    ensures Build(hs[..i + 1]) == Put(Build(hs[..i]), hs[i], i)
  {
    assert hs[..i + 1][..i] == hs[..i];
  }

  /** The distinct elements of `s` in order of first occurrence: `[...new Set(s)]`. */
  function FirstOccurrences<T(==)>(s: seq<T>): (r: seq<T>)
    ensures |r| <= |s|
    decreases |s|
  {
    if |s| == 0 then [] else
      var d := FirstOccurrences(s[..|s| - 1]);
      if s[|s| - 1] in d then d else d + [s[|s| - 1]]
  }

  /** `FirstOccurrences` lists each element of `s` exactly once. */
  lemma {:induction false} FirstOccurrencesFacts<T>(s: seq<T>)
    ensures NoDuplicates(FirstOccurrences(s))
    ensures forall x :: x in FirstOccurrences(s) <==> x in s
    decreases |s|
  {
    if |s| > 0 {
      var p := s[..|s| - 1];
      FirstOccurrencesFacts(p);
      assert s == p + [s[|s| - 1]];
    }
  }

  /** A duplicate-free sequence has as many elements as its set. */
  lemma {:induction false} NoDuplicatesCard<T>(s: seq<T>)
    requires NoDuplicates(s)
    ensures |set x | x in s| == |s|
    decreases |s|
  {
    if |s| > 0 {
      var p := s[..|s| - 1];
      var x := s[|s| - 1];
      assert NoDuplicates(p);
      NoDuplicatesCard(p);
      assert (set y | y in s) == (set y | y in p) + {x} by {
        assert s == p + [x];
      }
      assert x !in p;
    }
  }

  /** `new Set(s).size` equals the length of `[...new Set(s)]`. */
  lemma DistinctCount<T>(s: seq<T>)
    ensures |FirstOccurrences(s)| == |set x | x in s|
  {
    FirstOccurrencesFacts(s);
    NoDuplicatesCard(FirstOccurrences(s));
    SameElementsSameSet(FirstOccurrences(s), s);
  }

  lemma SameElementsSameSet<T>(a: seq<T>, b: seq<T>)
    requires forall x :: x in a <==> x in b
    ensures (set x | x in a) == (set x | x in b)
  {
  }

  /**
   * After `hs.forEach((h, i) => map.set(h, i))` the keys are the distinct hashes in order
   * of first occurrence and each maps to the last position holding it.
   */
  lemma BuildFacts(hs: seq<string>)
    ensures Build(hs).keys == FirstOccurrences(hs)
    ensures forall k :: k in Build(hs).pos <==> k in hs
    ensures forall k :: k in Build(hs).pos ==>
      Build(hs).pos[k] < |hs| && hs[Build(hs).pos[k]] == k
      && forall j :: Build(hs).pos[k] < j < |hs| ==> hs[j] != k
  {
    BuildKeys(hs);
    BuildPositions(hs);
  }

  lemma {:induction false} BuildKeys(hs: seq<string>)
    ensures Build(hs).keys == FirstOccurrences(hs)
    ensures forall k :: k in Build(hs).pos <==> k in hs
    decreases |hs|
  {
    if |hs| > 0 {
      var n := |hs| - 1;
      var p, x := hs[..n], hs[n];
      BuildKeys(p);
      FirstOccurrencesFacts(p);
      var b, m := Build(p), Build(hs);
      assert m == Put(b, x, n);
      forall k ensures k in m.pos <==> k in hs {
        InPrefixOrLast(hs, k);
      }
    }
  }

  lemma InPrefixOrLast<T>(s: seq<T>, x: T)
    requires |s| > 0
    ensures x in s <==> x in s[..|s| - 1] || x == s[|s| - 1]
  {
    if x in s {
      var i :| 0 <= i < |s| && s[i] == x;
      if i < |s| - 1 {
        assert s[..|s| - 1][i] == x;
      }
    }
  }

  lemma {:induction false} BuildPositions(hs: seq<string>)
    ensures forall k :: k in Build(hs).pos ==>
      Build(hs).pos[k] < |hs| && hs[Build(hs).pos[k]] == k
      && forall j :: Build(hs).pos[k] < j < |hs| ==> hs[j] != k
    decreases |hs|
  {
    if |hs| > 0 {
      var n := |hs| - 1;
      var p, x := hs[..n], hs[n];
      BuildPositions(p);
      var b, m := Build(p), Build(hs);
      assert m == Put(b, x, n);
      forall k | k in m.pos
        ensures m.pos[k] < |hs| && hs[m.pos[k]] == k && forall j :: m.pos[k] < j < |hs| ==> hs[j] != k
      {
        if k != x {
          var i := b.pos[k];
          assert m.pos[k] == i && i < n && p[i] == k;
          forall j | i < j < |hs| ensures hs[j] != k {
            if j < n {
              assert hs[j] == p[j];
            }
          }
        }
      }
    }
  }

  /** `s.filter(p)`: the elements satisfying `p`, in order, duplicates kept. */
  function Filter<T(!new)>(s: seq<T>, p: T -> bool): (r: seq<T>)
    ensures |r| <= |s|
    ensures forall x :: x in r <==> x in s && p(x)
    decreases |s|
  {
    if |s| == 0 then [] else
      var f := Filter(s[..|s| - 1], p);
      assert s == s[..|s| - 1] + [s[|s| - 1]];
      if p(s[|s| - 1]) then f + [s[|s| - 1]] else f
  }

  /** Filtering keeps a duplicate-free sequence duplicate-free. */
  lemma {:induction false} FilterNoDuplicates<T(!new)>(s: seq<T>, p: T -> bool)
    requires NoDuplicates(s)
    ensures NoDuplicates(Filter(s, p))
    decreases |s|
  {
    if |s| > 0 {
      var q := s[..|s| - 1];
      assert NoDuplicates(q);
      FilterNoDuplicates(q, p);
      assert s[|s| - 1] !in q;
    }
  }

  /** A filter that every element passes changes nothing. */
  lemma {:induction false} FilterAll<T(!new)>(s: seq<T>, p: T -> bool)
    requires forall x :: x in s ==> p(x)
    ensures Filter(s, p) == s
    decreases |s|
  {
    if |s| > 0 {
      var q := s[..|s| - 1];
      assert forall x :: x in q ==> x in s;
      FilterAll(q, p);
      assert s == q + [s[|s| - 1]];
    }
  }

  /** Two tests that agree on the elements filter alike. */
  lemma {:induction false} FilterSame<T(!new)>(s: seq<T>, p: T -> bool, q: T -> bool)
    requires forall x :: x in s ==> p(x) == q(x)
    ensures Filter(s, p) == Filter(s, q)
    decreases |s|
  {
    if |s| > 0 {
      var front := s[..|s| - 1];
      assert forall x :: x in front ==> x in s;
      assert s[|s| - 1] in s;
      FilterSame(front, p, q);
    }
  }

  /** Filtering a concatenation filters each part. */
  lemma {:induction false} FilterSnoc<T(!new)>(s: seq<T>, x: T, p: T -> bool)
    ensures Filter(s + [x], p) == if p(x) then Filter(s, p) + [x] else Filter(s, p)
  {
    assert (s + [x])[..|s|] == s;
  }

  /** One step of a loop that filters `s` from left to right, keeping `s[i]` when `keep` says so. */
  lemma FilterStep<T(!new)>(s: seq<T>, i: int, p: T -> bool, acc: seq<T>, keep: bool)
    requires 0 <= i < |s| && acc == Filter(s[..i], p) && keep == p(s[i])
    ensures (if keep then acc + [s[i]] else acc) == Filter(s[..i + 1], p)
  {
    assert s[..i + 1] == s[..i] + [s[i]];
    FilterSnoc(s[..i], s[i], p);
  }

  /** `xs.some(p)`: whether some element passes `p`, stopping at the first that does. */
  method AnyMatch<T>(xs: seq<T>, p: T -> bool) returns (r: bool)
    ensures r <==> exists i :: 0 <= i < |xs| && p(xs[i])
  {
    for k := 0 to |xs|
      invariant forall m :: 0 <= m < k ==> !p(xs[m])
    {
      if p(xs[k]) {
        return true;
      }
    }
    return false;
  }
}
