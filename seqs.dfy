/**
 * The JavaScript array operations the core is built from: `filter`,
 * `slice(0, n)`, `findIndex`, `find`, `reduce` as a sum, and the
 * first-occurrence deduplication `filter((x, i, self) => i === self.findIndex(...))`.
 */
module Seqs {
  import opened Options

  function Min(a: int, b: int): int { if a <= b then a else b }

  function Max(a: int, b: int): int { if a <= b then b else a }

  /** `s.filter(p)`: the elements satisfying p, in their original order. */
  function Filter<T>(s: seq<T>, p: T -> bool): (r: seq<T>)
    ensures |r| <= |s|
    ensures forall i :: 0 <= i < |r| ==> p(r[i])
    ensures multiset(r) <= multiset(s)
  {
    if s == [] then []
    else
      assert s == [s[0]] + s[1..];
      (if p(s[0]) then [s[0]] else []) + Filter(s[1..], p)
  }

  lemma {:induction false} FilterMembers<T>(s: seq<T>, p: T -> bool, x: T)
    ensures x in Filter(s, p) <==> x in s && p(x)
  {
    if s != [] {
      FilterMembers(s[1..], p, x);
      assert x in s <==> x == s[0] || x in s[1..];
    }
  }

  lemma {:induction false} FilterAppend<T>(a: seq<T>, b: seq<T>, p: T -> bool)
    ensures Filter(a + b, p) == Filter(a, p) + Filter(b, p)
  {
    if a == [] {
      assert a + b == b;
    } else {
      assert (a + b)[1..] == a[1..] + b;
      FilterAppend(a[1..], b, p);
    }
  }

  /** How often x occurs in a filtered sequence depends only on how often it occurs in the input. */
  lemma {:induction false} FilterCount<T>(s: seq<T>, p: T -> bool, x: T)
    ensures multiset(Filter(s, p))[x] == if p(x) then multiset(s)[x] else 0
  {
    if s != [] {
      assert s == [s[0]] + s[1..];
      FilterCount(s[1..], p, x);
    }
  }

  /** Filtering two permutations of one another gives permutations of one another. */
  lemma FilterPermutation<T>(s: seq<T>, t: seq<T>, p: T -> bool)
    requires multiset(s) == multiset(t)
    ensures multiset(Filter(s, p)) == multiset(Filter(t, p))
    ensures |Filter(s, p)| == |Filter(t, p)|
  {
    forall x ensures multiset(Filter(s, p))[x] == multiset(Filter(t, p))[x] {
      FilterCount(s, p, x);
      FilterCount(t, p, x);
    }
    assert multiset(Filter(s, p)) == multiset(Filter(t, p));
    assert |multiset(Filter(s, p))| == |multiset(Filter(t, p))|;
  }

  /** `s.slice(0, end)`, including JavaScript's reading of a negative end as counted from the back. */
  function Slice<T>(s: seq<T>, end: int): (r: seq<T>)
    ensures |r| <= |s| && r == s[..|r|]
    ensures end >= 0 ==> |r| == Min(end, |s|)
    ensures end < 0 ==> |r| == Max(0, |s| + end)
  {
    if end >= |s| then s
    else if end >= 0 then s[..end]
    else if |s| + end > 0 then s[..|s| + end]
    else []
  }

  /** `s.findIndex(p)`: the first index whose element satisfies p, or -1. */
  function FindIndex<T>(s: seq<T>, p: T -> bool): (r: int)
    ensures -1 <= r < |s|
    ensures r == -1 <==> forall i :: 0 <= i < |s| ==> !p(s[i])
    ensures r >= 0 ==> p(s[r]) && forall i :: 0 <= i < r ==> !p(s[i])
  {
    if s == [] then -1
    else if p(s[0]) then 0
    else
      var k := FindIndex(s[1..], p);
      if k == -1 then -1 else k + 1
  }

  /** `s.find(p) || null`: the first element satisfying p, if any (every element here is a truthy object). */
  function Find<T>(s: seq<T>, p: T -> bool): (r: Option<T>)
    ensures r.None? <==> forall i :: 0 <= i < |s| ==> !p(s[i])
  {
    var k := FindIndex(s, p);
    if k < 0 then None else Some(s[k])
  }

  /** The value Find returns is the element at the first index satisfying p. */
  lemma FindIsFirst<T>(s: seq<T>, p: T -> bool)
    requires Find(s, p).Some?
    ensures exists k :: 0 <= k < |s| && s[k] == Find(s, p).value && p(s[k]) && forall i :: 0 <= i < k ==> !p(s[i])
  {
    var k := FindIndex(s, p);
    assert s[k] == Find(s, p).value;
  }

  /** `s[0]`, or nothing for the empty sequence. */
  function First<T>(s: seq<T>): (r: Option<T>)
    ensures r.None? <==> s == []
    ensures r.Some? ==> r.value == s[0]
  {
    if s == [] then None else Some(s[0])
  }

  /** The head of the filtered sequence is what `find` returns. */
  lemma {:induction false} FilterFirstIsFind<T>(s: seq<T>, p: T -> bool)
    ensures First(Filter(s, p)) == Find(s, p)
  {
    if s != [] {
      assert s == [s[0]] + s[1..];
      if !p(s[0]) {
        FilterFirstIsFind(s[1..], p);
        var k := FindIndex(s[1..], p);
        if k >= 0 {
          assert s[1..][k] == s[k + 1];
        }
      }
    }
  }

  /** `s.reduce((sum, x) => sum + f(x), 0)`. */
  function Sum<T>(s: seq<T>, f: T -> int): int
  {
    if s == [] then 0 else f(s[0]) + Sum(s[1..], f)
  }

  lemma {:induction false} SumAppend<T>(a: seq<T>, b: seq<T>, f: T -> int)
    ensures Sum(a + b, f) == Sum(a, f) + Sum(b, f)
  {
    if a == [] {
      assert a + b == b;
    } else {
      assert (a + b)[1..] == a[1..] + b;
      SumAppend(a[1..], b, f);
    }
  }

  /** Removing the element at index j. */
  function RemoveAt<T>(t: seq<T>, j: nat): seq<T>
    requires j < |t|
  {
    t[..j] + t[j + 1..]
  }

  lemma RemoveAtMultiset<T>(t: seq<T>, j: nat)
    requires j < |t|
    ensures multiset(RemoveAt(t, j)) == multiset(t) - multiset{t[j]}
  {
    assert t == t[..j] + [t[j]] + t[j + 1..];
  }

  lemma RemoveAtSum<T>(t: seq<T>, j: nat, f: T -> int)
    requires j < |t|
    ensures Sum(t, f) == f(t[j]) + Sum(RemoveAt(t, j), f)
  {
    var front, back := t[..j], t[j + 1..];
    assert t == (front + [t[j]]) + back;
    SumAppend(front + [t[j]], back, f);
    SumAppend(front, [t[j]], f);
    assert Sum([t[j]], f) == f(t[j]) + Sum([t[j]][1..], f);
    assert [t[j]][1..] == [];
    SumAppend(front, back, f);
  }

  /** A sum does not depend on the order of its terms. */
  lemma {:induction false} SumPermutation<T>(s: seq<T>, t: seq<T>, f: T -> int)
    requires multiset(s) == multiset(t)
    ensures Sum(s, f) == Sum(t, f)
    decreases |s|
  {
    if s == [] {
      assert |multiset(t)| == 0;
    } else {
      assert s == [s[0]] + s[1..];
      assert s[0] in multiset(t);
      var j :| 0 <= j < |t| && t[j] == s[0];
      RemoveAtMultiset(t, j);
      assert multiset(s[1..]) == multiset(s) - multiset{s[0]};
      SumPermutation(s[1..], RemoveAt(t, j), f);
      RemoveAtSum(t, j, f);
    }
  }

  /** The keys of a sequence's elements. */
  function KeySet<T, K>(s: seq<T>, key: T -> K): set<K>
  {
    set i | 0 <= i < |s| :: key(s[i])
  }

  lemma KeySetSnoc<T, K>(a: seq<T>, x: T, key: T -> K)
    ensures KeySet(a + [x], key) == KeySet(a, key) + {key(x)}
  {
    var b := a + [x];
    forall k | k in KeySet(b, key) ensures k in KeySet(a, key) + {key(x)} {
      var i :| 0 <= i < |b| && key(b[i]) == k;
      if i < |a| { assert b[i] == a[i]; }
    }
    forall k | k in KeySet(a, key) ensures k in KeySet(b, key) {
      var i :| 0 <= i < |a| && key(a[i]) == k;
      assert b[i] == a[i];
    }
    assert b[|a|] == x;
  }

  /** The set of keys does not depend on the order of the elements. */
  lemma KeySetPermutation<T, K>(s: seq<T>, t: seq<T>, key: T -> K)
    requires multiset(s) == multiset(t)
    ensures KeySet(s, key) == KeySet(t, key)
  {
    forall k | k in KeySet(s, key) ensures k in KeySet(t, key) {
      var i :| 0 <= i < |s| && key(s[i]) == k;
      assert s[i] in multiset(t);
      var j :| 0 <= j < |t| && t[j] == s[i];
    }
    forall k | k in KeySet(t, key) ensures k in KeySet(s, key) {
      var j :| 0 <= j < |t| && key(t[j]) == k;
      assert t[j] in multiset(s);
      var i :| 0 <= i < |s| && s[i] == t[j];
    }
  }

  /** A sequence has at least as many elements as distinct keys. */
  lemma {:induction false} KeySetAtMost<T, K>(s: seq<T>, key: T -> K)
    ensures |KeySet(s, key)| <= |s|
    decreases |s|
  {
    if s != [] {
      var init, last := s[..|s| - 1], s[|s| - 1];
      KeySetAtMost(init, key);
      assert s == init + [last];
      KeySetSnoc(init, last, key);
    }
  }

  ghost predicate KeysDistinct<T, K>(s: seq<T>, key: T -> K)
  {
    forall i, j :: 0 <= i < j < |s| ==> key(s[i]) != key(s[j])
  }

  /** The predicate `a => key(a) === k` that `findIndex` is called with. */
  function SameKey<T, K(==)>(key: T -> K, k: K): T -> bool
  {
    a => key(a) == k
  }

  /** The index `self.findIndex(a => key(a) === key(x))` of x's first key-mate. */
  function FirstIndexOf<T, K(==)>(s: seq<T>, key: T -> K, x: T): int
  {
    FindIndex(s, SameKey(key, key(x)))
  }

  /**
   * `s.filter((x, i, self) => i === self.findIndex(a => key(a) === key(x)))`
   * restricted to the first n indices.
   */
  function KeepFirsts<T, K(==)>(s: seq<T>, key: T -> K, n: nat): seq<T>
    requires n <= |s|
  {
    if n == 0 then []
    else KeepFirsts(s, key, n - 1) + (if FirstIndexOf(s, key, s[n - 1]) == n - 1 then [s[n - 1]] else [])
  }

  /** Keeps each element whose key has not been seen at an earlier index. */
  function UniqueBy<T, K(==)>(s: seq<T>, key: T -> K): seq<T>
  {
    KeepFirsts(s, key, |s|)
  }

  /** Each kept element is the first with its key, and the kept elements come in first-occurrence order. */
  lemma {:induction false} KeepFirstsOrigin<T, K>(s: seq<T>, key: T -> K, n: nat)
    requires n <= |s|
    ensures var r := KeepFirsts(s, key, n);
      && |r| <= n
      && (forall i :: 0 <= i < |r| ==> 0 <= FirstIndexOf(s, key, r[i]) < n && s[FirstIndexOf(s, key, r[i])] == r[i])
      && (forall i, j :: 0 <= i < j < |r| ==> FirstIndexOf(s, key, r[i]) < FirstIndexOf(s, key, r[j]))
  {
    if n > 0 {
      KeepFirstsOrigin(s, key, n - 1);
      var x := s[n - 1];
      assert SameKey(key, key(x))(s[n - 1]);
    }
  }

  /** The kept elements have the same keys as the first n elements. */
  lemma {:induction false} KeepFirstsKeys<T, K>(s: seq<T>, key: T -> K, n: nat)
    requires n <= |s|
    ensures KeySet(KeepFirsts(s, key, n), key) == KeySet(s[..n], key)
  {
    if n > 0 {
      KeepFirstsKeys(s, key, n - 1);
      var prev := KeepFirsts(s, key, n - 1);
      var x := s[n - 1];
      var f := FirstIndexOf(s, key, x);
      assert SameKey(key, key(x))(s[n - 1]);
      assert s[..n] == s[..n - 1] + [x];
      KeySetSnoc(s[..n - 1], x, key);
      if f == n - 1 {
        KeySetSnoc(prev, x, key);
      } else {
        assert SameKey(key, key(x))(s[f]);
        assert s[..n - 1][f] == s[f];
        assert key(x) in KeySet(s[..n - 1], key);
        assert KeepFirsts(s, key, n) == prev + [];
        assert prev + [] == prev;
      }
    }
  }

  /** No two kept elements share a key. */
  lemma {:induction false} KeepFirstsDistinct<T, K>(s: seq<T>, key: T -> K, n: nat)
    requires n <= |s|
    ensures KeysDistinct(KeepFirsts(s, key, n), key)
  {
    if n > 0 {
      KeepFirstsDistinct(s, key, n - 1);
      KeepFirstsOrigin(s, key, n - 1);
      var prev := KeepFirsts(s, key, n - 1);
      var x := s[n - 1];
      var f := FirstIndexOf(s, key, x);
      if f == n - 1 {
        forall i | 0 <= i < |prev| ensures key(prev[i]) != key(x) {
          var g := FirstIndexOf(s, key, prev[i]);
          assert SameKey(key, key(x))(s[g]) ==> g >= f;
        }
        assert KeepFirsts(s, key, n) == prev + [x];
      } else {
        assert KeepFirsts(s, key, n) == prev + [];
        assert prev + [] == prev;
      }
    }
  }

  /**
   * The deduplicated sequence has pairwise distinct keys, loses no key, keeps
   * each key's first element, and keeps those in their first-occurrence order.
   */
  lemma UniqueBySpec<T, K>(s: seq<T>, key: T -> K)
    ensures var r := UniqueBy(s, key);
      && |r| <= |s|
      && KeysDistinct(r, key)
      && KeySet(r, key) == KeySet(s, key)
      && (forall i :: 0 <= i < |r| ==> 0 <= FirstIndexOf(s, key, r[i]) < |s| && s[FirstIndexOf(s, key, r[i])] == r[i])
      && (forall i, j :: 0 <= i < j < |r| ==> FirstIndexOf(s, key, r[i]) < FirstIndexOf(s, key, r[j]))
  {
    KeepFirstsOrigin(s, key, |s|);
    KeepFirstsKeys(s, key, |s|);
    KeepFirstsDistinct(s, key, |s|);
    assert s[..|s|] == s;
  }

  /** A sequence has at least as many elements as it has distinct values. */
  lemma {:induction false} DistinctAtMostLength<T>(s: seq<T>)
    ensures |set x | x in s| <= |s|
  {
    if s != [] {
      DistinctAtMostLength(s[1..]);
      assert (set x | x in s) == (set x | x in s[1..]) + {s[0]};
    }
  }

  /** A fresh array holding s: what a fetch or a `map` hands to code that sorts it in place. */
  method ArrayOf<T>(s: seq<T>) returns (a: array<T>)
    ensures fresh(a) && a[..] == s
  {
    a := new T[|s|]((i: int) requires 0 <= i < |s| => s[i]);
  }

  /** Each term of the first sum is at most the matching term of the second. */
  lemma {:induction false} SumMonotone<T>(s: seq<T>, f: T -> int, g: T -> int)
    requires forall i :: 0 <= i < |s| ==> f(s[i]) <= g(s[i])
    ensures Sum(s, f) <= Sum(s, g)
  {
    if s != [] {
      SumMonotone(s[1..], f, g);
    }
  }
}
