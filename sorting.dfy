/**
 * The stable sort every `.sort((a, b) => key(b) - key(a))` of the core
 * performs. Array.prototype.sort is stable (section 22.1.3.27 of ECMA-262,
 * 10th edition), so its result is determined by the comparator alone; it is
 * modelled by a stable insertion sort, descending by an integer key
 * (an ascending comparator is the descending sort by the negated key).
 */
module Sorting {
  import opened Seqs

  ghost predicate SortedDesc<T>(s: seq<T>, key: T -> int)
  {
    forall i, j :: 0 <= i < j < |s| ==> key(s[i]) >= key(s[j])
  }

  /** The elements of s whose key is k, in their order in s. */
  function KeyClass<T>(s: seq<T>, key: T -> int, k: int): seq<T>
  {
    if s == [] then []
    else (if key(s[0]) == k then [s[0]] else []) + KeyClass(s[1..], key, k)
  }

  /** Inserts x after every trailing element whose key is at least x's. */
  function Insert<T>(s: seq<T>, x: T, key: T -> int): (r: seq<T>)
    ensures |r| == |s| + 1
    decreases |s|
  {
    if s == [] || key(s[|s| - 1]) >= key(x) then
      s + [x]
    else
      Insert(s[..|s| - 1], x, key) + [s[|s| - 1]]
  }

  lemma {:induction false} InsertMultiset<T>(s: seq<T>, x: T, key: T -> int)
    ensures multiset(Insert(s, x, key)) == multiset(s) + multiset{x}
    decreases |s|
  {
    if s != [] && key(s[|s| - 1]) < key(x) {
      assert s == s[..|s| - 1] + [s[|s| - 1]];
      InsertMultiset(s[..|s| - 1], x, key);
    }
  }

  lemma {:induction false} InsertSorted<T>(s: seq<T>, x: T, key: T -> int)
    requires SortedDesc(s, key)
    ensures SortedDesc(Insert(s, x, key), key)
    decreases |s|
  {
    if s == [] || key(s[|s| - 1]) >= key(x) {
      var r := s + [x];
      forall i, j | 0 <= i < j < |r| ensures key(r[i]) >= key(r[j]) {
        if j == |s| {
          assert key(s[i]) >= key(s[|s| - 1]);
        }
      }
    } else {
      var init, last := s[..|s| - 1], s[|s| - 1];
      InsertSorted(init, x, key);
      var p := Insert(init, x, key);
      InsertMultiset(init, x, key);
      forall i | 0 <= i < |p| ensures key(p[i]) >= key(last) {
        assert p[i] in multiset(p);
        if p[i] != x {
          assert p[i] in multiset(init);
          var m :| 0 <= m < |init| && init[m] == p[i];
          assert s[m] == p[i];
        }
      }
      var r := p + [last];
      assert r == Insert(s, x, key);
      forall i, j | 0 <= i < j < |r| ensures key(r[i]) >= key(r[j]) {
        if j < |p| {
          assert r[i] == p[i] && r[j] == p[j];
        }
      }
    }
  }

  /** The stable descending sort: ties keep the order they have in s. */
  function SortDesc<T>(s: seq<T>, key: T -> int): (r: seq<T>)
    ensures |r| == |s|
  {
    if s == [] then []
    else Insert(SortDesc(s[..|s| - 1], key), s[|s| - 1], key)
  }

  lemma {:induction false} SortDescMultiset<T>(s: seq<T>, key: T -> int)
    ensures multiset(SortDesc(s, key)) == multiset(s)
  {
    if s != [] {
      assert s == s[..|s| - 1] + [s[|s| - 1]];
      SortDescMultiset(s[..|s| - 1], key);
      InsertMultiset(SortDesc(s[..|s| - 1], key), s[|s| - 1], key);
    }
  }

  lemma {:induction false} SortDescSorted<T>(s: seq<T>, key: T -> int)
    ensures SortedDesc(SortDesc(s, key), key)
  {
    if s != [] {
      SortDescSorted(s[..|s| - 1], key);
      InsertSorted(SortDesc(s[..|s| - 1], key), s[|s| - 1], key);
    }
  }

  lemma SortDescSnoc<T>(s: seq<T>, i: nat, key: T -> int)
    requires i < |s|
    ensures SortDesc(s[..i + 1], key) == Insert(SortDesc(s[..i], key), s[i], key)
  {
    assert s[..i + 1][..i] == s[..i];
  }

  lemma {:induction false} KeyClassAppend<T>(a: seq<T>, b: seq<T>, key: T -> int, k: int)
    ensures KeyClass(a + b, key, k) == KeyClass(a, key, k) + KeyClass(b, key, k)
  {
    if a == [] {
      assert a + b == b;
    } else {
      var head := if key(a[0]) == k then [a[0]] else [];
      assert (a + b)[0] == a[0] && (a + b)[1..] == a[1..] + b;
      KeyClassAppend(a[1..], b, key, k);
      calc {
        KeyClass(a + b, key, k);
        head + KeyClass(a[1..] + b, key, k);
        head + (KeyClass(a[1..], key, k) + KeyClass(b, key, k));
        (head + KeyClass(a[1..], key, k)) + KeyClass(b, key, k);
      }
    }
  }

  lemma {:induction false} InsertKeyClass<T>(s: seq<T>, x: T, key: T -> int, k: int)
    ensures KeyClass(Insert(s, x, key), key, k) == KeyClass(s, key, k) + (if key(x) == k then [x] else [])
    decreases |s|
  {
    KeyClassSingleton(x, key, k);
    if s == [] || key(s[|s| - 1]) >= key(x) {
      KeyClassAppend(s, [x], key, k);
    } else {
      var init, last := s[..|s| - 1], s[|s| - 1];
      assert s == init + [last];
      InsertKeyClass(init, x, key, k);
      KeyClassAppend(Insert(init, x, key), [last], key, k);
      KeyClassAppend(init, [last], key, k);
      KeyClassSingleton(last, key, k);
    }
  }

  lemma KeyClassSingleton<T>(x: T, key: T -> int, k: int)
    ensures KeyClass([x], key, k) == if key(x) == k then [x] else []
  {
    assert [x][1..] == [];
  }

  /** Stability: for every key, the elements with that key appear in the output in their input order. */
  lemma {:induction false} SortDescStable<T>(s: seq<T>, key: T -> int, k: int)
    ensures KeyClass(SortDesc(s, key), key, k) == KeyClass(s, key, k)
  {
    if s != [] {
      var init, last := s[..|s| - 1], s[|s| - 1];
      assert s == init + [last];
      SortDescStable(init, key, k);
      InsertKeyClass(SortDesc(init, key), last, key, k);
      KeyClassAppend(init, [last], key, k);
      KeyClassSingleton(last, key, k);
    }
  }

  /** Two sorted permutations of one another start with equal keys. */
  lemma SortedHeadsAgree<T>(t: seq<T>, u: seq<T>, key: T -> int)
    requires SortedDesc(t, key) && SortedDesc(u, key)
    requires multiset(t) == multiset(u) && t != []
    ensures u != [] && key(t[0]) == key(u[0])
  {
    assert |u| == |multiset(u)| == |multiset(t)| == |t|;
    assert t[0] in multiset(u) && u[0] in multiset(t);
    var i :| 0 <= i < |u| && u[i] == t[0];
    var j :| 0 <= j < |t| && t[j] == u[0];
  }

  /** The first element of s heads its own key class. */
  lemma KeyClassCons<T>(s: seq<T>, key: T -> int, k: int)
    requires s != []
    ensures KeyClass(s, key, k) == (if key(s[0]) == k then [s[0]] else []) + KeyClass(s[1..], key, k)
  {
  }

  /** Removing one common head keeps every key class equal. */
  lemma KeyClassTails<T>(t: seq<T>, u: seq<T>, key: T -> int)
    requires t != [] && u != [] && t[0] == u[0]
    requires forall k :: KeyClass(t, key, k) == KeyClass(u, key, k)
    ensures forall k :: KeyClass(t[1..], key, k) == KeyClass(u[1..], key, k)
  {
    forall k ensures KeyClass(t[1..], key, k) == KeyClass(u[1..], key, k) {
      var head := if key(t[0]) == k then [t[0]] else [];
      KeyClassCons(t, key, k);
      KeyClassCons(u, key, k);
      assert KeyClass(t, key, k) == KeyClass(u, key, k);
      assert KeyClass(t[1..], key, k) == KeyClass(t, key, k)[|head|..];
      assert KeyClass(u[1..], key, k) == KeyClass(u, key, k)[|head|..];
    }
  }

  lemma HeadsEqual<T>(t: seq<T>, u: seq<T>, key: T -> int)
    requires t != [] && u != [] && key(t[0]) == key(u[0])
    requires KeyClass(t, key, key(t[0])) == KeyClass(u, key, key(t[0]))
    ensures t[0] == u[0]
  {
    KeyClassCons(t, key, key(t[0]));
    KeyClassCons(u, key, key(t[0]));
    assert KeyClass(t, key, key(t[0]))[0] == KeyClass(u, key, key(t[0]))[0];
  }

  lemma TailMultiset<T>(t: seq<T>, u: seq<T>)
    requires t != [] && u != [] && t[0] == u[0] && multiset(t) == multiset(u)
    ensures multiset(t[1..]) == multiset(u[1..])
  {
    assert t == [t[0]] + t[1..] && u == [u[0]] + u[1..];
    assert multiset(t[1..]) == multiset(t) - multiset{t[0]};
    assert multiset(u[1..]) == multiset(u) - multiset{u[0]};
  }

  lemma TailSorted<T>(t: seq<T>, key: T -> int)
    requires t != [] && SortedDesc(t, key)
    ensures SortedDesc(t[1..], key)
  {
    forall i, j | 0 <= i < j < |t| - 1 ensures key(t[1..][i]) >= key(t[1..][j]) {
      assert t[1..][i] == t[i + 1] && t[1..][j] == t[j + 1];
    }
  }

  /**
   * Sorted, a permutation and stable together fix the result: any stable
   * sort by this key returns exactly SortDesc.
   */
  lemma {:induction false} StableSortUnique<T>(t: seq<T>, u: seq<T>, key: T -> int)
    requires SortedDesc(t, key) && SortedDesc(u, key)
    requires multiset(t) == multiset(u)
    requires forall k :: KeyClass(t, key, k) == KeyClass(u, key, k)
    ensures t == u
    decreases |t|
  {
    if t == [] {
      assert |multiset(u)| == 0;
    } else {
      SortedHeadsAgree(t, u, key);
      HeadsEqual(t, u, key);
      KeyClassTails(t, u, key);
      TailMultiset(t, u);
      TailSorted(t, key);
      TailSorted(u, key);
      StableSortUnique(t[1..], u[1..], key);
      assert t == [t[0]] + t[1..] && u == [u[0]] + u[1..];
    }
  }

  /** r is sorted by key, a permutation of s, and keeps each key's elements in their order in s. */
  ghost predicate IsStableSortOf<T>(r: seq<T>, s: seq<T>, key: T -> int)
  {
    SortedDesc(r, key) && multiset(r) == multiset(s) && forall k :: KeyClass(r, key, k) == KeyClass(s, key, k)
  }

  /** A sequence is the stable descending sort of s exactly when it is sorted, a permutation of s, and stable. */
  lemma SortDescCharacterized<T>(s: seq<T>, r: seq<T>, key: T -> int)
    ensures r == SortDesc(s, key) <==> IsStableSortOf(r, s, key)
  {
    var t := SortDesc(s, key);
    SortDescSorted(s, key);
    SortDescMultiset(s, key);
    forall k ensures KeyClass(t, key, k) == KeyClass(s, key, k) {
      SortDescStable(s, key, k);
    }
    assert IsStableSortOf(t, s, key);
    if IsStableSortOf(r, s, key) {
      StableSortUnique(r, t, key);
    }
  }

  /** A prefix of a sorted sequence is at least as large as everything after it. */
  lemma PrefixDominates<T>(t: seq<T>, m: nat, key: T -> int)
    requires SortedDesc(t, key) && m <= |t|
    ensures forall x, y :: x in t[..m] && y in multiset(t) - multiset(t[..m]) ==> key(x) >= key(y)
  {
    var r, rest := t[..m], t[m..];
    assert t == r + rest;
    assert multiset(t) == multiset(r) + multiset(rest);
    forall x, y | x in r && y in multiset(t) - multiset(r) ensures key(x) >= key(y) {
      assert y in multiset(rest);
      var i :| 0 <= i < |r| && r[i] == x;
      var j :| 0 <= j < |rest| && rest[j] == y;
      assert t[i] == x && t[m + j] == y;
    }
  }

  /** For each key, a prefix keeps an initial part of that key's elements. */
  lemma PrefixKeyClass<T>(t: seq<T>, m: nat, key: T -> int, k: int)
    requires m <= |t|
    ensures KeyClass(t[..m], key, k) <= KeyClass(t, key, k)
  {
    assert t == t[..m] + t[m..];
    KeyClassAppend(t[..m], t[m..], key, k);
  }

  /** A prefix of a sorted sequence is sorted. */
  lemma PrefixSorted<T>(t: seq<T>, m: nat, key: T -> int)
    requires SortedDesc(t, key) && m <= |t|
    ensures SortedDesc(t[..m], key)
  {
  }

  /**
   * The first n elements of the sorted sequence (`sort(...).slice(0, n)`):
   * sorted, drawn from s, at least as large as everything left out, and for
   * each key an initial part of that key's elements in input order.
   */
  lemma TopOfSort<T>(s: seq<T>, key: T -> int, n: int, k: int)
    ensures var r := Slice(SortDesc(s, key), n);
      && (n >= 0 ==> |r| == Min(n, |s|))
      && SortedDesc(r, key)
      && multiset(r) <= multiset(s)
      && (forall x, y :: x in r && y in multiset(s) - multiset(r) ==> key(x) >= key(y))
      && KeyClass(r, key, k) <= KeyClass(s, key, k)
  {
    var t := SortDesc(s, key);
    var r := Slice(t, n);
    SortDescSorted(s, key);
    SortDescMultiset(s, key);
    assert t == r + t[|r|..];
    assert multiset(t) == multiset(r) + multiset(t[|r|..]);
    PrefixSorted(t, |r|, key);
    PrefixDominates(t, |r|, key);
    PrefixKeyClass(t, |r|, key, k);
    SortDescStable(s, key, k);
  }

  /**
   * Insert places x right after the last element whose key is at least x's:
   * at any j where the element before is at least x and everything from j on
   * is smaller.
   */
  lemma {:induction false} InsertAt<T>(s: seq<T>, x: T, key: T -> int, j: nat)
    requires j <= |s|
    requires j == 0 || key(s[j - 1]) >= key(x)
    requires forall m :: j <= m < |s| ==> key(s[m]) < key(x)
    ensures Insert(s, x, key) == s[..j] + [x] + s[j..]
    decreases |s|
  {
    if j == |s| {
      assert s[..j] == s && s[j..] == [];
    } else {
      var init, last := s[..|s| - 1], s[|s| - 1];
      assert key(last) < key(x);
      InsertAt(init, x, key, j);
      assert s[..j] == init[..j];
      assert s[j..] == init[j..] + [last];
    }
  }

  /**
   * The in-place insertion sort behind every `.sort(...)` call that mutates
   * its array: afterwards the array holds the stable sort of its old contents.
   */
  method SortInPlace<T>(a: array<T>, key: T -> int)
    modifies a
    ensures a[..] == SortDesc(old(a[..]), key)
  {
    ghost var s := a[..];
    var i := 0;
    while i < a.Length
      invariant 0 <= i <= a.Length
      invariant a[..i] == SortDesc(s[..i], key)
      invariant a[i..] == s[i..]
    {
      InsertInPlace(a, i, key);
      SortDescSnoc(s, i, key);
      i := i + 1;
    }
    assert a[..] == a[..a.Length] && s == s[..a.Length];
  }

  /** One step of the insertion sort: a[i] moves left past every larger-keyed element of a[..i]. */
  method InsertInPlace<T>(a: array<T>, i: nat, key: T -> int)
    requires i < a.Length
    modifies a
    ensures a[..i + 1] == Insert(old(a[..i]), old(a[i]), key)
    ensures a[i + 1..] == old(a[i + 1..])
  {
    var x := a[i];
    ghost var sorted := a[..i];
    ghost var rest := a[i + 1..];
    var j := i;
    while j > 0 && key(a[j - 1]) < key(x)
      invariant 0 <= j <= i
      invariant forall m :: 0 <= m < j ==> a[m] == sorted[m]
      invariant forall m :: j < m <= i ==> a[m] == sorted[m - 1]
      invariant forall m :: i < m < a.Length ==> a[m] == rest[m - i - 1]
      invariant forall m :: j <= m < i ==> key(sorted[m]) < key(x)
    {
      a[j] := a[j - 1];
      j := j - 1;
    }
    a[j] := x;
    InsertAt(sorted, x, key, j);
    assert a[..i + 1] == sorted[..j] + [x] + sorted[j..];
    assert a[i + 1..] == rest;
  }
}
