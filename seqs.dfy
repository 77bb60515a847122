/** The two sequence operations the core is built from: `Array.prototype.filter` and a stable
    `Array.prototype.sort` whose comparator subtracts integer keys. */
module Seqs {

  /** `s.filter(p)`: the elements of `s` that satisfy `p`, in their original order. */
  function Filter<T>(s: seq<T>, p: T -> bool): (r: seq<T>)
    ensures |r| <= |s|
    ensures forall x | x in r :: x in s && p(x)
    ensures forall x | x in s && p(x) :: x in r
    ensures forall i | 0 <= i < |r| :: p(r[i])
    ensures multiset(r) <= multiset(s)
  {
    if s == [] then []
    else
      assert s == [s[0]] + s[1..];
      if p(s[0]) then [s[0]] + Filter(s[1..], p)
      else Filter(s[1..], p)
  }

  /** `r` is obtained from `s` by deleting elements: what is left keeps its relative order. */
  ghost predicate IsSubsequence<T>(r: seq<T>, s: seq<T>)
    decreases |s|
  {
    if r == [] then true
    else if s == [] then false
    else (r[0] == s[0] && IsSubsequence(r[1..], s[1..])) || IsSubsequence(r, s[1..])
  }

  /** A subsequence of a subsequence is a subsequence. */
  lemma {:induction false} SubsequenceTransitive<T>(a: seq<T>, b: seq<T>, c: seq<T>)
    requires IsSubsequence(a, b) && IsSubsequence(b, c)
    ensures IsSubsequence(a, c)
    decreases |c|
  {
    if a != [] {
      if b[0] == c[0] && IsSubsequence(b[1..], c[1..]) {
        if a[0] == b[0] && IsSubsequence(a[1..], b[1..]) {
          SubsequenceTransitive(a[1..], b[1..], c[1..]);
        } else {
          SubsequenceTransitive(a, b[1..], c[1..]);
        }
      } else {
        SubsequenceTransitive(a, b, c[1..]);
      }
    }
  }

  /** Filtering keeps the order of what it keeps. */
  lemma {:induction false} FilterIsSubsequence<T>(s: seq<T>, p: T -> bool)
    ensures IsSubsequence(Filter(s, p), s)
  {
    if s != [] {
      FilterIsSubsequence(s[1..], p);
      var r := Filter(s, p);
      if p(s[0]) {
        assert r[0] == s[0] && r[1..] == Filter(s[1..], p);
      }
    }
  }

  lemma {:induction false} FilterAppend<T>(a: seq<T>, b: seq<T>, p: T -> bool)
    ensures Filter(a + b, p) == Filter(a, p) + Filter(b, p)
  {
    if a == [] {
      assert a + b == b;
    } else {
      assert (a + b)[1..] == a[1..] + b;
      FilterAppend(a[1..], b, p);
    }
  }

  /** Filtering by `p` and then by `q` keeps what satisfies both. */
  lemma {:induction false} FilterFilter<T>(s: seq<T>, p: T -> bool, q: T -> bool, pq: T -> bool)
    requires forall x :: pq(x) == (p(x) && q(x))
    ensures Filter(Filter(s, p), q) == Filter(s, pq)
  {
    if s != [] {
      FilterFilter(s[1..], p, q, pq);
    }
  }

  /** Filtering with a predicate that holds of every element changes nothing. */
  lemma {:induction false} FilterAll<T>(s: seq<T>, p: T -> bool)
    requires forall i | 0 <= i < |s| :: p(s[i])
    ensures Filter(s, p) == s
  {
    if s != [] {
      FilterAll(s[1..], p);
    }
  }

  /** A partition into the elements that satisfy `p` and those that do not is a permutation. */
  lemma {:induction false} FilterPartition<T>(s: seq<T>, p: T -> bool, notP: T -> bool)
    requires forall x :: notP(x) == !p(x)
    ensures multiset(Filter(s, p) + Filter(s, notP)) == multiset(s)
    ensures |Filter(s, p)| + |Filter(s, notP)| == |s|
  {
    if s != [] {
      FilterPartition(s[1..], p, notP);
      assert s == [s[0]] + s[1..];
    }
  }

  /** `a - b <= 0` for every pair `a` before `b`: what `sort((a, b) => key(a) - key(b))` achieves. */
  ghost predicate SortedBy<T>(s: seq<T>, key: T -> int)
  {
    forall i, j | 0 <= i < j < |s| :: key(s[i]) <= key(s[j])
  }

  /** The elements whose key is `k`. */
  function KeyIs<T>(key: T -> int, k: int): T -> bool
  {
    x => key(x) == k
  }

  /** Inserts `x` after every element whose key is at most `x`'s. */
  function Insert<T>(x: T, s: seq<T>, key: T -> int): (r: seq<T>)
    ensures multiset(r) == multiset(s) + multiset{x}
    ensures |r| == |s| + 1
  {
    if s == [] then [x]
    else if key(x) < key(s[0]) then [x] + s
    else
      assert s == [s[0]] + s[1..];
      [s[0]] + Insert(x, s[1..], key)
  }

  /** A stable sort by ascending key: insertion sort taking the elements in input order. */
  function SortBy<T>(s: seq<T>, key: T -> int): (r: seq<T>)
    ensures multiset(r) == multiset(s)
    ensures |r| == |s|
  {
    if s == [] then []
    else
      var p := s[..|s| - 1];
      assert s == p + [s[|s| - 1]];
      Insert(s[|s| - 1], SortBy(p, key), key)
  }

  lemma {:induction false} InsertSorted<T>(x: T, s: seq<T>, key: T -> int)
    requires SortedBy(s, key)
    ensures SortedBy(Insert(x, s, key), key)
  {
    if s != [] && key(x) >= key(s[0]) {
      InsertSorted(x, s[1..], key);
      var r := Insert(x, s, key);
      forall j | 0 < j < |r| ensures key(r[0]) <= key(r[j]) {
        assert r[j] in multiset(s[1..]) + multiset{x};
        assert r[j] in s[1..] || r[j] == x;
      }
    }
  }

  /** The output of `SortBy` is in non-decreasing key order. */
  lemma {:induction false} SortBySorted<T>(s: seq<T>, key: T -> int)
    ensures SortedBy(SortBy(s, key), key)
  {
    if s != [] {
      SortBySorted(s[..|s| - 1], key);
      InsertSorted(s[|s| - 1], SortBy(s[..|s| - 1], key), key);
    }
  }

  lemma {:induction false} NoneWithKey<T>(s: seq<T>, key: T -> int, k: int)
    requires forall i | 0 <= i < |s| :: key(s[i]) != k
    ensures Filter(s, KeyIs(key, k)) == []
  {
    if s != [] {
      NoneWithKey(s[1..], key, k);
    }
  }

  /** Inserting `x` puts it after every element already there with the same key. */
  lemma {:induction false} InsertStable<T>(x: T, s: seq<T>, key: T -> int, k: int)
    requires SortedBy(s, key)
    ensures Filter(Insert(x, s, key), KeyIs(key, k))
         == Filter(s, KeyIs(key, k)) + Filter([x], KeyIs(key, k))
  {
    if s == [] {
    } else if key(x) < key(s[0]) {
      InsertFront(x, s, key, k);
    } else {
      InsertStable(x, s[1..], key, k);
      InsertBehind(x, s, key, k);
    }
  }

  lemma InsertFront<T>(x: T, s: seq<T>, key: T -> int, k: int)
    requires SortedBy(s, key) && s != [] && key(x) < key(s[0])
    ensures Filter(Insert(x, s, key), KeyIs(key, k))
         == Filter(s, KeyIs(key, k)) + Filter([x], KeyIs(key, k))
  {
    if key(x) == k {
      NoneWithKey(s, key, k);
    }
    FilterAppend([x], s, KeyIs(key, k));
  }

  lemma InsertBehind<T>(x: T, s: seq<T>, key: T -> int, k: int)
    requires s != [] && key(x) >= key(s[0])
    requires Filter(Insert(x, s[1..], key), KeyIs(key, k))
          == Filter(s[1..], KeyIs(key, k)) + Filter([x], KeyIs(key, k))
    ensures Filter(Insert(x, s, key), KeyIs(key, k))
         == Filter(s, KeyIs(key, k)) + Filter([x], KeyIs(key, k))
  {
    var p := KeyIs(key, k);
    var ins := Insert(x, s, key);
    assert ins[0] == s[0] && ins[1..] == Insert(x, s[1..], key);
    FilterCons(ins, p);
    FilterCons(s, p);
    ConcatShift(Filter(ins, p), Filter(s, p), Filter([s[0]], p), Filter(s[1..], p), Filter(ins[1..], p), Filter([x], p));
  }

  lemma ConcatShift<T>(fIns: seq<T>, fS: seq<T>, head: seq<T>, tail: seq<T>, fR: seq<T>, last: seq<T>)
    requires fIns == head + fR && fR == tail + last && fS == head + tail
    ensures fIns == fS + last
  {
  }

  /** Filtering one element off the front. */
  lemma FilterCons<T>(s: seq<T>, p: T -> bool)
    requires s != []
    ensures Filter(s, p) == Filter([s[0]], p) + Filter(s[1..], p)
  {
  }

  /** Stability: the elements of each key keep their input order. Together with `SortBySorted`
      and the permutation in `SortBy`'s contract this pins the result down completely. */
  lemma {:induction false} SortByStable<T>(s: seq<T>, key: T -> int, k: int)
    ensures Filter(SortBy(s, key), KeyIs(key, k)) == Filter(s, KeyIs(key, k))
  {
    if s != [] {
      var p, x := s[..|s| - 1], s[|s| - 1];
      var q := KeyIs(key, k);
      var sorted := SortBy(p, key);
      assert SortBy(s, key) == Insert(x, sorted, key);
      SortByStable(p, key, k);
      SortBySorted(p, key);
      InsertStable(x, sorted, key, k);
      assert s == p + [x];
      FilterAppend(p, [x], q);
      SameTail(Filter(SortBy(s, key), q), Filter(sorted, q), Filter(p, q), Filter([x], q), Filter(s, q));
    }
  }

  lemma SameTail<T>(whole: seq<T>, front: seq<T>, front': seq<T>, last: seq<T>, whole': seq<T>)
    requires whole == front + last && front == front' && whole' == front' + last
    ensures whole == whole'
  {
  }
}
