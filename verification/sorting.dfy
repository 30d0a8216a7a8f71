/** `Array#sort` by a key and `Array#select`, as the metadata code uses them. */
module Sorting {

  /** `s` is in ascending order of `key`. */
  ghost predicate SortedBy<T>(s: seq<T>, key: T -> int) {
    forall i, j :: 0 <= i < j < |s| ==> key(s[i]) <= key(s[j])
  }

  /** Insert `x` into the sorted `s` after every element whose key is smaller. */
  function Insert<T>(x: T, s: seq<T>, key: T -> int): (r: seq<T>)
    ensures multiset(r) == multiset(s) + multiset{x}
  {
    if s == [] || key(x) <= key(s[0]) then [x] + s
    else
      assert s == [s[0]] + s[1..];
      [s[0]] + Insert(x, s[1..], key)
  }

  lemma {:induction false} InsertSorted<T>(x: T, s: seq<T>, key: T -> int)
    requires SortedBy(s, key)
    ensures SortedBy(Insert(x, s, key), key)
    ensures Insert(x, s, key) != [] && (s != [] ==> Insert(x, s, key)[0] == (if key(x) <= key(s[0]) then x else s[0]))
  {
    if s != [] && key(x) > key(s[0]) {
      InsertSorted(x, s[1..], key);
      var t := Insert(x, s[1..], key);
      assert Insert(x, s, key) == [s[0]] + t;
      forall y | y in t ensures key(s[0]) <= key(y) {
        assert y in multiset(t);
        if y != x {
          assert y in multiset(s[1..]);
          var j :| 0 <= j < |s[1..]| && s[1..][j] == y;
          assert s[j + 1] == y;
        }
      }
    }
  }

  /** `s.sort { |a, b| key(a) <=> key(b) }`, as a stable sort: equal keys keep their order. */
  function SortBy<T>(s: seq<T>, key: T -> int): (r: seq<T>)
    ensures multiset(r) == multiset(s)
  {
    if s == [] then []
    else
      assert s == [s[0]] + s[1..];
      Insert(s[0], SortBy(s[1..], key), key)
  }

  /** The sorted result is in ascending key order and a permutation of the input. */
  lemma {:induction false} SortBySorted<T>(s: seq<T>, key: T -> int)
    ensures SortedBy(SortBy(s, key), key)
    ensures multiset(SortBy(s, key)) == multiset(s)
    ensures |SortBy(s, key)| == |s|
  {
    if s != [] {
      SortBySorted(s[1..], key);
      InsertSorted(s[0], SortBy(s[1..], key), key);
    }
    assert |multiset(SortBy(s, key))| == |multiset(s)|;
  }

  /** Selects the elements whose key is `k`. */
  function KeyIs<T>(key: T -> int, k: int): T -> bool {
    x => key(x) == k
  }

  /** Inserting `x` passes only smaller keys, so among the elements of any one
      key `x` comes first, as if it were prepended. */
  lemma {:induction false} InsertStable<T>(x: T, s: seq<T>, key: T -> int, k: int)
    ensures Select(Insert(x, s, key), KeyIs(key, k)) == Select([x] + s, KeyIs(key, k))
  {
    var keep := KeyIs(key, k);
    assert ([x] + s)[1..] == s;
    if s != [] && key(x) > key(s[0]) {
      var t := s[1..];
      InsertStable(x, t, key, k);
      assert ([s[0]] + Insert(x, t, key))[1..] == Insert(x, t, key);
      assert ([x] + t)[1..] == t;
      assert s == [s[0]] + t;
      assert ([s[0]] + t)[1..] == t;
      // At most one of `x` and `s[0]` has key `k`, so their order does not matter.
      assert !(keep(x) && keep(s[0]));
    }
  }

  /** Stability: for every key, the elements with that key appear in the sorted
      result in the order they have in the input. */
  lemma {:induction false} SortByStable<T>(s: seq<T>, key: T -> int, k: int)
    ensures Select(SortBy(s, key), KeyIs(key, k)) == Select(s, KeyIs(key, k))
  {
    if s != [] {
      SortByStable(s[1..], key, k);
      InsertStable(s[0], SortBy(s[1..], key), key, k);
      assert ([s[0]] + SortBy(s[1..], key))[1..] == SortBy(s[1..], key);
      assert s == [s[0]] + s[1..];
    }
  }

  /** `a` is obtained from `b` by deleting elements. */
  ghost predicate IsSubsequence<T>(a: seq<T>, b: seq<T>)
    decreases |b|
  {
    if a == [] then true
    else if b == [] then false
    else if a[0] == b[0] then IsSubsequence(a[1..], b[1..])
    else IsSubsequence(a, b[1..])
  }

  /** `s.select { |x| keep(x) }`. */
  function Select<T>(s: seq<T>, keep: T -> bool): (r: seq<T>)
    ensures forall i :: 0 <= i < |r| ==> r[i] in s && keep(r[i])
    ensures forall i :: 0 <= i < |s| && keep(s[i]) ==> s[i] in r
  {
    if s == [] then []
    else
      assert s == [s[0]] + s[1..];
      (if keep(s[0]) then [s[0]] else []) + Select(s[1..], keep)
  }

  /** The selection keeps the order of the input. */
  lemma {:induction false} SelectIsSubsequence<T>(s: seq<T>, keep: T -> bool)
    ensures IsSubsequence(Select(s, keep), s)
  {
    if s != [] {
      SelectIsSubsequence(s[1..], keep);
      var t := Select(s[1..], keep);
      if keep(s[0]) {
        assert Select(s, keep) == [s[0]] + t;
        assert ([s[0]] + t)[1..] == t;
      } else {
        assert Select(s, keep) == t;
        SubsequenceDropHead(t, s);
      }
    }
  }

  lemma {:induction false} SubsequenceDropHead<T>(a: seq<T>, b: seq<T>)
    requires b != [] && IsSubsequence(a, b[1..])
    ensures IsSubsequence(a, b)
    decreases |b|, 0
  {
    if a != [] && a[0] == b[0] {
      // IsSubsequence(a, b[1..]) with a[0] == b[0]: drop the head of a too.
      SubsequenceWeaken(a, b[1..]);
    }
  }

  lemma {:induction false} SubsequenceWeaken<T>(a: seq<T>, b: seq<T>)
    requires a != [] && IsSubsequence(a, b)
    ensures IsSubsequence(a[1..], b)
    decreases |b|, 1
  {
    if b != [] {
      if a[0] == b[0] {
        if a[1..] != [] {
          SubsequenceDropHead(a[1..], b);
        }
      } else {
        SubsequenceWeaken(a, b[1..]);
        SubsequenceDropHead(a[1..], b);
      }
    }
  }

  /** A subsequence of a sorted sequence is sorted. */
  lemma {:induction false} SubsequenceSorted<T>(a: seq<T>, b: seq<T>, key: T -> int)
    requires IsSubsequence(a, b) && SortedBy(b, key)
    ensures SortedBy(a, key)
    decreases |b|
  {
    if a != [] && b != [] {
      assert SortedBy(b[1..], key) by {
        forall i, j | 0 <= i < j < |b[1..]| ensures key(b[1..][i]) <= key(b[1..][j]) {
          assert b[1..][i] == b[i + 1] && b[1..][j] == b[j + 1];
        }
      }
      if a[0] == b[0] {
        SubsequenceSorted(a[1..], b[1..], key);
        SubsequenceMembers(a[1..], b[1..]);
        forall j | 0 < j < |a| ensures key(a[0]) <= key(a[j]) {
          assert a[1..][j - 1] == a[j];
          assert a[j] in a[1..];
          var k :| 0 <= k < |b[1..]| && b[1..][k] == a[j];
          assert b[k + 1] == a[j];
        }
        forall i, j | 0 <= i < j < |a| ensures key(a[i]) <= key(a[j]) {
          if i > 0 { assert a[1..][i - 1] == a[i] && a[1..][j - 1] == a[j]; }
        }
      } else {
        SubsequenceSorted(a, b[1..], key);
      }
    }
  }

  lemma {:induction false} SubsequenceMembers<T>(a: seq<T>, b: seq<T>)
    requires IsSubsequence(a, b)
    ensures forall x :: x in a ==> exists k :: 0 <= k < |b| && b[k] == x
    decreases |b|
  {
    if a != [] && b != [] {
      if a[0] == b[0] {
        SubsequenceMembers(a[1..], b[1..]);
        forall x | x in a ensures exists k :: 0 <= k < |b| && b[k] == x {
          if x == a[0] { assert b[0] == x; }
          else {
            assert x in a[1..];
            var k :| 0 <= k < |b[1..]| && b[1..][k] == x;
            assert b[k + 1] == x;
          }
        }
      } else {
        SubsequenceMembers(a, b[1..]);
        forall x | x in a ensures exists k :: 0 <= k < |b| && b[k] == x {
          var k :| 0 <= k < |b[1..]| && b[1..][k] == x;
          assert b[k + 1] == x;
        }
      }
    }
  }
}
